/**
 * The worked example of a session over `/photos` holding `a.jpeg`, `b.jpeg`
 * and `notes.txt`, with the default configuration: `.*\.jpeg$` selects the
 * two JPEG files, `(jpeg)` with replacement `jpg` renames them.
 */
module Photos {
  import opened Wrappers
  import opened Text
  import opened Regexes
  import opened Listing
  import opened Patterns
  import opened Planner
  import opened Apply
  import opened Session

  /** `.*\.jpeg$` as the engine compiles it: it matches the paths ending in `.jpeg`. */
  function JpegMatcher(): Regex {
    Regex(1, s => EndsWith(s, ".jpeg"), (s, rep) => s)
  }

  /** `(jpeg)`: one capture group; every `jpeg` is replaced by the replacement text. */
  function JpegRenamer(): Regex {
    Regex(2, s => Occurs("jpeg", s), (s, rep) => Replace(s, "jpeg", rep))
  }

  /** An engine that knows the two default patterns and rejects every other text. */
  function PhotoCompiler(): Compiler {
    s => if s == @".*\.jpeg$" then Ok(JpegMatcher())
         else if s == "(jpeg)" then Ok(JpegRenamer())
         else Err("regex parse error")
  }

  function PhotoListing(): seq<Entry> {
    [Readable("/photos/a.jpeg"), Readable("/photos/b.jpeg"), Readable("/photos/notes.txt")]
  }

  function PhotoPlan(): seq<ChangePair> {
    [("/photos/a.jpeg", "/photos/a.jpg"), ("/photos/b.jpeg", "/photos/b.jpg")]
  }

  lemma JpegRenamerIsIdentityOffMatch()
    ensures NoMatchIsIdentity(JpegRenamer())
  {
    forall s, rep | !JpegRenamer().isMatch(s)
      ensures JpegRenamer().replaceAll(s, rep) == s
    {
      ReplaceAbsent(s, "jpeg", rep);
    }
  }

  /** A stem that holds no `j` is kept, and the `jpeg` after it becomes `jpg`. */
  lemma {:induction false} RenameAfterStem(stem: string)
    requires forall k :: 0 <= k < |stem| ==> stem[k] != 'j'
    ensures Replace(stem + "jpeg", "jpeg", "jpg") == stem + "jpg"
    decreases |stem|
  {
    if stem == [] {
      ReplaceLeading("jpeg", "", "jpg");
      assert "jpeg" + "" == "jpeg";
    } else {
      var s := stem + "jpeg";
      assert s[0] == stem[0] && s[1..] == stem[1..] + "jpeg";
      assert !("jpeg" <= s);
      RenameAfterStem(stem[1..]);
      assert s == [s[0]] + s[1..];
    }
  }

  /** The matcher keeps the two JPEG files, in listing order, and not the notes. */
  lemma PhotoMatches()
    ensures MatchedPaths(PhotoListing(), MatcherRegex(PhotoCompiler(), DefaultConfig().matcher).value.isMatch)
         == ["/photos/a.jpeg", "/photos/b.jpeg"]
  {
    assert Anchored(@".*\.jpeg$") == @".*\.jpeg$";
    assert !EndsWith("/photos/notes.txt", ".jpeg") by {
      assert "/photos/notes.txt"[16] == 't';
    }
  }

  /** Two JPEG files below the root, each with a stem free of `j`, are planned to their `.jpg` names. */
  lemma PlanOfTwo(a: string, a2: string, b: string, b2: string, stemA: string, stemB: string)
    requires a == "/photos" + stemA + "jpeg" && a2 == "/photos" + stemA + "jpg"
    requires b == "/photos" + stemB + "jpeg" && b2 == "/photos" + stemB + "jpg"
    requires forall k :: 0 <= k < |stemA| ==> stemA[k] != 'j'
    requires forall k :: 0 <= k < |stemB| ==> stemB[k] != 'j'
    ensures ChangePairs([a, b], "/photos", JpegRenamer(), "jpg") == [(a, a2), (b, b2)]
  {
    JpegDestination(a, a2, stemA);
    JpegDestination(b, b2, stemB);
  }

  /** Below the root, a name whose stem holds no `j` has its `jpeg` renamed to `jpg`. */
  lemma JpegDestination(path: string, dest: string, stem: string)
    requires path == "/photos" + stem + "jpeg" && dest == "/photos" + stem + "jpg"
    requires forall k :: 0 <= k < |stem| ==> stem[k] != 'j'
    ensures Destination(path, "/photos", JpegRenamer(), "jpg") == dest
  {
    assert "/photos" <= path && path[|"/photos"|..] == stem + "jpeg";
    RenameAfterStem(stem);
  }

  /** The plan renames `a.jpeg` to `a.jpg` and `b.jpeg` to `b.jpg`. */
  lemma PhotoPairs()
    ensures ChangePairs(["/photos/a.jpeg", "/photos/b.jpeg"], "/photos", JpegRenamer(), "jpg") == PhotoPlan()
  {
    PlanOfTwo("/photos/a.jpeg", "/photos/a.jpg", "/photos/b.jpeg", "/photos/b.jpg", "/a.", "/b.");
  }

  /**
   * One pass with every prompt left as seeded and "Apply" picked: the
   * configuration stays the default and the plan above is applied.
   */
  lemma PhotoCycle(refused: nat -> bool)
    ensures Cycle(DefaultConfig(), "/photos", PhotoCompiler(),
                  CycleInput(None, PhotoListing(), None, None, Picked(1), refused))
         == (DefaultConfig(), ApplyPlan(PhotoPlan()))
  {
    PhotoMatches();
    PhotoPairs();
  }

  /** Two renames onto free destinations both go ahead; a third file is untouched. */
  lemma {:induction false} TwoMoves(a: string, a2: string, b: string, b2: string, n: string, refused: nat -> bool)
    requires a != a2 && a != b && a != b2 && a != n && a2 != b && a2 != b2 && a2 != n
    requires b != b2 && b != n && b2 != n
    requires !refused(0) && !refused(1)
    ensures ApplyFrom(map[a := 1, b := 2, n := 3], [(a, a2), (b, b2)], refused, 0)
         == (map[a2 := 1, b2 := 2, n := 3], [Moved, Moved])
  {
    var changes := [(a, a2), (b, b2)];
    var first := Step(map[a := 1, b := 2, n := 3], changes[0], refused(0));
    assert first.0 == map[a2 := 1, b := 2, n := 3] && first.1 == Moved;
    var second := Step(first.0, changes[1], refused(1));
    assert second.0 == map[a2 := 1, b2 := 2, n := 3];
    assert second.1 == Moved;
    assert ApplyFrom(second.0, changes, refused, 2) == (second.0, []);
    assert [second.1] + [] == [Moved];
    assert ApplyFrom(first.0, changes, refused, 1) == (second.0, [Moved]);
    assert ApplyFrom(map[a := 1, b := 2, n := 3], changes, refused, 0) == (second.0, [first.1] + [Moved]);
    assert [first.1] + [Moved] == [Moved, Moved];
  }

  /** A rename onto an existing path is skipped and the next one still goes ahead. */
  lemma {:induction false} SkipThenMove(a: string, a2: string, b: string, b2: string, refused: nat -> bool)
    requires a != a2 && a != b && a != b2 && a2 != b && a2 != b2 && b != b2
    requires !refused(1)
    ensures ApplyFrom(map[a := 1, b := 2, a2 := 4], [(a, a2), (b, b2)], refused, 0)
         == (map[a := 1, b2 := 2, a2 := 4], [AlreadyExists, Moved])
  {
    var changes := [(a, a2), (b, b2)];
    var first := Step(map[a := 1, b := 2, a2 := 4], changes[0], refused(0));
    assert first == (map[a := 1, b := 2, a2 := 4], AlreadyExists);
    var second := Step(first.0, changes[1], refused(1));
    assert second.0 == map[a := 1, b2 := 2, a2 := 4] && second.1 == Moved;
    assert ApplyFrom(second.0, changes, refused, 2) == (second.0, []);
    assert [second.1] + [] == [Moved];
    assert ApplyFrom(first.0, changes, refused, 1) == (second.0, [Moved]);
    assert ApplyFrom(map[a := 1, b := 2, a2 := 4], changes, refused, 0) == (second.0, [first.1] + [Moved]);
    assert [first.1] + [Moved] == [AlreadyExists, Moved];
  }

  /** Applied to the three files, the plan moves both JPEG files and leaves the notes. */
  lemma PhotoApply()
    ensures ApplyFrom(map["/photos/a.jpeg" := 1, "/photos/b.jpeg" := 2, "/photos/notes.txt" := 3],
                      PhotoPlan(), _ => false, 0)
         == (map["/photos/a.jpg" := 1, "/photos/b.jpg" := 2, "/photos/notes.txt" := 3], [Moved, Moved])
  {
    assert "/photos/a.jpeg"[8] != "/photos/b.jpeg"[8];
    assert "/photos/a.jpg"[8] != "/photos/b.jpg"[8];
    assert "/photos/a.jpeg"[8] != "/photos/b.jpg"[8];
    assert "/photos/a.jpg"[8] != "/photos/b.jpeg"[8];
    assert "/photos/a.jpeg"[8] != "/photos/notes.txt"[8];
    assert "/photos/b.jpeg"[8] != "/photos/notes.txt"[8];
    assert "/photos/a.jpg"[8] != "/photos/notes.txt"[8];
    assert "/photos/b.jpg"[8] != "/photos/notes.txt"[8];
    assert |"/photos/a.jpeg"| != |"/photos/a.jpg"| && |"/photos/b.jpeg"| != |"/photos/b.jpg"|;
    TwoMoves("/photos/a.jpeg", "/photos/a.jpg", "/photos/b.jpeg", "/photos/b.jpg", "/photos/notes.txt", _ => false);
  }

  /**
   * With `a.jpg` already present, `a.jpeg` stays where it is, `a.jpg` keeps
   * its own content, and the second pair still goes ahead.
   */
  lemma PhotoApplyExisting()
    ensures ApplyFrom(map["/photos/a.jpeg" := 1, "/photos/b.jpeg" := 2, "/photos/a.jpg" := 4],
                      PhotoPlan(), _ => false, 0)
         == (map["/photos/a.jpeg" := 1, "/photos/b.jpg" := 2, "/photos/a.jpg" := 4], [AlreadyExists, Moved])
  {
    assert "/photos/a.jpeg"[8] != "/photos/b.jpeg"[8];
    assert "/photos/a.jpg"[8] != "/photos/b.jpg"[8];
    assert "/photos/a.jpeg"[8] != "/photos/b.jpg"[8];
    assert "/photos/a.jpg"[8] != "/photos/b.jpeg"[8];
    assert |"/photos/a.jpeg"| != |"/photos/a.jpg"| && |"/photos/b.jpeg"| != |"/photos/b.jpg"|;
    SkipThenMove("/photos/a.jpeg", "/photos/a.jpg", "/photos/b.jpeg", "/photos/b.jpg", _ => false);
  }

  /** The root's text does not occur in `hoot/x.jpeg`. */
  lemma PhotoshootTailFree()
    ensures !Occurs("/photos", "hoot/x." + "jpeg")
  {
    var root, tail := "/photos", "hoot/x." + "jpeg";
    forall i | 0 <= i <= |tail|
      ensures !OccursAt(root, tail, i)
    {
      if i + |root| <= |tail| {
        var window := tail[i..i + |root|];
        if i < 4 {
          assert window[0] == tail[i] != root[0];
        } else {
          assert window[1] == tail[5] != root[1];
        }
      }
    }
  }

  /** Under the source's computation, a root repeated at the front is deleted twice. */
  lemma NestedJpeg(path: string, dest: string, root: string, stem: string)
    requires path == root + root + (stem + "jpeg") && dest == root + (stem + "jpg")
    requires root != [] && !Occurs(root, stem + "jpeg")
    requires forall k :: 0 <= k < |stem| ==> stem[k] != 'j'
    ensures DestinationAsWritten(path, root, JpegRenamer(), "jpg") == dest
  {
    AsWrittenNestedRoot(root, stem + "jpeg", JpegRenamer(), "jpg");
    RenameAfterStem(stem);
  }

  /**
   * A sibling directory whose name starts with the root's last component:
   * `/photos/photoshoot/x.jpeg` is `/photos` twice followed by `hoot/x.jpeg`.
   * The source's computation plans it to `/photoshoot/x.jpg`, outside the
   * root.
   */
  lemma PhotoshootMovedOut()
    ensures DestinationAsWritten("/photos/photoshoot/x.jpeg", "/photos", JpegRenamer(), "jpg") == "/photoshoot/x.jpg"
  {
    PhotoshootTailFree();
    NestedJpeg("/photos/photoshoot/x.jpeg", "/photoshoot/x.jpg", "/photos", "hoot/x.");
  }

  /** The corrected computation renames the same file in place. */
  lemma PhotoshootRenamedInPlace()
    ensures Destination("/photos/photoshoot/x.jpeg", "/photos", JpegRenamer(), "jpg") == "/photos/photoshoot/x.jpg"
  {
    PhotoshootStem("/photoshoot/x.");
    PhotoshootPaths("/photoshoot/x.");
    PhotoshootDest("/photoshoot/x.");
    JpegDestination("/photos/photoshoot/x.jpeg", "/photos/photoshoot/x.jpg", "/photoshoot/x.");
  }

  // The three facts below are about one literal each and are proved
  // separately only because comparing long string literals is costly for
  // the solver; the parameter is pinned to the stem `PhotoshootRenamedInPlace` uses.

  /** The stem of the nested file contains no `j`. */
  lemma PhotoshootStem(stem: string)
    requires stem == "/photoshoot/x."
    ensures forall k :: 0 <= k < |stem| ==> stem[k] != 'j'
  {
  }

  /** The nested file's path and its corrected destination, spelled out. */
  lemma PhotoshootPaths(stem: string)
    requires stem == "/photoshoot/x."
    ensures "/photos" + stem + "jpeg" == "/photos/photoshoot/x.jpeg"
  {
    PhotoshootDest(stem);
  }

  /** The corrected destination, spelled out. */
  lemma PhotoshootDest(stem: string)
    requires stem == "/photoshoot/x."
    ensures "/photos" + stem + "jpg" == "/photos/photoshoot/x.jpg"
  {
  }
}
