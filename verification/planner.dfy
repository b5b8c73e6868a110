/**
 * Planner (`get_change_pairs`): each matched path becomes a pair of the path
 * and its destination. The destination is the root followed by the renamer's
 * `replace_all` applied to the path taken relative to the root.
 */
module Planner {
  import opened Text
  import opened Regexes

  type ChangePair = (string, string)

  /** The pairs in the order of `paths`, each path paired with its destination. */
  function Plan(paths: seq<string>, destination: string -> string): (pairs: seq<ChangePair>)
    ensures |pairs| == |paths|
    ensures forall i :: 0 <= i < |paths| ==> pairs[i].0 == paths[i] && pairs[i].1 == destination(paths[i])
  {
    if paths == [] then [] else [(paths[0], destination(paths[0]))] + Plan(paths[1..], destination)
  }

  /**
   * The destination as the source computes it: every occurrence of the root
   * is deleted from the path (`str::replace(&base_path, "")`), not only the
   * leading one.
   */
  function DestinationAsWritten(path: string, basePath: string, renamer: Regex, replacement: string): (dest: string)
    ensures basePath <= dest
  {
    basePath + renamer.replaceAll(Replace(path, basePath, ""), replacement)
  }

  /** `get_change_pairs` as coded: each path in order, paired with its coded destination. */
  function ChangePairsAsWritten(paths: seq<string>, basePath: string, renamer: Regex, replacement: string)
    : (pairs: seq<ChangePair>)
    ensures |pairs| == |paths|
    ensures forall i :: 0 <= i < |paths| ==> pairs[i].0 == paths[i] && basePath <= pairs[i].1
  {
    Plan(paths, p => DestinationAsWritten(p, basePath, renamer, replacement))
  }

  /**
   * A path that is the root followed by a remainder in which the root does not
   * occur again, and whose remainder the renamer does not match, keeps its
   * place under the source's computation.
   */
  lemma {:induction false} AsWrittenUnmatchedUnchanged(basePath: string, rest: string, renamer: Regex, replacement: string)
    requires NoMatchIsIdentity(renamer)
    requires !Occurs(basePath, rest) && !renamer.isMatch(rest)
    ensures DestinationAsWritten(basePath + rest, basePath, renamer, replacement) == basePath + rest
  {
    assert basePath != [] by {
      PrefixOccurs(basePath, rest);
    }
    ReplaceLeading(basePath, rest, "");
    ReplaceAbsent(rest, basePath, "");
    assert Replace(basePath + rest, basePath, "") == rest;
    assert renamer.replaceAll(rest, replacement) == rest;
  }

  /**
   * The source's computation moves a file out of a sub-directory that repeats
   * the root's path, although the renamer matches nothing: with root `/photos`,
   * the path `/photos/photos/a.jpeg` is planned to go to `/photos/a.jpeg`.
   */
  lemma {:induction false} NestedRootIsMoved(basePath: string, tail: string, renamer: Regex, replacement: string)
    requires NoMatchIsIdentity(renamer)
    requires basePath != [] && !Occurs(basePath, tail) && !renamer.isMatch(tail)
    ensures DestinationAsWritten(basePath + basePath + tail, basePath, renamer, replacement) == basePath + tail
    ensures DestinationAsWritten(basePath + basePath + tail, basePath, renamer, replacement) != basePath + basePath + tail
  {
    AsWrittenNestedRoot(basePath, tail, renamer, replacement);
    assert renamer.replaceAll(tail, replacement) == tail;
  }

  /**
   * The source's computation on a path that repeats the root at its front:
   * both copies are deleted before the renamer sees the remainder.
   */
  lemma {:induction false} AsWrittenNestedRoot(basePath: string, tail: string, renamer: Regex, replacement: string)
    requires basePath != [] && !Occurs(basePath, tail)
    ensures DestinationAsWritten(basePath + basePath + tail, basePath, renamer, replacement)
         == basePath + renamer.replaceAll(tail, replacement)
  {
    ReplaceLeading(basePath, basePath + tail, "");
    ReplaceLeading(basePath, tail, "");
    ReplaceAbsent(tail, basePath, "");
    assert basePath + basePath + tail == basePath + (basePath + tail);
    assert Replace(basePath + basePath + tail, basePath, "") == tail;
  }

  /** The path relative to the root: the leading root, and only it, removed. */
  function Relative(path: string, basePath: string): string {
    if basePath <= path then path[|basePath|..] else path
  }

  /**
   * The destination with the root removed once, from the front: the source's
   * computation with only its stripping step corrected.
   */
  function Destination(path: string, basePath: string, renamer: Regex, replacement: string): (dest: string)
    ensures basePath <= dest
  {
    basePath + renamer.replaceAll(Relative(path, basePath), replacement)
  }

  /** The planned pairs for `paths`, in order (`get_change_pairs`). */
  function ChangePairs(paths: seq<string>, basePath: string, renamer: Regex, replacement: string)
    : (pairs: seq<ChangePair>)
    ensures |pairs| == |paths|
    ensures forall i :: 0 <= i < |paths| ==> pairs[i].0 == paths[i] && basePath <= pairs[i].1
  {
    Plan(paths, p => Destination(p, basePath, renamer, replacement))
  }

  /** Every path under the root that the renamer does not match keeps its place. */
  lemma UnmatchedUnchanged(path: string, basePath: string, renamer: Regex, replacement: string)
    requires NoMatchIsIdentity(renamer)
    requires basePath <= path && !renamer.isMatch(Relative(path, basePath))
    ensures Destination(path, basePath, renamer, replacement) == path
  {
    assert basePath + path[|basePath|..] == path;
  }

  /** The correction agrees with the source wherever the root occurs only at the front. */
  lemma {:induction false} DestinationAgreesAsWritten(basePath: string, rest: string, renamer: Regex, replacement: string)
    requires basePath != [] && !Occurs(basePath, rest)
    ensures Destination(basePath + rest, basePath, renamer, replacement)
         == DestinationAsWritten(basePath + rest, basePath, renamer, replacement)
  {
    ReplaceLeading(basePath, rest, "");
    ReplaceAbsent(rest, basePath, "");
    assert Replace(basePath + rest, basePath, "") == rest;
    assert basePath <= basePath + rest && (basePath + rest)[|basePath|..] == rest;
  }

  /**
   * The planned pairs keep the matched paths and their order, and a pair is
   * unchanged whenever the renamer matches nothing in its path's relative form.
   */
  lemma ChangePairsShape(paths: seq<string>, basePath: string, renamer: Regex, replacement: string)
    requires NoMatchIsIdentity(renamer)
    ensures var pairs := ChangePairs(paths, basePath, renamer, replacement);
      && |pairs| == |paths|
      && (forall i :: 0 <= i < |paths| ==> pairs[i].0 == paths[i])
      && (forall i :: 0 <= i < |paths| && basePath <= paths[i] && !renamer.isMatch(Relative(paths[i], basePath))
            ==> pairs[i].1 == paths[i])
  {
    var pairs := ChangePairs(paths, basePath, renamer, replacement);
    forall i | 0 <= i < |paths| && basePath <= paths[i] && !renamer.isMatch(Relative(paths[i], basePath))
      ensures pairs[i].1 == paths[i]
    {
      UnmatchedUnchanged(paths[i], basePath, renamer, replacement);
    }
  }

  /**
   * For a listing in which the root occurs in every path only at the front,
   * the corrected plan is exactly the plan the source computes.
   */
  lemma ChangePairsAgreeAsWritten(paths: seq<string>, basePath: string, renamer: Regex, replacement: string)
    requires basePath != []
    requires forall i :: 0 <= i < |paths| ==> basePath <= paths[i] && !Occurs(basePath, paths[i][|basePath|..])
    ensures ChangePairs(paths, basePath, renamer, replacement) == ChangePairsAsWritten(paths, basePath, renamer, replacement)
  {
    var pairs := ChangePairs(paths, basePath, renamer, replacement);
    var coded := ChangePairsAsWritten(paths, basePath, renamer, replacement);
    forall i | 0 <= i < |paths|
      ensures pairs[i] == coded[i]
    {
      var rest := paths[i][|basePath|..];
      assert paths[i] == basePath + rest;
      DestinationAgreesAsWritten(basePath, rest, renamer, replacement);
    }
  }
}
