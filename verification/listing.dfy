/**
 * Enumerator and matcher filter: the recursive listing pattern built from the
 * user's path (`get_files`) and the selection of matching entries from the
 * listing (`get_matched_paths`). The directory walk itself is the `glob`
 * crate's; here a listing is the sequence of entries it yields.
 */
module Listing {
  import opened Text

  /** One item yielded by the walk: a readable path, or the error reading it. */
  datatype Entry = Readable(path: string) | Unreadable(error: string)

  /** The entry is kept by the filter: it was read and its path matches. */
  predicate Kept(e: Entry, isMatch: string -> bool) {
    e.Readable? && isMatch(e.path)
  }

  /**
   * The pattern handed to `glob`: everything below `filepath`, at any depth.
   * It extends `filepath`, ends with `/**/*`, and adds exactly four
   * characters when `filepath` already ends with a slash, five otherwise.
   */
  function ListingPattern(filepath: string): (pattern: string)
    ensures filepath <= pattern
    ensures EndsWith(pattern, "/**/*")
    ensures |pattern| == |filepath| + (if EndsWith(filepath, "/") then 4 else 5)
  {
    if EndsWith(filepath, "/") then
      assert (filepath + "**/*")[|filepath| - 1..] == filepath[|filepath| - 1..] + "**/*";
      filepath + "**/*"
    else
      filepath + "/**/*"
  }

  /**
   * `get_matched_paths`: the readable entries whose path matches, in listing
   * order; unreadable entries are dropped.
   */
  function MatchedPaths(entries: seq<Entry>, isMatch: string -> bool): (paths: seq<string>)
    ensures |paths| <= |entries|
    ensures forall k :: 0 <= k < |paths| ==> isMatch(paths[k]) && Readable(paths[k]) in entries
  {
    if entries == [] then
      []
    else
      var rest := MatchedPaths(entries[1..], isMatch);
      assert forall k :: 0 <= k < |rest| ==> Readable(rest[k]) in entries by {
        assert forall e :: e in entries[1..] ==> e in entries;
      }
      if Kept(entries[0], isMatch) then [entries[0].path] + rest else rest
  }

  /** Every position of `tail` moved one place to the right. */
  function Shifted(tail: seq<nat>): (r: seq<nat>)
    ensures |r| == |tail|
    ensures forall k :: 0 <= k < |tail| ==> r[k] == tail[k] + 1
  {
    seq(|tail|, k requires 0 <= k < |tail| => tail[k] + 1)
  }

  /** The positions of the listing that the filter keeps, in increasing order. */
  ghost function KeptPositions(entries: seq<Entry>, isMatch: string -> bool): (positions: seq<nat>)
    ensures |positions| == |MatchedPaths(entries, isMatch)|
  {
    if entries == [] then
      []
    else
      var shifted := Shifted(KeptPositions(entries[1..], isMatch));
      if Kept(entries[0], isMatch) then [0] + shifted else shifted
  }

  /** One unfolding of the kept positions and the matched paths at the first entry. */
  lemma ListingUnfold(entries: seq<Entry>, isMatch: string -> bool)
    requires entries != []
    ensures var t, pt := KeptPositions(entries[1..], isMatch), MatchedPaths(entries[1..], isMatch);
      if Kept(entries[0], isMatch) then
        KeptPositions(entries, isMatch) == [0] + Shifted(t) && MatchedPaths(entries, isMatch) == [entries[0].path] + pt
      else
        KeptPositions(entries, isMatch) == Shifted(t) && MatchedPaths(entries, isMatch) == pt
  {
  }

  /** The k-th matched path comes from the entry at the k-th kept position. */
  lemma {:induction false} KeptPositionAt(entries: seq<Entry>, isMatch: string -> bool, k: nat)
    requires k < |KeptPositions(entries, isMatch)|
    ensures KeptPositions(entries, isMatch)[k] < |entries|
    ensures k < |MatchedPaths(entries, isMatch)|
    ensures entries[KeptPositions(entries, isMatch)[k]] == Readable(MatchedPaths(entries, isMatch)[k])
  {
    ListingUnfold(entries, isMatch);
    if !(Kept(entries[0], isMatch) && k == 0) {
      KeptPositionAt(entries[1..], isMatch, if Kept(entries[0], isMatch) then k - 1 else k);
    }
  }

  /** Kept positions are strictly increasing. */
  lemma {:induction false} KeptPositionsIncreasing(entries: seq<Entry>, isMatch: string -> bool)
    ensures forall k, l :: 0 <= k < l < |KeptPositions(entries, isMatch)| ==>
      KeptPositions(entries, isMatch)[k] < KeptPositions(entries, isMatch)[l]
  {
    if entries != [] {
      KeptPositionsIncreasing(entries[1..], isMatch);
    }
  }

  /** A position is kept exactly when its entry was read and its path matches. */
  lemma {:induction false} KeptPositionsExact(entries: seq<Entry>, isMatch: string -> bool)
    ensures forall i :: 0 <= i < |entries| ==>
      (Kept(entries[i], isMatch) <==> i in KeptPositions(entries, isMatch))
  {
    if entries != [] {
      var tail := entries[1..];
      KeptPositionsExact(tail, isMatch);
      var t := KeptPositions(tail, isMatch);
      var idx := KeptPositions(entries, isMatch);
      var shifted := Shifted(t);
      assert forall j :: j in shifted ==> j >= 1;
      forall i | 1 <= i < |entries|
        ensures Kept(entries[i], isMatch) <==> i in idx
      {
        assert entries[i] == tail[i - 1];
        if i - 1 in t {
          var k :| 0 <= k < |t| && t[k] == i - 1;
          assert shifted[k] == i;
        }
        if i in shifted {
          var k :| 0 <= k < |shifted| && shifted[k] == i;
          assert t[k] == i - 1;
        }
      }
    }
  }

  /**
   * The filter's output is the order-preserving subsequence of the kept
   * entries: the k-th matched path is the path of the entry at the k-th kept
   * position, those positions increase, and a position is among them exactly
   * when its entry was read and matches; every unreadable entry is dropped.
   */
  lemma MatchedPathsSubsequence(entries: seq<Entry>, isMatch: string -> bool)
    ensures var idx, paths := KeptPositions(entries, isMatch), MatchedPaths(entries, isMatch);
      && |idx| == |paths|
      && (forall k :: 0 <= k < |idx| ==> idx[k] < |entries| && entries[idx[k]] == Readable(paths[k]))
      && (forall k, l :: 0 <= k < l < |idx| ==> idx[k] < idx[l])
      && (forall i :: 0 <= i < |entries| ==> (Kept(entries[i], isMatch) <==> i in idx))
  {
    forall k | 0 <= k < |KeptPositions(entries, isMatch)|
      ensures KeptPositions(entries, isMatch)[k] < |entries|
      ensures entries[KeptPositions(entries, isMatch)[k]] == Readable(MatchedPaths(entries, isMatch)[k])
    {
      KeptPositionAt(entries, isMatch, k);
    }
    KeptPositionsIncreasing(entries, isMatch);
    KeptPositionsExact(entries, isMatch);
  }
}
