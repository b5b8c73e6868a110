/** The string operations the renamer performs itself, written out over `seq<char>`. */
module Text {

  /** `s.ends_with(suffix)` */
  predicate EndsWith(s: string, suffix: string) {
    |suffix| <= |s| && s[|s| - |suffix|..] == suffix
  }

  /** `pat` is found in `s` starting at index `i`. */
  predicate OccursAt(pat: string, s: string, i: int) {
    0 <= i && i + |pat| <= |s| && s[i..i + |pat|] == pat
  }

  /** `s.contains(pat)` */
  predicate Occurs(pat: string, s: string) {
    exists i | 0 <= i <= |s| :: OccursAt(pat, s, i)
  }

  /**
   * Rust's `str::replace`: the occurrences of `from` are found left to right
   * without overlap and each becomes `to`; an empty `from` matches at every
   * character boundary, the end included.
   */
  function Replace(s: string, from: string, to: string): (r: string)
    ensures from != [] && to == [] ==> |r| <= |s|
    decreases |s|
  {
    if from == [] then
      if s == [] then to else to + [s[0]] + Replace(s[1..], from, to)
    else if s == [] then
      []
    else if from <= s then
      to + Replace(s[|from|..], from, to)
    else
      [s[0]] + Replace(s[1..], from, to)
  }

  lemma PrefixOccurs(pat: string, s: string)
    ensures pat <= s ==> Occurs(pat, s)
  {
    if pat <= s {
      assert OccursAt(pat, s, 0);
    }
  }

  lemma OccursInTail(pat: string, s: string)
    requires s != []
    ensures Occurs(pat, s[1..]) ==> Occurs(pat, s)
  {
    if Occurs(pat, s[1..]) {
      var i :| 0 <= i <= |s[1..]| && OccursAt(pat, s[1..], i);
      assert s[1..][i..i + |pat|] == s[i + 1..i + 1 + |pat|];
      assert OccursAt(pat, s, i + 1);
    }
  }

  /** A string that does not contain the pattern is returned unchanged. */
  lemma {:induction false} ReplaceAbsent(s: string, from: string, to: string)
    requires from != [] && !Occurs(from, s)
    ensures Replace(s, from, to) == s
    decreases |s|
  {
    if s != [] {
      PrefixOccurs(from, s);
      OccursInTail(from, s);
      ReplaceAbsent(s[1..], from, to);
    }
  }

  /** A leading occurrence is replaced and scanning resumes right after it. */
  lemma ReplaceLeading(from: string, rest: string, to: string)
    requires from != []
    ensures Replace(from + rest, from, to) == to + Replace(rest, from, to)
  {
    assert from <= from + rest;
    assert (from + rest)[|from|..] == rest;
  }
}
