/**
 * Matcher and renamer compilation (`get_matcher_regex`, `get_renamer_regex`):
 * the selection pattern is right-anchored before it is compiled, and the
 * transformation pattern is accepted only with exactly one capture group.
 */
module Patterns {
  import opened Wrappers
  import opened Text
  import opened Regexes

  /**
   * The selection text as it is compiled: the shortest extension of `matcher`
   * that ends with `$` (at most one character is added).
   */
  function Anchored(matcher: string): (text: string)
    ensures matcher <= text && EndsWith(text, "$")
    ensures |text| <= |matcher| + 1
    ensures text == matcher <==> EndsWith(matcher, "$")
  {
    if EndsWith(matcher, "$") then matcher else matcher + "$"
  }

  /** No text that extends `matcher` and ends with `$` is shorter than the anchored one. */
  lemma AnchoredShortest(matcher: string, t: string)
    requires matcher <= t && EndsWith(t, "$")
    ensures |Anchored(matcher)| <= |t|
  {
  }

  /** Anchoring a second time changes nothing. */
  lemma AnchoredIdempotent(matcher: string)
    ensures Anchored(Anchored(matcher)) == Anchored(matcher)
  {
  }

  /** A text without the anchor anchors to the same text as with it written out. */
  lemma {:induction false} AnchoredAbsorbsExplicitAnchor(matcher: string)
    requires !EndsWith(matcher, "$")
    ensures Anchored(matcher) == Anchored(matcher + "$") == matcher + "$"
  {
    assert (matcher + "$")[|matcher + "$"| - 1..] == "$";
  }

  /** `get_matcher_regex`: compile the anchored selection text. */
  function MatcherRegex(compile: Compiler, matcher: string): (r: Result<Regex, string>)
    ensures EndsWith(matcher, "$") ==> r == compile(matcher)
    ensures !EndsWith(matcher, "$") ==> r == compile(matcher + "$")
  {
    compile(Anchored(matcher))
  }

  /**
   * Compiling a selection text that lacks the anchor behaves exactly as
   * compiling the same text with `$` written out.
   */
  lemma MatcherIgnoresExplicitAnchor(compile: Compiler, matcher: string)
    requires !EndsWith(matcher, "$")
    ensures MatcherRegex(compile, matcher) == MatcherRegex(compile, matcher + "$")
  {
    AnchoredAbsorbsExplicitAnchor(matcher);
  }

  /** Why `get_renamer_regex` refuses a transformation pattern. */
  datatype RenamerError = InvalidRegex(debug: string) | NoCaptureGroups | TooManyCaptureGroups {
    /** The message the renamer reports. */
    function Message(): string {
      match this
      case InvalidRegex(debug) => debug
      case NoCaptureGroups => "You don't have any capture groups for renaming?"
      case TooManyCaptureGroups => "Sorry, this can only deal with a single capture group at the moment!"
    }
  }

  /**
   * `get_renamer_regex`: accepted exactly when the text compiles to a pattern
   * with one capture group besides the whole match; a compile failure, no
   * group and several groups are three different errors.
   */
  function RenamerRegex(compile: Compiler, renamer: string): (r: Result<Regex, RenamerError>)
    ensures r.Ok? <==> compile(renamer).Ok? && compile(renamer).value.captureNames == 2
    ensures r.Ok? ==> r.value == compile(renamer).value
    ensures compile(renamer).Err? ==> r == Err(InvalidRegex(compile(renamer).error))
    ensures compile(renamer).Ok? && compile(renamer).value.captureNames == 1 ==> r == Err(NoCaptureGroups)
    ensures compile(renamer).Ok? && compile(renamer).value.captureNames > 2 ==> r == Err(TooManyCaptureGroups)
  {
    match compile(renamer)
    case Err(e) => Err(InvalidRegex(e))
    case Ok(re) =>
      if re.captureNames == 1 then Err(NoCaptureGroups)
      else if re.captureNames > 2 then Err(TooManyCaptureGroups)
      else Ok(re)
  }
}
