/**
 * The compiled regular expressions of the `regex` crate, seen from outside:
 * the engine itself is not modelled, so a compiled pattern is the behaviour
 * the renamer relies on.
 */
module Regexes {
  import opened Wrappers

  /** `capture_names().len()`: the implicit whole-match group 0 is always counted. */
  type GroupCount = n: nat | 1 <= n witness 1

  datatype Regex = Regex(
    captureNames: GroupCount,
    isMatch: string -> bool,
    replaceAll: (string, string) -> string)

  /** `Regex::new`: a pattern text compiles or fails with the engine's message. */
  type Compiler = string -> Result<Regex, string>

  /** `replace_all` hands back its input when the pattern matches nowhere in it. */
  ghost predicate NoMatchIsIdentity(re: Regex) {
    forall s, rep :: !re.isMatch(s) ==> re.replaceAll(s, rep) == s
  }
}
