/**
 * The session: startup (`main` before its loop), the configuration the loop
 * edits, one pass of the loop (prompts, compilation, filtering, planning, the
 * four-item menu) and the loop itself over a scripted sequence of answers.
 * The terminal widgets are replaced by the answers they would give.
 */
module Session {
  import opened Wrappers
  import opened Text
  import opened Regexes
  import opened Listing
  import opened Patterns
  import opened Planner
  import opened Apply

  /**
   * `main`'s start: the listing pattern must be accepted by `glob` and the
   * user's path must canonicalize, else the process exits with status 1; the
   * canonical path becomes the root.
   */
  function Startup(filepath: string, globAccepts: string -> bool, canonicalize: string -> Option<string>)
    : (r: Result<string, int>)
    ensures r.Err? ==> r.error == 1
    ensures r.Ok? <==> globAccepts(ListingPattern(filepath)) && canonicalize(filepath).Some?
    ensures r.Ok? ==> r.value == canonicalize(filepath).value
  {
    if !globAccepts(ListingPattern(filepath)) then Err(1)
    else match canonicalize(filepath)
      case None => Err(1)
      case Some(root) => Ok(root)
  }

  /** `Config`: the texts the prompts are seeded with, and the display toggle. */
  datatype Config = Config(matcher: string, renamer: string, replacement: string, showUnchanged: bool)

  /**
   * `Config::default()`: the seeded selection text is already anchored, so it
   * is compiled as written, and unchanged files are shown.
   */
  function DefaultConfig(): (c: Config)
    ensures Anchored(c.matcher) == c.matcher
    ensures c.showUnchanged && MenuItems(0, c.showUnchanged)[2] == "Hide unchanged files"
  {
    Config(@".*\.jpeg$", "(jpeg)", "jpg", true)
  }

  /** `n` in decimal, as `format!` writes it. */
  function Decimal(n: nat): (s: string)
    ensures |s| >= 1 && forall k :: 0 <= k < |s| ==> '0' <= s[k] <= '9'
    ensures s[0] == '0' <==> n == 0
    decreases n
  {
    (if n < 10 then "" else Decimal(n / 10)) + [('0' as int + n % 10) as char]
  }

  /** The number a string of decimal digits denotes. */
  function DigitsValue(s: string): nat
    requires forall k :: 0 <= k < |s| ==> '0' <= s[k] <= '9'
  {
    if s == [] then 0 else 10 * DigitsValue(s[..|s| - 1]) + (s[|s| - 1] as int - '0' as int)
  }

  lemma DigitsValueSnoc(prefix: string, digit: char)
    requires forall k :: 0 <= k < |prefix| ==> '0' <= prefix[k] <= '9'
    requires '0' <= digit <= '9'
    ensures DigitsValue(prefix + [digit]) == 10 * DigitsValue(prefix) + (digit as int - '0' as int)
  {
    assert (prefix + [digit])[..|prefix|] == prefix;
  }

  lemma DivideByTen(n: nat)
    ensures n == 10 * (n / 10) + n % 10
    ensures n < 10 ==> n % 10 == n
  {
  }

  /** Reading `Decimal(n)` back: the digits before the last one, then the last one. */
  lemma DecimalLastDigit(n: nat)
    ensures DigitsValue(Decimal(n)) == 10 * DigitsValue(if n < 10 then "" else Decimal(n / 10)) + n % 10
  {
    DigitsValueSnoc(if n < 10 then "" else Decimal(n / 10), ('0' as int + n % 10) as char);
  }

  /** The count written into the menu reads back as the count. */
  lemma {:induction false} DecimalRoundTrip(n: nat)
    ensures DigitsValue(Decimal(n)) == n
    decreases n
  {
    DecimalLastDigit(n);
    DivideByTen(n);
    if n >= 10 {
      DecimalRoundTrip(n / 10);
    }
  }

  /** The menu offered after the preview. */
  function MenuItems(changeCount: nat, showUnchanged: bool): (items: seq<string>)
    ensures |items| == 4
    ensures items[2] == "Hide unchanged files" <==> showUnchanged
  {
    ["Change regexes",
     "Apply changes to " + Decimal(changeCount) + " files",
     if showUnchanged then "Hide unchanged files" else "Show unchanged files",
     "Quit without making changes"]
  }

  /** What the menu widget gives back: a position, a cancellation, or an error. */
  datatype MenuAnswer = Picked(index: nat) | Cancelled | MenuFailed

  /** The answers the user and the system give during one pass of the loop. */
  datatype CycleInput = CycleInput(
    matcherAnswer: Option<string>,
    listing: seq<Entry>,
    renamerAnswer: Option<string>,
    replacementAnswer: Option<string>,
    menuAnswer: MenuAnswer,
    refused: nat -> bool)

  /** How one pass of the loop ends. */
  datatype Action =
    | BadMatcher(matcherError: string)
    | NoMatches
    | BadRenamer(renamerError: RenamerError)
    | ApplyPlan(changes: seq<ChangePair>)
    | ToggleUnchanged
    | Quit
    | Redraw
    | Panic
  {
    /** The pass got as far as the menu. */
    predicate FromMenu() {
      ApplyPlan? || ToggleUnchanged? || Quit? || Redraw? || Panic?
    }
  }

  /**
   * The menu's dispatch: 1 applies the plan, 2 flips `showUnchanged` and
   * nothing else, 3 quits, 0 and a cancellation do nothing; a widget error
   * (`unwrap` of the error) and a position past the four items (indexing
   * `menu_items`) panic.
   */
  function Dispatch(cfg: Config, changes: seq<ChangePair>, answer: MenuAnswer): (r: (Config, Action))
    ensures r.1.FromMenu()
    ensures r.0 == cfg.(showUnchanged := r.0.showUnchanged)
    ensures r.0.showUnchanged != cfg.showUnchanged <==> answer == Picked(2)
    ensures r.1.ApplyPlan? <==> answer == Picked(1)
    ensures r.1.ApplyPlan? ==> r.1.changes == changes
    ensures r.1 == ToggleUnchanged <==> answer == Picked(2)
    ensures r.1 == Quit <==> answer == Picked(3)
    ensures r.1 == Redraw <==> answer == Picked(0) || answer == Cancelled
    ensures r.1 == Panic <==> answer == MenuFailed || (answer.Picked? && answer.index >= 4)
  {
    match answer
    case Picked(1) => (cfg, ApplyPlan(changes))
    case Picked(2) => (cfg.(showUnchanged := !cfg.showUnchanged), ToggleUnchanged)
    case Picked(3) => (cfg, Quit)
    case Picked(i) => (cfg, if i < |MenuItems(|changes|, cfg.showUnchanged)| then Redraw else Panic)
    case Cancelled => (cfg, Redraw)
    case MenuFailed => (cfg, Panic)
  }

  /**
   * One pass of `main`'s loop. Each prompt that fails keeps the previous text.
   * A selection text that does not compile, a selection matching nothing, or
   * a transformation pattern the renamer refuses ends the pass early, with
   * only the texts prompted so far changed; otherwise the plan is computed
   * from the texts just entered and the menu decides.
   */
  function Cycle(cfg: Config, basePath: string, compile: Compiler, input: CycleInput): (r: (Config, Action))
    ensures r.0.matcher == input.matcherAnswer.GetOr(cfg.matcher)
    ensures r.1.BadMatcher? <==> MatcherRegex(compile, r.0.matcher).Err?
    ensures r.1.BadMatcher? || r.1.NoMatches? ==> r.0 == cfg.(matcher := r.0.matcher)
    ensures r.1.NoMatches? <==>
      MatcherRegex(compile, r.0.matcher).Ok? &&
      MatchedPaths(input.listing, MatcherRegex(compile, r.0.matcher).value.isMatch) == []
    ensures r.1.BadRenamer? ==>
      && r.0 == cfg.(matcher := r.0.matcher, renamer := input.renamerAnswer.GetOr(cfg.renamer))
      && RenamerRegex(compile, r.0.renamer).Err? && RenamerRegex(compile, r.0.renamer).error == r.1.renamerError
    ensures r.1.FromMenu() ==>
      && MatcherRegex(compile, r.0.matcher).Ok?
      && RenamerRegex(compile, r.0.renamer).Ok?
      && r.0.renamer == input.renamerAnswer.GetOr(cfg.renamer)
      && r.0.replacement == input.replacementAnswer.GetOr(cfg.replacement)
      && r == Dispatch(
           r.0.(showUnchanged := cfg.showUnchanged),
           ChangePairs(
             MatchedPaths(input.listing, MatcherRegex(compile, r.0.matcher).value.isMatch),
             basePath, RenamerRegex(compile, r.0.renamer).value, r.0.replacement),
           input.menuAnswer)
  {
    var cfg1 := cfg.(matcher := input.matcherAnswer.GetOr(cfg.matcher));
    match MatcherRegex(compile, cfg1.matcher)
    case Err(e) => (cfg1, BadMatcher(e))
    case Ok(matcherRegex) =>
      var matched := MatchedPaths(input.listing, matcherRegex.isMatch);
      if matched == [] then
        (cfg1, NoMatches)
      else
        var cfg2 := cfg1.(renamer := input.renamerAnswer.GetOr(cfg.renamer));
        match RenamerRegex(compile, cfg2.renamer)
        case Err(e) => (cfg2, BadRenamer(e))
        case Ok(renamerRegex) =>
          var cfg3 := cfg2.(replacement := input.replacementAnswer.GetOr(cfg.replacement));
          Dispatch(cfg3, ChangePairs(matched, basePath, renamerRegex, cfg3.replacement), input.menuAnswer)
  }

  /** How the session ended, or that it is still waiting for the next answer. */
  datatype Termination = Exited(code: int) | Panicked | AwaitingInput

  /** The loop run over the scripted passes: configuration, filesystem and ending. */
  ghost function Replay(cfg: Config, files: Files, basePath: string, compile: Compiler, script: seq<CycleInput>)
    : (r: (Config, Files, Termination))
    ensures r.2.Exited? ==> r.2.code == 0
    ensures script == [] ==> r.2 == AwaitingInput
    decreases |script|
  {
    if script == [] then
      (cfg, files, AwaitingInput)
    else
      var r := Cycle(cfg, basePath, compile, script[0]);
      var after := if r.1.ApplyPlan? then ApplyFrom(files, r.1.changes, script[0].refused, 0).0 else files;
      if r.1 == Quit then (r.0, after, Exited(0))
      else if r.1 == Panic then (r.0, after, Panicked)
      else Replay(r.0, after, basePath, compile, script[1..])
  }

  /** A session leaves the filesystem as it was unless the user picks "Apply". */
  lemma {:induction false} ReplayWithoutApply(cfg: Config, files: Files, basePath: string, compile: Compiler, script: seq<CycleInput>)
    requires forall k :: 0 <= k < |script| ==> script[k].menuAnswer != Picked(1)
    ensures Replay(cfg, files, basePath, compile, script).1 == files
    decreases |script|
  {
    if script != [] {
      var r := Cycle(cfg, basePath, compile, script[0]);
      assert !r.1.ApplyPlan?;
      ReplayWithoutApply(r.0, files, basePath, compile, script[1..]);
    }
  }

  /** However many plans a session applies, every file content survives it. */
  lemma {:induction false} ReplayKeepsContents(cfg: Config, files: Files, basePath: string, compile: Compiler, script: seq<CycleInput>)
    ensures Replay(cfg, files, basePath, compile, script).1.Values == files.Values
    decreases |script|
  {
    if script != [] {
      var r := Cycle(cfg, basePath, compile, script[0]);
      var after := if r.1.ApplyPlan? then ApplyFrom(files, r.1.changes, script[0].refused, 0).0 else files;
      if r.1.ApplyPlan? {
        ApplyKeepsContents(files, r.1.changes, script[0].refused, 0);
      }
      ReplayKeepsContents(r.0, after, basePath, compile, script[1..]);
    }
  }

  /** A session exits only with status 0, and only after some pass picked "Quit". */
  lemma {:induction false} ReplayExitsOnlyOnQuit(cfg: Config, files: Files, basePath: string, compile: Compiler, script: seq<CycleInput>)
    ensures Replay(cfg, files, basePath, compile, script).2.Exited? ==>
      Replay(cfg, files, basePath, compile, script).2.code == 0 &&
      exists k :: 0 <= k < |script| && script[k].menuAnswer == Picked(3)
    decreases |script|
  {
    if script != [] {
      var r := Cycle(cfg, basePath, compile, script[0]);
      var after := if r.1.ApplyPlan? then ApplyFrom(files, r.1.changes, script[0].refused, 0).0 else files;
      if r.1 == Quit {
        assert script[0].menuAnswer == Picked(3);
      } else if r.1 != Panic {
        ReplayExitsOnlyOnQuit(r.0, after, basePath, compile, script[1..]);
        if Replay(r.0, after, basePath, compile, script[1..]).2.Exited? {
          var k :| 0 <= k < |script[1..]| && script[1..][k].menuAnswer == Picked(3);
          assert script[k + 1].menuAnswer == Picked(3);
        }
      }
    }
  }

  /** A session panics only at a menu that failed or answered a position past its four items. */
  lemma {:induction false} ReplayPanicsOnlyAtMenu(cfg: Config, files: Files, basePath: string, compile: Compiler, script: seq<CycleInput>)
    ensures Replay(cfg, files, basePath, compile, script).2.Panicked? ==>
      exists k :: 0 <= k < |script| &&
        (script[k].menuAnswer == MenuFailed || (script[k].menuAnswer.Picked? && script[k].menuAnswer.index >= 4))
    decreases |script|
  {
    if script != [] {
      var r := Cycle(cfg, basePath, compile, script[0]);
      var after := if r.1.ApplyPlan? then ApplyFrom(files, r.1.changes, script[0].refused, 0).0 else files;
      if r.1 == Panic {
        assert script[0].menuAnswer == MenuFailed || (script[0].menuAnswer.Picked? && script[0].menuAnswer.index >= 4);
      } else if r.1 != Quit {
        ReplayPanicsOnlyAtMenu(r.0, after, basePath, compile, script[1..]);
        if Replay(r.0, after, basePath, compile, script[1..]).2.Panicked? {
          var k :| 0 <= k < |script[1..]| &&
            (script[1..][k].menuAnswer == MenuFailed || (script[1..][k].menuAnswer.Picked? && script[1..][k].menuAnswer.index >= 4));
          assert script[k + 1] == script[1..][k];
        }
      }
    }
  }

  /** The session state that `main`'s loop updates in place; the root is fixed at startup. */
  class Session {
    const basePath: string
    var matcher: string
    var renamer: string
    var replacement: string
    var showUnchanged: bool

    function Current(): Config
      reads this
    {
      Config(matcher, renamer, replacement, showUnchanged)
    }

    /**
     * The state `main` enters its loop with: startup has succeeded, and the
     * root is the canonical path it produced.
     */
    constructor (filepath: string, globAccepts: string -> bool, canonicalize: string -> Option<string>)
      requires Startup(filepath, globAccepts, canonicalize).Ok?
      ensures basePath == canonicalize(filepath).value && Current() == DefaultConfig()
    {
      basePath := Startup(filepath, globAccepts, canonicalize).value;
      var seed := DefaultConfig();
      matcher, renamer, replacement, showUnchanged := seed.matcher, seed.renamer, seed.replacement, seed.showUnchanged;
    }

    /** One pass of the loop, applying the plan to `fs` when the menu says so. */
    method RunCycle(fs: FileSystem, compile: Compiler, input: CycleInput) returns (action: Action)
      modifies this, fs
      ensures (Current(), action) == Cycle(old(Current()), basePath, compile, input)
      ensures fs.files == if action.ApplyPlan? then ApplyFrom(old(fs.files), action.changes, input.refused, 0).0
                          else old(fs.files)
    {
      ghost var before := Current();
      matcher := input.matcherAnswer.GetOr(matcher);
      var matcherRegex := MatcherRegex(compile, matcher);
      if matcherRegex.Err? {
        return BadMatcher(matcherRegex.error);
      }
      var matched := MatchedPaths(input.listing, matcherRegex.value.isMatch);
      if matched == [] {
        return NoMatches;
      }
      renamer := input.renamerAnswer.GetOr(renamer);
      var renamerRegex := RenamerRegex(compile, renamer);
      if renamerRegex.Err? {
        return BadRenamer(renamerRegex.error);
      }
      replacement := input.replacementAnswer.GetOr(replacement);
      var changes := ChangePairs(matched, basePath, renamerRegex.value, replacement);
      var items := MenuItems(|changes|, showUnchanged);
      assert Cycle(before, basePath, compile, input) == Dispatch(Current(), changes, input.menuAnswer);
      match input.menuAnswer
      case Picked(1) =>
        var _, _ := fs.ApplyChanges(changes, input.refused);
        action := ApplyPlan(changes);
      case Picked(2) =>
        showUnchanged := !showUnchanged;
        action := ToggleUnchanged;
      case Picked(3) =>
        action := Quit;
      case Picked(i) =>
        action := if i < |items| then Redraw else Panic;
      case Cancelled =>
        action := Redraw;
      case MenuFailed =>
        action := Panic;
    }

    /**
     * `main`'s loop over a script of passes: it stops at "Quit" (exit status
     * 0) or a panic, and otherwise waits for more input once the script ends.
     */
    method Run(fs: FileSystem, compile: Compiler, script: seq<CycleInput>) returns (end: Termination)
      modifies this, fs
      ensures (Current(), fs.files, end) == Replay(old(Current()), old(fs.files), basePath, compile, script)
    {
      var i := 0;
      while i < |script|
        invariant i <= |script|
        invariant Replay(Current(), fs.files, basePath, compile, script[i..])
               == Replay(old(Current()), old(fs.files), basePath, compile, script)
      {
        assert script[i..][0] == script[i] && script[i..][1..] == script[i + 1..];
        var action := RunCycle(fs, compile, script[i]);
        if action == Quit {
          return Exited(0);
        }
        if action == Panic {
          return Panicked;
        }
        i := i + 1;
      }
      return AwaitingInput;
    }
  }
}
