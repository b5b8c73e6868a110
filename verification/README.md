# renamer, modelled in Dafny

`renamer` is an interactive batch file renamer. Given a directory, it lists
everything below it and asks the user for a selection pattern. The pattern is
right-anchored and keeps the paths that match it. The user then supplies a
transformation pattern with exactly one capture group, plus a replacement
text. From these it plans (source, destination) pairs whose destinations start
with the root's text (meant to lie below it; see Findings) and shows them. A four-item menu then lets the user apply the plan, toggle the
"unchanged files" display, quit, or edit the patterns again. Applying skips a
destination that `Path::exists` reports as present (so, in the model, it never
overwrites one) and carries on after a failed rename.

This project models that pipeline and its session loop and proves their
properties:

- `wrappers.dfy`: `Option` and `Result`.
- `text.dfy`: `ends_with`, `contains` and Rust's `str::replace`, written out over strings.
- `regexes.dfy`: a compiled regex as the behaviour the program relies on. This
  is its capture-name count (at least 1, since group 0 is always counted),
  `is_match` and `replace_all`. `Regex::new` is a `Compiler` parameter.
- `listing.dfy`: the enumerator's listing pattern, and the filter (`get_matched_paths`).
- `patterns.dfy`: the matcher's anchoring (`get_matcher_regex`) and the renamer's arity check (`get_renamer_regex`).
- `planner.dfy`: the change pairs (`get_change_pairs`). It has two versions: the one the code computes, and one with its root-stripping step corrected (see Findings).
- `apply.dfy`: the apply engine (`apply_changes`). It works over a filesystem
  held in a class, as a map from path to content identity. Each rename's
  success is an oracle `refused: nat -> bool`.
- `session.dfy`: startup, `Config` and its default, the menu, one pass of
  `main`'s loop as a function (`Cycle`), and the loop itself as a class whose
  methods update the configuration fields in place. The loop runs over a
  finite script of user answers.
- `photos.dfy`: the worked example of `/photos` holding `a.jpeg`, `b.jpeg` and `notes.txt`.

Three behaviours of the code that are easy to misread:

- Toggling the display, picking "Change regexes" (index 0) or cancelling the
  menu all end the pass. The next pass starts again at the first prompt; the
  program does not just redraw the preview or the menu.
- A menu widget error is not recovered from. `.map_err(..).unwrap()` panics.
  So does an index past the four items, through `menu_items[i]`.
- Only two startup failures exit with status 1: a listing pattern `glob`
  rejects, and a path that does not canonicalize.

## Model

| member | source | states |
|---|---|---|
| `Text.ReplaceAbsent` | src/main.rs:126 | `str::replace` returns its input unchanged when the pattern does not occur in it |
| `Listing.ListingPattern` | src/main.rs:23-26 | the listing pattern extends the user's path and ends with `/**/*`; it adds `**/*` when the path ends with `/` and `/**/*` otherwise |
| `Listing.MatchedPaths` | src/main.rs:40-67 | every returned path matches and comes from a readable entry of the listing; there are no more of them than entries |
| `Listing.MatchedPathsSubsequence` | src/main.rs:42-66 | the output is the order-preserving subsequence of the readable, matching entries. The k-th path comes from the k-th kept position, positions increase, and a position is kept exactly when its entry was read and matches |
| `Patterns.Anchored` | src/main.rs:73-75 | the compiled selection text extends the input by at most one character and ends with `$`; it is the input itself exactly when the input already ends with `$` |
| `Patterns.AnchoredShortest` | src/main.rs:73-75 | no text that extends the input and ends with `$` is shorter than the anchored one |
| `Patterns.AnchoredIdempotent` | src/main.rs:73-75 | anchoring twice equals anchoring once |
| `Patterns.AnchoredAbsorbsExplicitAnchor` | src/main.rs:73-75 | a text not ending in `$` anchors to itself plus `$`, the same text that anchoring the explicitly anchored version gives |
| `Patterns.MatcherRegex` | src/main.rs:70-78 | `get_matcher_regex` compiles the input as written when it ends with `$`, and the input with `$` appended otherwise |
| `Patterns.MatcherIgnoresExplicitAnchor` | src/main.rs:70-78 | compiling a selection text without `$` behaves exactly like compiling it with `$` appended |
| `Patterns.RenamerRegex` | src/main.rs:81-95 | Ok exactly when the pattern compiles with a capture-name count of 2. A compile failure carries the engine's error; a count of 1 gives the "no capture groups" error and a count above 2 the "single capture group" error |
| `Planner.Plan` | src/main.rs:122-132 | one pair per path, in order; the i-th pair's source is the i-th path and its destination is that path's destination |
| `Planner.DestinationAsWritten` | src/main.rs:125-130 | as coded: the destination is the root's text followed by the renamer's output, so it starts with the root's text |
| `Planner.ChangePairsAsWritten` | src/main.rs:116-133 | as coded: one pair per path, in order, with the path as source and a destination that starts with the root's text |
| `Planner.AsWrittenNestedRoot` | src/main.rs:126 | as coded: when a path begins with the root twice, both copies are deleted before the renamer sees the rest |
| `Planner.AsWrittenUnmatchedUnchanged` | src/main.rs:125-130 | as coded: a path that is the root plus a remainder not containing the root, which the renamer does not match, is planned to stay where it is |
| `Planner.NestedRootIsMoved` | src/main.rs:126 | as coded: with the renamer matching nothing, the path root+root+tail is planned to go to root+tail (Findings) |
| `Planner.Destination` | src/main.rs:125-130 | the corrected destination starts with the root's text |
| `Planner.ChangePairs` | src/main.rs:116-133 | corrected: one pair per path, in order, with the path as source and a destination that starts with the root's text |
| `Planner.UnmatchedUnchanged` | src/main.rs:125-130 | corrected: every path under the root whose relative form the renamer does not match keeps its place |
| `Planner.DestinationAgreesAsWritten` | src/main.rs:126 | the corrected and coded destinations agree whenever the root occurs in the path only at the front |
| `Planner.ChangePairsAgreeAsWritten` | src/main.rs:116-133 | when the root occurs in every path only at its front, the corrected plan equals the coded plan |
| `Planner.ChangePairsShape` | src/main.rs:116-133 | the plan has the paths' length and order, each pair's source is the path, and unmatched paths under the root give unchanged pairs |
| `Apply.Step` | src/main.rs:139-146 | an existing destination is reported and changes nothing. A refused rename or a missing source changes nothing. A rename moves the source's content to the destination and touches no other path |
| `Apply.StepMoves` | src/main.rs:142-143 | a rename that goes ahead takes the source's content to the destination, which did not exist before; the source disappears and every other path keeps what it held |
| `Apply.ApplyFrom` | src/main.rs:136-147 | one outcome for each remaining pair, whatever happened to the pairs before it |
| `Apply.ApplyFromFinal` | src/main.rs:136-147 | handling the pairs from position i on, starting from the filesystem the first i pairs left, ends where handling all of them ends |
| `Apply.OutcomeSuffix` | src/main.rs:136-147 | the outcomes reported for the pairs from position i on, starting from the filesystem the first i pairs left, are exactly the tail of the whole report from position i |
| `Apply.ApplyFromOutcome` | src/main.rs:136-147 | the outcome reported for the j-th pair is its step on the filesystem that the pairs before it left |
| `Apply.ApplyInOrder` | src/main.rs:136-147 | pairs are handled in order; the j-th outcome is the j-th pair's step on the filesystem the earlier pairs left |
| `Apply.NeverOverwrites` | src/main.rs:139-140 | a pair whose destination exists at its turn is reported as existing and changes nothing; no step changes what any surviving path holds |
| `Apply.StepKeepsContents` | src/main.rs:139-145 | one step loses no file content and creates none |
| `Apply.ApplyKeepsContents` | src/main.rs:135-150 | applying a whole plan deletes nothing: the set of file contents is the same afterwards |
| `Apply.FileSystem.ApplyChanges` | src/main.rs:135-150 | the loop leaves the filesystem and the per-pair report of the in-order specification, and always returns `false` |
| `Session.Startup` | src/main.rs:153-171 | startup succeeds exactly when `glob` accepts the listing pattern and the path canonicalizes; the root is the canonical path; otherwise the exit status is 1 |
| `Session.DefaultConfig` | src/main.rs:104-112 | the seeded selection text already ends with `$`, so it is compiled as written; unchanged files are shown at first, so the menu offers to hide them |
| `Session.Decimal` | src/main.rs:285 | the count in the "Apply" label is a non-empty string of decimal digits, starting with `0` only for zero |
| `Session.DecimalRoundTrip` | src/main.rs:285 | that label's digits read back as the number of planned pairs |
| `Session.MenuItems` | src/main.rs:283-293 | the menu has four items, and item 2 reads "Hide unchanged files" exactly when `show_unchanged` is set |
| `Session.Dispatch` | src/main.rs:305-319 | 1 applies the current plan, 2 flips `show_unchanged` and changes nothing else, 3 quits. 0 and a cancellation do nothing. A widget error or an index past the menu panics. Only index 2 changes the configuration |
| `Session.Cycle` | src/main.rs:184-270 | a failed prompt keeps the previous text. A matcher compile failure ends the pass exactly when the selection text does not compile, and "no matches" exactly when it compiles and keeps no path; both change only the matcher text. A refused renamer changes only the matcher and renamer texts. Otherwise the plan comes fresh from the texts just entered (with the corrected planner, see Left out) and the menu decides |
| `Session.Replay` | src/main.rs:183-320 | the loop over the scripted passes exits only with status 0, and an empty script leaves the session waiting for input |
| `Session.ReplayWithoutApply` | src/main.rs:183-320 | a session in which "Apply" is never picked leaves the filesystem unchanged |
| `Session.ReplayKeepsContents` | src/main.rs:183-320 | however many plans a session applies, no file content is lost |
| `Session.ReplayExitsOnlyOnQuit` | src/main.rs:316 | the session exits only with status 0, and only after some pass picked "Quit" |
| `Session.ReplayPanicsOnlyAtMenu` | src/main.rs:294-318 | the session panics only after some menu failed or answered a position past its four items |
| `Session.Session.constructor` | src/main.rs:152-171 | a session exists only after `Startup` succeeds; its root is the canonical path, and it starts from the default configuration `.*\.jpeg$`, `(jpeg)`, `jpg`, showing unchanged files |
| `Session.Session.RunCycle` | src/main.rs:184-319 | one pass updates the configuration fields in place as `Cycle` says, and changes the filesystem only by applying the plan when "Apply" is picked |
| `Session.Session.Run` | src/main.rs:183-320 | the loop over the scripted passes ends in the configuration, filesystem and termination that `Replay` gives; the root (a `const`) never changes |
| `Photos.PhotoMatches` | src/main.rs:40-67 | in the `/photos` example, the default matcher keeps `a.jpeg` and `b.jpeg` in order and not `notes.txt` |
| `Photos.PhotoPairs` | src/main.rs:116-133 | in the example, the plan is `a.jpeg` to `a.jpg` and `b.jpeg` to `b.jpg` |
| `Photos.PhotoshootMovedOut` | src/main.rs:126 | as coded, with the default renamer, `/photos/photoshoot/x.jpeg` is planned to `/photoshoot/x.jpg`, outside the root (Findings) |
| `Photos.PhotoshootRenamedInPlace` | src/main.rs:125-130 | corrected, the same file is planned to `/photos/photoshoot/x.jpg` |
| `Photos.PhotoCycle` | src/main.rs:184-307 | a pass with every prompt left at its seed and "Apply" picked keeps the default configuration and applies that plan |
| `Photos.PhotoApply` | src/main.rs:135-150 | applying the example plan moves both JPEG files and leaves `notes.txt` |
| `Photos.PhotoApplyExisting` | src/main.rs:139-146 | with `a.jpg` already present, `a.jpeg` stays, `a.jpg` keeps its content, and `b.jpeg` is still moved |

## Left out

- Argument parsing with `clap` (src/main.rs:14-20, 153): the user's path is a plain string parameter.
- Terminal widgets (`Input`, `Select`): each prompt is an `Option<string>` answer and the menu a `MenuAnswer`. No terminal I/O is modelled.
- The preview table (src/main.rs:173-181, 262-281): it is presentation only. Its double prefixing of the root onto both columns is not modelled. The program never uses `show_unchanged` to filter the table, so only the flag's flip is modelled.
- `println!`/`eprintln!` diagnostics and the preview of the first ten matched paths (src/main.rs:213-226): these are informational output only. The apply engine's per-pair messages appear as the `Outcome` report.
- The regex and glob engines: `Regex::new`, `is_match`, `replace_all`, `capture_names().len()` and the directory walk are parameters. A pass takes its listing as an input and does not derive it from the `FileSystem` contents, although the program re-runs `glob` on every pass.
- `canonicalize` becomes a parameter and `process::exit` a result. `std::fs::rename` and `Path::exists` become operations on the `files` map (see `Apply.Step` below). Rename failures other than a missing source come from the `refused` oracle.
- Apply.Step: renaming a directory moves only that one path in the model, not the entries below it.
- Apply.Step: `Path::exists` is modelled as the destination being a key of `files`, the same notion of presence the rename uses. The code's `exists` follows symbolic links and answers false when metadata cannot be read, so a dangling link at the destination reads as absent and `std::fs::rename` replaces it; that case is not modelled. Nor is a destination created between the check and the rename, which the rename would also replace. `Apply.NeverOverwrites` and `Apply.StepMoves` hold under this model of presence only.
- `to_str().unwrap()` on paths that are not valid UTF-8 is not modelled, because paths are strings here.
- The `get_files(args).unwrap()` inside `get_matched_paths` is not modelled: startup has already checked the same pattern.
- The listing is walked from the path as typed, while the root is its canonical form. The model does not relate the two, so a relative path argument, whose listed paths do not start with the root, is not analysed.
- Session.Cycle: each pass plans with the corrected `Planner.ChangePairs`, not the coded `Planner.ChangePairsAsWritten`. So the session differs from the code for a path in which the root's text occurs again after the front, such as `/photos/photoshoot/x.jpeg` (see Findings). `Planner.ChangePairsAgreeAsWritten` proves that the two plans are equal on every listing whose paths start with the root and contain it nowhere else.
- `main`'s endless loop runs over a finite script. When the script runs out, the session ends in `AwaitingInput`.

## Findings

| source | as written | input that shows it | evidently intended | confidence | as-written member | corrected member |
|---|---|---|---|---|---|---|
| src/main.rs:126 | the relative path is made by deleting every occurrence of the root from the path, not only the leading one | root `/photos`, path `/photos/photoshoot/x.jpeg`, default configuration: the `/photos` inside `/photoshoot` is deleted too, and the planned destination is `/photoshoot/x.jpg`, outside the root (`Photos.PhotoshootMovedOut`). With a renamer that matches nothing, `/photos/photos/a.jpeg` is planned to `/photos/a.jpeg` | remove the root only from the front, so a path the renamer does not match is planned to stay where it is | high, not executed | `Planner.NestedRootIsMoved` | `Planner.UnmatchedUnchanged` |

The session model (`Session.Cycle`) plans with the corrected `Planner.ChangePairs`. `Planner.ChangePairsAsWritten` keeps the coded computation, and `Planner.DestinationAgreesAsWritten` and `Planner.ChangePairsAgreeAsWritten` prove that the two agree whenever the root occurs in a path only at its front.
