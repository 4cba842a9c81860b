# cpp-namespacer, modelled in Dafny

`namespacer.py` wraps the top-level code of a C/C++ source file in
`namespace <name> { … } // end namespace <name>`. It reads the file once,
line by line. Then:

1. a pull pipeline of generator filters reduces the raw lines to "statements":
   - `iter_lines`;
   - `filter_empty_or_comment`;
   - `filter_comment_block`;
   - `filter_empty_or_comment` again;
   - `filter_include_guard`;
   - `filter_preprocessor`.
2. `process` walks the statements. It inserts the open marker in front of
   the first line of code and the close marker before the include guard's
   `#endif` or after the last line.
3. `process` returns a status string.

The model covers the `Namespacer` class:

- **`Text`**: the string helpers. Each `re.match` becomes a hand-written prefix
  predicate, including the quirks the code relies on:
  - `^#\s*if` also matches `#ifdef` and `#ifndef`;
  - the guard's `#define` check is a prefix match on the name.
- **`Filters`**: the stateless filters. `filter_empty_or_comment` and
  `filter_comment_block` are each a function over a stream of items, plus a
  loop method proved equal to it.
  - Every item records how many lines `iter_lines` had yielded when the
    item was produced.
  - A stream that ends in a bare `next` on an exhausted generator is
    marked `crashes`.
- **`Conditionals`**: the classification loop of `consume_if`. It is given
  both as a fold (`ScanOf`) and as an independent front-to-back definition
  (`FirstOf`, `Count`), with lemmas connecting the two.
- **`Output`**: ghost tags, one per string of `out_buf`. A tag is one of:
  - a raw input line;
  - the open marker;
  - the close marker;
  - a note.

  Rendering, marker alternation and the accounting of copied lines are
  stated over these tags.
- **`Notes`**: the two comment strings written for a duplicate `#include`,
  and what `writelines` makes of them.
- **`Namespacing`**: the class `Namespacer`.
  - `iter_lines` is modelled with its lazy append: line N reaches `out_buf`
    only when line N+1 is asked for, so `drop_lines` can cancel that copy.
  - `filter_include_guard` and `filter_preprocessor` are resumable methods.
  - Also modelled: `consume_if` with its buffer swap, the two error sinks,
    and `process`.
  - The outputs of the stateless filters are computed at construction
    (`stmts`), and `NextItem` replays exactly the reads that produce each
    statement. The buffer a raw line lands in is therefore the one in place
    when that read happens.
  - The `--comment` and `--errors` overrides of `main` are constructor flags:
    - `commentMode` selects the marker strings;
    - `marking` selects the error sink that records instead of raising.

An outcome of `process` is one of:

- `Returned(status)`;
- `Raised(message)`, for `CannotProcess`;
- `Crashed`, for an uncaught `RuntimeError` or `AttributeError`.

## Model

| member | source | states |
|---|---|---|
| Text.TrimLeft | namespacer.py:65 | only whitespace is removed, from the front, and the result does not start with whitespace |
| Text.TrimRight | namespacer.py:65 | only whitespace is removed, from the back, and the result does not end with whitespace |
| Text.TrimLeftIsSuffix | namespacer.py:65 | left trimming leaves a suffix of the line |
| Text.TrimRightIsPrefix | namespacer.py:65 | right trimming leaves a prefix of the line |
| Text.Strip | namespacer.py:65 | `str.strip` leaves neither leading nor trailing whitespace and never lengthens the line |
| Text.StripIsMiddle | namespacer.py:65 | the stripped line is the middle slice of the line, starting after the leading whitespace, and all that is cut off on either side is whitespace |
| Text.TrimLeftSpaces | namespacer.py:91 | a run of whitespace in front of text that starts with no whitespace is exactly what `\s*` skips |
| Text.StripIdempotent | namespacer.py:65 | stripping a stripped line changes nothing |
| Text.IndexOf | namespacer.py:78 | `str.index` finds the first occurrence at or after the start, and reports none exactly when there is none |
| Text.WordPrefix | namespacer.py:91 | the `[A-Za-z0-9_]+` group is the longest prefix of word characters |
| Text.IfndefName | namespacer.py:91 | a matched guard name is non-empty, made of `[A-Za-z0-9_]` only, and is the longest such run right after `#`, optional whitespace, `ifndef` and whitespace; the line also counts as an `#if...` line |
| Text.WordPrefixOf | namespacer.py:91 | a word followed by nothing or by a non-word character is exactly the `[A-Za-z0-9_]+` group |
| Text.IfndefNameOf | namespacer.py:91 | `#ifndef NAME` followed by nothing or by a non-word character captures exactly `NAME` |
| Text.DefineIsPrefixMatch | namespacer.py:94 | `#define NAME` followed by anything at all satisfies the guard's define check (a prefix match) |
| Text.IfMatchesIfdefAndIfndef | namespacer.py:125 | `^#\s*if` matches `#ifdef` and `#ifndef` lines |
| Text.AfterHashOf | namespacer.py:109 | after `#`, the text following the spaces is what the directive tests look at |
| Text.IncludeTarget | namespacer.py:204 | a target is found only on a line that passed the `#include` test |
| Text.IncludeTargetOf | namespacer.py:204 | on `#`, any whitespace, `include` and a rest `x`, the target is the stripped text after a single space when `x` starts with one, and there is no match otherwise |
| Text.AfterWordAndSpaceOf | namespacer.py:91-94 | a directive word, a space and text not starting with whitespace yield that text as the rest the `\s+` leaves |
| Text.ClassPredecl | namespacer.py:230 | a matched class name is non-empty and has no whitespace |
| Text.ClassPredeclOfDeclaration | namespacer.py:230 | every `class X;` with a space-free name is recognised, with the name `X` |
| Text.IsIf | namespacer.py:125 | defines `^#\s*if`: `#`, optional whitespace, then the letters `if` (anything may follow) |
| Text.IsEndif | namespacer.py:123 | defines `^#\s*endif` |
| Text.IsInclude | namespacer.py:127 | defines `^#\s*include` |
| Text.IsNoise | namespacer.py:109 | defines the directives `filter_preprocessor` drops: `#elif`, `#else`, `#define`, `#undef`, `#error`, `#pragma`, `#warning`, each as a prefix match |
| Text.DefinesName | namespacer.py:94 | defines the guard's `^#\s*define\s+NAME` check, a prefix match on the name |
| Filters.Visible | namespacer.py:53-57 | the lines `iter_lines` yields are input lines, never a commented marker, and no more than the input |
| Filters.VisibleMembers | namespacer.py:53-57 | a line is yielded exactly when it is an input line other than the two commented markers |
| Filters.VisibleAll | namespacer.py:53-57 | without commented markers, every input line is yielded |
| Filters.VisibleSplit | namespacer.py:54-57 | the lines yielded from a split input are those yielded from each part, in order |
| Filters.VisiblePrefix | namespacer.py:54-57 | the lines yielded so far are a prefix of all yielded lines |
| Filters.VisibleCountMeaning | namespacer.py:54-57 | the running count of yielded lines is the number yielded from the lines read |
| Filters.VisibleAt | namespacer.py:54-57 | a non-marker input line is yielded at the position given by the count before it |
| Filters.VisibleCountAll | namespacer.py:54-57 | after the whole input, the count is the number of yielded lines |
| Filters.Source | namespacer.py:52-57 | the yielded line `j` is produced by pull `j + 1`, in order, and the stream ends without an error |
| Filters.Join | namespacer.py:68-69 | a continuation join never ends in a backslash and ends within the input; a line without one is returned as is |
| Filters.JoinExhausted | namespacer.py:68-69 | the join fails only on a line ending in a backslash, and with input left only when the last stripped line is empty or still ends in one; at the end of the input it fails exactly on a backslash; with every remaining line ending in one it always fails |
| Filters.JoinContinuations | namespacer.py:68-69 | the `while l.endswith("\\")` loop computes `Join` |
| Filters.EmptyOrCommentFrom | namespacer.py:63-70 | defines the output of `filter_empty_or_comment` from an input position on: blank and `//` lines skipped, continuations joined, an unfinished join a crash |
| Filters.EmptyOrComment | namespacer.py:63-70 | defines the whole output of `filter_empty_or_comment` on a stream |
| Filters.EmptyOrCommentStep | namespacer.py:64-70 | an emitted line ends without a backslash and moves past the current input line |
| Filters.EmptyOrCommentAt | namespacer.py:64-70 | one iteration of the loop computes `EmptyOrCommentStep` |
| Filters.FilterEmptyOrComment | namespacer.py:63-70 | the generator's output, with its pull counts and its crash on an unfinished continuation, is `EmptyOrComment` |
| Filters.EmptyOrCommentSkip | namespacer.py:66-67 | a blank or `//` line contributes nothing |
| Filters.EmptyOrCommentStuck | namespacer.py:69 | an unfinished continuation at the end crashes the stream |
| Filters.EmptyOrCommentEmit | namespacer.py:68-70 | an emitted line is followed by the output from after its last part |
| Filters.EmptyOrCommentNoBackslash | namespacer.py:68-70 | no yielded line ends in a backslash |
| Filters.EmptyOrCommentIncreasing | namespacer.py:63-70 | yielded items keep input order: their pull counts strictly increase |
| Filters.EmptyOrCommentSkipIncreasing | namespacer.py:66-67 | order is kept across a skipped line |
| Filters.EmptyOrCommentEmitIncreasing | namespacer.py:68-70 | order is kept across an emitted line |
| Filters.PlainFrom | namespacer.py:64-67 | the reference filter keeps only lines that are neither blank nor `//` comments |
| Filters.EmptyOrCommentIsPlainFilter | namespacer.py:63-70 | without continuation lines the generator is exactly that filter, in input order |
| Filters.ContinuationYieldsComment | namespacer.py:68-70 | with a continuation a `//` line can be yielded (`\` then `// x` gives `// x`) |
| Filters.CloseComment | namespacer.py:76-84 | the search for `*/` ends on a later input line, or the stream ends |
| Filters.CloseCommentFinds | namespacer.py:76-80 | the text yielded is the stripped rest after the first `*/` of the line the search stopped at |
| Filters.CloseCommentFirst | namespacer.py:76-82 | the search stops at the first line, from the current one on, that holds a `*/` |
| Filters.CloseCommentMisses | namespacer.py:81-84 | nothing is found exactly when neither the current line nor any later input line holds a `*/` |
| Filters.CommentBlockFrom | namespacer.py:72-86 | defines the output of `filter_comment_block` from an input position on: a `/*` line gives the stripped text after its closer, the next line is tested again, and a missing closer ends the stream |
| Filters.CommentBlock | namespacer.py:72-86 | defines the whole output of `filter_comment_block` on a stream |
| Filters.FindCommentEnd | namespacer.py:76-84 | the inner loop of `filter_comment_block` computes `CloseComment` |
| Filters.FilterCommentBlock | namespacer.py:72-86 | the generator's output is `CommentBlock` |
| Filters.CommentBlockIncreasing | namespacer.py:72-86 | `filter_comment_block` keeps input order |
| Filters.CommentBlockIdentity | namespacer.py:72-86 | without `/*` lines, every line passes unchanged |
| Filters.Statements | namespacer.py:148-155 | defines the statements: `filter_empty_or_comment`, then `filter_comment_block`, then `filter_empty_or_comment` on the yielded lines |
| Filters.ComputeStatements | namespacer.py:148-155 | the three stateless stages, composed in `apply`'s reversed order, compute `Statements`, in yield order |
| Filters.IgnorableFrom | namespacer.py:64-67 | blank and `//` lines alone produce no output |
| Filters.IgnorableHasNoStatements | namespacer.py:148-155 | a file of blank and `//` lines yields no statement and ends normally |
| Conditionals.KindOf | namespacer.py:123-132 | defines the kind of a statement by the tests in `consume_if`'s order: `#endif`, then `#if...`, then `#include`, else code |
| Conditionals.Classify | namespacer.py:123-132 | defines one step of the scan on a classified statement: depth down for `#endif`, up for `#if...`, the first `#include` and the first code line recorded with line number and depth |
| Conditionals.ScanOf | namespacer.py:120-132 | defines the scan state after a sequence of statements, starting at depth 1 with nothing recorded |
| Conditionals.PlacedSnoc | namespacer.py:121-135 | the (text, line number) log of the statements read grows by one entry per statement, in order |
| Conditionals.DeliveredSnoc | namespacer.py:121-135 | the statement in hand, once classified, moves into the log of statements read |
| Conditionals.ClassifiedSnoc | namespacer.py:123-132 | classified statements stay classified as the block grows |
| Conditionals.ClassifyStatement | namespacer.py:123-132 | one iteration tests `#endif`, `#if...`, `#include`, code in that order, and lowers the depth by at most one |
| Conditionals.ScanOfSnoc | namespacer.py:122-139 | while the depth stays positive, one more statement is one more `Classify` step |
| Conditionals.ScanDepth | namespacer.py:120-126 | the depth is 1 plus the `#if...` lines minus the `#endif` lines seen |
| Conditionals.FirstOfExists | namespacer.py:128-132 | a first statement of a kind is recorded exactly when one occurs |
| Conditionals.FirstOfSnoc | namespacer.py:128-132 | appending a statement records it only if none of its kind was recorded before |
| Conditionals.CountFront | namespacer.py:120-126 | counting front to back agrees with counting back to front |
| Conditionals.ScanFindsFirst | namespacer.py:128-132 | the loop's `include_line` and `code_line` are the first `#include` and the first code statement, with line number and depth |
| Conditionals.ScanMeaning | namespacer.py:114-142 | for a block `consume_if` read, those firsts are found, the depth is the `#if`/`#endif` balance, and it stayed positive before the last statement |
| Output.RenderAt | namespacer.py:61 | every buffer string is the text of its own tag |
| Output.RenderSnoc | namespacer.py:61 | appending a tag appends its text |
| Output.RenderAppend | namespacer.py:188 | `extend` of the buffer renders the concatenated tags |
| Output.MarkerSeqSnoc | namespacer.py:184 | appending a marker extends the marker sequence by it; anything else leaves it |
| Output.MarkerSeqRawOnly | namespacer.py:188 | appending raw lines adds no marker |
| Output.AlternatesSnoc | namespacer.py:184-246 | an open marker after an even number, or a close after an odd number, keeps markers alternating |
| Output.AlternatesNest | namespacer.py:184-246 | alternating markers never nest: at every point 0 or 1 is open, and the final count says which |
| Output.RawIndicesAppend | namespacer.py:188 | the raw lines of concatenated buffers are concatenated |
| Output.RawIndicesSnoc | namespacer.py:61 | appending a raw tag appends its index |
| Output.KeptSnoc | namespacer.py:58-61 | each resumed line is appended to the kept indices exactly when copied |
| Output.KeptMeaning | namespacer.py:58-61 | the kept indices are the copied ones, strictly increasing (in order, once each) |
| Output.KeptNoDrop | namespacer.py:58-61 | with nothing dropped, every yielded line is kept, in order |
| Output.RawExtendsTrans | namespacer.py:61 | appending raw lines twice is appending raw lines |
| Output.RawExtendsMarkers | namespacer.py:61 | appending raw lines leaves the markers unchanged |
| Output.RawExtendsRawOnly | namespacer.py:61 | raw lines after raw lines are raw lines only |
| Output.RawIndicesOfRawOnly | namespacer.py:61 | a raw-only buffer's indices are its tags' indices |
| Output.RenderAllRaw | namespacer.py:250 | a buffer holding every yielded line, in order, and nothing else renders to the yielded lines |
| Notes.WrittenDuplicateNotes | namespacer.py:212-213 | defines the two strings appended as written: the note, then `// ` and the line, neither with a line break |
| Notes.DuplicateNotes | namespacer.py:212-213 | defines the intended two comment lines, each ending in a line break |
| Notes.NoteHasNoBreak | namespacer.py:212 | the already-seen note has no line break |
| Notes.WrittenNotesSwallowNextLine | namespacer.py:212-213 | as written, the two notes and the next buffer string form one line |
| Notes.DeclarationAfterDuplicateIncludeIsCommentedOut | namespacer.py:212-213 | a duplicate `#include "a.h"` followed by `int y;` writes `int y;` behind the `//` |
| Notes.DuplicateNotesAreLines | namespacer.py:212-213 | with line breaks, each note is one complete line and the next string starts its own |
| Namespacing.ErrorTextIsOneLine | namespacer.py:278-279 | every error text is non-empty, already stripped and has no line break, so the marking sink writes one `// ` line |
| Namespacing.ErrorText | namespacer.py:170-221 | defines the message `process` passes to `error` for each error: "mixed #if" with " within namespace" while open, "include within #if within namespace", "#include within namespace" |
| Namespacing.FirstError | namespacer.py:275-276 | defines the marking sink's status: the first non-empty error text is kept |
| Namespacing.StripKeepsTrimmed | namespacer.py:278 | a non-empty text without whitespace at either end is left unchanged by `strip` |
| Namespacing.TrimNewlines | namespacer.py:245 | `rstrip("\n")` leaves no trailing line break and never lengthens the line |
| Namespacing.TrimNewlinesCutsBreaks | namespacer.py:245 | the result is a prefix of the line and all it cuts off is line breaks |
| Namespacing.Namespacer.constructor | namespacer.py:21-34 | the initial state: empty buffers, no guard, namespace closed, no status, the reader before the first line (`LineNr` is -1, `FullLine` empty), nothing pulled or delivered |
| Namespacing.Namespacer.LineNr | namespacer.py:54 | defines `line_nr` from the reader position: the number of the input line last read, -1 before the first |
| Namespacing.Namespacer.FullLine | namespacer.py:54 | defines `full_line` from the reader position: the input line last read, empty before the first |
| Namespacing.Namespacer.FreshIsValid | namespacer.py:21-34 | the initial state satisfies the reader, buffer and marker invariants |
| Namespacing.Namespacer.Put | namespacer.py:61 | `out_buf.append` appends the string and its tag, updating raw indices and markers |
| Namespacing.Namespacer.CopyPending | namespacer.py:61 | the pending line is appended to the current buffer and recorded as copied |
| Namespacing.Namespacer.DropPending | namespacer.py:58-59 | the pending line is recorded as dropped and no buffer changes |
| Namespacing.Namespacer.Resume | namespacer.py:58-61 | after a yield, the line is dropped with `drop_lines` lowered by one when `drop_lines > 0`, and otherwise appended once |
| Namespacing.Namespacer.ReadNext | namespacer.py:53-57 | the next yielded line is the next non-marker input line; `LineNr` and `FullLine` then name that input line, since both are read off the reader position |
| Namespacing.Namespacer.PullRaw | namespacer.py:52-61 | one resume of `iter_lines`: the previous line is settled and the next one yielded, or the input is exhausted |
| Namespacing.Namespacer.AdvanceTo | namespacer.py:52-61 | reading on until a given number of lines was yielded appends only raw lines |
| Namespacing.Namespacer.NextItem | namespacer.py:148-155 | the next statement of the stateless filters, produced after exactly its recorded reads; at their end the reader is exhausted |
| Namespacing.Namespacer.GuardLookahead | namespacer.py:91-103 | `#ifndef n` then `#define n…`: both swallowed, the guard set and the next statement passed on; otherwise one message, `#ifndef` passed on and the other statement queued; no statement is a crash |
| Namespacing.Namespacer.AcceptGuard | namespacer.py:101-103 | a matching `#define` sets `include_guard`, and a bare `next` takes the following statement |
| Namespacing.Namespacer.PullGuarded | namespacer.py:88-105 | a queued statement first, then pass-through for good; otherwise statements pass unless they are an `#ifndef` while no guard is set |
| Namespacing.Namespacer.TakeGuarded | namespacer.py:108 | one pull from `filter_include_guard`, with the statement it hands on appended to the `guarded` log |
| Namespacing.Namespacer.PullStatement | namespacer.py:107-110 | among the statements `filter_include_guard` handed on meanwhile, the ones skipped are all `#elif`, `#else`, `#define`, `#undef`, `#error`, `#pragma` or `#warning` and the one yielded is none of them; it is logged as delivered with its `line_nr`; only raw lines are copied meanwhile |
| Namespacing.Namespacer.NextInBlock | namespacer.py:121 | a `next` inside `consume_if`: the next delivered statement, copying only raw lines into the block's buffer |
| Namespacing.Namespacer.Park | namespacer.py:116-117 | the main buffer and its tags are set aside and an empty buffer is put in place |
| Namespacing.Namespacer.Unpark | namespacer.py:141-142 | the main buffer is restored exactly, and the block's buffer, raw lines only, is handed out with all copied lines accounted for |
| Namespacing.Namespacer.ScanBlock | namespacer.py:120-139 | the loop of `consume_if` ends when the depth is 0 or the input ends, with the scan state of the statements read, and those statements are exactly the ones delivered meanwhile, in order, with their line numbers; a missing first statement is a crash |
| Namespacing.Namespacer.ScanRest | namespacer.py:122-139 | from the first statement on, the loop classifies every delivered statement while the depth is positive and stops at depth 0 or at the end of the input |
| Namespacing.Namespacer.ScanStep | namespacer.py:123-135 | one iteration: the statement in hand is classified with the current `line_nr` and logged, and the next one is pulled |
| Namespacing.Namespacer.ConsumeIf | namespacer.py:114-142 | the raw lines of the block, `#if` included, go into the temporary buffer; the main buffer is restored unchanged; the statements classified are exactly those `filter_preprocessor` delivered meanwhile, with their line numbers, followed by the returned `l`; the returned firsts and depth are those of the statements read |
| Namespacing.Namespacer.OpenNamespace | namespacer.py:184-185 | the open marker is appended only while the namespace is closed, and opens it at the anchor |
| Namespacing.Namespacer.PutCloseMarker | namespacer.py:199 | the close marker is appended only while one marker is open, and leaves markers balanced |
| Namespacing.Namespacer.WrapDeclaration | namespacer.py:234-236 | the micro-wrap appends open marker, statement plus line break and close marker, keeping markers balanced |
| Namespacing.Namespacer.Error | namespacer.py:144-145 | strict mode raises `CannotProcess(msg)` and changes nothing; the marking sink keeps the first error as status, logs it and writes one `// ` line (lines 274-279) |
| Namespacing.Namespacer.DecideBlock | namespacer.py:165-186 | include and code: mixed-`#if` error, " within namespace" if open; include while open: error; code while closed: open marker before the block, anchored at the `#if` line; else nothing changes |
| Namespacing.Namespacer.AppendBlock | namespacer.py:188 | the block's lines follow in the main buffer, and every copied line is accounted for in order |
| Namespacing.Namespacer.HandleEndif | namespacer.py:192-202 | with the guard set, `#endif` ends it and closes an open namespace in front of it; without one, it is only logged |
| Namespacing.Namespacer.PutDuplicateNotes | namespacer.py:212-213 | the two notes for a duplicate include are appended, in the corrected form of the finding below (each ends in a line break; the source's fragments have none) |
| Namespacing.Namespacer.HandleInclude | namespacer.py:203-224 | while closed the target is remembered; while open a seen target drops the raw line and writes the two notes (corrected with line breaks, see the finding below); an unseen one is an error after its messages; no target is an `AttributeError` |
| Namespacing.Namespacer.HandleCode | namespacer.py:225-242 | `namespace <name>` in the line ends `process`; while closed, `class X;` is wrapped and dropped and the namespace stays closed, any other code opens it; code while open changes nothing |
| Namespacing.Namespacer.Dispatch | namespacer.py:189-242 | `#endif` never stops; an `#include` crashes exactly without a target; code stops exactly when the namespace is already present |
| Namespacing.Namespacer.Settle | namespacer.py:165-188 | strict mode raises on a mixed block or an `#include` block while open, with the buffer unchanged; otherwise the buffer ends with the block's lines, after the open marker when code opens the namespace, after the one `// ` error line in marking mode, or directly; markers stay balanced |
| Namespacing.Namespacer.Conditional | namespacer.py:160-188 | one `#if` round consumes at least one statement; it ends only by a crash or a strict-mode raise, otherwise keeping all invariants |
| Namespacing.Namespacer.Statement | namespacer.py:159-242 | one statement of the `for` loop: an outcome is a crash, "namespace already present" or a strict-mode raise; otherwise the invariants hold |
| Namespacing.Namespacer.Turn | namespacer.py:159 | the next statement is taken and handled; with no statement left only raw lines are copied and nothing else changes |
| Namespacing.Namespacer.Run | namespacer.py:157-243 | the loop ends with the reader exhausted and the invariants kept, the buffer rendering its tags, or with one of the three outcomes |
| Namespacing.Namespacer.Finish | namespacer.py:244-253 | a namespace still open is closed last, with a message; the status, else "empty" when the output equals the input lines, else "success" |
| Namespacing.Namespacer.QuietHasNoStatements | namespacer.py:148-155 | a file of blank and `//` lines gives the pipeline nothing to read |
| Namespacing.Namespacer.Process | namespacer.py:147-253 | only strict mode raises; on a normal return the buffer is the text of its tags, markers alternate and none is open, every yielded line was copied once and in order or dropped, and the status follows lines 248-253; a file without statements is copied unchanged |

## Left out

- `main` is left out: argument parsing, reading and writing files, sorting, `commonpath`, printing and grouping results. Only its `--comment` and `--errors` overrides are modelled, as constructor flags.
- The `pathlib.Path` field and the commented-out file name check at namespacer.py:92 are left out.
- `apply` is left out as a function. Its reversed application order is built into `Statements` and the pull methods.
- The wording of `msgs` entries is not modelled. Each entry is an abstract `Msg` carrying the values the format string interpolates.
- `Namespacing.Namespacer.Error`: the marking sink's `textwrap.indent(...).splitlines()` is modelled as the single line `ErrorLine(e)`. `ErrorTextIsOneLine` shows that this is exact for every error text `process` passes.
- `Text.Strip`: the model strips only ASCII whitespace (space, tab, newline, carriage return, vertical tab, form feed). Python's `str.strip` also strips the separators `\x1c` to `\x1f`, `\x85` and the other Unicode whitespace.
- `Text.IsSpace`: the same six characters stand for `\s` in every regular expression (`AfterHash`, `AfterWordAndSpace`, `ClassPredecl`). Python's `\s` on `str` patterns also matches `\x1c` to `\x1f` and the other Unicode whitespace, so lines using those characters are not modelled exactly.
- Exhaustion in a bare `next` is `Crashed`, without saying which exception leaves `process`:
  - inside a generator (a continuation at the end, an unterminated block comment, a guard at the end), Python 3.7 and later (PEP 479) turn the `StopIteration` into a `RuntimeError`; the model follows that, not the older behaviour of silently ending the generator;
  - for an `#if` as the last statement, the bare `next` at namespacer.py:121 is in `consume_if`, an ordinary method, so the `StopIteration` itself leaves `process`.
- An `#include` without a space after `include` is also `Crashed`. Its `re.match(...).group` raises `AttributeError`.
- `Namespacing.Namespacer.PutDuplicateNotes`: appends the corrected notes, each ending in a line break, not the two fragments namespacer.py:212-213 appends without one. So for a duplicate `#include` inside the namespace the modelled `out_buf` differs from the program's in those two strings; the as-written strings are `Notes.WrittenDuplicateNotes`, and what they do to the next line is the finding below.
- `Namespacing.Namespacer.HandleInclude`: its duplicate branch inherits the same correction from `PutDuplicateNotes`.
- `Namespacing.Namespacer.Process`: after a crash or a raise, the state of `out_buf` is not described. `main` writes it only in `--force` mode, and nothing about it is stated here.
- `Namespacing.Namespacer.ConsumeIf`: its firsts and depth are stated through the fold `ScanOf`. Their front-to-back meaning is the separate lemma `Conditionals.ScanMeaning`.
- `Namespacing.Namespacer.Process`: the proofs of balance and accounting cover the normal return other than "namespace already present". On that early return the buffer is not used.

## Findings

| source | as written | input that shows it | evidently intended | confidence | as-written member | corrected member |
|---|---|---|---|---|---|---|
| namespacer.py:212-213 | the two comment strings appended for a duplicate `#include` have no line break, and `writelines` adds none | a duplicate `#include "a.h"` inside the namespace, followed by `int y;` | each comment is a line of its own, and the next line stays code | high, not executed | Notes.WrittenNotesSwallowNextLine | Notes.DuplicateNotesAreLines |

The as-written behaviour is exhibited concretely by
`Notes.DeclarationAfterDuplicateIncludeIsCommentedOut`. The class uses the
corrected `DuplicateNotes` (see `Namespacing.Namespacer.PutDuplicateNotes`).
