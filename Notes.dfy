/**
 * The two comment lines `process` writes in place of an `#include` that was
 * already seen outside the namespace, and what becomes of them when the
 * output buffer is written out with `writelines` (the strings are
 * concatenated as they are, no separator is added).
 */
module Notes {

  /** The first note, one string with no line break; it is concatenated from pieces only to keep the line short. */
  const AlreadySeenNote := "// this include was" + " already seen before," + " outside the namespace," + " so ignoring it here"

  /** `f.writelines(out_buf)`: the text of the written file. */
  function Concat(ss: seq<string>): string {
    if ss == [] then [] else ss[0] + Concat(ss[1..])
  }

  /** A complete line: it ends with its only line break. */
  predicate IsLine(s: string) {
    s != [] && s[|s| - 1] == '\n' && '\n' !in s[..|s| - 1]
  }

  /** The comment fragments as the source writes them: neither ends with a line break. */
  function WrittenDuplicateNotes(line: string): seq<string> {
    [AlreadySeenNote, "// " + line]
  }

  /** The comment lines as evidently intended: each one a complete line. */
  function DuplicateNotes(line: string): seq<string> {
    [AlreadySeenNote + "\n", "// " + line + "\n"]
  }

  lemma ConcatCons(s: string, ss: seq<string>)
    ensures Concat([s] + ss) == s + Concat(ss)
  {
    assert ([s] + ss)[1..] == ss;
  }

  lemma NoteHasNoBreak()
    ensures '\n' !in AlreadySeenNote
  {
    assert '\n' !in "// this include was";
    assert '\n' !in " already seen before,";
    assert '\n' !in " outside the namespace,";
    assert '\n' !in " so ignoring it here";
  }

  /**
   * As written, the two fragments add no line break: whatever the buffer
   * holds next (the following input line) is written on the same line,
   * behind the `//`, and so is commented out.
   */
  lemma {:induction false} WrittenNotesSwallowNextLine(line: string, next: string)
    requires '\n' !in line
    ensures Concat(WrittenDuplicateNotes(line) + [next]) == AlreadySeenNote + "// " + line + next
    ensures '\n' !in AlreadySeenNote + "// " + line
  {
    var ns := WrittenDuplicateNotes(line);
    assert ns + [next] == [AlreadySeenNote] + ([("// " + line)] + [next]);
    ConcatCons(AlreadySeenNote, [("// " + line)] + [next]);
    ConcatCons("// " + line, [next]);
    ConcatCons(next, []);
    NoteHasNoBreak();
    assert '\n' !in "// " + line;
  }

  /** A duplicate `#include "a.h"` followed by `int y;`: the declaration ends up inside the comment. */
  lemma DeclarationAfterDuplicateIncludeIsCommentedOut()
    ensures Concat(WrittenDuplicateNotes("#include \"a.h\"") + ["int y;\n"]) ==
      AlreadySeenNote + "// #include \"a.h\"int y;\n"
  {
    WrittenNotesSwallowNextLine("#include \"a.h\"", "int y;\n");
  }

  /**
   * With the line breaks added, both notes are complete lines of their own
   * and the buffer's next string starts a line of its own.
   */
  lemma {:induction false} DuplicateNotesAreLines(line: string, next: string)
    requires '\n' !in line
    ensures forall s :: s in DuplicateNotes(line) ==> IsLine(s)
    ensures Concat(DuplicateNotes(line) + [next]) == AlreadySeenNote + "\n" + "// " + line + "\n" + next
  {
    var a := AlreadySeenNote + "\n";
    var b := "// " + line + "\n";
    NoteHasNoBreak();
    assert a[..|a| - 1] == AlreadySeenNote;
    assert b[..|b| - 1] == "// " + line;
    assert '\n' !in "// " + line;
    assert DuplicateNotes(line) + [next] == [a] + ([b] + [next]);
    ConcatCons(a, [b] + [next]);
    ConcatCons(b, [next]);
    ConcatCons(next, []);
  }
}
