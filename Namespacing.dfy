/**
 * The `Namespacer` class: the raw line reader with its lazy copy into the
 * output buffer, the include guard and preprocessor filters, `consume_if`,
 * the error sink and `process`.
 *
 * The stateless filters (see module `Filters`) are evaluated once, at
 * construction, into `stmts`; each of their items records how many lines
 * the reader had yielded when the item was produced, and `NextItem` replays
 * exactly those reads. The reader copies a yielded line into whatever
 * buffer `outBuf` is at the moment it is asked for the NEXT line, or lets
 * `dropLines` swallow it.
 *
 * Ghost tags (`tags`, one per string of `outBuf`) record where every output
 * string came from. While `consume_if` runs, `outBuf` is its private buffer
 * and the main buffer's tags are `parked`.
 */
module Namespacing {
  import opened Text
  import opened Filters
  import opened Output
  import opened Conditionals
  import opened Notes

  /** The statement that opened the namespace, and its line number. */
  datatype Anchor = Anchor(text: string, nr: int)

  /** The errors `process` reports through `error`. */
  datatype ErrorKind = MixedIf(withinNamespace: bool) | IncludeInIfInNamespace | IncludeInNamespace

  function ErrorText(e: ErrorKind): string {
    match e
    case MixedIf(w) => if w then "mixed #if within namespace" else "mixed #if"
    case IncludeInIfInNamespace => "include within #if within namespace"
    case IncludeInNamespace => "#include within namespace"
  }

  /** The comment line the marking error sink writes into the output for an error. */
  function ErrorLine(e: ErrorKind): string {
    "// " + ErrorText(e) + "\n"
  }

  /**
   * Every error text is one line without surrounding whitespace, so the
   * marking sink's `indent(msg.strip() + "\n", "// ")` is the single line
   * `ErrorLine(e)`.
   */
  lemma ErrorTextIsOneLine(e: ErrorKind)
    ensures ErrorText(e) != [] && Strip(ErrorText(e)) == ErrorText(e)
    ensures '\n' !in ErrorText(e)
  {
    var t := ErrorText(e);
    assert !IsSpace(t[0]) && !IsSpace(t[|t| - 1]);
    StripKeepsTrimmed(t);
  }

  lemma StripKeepsTrimmed(t: string)
    requires t != [] && !IsSpace(t[0]) && !IsSpace(t[|t| - 1])
    ensures Strip(t) == t
  {
    assert TrimLeft(t) == t;
    assert TrimRight(t) == t;
  }

  /** The entries of `msgs`; their wording is not modelled, their content is. */
  datatype Msg =
    | BrokenGuard(guard: string, nr: int, ifndef: string, define: string)
    | MixedIfDetail(first: string, firstNr: int, incl: Seen, code: Seen)
    | IncludeInIfDetail(incl: Seen, first: string, firstNr: int, anchor: Anchor)
    | InsertBeforeIf(first: string, firstNr: int, code: Seen)
    | ClosingBeforeGuardEnd(nr: int, line: string)
    | SuperfluousEndif(nr: int, line: string)
    | DuplicateInclude(line: string, nr: int)
    | IncludeAfterCode(line: string, nr: int, anchor: Anchor)
    | SeenIncludes(includes: set<string>)
    | AlreadyPresent(nr: int, line: string)
    | ClassPredeclared(cls: string, nr: int, line: string)
    | InsertBeforeCode(nr: int, line: string)
    | ClosingAtEnd(nr: int, line: string)
    | Failed(text: string)

  /** How a call of `process` ends: a status, a `CannotProcess` error, or an uncaught exception. */
  datatype Outcome = Returned(status: string) | Raised(message: string) | Crashed

  /** Whether `process` goes on with the next statement, found the input exhausted, or ends with an outcome. */
  datatype Flow = Continue | Exhausted | Stop(outcome: Outcome)

  /** The status after the marking error sink reported `e`: only the first error is kept. */
  function FirstError(status: Option<string>, e: ErrorKind): Option<string> {
    if status.Some? && status.value != [] then status else Some(ErrorText(e))
  }

  /** Where `filter_include_guard` is suspended. */
  datatype GuardMode = Scanning | Queued(line: string) | PassThrough

  /** The result of pulling from a generator. */
  datatype Pull = Got(text: string) | End | Crash

  const AlreadyPresentStatus := "namespace already present"

  /** `s.rstrip("\n")`: `s` without its trailing run of line breaks. */
  function TrimNewlines(s: string): (r: string)
    ensures |r| <= |s| && (r == [] || r[|r| - 1] != '\n')
  {
    if s != [] && s[|s| - 1] == '\n' then TrimNewlines(s[..|s| - 1]) else s
  }

  /** `TrimNewlines(s)` is a prefix of `s`, and what it cuts off is line breaks only. */
  lemma {:induction false} TrimNewlinesCutsBreaks(s: string)
    ensures var r := TrimNewlines(s); s[..|r|] == r && forall k :: |r| <= k < |s| ==> s[k] == '\n'
  {
    if s != [] && s[|s| - 1] == '\n' {
      var t := s[..|s| - 1];
      TrimNewlinesCutsBreaks(t);
      var r := TrimNewlines(t);
      assert TrimNewlines(s) == r;
      assert s[..|r|] == t[..|r|];
      forall k | |r| <= k < |s| ensures s[k] == '\n' {
        if k < |t| {
          assert s[k] == t[k];
        }
      }
    }
  }

  class Namespacer {
    const lines: seq<string>
    const name: string
    /** The `--comment` override: the inserted markers are the commented forms. */
    const commentMode: bool
    /** The `--errors` override: `error` records and marks instead of raising. */
    const marking: bool
    const markers: Markers
    const excluded: seq<string>
    const visible: seq<string>
    const stmts: Stream

    var outBuf: seq<string>
    var msgs: seq<Msg>
    var includeGuard: bool
    var namespaceActive: Option<Anchor>
    var nestingDepth: int
    var dropLines: nat
    var status: Option<string>

    // The suspended generators.
    var rawPos: nat
    var pulled: nat
    var pending: bool
    var cursor: nat
    var guardMode: GuardMode

    /** `line_nr`, the counter of `enumerate`: the number of the input line last read, -1 before the first. */
    function LineNr(): int
      reads this`rawPos
    {
      if rawPos == 0 then -1 else rawPos
    }

    /** `full_line`, the value of `enumerate`: the input line last read, "" before the first. */
    function FullLine(): string
      reads this`rawPos
    {
      if 0 < rawPos <= |lines| then lines[rawPos - 1] else ""
    }

    ghost var tags: seq<Frag>
    ghost var parked: seq<Frag>
    /** For every yielded line whose copy or drop has happened (all but a pending one): was it copied? */
    ghost var copied: seq<bool>
    /** The statements `filter_include_guard` has handed to `filter_preprocessor`, in order. */
    ghost var guarded: seq<string>
    /** The statements `filter_preprocessor` has yielded, each with `line_nr` at that moment. */
    ghost var delivered: seq<(string, int)>

    /** The marker lines inserted, and the commented ones `iter_lines` strips. */
    ghost predicate Markup() {
      && markers == InsertedMarkers(name, commentMode)
      && excluded == [WouldMarkers(name).open, WouldMarkers(name).close]
    }

    ghost predicate Config() {
      && visible == Visible(lines, excluded)
      && Ascending(stmts.items, |visible|)
    }

    /** The reader has gone through `rawPos` input lines and yielded `pulled` of them. */
    ghost predicate Reader()
      reads this`rawPos, this`pulled, this`pending, this`copied
    {
      && rawPos <= |lines| && pulled <= |visible|
      && pulled == VisibleCount(lines, excluded, rawPos)
      && (pending ==> 0 < pulled && FullLine() == visible[pulled - 1])
      && |copied| == (if pending then pulled - 1 else pulled)
    }

    /** The buffer holds what its tags say, and the raw tags are the copied lines, in order. */
    ghost predicate Buffer()
      reads this`outBuf, this`tags, this`parked, this`copied
    {
      && Renders(outBuf, tags, visible, markers)
      && RawIndices(parked) + RawIndices(tags) == Kept(copied)
    }

    /** The next statement is produced by reads the reader has not done yet. */
    ghost predicate Replay()
      reads this`pulled, this`cursor
    {
      cursor <= |stmts.items| && (cursor < |stmts.items| ==> pulled < stmts.items[cursor].pulls)
    }

    ghost predicate Pipe()
      reads this`rawPos, this`pulled, this`pending, this`copied, this`outBuf, this`tags,
        this`parked, this`cursor
    {
      Reader() && Buffer() && Replay()
    }

    /** The markers alternate, and one is open exactly while `namespace_active` is set. */
    ghost predicate Balance()
      reads this`tags, this`namespaceActive
    {
      Alternates(MarkerSeq(tags)) && |MarkerSeq(tags)| % 2 == (if namespaceActive.Some? then 1 else 0)
    }

    /** Twice the statements not yet read, plus one for a queued one: every delivered statement lowers it. */
    function Remaining(cursor: nat, guardMode: GuardMode): int {
      2 * (|stmts.items| - cursor) + (if guardMode.Queued? then 1 else 0)
    }

    /** The state right after construction. */
    ghost predicate Fresh()
      reads this
    {
      && Markup() && Config() && parked == [] && tags == [] && copied == []
      && outBuf == [] && msgs == [] && !includeGuard && namespaceActive.None? && dropLines == 0 && status.None?
      && rawPos == 0 && pulled == 0 && !pending && cursor == 0 && guardMode == Scanning
    }

    /** The fresh state satisfies the invariants the pulls keep. */
    lemma FreshIsValid()
      requires Fresh()
      ensures Pipe() && Balance()
    {
      assert |stmts.items| > 0 ==> 1 <= stmts.items[0].pulls;
    }

    constructor (lines: seq<string>, name: string, commentMode: bool, marking: bool)
      ensures Fresh() && stmts == Statements(visible)
      ensures this.lines == lines && this.name == name && this.commentMode == commentMode && this.marking == marking
      ensures LineNr() == -1 && FullLine() == "" && nestingDepth == 0
    {
      var excl := [WouldMarkers(name).open, WouldMarkers(name).close];
      var v := Visible(lines, excl);
      var s := ComputeStatements(v);
      this.lines := lines;
      this.name := name;
      this.commentMode := commentMode;
      this.marking := marking;
      markers := InsertedMarkers(name, commentMode);
      excluded := excl;
      visible := v;
      stmts := s;
      outBuf := [];
      msgs := [];
      includeGuard := false;
      namespaceActive := None;
      nestingDepth := 0;
      dropLines := 0;
      status := None;
      rawPos := 0;
      pulled := 0;
      pending := false;
      cursor := 0;
      guardMode := Scanning;
      tags := [];
      parked := [];
      copied := [];
      guarded := [];
      delivered := [];
      new;
    }

    /** `out_buf.append(text)`, where tag `f` says what `text` is. */
    method Put(text: string, ghost f: Frag)
      requires Renders(outBuf, tags, visible, markers) && text == FragText(f, visible, markers)
      modifies this`outBuf, this`tags
      ensures outBuf == old(outBuf) + [text] && tags == old(tags) + [f]
      ensures Renders(outBuf, tags, visible, markers)
      ensures RawIndices(tags) == RawIndices(old(tags)) + (if f.Raw? then [f.index] else [])
      ensures MarkerSeq(tags) == MarkerSeq(old(tags)) + (if f.OpenMark? || f.CloseMark? then [f] else [])
    {
      RawIndicesSnoc(tags, f);
      MarkerSeqSnoc(tags, f);
      RenderSnoc(tags, f, visible, markers);
      outBuf := outBuf + [text];
      tags := tags + [f];
    }

    /** The pending line is copied into the current buffer. */
    method CopyPending()
      requires Reader() && Buffer() && pending
      modifies this`outBuf, this`tags, this`pending, this`copied
      ensures Reader() && Buffer() && !pending
      ensures outBuf == old(outBuf) + [FullLine()] && tags == old(tags) + [Raw(pulled - 1)] && copied == old(copied) + [true]
    {
      KeptSnoc(copied, true);
      Put(FullLine(), Raw(|copied|));
      pending := false;
      copied := copied + [true];
    }

    /** The pending line is dropped: it never reaches any buffer. */
    method DropPending()
      requires Reader() && Buffer() && pending
      modifies this`pending, this`copied
      ensures Reader() && Buffer() && !pending
      ensures copied == old(copied) + [false]
    {
      KeptSnoc(copied, false);
      pending := false;
      copied := copied + [false];
    }

    /**
     * `iter_lines` resumed after a `yield`: the line yielded last is copied
     * to `out_buf` or, while `drop_lines > 0`, dropped.
     */
    method Resume()
      requires Reader() && Buffer()
      modifies this`outBuf, this`tags, this`dropLines, this`pending, this`copied
      ensures Reader() && Buffer() && !pending
      ensures old(pending) && old(dropLines) > 0 ==>
        dropLines == old(dropLines) - 1 && outBuf == old(outBuf) && tags == old(tags) && copied == old(copied) + [false]
      ensures old(pending) && old(dropLines) == 0 ==>
        dropLines == 0 && outBuf == old(outBuf) + [FullLine()] && tags == old(tags) + [Raw(pulled - 1)] && copied == old(copied) + [true]
      ensures !old(pending) ==> outBuf == old(outBuf) && tags == old(tags) && copied == old(copied) && dropLines == old(dropLines)
      ensures RawExtends(old(tags), tags)
      ensures old(dropLines) == 0 ==> dropLines == 0 && (NoDrop(old(copied)) ==> NoDrop(copied))
    {
      if pending {
        if dropLines > 0 {
          dropLines := dropLines - 1;
          DropPending();
          assert tags[|old(tags)|..] == [];
        } else {
          CopyPending();
          assert tags[|old(tags)|..] == [Raw(pulled - 1)];
          assert NoDrop(old(copied)) ==> NoDrop(copied) by {
            if NoDrop(old(copied)) {
              forall k | 0 <= k < |copied| ensures copied[k] {
                if k < |old(copied)| {
                  assert copied[k] == old(copied)[k];
                }
              }
            }
          }
        }
      }
    }

    /**
     * `iter_lines` reading on: the next input line that is not a commented
     * marker is yielded; `line_nr` and `full_line` follow every input line
     * read, since they are `LineNr()` and `FullLine()` of the position.
     */
    method ReadNext() returns (r: Option<string>)
      requires Config() && Reader() && !pending
      modifies this`rawPos, this`pulled, this`pending
      ensures Reader()
      ensures r.Some? <==> old(pulled) < |visible|
      ensures r.Some? ==> r.value == visible[old(pulled)] && pulled == old(pulled) + 1 && pending && FullLine() == r.value
      ensures r.None? ==> pulled == old(pulled) && !pending && rawPos == |lines|
    {
      while rawPos < |lines|
        invariant rawPos <= |lines| && !pending && pulled == VisibleCount(lines, excluded, rawPos) && |copied| == pulled
        decreases |lines| - rawPos
      {
        var line := lines[rawPos];
        if line !in excluded {
          VisibleAt(lines, excluded, rawPos);
          rawPos := rawPos + 1;
          pending := true;
          pulled := pulled + 1;
          return Some(line);
        }
        rawPos := rawPos + 1;
      }
      VisibleCountAll(lines, excluded);
      r := None;
    }

    /** `iter_lines`, resumed: `Resume`, then `ReadNext`. */
    method PullRaw() returns (r: Option<string>)
      requires Config() && Reader() && Buffer()
      modifies this`outBuf, this`tags, this`dropLines, this`copied, this`rawPos, this`pulled, this`pending
      ensures Reader() && Buffer()
      ensures RawExtends(old(tags), tags)
      ensures old(dropLines) == 0 ==> dropLines == 0 && (NoDrop(old(copied)) ==> NoDrop(copied))
      ensures r.Some? <==> old(pulled) < |visible|
      ensures r.Some? ==> pulled == old(pulled) + 1 && pending
      ensures r.None? ==> pulled == old(pulled) && !pending && rawPos == |lines|
    {
      Resume();
      r := ReadNext();
    }

    /** Reads through the reader until `target` lines have been yielded. */
    method AdvanceTo(target: nat)
      requires Config() && Reader() && Buffer() && pulled <= target <= |visible|
      modifies this`outBuf, this`tags, this`dropLines, this`copied, this`rawPos, this`pulled, this`pending
      ensures Reader() && Buffer() && pulled == target
      ensures target > old(pulled) ==> pending
      ensures pending == old(pending) || target > old(pulled)
      ensures RawExtends(old(tags), tags)
      ensures old(dropLines) == 0 ==> dropLines == 0 && (NoDrop(old(copied)) ==> NoDrop(copied))
    {
      while pulled < target
        invariant Reader() && Buffer() && pulled <= target
        invariant pending == old(pending) || pulled > old(pulled)
        invariant pulled > old(pulled) ==> pending
        invariant RawExtends(old(tags), tags)
        invariant old(dropLines) == 0 ==> dropLines == 0 && (NoDrop(old(copied)) ==> NoDrop(copied))
        decreases target - pulled
      {
        ghost var before := tags;
        var line := PullRaw();
        RawExtendsTrans(old(tags), before, tags);
      }
    }

    /** The next item of the stateless filters, with the reads that produce it; at their end the reader is exhausted. */
    method NextItem() returns (r: Pull)
      requires Config() && Pipe()
      modifies this`outBuf, this`tags, this`dropLines, this`copied, this`rawPos, this`pulled, this`pending,
        this`cursor
      ensures Pipe()
      ensures old(cursor) < |stmts.items| ==>
        r == Got(stmts.items[old(cursor)].text) && cursor == old(cursor) + 1 && pulled == stmts.items[old(cursor)].pulls && pending
      ensures old(cursor) == |stmts.items| ==>
        r == (if stmts.crashes then Crash else End) && cursor == old(cursor) && pulled == |visible| && !pending && rawPos == |lines|
      ensures RawExtends(old(tags), tags)
      ensures old(dropLines) == 0 ==> dropLines == 0 && (NoDrop(old(copied)) ==> NoDrop(copied))
    {
      if cursor < |stmts.items| {
        var item := stmts.items[cursor];
        AdvanceTo(item.pulls);
        cursor := cursor + 1;
        assert cursor < |stmts.items| ==> item.pulls < stmts.items[cursor].pulls;
        return Got(item.text);
      }
      AdvanceTo(|visible|);
      ghost var middle := tags;
      var none := PullRaw();
      RawExtendsTrans(old(tags), middle, tags);
      r := if stmts.crashes then Crash else End;
    }

    /**
     * The lookahead of `filter_include_guard` after it read `#ifndef n` as
     * statement `l`: the next statement must be `#define n...`. If it is,
     * both are swallowed, `include_guard` is set and the statement after
     * them is passed on without being checked; if it is not, one message is
     * logged, `l` is passed on and the other statement is queued. A missing
     * statement is a bare `next` on an exhausted input: a crash.
     */
    method GuardLookahead(l: string, n: string) returns (r: Pull)
      requires Config() && Pipe() && guardMode == Scanning
      requires 0 < cursor && stmts.items[cursor - 1].text == l && IfndefName(l) == Some(n)
      modifies this`outBuf, this`tags, this`dropLines, this`copied, this`rawPos, this`pulled, this`pending,
        this`cursor, this`guardMode, this`includeGuard, this`msgs
      ensures Pipe() && Remaining(cursor, guardMode) <= Remaining(old(cursor), old(guardMode))
      ensures RawExtends(old(tags), tags)
      ensures old(dropLines) == 0 ==> dropLines == 0 && (NoDrop(old(copied)) ==> NoDrop(copied))
      ensures
        var c := old(cursor);
        if c == |stmts.items| then r == Crash
        else if DefinesName(stmts.items[c].text, n) then
          includeGuard && guardMode == Scanning && msgs == old(msgs) &&
          (if c + 1 == |stmts.items| then r == Crash else r == Got(stmts.items[c + 1].text) && cursor == c + 2)
        else
          r == Got(l) && guardMode == Queued(stmts.items[c].text) && includeGuard == old(includeGuard) &&
          msgs == old(msgs) + [BrokenGuard(n, LineNr() - 1, l, stmts.items[c].text)] && cursor == c + 1
    {
      var d := NextItem();
      if !d.Got? {
        return Crash;
      }
      if !DefinesName(d.text, n) {
        msgs := msgs + [BrokenGuard(n, LineNr() - 1, l, d.text)];
        guardMode := Queued(d.text);
        return Got(l);
      }
      ghost var t1 := tags;
      r := AcceptGuard();
      RawExtendsTrans(old(tags), t1, tags);
    }

    /** The `#define` matched: `include_guard` is set and the next statement is taken with a bare `next`. */
    method AcceptGuard() returns (r: Pull)
      requires Config() && Pipe()
      modifies this`outBuf, this`tags, this`dropLines, this`copied, this`rawPos, this`pulled, this`pending,
        this`cursor, this`includeGuard
      ensures Pipe() && includeGuard && Remaining(cursor, guardMode) <= Remaining(old(cursor), old(guardMode))
      ensures RawExtends(old(tags), tags)
      ensures old(dropLines) == 0 ==> dropLines == 0 && (NoDrop(old(copied)) ==> NoDrop(copied))
      ensures old(cursor) == |stmts.items| ==> r == Crash
      ensures old(cursor) < |stmts.items| ==> r == Got(stmts.items[old(cursor)].text) && cursor == old(cursor) + 1
    {
      includeGuard := true;
      r := NextItem();
      if !r.Got? {
        r := Crash;
      }
    }

    /**
     * `filter_include_guard`, resumed: a queued statement first, every
     * statement once the guard scan gave up, and otherwise the next
     * statement, unless it is an `#ifndef` read while `include_guard` is
     * false (see `GuardLookahead`).
     */
    method PullGuarded() returns (r: Pull)
      requires Config() && Pipe()
      modifies this`outBuf, this`tags, this`dropLines, this`copied, this`rawPos, this`pulled, this`pending,
        this`cursor, this`guardMode, this`includeGuard, this`msgs
      ensures Pipe()
      ensures r.Got? ==> Remaining(cursor, guardMode) < Remaining(old(cursor), old(guardMode))
      ensures Remaining(cursor, guardMode) <= Remaining(old(cursor), old(guardMode))
      ensures RawExtends(old(tags), tags)
      ensures old(dropLines) == 0 ==> dropLines == 0 && (NoDrop(old(copied)) ==> NoDrop(copied))
      ensures old(guardMode).Queued? ==>
        r == Got(old(guardMode).line) && guardMode == PassThrough && cursor == old(cursor) && pulled == old(pulled) && tags == old(tags)
      ensures old(guardMode) == PassThrough ==> guardMode == PassThrough
      ensures !old(guardMode).Queued? && old(cursor) < |stmts.items| &&
              (old(guardMode) == PassThrough || old(includeGuard) || IfndefName(stmts.items[old(cursor)].text).None?) ==>
        r == Got(stmts.items[old(cursor)].text) && cursor == old(cursor) + 1 && guardMode == old(guardMode) &&
        msgs == old(msgs) && includeGuard == old(includeGuard)
      ensures !old(guardMode).Queued? && old(cursor) == |stmts.items| ==>
        r == (if stmts.crashes then Crash else End) && msgs == old(msgs) && includeGuard == old(includeGuard)
      ensures r.End? ==> !pending && pulled == |visible|
    {
      match guardMode
      case Queued(l) =>
        guardMode := PassThrough;
        return Got(l);
      case PassThrough =>
        r := NextItem();
      case Scanning =>
        r := NextItem();
        if !r.Got? || includeGuard || IfndefName(r.text).None? {
          return;
        }
        ghost var t1 := tags;
        r := GuardLookahead(r.text, IfndefName(r.text).value);
        RawExtendsTrans(old(tags), t1, tags);
    }

    /** The `for l in iter` step of `filter_preprocessor`: one pull from `filter_include_guard`, logged in `guarded`. */
    method TakeGuarded() returns (r: Pull)
      requires Config() && Pipe()
      modifies this`outBuf, this`tags, this`dropLines, this`copied, this`rawPos, this`pulled, this`pending,
        this`cursor, this`guardMode, this`includeGuard, this`msgs, this`guarded
      ensures Pipe()
      ensures r.Got? ==> Remaining(cursor, guardMode) < Remaining(old(cursor), old(guardMode))
      ensures Remaining(cursor, guardMode) <= Remaining(old(cursor), old(guardMode))
      ensures RawExtends(old(tags), tags)
      ensures old(dropLines) == 0 ==> dropLines == 0 && (NoDrop(old(copied)) ==> NoDrop(copied))
      ensures r.End? ==> !pending && pulled == |visible|
      ensures old(cursor) == |stmts.items| && !old(guardMode).Queued? ==> r == (if stmts.crashes then Crash else End)
      ensures guarded == old(guarded) + (if r.Got? then [r.text] else [])
    {
      r := PullGuarded();
      if r.Got? {
        guarded := guarded + [r.text];
      }
    }

    /** `filter_preprocessor`, resumed: the next statement that is not `#elif`, `#else`, `#define`, `#undef`, `#error`, `#pragma` or `#warning`. */
    method PullStatement() returns (r: Pull, ghost skipped: seq<string>)
      requires Config() && Pipe()
      modifies this`outBuf, this`tags, this`dropLines, this`copied, this`rawPos, this`pulled, this`pending,
        this`cursor, this`guardMode, this`includeGuard, this`msgs, this`guarded, this`delivered
      ensures Pipe()
      ensures r.Got? ==> !IsNoise(r.text) && Remaining(cursor, guardMode) < Remaining(old(cursor), old(guardMode))
      ensures Remaining(cursor, guardMode) <= Remaining(old(cursor), old(guardMode))
      ensures RawExtends(old(tags), tags)
      ensures old(dropLines) == 0 ==> dropLines == 0 && (NoDrop(old(copied)) ==> NoDrop(copied))
      ensures r.End? ==> !pending && pulled == |visible|
      ensures old(cursor) == |stmts.items| && !old(guardMode).Queued? ==> r == (if stmts.crashes then Crash else End)
      ensures guarded == old(guarded) + skipped + (if r.Got? then [r.text] else [])
      ensures forall k :: 0 <= k < |skipped| ==> IsNoise(skipped[k])
      ensures delivered == old(delivered) + (if r.Got? then [(r.text, LineNr())] else [])
    {
      skipped := [];
      while true
        invariant guarded == old(guarded) + skipped && delivered == old(delivered)
        invariant forall k :: 0 <= k < |skipped| ==> IsNoise(skipped[k])
        invariant Pipe() && Remaining(cursor, guardMode) <= Remaining(old(cursor), old(guardMode))
        invariant RawExtends(old(tags), tags)
        invariant old(dropLines) == 0 ==> dropLines == 0 && (NoDrop(old(copied)) ==> NoDrop(copied))
        invariant old(cursor) == |stmts.items| && !old(guardMode).Queued? ==> cursor == old(cursor) && guardMode == old(guardMode)
        decreases Remaining(cursor, guardMode)
      {
        ghost var before := tags;
        r := TakeGuarded();
        RawExtendsTrans(old(tags), before, tags);
        if !r.Got? {
          return;
        }
        if !IsNoise(r.text) {
          delivered := delivered + [(r.text, LineNr())];
          return;
        }
        skipped := skipped + [r.text];
      }
    }

    /**
     * `consume_if`, called right after `process` read an `#if...` statement:
     * the output buffer is swapped for an empty one (so the raw lines of the
     * block, the `#if...` line included, are copied there), statements are
     * classified until the depth, which starts at 1, is back at 0, and the
     * main buffer is restored. `next` is the statement after the block, or
     * `End` when the input ran out first. The first `next` is bare: no
     * statement at all is a crash.
     */
    method ConsumeIf() returns (next: Pull, firstInclude: Option<Seen>, firstCode: Option<Seen>, block: seq<string>,
                                ghost seen: seq<Stmt>, ghost blockTags: seq<Frag>)
      requires Config() && Pipe() && parked == []
      modifies this`outBuf, this`tags, this`parked, this`dropLines, this`copied, this`rawPos, this`pulled, this`pending,
        this`cursor, this`guardMode, this`includeGuard, this`msgs, this`guarded, this`delivered, this`nestingDepth
      ensures Reader() && Replay() && outBuf == old(outBuf) && tags == old(tags) && parked == []
      ensures RawOnly(blockTags) && Renders(block, blockTags, visible, markers)
      ensures RawIndices(tags) + RawIndices(blockTags) == Kept(copied)
      ensures next != Crash ==> seen != [] && Classified(seen) && StaysOpen(seen) && Remaining(cursor, guardMode) < Remaining(old(cursor), old(guardMode))
      ensures next != Crash ==> Scan(nestingDepth, firstInclude, firstCode) == ScanOf(seen)
      ensures next.Got? ==> nestingDepth == 0
      ensures next.End? ==> !pending && pulled == |visible|
      ensures delivered == old(delivered) + Placed(seen) + (if next.Got? then [(next.text, LineNr())] else [])
    {
      var mainBuf;
      ghost var mainTags;
      mainBuf, mainTags := Park();
      nestingDepth := 1;
      next, firstInclude, firstCode, seen := ScanBlock();
      block, blockTags := Unpark(mainBuf, mainTags);
    }

    /** `next(iter)` inside `consume_if`: the next statement of `filter_preprocessor`, copying only raw lines into the block. */
    method NextInBlock() returns (r: Pull)
      requires Config() && Pipe() && RawOnly(tags)
      modifies this`outBuf, this`tags, this`dropLines, this`copied, this`rawPos, this`pulled, this`pending,
        this`cursor, this`guardMode, this`includeGuard, this`msgs, this`guarded, this`delivered
      ensures Pipe() && RawOnly(tags)
      ensures r.Got? ==> Remaining(cursor, guardMode) < Remaining(old(cursor), old(guardMode))
      ensures Remaining(cursor, guardMode) <= Remaining(old(cursor), old(guardMode))
      ensures r.End? ==> !pending && pulled == |visible|
      ensures delivered == old(delivered) + (if r.Got? then [(r.text, LineNr())] else [])
    {
      ghost var skipped;
      r, skipped := PullStatement();
      RawExtendsRawOnly(old(tags), tags);
    }

    /** `old_out_buf = self.out_buf; self.out_buf = []`: the main buffer is set aside, and its tags parked. */
    method Park() returns (mainBuf: seq<string>, ghost mainTags: seq<Frag>)
      requires Buffer() && parked == []
      modifies this`outBuf, this`tags, this`parked
      ensures Buffer() && outBuf == [] && tags == [] && parked == mainTags
      ensures mainBuf == old(outBuf) && mainTags == old(tags) && Renders(mainBuf, mainTags, visible, markers)
    {
      mainBuf, mainTags := outBuf, tags;
      parked, tags, outBuf := tags, [], [];
    }

    /** `self.out_buf = old_out_buf`: the main buffer is back, and the block's buffer is handed out. */
    method Unpark(mainBuf: seq<string>, ghost mainTags: seq<Frag>) returns (block: seq<string>, ghost blockTags: seq<Frag>)
      requires Buffer() && RawOnly(tags) && parked == mainTags && Renders(mainBuf, mainTags, visible, markers)
      modifies this`outBuf, this`tags, this`parked
      ensures outBuf == mainBuf && tags == mainTags && parked == []
      ensures block == old(outBuf) && blockTags == old(tags)
      ensures RawOnly(blockTags) && Renders(block, blockTags, visible, markers)
      ensures RawIndices(tags) + RawIndices(blockTags) == Kept(copied)
    {
      block, blockTags := outBuf, tags;
      outBuf, tags, parked := mainBuf, mainTags, [];
    }

    /**
     * The loop of `consume_if`, with the block's buffer in place: the first
     * statement is read by a bare `next`, so its absence is a crash.
     */
    method ScanBlock() returns (next: Pull, firstInclude: Option<Seen>, firstCode: Option<Seen>, ghost seen: seq<Stmt>)
      requires Config() && Pipe() && tags == [] && nestingDepth == 1
      modifies this`outBuf, this`tags, this`dropLines, this`copied, this`rawPos, this`pulled, this`pending,
        this`cursor, this`guardMode, this`includeGuard, this`msgs, this`guarded, this`delivered, this`nestingDepth
      ensures Pipe() && RawOnly(tags)
      ensures next != Crash ==> seen != [] && Remaining(cursor, guardMode) < Remaining(old(cursor), old(guardMode))
      ensures next != Crash ==> Scan(nestingDepth, firstInclude, firstCode) == ScanOf(seen)
      ensures StaysOpen(seen) && Classified(seen)
      ensures next.Got? ==> nestingDepth == 0
      ensures next.End? ==> !pending && pulled == |visible|
      ensures Logged(old(delivered), seen, next)
    {
      firstInclude, firstCode := None, None;
      seen := [];
      next := NextInBlock();
      if !next.Got? {
        next := Crash;
        return;
      }
      next, firstInclude, firstCode, seen := ScanRest(next.text, old(delivered));
    }

    /** The loop of `consume_if` proper, from the first statement `first` of the block on. */
    method ScanRest(first: string, ghost base: seq<(string, int)>) returns (next: Pull, firstInclude: Option<Seen>, firstCode: Option<Seen>, ghost seen: seq<Stmt>)
      requires Config() && Pipe() && RawOnly(tags) && nestingDepth == 1 && Logged(base, [], Got(first))
      modifies this`outBuf, this`tags, this`dropLines, this`copied, this`rawPos, this`pulled, this`pending,
        this`cursor, this`guardMode, this`includeGuard, this`msgs, this`guarded, this`delivered, this`nestingDepth
      ensures Pipe() && RawOnly(tags) && seen != []
      ensures Remaining(cursor, guardMode) <= Remaining(old(cursor), old(guardMode))
      ensures Scan(nestingDepth, firstInclude, firstCode) == ScanOf(seen)
      ensures StaysOpen(seen) && Classified(seen)
      ensures next.Got? ==> nestingDepth == 0
      ensures next.End? ==> !pending && pulled == |visible|
      ensures Logged(base, seen, next)
    {
      firstInclude, firstCode := None, None;
      seen := [];
      next := Got(first);
      var sc := Scan(1, None, None);
      while sc.depth > 0
        invariant sc == Scan(nestingDepth, firstInclude, firstCode)
        invariant Pipe() && RawOnly(tags) && Remaining(cursor, guardMode) <= Remaining(old(cursor), old(guardMode))
        invariant sc == ScanOf(seen) && StaysOpen(seen) && Classified(seen) && next.Got?
        invariant sc.depth <= 0 ==> seen != []
        invariant Logged(base, seen, next)
        decreases Remaining(cursor, guardMode)
      {
        sc, next, seen := ScanStep(sc, next.text, seen, base);
        nestingDepth, firstInclude, firstCode := sc.depth, sc.firstInclude, sc.firstCode;
        if !next.Got? {
          return;
        }
      }
    }

    /** `delivered` holds `base`, then the statements of `seen`, then the statement `next` in hand if there is one. */
    ghost predicate Logged(base: seq<(string, int)>, seen: seq<Stmt>, next: Pull)
      reads this`delivered, this`rawPos
    {
      delivered == base + Placed(seen) + (if next.Got? then [(next.text, LineNr())] else [])
    }

    /** One turn of the loop of `consume_if`: classify the statement `cur` in hand and read the next one. */
    method ScanStep(sc0: Scan, cur: string, ghost seen0: seq<Stmt>, ghost base: seq<(string, int)>)
      returns (sc: Scan, p: Pull, ghost seen: seq<Stmt>)
      requires Config() && Pipe() && RawOnly(tags)
      requires sc0 == ScanOf(seen0) && sc0.depth > 0 && StaysOpen(seen0) && Classified(seen0)
      requires Logged(base, seen0, Got(cur))
      modifies this`outBuf, this`tags, this`dropLines, this`copied, this`rawPos, this`pulled, this`pending,
        this`cursor, this`guardMode, this`includeGuard, this`msgs, this`guarded, this`delivered
      ensures Pipe() && RawOnly(tags)
      ensures p.Got? ==> Remaining(cursor, guardMode) < Remaining(old(cursor), old(guardMode))
      ensures Remaining(cursor, guardMode) <= Remaining(old(cursor), old(guardMode))
      ensures p.End? ==> !pending && pulled == |visible|
      ensures sc == ScanOf(seen) && StaysOpen(seen) && Classified(seen)
      ensures |seen| == |seen0| + 1 && seen[..|seen0|] == seen0 && seen[|seen0|].text == cur && seen[|seen0|].nr == old(LineNr())
      ensures Logged(base, seen, p)
    {
      ghost var s;
      sc, s := ClassifyStatement(sc0, cur, LineNr());
      ScanOfSnoc(seen0, s);
      ClassifiedSnoc(seen0, s);
      p := NextInBlock();
      DeliveredSnoc(base, seen0, s, if p.Got? then [(p.text, LineNr())] else []);
      seen := seen0 + [s];
    }
  
    /** `error` never leaves `status` set in strict mode, and sets it only to an error text. */
    ghost predicate Sink()
      reads this`status
    {
      (!marking ==> status.None?) && (status.Some? ==> status.value != [])
    }

    /** The open marker goes into the buffer, and the namespace is open from `anchor` on. */
    method OpenNamespace(anchor: Anchor)
      requires Renders(outBuf, tags, visible, markers) && Balance() && namespaceActive.None?
      modifies this`outBuf, this`tags, this`namespaceActive
      ensures Renders(outBuf, tags, visible, markers) && Balance() && RawIndices(tags) == RawIndices(old(tags))
      ensures outBuf == old(outBuf) + [markers.open] && tags == old(tags) + [OpenMark] && namespaceActive == Some(anchor)
    {
      AlternatesSnoc(MarkerSeq(tags), OpenMark);
      Put(markers.open, OpenMark);
      namespaceActive := Some(anchor);
    }

    /** The close marker goes into the buffer, after an open one. */
    method PutCloseMarker()
      requires Renders(outBuf, tags, visible, markers) && Alternates(MarkerSeq(tags)) && |MarkerSeq(tags)| % 2 == 1
      modifies this`outBuf, this`tags
      ensures Renders(outBuf, tags, visible, markers) && RawIndices(tags) == RawIndices(old(tags))
      ensures Alternates(MarkerSeq(tags)) && |MarkerSeq(tags)| % 2 == 0
      ensures outBuf == old(outBuf) + [markers.close] && tags == old(tags) + [CloseMark]
    {
      AlternatesSnoc(MarkerSeq(tags), CloseMark);
      Put(markers.close, CloseMark);
    }

    /**
     * The micro-wrap of a `class X;` forward declaration `line` outside the
     * namespace: open marker, the statement as a line of its own, close
     * marker. The namespace stays closed.
     */
    method WrapDeclaration(line: string)
      requires Renders(outBuf, tags, visible, markers) && Balance() && namespaceActive.None?
      modifies this`outBuf, this`tags
      ensures Renders(outBuf, tags, visible, markers) && Balance() && RawIndices(tags) == RawIndices(old(tags))
      ensures outBuf == old(outBuf) + [markers.open, line + "\n", markers.close]
      ensures tags == old(tags) + [OpenMark, Note(line + "\n"), CloseMark]
    {
      AlternatesSnoc(MarkerSeq(tags), OpenMark);
      Put(markers.open, OpenMark);
      Put(line + "\n", Note(line + "\n"));
      PutCloseMarker();
    }

    /**
     * `error(msg)`: strict mode raises `CannotProcess(msg)`; the marking sink
     * keeps the first error as `status`, logs the text and writes it into
     * the output as one `// ` comment line (see `ErrorTextIsOneLine`).
     */
    method Error(e: ErrorKind) returns (f: Flow)
      requires Renders(outBuf, tags, visible, markers) && Sink()
      modifies this`status, this`msgs, this`outBuf, this`tags
      ensures Renders(outBuf, tags, visible, markers) && Sink()
      ensures RawIndices(tags) == RawIndices(old(tags)) && MarkerSeq(tags) == MarkerSeq(old(tags))
      ensures !marking ==>
        f == Stop(Raised(ErrorText(e))) && status == old(status) && msgs == old(msgs) && outBuf == old(outBuf) && tags == old(tags)
      ensures marking ==>
        f == Continue && status == FirstError(old(status), e) && msgs == old(msgs) + [Failed(ErrorText(e))] &&
        outBuf == old(outBuf) + [ErrorLine(e)] && tags == old(tags) + [Note(ErrorLine(e))]
    {
      if !marking {
        return Stop(Raised(ErrorText(e)));
      }
      if status.None? || status.value == [] {
        status := Some(ErrorText(e));
      }
      msgs := msgs + [Failed(ErrorText(e))];
      Put(ErrorLine(e), Note(ErrorLine(e)));
      f := Continue;
    }

    /**
     * What `process` decides about a conditional block that started with
     * `first` on line `firstNr`: a block with both an `#include` and code is
     * an error, so is a block with an `#include` inside the open namespace;
     * a block with code before the namespace is open gets the open marker in
     * front of it and opens the namespace at the `#if...` line; anything else
     * changes nothing. The error, if any, is returned for the caller to
     * report after its detail message was logged here.
     */
    method DecideBlock(first: string, firstNr: int, fi: Option<Seen>, fc: Option<Seen>) returns (report: Option<ErrorKind>)
      requires Renders(outBuf, tags, visible, markers) && Balance()
      modifies this`msgs, this`outBuf, this`tags, this`namespaceActive
      ensures Renders(outBuf, tags, visible, markers) && Balance() && RawIndices(tags) == RawIndices(old(tags))
      ensures fi.Some? && fc.Some? ==>
        report == Some(MixedIf(old(namespaceActive).Some?)) && msgs == old(msgs) + [MixedIfDetail(first, firstNr, fi.value, fc.value)] &&
        outBuf == old(outBuf) && tags == old(tags) && namespaceActive == old(namespaceActive)
      ensures fi.Some? && fc.None? && old(namespaceActive).Some? ==>
        report == Some(IncludeInIfInNamespace) &&
        msgs == old(msgs) + [IncludeInIfDetail(fi.value, first, firstNr, old(namespaceActive).value)] &&
        outBuf == old(outBuf) && tags == old(tags) && namespaceActive == old(namespaceActive)
      ensures fi.None? && fc.Some? && old(namespaceActive).None? ==>
        report == None && msgs == old(msgs) + [InsertBeforeIf(first, firstNr, fc.value)] &&
        outBuf == old(outBuf) + [markers.open] && tags == old(tags) + [OpenMark] && namespaceActive == Some(Anchor(first, firstNr))
      ensures (fi.None? || fc.None?) && (fi.None? || old(namespaceActive).None?) && (fc.None? || old(namespaceActive).Some?) ==>
        report == None && msgs == old(msgs) && outBuf == old(outBuf) && tags == old(tags) && namespaceActive == old(namespaceActive)
    {
      report := None;
      if fi.Some? && fc.Some? {
        msgs := msgs + [MixedIfDetail(first, firstNr, fi.value, fc.value)];
        report := Some(MixedIf(namespaceActive.Some?));
      } else if fi.Some? && namespaceActive.Some? {
        msgs := msgs + [IncludeInIfDetail(fi.value, first, firstNr, namespaceActive.value)];
        report := Some(IncludeInIfInNamespace);
      } else if fc.Some? && namespaceActive.None? {
        msgs := msgs + [InsertBeforeIf(first, firstNr, fc.value)];
        OpenNamespace(Anchor(first, firstNr));
      }
    }

    /** `out_buf.extend(if_lines)`: the block's raw lines follow in the main buffer. */
    method AppendBlock(block: seq<string>, ghost blockTags: seq<Frag>)
      requires Renders(outBuf, tags, visible, markers) && Balance() && parked == []
      requires RawOnly(blockTags) && Renders(block, blockTags, visible, markers)
      requires RawIndices(tags) + RawIndices(blockTags) == Kept(copied)
      modifies this`outBuf, this`tags
      ensures Buffer() && Balance()
      ensures outBuf == old(outBuf) + block && tags == old(tags) + blockTags
    {
      RenderAppend(tags, blockTags, visible, markers);
      RawIndicesAppend(tags, blockTags);
      MarkerSeqRawOnly(tags, blockTags);
      outBuf := outBuf + block;
      tags := tags + blockTags;
    }

    /**
     * An `#endif` statement: with the include guard set it ends the guard
     * and closes an open namespace in front of it; without one it is only
     * logged as superfluous.
     */
    method HandleEndif(line: string)
      requires Buffer() && Balance()
      modifies this`includeGuard, this`namespaceActive, this`msgs, this`outBuf, this`tags
      ensures Buffer() && Balance()
      ensures old(includeGuard) && old(namespaceActive).Some? ==>
        !includeGuard && namespaceActive.None? && msgs == old(msgs) + [ClosingBeforeGuardEnd(LineNr(), line)] &&
        outBuf == old(outBuf) + [markers.close] && tags == old(tags) + [CloseMark]
      ensures old(includeGuard) && old(namespaceActive).None? ==>
        !includeGuard && namespaceActive.None? && msgs == old(msgs) && outBuf == old(outBuf) && tags == old(tags)
      ensures !old(includeGuard) ==>
        !includeGuard && namespaceActive == old(namespaceActive) && msgs == old(msgs) + [SuperfluousEndif(LineNr(), line)] &&
        outBuf == old(outBuf) && tags == old(tags)
    {
      if includeGuard {
        includeGuard := false;
        if namespaceActive.Some? {
          msgs := msgs + [ClosingBeforeGuardEnd(LineNr(), line)];
          PutCloseMarker();
          namespaceActive := None;
        }
      } else {
        msgs := msgs + [SuperfluousEndif(LineNr(), line)];
      }
    }

    /** The two comment lines written in place of a duplicate `#include` statement `line`. */
    method PutDuplicateNotes(line: string)
      requires Renders(outBuf, tags, visible, markers)
      modifies this`outBuf, this`tags
      ensures Renders(outBuf, tags, visible, markers)
      ensures RawIndices(tags) == RawIndices(old(tags)) && MarkerSeq(tags) == MarkerSeq(old(tags))
      ensures outBuf == old(outBuf) + DuplicateNotes(line)
      ensures tags == old(tags) + [Note(DuplicateNotes(line)[0]), Note(DuplicateNotes(line)[1])]
    {
      var notes := DuplicateNotes(line);
      Put(notes[0], Note(notes[0]));
      Put(notes[1], Note(notes[1]));
    }

    /**
     * An `#include` statement. Its target is what follows `include ` (no
     * such text is an `AttributeError`: `ok` is false). Outside the
     * namespace the target is remembered. Inside it, a target seen before
     * is not an error: the pending raw line is dropped and two comment
     * lines are written instead; an unseen target is an error, returned
     * for the caller to report after its detail messages were logged.
     */
    method HandleInclude(line: string, includes: set<string>) returns (ok: bool, report: Option<ErrorKind>, after: set<string>)
      requires Buffer() && Balance()
      modifies this`msgs, this`outBuf, this`tags, this`dropLines
      ensures Buffer() && Balance()
      ensures ok <==> IncludeTarget(line).Some?
      ensures !ok || namespaceActive.None? || IncludeTarget(line).value !in includes ==>
        outBuf == old(outBuf) && tags == old(tags) && dropLines == old(dropLines)
      ensures !ok ==> report == None && after == includes && msgs == old(msgs)
      ensures ok && namespaceActive.None? ==> report == None && after == includes + {IncludeTarget(line).value} && msgs == old(msgs)
      ensures ok && namespaceActive.Some? && IncludeTarget(line).value in includes ==>
        report == None && after == includes && dropLines == old(dropLines) + 1 &&
        msgs == old(msgs) + [DuplicateInclude(line, LineNr())] && outBuf == old(outBuf) + DuplicateNotes(line) &&
        tags == old(tags) + [Note(DuplicateNotes(line)[0]), Note(DuplicateNotes(line)[1])]
      ensures ok && namespaceActive.Some? && IncludeTarget(line).value !in includes ==>
        report == Some(IncludeInNamespace) && after == includes &&
        msgs == old(msgs) + [IncludeAfterCode(line, LineNr(), namespaceActive.value)] + (if includes == {} then [] else [SeenIncludes(includes)])
    {
      report, after := None, includes;
      var target := IncludeTarget(line);
      if target.None? {
        return false, report, after;
      }
      ok := true;
      if namespaceActive.None? {
        after := includes + {target.value};
      } else if target.value in includes {
        msgs := msgs + [DuplicateInclude(line, LineNr())];
        dropLines := dropLines + 1;
        PutDuplicateNotes(line);
      } else {
        msgs := msgs + [IncludeAfterCode(line, LineNr(), namespaceActive.value)];
        if includes != {} {
          msgs := msgs + [SeenIncludes(includes)];
        }
        report := Some(IncludeInNamespace);
      }
    }

    /**
     * A code statement. One that names `namespace <name>` ends `process`
     * (`present`). Before the namespace is open, a `class X;` forward
     * declaration is wrapped on its own: open marker, the statement, close
     * marker, with its raw line dropped and the namespace left closed; any
     * other code opens the namespace in front of its line. Code inside the
     * namespace changes nothing.
     */
    method HandleCode(line: string) returns (present: bool)
      requires Buffer() && Balance()
      modifies this`msgs, this`outBuf, this`tags, this`dropLines, this`namespaceActive
      ensures Buffer() && Balance()
      ensures present <==> Contains(line, "namespace " + name)
      ensures present ==>
        msgs == old(msgs) + [AlreadyPresent(LineNr(), line)] && outBuf == old(outBuf) && tags == old(tags) &&
        dropLines == old(dropLines) && namespaceActive == old(namespaceActive)
      ensures !present && old(namespaceActive).None? && ClassPredecl(line).Some? ==>
        dropLines == old(dropLines) + 1 && namespaceActive.None? &&
        outBuf == old(outBuf) + [markers.open, line + "\n", markers.close] && tags == old(tags) + [OpenMark, Note(line + "\n"), CloseMark] &&
        msgs == old(msgs) + [ClassPredeclared(ClassPredecl(line).value, LineNr(), line)]
      ensures !present && old(namespaceActive).None? && ClassPredecl(line).None? ==>
        dropLines == old(dropLines) && namespaceActive == Some(Anchor(line, LineNr())) &&
        outBuf == old(outBuf) + [markers.open] && tags == old(tags) + [OpenMark] && msgs == old(msgs) + [InsertBeforeCode(LineNr(), line)]
      ensures !present && old(namespaceActive).Some? ==>
        dropLines == old(dropLines) && namespaceActive == old(namespaceActive) && outBuf == old(outBuf) && tags == old(tags) && msgs == old(msgs)
    {
      if Contains(line, "namespace " + name) {
        msgs := msgs + [AlreadyPresent(LineNr(), line)];
        return true;
      }
      present := false;
      if namespaceActive.None? {
        var cls := ClassPredecl(line);
        if cls.Some? {
          dropLines := dropLines + 1;
          WrapDeclaration(line);
          msgs := msgs + [ClassPredeclared(cls.value, LineNr(), line)];
        } else {
          msgs := msgs + [InsertBeforeCode(LineNr(), line)];
          OpenNamespace(Anchor(line, LineNr()));
        }
      }
    }
  
    /** The `#endif`, `#include` and code branches of `process`, for a statement `line` that is not empty. */
    method Dispatch(line: string, includes: set<string>) returns (f: Flow, after: set<string>)
      requires Buffer() && Balance() && Sink()
      modifies this`includeGuard, this`namespaceActive, this`msgs, this`outBuf, this`tags, this`dropLines, this`status
      ensures Buffer() && Balance() && Sink()
      ensures f != Exhausted
      ensures f.Stop? ==> f.outcome == Crashed || f.outcome == Returned(AlreadyPresentStatus) || (f.outcome.Raised? && !marking)
      ensures IsEndif(line) ==> f == Continue && after == includes
      ensures !IsEndif(line) && IsInclude(line) ==> (f == Stop(Crashed) <==> IncludeTarget(line).None?)
      ensures !IsEndif(line) && !IsInclude(line) ==> after == includes && (f == Stop(Returned(AlreadyPresentStatus)) <==> Contains(line, "namespace " + name))
    {
      after := includes;
      f := Continue;
      if IsEndif(line) {
        HandleEndif(line);
      } else if IsInclude(line) {
        var ok, report;
        ok, report, after := HandleInclude(line, includes);
        if !ok {
          return Stop(Crashed), after;
        }
        if report.Some? {
          f := Error(report.value);
        }
      } else {
        var present := HandleCode(line);
        if present {
          f := Stop(Returned(AlreadyPresentStatus));
        }
      }
    }
  
    /**
     * One round of the `#if` loop of `process`: `consume_if` on the block
     * that `first` opened, the decision on it, the error (if any) reported,
     * and the block's lines appended. `next` is the statement after the
     * block.
     */
    method Conditional(first: string) returns (f: Flow, next: Pull)
      requires Config() && Pipe() && Balance() && Sink() && parked == []
      modifies this`outBuf, this`tags, this`parked, this`dropLines, this`copied, this`rawPos, this`pulled, this`pending,
        this`cursor, this`guardMode, this`includeGuard, this`msgs, this`guarded, this`delivered, this`nestingDepth,
        this`namespaceActive, this`status
      ensures Sink()
      ensures f.Stop? ==> f.outcome == Crashed || (f.outcome.Raised? && !marking)
      ensures !f.Stop? ==> f == Continue && Pipe() && Balance() && parked == [] && !next.Crash?
      ensures !f.Stop? ==> Remaining(cursor, guardMode) < Remaining(old(cursor), old(guardMode))
      ensures !f.Stop? && next.End? ==> !pending && pulled == |visible|
    {
      var firstNr := LineNr();
      var fi, fc, block;
      ghost var seen, blockTags;
      next, fi, fc, block, seen, blockTags := ConsumeIf();
      if next.Crash? {
        return Stop(Crashed), next;
      }
      f := Settle(first, firstNr, fi, fc, block, blockTags);
    }

    /** The decision on a consumed block, the error it reports (if any), and, unless that raised, the block's lines appended. */
    method Settle(first: string, firstNr: int, fi: Option<Seen>, fc: Option<Seen>, block: seq<string>, ghost blockTags: seq<Frag>)
      returns (f: Flow)
      requires Renders(outBuf, tags, visible, markers) && Balance() && Sink() && parked == []
      requires RawOnly(blockTags) && Renders(block, blockTags, visible, markers)
      requires RawIndices(tags) + RawIndices(blockTags) == Kept(copied)
      modifies this`msgs, this`outBuf, this`tags, this`namespaceActive, this`status
      ensures Sink()
      ensures f == Continue || (f.Stop? && f.outcome.Raised? && !marking)
      ensures f == Continue ==> Buffer() && Balance()
      ensures fi.Some? && (fc.Some? || old(namespaceActive).Some?) && !marking ==>
        f.Stop? && outBuf == old(outBuf) && namespaceActive == old(namespaceActive)
      ensures fi.Some? && fc.Some? && marking ==>
        f == Continue && outBuf == old(outBuf) + [ErrorLine(MixedIf(old(namespaceActive).Some?))] + block &&
        namespaceActive == old(namespaceActive)
      ensures fi.Some? && fc.None? && old(namespaceActive).Some? && marking ==>
        f == Continue && outBuf == old(outBuf) + [ErrorLine(IncludeInIfInNamespace)] + block &&
        namespaceActive == old(namespaceActive)
      ensures fi.None? && fc.Some? && old(namespaceActive).None? ==>
        f == Continue && outBuf == old(outBuf) + [markers.open] + block && namespaceActive == Some(Anchor(first, firstNr))
      ensures (fi.None? || fc.None?) && (fi.None? || old(namespaceActive).None?) && (fc.None? || old(namespaceActive).Some?) ==>
        f == Continue && outBuf == old(outBuf) + block && namespaceActive == old(namespaceActive)
    {
      var report := DecideBlock(first, firstNr, fi, fc);
      f := Continue;
      if report.Some? {
        f := Error(report.value);
        if f.Stop? {
          return;
        }
      }
      AppendBlock(block, blockTags);
    }

    /**
     * The body of the statement loop of `process` for the statement `line`:
     * as long as the statement at hand is a non-empty `#if...`, its block is
     * consumed and decided on and the statement after it taken; then an
     * empty statement is skipped, the end of the input is `Exhausted`, and
     * any other statement is dispatched.
     */
    method Statement(line: string, includes: set<string>) returns (f: Flow, after: set<string>)
      requires Config() && Pipe() && Balance() && Sink() && parked == []
      modifies this`outBuf, this`tags, this`parked, this`dropLines, this`copied, this`rawPos, this`pulled, this`pending,
        this`cursor, this`guardMode, this`includeGuard, this`msgs, this`guarded, this`delivered, this`nestingDepth,
        this`namespaceActive, this`status
      ensures Sink()
      ensures !f.Stop? ==> Pipe() && Balance() && parked == []
      ensures !f.Stop? ==> Remaining(cursor, guardMode) <= Remaining(old(cursor), old(guardMode))
      ensures f == Exhausted ==> !pending && pulled == |visible|
      ensures f.Stop? ==> f.outcome == Crashed || f.outcome == Returned(AlreadyPresentStatus) || (f.outcome.Raised? && !marking)
    {
      after := includes;
      var next := Got(line);
      while next.Got? && next.text != [] && IsIf(next.text)
        invariant Pipe() && Balance() && Sink() && parked == []
        invariant Remaining(cursor, guardMode) <= Remaining(old(cursor), old(guardMode))
        invariant next.End? ==> !pending && pulled == |visible|
        invariant !next.Crash?
        decreases Remaining(cursor, guardMode)
      {
        f, next := Conditional(next.text);
        if f.Stop? {
          return f, after;
        }
      }
      if next.End? {
        return Exhausted, after;
      }
      if next.text == [] {
        return Continue, after;
      }
      f, after := Dispatch(next.text, includes);
    }
  
    /**
     * The end of `process`: a namespace still open is closed after the last
     * line (`namespace_active` itself stays set); the outcome is the
     * recorded status if there is one, else "empty" when the output equals
     * the input lines, else "success".
     */
    method Finish() returns (o: Outcome)
      requires Renders(outBuf, tags, visible, markers) && Balance()
      modifies this`msgs, this`outBuf, this`tags
      ensures Renders(outBuf, tags, visible, markers) && RawIndices(tags) == RawIndices(old(tags))
      ensures Alternates(MarkerSeq(tags)) && |MarkerSeq(tags)| % 2 == 0
      ensures namespaceActive.Some? ==>
        msgs == old(msgs) + [ClosingAtEnd(LineNr(), TrimNewlines(FullLine()))] && outBuf == old(outBuf) + [markers.close] &&
        tags == old(tags) + [CloseMark]
      ensures namespaceActive.None? ==> msgs == old(msgs) && outBuf == old(outBuf) && tags == old(tags)
      ensures o == Returned(if status.Some? && status.value != [] then status.value else if outBuf == lines then "empty" else "success")
    {
      if namespaceActive.Some? {
        msgs := msgs + [ClosingAtEnd(LineNr(), TrimNewlines(FullLine()))];
        PutCloseMarker();
      }
      if status.Some? && status.value != [] {
        o := Returned(status.value);
      } else if outBuf == lines {
        o := Returned("empty");
      } else {
        o := Returned("success");
      }
    }

    /**
     * One turn of the statement loop of `process`: the next statement is
     * taken and handled. The end of the input is `Exhausted`; when no
     * statement is left to read, only raw lines are copied and nothing
     * else changes.
     */
    method Turn(includes: set<string>) returns (f: Flow, after: set<string>)
      requires Config() && Pipe() && Balance() && Sink() && parked == []
      modifies this`outBuf, this`tags, this`parked, this`dropLines, this`copied, this`rawPos, this`pulled, this`pending,
        this`cursor, this`guardMode, this`includeGuard, this`msgs, this`guarded, this`delivered, this`nestingDepth,
        this`namespaceActive, this`status
      ensures Sink()
      ensures f.Stop? ==> f.outcome == Crashed || f.outcome == Returned(AlreadyPresentStatus) || (f.outcome.Raised? && !marking)
      ensures !f.Stop? ==> Pipe() && Balance() && parked == []
      ensures f == Continue ==> Remaining(cursor, guardMode) < Remaining(old(cursor), old(guardMode))
      ensures f == Exhausted ==> !pending && pulled == |visible|
      ensures old(cursor) == |stmts.items| && !old(guardMode).Queued? && !stmts.crashes ==>
        && f == Exhausted && RawExtends(old(tags), tags) && namespaceActive == old(namespaceActive) && status == old(status)
        && (old(dropLines) == 0 ==> NoDrop(old(copied)) ==> NoDrop(copied))
    {
      after := includes;
      var p;
      ghost var skipped;
      p, skipped := PullStatement();
      RawExtendsMarkers(old(tags), tags);
      if p.Crash? {
        return Stop(Crashed), after;
      }
      if p.End? {
        return Exhausted, after;
      }
      f, after := Statement(p.text, includes);
    }

    /**
     * The statement loop of `process`: turns are taken until the input runs
     * out (`None`) or one of them stops the run.
     */
    method Run() returns (stop: Option<Outcome>)
      requires Config() && Pipe() && Balance() && Sink() && parked == []
      modifies this`outBuf, this`tags, this`parked, this`dropLines, this`copied, this`rawPos, this`pulled, this`pending,
        this`cursor, this`guardMode, this`includeGuard, this`msgs, this`guarded, this`delivered, this`nestingDepth,
        this`namespaceActive, this`status
      ensures Sink()
      ensures stop.Some? ==> stop.value == Crashed || stop.value == Returned(AlreadyPresentStatus) || (stop.value.Raised? && !marking)
      ensures stop.None? ==> Pipe() && Balance() && parked == [] && !pending && pulled == |visible|
      ensures stop.None? ==> Renders(outBuf, tags, visible, markers)
      ensures old(cursor) == |stmts.items| && !old(guardMode).Queued? && !stmts.crashes ==>
        && stop.None? && RawExtends(old(tags), tags) && namespaceActive == old(namespaceActive) && status == old(status)
        && (old(dropLines) == 0 ==> NoDrop(old(copied)) ==> NoDrop(copied))
    {
      ghost var blank := old(cursor) == |stmts.items| && !old(guardMode).Queued? && !stmts.crashes;
      var includes: set<string> := {};
      var f;
      f, includes := Turn(includes);
      while f == Continue
        invariant blank ==>
          && f == Exhausted && RawExtends(old(tags), tags) && namespaceActive == old(namespaceActive) && status == old(status)
          && (old(dropLines) == 0 ==> NoDrop(old(copied)) ==> NoDrop(copied))
        invariant Sink()
        invariant f.Stop? ==> f.outcome == Crashed || f.outcome == Returned(AlreadyPresentStatus) || (f.outcome.Raised? && !marking)
        invariant !f.Stop? ==> Pipe() && Balance() && parked == []
        invariant f == Exhausted ==> !pending && pulled == |visible|
        decreases f == Continue, Remaining(cursor, guardMode)
      {
        f, includes := Turn(includes);
      }
      stop := if f.Stop? then Some(f.outcome) else None;
    }

    lemma QuietHasNoStatements()
      requires stmts == Statements(visible)
      ensures (forall k :: 0 <= k < |visible| ==> Ignorable(visible[k])) ==> stmts.items == [] && !stmts.crashes
    {
      if forall k :: 0 <= k < |visible| ==> Ignorable(visible[k]) {
        IgnorableHasNoStatements(visible);
      }
    }

    /**
     * `process`, on a freshly constructed namespacer. Only strict mode
     * raises; when it returns normally (the namespace was not already
     * present) the inserted markers alternate open/close and none is left
     * open, and every yielded input line was either copied to the output,
     * once and in order, or dropped. A file without any statement comes out
     * unchanged except for stripped commented markers, and is reported
     * "empty" exactly when there were none.
     */
    method Process() returns (o: Outcome)
      requires Fresh() && stmts == Statements(visible)
      modifies this
      ensures o.Raised? ==> !marking
      ensures !marking ==> status.None?
      ensures o.Returned? && o.status != AlreadyPresentStatus ==>
        && Renders(outBuf, tags, visible, markers)
        && Alternates(MarkerSeq(tags)) && |MarkerSeq(tags)| % 2 == 0
        && RawIndices(tags) == Kept(copied) && |copied| == |visible|
        && o.status == (if status.Some? then status.value else if outBuf == lines then "empty" else "success")
      ensures stmts.items == [] && !stmts.crashes ==> outBuf == visible && o == Returned(if visible == lines then "empty" else "success")
      ensures (forall k :: 0 <= k < |visible| ==> Ignorable(visible[k])) ==> outBuf == visible
    {
      FreshIsValid();
      QuietHasNoStatements();
      var stop := Run();
      if stop.Some? {
        return stop.value;
      }
      o := Finish();
      if stmts.items == [] && !stmts.crashes {
        RawExtendsRawOnly([], tags);
        RenderAllRaw(tags, visible, markers, copied);
      }
    }
  }
}
