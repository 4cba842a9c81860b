/**
 * What `consume_if` computes about a conditional block, as a function of the
 * statements it classifies.
 *
 * `consume_if` starts with a nesting depth of 1 (the `#if...` that opened
 * the block) and classifies each following statement: `#endif` first
 * (depth - 1), then `#if...` (depth + 1, which includes `#ifdef` and
 * `#ifndef`), then `#include`, and everything else is code. It remembers the
 * first `#include` and the first code statement together with the line
 * number and the depth at which each was seen.
 */
module Conditionals {
  import opened Text

  datatype Kind = EndifKind | IfKind | IncludeKind | CodeKind

  /** The classification of `consume_if`, in the order of its tests. */
  function KindOf(l: string): Kind {
    if IsEndif(l) then EndifKind
    else if IsIf(l) then IfKind
    else if IsInclude(l) then IncludeKind
    else CodeKind
  }

  /**
   * A statement, the line number `iter_lines` had reached when it was read,
   * and its classification (`KindOf(text)` for every statement `consume_if`
   * reads, see `ClassifyStatement`).
   */
  datatype Stmt = Stmt(text: string, nr: int, kind: Kind)

  /** A remembered statement: its text, line number and nesting depth. */
  datatype Seen = Seen(text: string, nr: int, depth: int)

  /** The statement carries the classification of its own text. */
  predicate ClassifiedAs(s: Stmt) {
    s.kind == KindOf(s.text)
  }

  /** Each statement carries the classification of its own text. */
  predicate Classified(ss: seq<Stmt>) {
    forall j :: 0 <= j < |ss| ==> ClassifiedAs(ss[j])
  }

  /** Where each statement was read: its text and line number, in order. */
  function Placed(ss: seq<Stmt>): seq<(string, int)> {
    if ss == [] then [] else Placed(ss[..|ss| - 1]) + [(ss[|ss| - 1].text, ss[|ss| - 1].nr)]
  }

  lemma PlacedSnoc(ss: seq<Stmt>, s: Stmt)
    ensures Placed(ss + [s]) == Placed(ss) + [(s.text, s.nr)]
  {
    assert (ss + [s])[..|ss|] == ss;
  }

  /** The read log after one more statement `s` was classified, and `extra` read after it. */
  lemma DeliveredSnoc(base: seq<(string, int)>, ss: seq<Stmt>, s: Stmt, extra: seq<(string, int)>)
    ensures base + Placed(ss) + [(s.text, s.nr)] + extra == base + Placed(ss + [s]) + extra
  {
    PlacedSnoc(ss, s);
  }

  lemma ClassifiedSnoc(ss: seq<Stmt>, s: Stmt)
    requires Classified(ss) && ClassifiedAs(s)
    ensures Classified(ss + [s])
  {
  }

  datatype Scan = Scan(depth: int, firstInclude: Option<Seen>, firstCode: Option<Seen>)

  function DepthChange(k: Kind): int {
    if k == EndifKind then -1 else if k == IfKind then 1 else 0
  }

  /** One iteration of the loop of `consume_if`. */
  function Classify(st: Scan, s: Stmt): Scan {
    match s.kind
    case EndifKind => st.(depth := st.depth - 1)
    case IfKind => st.(depth := st.depth + 1)
    case IncludeKind => if st.firstInclude.None? then st.(firstInclude := Some(Seen(s.text, s.nr, st.depth))) else st
    case CodeKind => if st.firstCode.None? then st.(firstCode := Some(Seen(s.text, s.nr, st.depth))) else st
  }

  /** The tests of one iteration of the loop of `consume_if`, in its order, on the statement `l` read at line `nr`. */
  method ClassifyStatement(st: Scan, l: string, nr: int) returns (r: Scan, ghost s: Stmt)
    ensures s.text == l && s.nr == nr && ClassifiedAs(s)
    ensures r == Classify(st, s) && st.depth - 1 <= r.depth
  {
    s := Stmt(l, nr, KindOf(l));
    r := st;
    if IsEndif(l) {
      r := r.(depth := r.depth - 1);
    } else if IsIf(l) {
      r := r.(depth := r.depth + 1);
    } else if IsInclude(l) {
      if r.firstInclude.None? {
        r := r.(firstInclude := Some(Seen(l, nr, r.depth)));
      }
    } else if r.firstCode.None? {
      r := r.(firstCode := Some(Seen(l, nr, r.depth)));
    }
  }

  /** The state of `consume_if` after classifying the statements `ss`. */
  function ScanOf(ss: seq<Stmt>): Scan {
    if ss == [] then Scan(1, None, None) else Classify(ScanOf(ss[..|ss| - 1]), ss[|ss| - 1])
  }

  /** Every proper prefix of `ss` leaves the depth positive: `consume_if` did not stop early. */
  predicate StaysOpen(ss: seq<Stmt>) {
    forall k :: 0 <= k < |ss| ==> ScanOf(ss[..k]).depth > 0
  }

  /** One more classified statement, when the depth before it was positive. */
  lemma ScanOfSnoc(ss: seq<Stmt>, s: Stmt)
    requires StaysOpen(ss) && ScanOf(ss).depth > 0
    ensures ScanOf(ss + [s]) == Classify(ScanOf(ss), s)
    ensures StaysOpen(ss + [s])
  {
    var ss' := ss + [s];
    assert ss'[..|ss|] == ss;
    forall k | 0 <= k < |ss'| ensures ScanOf(ss'[..k]).depth > 0 {
      if k < |ss| {
        assert ss'[..k] == ss[..k];
      }
    }
  }

  /** The number of statements of kind `k` in `ss`. */
  function Count(ss: seq<Stmt>, k: Kind): nat {
    if ss == [] then 0 else Count(ss[..|ss| - 1], k) + (if ss[|ss| - 1].kind == k then 1 else 0)
  }

  /** The depth is one plus the `#if...` lines minus the `#endif` lines seen so far. */
  lemma {:induction false} ScanDepth(ss: seq<Stmt>)
    ensures ScanOf(ss).depth == 1 + Count(ss, IfKind) - Count(ss, EndifKind)
  {
    if ss != [] {
      ScanDepth(ss[..|ss| - 1]);
    }
  }

  /**
   * An independent, front-to-back definition of "the first statement of
   * kind `k`", where `d` is the depth before `ss[0]`.
   */
  function FirstOf(ss: seq<Stmt>, k: Kind, d: int): Option<Seen> {
    if ss == [] then None
    else if ss[0].kind == k then Some(Seen(ss[0].text, ss[0].nr, d))
    else FirstOf(ss[1..], k, d + DepthChange(ss[0].kind))
  }

  /** `FirstOf` finds something exactly when a statement of that kind occurs. */
  lemma {:induction false} FirstOfExists(ss: seq<Stmt>, k: Kind, d: int)
    ensures FirstOf(ss, k, d).Some? <==> exists j :: 0 <= j < |ss| && ss[j].kind == k
  {
    if ss != [] {
      FirstOfExists(ss[1..], k, d + DepthChange(ss[0].kind));
      if ss[0].kind != k {
        forall j | 0 <= j < |ss| && ss[j].kind == k ensures exists i :: 0 <= i < |ss[1..]| && ss[1..][i].kind == k {
          assert j > 0 && ss[1..][j - 1] == ss[j];
        }
      }
    }
  }

  /** Extending the statements at the back extends the front-to-back search as expected. */
  lemma {:induction false} FirstOfSnoc(ss: seq<Stmt>, s: Stmt, k: Kind, d: int)
    ensures FirstOf(ss + [s], k, d) ==
      if FirstOf(ss, k, d).Some? then FirstOf(ss, k, d)
      else if s.kind == k then Some(Seen(s.text, s.nr, d + Count(ss, IfKind) - Count(ss, EndifKind)))
      else None
    decreases |ss|
  {
    if ss == [] {
      assert [] + [s] == [s];
      assert [s][1..] == [];
    } else {
      var ss' := ss + [s];
      assert ss'[0] == ss[0];
      if ss[0].kind != k {
        var d1 := d + DepthChange(ss[0].kind);
        assert ss'[1..] == ss[1..] + [s];
        assert FirstOf(ss', k, d) == FirstOf(ss[1..] + [s], k, d1);
        assert FirstOf(ss, k, d) == FirstOf(ss[1..], k, d1);
        FirstOfSnoc(ss[1..], s, k, d1);
        CountFront(ss, IfKind);
        CountFront(ss, EndifKind);
      }
    }
  }

  /** `Count` read from the front. */
  lemma {:induction false} CountFront(ss: seq<Stmt>, k: Kind)
    requires ss != []
    ensures Count(ss, k) == (if ss[0].kind == k then 1 else 0) + Count(ss[1..], k)
    decreases |ss|
  {
    if |ss| > 1 {
      var init := ss[..|ss| - 1];
      CountFront(init, k);
      assert init[1..] == ss[1..][..|ss[1..]| - 1];
      assert init[0] == ss[0];
    } else {
      assert ss[1..] == [];
      assert ss[..0] == [];
    }
  }

  /**
   * The loop of `consume_if` remembers the FIRST `#include` and the FIRST code
   * statement, each with the depth at which it was seen.
   */
  lemma {:induction false} ScanFindsFirst(ss: seq<Stmt>)
    ensures ScanOf(ss).firstInclude == FirstOf(ss, IncludeKind, 1)
    ensures ScanOf(ss).firstCode == FirstOf(ss, CodeKind, 1)
  {
    if ss != [] {
      var init := ss[..|ss| - 1];
      var s := ss[|ss| - 1];
      ScanFindsFirst(init);
      ScanDepth(init);
      assert ss == init + [s];
      FirstOfSnoc(init, s, IncludeKind, 1);
      FirstOfSnoc(init, s, CodeKind, 1);
    }
  }

  /**
   * What `consume_if` knows when its loop ends after the statements `ss`:
   * the first `#include` and the first code statement, the final depth as a
   * count of `#if...` and `#endif` lines, and that no shorter prefix brought
   * the depth down to 0.
   */
  lemma ScanMeaning(ss: seq<Stmt>)
    requires StaysOpen(ss)
    ensures ScanOf(ss).firstInclude == FirstOf(ss, IncludeKind, 1)
    ensures ScanOf(ss).firstCode == FirstOf(ss, CodeKind, 1)
    ensures ScanOf(ss).depth == 1 + Count(ss, IfKind) - Count(ss, EndifKind)
    ensures forall k :: 0 <= k < |ss| ==> 1 + Count(ss[..k], IfKind) - Count(ss[..k], EndifKind) > 0
  {
    ScanDepth(ss);
    ScanFindsFirst(ss);
    forall k | 0 <= k < |ss|
      ensures 1 + Count(ss[..k], IfKind) - Count(ss[..k], EndifKind) > 0
    {
      ScanDepth(ss[..k]);
    }
  }
}
