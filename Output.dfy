/**
 * The output buffer of the namespacer, seen through ghost tags.
 *
 * Every string the namespacer puts into `out_buf` is one of: a raw input
 * line (the `j`-th line `iter_lines` yielded), the open marker, the close
 * marker, or a synthesised note (a commented-out include, the re-emitted
 * `class X;` statement, a `// error` line). `Render` turns tags into the
 * strings, `RawIndices` keeps track of which input lines were copied and
 * `MarkerSeq` / `Alternates` of how the markers are balanced.
 */
module Output {
  import opened Text

  datatype Frag = Raw(index: nat) | OpenMark | CloseMark | Note(text: string)

  /** The two marker lines that are inserted into the output. */
  datatype Markers = Markers(open: string, close: string)

  /** The commented marker forms (`would_open_namespace`, `would_close_namespace`). */
  function WouldMarkers(name: string): Markers {
    Markers("// namespace " + name + " {\n", "// } // end namespace " + name + "\n")
  }

  /**
   * The markers that are inserted: the plain forms, or the commented forms
   * when comment mode replaces `open_namespace` / `close_namespace`.
   */
  function InsertedMarkers(name: string, commentMode: bool): (m: Markers)
    ensures commentMode ==> m == WouldMarkers(name)
    ensures !commentMode ==> m.open == "namespace " + name + " {\n" && m.close == "} // end namespace " + name + "\n"
  {
    if commentMode then WouldMarkers(name)
    else Markers("namespace " + name + " {\n", "} // end namespace " + name + "\n")
  }

  function FragText(f: Frag, visible: seq<string>, m: Markers): string {
    match f
    case Raw(j) => if j < |visible| then visible[j] else ""
    case OpenMark => m.open
    case CloseMark => m.close
    case Note(t) => t
  }

  /** The strings of the output buffer that the tags `fs` describe, one per tag. */
  function Render(fs: seq<Frag>, visible: seq<string>, m: Markers): seq<string> {
    if fs == [] then [] else Render(fs[..|fs| - 1], visible, m) + [FragText(fs[|fs| - 1], visible, m)]
  }

  /** `out` holds, string by string, what the tags `fs` describe. */
  predicate Renders(out: seq<string>, fs: seq<Frag>, visible: seq<string>, m: Markers) {
    out == Render(fs, visible, m)
  }

  /** Each string of the rendering is the text of its own tag. */
  lemma {:induction false} RenderAt(fs: seq<Frag>, visible: seq<string>, m: Markers)
    ensures |Render(fs, visible, m)| == |fs|
    ensures forall k :: 0 <= k < |fs| ==> Render(fs, visible, m)[k] == FragText(fs[k], visible, m)
  {
    if fs != [] {
      var init := fs[..|fs| - 1];
      RenderAt(init, visible, m);
      forall k | 0 <= k < |fs| ensures Render(fs, visible, m)[k] == FragText(fs[k], visible, m) {
        if k < |init| {
          assert fs[k] == init[k];
        }
      }
    }
  }

  /** One more tag renders one more string. */
  lemma RenderSnoc(fs: seq<Frag>, f: Frag, visible: seq<string>, m: Markers)
    ensures Render(fs + [f], visible, m) == Render(fs, visible, m) + [FragText(f, visible, m)]
  {
    assert (fs + [f])[..|fs|] == fs;
  }

  /** Rendering distributes over concatenation. */
  lemma {:induction false} RenderAppend(a: seq<Frag>, b: seq<Frag>, visible: seq<string>, m: Markers)
    ensures Render(a + b, visible, m) == Render(a, visible, m) + Render(b, visible, m)
    decreases |b|
  {
    if b == [] {
      assert a + b == a;
    } else {
      var init := b[..|b| - 1];
      var last := b[|b| - 1];
      assert b == init + [last];
      assert a + b == (a + init) + [last];
      RenderAppend(a, init, visible, m);
      RenderSnoc(a + init, last, visible, m);
      RenderSnoc(init, last, visible, m);
    }
  }

  // ------------------------------------------------------------------ markers

  /** The markers of `fs` in order, every other tag left out. */
  function MarkerSeq(fs: seq<Frag>): (r: seq<Frag>)
    ensures forall k :: 0 <= k < |r| ==> r[k] == OpenMark || r[k] == CloseMark
  {
    if fs == [] then []
    else MarkerSeq(fs[..|fs| - 1]) + (if fs[|fs| - 1].OpenMark? || fs[|fs| - 1].CloseMark? then [fs[|fs| - 1]] else [])
  }

  /** Markers come in the fixed order open, close, open, close, ... */
  predicate Alternates(ms: seq<Frag>) {
    forall k :: 0 <= k < |ms| ==> ms[k] == (if k % 2 == 0 then OpenMark else CloseMark)
  }

  lemma MarkerSeqSnoc(fs: seq<Frag>, f: Frag)
    ensures MarkerSeq(fs + [f]) == MarkerSeq(fs) + (if f.OpenMark? || f.CloseMark? then [f] else [])
  {
    assert (fs + [f])[..|fs|] == fs;
  }

  predicate RawOnly(fs: seq<Frag>) {
    forall k :: 0 <= k < |fs| ==> fs[k].Raw?
  }

  /** Raw lines carry no markers. */
  lemma {:induction false} MarkerSeqRawOnly(a: seq<Frag>, b: seq<Frag>)
    requires RawOnly(b)
    ensures MarkerSeq(a + b) == MarkerSeq(a)
    decreases |b|
  {
    if b == [] {
      assert a + b == a;
    } else {
      var init := b[..|b| - 1];
      assert RawOnly(init) by {
        forall k | 0 <= k < |init| ensures init[k].Raw? {
          assert init[k] == b[k];
        }
      }
      MarkerSeqRawOnly(a, init);
      assert (a + b)[..|a + b| - 1] == a + init;
    }
  }

  /** Appending a marker of the right kind keeps the markers alternating and flips the parity. */
  lemma AlternatesSnoc(ms: seq<Frag>, f: Frag)
    requires Alternates(ms)
    requires f == (if |ms| % 2 == 0 then OpenMark else CloseMark)
    ensures Alternates(ms + [f])
  {
  }

  function Delta(f: Frag): int {
    if f.OpenMark? then 1 else if f.CloseMark? then -1 else 0
  }

  /** Open markers minus close markers. */
  function Nest(fs: seq<Frag>): int {
    if fs == [] then 0 else Nest(fs[..|fs| - 1]) + Delta(fs[|fs| - 1])
  }

  /**
   * The independent reading of alternation: no prefix of the output closes
   * more markers than it opened, none has two open at once, and the whole
   * output has a marker open exactly when their number is odd.
   */
  lemma {:induction false} AlternatesNest(fs: seq<Frag>)
    requires Alternates(MarkerSeq(fs))
    ensures forall k :: 0 <= k <= |fs| ==> 0 <= Nest(fs[..k]) <= 1
    ensures Nest(fs) == |MarkerSeq(fs)| % 2
    decreases |fs|
  {
    if fs != [] {
      var init := fs[..|fs| - 1];
      var f := fs[|fs| - 1];
      assert fs == init + [f];
      MarkerSeqSnoc(init, f);
      var mi := MarkerSeq(init);
      assert Alternates(mi) by {
        forall k | 0 <= k < |mi| ensures mi[k] == (if k % 2 == 0 then OpenMark else CloseMark) {
          assert mi[k] == MarkerSeq(fs)[k];
        }
      }
      AlternatesNest(init);
      assert Nest(fs) == Nest(init) + Delta(f);
      if f.OpenMark? || f.CloseMark? {
        assert MarkerSeq(fs)[|mi|] == f;
      }
      forall k | 0 <= k <= |fs| ensures 0 <= Nest(fs[..k]) <= 1 {
        if k < |fs| {
          assert fs[..k] == init[..k];
        } else {
          assert fs[..k] == fs;
        }
      }
    }
  }

  // ---------------------------------------------------------------- raw lines

  /** The indices of the raw lines among the tags, in order. */
  function RawIndices(fs: seq<Frag>): seq<nat> {
    if fs == [] then []
    else RawIndices(fs[..|fs| - 1]) + (if fs[|fs| - 1].Raw? then [fs[|fs| - 1].index] else [])
  }

  lemma {:induction false} RawIndicesAppend(a: seq<Frag>, b: seq<Frag>)
    ensures RawIndices(a + b) == RawIndices(a) + RawIndices(b)
    decreases |b|
  {
    if b == [] {
      assert a + b == a;
    } else {
      var init := b[..|b| - 1];
      RawIndicesAppend(a, init);
      assert a + b == (a + init) + [b[|b| - 1]];
      assert (a + b)[..|a + b| - 1] == a + init;
    }
  }

  /**
   * The indices of the lines whose entry in `copied` is true, in order:
   * `copied[j]` says whether the `j`-th yielded line was copied or dropped.
   */
  function Kept(copied: seq<bool>): seq<nat> {
    if copied == [] then [] else Kept(copied[..|copied| - 1]) + (if copied[|copied| - 1] then [|copied| - 1] else [])
  }

  /** No line was dropped. */
  predicate NoDrop(copied: seq<bool>) {
    forall k :: 0 <= k < |copied| ==> copied[k]
  }

  lemma KeptSnoc(copied: seq<bool>, b: bool)
    ensures Kept(copied + [b]) == Kept(copied) + (if b then [|copied|] else [])
  {
    assert (copied + [b])[..|copied|] == copied;
  }

  /** Every copied line is kept, once, and in input order; no dropped line is. */
  lemma {:induction false} KeptMeaning(copied: seq<bool>)
    ensures forall x: nat :: x in Kept(copied) <==> x < |copied| && copied[x]
    ensures forall i, j :: 0 <= i < j < |Kept(copied)| ==> Kept(copied)[i] < Kept(copied)[j]
  {
    if copied != [] {
      var init := copied[..|copied| - 1];
      KeptMeaning(init);
      var prev := Kept(init);
      var last := if copied[|copied| - 1] then [|copied| - 1] else [];
      assert Kept(copied) == prev + last;
      forall x: nat ensures x in prev + last <==> x < |copied| && copied[x] {
        assert x in prev + last <==> x in prev || x in last;
        assert x < |init| ==> init[x] == copied[x];
      }
      forall i, j | 0 <= i < j < |prev + last| ensures (prev + last)[i] < (prev + last)[j] {
        if j >= |prev| {
          assert (prev + last)[i] in prev;
        }
      }
    }
  }

  /** Without dropped lines, the kept lines are exactly `0, 1, ..., |copied| - 1`. */
  lemma {:induction false} KeptNoDrop(copied: seq<bool>)
    requires NoDrop(copied)
    ensures |Kept(copied)| == |copied|
    ensures forall i :: 0 <= i < |copied| ==> Kept(copied)[i] == i
  {
    if copied != [] {
      var init := copied[..|copied| - 1];
      assert NoDrop(init) by {
        forall k | 0 <= k < |init| ensures init[k] {
          assert init[k] == copied[k];
        }
      }
      KeptNoDrop(init);
    }
  }

  lemma RawIndicesSnoc(fs: seq<Frag>, f: Frag)
    ensures RawIndices(fs + [f]) == RawIndices(fs) + (if f.Raw? then [f.index] else [])
  {
    assert (fs + [f])[..|fs|] == fs;
  }

  /** `b` is `a` followed by raw lines only. */
  predicate RawExtends(a: seq<Frag>, b: seq<Frag>) {
    a <= b && RawOnly(b[|a|..])
  }

  lemma RawExtendsTrans(a: seq<Frag>, b: seq<Frag>, c: seq<Frag>)
    requires RawExtends(a, b) && RawExtends(b, c)
    ensures RawExtends(a, c)
  {
    assert c[|a|..] == b[|a|..] + c[|b|..];
  }

  /** Raw lines appended after `a` leave its markers as they were. */
  lemma RawExtendsMarkers(a: seq<Frag>, b: seq<Frag>)
    requires RawExtends(a, b)
    ensures MarkerSeq(b) == MarkerSeq(a)
  {
    assert b == a + b[|a|..];
    MarkerSeqRawOnly(a, b[|a|..]);
  }

  /** Raw lines appended to raw lines give raw lines. */
  lemma RawExtendsRawOnly(a: seq<Frag>, b: seq<Frag>)
    requires RawOnly(a) && RawExtends(a, b)
    ensures RawOnly(b)
  {
    forall k | 0 <= k < |b| ensures b[k].Raw? {
      if k >= |a| {
        assert b[k] == b[|a|..][k - |a|];
      }
    }
  }

  /** Of raw tags, `RawIndices` lists every index, one per tag. */
  lemma {:induction false} RawIndicesOfRawOnly(fs: seq<Frag>)
    requires RawOnly(fs)
    ensures |RawIndices(fs)| == |fs|
    ensures forall k :: 0 <= k < |fs| ==> RawIndices(fs)[k] == fs[k].index
    decreases |fs|
  {
    if fs != [] {
      var init := fs[..|fs| - 1];
      RawIndicesOfRawOnly(init);
      assert forall k :: 0 <= k < |init| ==> RawIndices(fs)[k] == RawIndices(init)[k];
    }
  }

  /** Raw tags that keep every line, in order, render to exactly the lines. */
  lemma RenderAllRaw(fs: seq<Frag>, visible: seq<string>, m: Markers, copied: seq<bool>)
    requires RawOnly(fs) && RawIndices(fs) == Kept(copied) && NoDrop(copied) && |copied| == |visible|
    ensures Render(fs, visible, m) == visible
  {
    RawIndicesOfRawOnly(fs);
    KeptNoDrop(copied);
    RenderAt(fs, visible, m);
    assert forall k :: 0 <= k < |fs| ==> fs[k] == Raw(k);
  }
}
