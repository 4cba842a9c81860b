/**
 * The stateless stages of the namespacer's pull pipeline.
 *
 * `iter_lines` yields the file's lines one by one (skipping the commented
 * namespace markers) and `filter_empty_or_comment` / `filter_comment_block`
 * rewrite that stream without looking at any mutable state. Their output is
 * therefore a function of the file alone. Each produced item remembers how
 * many lines `iter_lines` had yielded at the moment the item was produced
 * (`pulls`); the `Namespacer` class replays exactly those pulls when the
 * decision engine asks for the item, so that the lazy copying of raw lines
 * into the output buffer happens at the same points as in the original.
 *
 * A stream ends either normally or, where the original calls a bare
 * `next(iter)` on an exhausted input inside a generator, with a crash
 * (`crashes`): since PEP 479 that `StopIteration` becomes a `RuntimeError`.
 */
module Filters {
  import opened Text

  /** One produced line and the number of source lines pulled when it was produced. */
  datatype Item = Item(text: string, pulls: nat)

  /** The items of a stage and whether pulling past the last one crashes rather than ends. */
  datatype Stream = Stream(items: seq<Item>, crashes: bool)

  function Prepend(x: Item, s: Stream): Stream {
    Stream([x] + s.items, s.crashes)
  }

  /** Pull counts lie in `[lo, n]` and strictly increase along the stream. */
  predicate Increasing(xs: seq<Item>, lo: nat, n: nat) {
    && (forall i :: 0 <= i < |xs| ==> lo <= xs[i].pulls <= n)
    && (forall i, j :: 0 <= i < j < |xs| ==> xs[i].pulls < xs[j].pulls)
  }

  lemma IncreasingPrepend(x: Item, rest: seq<Item>, lo: nat, n: nat)
    requires lo <= x.pulls <= n && Increasing(rest, x.pulls + 1, n)
    ensures Increasing([x] + rest, lo, n)
  {
    var r := [x] + rest;
    forall i, j | 0 <= i < j < |r| ensures r[i].pulls < r[j].pulls {
      if i > 0 {
        assert r[i] == rest[i - 1] && r[j] == rest[j - 1];
      } else {
        assert r[j] == rest[j - 1];
      }
    }
  }

  /** Pull counts lie in `[1, n]` and each item's exceeds its predecessor's. */
  predicate Ascending(xs: seq<Item>, n: nat) {
    && (forall i :: 0 <= i < |xs| ==> 1 <= xs[i].pulls <= n)
    && (forall i :: 0 < i < |xs| ==> xs[i - 1].pulls < xs[i].pulls)
  }

  function Texts(xs: seq<Item>): (r: seq<string>)
    ensures |r| == |xs| && forall i :: 0 <= i < |xs| ==> r[i] == xs[i].text
  {
    if xs == [] then [] else [xs[0].text] + Texts(xs[1..])
  }

  // ---------------------------------------------------------------- iter_lines

  /** The lines `iter_lines` yields, in order: all lines except the excluded ones. */
  function Visible(lines: seq<string>, excluded: seq<string>): (r: seq<string>)
    ensures |r| <= |lines|
    ensures forall k :: 0 <= k < |r| ==> r[k] in lines && r[k] !in excluded
  {
    if lines == [] then []
    else
      var last := lines[|lines| - 1];
      Visible(lines[..|lines| - 1], excluded) + (if last in excluded then [] else [last])
  }

  /** A line is yielded exactly when it occurs in the file and is not excluded. */
  lemma {:induction false} VisibleMembers(lines: seq<string>, excluded: seq<string>, l: string)
    ensures l in Visible(lines, excluded) <==> l in lines && l !in excluded
  {
    if lines != [] {
      var init := lines[..|lines| - 1];
      VisibleMembers(init, excluded, l);
      assert lines == init + [lines[|lines| - 1]];
    }
  }

  /** Without excluded lines, every line is yielded. */
  lemma {:induction false} VisibleAll(lines: seq<string>, excluded: seq<string>)
    requires forall k :: 0 <= k < |lines| ==> lines[k] !in excluded
    ensures Visible(lines, excluded) == lines
  {
    if lines != [] {
      VisibleAll(lines[..|lines| - 1], excluded);
      assert lines == lines[..|lines| - 1] + [lines[|lines| - 1]];
    }
  }

  /** `Visible` of a prefix, split at any point. */
  lemma {:induction false} VisibleSplit(lines: seq<string>, excluded: seq<string>, p: nat)
    requires p <= |lines|
    ensures Visible(lines, excluded) == Visible(lines[..p], excluded) + Visible(lines[p..], excluded)
    decreases |lines|
  {
    if p == |lines| {
      assert lines[..p] == lines && lines[p..] == [];
    } else {
      var init := lines[..|lines| - 1];
      var last := lines[|lines| - 1];
      VisibleSplit(init, excluded, p);
      assert init[..p] == lines[..p];
      var tail := lines[p..];
      assert tail[..|tail| - 1] == init[p..];
      assert tail[|tail| - 1] == last;
    }
  }

  /** The lines yielded from the first `p` input lines are the first ones yielded. */
  lemma VisiblePrefix(lines: seq<string>, excluded: seq<string>, p: nat)
    requires p <= |lines|
    ensures Visible(lines[..p], excluded) <= Visible(lines, excluded)
  {
    VisibleSplit(lines, excluded, p);
  }

  /** How many lines `iter_lines` has yielded after reading the first `p` input lines. */
  function VisibleCount(lines: seq<string>, excluded: seq<string>, p: nat): nat
    requires p <= |lines|
  {
    if p == 0 then 0 else VisibleCount(lines, excluded, p - 1) + (if lines[p - 1] in excluded then 0 else 1)
  }

  lemma {:induction false} VisibleCountMeaning(lines: seq<string>, excluded: seq<string>, p: nat)
    requires p <= |lines|
    ensures VisibleCount(lines, excluded, p) == |Visible(lines[..p], excluded)|
  {
    if p > 0 {
      VisibleCountMeaning(lines, excluded, p - 1);
      assert lines[..p][..p - 1] == lines[..p - 1];
    }
  }

  /** A line that is not excluded is yielded as the next line after those of the lines before it. */
  lemma VisibleAt(lines: seq<string>, excluded: seq<string>, p: nat)
    requires p < |lines| && lines[p] !in excluded
    ensures VisibleCount(lines, excluded, p) < |Visible(lines, excluded)|
    ensures Visible(lines, excluded)[VisibleCount(lines, excluded, p)] == lines[p]
  {
    VisibleCountMeaning(lines, excluded, p);
    assert lines[..p + 1][..p] == lines[..p];
    assert Visible(lines[..p + 1], excluded) == Visible(lines[..p], excluded) + [lines[p]];
    VisiblePrefix(lines, excluded, p + 1);
  }

  /** Once every input line is read, every line to yield has been yielded. */
  lemma VisibleCountAll(lines: seq<string>, excluded: seq<string>)
    ensures VisibleCount(lines, excluded, |lines|) == |Visible(lines, excluded)|
  {
    VisibleCountMeaning(lines, excluded, |lines|);
    assert lines[..|lines|] == lines;
  }

  /** The stream `iter_lines` yields: line `j` (0-based) is produced by pull `j + 1`. */
  function Source(v: seq<string>): (s: Stream)
    ensures Increasing(s.items, 1, |v|) && Texts(s.items) == v && !s.crashes
  {
    var r := Stream(seq(|v|, j requires 0 <= j < |v| => Item(v[j], j + 1)), false);
    assert Texts(r.items) == v;
    r
  }

  // ---------------------------------------------------- filter_empty_or_comment

  /** A continuation-joined line and the input index after its last part. */
  datatype Joined = Joined(text: string, next: nat)

  /**
   * `while l.endswith("\\"): l = l[:-1].strip() + next(iter).strip()`, starting
   * with input index `j`; the result is the joined line and the next index, or
   * `None` when the input ends inside a continuation: the line ends in a
   * backslash and so does the join with the last input line. Conversely,
   * when every remaining line ends in a backslash, the input runs out.
   */
  function Join(xs: seq<Item>, l: string, j: nat): (r: Option<Joined>)
    requires j <= |xs|
    ensures r.Some? ==> j <= r.value.next <= |xs| && !EndsWithBackslash(r.value.text)
    ensures !EndsWithBackslash(l) ==> r == Some(Joined(l, j))
    decreases |xs| - j
  {
    if !EndsWithBackslash(l) then Some(Joined(l, j))
    else if j == |xs| then None
    else Join(xs, Strip(l[..|l| - 1]) + Strip(xs[j].text), j + 1)
  }

  /**
   * When `Join` fails: only on a line ending in a backslash, and, if any
   * input was left, only when the join with the last input line still ends
   * in one. At the end of the input it fails exactly on such a line, and
   * when every remaining stripped line ends in a backslash it always fails.
   */
  lemma {:induction false} JoinExhausted(xs: seq<Item>, l: string, j: nat)
    requires j <= |xs|
    ensures Join(xs, l, j).None? ==> EndsWithBackslash(l)
    ensures Join(xs, l, j).None? && j < |xs| ==>
      var t := Strip(xs[|xs| - 1].text); t == [] || EndsWithBackslash(t)
    ensures j == |xs| ==> (Join(xs, l, j).None? <==> EndsWithBackslash(l))
    ensures EndsWithBackslash(l) && (forall m :: j <= m < |xs| ==> EndsWithBackslash(Strip(xs[m].text))) ==>
      Join(xs, l, j).None?
    decreases |xs| - j
  {
    if EndsWithBackslash(l) && j < |xs| {
      var a, t := Strip(l[..|l| - 1]), Strip(xs[j].text);
      assert t != [] ==> (a + t)[|a + t| - 1] == t[|t| - 1];
      JoinExhausted(xs, a + t, j + 1);
    }
  }

  /** What `filter_empty_or_comment` does with the input item at index `i`. */
  datatype Step = Skip | Emit(text: string, next: nat) | Stuck

  function EmptyOrCommentStep(xs: seq<Item>, i: nat): (r: Step)
    requires i < |xs|
    ensures r.Emit? ==> i < r.next <= |xs| && !EndsWithBackslash(r.text)
  {
    var l := Strip(xs[i].text);
    if l == [] || IsLineComment(l) then Skip
    else
      match Join(xs, l, i + 1)
      case None => Stuck
      case Some(j) => Emit(j.text, j.next)
  }

  /** The output of `filter_empty_or_comment` on the input from index `i` on. */
  function EmptyOrCommentFrom(xs: seq<Item>, crashes: bool, i: nat): Stream
    requires i <= |xs|
    decreases |xs| - i
  {
    if i == |xs| then Stream([], crashes)
    else
      match EmptyOrCommentStep(xs, i)
      case Skip => EmptyOrCommentFrom(xs, crashes, i + 1)
      case Stuck => Stream([], true)
      case Emit(t, k) => Prepend(Item(t, xs[k - 1].pulls), EmptyOrCommentFrom(xs, crashes, k))
  }

  function EmptyOrComment(s: Stream): Stream {
    EmptyOrCommentFrom(s.items, s.crashes, 0)
  }

  /** One unfolding of `EmptyOrCommentFrom` at a skipped line. */
  lemma EmptyOrCommentSkip(xs: seq<Item>, crashes: bool, i: nat)
    requires i < |xs| && EmptyOrCommentStep(xs, i).Skip?
    ensures EmptyOrCommentFrom(xs, crashes, i).items == EmptyOrCommentFrom(xs, crashes, i + 1).items
    ensures EmptyOrCommentFrom(xs, crashes, i).crashes == EmptyOrCommentFrom(xs, crashes, i + 1).crashes
  {
  }

  /** One unfolding of `EmptyOrCommentFrom` at a continuation that runs off the input. */
  lemma EmptyOrCommentStuck(xs: seq<Item>, crashes: bool, i: nat)
    requires i < |xs| && EmptyOrCommentStep(xs, i).Stuck?
    ensures EmptyOrCommentFrom(xs, crashes, i) == Stream([], true)
  {
  }

  /** One unfolding of `EmptyOrCommentFrom` at a produced line, after the items `done`. */
  lemma EmptyOrCommentEmit(xs: seq<Item>, crashes: bool, i: nat, t: string, k: nat, done: seq<Item>)
    requires i < |xs| && EmptyOrCommentStep(xs, i) == Emit(t, k)
    ensures EmptyOrCommentFrom(xs, crashes, i).items == [Item(t, xs[k - 1].pulls)] + EmptyOrCommentFrom(xs, crashes, k).items
    ensures done + EmptyOrCommentFrom(xs, crashes, i).items == (done + [Item(t, xs[k - 1].pulls)]) + EmptyOrCommentFrom(xs, crashes, k).items
    ensures EmptyOrCommentFrom(xs, crashes, i).crashes == EmptyOrCommentFrom(xs, crashes, k).crashes
  {
    var tail := EmptyOrCommentFrom(xs, crashes, k).items;
    assert EmptyOrCommentFrom(xs, crashes, i).items == [Item(t, xs[k - 1].pulls)] + tail;
    assert done + ([Item(t, xs[k - 1].pulls)] + tail) == (done + [Item(t, xs[k - 1].pulls)]) + tail;
  }

  /** The continuation loop of `filter_empty_or_comment`: `Join`, one line at a time. */
  method JoinContinuations(xs: seq<Item>, l: string, j: nat) returns (r: Option<Joined>)
    requires j <= |xs|
    ensures r == Join(xs, l, j)
  {
    var t, k := l, j;
    while EndsWithBackslash(t)
      invariant j <= k <= |xs|
      invariant Join(xs, t, k) == Join(xs, l, j)
      decreases |xs| - k
    {
      if k == |xs| {
        return None;
      }
      t := Strip(t[..|t| - 1]) + Strip(xs[k].text);
      k := k + 1;
    }
    r := Some(Joined(t, k));
  }

  /** The body of the outer loop of `filter_empty_or_comment` for input item `i`. */
  method EmptyOrCommentAt(xs: seq<Item>, i: nat) returns (st: Step)
    requires i < |xs|
    ensures st == EmptyOrCommentStep(xs, i)
  {
    var l := Strip(xs[i].text);
    if l == [] || IsLineComment(l) {
      return Skip;
    }
    var joined := JoinContinuations(xs, l, i + 1);
    if joined.None? {
      return Stuck;
    }
    st := Emit(joined.value.text, joined.value.next);
  }

  /** `filter_empty_or_comment`, with the original's two loops. */
  method FilterEmptyOrComment(s: Stream) returns (r: Stream)
    ensures r == EmptyOrComment(s)
  {
    var xs, c := s.items, s.crashes;
    ghost var all := EmptyOrCommentFrom(xs, c, 0);
    var out: seq<Item> := [];
    var i := 0;
    while i < |xs|
      invariant 0 <= i <= |xs|
      invariant all.items == out + EmptyOrCommentFrom(xs, c, i).items
      invariant all.crashes == EmptyOrCommentFrom(xs, c, i).crashes
    {
      var st := EmptyOrCommentAt(xs, i);
      match st
      case Skip =>
        EmptyOrCommentSkip(xs, c, i);
        i := i + 1;
      case Stuck =>
        EmptyOrCommentStuck(xs, c, i);
        return Stream(out, true);
      case Emit(t, k) =>
        EmptyOrCommentEmit(xs, c, i, t, k, out);
        out := out + [Item(t, xs[k - 1].pulls)];
        i := k;
    }
    r := Stream(out, c);
  }

  /** No line produced by `filter_empty_or_comment` ends in a continuation backslash. */
  lemma {:induction false} EmptyOrCommentNoBackslash(xs: seq<Item>, crashes: bool, i: nat)
    requires i <= |xs|
    ensures forall o :: o in EmptyOrCommentFrom(xs, crashes, i).items ==> !EndsWithBackslash(o.text)
    decreases |xs| - i
  {
    if i < |xs| {
      match EmptyOrCommentStep(xs, i)
      case Skip => EmptyOrCommentNoBackslash(xs, crashes, i + 1);
      case Stuck =>
      case Emit(t, k) => EmptyOrCommentNoBackslash(xs, crashes, k);
    }
  }

  /** `filter_empty_or_comment` keeps pull counts increasing and within the input's range. */
  lemma {:induction false} EmptyOrCommentIncreasing(xs: seq<Item>, crashes: bool, i: nat, lo: nat, n: nat)
    requires i <= |xs| && Increasing(xs, 0, n)
    requires i < |xs| ==> lo <= xs[i].pulls
    ensures Increasing(EmptyOrCommentFrom(xs, crashes, i).items, lo, n)
    decreases |xs| - i, 1
  {
    if i < |xs| {
      var st := EmptyOrCommentStep(xs, i);
      if st.Skip? {
        EmptyOrCommentSkipIncreasing(xs, crashes, i, lo, n);
      } else if st.Stuck? {
        EmptyOrCommentStuck(xs, crashes, i);
      } else {
        EmptyOrCommentEmitIncreasing(xs, crashes, i, lo, n);
      }
    }
  }

  lemma {:induction false} EmptyOrCommentSkipIncreasing(xs: seq<Item>, crashes: bool, i: nat, lo: nat, n: nat)
    requires i < |xs| && Increasing(xs, 0, n) && lo <= xs[i].pulls
    requires EmptyOrCommentStep(xs, i).Skip?
    ensures Increasing(EmptyOrCommentFrom(xs, crashes, i).items, lo, n)
    decreases |xs| - i, 0
  {
    EmptyOrCommentSkip(xs, crashes, i);
    assert i + 1 < |xs| ==> xs[i].pulls < xs[i + 1].pulls;
    EmptyOrCommentIncreasing(xs, crashes, i + 1, lo, n);
  }

  lemma {:induction false} EmptyOrCommentEmitIncreasing(xs: seq<Item>, crashes: bool, i: nat, lo: nat, n: nat)
    requires i < |xs| && Increasing(xs, 0, n) && lo <= xs[i].pulls
    requires EmptyOrCommentStep(xs, i).Emit?
    ensures Increasing(EmptyOrCommentFrom(xs, crashes, i).items, lo, n)
    decreases |xs| - i, 0
  {
    var k := EmptyOrCommentStep(xs, i).next;
    var x := Item(EmptyOrCommentStep(xs, i).text, xs[k - 1].pulls);
    EmptyOrCommentEmit(xs, crashes, i, x.text, k, []);
    assert k < |xs| ==> xs[k - 1].pulls < xs[k].pulls;
    assert i < k - 1 ==> xs[i].pulls < xs[k - 1].pulls;
    EmptyOrCommentIncreasing(xs, crashes, k, xs[k - 1].pulls + 1, n);
    IncreasingPrepend(x, EmptyOrCommentFrom(xs, crashes, k).items, lo, n);
  }

  /** The reference meaning without continuations: strip each line, drop blank and `//` lines. */
  function PlainFrom(xs: seq<Item>, i: nat): (r: seq<Item>)
    requires i <= |xs|
    ensures forall o :: o in r ==> o.text != [] && !IsLineComment(o.text)
    decreases |xs| - i
  {
    if i == |xs| then []
    else
      var l := Strip(xs[i].text);
      if l == [] || IsLineComment(l) then PlainFrom(xs, i + 1)
      else [Item(l, xs[i].pulls)] + PlainFrom(xs, i + 1)
  }

  /** Where no stripped line ends in a backslash, `filter_empty_or_comment` is the plain filter. */
  lemma {:induction false} EmptyOrCommentIsPlainFilter(xs: seq<Item>, crashes: bool, i: nat)
    requires i <= |xs|
    requires forall m :: i <= m < |xs| ==> !EndsWithBackslash(Strip(xs[m].text))
    ensures EmptyOrCommentFrom(xs, crashes, i) == Stream(PlainFrom(xs, i), crashes)
    decreases |xs| - i
  {
    if i < |xs| {
      EmptyOrCommentIsPlainFilter(xs, crashes, i + 1);
      var l := Strip(xs[i].text);
      if l == [] || IsLineComment(l) {
        EmptyOrCommentSkip(xs, crashes, i);
        assert PlainFrom(xs, i) == PlainFrom(xs, i + 1);
      } else {
        assert !EndsWithBackslash(l);
        assert Join(xs, l, i + 1) == Some(Joined(l, i + 1));
        assert EmptyOrCommentStep(xs, i) == Emit(l, i + 1);
        EmptyOrCommentEmit(xs, crashes, i, l, i + 1, []);
        assert PlainFrom(xs, i) == [Item(l, xs[i].pulls)] + PlainFrom(xs, i + 1);
      }
    }
  }

  // ------------------------------------------------------- filter_comment_block

  /**
   * Inside a block comment: `l` is what is left of input item `i`. The
   * result is what follows the first closer, stripped, and the index after
   * the line that holds it; `None` when the input ends before a closer
   * (the bare `next` of the `except ValueError` handler).
   */
  function CloseComment(xs: seq<Item>, l: string, i: nat): (r: Option<Joined>)
    requires i < |xs|
    ensures r.Some? ==> i < r.value.next <= |xs|
    decreases |xs| - i
  {
    match IndexOf(l, "*/", 0)
    case Some(p) => Some(Joined(Strip(l[p + 2..]), i + 1))
    case None =>
      if i + 1 == |xs| then None
      else CloseComment(xs, xs[i + 1].text, i + 1)
  }

  /** The line `CloseComment` searches at index `m`: `l` at its start, the input line after it. */
  function SearchedLine(xs: seq<Item>, l: string, i: nat, m: nat): string
    requires i <= m < |xs|
  {
    if m == i then l else xs[m].text
  }

  /**
   * What `CloseComment` finds: the stripped text after the first closer of
   * the line it stops at, and the index after that line.
   */
  lemma {:induction false} CloseCommentFinds(xs: seq<Item>, l: string, i: nat)
    requires i < |xs| && CloseComment(xs, l, i).Some?
    ensures var t := SearchedLine(xs, l, i, CloseComment(xs, l, i).value.next - 1);
      && IndexOf(t, "*/", 0).Some?
      && CloseComment(xs, l, i).value.text == Strip(t[IndexOf(t, "*/", 0).value + 2..])
    decreases |xs| - i
  {
    if IndexOf(l, "*/", 0).None? {
      CloseCommentFinds(xs, xs[i + 1].text, i + 1);
    }
  }

  /** `CloseComment` stops at the first line (from `l` on) that holds a closer. */
  lemma {:induction false} CloseCommentFirst(xs: seq<Item>, l: string, i: nat)
    requires i < |xs| && CloseComment(xs, l, i).Some?
    ensures forall m :: i <= m < CloseComment(xs, l, i).value.next - 1 ==> !Contains(SearchedLine(xs, l, i, m), "*/")
    decreases |xs| - i
  {
    if IndexOf(l, "*/", 0).None? {
      CloseCommentFirst(xs, xs[i + 1].text, i + 1);
      var n := CloseComment(xs, l, i).value.next - 1;
      forall m | i <= m < n ensures !Contains(SearchedLine(xs, l, i, m), "*/") {
        if m > i {
          assert SearchedLine(xs, l, i, m) == SearchedLine(xs, xs[i + 1].text, i + 1, m);
        }
      }
    }
  }

  /** `CloseComment` finds nothing exactly when no line from `l` on holds a closer. */
  lemma {:induction false} CloseCommentMisses(xs: seq<Item>, l: string, i: nat)
    requires i < |xs|
    ensures CloseComment(xs, l, i).None? <==>
      !Contains(l, "*/") && forall k :: i < k < |xs| ==> !Contains(xs[k].text, "*/")
    decreases |xs| - i
  {
    if IndexOf(l, "*/", 0).None? && i + 1 < |xs| {
      CloseCommentMisses(xs, xs[i + 1].text, i + 1);
    }
  }

  /**
   * The output of `filter_comment_block` from input index `i` on, outside a
   * comment. The text after a closer is produced as it is, NOT checked for
   * another opener; the line after it is.
   */
  function CommentBlockFrom(xs: seq<Item>, crashes: bool, i: nat): Stream
    requires i <= |xs|
    decreases |xs| - i
  {
    if i == |xs| then Stream([], crashes)
    else if OpensBlockComment(xs[i].text) then
      match CloseComment(xs, xs[i].text[2..], i)
      case None => Stream([], true)
      case Some(j) => Prepend(Item(j.text, xs[j.next - 1].pulls), CommentBlockFrom(xs, crashes, j.next))
    else Prepend(xs[i], CommentBlockFrom(xs, crashes, i + 1))
  }

  function CommentBlock(s: Stream): Stream {
    CommentBlockFrom(s.items, s.crashes, 0)
  }

  /** The innermost loop of `filter_comment_block`: search line after line for the closer. */
  method FindCommentEnd(xs: seq<Item>, l: string, i: nat) returns (r: Option<Joined>)
    requires i < |xs|
    ensures r == CloseComment(xs, l, i)
  {
    var t, at := l, i;
    while true
      invariant i <= at < |xs|
      invariant CloseComment(xs, t, at) == CloseComment(xs, l, i)
      decreases |xs| - at
    {
      var found := IndexOf(t, "*/", 0);
      if found.Some? {
        return Some(Joined(Strip(t[found.value + 2..]), at + 1));
      }
      if at + 1 == |xs| {
        return None;
      }
      at := at + 1;
      t := xs[at].text;
    }
  }

  /** `filter_comment_block`, with the original's loops. */
  method FilterCommentBlock(s: Stream) returns (r: Stream)
    ensures r == CommentBlock(s)
  {
    var xs, c := s.items, s.crashes;
    var out: seq<Item> := [];
    var i := 0;
    while i < |xs|
      invariant 0 <= i <= |xs|
      invariant CommentBlock(s).items == out + CommentBlockFrom(xs, c, i).items
      invariant CommentBlock(s).crashes == CommentBlockFrom(xs, c, i).crashes
    {
      ghost var here := CommentBlockFrom(xs, c, i);
      var x: Item;
      if OpensBlockComment(xs[i].text) {
        var closed := FindCommentEnd(xs, xs[i].text[2..], i);
        if closed.None? {
          assert here == Stream([], true);
          return Stream(out, true);
        }
        x := Item(closed.value.text, xs[closed.value.next - 1].pulls);
        i := closed.value.next;
      } else {
        x := xs[i];
        i := i + 1;
      }
      ghost var tail := CommentBlockFrom(xs, c, i);
      assert here.items == [x] + tail.items && here.crashes == tail.crashes;
      assert out + ([x] + tail.items) == (out + [x]) + tail.items;
      out := out + [x];
    }
    r := Stream(out, c);
  }

  /** `filter_comment_block` keeps pull counts increasing and within the input's range. */
  lemma {:induction false} CommentBlockIncreasing(xs: seq<Item>, crashes: bool, i: nat, lo: nat, n: nat)
    requires i <= |xs| && Increasing(xs, 0, n)
    requires i < |xs| ==> lo <= xs[i].pulls
    ensures Increasing(CommentBlockFrom(xs, crashes, i).items, lo, n)
    decreases |xs| - i
  {
    if i < |xs| {
      var k: nat, x: Item;
      if OpensBlockComment(xs[i].text) {
        var j := CloseComment(xs, xs[i].text[2..], i);
        if j.None? {
          return;
        }
        k, x := j.value.next, Item(j.value.text, xs[j.value.next - 1].pulls);
      } else {
        k, x := i + 1, xs[i];
      }
      assert i < k - 1 ==> xs[i].pulls < xs[k - 1].pulls;
      assert k < |xs| ==> xs[k - 1].pulls < xs[k].pulls;
      CommentBlockIncreasing(xs, crashes, k, xs[k - 1].pulls + 1, n);
      IncreasingPrepend(x, CommentBlockFrom(xs, crashes, k).items, lo, n);
    }
  }

  /** Without a line that opens a block comment, `filter_comment_block` changes nothing. */
  lemma {:induction false} CommentBlockIdentity(xs: seq<Item>, crashes: bool, i: nat)
    requires i <= |xs|
    requires forall m :: i <= m < |xs| ==> !OpensBlockComment(xs[m].text)
    ensures CommentBlockFrom(xs, crashes, i) == Stream(xs[i..], crashes)
    decreases |xs| - i
  {
    if i < |xs| {
      CommentBlockIdentity(xs, crashes, i + 1);
      assert xs[i..] == [xs[i]] + xs[i + 1..];
    }
  }

  // ------------------------------------------------------------- the composition

  /**
   * What `filter_empty_or_comment`, `filter_comment_block` and
   * `filter_empty_or_comment` produce, in that order, from the lines
   * `iter_lines` yields.
   */
  function Statements(v: seq<string>): Stream {
    EmptyOrComment(CommentBlock(EmptyOrComment(Source(v))))
  }

  /** `Statements`, computed stage by stage with the loop implementations. */
  method ComputeStatements(v: seq<string>) returns (r: Stream)
    ensures r == Statements(v)
    ensures Increasing(r.items, 1, |v|) && Ascending(r.items, |v|)
  {
    var s1 := FilterEmptyOrComment(Source(v));
    EmptyOrCommentIncreasing(Source(v).items, false, 0, 1, |v|);
    var s2 := FilterCommentBlock(s1);
    CommentBlockIncreasing(s1.items, s1.crashes, 0, 1, |v|);
    r := FilterEmptyOrComment(s2);
    EmptyOrCommentIncreasing(s2.items, s2.crashes, 0, 1, |v|);
    assert forall i :: 0 < i < |r.items| ==> r.items[i - 1].pulls < r.items[i].pulls by {
      forall i | 0 < i < |r.items| ensures r.items[i - 1].pulls < r.items[i].pulls {
        assert 0 <= i - 1 < i;
      }
    }
  }

  /** A line `filter_empty_or_comment` drops on its own: blank, or a `//` comment. */
  predicate Ignorable(l: string) {
    Strip(l) == [] || IsLineComment(Strip(l))
  }

  lemma {:induction false} IgnorableFrom(xs: seq<Item>, crashes: bool, i: nat)
    requires i <= |xs| && forall k :: i <= k < |xs| ==> Ignorable(xs[k].text)
    ensures EmptyOrCommentFrom(xs, crashes, i) == Stream([], crashes)
    decreases |xs| - i
  {
    if i < |xs| {
      IgnorableFrom(xs, crashes, i + 1);
    }
  }

  /** A file of blank lines and `//` comments yields no statement, and the pipeline ends normally. */
  lemma IgnorableHasNoStatements(v: seq<string>)
    requires forall k :: 0 <= k < |v| ==> Ignorable(v[k])
    ensures Statements(v) == Stream([], false)
  {
    var src := Source(v);
    assert forall k :: 0 <= k < |src.items| ==> src.items[k].text == v[k];
    IgnorableFrom(src.items, false, 0);
    IgnorableFrom([], false, 0);
  }

  /**
   * A continuation can bring a comment line back: a line holding only `\`
   * followed by `// x` is yielded as `// x`, so "no comment line is
   * yielded" holds only for input without continuations.
   */
  lemma ContinuationYieldsComment()
    ensures EmptyOrComment(Source(["\\", "// x"])).items == [Item("// x", 2)]
  {
    var xs := Source(["\\", "// x"]).items;
    assert xs == [Item("\\", 1), Item("// x", 2)];
    assert Strip("\\") == "\\";
    var joined := Strip("\\"[..0]) + Strip(xs[1].text);
    assert Strip("") == "" && Strip("// x") == "// x";
    assert joined == "// x" && !EndsWithBackslash(joined);
    assert Join(xs, "\\", 1) == Some(Joined("// x", 2));
    assert EmptyOrCommentStep(xs, 0) == Emit("// x", 2);
  }
}
