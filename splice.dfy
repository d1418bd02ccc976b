/**
 * Codepoint slicing and splicing of a message (src/emotes.js:14-15 and the
 * splice loop at src/emotes.js:55-65), and the left-to-right reading of a set
 * of replacements that both substitution engines are measured against.
 */
module Splicing {

  /** A replacement of the codepoints [start, end) of a text by `tag`. */
  datatype Span = Span(start: nat, end: nat, tag: string)

  /**
   * `[...s].slice(start, end).join("")`: a message is a sequence of code points,
   * and JavaScript's `slice` clamps both (non-negative) indices to the length.
   */
  function UnicodeSlice(s: string, start: nat, end: nat): (r: string)
    ensures start <= end <= |s| ==> r == s[start..end]
    ensures start <= |s| <= end ==> r == s[start..]
    ensures end <= start || |s| <= start ==> r == []
  {
    var b := if start < |s| then start else |s|;
    var e := if end < |s| then end else |s|;
    if b < e then s[b..e] else []
  }

  /** `unicodeSlice(s, start)` with the end left out: everything from `start` on. */
  function UnicodeSliceFrom(s: string, start: nat): (r: string)
    ensures start <= |s| ==> r == s[start..]
    ensures |s| <= start ==> r == []
  {
    UnicodeSlice(s, start, |s|)
  }

  /** One step of the splice loop: prefix up to `start`, the tag, suffix from `end`. */
  function Splice(s: string, sp: Span): string
  {
    UnicodeSlice(s, 0, sp.start) + sp.tag + UnicodeSliceFrom(s, sp.end)
  }

  /** The splice loop: the spans applied one after the other, first span first. */
  function SpliceAll(s: string, spans: seq<Span>): string
    decreases |spans|
  {
    if spans == [] then s
    else Splice(SpliceAll(s, spans[..|spans| - 1]), spans[|spans| - 1])
  }

  /**
   * The spans lie left to right inside positions [from, n]: each is a range
   * that starts no earlier than the previous one ends, and all are within bounds.
   */
  predicate Laid(layout: seq<Span>, from: nat, n: nat)
    ensures Laid(layout, from, n) ==> from <= n
    decreases |layout|
  {
    if layout == [] then from <= n
    else from <= layout[0].start <= layout[0].end && Laid(layout[1..], layout[0].end, n)
  }

  /** The same layout condition stated position by position. */
  ghost predicate InOrder(layout: seq<Span>, from: nat, n: nat)
  {
    && from <= n
    && (forall i :: 0 <= i < |layout| ==> layout[i].start <= layout[i].end)
    && (forall i, j :: 0 <= i < j < |layout| ==> layout[i].end <= layout[j].start)
    && (|layout| > 0 ==> from <= layout[0].start && layout[|layout| - 1].end <= n)
  }

  lemma InOrderCons(layout: seq<Span>, from: nat, n: nat)
    requires layout != []
    ensures InOrder(layout, from, n)
        <==> from <= layout[0].start <= layout[0].end && InOrder(layout[1..], layout[0].end, n)
  {
    var x, tail := layout[0], layout[1..];
    if InOrder(layout, from, n) {
      if |tail| > 0 {
        assert x.end <= layout[|layout| - 1].start;
      }
      forall i, j | 0 <= i < j < |tail|
        ensures tail[i].end <= tail[j].start
      {
        assert tail[i] == layout[i + 1] && tail[j] == layout[j + 1];
      }
      assert InOrder(tail, x.end, n);
    }
    if from <= x.start <= x.end && InOrder(tail, x.end, n) {
      forall j | 0 < j < |layout|
        ensures x.end <= layout[j].start
      {
        assert layout[j] == tail[j - 1];
        if j > 1 {
          assert tail[0].end <= tail[j - 1].start;
        }
      }
      assert InOrder(layout, from, n);
    }
  }

  /** The recursive and the position-by-position layout conditions agree. */
  lemma {:induction false} LaidIsInOrder(layout: seq<Span>, from: nat, n: nat)
    ensures Laid(layout, from, n) <==> InOrder(layout, from, n)
    decreases |layout|
  {
    if layout != [] {
      InOrderCons(layout, from, n);
      LaidIsInOrder(layout[1..], layout[0].end, n);
    }
  }

  /**
   * The text read left to right from `from`: the untouched segments of `s`
   * interleaved with the tags of the laid-out spans.
   */
  function Render(s: string, layout: seq<Span>, from: nat): string
    requires Laid(layout, from, |s|)
    decreases |layout|
  {
    if layout == [] then s[from..]
    else s[from..layout[0].start] + layout[0].tag + Render(s, layout[1..], layout[0].end)
  }

  /**
   * The spans in strictly right-to-left order inside [0, n]: each one ends
   * at or before the start of every span listed before it.
   */
  predicate Descending(spans: seq<Span>, n: nat)
  {
    && (forall i :: 0 <= i < |spans| ==> spans[i].start <= spans[i].end <= n)
    && (forall i, j :: 0 <= i < j < |spans| ==> spans[j].end <= spans[i].start)
  }

  function Reverse<T>(s: seq<T>): (r: seq<T>)
    ensures |r| == |s|
    ensures forall k :: 0 <= k < |s| ==> r[k] == s[|s| - 1 - k]
    ensures multiset(r) == multiset(s)
    decreases |s|
  {
    if s == [] then []
    else
      assert s == s[..|s| - 1] + [s[|s| - 1]];
      [s[|s| - 1]] + Reverse(s[..|s| - 1])
  }

  /** An untouched stretch can be split off the front of a rendering. */
  lemma RenderShift(s: string, layout: seq<Span>, from: nat, mid: nat)
    requires Laid(layout, from, |s|)
    requires from <= mid <= |s|
    requires layout != [] ==> mid <= layout[0].start
    ensures Laid(layout, mid, |s|)
    ensures Render(s, layout, from) == s[from..mid] + Render(s, layout, mid)
  {
    if layout == [] {
      assert s[from..] == s[from..mid] + s[mid..];
    } else {
      RenderShiftHead(s, layout, from, mid);
    }
  }

  lemma RenderShiftHead(s: string, layout: seq<Span>, from: nat, mid: nat)
    requires layout != [] && Laid(layout, from, |s|)
    requires from <= mid <= layout[0].start
    ensures Laid(layout, mid, |s|)
    ensures Render(s, layout, from) == s[from..mid] + Render(s, layout, mid)
  {
    RenderHead(s, layout, from);
    LaidLater(layout, from, mid, |s|);
    RenderHead(s, layout, mid);
    SplitGap(s, from, mid, layout[0].start, layout[0].tag + Render(s, layout[1..], layout[0].end));
  }

  /** Rendering a non-empty layout: the gap before the first span, its tag, the rest. */
  lemma RenderHead(s: string, layout: seq<Span>, from: nat)
    requires layout != [] && Laid(layout, from, |s|)
    ensures Laid(layout[1..], layout[0].end, |s|)
    ensures Render(s, layout, from)
         == s[from..layout[0].start] + (layout[0].tag + Render(s, layout[1..], layout[0].end))
  {
  }

  /** A layout laid out from `from` is also laid out from any later point before its first span. */
  lemma LaidLater(layout: seq<Span>, from: nat, mid: nat, n: nat)
    requires layout != [] && Laid(layout, from, n)
    requires from <= mid <= layout[0].start
    ensures Laid(layout, mid, n)
  {
  }

  /** The concatenation bookkeeping of `RenderShiftHead`. */
  lemma SplitGap(s: string, from: nat, mid: nat, start: nat, tail: string)
    requires from <= mid <= start <= |s|
    ensures s[from..start] + tail == s[from..mid] + (s[mid..start] + tail)
  {
    assert s[from..start] == s[from..mid] + s[mid..start];
  }

  /** A splice that falls inside a prefix leaves the rest of the text alone. */
  lemma SpliceInPrefix(p: string, q: string, sp: Span)
    requires sp.start <= sp.end <= |p|
    ensures Splice(p + q, sp) == p[..sp.start] + sp.tag + p[sp.end..] + q
  {
    assert (p + q)[..sp.start] == p[..sp.start];
    assert (p + q)[sp.end..] == p[sp.end..] + q;
  }

  /** Reversing a prefix of a right-to-left list gives a left-to-right layout. */
  lemma LaidReversePrefix(desc: seq<Span>, n: nat, j: nat)
    requires Descending(desc, n)
    requires 0 < j <= |desc|
    ensures Laid(Reverse(desc[..j]), desc[j - 1].start, n)
  {
    var r := Reverse(desc[..j]);
    forall i, k | 0 <= i < k < |r|
      ensures r[i].end <= r[k].start
    {
      assert r[i] == desc[j - 1 - i] && r[k] == desc[j - 1 - k];
    }
    assert r[0] == desc[j - 1];
    assert r[|r| - 1] == desc[0];
    assert InOrder(r, desc[j - 1].start, n);
    LaidIsInOrder(r, desc[j - 1].start, n);
  }

  function Bound(n: nat, desc: seq<Span>, j: nat): nat
    requires j <= |desc|
  {
    if j == 0 then n else desc[j - 1].start
  }

  /** Rendering a layout that starts with `x`. */
  lemma RenderCons(s: string, x: Span, prev: seq<Span>, from: nat)
    requires Laid([x] + prev, from, |s|)
    ensures Laid(prev, x.end, |s|)
    ensures Render(s, [x] + prev, from) == s[from..x.start] + x.tag + Render(s, prev, x.end)
  {
    assert ([x] + prev)[1..] == prev;
  }

  /** The sequence bookkeeping of one splice step, kept apart from the layout facts. */
  lemma SpliceSeam(s: string, x: Span, b: nat, rest: string, shifted: string, whole: string)
    requires x.start <= x.end <= b <= |s|
    requires whole == s[x.start..x.start] + x.tag + shifted
    requires shifted == s[x.end..b] + rest
    ensures Splice(s[..b] + rest, x) == s[..x.start] + whole
  {
    var p := s[..b];
    SpliceInPrefix(p, rest, x);
    assert p[..x.start] == s[..x.start];
    assert p[x.end..] == s[x.end..b];
    assert s[x.start..x.start] == [];
  }

  /** One more splice, at the right end of what is still untouched, extends the rendering by one span. */
  lemma SpliceStep(s: string, x: Span, prev: seq<Span>, b: nat)
    requires x.start <= x.end <= b <= |s|
    requires Laid(prev, b, |s|)
    requires Laid([x] + prev, x.start, |s|)
    ensures Splice(s[..b] + Render(s, prev, b), x) == s[..x.start] + Render(s, [x] + prev, x.start)
  {
    RenderCons(s, x, prev, x.start);
    RenderShift(s, prev, x.end, b);
    SpliceSeam(s, x, b, Render(s, prev, b), Render(s, prev, x.end), Render(s, [x] + prev, x.start));
  }

  lemma ReversePrefixStep<T>(s: seq<T>, j: nat)
    requires 0 < j <= |s|
    ensures Reverse(s[..j]) == [s[j - 1]] + Reverse(s[..j - 1])
  {
    assert s[..j][..j - 1] == s[..j - 1];
  }

  lemma SpliceAllPrefixStep(s: string, spans: seq<Span>, j: nat)
    requires 0 < j <= |spans|
    ensures SpliceAll(s, spans[..j]) == Splice(SpliceAll(s, spans[..j - 1]), spans[j - 1])
  {
    assert spans[..j][..j - 1] == spans[..j - 1];
  }

  /** After the first j splices, the text is an untouched prefix followed by the rendering of those j spans. */
  lemma {:induction false} SplicePrefix(s: string, desc: seq<Span>, j: nat)
    requires Descending(desc, |s|)
    requires j <= |desc|
    ensures Bound(|s|, desc, j) <= |s|
    ensures Laid(Reverse(desc[..j]), Bound(|s|, desc, j), |s|)
    ensures SpliceAll(s, desc[..j])
         == s[..Bound(|s|, desc, j)] + Render(s, Reverse(desc[..j]), Bound(|s|, desc, j))
    decreases j
  {
    if j == 0 {
      assert desc[..0] == [];
    } else {
      SplicePrefix(s, desc, j - 1);
      SplicePrefixStep(s, desc, j, Bound(|s|, desc, j - 1));
    }
  }

  /** The inductive step of `SplicePrefix`: the j-th splice, given the first j - 1. */
  lemma SplicePrefixStep(s: string, desc: seq<Span>, j: nat, b: nat)
    requires Descending(desc, |s|)
    requires 0 < j <= |desc| && b == Bound(|s|, desc, j - 1) && b <= |s|
    requires Laid(Reverse(desc[..j - 1]), b, |s|)
    requires SpliceAll(s, desc[..j - 1]) == s[..b] + Render(s, Reverse(desc[..j - 1]), b)
    ensures Laid(Reverse(desc[..j]), desc[j - 1].start, |s|)
    ensures SpliceAll(s, desc[..j]) == s[..desc[j - 1].start] + Render(s, Reverse(desc[..j]), desc[j - 1].start)
  {
    var x := desc[j - 1];
    var prev := Reverse(desc[..j - 1]);
    assert x.end <= b by {
      if j - 1 > 0 { assert desc[j - 1].end <= desc[j - 2].start; }
    }
    SpliceAllPrefixStep(s, desc, j);
    LaidReversePrefix(desc, |s|, j);
    ReversePrefixStep(desc, j);
    SpliceStep(s, x, prev, b);
  }

  /**
   * The splice loop's correctness: applying right-to-left spans one after the
   * other, each against the text the previous splices produced, gives the
   * original's untouched segments interleaved left to right with the tags.
   */
  lemma {:induction false} SpliceAllDescending(s: string, desc: seq<Span>)
    requires Descending(desc, |s|)
    ensures Laid(Reverse(desc), 0, |s|)
    ensures SpliceAll(s, desc) == Render(s, Reverse(desc), 0)
  {
    SplicePrefix(s, desc, |desc|);
    assert desc[..|desc|] == desc;
    var b := Bound(|s|, desc, |desc|);
    RenderShift(s, Reverse(desc), 0, b);
    assert s[..b] == s[0..b];
  }
}
