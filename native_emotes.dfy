/**
 * The protocol-native emote pass of src/emotes.js:32-68: every emote id with
 * its first "start-end" range becomes one span, the spans are sorted by start,
 * right-most first, and spliced into the message one after the other.
 */
module NativeEmotes {
  import opened Wrappers
  import opened Splicing

  const TwitchUrlPrefix: string := "https://static-cdn.jtvnw.net/emoticons/v2"

  /** One entry of the protocol's emote map: an emote id and the ranges where it occurs. */
  datatype EmoteEntry = EmoteEntry(id: string, ranges: seq<string>)

  /** The text of a native emote's tag before and after its id. */
  const NativeTagHead: string := "<img src=\"" + TwitchUrlPrefix + "/"
  const NativeTagTail: string := "/default/light/2.0\" alt=\"emote\" />"

  /** The `<img>` tag for a native emote id. */
  function NativeTag(id: string): string
  {
    NativeTagHead + id + NativeTagTail
  }

  // ---------------------------------------------------------------- ranges

  predicate IsDigit(c: char)
  {
    '0' <= c <= '9'
  }

  predicate AllDigits(s: string)
  {
    forall i :: 0 <= i < |s| ==> IsDigit(s[i])
  }

  /** `Number(s)` on a string of decimal digits. */
  function DigitsValue(s: string): nat
    requires AllDigits(s)
    decreases |s|
  {
    if s == [] then 0
    else DigitsValue(s[..|s| - 1]) * 10 + (s[|s| - 1] as int - '0' as int)
  }

  /** The decimal spelling of n, without leading zeros. */
  function DecimalText(n: nat): string
    decreases n
  {
    if n < 10 then [(48 + n) as char]
    else DecimalText(n / 10) + [(48 + n % 10) as char]
  }

  /** The index of the first '-', or the length when there is none. */
  function FirstDash(r: string): (k: nat)
    ensures k <= |r|
    ensures forall i :: 0 <= i < k ==> r[i] != '-'
    ensures k < |r| ==> r[k] == '-'
    decreases |r|
  {
    if r == [] || r[0] == '-' then 0 else 1 + FirstDash(r[1..])
  }

  /** "digits-digits": the shape the protocol gives every range in. */
  predicate WellFormedRange(r: string)
  {
    var k := FirstDash(r);
    0 < k < |r| - 1 && AllDigits(r[..k]) && AllDigits(r[k + 1..])
  }

  /** `r.split("-")` followed by `Number` on both parts. */
  function ParseRange(r: string): (bounds: (nat, nat))
    requires WellFormedRange(r)
  {
    var k := FirstDash(r);
    (DigitsValue(r[..k]), DigitsValue(r[k + 1..]))
  }

  /** The protocol's spelling of the inclusive range start..end. */
  function RangeText(start: nat, end: nat): string
  {
    DecimalText(start) + "-" + DecimalText(end)
  }

  lemma {:induction false} DecimalRoundTrip(n: nat)
    ensures |DecimalText(n)| > 0 && AllDigits(DecimalText(n))
    ensures DigitsValue(DecimalText(n)) == n
    decreases n
  {
    if n >= 10 {
      DecimalRoundTrip(n / 10);
      var d := DecimalText(n / 10);
      var t := d + [(48 + n % 10) as char];
      assert t[..|t| - 1] == d;
    }
  }

  /** Parsing a range spelled by the protocol gives back its two bounds. */
  lemma RangeRoundTrip(start: nat, end: nat)
    ensures WellFormedRange(RangeText(start, end))
    ensures ParseRange(RangeText(start, end)) == (start, end)
  {
    DecimalRoundTrip(start);
    DecimalRoundTrip(end);
    var a, b := DecimalText(start), DecimalText(end);
    var r := RangeText(start, end);
    assert r[|a|] == '-';
    var k := FirstDash(r);
    assert forall i :: 0 <= i < |a| ==> r[i] == a[i] && r[i] != '-';
    assert k == |a|;
    assert r[..k] == a;
    assert r[k + 1..] == b;
  }

  // ----------------------------------------------------------------- spans

  /** Every id has at least one range and its first range is well formed. */
  predicate WellFormedEmotes(entries: seq<EmoteEntry>)
  {
    forall i :: 0 <= i < |entries| ==> |entries[i].ranges| > 0 && WellFormedRange(entries[i].ranges[0])
  }

  /** Every first range starts no later than it ends, so no span is empty. */
  predicate OrderedRanges(entries: seq<EmoteEntry>)
    requires WellFormedEmotes(entries)
  {
    forall i :: 0 <= i < |entries| ==> ParseRange(entries[i].ranges[0]).0 <= ParseRange(entries[i].ranges[0]).1
  }

  /** The replacement for one entry: its first inclusive range as [start, end + 1). */
  function EntrySpan(e: EmoteEntry): Span
    requires |e.ranges| > 0 && WellFormedRange(e.ranges[0])
  {
    var bounds := ParseRange(e.ranges[0]);
    Span(bounds.0, bounds.1 + 1, NativeTag(e.id))
  }

  /** The replacement list built by the first loop, one span pushed per entry. */
  function Spans(entries: seq<EmoteEntry>): seq<Span>
    requires WellFormedEmotes(entries)
    decreases |entries|
  {
    if entries == [] then []
    else Spans(entries[..|entries| - 1]) + [EntrySpan(entries[|entries| - 1])]
  }

  lemma PrefixWellFormed(entries: seq<EmoteEntry>, i: nat)
    requires WellFormedEmotes(entries) && i <= |entries|
    ensures WellFormedEmotes(entries[..i])
  {
    assert forall k :: 0 <= k < i ==> entries[..i][k] == entries[k];
  }

  /** One push of the first loop: the list for one more entry ends in that entry's span. */
  lemma SpansPrefixStep(entries: seq<EmoteEntry>, i: nat)
    requires WellFormedEmotes(entries) && i < |entries|
    ensures WellFormedEmotes(entries[..i]) && WellFormedEmotes(entries[..i + 1])
    ensures Spans(entries[..i + 1]) == Spans(entries[..i]) + [EntrySpan(entries[i])]
  {
    PrefixWellFormed(entries, i);
    PrefixWellFormed(entries, i + 1);
    assert entries[..i + 1][..i] == entries[..i];
  }

  /** Each id yields exactly one span, taken from its first range; later ranges play no part. */
  lemma {:induction false} SpansOnePerEntry(entries: seq<EmoteEntry>)
    requires WellFormedEmotes(entries)
    ensures |Spans(entries)| == |entries|
    ensures forall i :: 0 <= i < |entries| ==> Spans(entries)[i] == EntrySpan(entries[i])
    decreases |entries|
  {
    if entries != [] {
      var n := |entries| - 1;
      var init := entries[..n];
      PrefixWellFormed(entries, n);
      SpansOnePerEntry(init);
      var spans := Spans(entries);
      assert spans == Spans(init) + [EntrySpan(entries[n])];
      forall i | 0 <= i < |entries|
        ensures spans[i] == EntrySpan(entries[i])
      {
        if i < n {
          assert init[i] == entries[i];
        }
      }
    }
  }

  /** Two emote maps that agree on ids and first ranges give the same replacement list. */
  lemma OnlyFirstRangeCounts(a: seq<EmoteEntry>, b: seq<EmoteEntry>)
    requires WellFormedEmotes(a) && WellFormedEmotes(b)
    requires |a| == |b|
    requires forall i :: 0 <= i < |a| ==> a[i].id == b[i].id && a[i].ranges[0] == b[i].ranges[0]
    ensures Spans(a) == Spans(b)
  {
    SpansOnePerEntry(a);
    SpansOnePerEntry(b);
    forall i | 0 <= i < |a|
      ensures Spans(a)[i] == Spans(b)[i]
    {
      assert EntrySpan(a[i]) == EntrySpan(b[i]);
    }
  }

  // ------------------------------------------------------------------ sort

  predicate NonIncreasingStart(s: seq<Span>)
  {
    forall i, j :: 0 <= i < j < |s| ==> s[i].start >= s[j].start
  }

  /** A head that starts no earlier than x and than every span after it stays in front of their insertion. */
  lemma HeadBoundsTail(h: Span, rest: seq<Span>, x: Span, tail: seq<Span>)
    requires NonIncreasingStart([h] + rest) && NonIncreasingStart(tail)
    requires h.start >= x.start
    requires multiset(tail) == multiset(rest) + multiset{x}
    ensures NonIncreasingStart([h] + tail)
  {
    forall k | 0 <= k < |tail|
      ensures tail[k].start <= h.start
    {
      assert tail[k] in multiset(tail);
      if tail[k] != x {
        assert tail[k] in multiset(rest);
        var m :| 0 <= m < |rest| && rest[m] == tail[k];
        assert ([h] + rest)[0] == h && ([h] + rest)[m + 1] == rest[m];
      }
    }
    forall i, j | 0 <= i < j < |[h] + tail|
      ensures ([h] + tail)[i].start >= ([h] + tail)[j].start
    {
      if i > 0 {
        assert ([h] + tail)[i] == tail[i - 1] && ([h] + tail)[j] == tail[j - 1];
      } else {
        assert ([h] + tail)[0] == h && ([h] + tail)[j] == tail[j - 1];
      }
    }
  }

  /** A span that starts after the first of a sorted list can go in front of it. */
  lemma LargerStartFirst(x: Span, sorted: seq<Span>)
    requires NonIncreasingStart(sorted)
    requires sorted != [] && sorted[0].start < x.start
    ensures NonIncreasingStart([x] + sorted)
  {
    forall i, j | 0 <= i < j < |[x] + sorted|
      ensures ([x] + sorted)[i].start >= ([x] + sorted)[j].start
    {
      assert ([x] + sorted)[j] == sorted[j - 1];
      if i > 0 {
        assert ([x] + sorted)[i] == sorted[i - 1];
      } else {
        assert ([x] + sorted)[0] == x && sorted[0].start >= sorted[j - 1].start;
      }
    }
  }

  /** Insert x after every span that starts at or after it (so equal starts keep their order). */
  function InsertByStart(x: Span, sorted: seq<Span>): (r: seq<Span>)
    requires NonIncreasingStart(sorted)
    ensures NonIncreasingStart(r)
    ensures multiset(r) == multiset(sorted) + multiset{x}
    decreases |sorted|
  {
    if sorted == [] then [x]
    else if sorted[0].start >= x.start then
      var tail := InsertByStart(x, sorted[1..]);
      assert sorted == [sorted[0]] + sorted[1..];
      HeadBoundsTail(sorted[0], sorted[1..], x, tail);
      [sorted[0]] + tail
    else
      LargerStartFirst(x, sorted);
      [x] + sorted
  }

  /**
   * `replacementList.sort((a, b) => b.emoteStartIndex - a.emoteStartIndex)`:
   * JavaScript's stable sort, as an insertion sort of the spans in list order.
   */
  function SortByStartDescending(spans: seq<Span>): (r: seq<Span>)
    ensures NonIncreasingStart(r)
    ensures multiset(r) == multiset(spans)
    decreases |spans|
  {
    if spans == [] then []
    else
      assert spans == spans[..|spans| - 1] + [spans[|spans| - 1]];
      InsertByStart(spans[|spans| - 1], SortByStartDescending(spans[..|spans| - 1]))
  }

  predicate StrictlyAscendingStart(s: seq<Span>)
  {
    forall i, j :: 0 <= i < j < |s| ==> s[i].start < s[j].start
  }

  predicate NonDecreasingStart(s: seq<Span>)
  {
    forall i, j :: 0 <= i < j < |s| ==> s[i].start <= s[j].start
  }

  lemma MultisetTail(s: seq<Span>)
    requires |s| > 0
    ensures multiset(s[1..]) == multiset(s) - multiset{s[0]}
  {
    assert s == [s[0]] + s[1..];
  }

  /** The first spans of two start-ordered arrangements of one multiset coincide. */
  lemma HeadsAgree(a: seq<Span>, b: seq<Span>)
    requires StrictlyAscendingStart(a)
    requires NonDecreasingStart(b)
    requires multiset(a) == multiset(b)
    requires |a| > 0
    ensures |b| == |a| && a[0] == b[0]
  {
    assert |a| == |multiset(a)| == |multiset(b)| == |b|;
    assert b[0] in multiset(a);
    var m :| 0 <= m < |a| && a[m] == b[0];
    assert a[0] in multiset(b);
    var k :| 0 <= k < |b| && b[k] == a[0];
    assert a[0].start <= a[m].start == b[0].start <= b[k].start;
    assert m == 0;
  }

  lemma HeadAndTail(s: seq<Span>)
    requires |s| > 0
    ensures s == [s[0]] + s[1..]
  {
  }

  /** Dropping the first span keeps either order. */
  lemma TailsOrdered(a: seq<Span>, b: seq<Span>)
    requires StrictlyAscendingStart(a) && NonDecreasingStart(b)
    requires |a| > 0 && |b| > 0
    ensures StrictlyAscendingStart(a[1..]) && NonDecreasingStart(b[1..])
  {
    forall i, j | 0 <= i < j < |a| - 1
      ensures a[1..][i].start < a[1..][j].start
    {
      assert a[1..][i] == a[i + 1] && a[1..][j] == a[j + 1];
    }
    forall i, j | 0 <= i < j < |b| - 1
      ensures b[1..][i].start <= b[1..][j].start
    {
      assert b[1..][i] == b[i + 1] && b[1..][j] == b[j + 1];
    }
  }

  /** Spans with pairwise distinct starts have only one arrangement in start order. */
  lemma {:induction false} StartOrderUnique(a: seq<Span>, b: seq<Span>)
    requires StrictlyAscendingStart(a)
    requires NonDecreasingStart(b)
    requires multiset(a) == multiset(b)
    ensures a == b
    decreases |a|
  {
    if |a| == 0 {
      assert |multiset(b)| == 0;
    } else {
      HeadsAgree(a, b);
      MultisetTail(a);
      MultisetTail(b);
      TailsOrdered(a, b);
      StartOrderUnique(a[1..], b[1..]);
      HeadAndTail(a);
      HeadAndTail(b);
    }
  }

  // ------------------------------------------------------------------ pass

  /** What the pass returns: the message untouched without an emote map, else the sorted splices. */
  function NativeResult(message: string, emotes: Option<seq<EmoteEntry>>): string
    requires emotes.Some? ==> WellFormedEmotes(emotes.value)
  {
    match emotes
    case None => message
    case Some(entries) => SpliceAll(message, SortByStartDescending(Spans(entries)))
  }

  /** `replaceTwitchStandardEmotes(message, emotes)`. */
  method ReplaceTwitchStandardEmotes(message: string, emotes: Option<seq<EmoteEntry>>) returns (result: string)
    requires emotes.Some? ==> WellFormedEmotes(emotes.value)
    ensures result == NativeResult(message, emotes)
  {
    if emotes.None? {
      return message;
    }
    var entries := emotes.value;
    result := message;
    var replacementList: seq<Span> := [];
    PrefixWellFormed(entries, 0);
    for i := 0 to |entries|
      invariant WellFormedEmotes(entries[..i])
      invariant replacementList == Spans(entries[..i])
    {
      var bounds := ParseRange(entries[i].ranges[0]);
      SpansPrefixStep(entries, i);
      replacementList := replacementList + [Span(bounds.0, bounds.1 + 1, NativeTag(entries[i].id))];
    }
    assert entries[..|entries|] == entries;
    replacementList := SortByStartDescending(replacementList);
    for i := 0 to |replacementList|
      invariant result == SpliceAll(message, replacementList[..i])
    {
      var span := replacementList[i];
      SpliceAllPrefixStep(message, replacementList, i + 1);
      result := UnicodeSlice(result, 0, span.start) + span.tag + UnicodeSliceFrom(result, span.end);
    }
    assert replacementList[..|replacementList|] == replacementList;
  }

  /** An absent emote map and an empty one both leave the message exactly as it was. */
  lemma NoEmotesNoChange(message: string)
    ensures NativeResult(message, None) == message
    ensures NativeResult(message, Some([])) == message
  {
    assert Spans([]) == [];
    assert SortByStartDescending([]) == [];
  }

  /** A layout of non-empty spans lists them in strictly increasing start order. */
  lemma LayoutStartsAscend(layout: seq<Span>, spans: seq<Span>, n: nat)
    requires forall k :: 0 <= k < |spans| ==> spans[k].start < spans[k].end
    requires multiset(layout) == multiset(spans)
    requires Laid(layout, 0, n)
    ensures StrictlyAscendingStart(layout)
  {
    LaidIsInOrder(layout, 0, n);
    forall i | 0 <= i < |layout|
      ensures layout[i].start < layout[i].end
    {
      assert layout[i] in multiset(spans);
      var k :| 0 <= k < |spans| && spans[k] == layout[i];
    }
  }

  /** The reverse of a right-most-first list is in start order. */
  lemma ReverseAscends(desc: seq<Span>)
    requires NonIncreasingStart(desc)
    ensures NonDecreasingStart(Reverse(desc))
  {
    var asc := Reverse(desc);
    forall i, j | 0 <= i < j < |asc|
      ensures asc[i].start <= asc[j].start
    {
      assert asc[i] == desc[|desc| - 1 - i] && asc[j] == desc[|desc| - 1 - j];
    }
  }

  /** A list whose reverse is a layout inside [0, n] is right-to-left inside [0, n]. */
  lemma ReverseOfLayout(desc: seq<Span>, n: nat)
    requires Laid(Reverse(desc), 0, n)
    ensures Descending(desc, n)
  {
    var asc := Reverse(desc);
    LaidIsInOrder(asc, 0, n);
    forall i | 0 <= i < |desc|
      ensures desc[i].start <= desc[i].end <= n
    {
      assert desc[i] == asc[|desc| - 1 - i];
      assert asc[|desc| - 1] == desc[0];
    }
    forall i, j | 0 <= i < j < |desc|
      ensures desc[j].end <= desc[i].start
    {
      assert desc[i] == asc[|desc| - 1 - i] && desc[j] == asc[|desc| - 1 - j];
    }
  }

  /** Every span of a well-formed, ordered emote map is non-empty. */
  lemma SpansNonEmpty(entries: seq<EmoteEntry>)
    requires WellFormedEmotes(entries) && OrderedRanges(entries)
    ensures forall k :: 0 <= k < |Spans(entries)| ==> Spans(entries)[k].start < Spans(entries)[k].end
  {
    SpansOnePerEntry(entries);
  }

  /**
   * The pass's central claim: whenever the spans of the emote map can be laid
   * out left to right inside the message, the one right-to-left pass yields
   * exactly the message's untouched segments interleaved with the tags.
   */
  lemma NativePassIsLeftToRight(message: string, entries: seq<EmoteEntry>, layout: seq<Span>)
    requires WellFormedEmotes(entries) && OrderedRanges(entries)
    requires multiset(layout) == multiset(Spans(entries))
    requires Laid(layout, 0, |message|)
    ensures NativeResult(message, Some(entries)) == Render(message, layout, 0)
  {
    var spans := Spans(entries);
    SpansNonEmpty(entries);
    LayoutStartsAscend(layout, spans, |message|);
    var desc := SortByStartDescending(spans);
    ReverseAscends(desc);
    StartOrderUnique(layout, Reverse(desc));
    ReverseOfLayout(desc, |message|);
    SpliceAllDescending(message, desc);
  }
}
