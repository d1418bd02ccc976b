/** The cases of test/replaceTwitchStandardEmotes.test.js, stated about the model. */
module NativeExamples {
  import opened Wrappers
  import opened Splicing
  import opened NativeEmotes

  /** The span of one entry whose first range is "s-e". */
  lemma EntrySpanOf(id: string, s: nat, e: nat, later: seq<string>)
    ensures |EmoteEntry(id, [RangeText(s, e)] + later).ranges| > 0
    ensures WellFormedRange(RangeText(s, e))
    ensures EntrySpan(EmoteEntry(id, [RangeText(s, e)] + later)) == Span(s, e + 1, NativeTag(id))
  {
    RangeRoundTrip(s, e);
  }

  lemma Regroup2(msg: string, a: Span, b: Span, second: string, last: string, whole: string)
    requires a.start <= a.end <= b.start <= b.end <= |msg|
    requires last == msg[b.end..]
    requires second == msg[a.end..b.start] + b.tag + last
    requires whole == msg[0..a.start] + a.tag + second
    ensures whole == msg[..a.start] + a.tag + msg[a.end..b.start] + b.tag + msg[b.end..]
  {
    assert msg[..a.start] == msg[0..a.start];
  }

  lemma Regroup3(msg: string, a: Span, b: Span, c: Span, second: string, third: string, last: string, whole: string)
    requires a.start <= a.end <= b.start <= b.end <= c.start <= c.end <= |msg|
    requires last == msg[c.end..]
    requires third == msg[b.end..c.start] + c.tag + last
    requires second == msg[a.end..b.start] + b.tag + third
    requires whole == msg[0..a.start] + a.tag + second
    ensures whole == msg[..a.start] + a.tag + msg[a.end..b.start] + b.tag + msg[b.end..c.start] + c.tag + msg[c.end..]
  {
    assert msg[..a.start] == msg[0..a.start];
  }

  /** The rendering of two spans laid out left to right. */
  lemma RenderTwo(msg: string, a: Span, b: Span)
    requires a.start <= a.end <= b.start <= b.end <= |msg|
    ensures Laid([a, b], 0, |msg|)
    ensures Render(msg, [a, b], 0) == msg[..a.start] + a.tag + msg[a.end..b.start] + b.tag + msg[b.end..]
  {
    var ab := [a, b];
    assert ab[0] == a && ab[1..] == [b] && [b][1..] == [];
    assert Laid([b], a.end, |msg|);
    var last := Render(msg, [], b.end);
    assert last == msg[b.end..];
    var second := Render(msg, [b], a.end);
    assert second == msg[a.end..b.start] + b.tag + last;
    assert Render(msg, ab, 0) == msg[0..a.start] + a.tag + second;
    Regroup2(msg, a, b, second, last, Render(msg, ab, 0));
  }

  /** The rendering of three spans laid out left to right. */
  lemma RenderThree(msg: string, a: Span, b: Span, c: Span)
    requires a.start <= a.end <= b.start <= b.end <= c.start <= c.end <= |msg|
    ensures Laid([a, b, c], 0, |msg|)
    ensures Render(msg, [a, b, c], 0)
         == msg[..a.start] + a.tag + msg[a.end..b.start] + b.tag + msg[b.end..c.start] + c.tag + msg[c.end..]
  {
    var abc, bc := [a, b, c], [b, c];
    assert abc[0] == a && abc[1..] == bc && bc[0] == b && bc[1..] == [c] && [c][1..] == [];
    assert Laid([c], b.end, |msg|);
    assert Laid(bc, a.end, |msg|);
    var last := Render(msg, [], c.end);
    assert last == msg[c.end..];
    var third := Render(msg, [c], b.end);
    assert third == msg[b.end..c.start] + c.tag + last;
    var second := Render(msg, bc, a.end);
    assert second == msg[a.end..b.start] + b.tag + third;
    assert Render(msg, abc, 0) == msg[0..a.start] + a.tag + second;
    Regroup3(msg, a, b, c, second, third, last, Render(msg, abc, 0));
  }

  /** One emote in the message: its codepoints s..e are replaced by its tag, the rest is kept. */
  lemma OneEmote(msg: string, id: string, s: nat, e: nat)
    requires s <= e < |msg|
    ensures WellFormedEmotes([EmoteEntry(id, [RangeText(s, e)])])
    ensures NativeResult(msg, Some([EmoteEntry(id, [RangeText(s, e)])])) == msg[..s] + NativeTag(id) + msg[e + 1..]
  {
    var x := EmoteEntry(id, [RangeText(s, e)]);
    EntrySpanOf(id, s, e, []);
    assert [RangeText(s, e)] + [] == x.ranges;
    var a := Span(s, e + 1, NativeTag(id));
    SpansOnePerEntry([x]);
    assert Spans([x]) == [a];
    NativePassIsLeftToRight(msg, [x], [a]);
    assert [a][1..] == [];
  }

  /** Two emotes in reading order: both are replaced and the text around them is kept. */
  lemma TwoEmotes(msg: string, id1: string, s1: nat, e1: nat, id2: string, s2: nat, e2: nat)
    requires s1 <= e1 < s2 <= e2 < |msg|
    ensures WellFormedEmotes([EmoteEntry(id1, [RangeText(s1, e1)]), EmoteEntry(id2, [RangeText(s2, e2)])])
    ensures NativeResult(msg, Some([EmoteEntry(id1, [RangeText(s1, e1)]), EmoteEntry(id2, [RangeText(s2, e2)])]))
         == msg[..s1] + NativeTag(id1) + msg[e1 + 1..s2] + NativeTag(id2) + msg[e2 + 1..]
  {
    RangeRoundTrip(s1, e1);
    RangeRoundTrip(s2, e2);
    TwoEmotesTexts(msg, id1, RangeText(s1, e1), s1, e1, id2, RangeText(s2, e2), s2, e2);
  }

  /** The same, for any range texts that parse to the two ranges. */
  lemma TwoEmotesTexts(msg: string, id1: string, r1: string, s1: nat, e1: nat, id2: string, r2: string, s2: nat, e2: nat)
    requires s1 <= e1 < s2 <= e2 < |msg|
    requires WellFormedRange(r1) && ParseRange(r1) == (s1, e1)
    requires WellFormedRange(r2) && ParseRange(r2) == (s2, e2)
    ensures WellFormedEmotes([EmoteEntry(id1, [r1]), EmoteEntry(id2, [r2])])
    ensures NativeResult(msg, Some([EmoteEntry(id1, [r1]), EmoteEntry(id2, [r2])]))
         == msg[..s1] + NativeTag(id1) + msg[e1 + 1..s2] + NativeTag(id2) + msg[e2 + 1..]
  {
    var x, y := EmoteEntry(id1, [r1]), EmoteEntry(id2, [r2]);
    SpansOfTwo(x, y);
    NativeTwo(msg, x, y, s1, e1 + 1, NativeTag(id1), s2, e2 + 1, NativeTag(id2));
  }

  /** The native pass over two entries whose spans lie in reading order. */
  lemma NativeTwo(msg: string, x: EmoteEntry, y: EmoteEntry, start1: nat, end1: nat, tag1: string,
                  start2: nat, end2: nat, tag2: string)
    requires WellFormedEmotes([x, y]) && OrderedRanges([x, y])
    requires Spans([x, y]) == [Span(start1, end1, tag1), Span(start2, end2, tag2)]
    requires start1 <= end1 <= start2 <= end2 <= |msg|
    ensures NativeResult(msg, Some([x, y])) == msg[..start1] + tag1 + msg[end1..start2] + tag2 + msg[end2..]
  {
    var a, b := Span(start1, end1, tag1), Span(start2, end2, tag2);
    RenderTwo(msg, a, b);
    NativePassIsLeftToRight(msg, [x, y], [a, b]);
  }

  lemma SpansOfTwo(x: EmoteEntry, y: EmoteEntry)
    requires |x.ranges| > 0 && WellFormedRange(x.ranges[0])
    requires |y.ranges| > 0 && WellFormedRange(y.ranges[0])
    ensures WellFormedEmotes([x, y])
    ensures Spans([x, y]) == [EntrySpan(x), EntrySpan(y)]
  {
    SpansOnePerEntry([x, y]);
  }

  lemma SpansOfThree(x: EmoteEntry, y: EmoteEntry, z: EmoteEntry)
    requires |x.ranges| > 0 && WellFormedRange(x.ranges[0])
    requires |y.ranges| > 0 && WellFormedRange(y.ranges[0])
    requires |z.ranges| > 0 && WellFormedRange(z.ranges[0])
    ensures WellFormedEmotes([x, y, z])
    ensures Spans([x, y, z]) == [EntrySpan(x), EntrySpan(y), EntrySpan(z)]
  {
    SpansOnePerEntry([x, y, z]);
  }

  /** Three entries, whatever order they are listed in, give the same three spans. */
  lemma ThreeEntriesSpans(x: EmoteEntry, y: EmoteEntry, z: EmoteEntry)
    requires |x.ranges| > 0 && WellFormedRange(x.ranges[0])
    requires |y.ranges| > 0 && WellFormedRange(y.ranges[0])
    requires |z.ranges| > 0 && WellFormedRange(z.ranges[0])
    requires EntrySpan(x).start < EntrySpan(x).end && EntrySpan(y).start < EntrySpan(y).end
    requires EntrySpan(z).start < EntrySpan(z).end
    ensures WellFormedEmotes([y, z, x]) && OrderedRanges([y, z, x])
    ensures multiset([EntrySpan(x), EntrySpan(y), EntrySpan(z)]) == multiset(Spans([y, z, x]))
  {
    SpansOfThree(y, z, x);
    RotatedSpans(EntrySpan(x), EntrySpan(y), EntrySpan(z));
    OrderedOfThree(y, z, x);
  }

  /** Three entries whose first ranges are each in order. */
  lemma OrderedOfThree(x: EmoteEntry, y: EmoteEntry, z: EmoteEntry)
    requires |x.ranges| > 0 && WellFormedRange(x.ranges[0])
    requires |y.ranges| > 0 && WellFormedRange(y.ranges[0])
    requires |z.ranges| > 0 && WellFormedRange(z.ranges[0])
    requires ParseRange(x.ranges[0]).0 <= ParseRange(x.ranges[0]).1
    requires ParseRange(y.ranges[0]).0 <= ParseRange(y.ranges[0]).1
    requires ParseRange(z.ranges[0]).0 <= ParseRange(z.ranges[0]).1
    ensures WellFormedEmotes([x, y, z]) && OrderedRanges([x, y, z])
  {
    var e := [x, y, z];
    assert e[0] == x && e[1] == y && e[2] == z;
  }

  /** Listing three spans from the second on gives the same multiset. */
  lemma RotatedSpans(a: Span, b: Span, c: Span)
    ensures multiset([a, b, c]) == multiset([b, c, a])
  {
  }

  /** Three emotes, whatever order they are listed in, are replaced in reading order. */
  lemma ThreeEmotesOutOfOrder(msg: string, x: EmoteEntry, y: EmoteEntry, z: EmoteEntry)
    requires |x.ranges| > 0 && WellFormedRange(x.ranges[0])
    requires |y.ranges| > 0 && WellFormedRange(y.ranges[0])
    requires |z.ranges| > 0 && WellFormedRange(z.ranges[0])
    requires EntrySpan(x).start < EntrySpan(x).end <= EntrySpan(y).start < EntrySpan(y).end
    requires EntrySpan(y).end <= EntrySpan(z).start < EntrySpan(z).end <= |msg|
    ensures WellFormedEmotes([y, z, x]) && Laid([EntrySpan(x), EntrySpan(y), EntrySpan(z)], 0, |msg|)
    ensures NativeResult(msg, Some([y, z, x])) == Render(msg, [EntrySpan(x), EntrySpan(y), EntrySpan(z)], 0)
  {
    ThreeEntriesSpans(x, y, z);
    RenderThree(msg, EntrySpan(x), EntrySpan(y), EntrySpan(z));
    NativePassIsLeftToRight(msg, [y, z, x], [EntrySpan(x), EntrySpan(y), EntrySpan(z)]);
  }

  /** The first range of each entry spells its bounds, under the given id. */
  lemma LiteralEntrySpan(id: string, r: string, s: nat, e: nat)
    requires r == RangeText(s, e)
    ensures |EmoteEntry(id, [r]).ranges| > 0 && WellFormedRange(EmoteEntry(id, [r]).ranges[0])
    ensures EntrySpan(EmoteEntry(id, [r])) == Span(s, e + 1, NativeTag(id))
  {
    EntrySpanOf(id, s, e, []);
    assert [r] + [] == [r];
  }

  lemma ReadingOrderRanges()
    ensures RangeText(17, 24) == "17-24" && RangeText(27, 29) == "27-29" && RangeText(4, 6) == "4-6"
  {
    assert DecimalText(17) == "17" && DecimalText(24) == "24" && DecimalText(27) == "27" && DecimalText(29) == "29";
  }

  lemma ReadingOrderPieces()
    ensures |"Ok, LUL, this is BabyRage? BOP"| == 30
    ensures var msg := "Ok, LUL, this is BabyRage? BOP";
      msg[..4] == "Ok, " && msg[7..17] == ", this is " && msg[25..27] == "? " && msg[30..] == ""
  {
    ReadingOrderHead();
    ReadingOrderTail();
  }

  lemma ReadingOrderHead()
    ensures var msg := "Ok, LUL, this is BabyRage? BOP";
      |msg| == 30 && msg[..4] == "Ok, " && msg[7..17] == ", this is "
  {
    var msg := "Ok, LUL, this is BabyRage? BOP";
    assert msg == "Ok, " + "LUL" + ", this is " + "BabyRage? BOP";
  }

  lemma ReadingOrderTail()
    ensures var msg := "Ok, LUL, this is BabyRage? BOP";
      |msg| == 30 && msg[25..27] == "? " && msg[30..] == ""
  {
    var msg := "Ok, LUL, this is BabyRage? BOP";
    assert msg == "Ok, LUL, this is BabyRage" + "? " + "BOP";
  }

  /** "Ok, LUL, this is BabyRage? BOP" with 456 at 17-24, 789 at 27-29 and 123 at 4-6. */
  lemma ThreeEmotesInReadingOrder()
    ensures WellFormedEmotes([EmoteEntry("456", ["17-24"]), EmoteEntry("789", ["27-29"]), EmoteEntry("123", ["4-6"])])
    ensures NativeResult("Ok, LUL, this is BabyRage? BOP",
                         Some([EmoteEntry("456", ["17-24"]), EmoteEntry("789", ["27-29"]), EmoteEntry("123", ["4-6"])]))
         == "Ok, " + NativeTag("123") + ", this is " + NativeTag("456") + "? " + NativeTag("789")
  {
    var msg := "Ok, LUL, this is BabyRage? BOP";
    var x, y, z := EmoteEntry("123", ["4-6"]), EmoteEntry("456", ["17-24"]), EmoteEntry("789", ["27-29"]);
    ReadingOrderRanges();
    LiteralEntrySpan("123", "4-6", 4, 6);
    LiteralEntrySpan("456", "17-24", 17, 24);
    LiteralEntrySpan("789", "27-29", 27, 29);
    ReadingOrderPieces();
    ThreeEmotesOutOfOrder(msg, x, y, z);
    RenderThree(msg, EntrySpan(x), EntrySpan(y), EntrySpan(z));
  }

  /** "🤦🏾‍♀️ LUL" with 456 at 6-8: the five-codepoint emoji in front is kept whole. */
  lemma EmojiBeforeEmoteKept()
    ensures WellFormedEmotes([EmoteEntry("456", ["6-8"])])
    ensures NativeResult("\U{1F926}\U{1F3FE}\U{200D}\U{2640}\U{FE0F} LUL", Some([EmoteEntry("456", ["6-8"])]))
         == "\U{1F926}\U{1F3FE}\U{200D}\U{2640}\U{FE0F} " + NativeTag("456")
  {
    var msg := "\U{1F926}\U{1F3FE}\U{200D}\U{2640}\U{FE0F} LUL";
    EmojiAroundRanges();
    EmojiBeforePieces();
    OneEmote(msg, "456", 6, 8);
  }

  lemma EmojiBeforePieces()
    ensures |"\U{1F926}\U{1F3FE}\U{200D}\U{2640}\U{FE0F} LUL"| == 9
    ensures var msg := "\U{1F926}\U{1F3FE}\U{200D}\U{2640}\U{FE0F} LUL";
      msg[..6] == "\U{1F926}\U{1F3FE}\U{200D}\U{2640}\U{FE0F} " && msg[9..] == ""
  {
    var msg := "\U{1F926}\U{1F3FE}\U{200D}\U{2640}\U{FE0F} LUL";
    assert msg == "\U{1F926}\U{1F3FE}\U{200D}\U{2640}\U{FE0F} " + "LUL";
  }

  lemma EmojiAroundRanges()
    ensures RangeText(6, 8) == "6-8" && RangeText(16, 17) == "16-17"
  {
    assert DecimalText(16) == "16" && DecimalText(17) == "17";
  }

  lemma EmojiAroundPieces()
    ensures |"\U{1F926}\U{1F3FE}\U{200D}\U{2640}\U{FE0F} LUL \U{1F469}\U{200D}\U{1F469}\U{200D}\U{1F467} :O and test"| == 27
    ensures var msg := "\U{1F926}\U{1F3FE}\U{200D}\U{2640}\U{FE0F} LUL \U{1F469}\U{200D}\U{1F469}\U{200D}\U{1F467} :O and test";
      && msg[..6] == "\U{1F926}\U{1F3FE}\U{200D}\U{2640}\U{FE0F} "
      && msg[9..16] == " \U{1F469}\U{200D}\U{1F469}\U{200D}\U{1F467} "
      && msg[18..] == " and test"
  {
    var msg := "\U{1F926}\U{1F3FE}\U{200D}\U{2640}\U{FE0F} LUL \U{1F469}\U{200D}\U{1F469}\U{200D}\U{1F467} :O and test";
    assert msg == "\U{1F926}\U{1F3FE}\U{200D}\U{2640}\U{FE0F} " + "LUL" + " \U{1F469}\U{200D}\U{1F469}\U{200D}\U{1F467} "
                  + ":O" + " and test";
  }

  /** "🤦🏾‍♀️ LUL 👩‍👩‍👧 :O and test" with 425618 at 6-8 and 555555580 at 16-17. */
  lemma EmojiAroundTwoEmotesKept()
    ensures WellFormedEmotes([EmoteEntry("425618", ["6-8"]), EmoteEntry("555555580", ["16-17"])])
    ensures NativeResult("\U{1F926}\U{1F3FE}\U{200D}\U{2640}\U{FE0F} LUL \U{1F469}\U{200D}\U{1F469}\U{200D}\U{1F467} :O and test",
                         Some([EmoteEntry("425618", ["6-8"]), EmoteEntry("555555580", ["16-17"])]))
         == "\U{1F926}\U{1F3FE}\U{200D}\U{2640}\U{FE0F} " + NativeTag("425618")
            + " \U{1F469}\U{200D}\U{1F469}\U{200D}\U{1F467} " + NativeTag("555555580") + " and test"
  {
    var msg := "\U{1F926}\U{1F3FE}\U{200D}\U{2640}\U{FE0F} LUL \U{1F469}\U{200D}\U{1F469}\U{200D}\U{1F467} :O and test";
    EmojiAroundRanges();
    EmojiAroundPieces();
    TwoEmotes(msg, "425618", 6, 8, "555555580", 16, 17);
  }

  /** The two pass-through cases: no emote map at all, and an empty one. */
  lemma AbsentOrEmptyMapPassesThrough()
    ensures NativeResult("Ok, LUL, this is BabyRage? BOP", None) == "Ok, LUL, this is BabyRage? BOP"
    ensures NativeResult("Ok, LUL, this is BabyRage? BOP", Some([])) == "Ok, LUL, this is BabyRage? BOP"
  {
    NoEmotesNoChange("Ok, LUL, this is BabyRage? BOP");
  }
}
