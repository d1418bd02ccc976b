/** Concrete cases of the whole-word matcher. */
module CodeExamples {
  import opened Splicing
  import opened NativeEmotes
  import opened CodeEmotes
  import opened NativeExamples

  lemma LulPositions()
    ensures WholeWordAt("LUL LULW LUL", "LUL", 0)
    ensures !WholeWordAt("LUL LULW LUL", "LUL", 4)
    ensures WholeWordAt("LUL LULW LUL", "LUL", 9)
  {
    var s := "LUL LULW LUL";
    assert s == "LUL" + " " + "LULW" + " " + "LUL";
    assert s[0..3] == "LUL" && s[9..12] == "LUL";
    assert s[7] == 'W';
  }

  /** Between the two whole words the pattern matches nowhere. */
  lemma LulMisses()
    ensures forall p :: 3 <= p < 9 ==> !WholeWordAt("LUL LULW LUL", "LUL", p)
  {
    var s := "LUL LULW LUL";
    assert s == "LUL" + " " + "LULW" + " " + "LUL";
    forall p | 3 <= p < 9
      ensures !WholeWordAt(s, "LUL", p)
    {
      assert s[3] == ' ' && s[5] == 'U' && s[7] == 'W' && s[8] == ' ';
      assert p + 3 <= |s| ==> s[p..p + 3][0] == s[p] && s[p..p + 3][1] == s[p + 1];
    }
  }

  /** From the space after the first word, the scan skips to the last word. */
  lemma LulMatchesFrom3()
    ensures Matches("LUL LULW LUL", "LUL", 3) == [9]
  {
    var s := "LUL LULW LUL";
    LulPositions();
    LulMisses();
    MatchesMiss(s, "LUL", 3);
    MatchesMiss(s, "LUL", 4);
    MatchesMiss(s, "LUL", 5);
    MatchesMiss(s, "LUL", 6);
    MatchesMiss(s, "LUL", 7);
    MatchesMiss(s, "LUL", 8);
    MatchesHit(s, "LUL", 9);
  }

  lemma LulMatches()
    ensures Matches("LUL LULW LUL", "LUL", 0) == [0, 9]
  {
    LulPositions();
    MatchesHit("LUL LULW LUL", "LUL", 0);
    LulMatchesFrom3();
  }

  lemma LulPieces()
    ensures |"LUL LULW LUL"| == 12
    ensures var s := "LUL LULW LUL"; s[..0] == [] && s[3..9] == " LULW " && s[12..] == []
  {
    var s := "LUL LULW LUL";
    assert s == "LUL" + " LULW " + "LUL";
  }

  /** "LUL" inside "LULW" is left alone; the two whole words are replaced. */
  lemma LulNotInsideLulw(tag: string)
    ensures ReplaceAllWords("LUL LULW LUL", "LUL", tag) == tag + " LULW " + tag
  {
    var s := "LUL LULW LUL";
    var a, b := Span(0, 3, tag), Span(9, 12, tag);
    LulMatches();
    LulSpans(tag);
    LulPieces();
    RenderTwo(s, a, b);
    EmptyEnds(tag, " LULW ");
  }

  /** Empty untouched ends add nothing to a rendering. */
  lemma EmptyEnds(tag: string, middle: string)
    ensures [] + tag + middle + tag + [] == tag + middle + tag
  {
  }

  /** The spans of the two matches. */
  lemma LulSpans(tag: string)
    ensures MatchSpans([0, 9], 3, tag) == [Span(0, 3, tag), Span(9, 12, tag)]
  {
  }

  /**
   * A code whose edges are not word characters needs word characters around
   * it: ":)" is found between two letters and not between two spaces.
   */
  lemma NonWordCodeNeedsWordNeighbours()
    ensures WholeWordAt("a:)b", ":)", 1)
    ensures !WholeWordAt(" :) ", ":)", 1)
  {
    assert "a:)b"[1..3] == ":)";
    assert " :) "[1..3] == ":)";
  }

  /** A later code can match inside a tag an earlier stage inserted: "img" is a whole word there. */
  lemma CodeMatchesInsideNativeTag(id: string)
    ensures WholeWordAt(NativeTag(id), "img", 1)
    ensures Covered(Matches(NativeTag(id), "img", 0), 3, 1)
  {
    ImgInsideNativeTag(id);
    MatchesComplete(NativeTag(id), "img", 0, 1);
  }

  /** Every native tag opens with `<img ` whatever the id. */
  lemma ImgInsideNativeTag(id: string)
    ensures |NativeTag(id)| > 4
    ensures WholeWordAt(NativeTag(id), "img", 1)
  {
    var t := NativeTag(id);
    assert t == "<img " + (t[5..]);
    assert t[0] == '<' && t[1..4] == "img" && t[4] == ' ';
  }
}
