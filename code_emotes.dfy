/**
 * The three code stages of src/emotes.js:76-167 (BTTV global, BTTV channel,
 * FFZ channel), as one stage parametrised by the provider whose tag it writes.
 * The pattern `\b<escaped code>\b` with flag "g" is modelled by its matcher:
 * the literal code with a word boundary on both sides, found left to right
 * without overlap, every boundary judged on the string being replaced.
 */
module CodeEmotes {
  import opened Splicing
  import opened LookupTables

  datatype Provider = Bttv | Ffz

  const BttvUrlPrefix: string := "https://cdn.betterttv.net/emote"
  const FfzUrlPrefix: string := "https://cdn.betterttv.net/frankerfacez_emote"

  /** The tag written for a matched code: `/2x` for BTTV, `/2` for FFZ. */
  function CodeTag(p: Provider, id: string): string
  {
    match p
    case Bttv => "<img src=\"" + BttvUrlPrefix + "/" + id + "/2x\" />"
    case Ffz => "<img src=\"" + FfzUrlPrefix + "/" + id + "/2\" />"
  }

  // ------------------------------------------------------------- matching

  /** A word character of `\b` without the `u` flag: [A-Za-z0-9_]. */
  predicate IsWordChar(c: char)
  {
    ('a' <= c <= 'z') || ('A' <= c <= 'Z') || ('0' <= c <= '9') || c == '_'
  }

  /** A word character at position p; outside the string there is none. */
  predicate WordAt(s: string, p: int)
  {
    0 <= p < |s| && IsWordChar(s[p])
  }

  /** `\b` at position p: word-ness differs on the two sides. */
  predicate IsBoundary(s: string, p: int)
  {
    WordAt(s, p - 1) != WordAt(s, p)
  }

  predicate OccursAt(s: string, k: string, p: int)
  {
    0 <= p && p + |k| <= |s| && s[p..p + |k|] == k
  }

  /** `s.includes(k)`. */
  predicate Includes(s: string, k: string)
  {
    exists p | 0 <= p <= |s| - |k| :: OccursAt(s, k, p)
  }

  /** `\b code \b` matches at p. */
  predicate WholeWordAt(s: string, code: string, p: int)
  {
    OccursAt(s, code, p) && IsBoundary(s, p) && IsBoundary(s, p + |code|)
  }

  /**
   * The positions a global search finds from `from` on: the first position
   * where the pattern matches, then the search resumes after the match.
   */
  function Matches(s: string, code: string, from: nat): (ms: seq<nat>)
    requires |code| > 0 && from <= |s|
    ensures forall i :: 0 <= i < |ms| ==> from <= ms[i] && WholeWordAt(s, code, ms[i])
    ensures forall i, j :: 0 <= i < j < |ms| ==> ms[i] + |code| <= ms[j]
    decreases |s| - from
  {
    if from + |code| > |s| then []
    else if WholeWordAt(s, code, from) then [from] + Matches(s, code, from + |code|)
    else Matches(s, code, from + 1)
  }

  lemma MatchesHit(s: string, code: string, from: nat)
    requires |code| > 0 && from + |code| <= |s| && WholeWordAt(s, code, from)
    ensures Matches(s, code, from) == [from] + Matches(s, code, from + |code|)
  {
  }

  lemma MatchesMiss(s: string, code: string, from: nat)
    requires |code| > 0 && from + |code| <= |s| && !WholeWordAt(s, code, from)
    ensures Matches(s, code, from) == Matches(s, code, from + 1)
  {
  }

  /** No match is missed: every whole-word occurrence is found or lies inside a found one. */
  predicate Covered(ms: seq<nat>, n: nat, q: int)
  {
    exists i :: 0 <= i < |ms| && ms[i] <= q < ms[i] + n
  }

  lemma CoveredCons(m: nat, rest: seq<nat>, n: nat, q: int)
    requires Covered(rest, n, q) || m <= q < m + n
    ensures Covered([m] + rest, n, q)
  {
    var ms := [m] + rest;
    if m <= q < m + n {
      assert ms[0] == m;
    } else {
      var i :| 0 <= i < |rest| && rest[i] <= q < rest[i] + n;
      assert ms[i + 1] == rest[i];
    }
  }

  lemma MatchesComplete(s: string, code: string, from: nat, q: int)
    requires |code| > 0 && from <= |s|
    requires from <= q && WholeWordAt(s, code, q)
    ensures Covered(Matches(s, code, from), |code|, q)
  {
    MatchesIsScan(s, code, from);
    ScanComplete(Hits(s, code), |code|, from, q);
  }

  /** Where the pattern matches: position p of the table says whether it matches at p. */
  function Hits(s: string, code: string): (h: seq<bool>)
    requires |code| > 0
    ensures |h| == if |code| <= |s| then |s| - |code| + 1 else 0
    ensures forall p :: 0 <= p < |h| ==> h[p] == WholeWordAt(s, code, p)
  {
    if |code| <= |s| then seq(|s| - |code| + 1, p requires 0 <= p <= |s| - |code| => WholeWordAt(s, code, p))
    else []
  }

  /** The greedy scan over a table of match positions, for a pattern of length n. */
  function Scan(h: seq<bool>, n: nat, from: nat): seq<nat>
    requires n > 0
    decreases |h| - from
  {
    if from >= |h| then []
    else if h[from] then [from] + Scan(h, n, from + n)
    else Scan(h, n, from + 1)
  }

  /** The scan over the table finds what the search over the string finds. */
  lemma {:induction false} MatchesIsScan(s: string, code: string, from: nat)
    requires |code| > 0 && from <= |s|
    ensures Matches(s, code, from) == Scan(Hits(s, code), |code|, from)
    decreases |s| - from
  {
    var h := Hits(s, code);
    if from + |code| > |s| {
    } else if WholeWordAt(s, code, from) {
      assert h[from];
      MatchesIsScan(s, code, from + |code|);
    } else {
      assert !h[from];
      MatchesIsScan(s, code, from + 1);
    }
  }

  /** The scan skips no position of the table that is marked. */
  lemma {:induction false} ScanComplete(h: seq<bool>, n: nat, from: nat, q: int)
    requires n > 0 && from <= q < |h| && h[q]
    ensures Covered(Scan(h, n, from), n, q)
    decreases |h| - from
  {
    if h[from] {
      if q >= from + n {
        ScanComplete(h, n, from + n, q);
      }
      CoveredCons(from, Scan(h, n, from + n), n, q);
    } else {
      ScanComplete(h, n, from + 1, q);
    }
  }

  /** The replacement spans of a list of match positions. */
  function MatchSpans(ms: seq<nat>, n: nat, tag: string): (spans: seq<Span>)
    ensures |spans| == |ms|
    ensures forall i :: 0 <= i < |ms| ==> spans[i] == Span(ms[i], ms[i] + n, tag)
  {
    if ms == [] then [] else [Span(ms[0], ms[0] + n, tag)] + MatchSpans(ms[1..], n, tag)
  }

  /** Matches found from `from` are laid out left to right within the string. */
  lemma {:induction false} MatchesLaid(s: string, code: string, tag: string, from: nat, ms: seq<nat>)
    requires forall i :: 0 <= i < |ms| ==> from <= ms[i] && ms[i] + |code| <= |s|
    requires forall i, j :: 0 <= i < j < |ms| ==> ms[i] + |code| <= ms[j]
    requires from <= |s|
    ensures Laid(MatchSpans(ms, |code|, tag), from, |s|)
    decreases |ms|
  {
    if ms != [] {
      assert forall i :: 0 <= i < |ms[1..]| ==> ms[1..][i] == ms[i + 1];
      MatchesLaid(s, code, tag, ms[0] + |code|, ms[1..]);
      assert MatchSpans(ms, |code|, tag)[1..] == MatchSpans(ms[1..], |code|, tag);
    }
  }

  /** `s.replaceAll(/\bcode\b/g, () => tag)`: every match replaced, the text between kept. */
  function ReplaceAllWords(s: string, code: string, tag: string): string
    requires |code| > 0
  {
    var ms := Matches(s, code, 0);
    MatchesLaid(s, code, tag, 0, ms);
    Render(s, MatchSpans(ms, |code|, tag), 0)
  }

  /** A match is an occurrence of the code. */
  lemma MatchesOccur(s: string, code: string, from: nat)
    requires |code| > 0 && from <= |s|
    ensures Matches(s, code, from) != [] ==> Includes(s, code)
  {
    var ms := Matches(s, code, from);
    if ms != [] {
      assert OccursAt(s, code, ms[0]);
    }
  }

  /** A code that does not occur leaves the string as it is. */
  lemma ReplaceAllWithoutOccurrence(s: string, code: string, tag: string)
    requires |code| > 0 && !Includes(s, code)
    ensures ReplaceAllWords(s, code, tag) == s
  {
    MatchesOccur(s, code, 0);
  }

  // ---------------------------------------------------------------- stage

  /** Every code of the key list is non-empty and has an entry. */
  predicate CodesInTable(table: map<string, EmoteData>, codes: seq<string>)
  {
    forall i :: 0 <= i < |codes| ==> |codes[i]| > 0 && codes[i] in table
  }

  /** `codes.every(code => !message.includes(code))`. */
  predicate NoCodeFound(s: string, codes: seq<string>)
  {
    forall i :: 0 <= i < |codes| ==> !Includes(s, codes[i])
  }

  /** The `forEach` over the codes: each replaceAll runs on the previous one's result. */
  function ApplyCodes(s: string, table: map<string, EmoteData>, codes: seq<string>, p: Provider): string
    requires CodesInTable(table, codes)
    decreases |codes|
  {
    if codes == [] then s
    else
      var code := codes[|codes| - 1];
      ReplaceAllWords(ApplyCodes(s, table, codes[..|codes| - 1], p), code, CodeTag(p, table[code].id))
  }

  /** One code stage, with its shortcut for a message that contains no code. */
  function CodeStage(s: string, table: LookupTable, p: Provider): string
    requires CodesInTable(table.entries, table.keys)
  {
    if NoCodeFound(s, table.keys) then s else ApplyCodes(s, table.entries, table.keys, p)
  }

  /** The shortcut is only a shortcut: the general loop returns the message unchanged too. */
  lemma {:induction false} FastPathAgrees(s: string, table: map<string, EmoteData>, codes: seq<string>, p: Provider)
    requires CodesInTable(table, codes) && NoCodeFound(s, codes)
    ensures ApplyCodes(s, table, codes, p) == s
    decreases |codes|
  {
    if codes != [] {
      var n := |codes| - 1;
      FastPathAgrees(s, table, codes[..n], p);
      ReplaceAllWithoutOccurrence(s, codes[n], CodeTag(p, table[codes[n]].id));
    }
  }

  /** Hence the stage as a whole equals the general loop. */
  lemma CodeStageIsLoop(s: string, table: LookupTable, p: Provider)
    requires CodesInTable(table.entries, table.keys)
    ensures CodeStage(s, table, p) == ApplyCodes(s, table.entries, table.keys, p)
  {
    if NoCodeFound(s, table.keys) {
      FastPathAgrees(s, table.entries, table.keys, p);
    }
  }

  /** A stage with no codes is the identity. */
  lemma EmptyTableNoChange(s: string, p: Provider)
    ensures CodesInTable(EmptyTable.entries, EmptyTable.keys)
    ensures CodeStage(s, EmptyTable, p) == s
  {
  }

  /** One more turn of the `forEach`. */
  lemma ApplyCodesStep(s: string, table: map<string, EmoteData>, codes: seq<string>, i: nat, p: Provider)
    requires CodesInTable(table, codes) && i < |codes|
    ensures CodesInTable(table, codes[..i]) && CodesInTable(table, codes[..i + 1])
    ensures ApplyCodes(s, table, codes[..i + 1], p)
         == ReplaceAllWords(ApplyCodes(s, table, codes[..i], p), codes[i], CodeTag(p, table[codes[i]].id))
  {
    assert codes[..i + 1][..i] == codes[..i];
    assert forall j :: 0 <= j < i + 1 ==> codes[..i + 1][j] == codes[j];
  }

  /** `replaceBTTVGlobalEmotes` and its two siblings, given the table the cache returned. */
  method ReplaceCodeEmotes(message: string, table: LookupTable, p: Provider) returns (result: string)
    requires CodesInTable(table.entries, table.keys)
    ensures result == CodeStage(message, table, p)
  {
    if NoCodeFound(message, table.keys) {
      return message;
    }
    result := message;
    for i := 0 to |table.keys|
      invariant CodesInTable(table.entries, table.keys[..i])
      invariant result == ApplyCodes(message, table.entries, table.keys[..i], p)
    {
      var code := table.keys[i];
      ApplyCodesStep(message, table.entries, table.keys, i, p);
      result := ReplaceAllWords(result, code, CodeTag(p, table.entries[code].id));
    }
    assert table.keys[..|table.keys|] == table.keys;
  }

  // -------------------------------------------------------------- the tags

  /** A tag names exactly one id. */
  lemma CodeTagInjective(p: Provider, a: string, b: string)
    requires CodeTag(p, a) == CodeTag(p, b)
    ensures a == b
  {
    var head := if p.Bttv? then "<img src=\"" + BttvUrlPrefix + "/" else "<img src=\"" + FfzUrlPrefix + "/";
    var tail := if p.Bttv? then "/2x\" />" else "/2\" />";
    assert CodeTag(p, a) == head + a + tail && CodeTag(p, b) == head + b + tail;
    assert a == CodeTag(p, a)[|head|..|head| + |a|];
  }

  /** A BTTV tag is never an FFZ tag. */
  lemma ProvidersTagsDiffer(a: string, b: string)
    ensures CodeTag(Bttv, a) != CodeTag(Ffz, b)
  {
    assert CodeTag(Bttv, a)[36] == 'e';
    assert CodeTag(Ffz, b)[36] == 'f';
  }
}
