/**
 * The inlined `escape-string-regexp` of dist/browser.js:1-6: two global
 * replaces, the first putting a backslash before each of the fourteen
 * metacharacters, the second writing each '-' as `\x2d`.
 */
module RegexEscape {

  /** The class `[|\\{}()[\]^$+*?.]` of the first replace. */
  predicate IsMetaChar(c: char)
  {
    c == '|' || c == '\\' || c == '{' || c == '}' || c == '(' || c == ')' || c == '['
    || c == ']' || c == '^' || c == '$' || c == '+' || c == '*' || c == '?' || c == '.'
  }

  /** A character either replace rewrites. */
  predicate IsSpecial(c: char)
  {
    IsMetaChar(c) || c == '-'
  }

  const HyphenEscape: string := "\\x2d"

  /** `.replace(/[|\\{}()[\]^$+*?.]/g, "\\$&")`. */
  function EscapeMeta(s: string): (r: string)
    ensures |s| <= |r| <= 2 * |s|
    ensures (forall i :: 0 <= i < |s| ==> !IsMetaChar(s[i])) ==> r == s
    decreases |s|
  {
    if s == [] then []
    else (if IsMetaChar(s[0]) then ['\\', s[0]] else [s[0]]) + EscapeMeta(s[1..])
  }

  /** `.replace(/-/g, "\\x2d")`. */
  function EscapeHyphens(s: string): string
    decreases |s|
  {
    if s == [] then []
    else (if s[0] == '-' then HyphenEscape else [s[0]]) + EscapeHyphens(s[1..])
  }

  /** The exported function. */
  function EscapeStringRegexp(s: string): string
  {
    EscapeHyphens(EscapeMeta(s))
  }

  /** The reference: what one character becomes. */
  function EscapeChar(c: char): (r: string)
    ensures IsMetaChar(c) ==> r == ['\\', c]
    ensures c == '-' ==> r == "\\x2d"
    ensures !IsSpecial(c) ==> r == [c]
  {
    if IsMetaChar(c) then ['\\', c] else if c == '-' then HyphenEscape else [c]
  }

  /** Escaping character by character, concatenated. */
  function EscapeEach(s: string): string
    decreases |s|
  {
    if s == [] then [] else EscapeChar(s[0]) + EscapeEach(s[1..])
  }

  lemma {:induction false} EscapeHyphensConcat(a: string, b: string)
    ensures EscapeHyphens(a + b) == EscapeHyphens(a) + EscapeHyphens(b)
    decreases |a|
  {
    if a == [] {
      assert a + b == b;
    } else {
      assert (a + b)[0] == a[0] && (a + b)[1..] == a[1..] + b;
      EscapeHyphensConcat(a[1..], b);
    }
  }

  /**
   * The two replaces together are the per-character map: the backslashes the
   * first one writes are never touched by the second, which only sees '-'.
   */
  lemma {:induction false} EscapeIsPerCharacter(s: string)
    ensures EscapeStringRegexp(s) == EscapeEach(s)
    decreases |s|
  {
    if s != [] {
      var head := if IsMetaChar(s[0]) then ['\\', s[0]] else [s[0]];
      EscapeHyphensConcat(head, EscapeMeta(s[1..]));
      if IsMetaChar(s[0]) {
        assert EscapeHyphens(head) == head by {
          assert head[1..] == [s[0]];
          assert EscapeHyphens([s[0]]) == [s[0]] + EscapeHyphens([]);
        }
      } else {
        assert EscapeHyphens(head) == EscapeHyphens([s[0]]) == EscapeChar(s[0]) + EscapeHyphens([]);
      }
      EscapeIsPerCharacter(s[1..]);
    }
  }

  lemma {:induction false} EscapeEachConcat(a: string, b: string)
    ensures EscapeEach(a + b) == EscapeEach(a) + EscapeEach(b)
    decreases |a|
  {
    if a == [] {
      assert a + b == b;
    } else {
      assert (a + b)[0] == a[0] && (a + b)[1..] == a[1..] + b;
      EscapeEachConcat(a[1..], b);
    }
  }

  /** escape(a + b) == escape(a) + escape(b). */
  lemma EscapeConcat(a: string, b: string)
    ensures EscapeStringRegexp(a + b) == EscapeStringRegexp(a) + EscapeStringRegexp(b)
  {
    EscapeIsPerCharacter(a + b);
    EscapeIsPerCharacter(a);
    EscapeIsPerCharacter(b);
    EscapeEachConcat(a, b);
  }

  /** A string with none of the fifteen special characters is returned as it is. */
  lemma EscapePlainIdentity(s: string)
    requires forall i :: 0 <= i < |s| ==> !IsSpecial(s[i])
    ensures EscapeStringRegexp(s) == s
  {
    EscapeIsPerCharacter(s);
    PlainEachIdentity(s);
  }

  lemma {:induction false} PlainEachIdentity(s: string)
    requires forall i :: 0 <= i < |s| ==> !IsSpecial(s[i])
    ensures EscapeEach(s) == s
    decreases |s|
  {
    if s != [] {
      assert forall i :: 0 <= i < |s[1..]| ==> s[1..][i] == s[i + 1];
      PlainEachIdentity(s[1..]);
    }
  }

  /** Reading an escaped pattern back: `\x2d` is '-', a backslash and a character is that character. */
  function Unescape(p: string): string
    decreases |p|
  {
    if |p| >= 4 && p[..4] == HyphenEscape then ['-'] + Unescape(p[4..])
    else if |p| >= 2 && p[0] == '\\' then [p[1]] + Unescape(p[2..])
    else if p == [] then []
    else [p[0]] + Unescape(p[1..])
  }

  /** No information is lost: the escaped pattern denotes exactly the original text. */
  lemma UnescapeRoundTrip(s: string)
    ensures Unescape(EscapeStringRegexp(s)) == s
  {
    EscapeIsPerCharacter(s);
    UnescapeEach(s);
  }

  lemma {:induction false} UnescapeEach(s: string)
    ensures Unescape(EscapeEach(s)) == s
    decreases |s|
  {
    if s != [] {
      var rest := EscapeEach(s[1..]);
      assert EscapeEach(s) == EscapeChar(s[0]) + rest;
      UnescapeHead(s[0], rest);
      UnescapeEach(s[1..]);
      assert s == [s[0]] + s[1..];
    }
  }

  /** Reading back one escaped character in front of any text. */
  lemma UnescapeHead(c: char, rest: string)
    ensures Unescape(EscapeChar(c) + rest) == [c] + Unescape(rest)
  {
    if IsMetaChar(c) {
      UnescapeBackslashed(c, rest);
    } else if c == '-' {
      var p := HyphenEscape + rest;
      assert p[..4] == HyphenEscape && p[4..] == rest;
    } else {
      var p := [c] + rest;
      assert p[0] == c && p[1..] == rest;
    }
  }

  /** A backslash and a metacharacter read back as that character. */
  lemma UnescapeBackslashed(c: char, rest: string)
    requires IsMetaChar(c)
    ensures Unescape(['\\', c] + rest) == [c] + Unescape(rest)
  {
    var p := ['\\', c] + rest;
    assert p[0] == '\\' && p[1] == c && p[2..] == rest;
    assert |p| >= 4 ==> p[..4] != HyphenEscape by {
      if |p| >= 4 { assert p[..4][1] == c; }
    }
  }
}
