/**
 * The .NET string operations the services rely on: `Trim`, ordinal
 * case-insensitive equality and `Contains`.
 */
module Text {

  /** `char.IsWhiteSpace`: the Unicode space, line and paragraph separators plus U+0009..U+000D and U+0085. */
  predicate IsWhiteSpace(c: char) {
    || c == ' ' || ('\t' <= c <= '\r') || c == '\U{0085}' || c == '\U{00A0}'
    || c == '\U{1680}' || ('\U{2000}' <= c <= '\U{200A}') || c == '\U{2028}' || c == '\U{2029}'
    || c == '\U{202F}' || c == '\U{205F}' || c == '\U{3000}'
  }

  predicate AllWhiteSpace(s: string) {
    forall i :: 0 <= i < |s| ==> IsWhiteSpace(s[i])
  }

  function TrimStart(s: string): (r: string)
    ensures |r| <= |s|
    decreases |s|
  {
    if |s| > 0 && IsWhiteSpace(s[0]) then TrimStart(s[1..]) else s
  }

  function TrimEnd(s: string): (r: string)
    ensures |r| <= |s|
    decreases |s|
  {
    if |s| > 0 && IsWhiteSpace(s[|s| - 1]) then TrimEnd(s[..|s| - 1]) else s
  }

  /** `string.Trim()`. */
  function Trim(s: string): string {
    TrimEnd(TrimStart(s))
  }

  /** Upper-casing of the ASCII letters; every other character is kept. */
  function UpperAscii(c: char): char {
    if 'a' <= c <= 'z' then (c as int - 32) as char else c
  }

  function ToUpperAscii(s: string): (r: string)
    ensures |r| == |s|
    ensures forall i :: 0 <= i < |s| ==> r[i] == UpperAscii(s[i])
  {
    seq(|s|, i requires 0 <= i < |s| => UpperAscii(s[i]))
  }

  /** `string.Equals(a, b, StringComparison.OrdinalIgnoreCase)`, with case folding of ASCII letters. */
  predicate EqualsIgnoreCase(a: string, b: string) {
    ToUpperAscii(a) == ToUpperAscii(b)
  }

  /** `haystack.Contains(needle)`: an ordinal substring test. */
  predicate Contains(haystack: string, needle: string) {
    exists i | 0 <= i <= |haystack| - |needle| :: OccursAt(haystack, needle, i)
  }

  predicate OccursAt(haystack: string, needle: string, i: int) {
    0 <= i <= |haystack| - |needle| && haystack[i..i + |needle|] == needle
  }

  lemma ContainsEmpty(haystack: string)
    ensures Contains(haystack, "")
  {
    assert OccursAt(haystack, "", 0);
  }

  lemma {:induction false} TrimStartAllWhite(s: string)
    requires AllWhiteSpace(s)
    ensures TrimStart(s) == ""
    decreases |s|
  {
    if |s| > 0 {
      TrimStartAllWhite(s[1..]);
    }
  }

  /** Leading white space is dropped by `TrimStart`. */
  lemma {:induction false} TrimStartPrefix(w: string, x: string)
    requires AllWhiteSpace(w)
    ensures TrimStart(w + x) == TrimStart(x)
    decreases |w|
  {
    if |w| > 0 {
      assert IsWhiteSpace(w[0]) && (w + x)[0] == w[0];
      assert (w + x)[1..] == w[1..] + x;
      assert TrimStart(w + x) == TrimStart(w[1..] + x);
      TrimStartPrefix(w[1..], x);
    } else {
      assert w + x == x;
    }
  }

  /** Trailing white space is dropped by `TrimEnd`. */
  lemma {:induction false} TrimEndSuffix(x: string, w: string)
    requires AllWhiteSpace(w)
    ensures TrimEnd(x + w) == TrimEnd(x)
    decreases |w|
  {
    if |w| > 0 {
      assert IsWhiteSpace(w[|w| - 1]) && (x + w)[|x + w| - 1] == w[|w| - 1];
      assert (x + w)[..|x + w| - 1] == x + w[..|w| - 1];
      assert TrimEnd(x + w) == TrimEnd(x + w[..|w| - 1]);
      TrimEndSuffix(x, w[..|w| - 1]);
    } else {
      assert x + w == x;
    }
  }

  lemma {:induction false} TrimSuffix(x: string, w: string)
    requires AllWhiteSpace(w)
    ensures Trim(x + w) == Trim(x)
    decreases |x|
  {
    if |x| == 0 {
      assert x + w == w;
      TrimStartAllWhite(w);
    } else if IsWhiteSpace(x[0]) {
      assert (x + w)[1..] == x[1..] + w;
      TrimSuffix(x[1..], w);
    } else {
      TrimEndSuffix(x, w);
    }
  }

  /** `Trim` ignores white space added on either side. */
  lemma TrimSurrounded(w1: string, x: string, w2: string)
    requires AllWhiteSpace(w1) && AllWhiteSpace(w2)
    ensures Trim(w1 + x + w2) == Trim(x)
  {
    assert w1 + x + w2 == w1 + (x + w2);
    TrimStartPrefix(w1, x + w2);
    TrimSuffix(x, w2);
  }

  lemma {:induction false} TrimStartUpper(s: string)
    ensures TrimStart(ToUpperAscii(s)) == ToUpperAscii(TrimStart(s))
    decreases |s|
  {
    if |s| > 0 && IsWhiteSpace(s[0]) {
      assert ToUpperAscii(s)[1..] == ToUpperAscii(s[1..]);
      TrimStartUpper(s[1..]);
    }
  }

  lemma {:induction false} TrimEndUpper(s: string)
    ensures TrimEnd(ToUpperAscii(s)) == ToUpperAscii(TrimEnd(s))
    decreases |s|
  {
    if |s| > 0 && IsWhiteSpace(s[|s| - 1]) {
      assert ToUpperAscii(s)[..|s| - 1] == ToUpperAscii(s[..|s| - 1]);
      TrimEndUpper(s[..|s| - 1]);
    }
  }

  /** Upper-casing commutes with trimming, since no white-space character is a letter. */
  lemma TrimUpper(s: string)
    ensures Trim(ToUpperAscii(s)) == ToUpperAscii(Trim(s))
  {
    TrimStartUpper(s);
    TrimEndUpper(TrimStart(s));
  }

  lemma UpperIdempotent(s: string)
    ensures ToUpperAscii(ToUpperAscii(s)) == ToUpperAscii(s)
  {
  }
}
