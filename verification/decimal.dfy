/**
 * Decimal rendering and reading of integers, shared by the one-time-code
 * generator (`ToString("D6")`), the client's `padStart(2, '0')` clock format and
 * the `S{season}E{episode}` titles.
 */
module Decimal {

  predicate IsDigit(c: char) {
    '0' <= c <= '9'
  }

  predicate IsDigits(s: string) {
    forall i :: 0 <= i < |s| ==> IsDigit(s[i])
  }

  function DigitChar(d: nat): (c: char)
    requires d < 10
    ensures IsDigit(c)
  {
    ['0', '1', '2', '3', '4', '5', '6', '7', '8', '9'][d]
  }

  function DigitValue(c: char): (d: nat)
    requires IsDigit(c)
    ensures d < 10
  {
    (c as int - '0' as int) as nat
  }

  lemma DigitRoundTrip(d: nat)
    requires d < 10
    ensures DigitValue(DigitChar(d)) == d
  {
  }

  function Pow10(k: nat): (p: nat)
    ensures p >= 1
  {
    if k == 0 then 1 else 10 * Pow10(k - 1)
  }

  /** Shortest decimal rendering of a natural number, as `int.ToString()` gives it. */
  function NatToString(n: nat): string
    decreases n
  {
    if n < 10 then [DigitChar(n)] else NatToString(n / 10) + [DigitChar(n % 10)]
  }

  /** `int.ToString()` with the invariant culture's minus sign. */
  function IntToString(i: int): string {
    if i < 0 then "-" + NatToString(-i) else NatToString(i)
  }

  /** The number a string of decimal digits denotes, most significant digit first. */
  function DecimalValue(s: string): nat
    requires IsDigits(s)
    decreases |s|
  {
    if |s| == 0 then 0 else 10 * DecimalValue(s[..|s| - 1]) + DigitValue(s[|s| - 1])
  }

  function Zeros(k: nat): (z: string)
    ensures |z| == k && IsDigits(z)
  {
    if k == 0 then "" else "0" + Zeros(k - 1)
  }

  /** JavaScript's `padStart(width, '0')` and the zero padding of C#'s `D<width>` format. */
  function PadZeros(s: string, width: nat): (r: string)
    ensures |s| >= width ==> r == s
    ensures |s| < width ==> |r| == width && r == Zeros(width - |s|) + s
  {
    if |s| >= width then s else Zeros(width - |s|) + s
  }

  lemma {:induction false} NatToStringDigits(n: nat)
    ensures IsDigits(NatToString(n)) && |NatToString(n)| >= 1
    decreases n
  {
    if n >= 10 {
      NatToStringDigits(n / 10);
    }
  }

  /** Reading back the rendering gives the number: the decimal round trip. */
  lemma {:induction false} NatToStringRoundTrip(n: nat)
    ensures IsDigits(NatToString(n))
    ensures DecimalValue(NatToString(n)) == n
    decreases n
  {
    NatToStringDigits(n);
    var s := NatToString(n);
    if n < 10 {
      DigitRoundTrip(n);
    } else {
      NatToStringRoundTrip(n / 10);
      assert s[..|s| - 1] == NatToString(n / 10);
      DigitRoundTrip(n % 10);
    }
  }

  /** A rendering is at most `k` characters long exactly when the number is below 10^k. */
  lemma {:induction false} NatToStringLength(n: nat, k: nat)
    requires k >= 1
    ensures |NatToString(n)| <= k <==> n < Pow10(k)
    decreases n
  {
    if n >= 10 {
      if k == 1 {
        NatToStringDigits(n / 10);
      } else {
        NatToStringLength(n / 10, k - 1);
      }
    }
  }

  lemma {:induction false} ZerosValue(k: nat)
    ensures DecimalValue(Zeros(k)) == 0
    decreases k
  {
    if k > 0 {
      var z := Zeros(k);
      assert z[..|z| - 1] == Zeros(k - 1) by {
        ZerosPrefix(k);
      }
      ZerosValue(k - 1);
    }
  }

  lemma {:induction false} ZerosPrefix(k: nat)
    requires k > 0
    ensures Zeros(k)[..k - 1] == Zeros(k - 1)
    ensures Zeros(k)[k - 1] == '0'
    decreases k
  {
    if k > 1 {
      ZerosPrefix(k - 1);
      assert Zeros(k) == "0" + Zeros(k - 1);
    }
  }

  /** Leading zeros do not change the value of a digit string. */
  lemma {:induction false} LeadingZerosValue(k: nat, s: string)
    requires IsDigits(s)
    ensures IsDigits(Zeros(k) + s)
    ensures DecimalValue(Zeros(k) + s) == DecimalValue(s)
    decreases |s|
  {
    var t := Zeros(k) + s;
    if |s| == 0 {
      assert t == Zeros(k);
      ZerosValue(k);
    } else {
      LeadingZerosValue(k, s[..|s| - 1]);
      assert t[..|t| - 1] == Zeros(k) + s[..|s| - 1];
      assert t[|t| - 1] == s[|s| - 1];
    }
  }

  /** Zero-padding a rendering keeps its value and yields digits only. */
  lemma PaddedRoundTrip(n: nat, width: nat)
    ensures IsDigits(PadZeros(NatToString(n), width))
    ensures DecimalValue(PadZeros(NatToString(n), width)) == n
    ensures |PadZeros(NatToString(n), width)| >= width
  {
    NatToStringRoundTrip(n);
    var s := NatToString(n);
    if |s| < width {
      LeadingZerosValue(width - |s|, s);
    }
  }

  /** Below 10^width, the zero-padded rendering has exactly `width` characters. */
  lemma PaddedLength(n: nat, width: nat)
    requires width >= 1 && n < Pow10(width)
    ensures |PadZeros(NatToString(n), width)| == width
  {
    NatToStringLength(n, width);
  }

  lemma DigitCharOfValue(c: char)
    requires IsDigit(c)
    ensures DigitChar(DigitValue(c)) == c
  {
  }

  lemma {:induction false} DecimalValueBound(s: string)
    requires IsDigits(s)
    ensures DecimalValue(s) < Pow10(|s|)
    decreases |s|
  {
    if |s| > 0 {
      DecimalValueBound(s[..|s| - 1]);
    }
  }

  lemma {:induction false} ZeroValueIsZeros(s: string)
    requires IsDigits(s) && DecimalValue(s) == 0
    ensures s == Zeros(|s|)
    decreases |s|
  {
    if |s| > 0 {
      var n := |s|;
      var p, d := s[..n - 1], s[n - 1];
      assert IsDigits(p);
      assert DecimalValue(s) == 10 * DecimalValue(p) + DigitValue(d);
      assert DecimalValue(p) == 0 && DigitValue(d) == 0;
      ZeroValueIsZeros(p);
      DigitCharOfValue(d);
      assert d == '0';
      ZerosPrefix(n);
      var z := Zeros(n);
      assert s == p + [d];
      assert z == z[..n - 1] + [z[n - 1]];
    }
  }

  /**
   * Rendering the value of a non-empty digit string and padding it back to the
   * string's width gives the string itself: no two digit strings of the same
   * width share a value.
   */
  lemma {:induction false} PaddedRenderingOfValue(s: string)
    requires IsDigits(s) && |s| >= 1
    ensures PadZeros(NatToString(DecimalValue(s)), |s|) == s
    decreases |s|
  {
    var p := s[..|s| - 1];
    var d := s[|s| - 1];
    var v := DecimalValue(p);
    var n := DecimalValue(s);
    assert s == p + [d];
    DigitCharOfValue(d);
    if v == 0 {
      ZeroValueIsZeros(p);
      assert NatToString(n) == [d];
    } else {
      assert |p| >= 1;
      assert n / 10 == v && n % 10 == DigitValue(d);
      assert NatToString(n) == NatToString(v) + [d];
      PaddedRenderingOfValue(p);
      DecimalValueBound(p);
      NatToStringLength(v, |p|);
      var w := NatToString(v);
      if |w| < |p| {
        assert PadZeros(w + [d], |s|) == Zeros(|p| - |w|) + w + [d];
      }
    }
  }
}
