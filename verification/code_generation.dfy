/**
 * The one-time-code service shared by two-factor login and password reset:
 * a six-digit code drawn from a 32-bit random value, a lenient comparison
 * helper, and the expiry test.
 */
module CodeGeneration {
  import opened Wrappers
  import opened Decimal
  import opened Text
  import opened Clock

  const Int32Min: int := -0x8000_0000
  const Int32Max: int := 0x7fff_ffff

  /** The random source's four bytes, read as a signed 32-bit integer. */
  type Int32 = x: int | Int32Min <= x <= Int32Max

  const CodeLength: nat := 6
  const CodeModulus: nat := 1_000_000

  /** Default lifetime of a code, in minutes. */
  const DefaultExpiryMinutes: int := 10

  /** `Math.Abs(int)`, which throws `OverflowException` for `int.MinValue`. */
  function Abs32(x: Int32): (r: Result<Int32>)
    ensures r.Err? <==> x == Int32Min
    ensures r.Ok? ==> r.value >= 0 && (r.value == x || r.value == -x)
  {
    if x == Int32Min then Err(Overflow) else Ok(if x < 0 then -x else x)
  }

  /** `number.ToString("D6")`. */
  function FormatD6(n: nat): string {
    PadZeros(NatToString(n), CodeLength)
  }

  predicate IsSixDigitCode(s: string) {
    |s| == CodeLength && IsDigits(s)
  }

  /**
   * `GenerateSecureCode`: |random| mod 10^6 written as exactly six digits.
   * The one input `Math.Abs` rejects makes the generator fail.
   */
  function GenerateSecureCode(random: Int32): (r: Result<string>)
    ensures r.Err? <==> random == Int32Min
    ensures r.Err? ==> r.error == Overflow
    ensures r.Ok? ==> IsSixDigitCode(r.value)
    ensures r.Ok? ==> DecimalValue(r.value) == (if random < 0 then -random else random) % CodeModulus
  {
    var abs :- Abs32(random);
    var number := abs % CodeModulus;
    PaddedRoundTrip(number, CodeLength);
    PaddedLength(number, CodeLength);
    Ok(FormatD6(number))
  }

  /** Every six-digit code is produced by some random value: the generator misses no code. */
  lemma GeneratorReachesEveryCode(code: string)
    requires IsSixDigitCode(code)
    ensures DecimalValue(code) <= Int32Max
    ensures GenerateSecureCode(DecimalValue(code)) == Ok(code)
  {
    var n := DecimalValue(code);
    assert n < CodeModulus by {
      DecimalValueBound(code);
      assert Pow10(6) == 1_000_000;
    }
    assert FormatD6(n) == code by {
      PaddedRenderingOfValue(code);
    }
    assert Abs32(n) == Ok(n) && n % CodeModulus == n;
  }

  /** Codes are compared by value: two generated codes are equal exactly when their numbers are. */
  lemma GeneratedCodesDifferByValue(r1: Int32, r2: Int32)
    requires r1 != Int32Min && r2 != Int32Min
    ensures GenerateSecureCode(r1) == GenerateSecureCode(r2)
        <==> (if r1 < 0 then -r1 else r1) % CodeModulus == (if r2 < 0 then -r2 else r2) % CodeModulus
  {
  }

  /**
   * `ValidateCode`: false when either side is null or empty, otherwise equality
   * of the trimmed strings ignoring letter case. No login or reset flow calls it;
   * they compare codes with `==`.
   */
  function ValidateCode(storedCode: Option<string>, inputCode: Option<string>): (r: bool)
    ensures IsNullOrEmpty(storedCode) || IsNullOrEmpty(inputCode) ==> !r
  {
    if IsNullOrEmpty(storedCode) || IsNullOrEmpty(inputCode) then false
    else EqualsIgnoreCase(Trim(storedCode.value), Trim(inputCode.value))
  }

  lemma ValidateCodeSymmetric(a: Option<string>, b: Option<string>)
    ensures ValidateCode(a, b) == ValidateCode(b, a)
  {
  }

  lemma ValidateCodeReflexive(c: string)
    requires |c| > 0
    ensures ValidateCode(Some(c), Some(c))
  {
  }

  /** White space around the typed code is ignored. */
  lemma ValidateCodeIgnoresSurroundingWhiteSpace(stored: Option<string>, w1: string, input: string, w2: string)
    requires AllWhiteSpace(w1) && AllWhiteSpace(w2) && |input| > 0
    ensures ValidateCode(stored, Some(w1 + input + w2)) == ValidateCode(stored, Some(input))
  {
    TrimSurrounded(w1, input, w2);
  }

  /** Letter case of the typed code is ignored. */
  lemma ValidateCodeIgnoresCase(stored: Option<string>, input: string)
    ensures ValidateCode(stored, Some(ToUpperAscii(input))) == ValidateCode(stored, Some(input))
  {
    TrimUpper(input);
    UpperIdempotent(Trim(input));
  }

  /** `IsCodeExpired(createdAt, expiryMinutes)` read at instant `now`. */
  predicate IsCodeExpired(createdAt: Instant, expiryMinutes: int, now: Instant) {
    now > AddMinutes(createdAt, expiryMinutes)
  }

  /** A code is still live at the last tick of its window and expired one tick later. */
  lemma ExpiryBoundary(createdAt: Instant, expiryMinutes: int)
    ensures !IsCodeExpired(createdAt, expiryMinutes, AddMinutes(createdAt, expiryMinutes))
    ensures IsCodeExpired(createdAt, expiryMinutes, AddMinutes(createdAt, expiryMinutes) + 1)
  {
  }

  /** Once expired, a code stays expired. */
  lemma ExpiryMonotone(createdAt: Instant, expiryMinutes: int, now: Instant, later: Instant)
    requires IsCodeExpired(createdAt, expiryMinutes, now) && now <= later
    ensures IsCodeExpired(createdAt, expiryMinutes, later)
  {
  }
}
