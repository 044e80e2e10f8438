/** The one-time code of the password-reset flow. The server draws an integer
    with `Math.floor(100000 + Math.random() * 900000)` and sends its decimal
    text (`toString()`); the model takes the drawn integer as an `OtpPick`
    and proves that its text is always six decimal digits and that the text
    determines the integer. */
module OtpCode {

  const OTP_MIN := 100000
  const OTP_MAX := 999999

  /** An integer the random draw can produce. */
  type OtpPick = n: int | OTP_MIN <= n <= OTP_MAX witness OTP_MIN

  predicate IsDigit(c: char)
  {
    '0' <= c <= '9'
  }

  predicate IsDigitString(s: string)
  {
    forall i :: 0 <= i < |s| ==> IsDigit(s[i])
  }

  /** A code of the shape the server stores and mails: six decimal digits. */
  predicate IsOtpCode(s: string)
  {
    |s| == 6 && IsDigitString(s)
  }

  function DigitChar(d: int): (c: char)
    requires 0 <= d < 10
    ensures IsDigit(c) && c as int - '0' as int == d
  {
    ('0' as int + d) as char
  }

  function DigitValue(c: char): (d: nat)
    requires IsDigit(c)
    ensures d < 10 && DigitChar(d) == c
  {
    c as int - '0' as int
  }

  /** `n.toString()` for a non-negative integer: most significant digit first,
      no leading zeros. */
  function DecimalString(n: nat): (s: string)
    ensures 1 <= |s| && IsDigitString(s)
    decreases n
  {
    if n < 10 then [DigitChar(n)] else DecimalString(n / 10) + [DigitChar(n % 10)]
  }

  /** The number a string of decimal digits denotes. */
  function DecimalValue(s: string): (n: nat)
    requires IsDigitString(s)
    decreases |s|
  {
    if s == [] then 0 else 10 * DecimalValue(s[..|s| - 1]) + DigitValue(s[|s| - 1])
  }

  ghost function Pow10(k: nat): (p: nat)
    ensures p >= 1
  {
    if k == 0 then 1 else 10 * Pow10(k - 1)
  }

  /** Reading back the decimal text of `n` gives `n`. */
  lemma {:induction false} DecimalRoundTrip(n: nat)
    ensures DecimalValue(DecimalString(n)) == n
    decreases n
  {
    var s := DecimalString(n);
    if n >= 10 {
      DecimalRoundTrip(n / 10);
      assert s[..|s| - 1] == DecimalString(n / 10);
    }
  }

  /** A number with k + 1 digits has a decimal text of length k + 1. */
  lemma {:induction false} DecimalLength(n: nat, k: nat)
    requires Pow10(k) <= n < Pow10(k + 1)
    ensures |DecimalString(n)| == k + 1
    decreases k
  {
    if k > 0 {
      DecimalLength(n / 10, k - 1);
    }
  }

  /** The text of a drawn code: always six digits, and it reads back as the
      drawn integer. */
  function OtpString(pick: OtpPick): (code: string)
    ensures IsOtpCode(code)
    ensures DecimalValue(code) == pick
  {
    assert Pow10(5) == OTP_MIN && Pow10(6) == OTP_MAX + 1;
    DecimalLength(pick, 5);
    DecimalRoundTrip(pick);
    DecimalString(pick)
  }

  /** Distinct draws give distinct codes, so a fresh code never equals a
      stale one unless the draw repeats. */
  lemma OtpStringInjective(p: OtpPick, q: OtpPick)
    ensures OtpString(p) == OtpString(q) <==> p == q
  {
  }
}
