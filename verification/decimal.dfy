/**
  The demo code of the fallback path: `generateOTP` draws an integer in
  [100000, 999999] and renders it with `Number#toString`, i.e. in decimal
  without leading zeros.
 */
module Decimal {
  import opened OtpText

  /** 10 to the power `k`. */
  function Pow10(k: nat): (p: nat)
    ensures p >= 1
  {
    if k == 0 then 1 else 10 * Pow10(k - 1)
  }

  /** The value of one decimal digit character. */
  function DigitValue(c: char): (d: nat)
    requires IsDigit(c)
    ensures d < 10
  {
    c as int - '0' as int
  }

  /** The character of one decimal digit. */
  function DigitChar(d: nat): (c: char)
    requires d < 10
    ensures IsDigit(c) && DigitValue(c) == d
  {
    ('0' as int + d) as char
  }

  /**
    Plain decimal rendering: digits, no leading zero unless `n` is 0. For
    integers below 2^53 this is what `Number#toString` yields (from 10^21 up
    it switches to exponent form); `generateOTP` only renders six-digit values.
   */
  function ToDecimal(n: nat): (r: string)
    ensures |r| >= 1 && AllDigits(r)
    ensures r[0] == '0' ==> n == 0
    decreases n
  {
    if n < 10 then [DigitChar(n)] else ToDecimal(n / 10) + [DigitChar(n % 10)]
  }

  /** The number a digit string denotes; the reference reading of `ToDecimal`. */
  function ParseDecimal(s: string): (n: nat)
    requires AllDigits(s)
    ensures n < Pow10(|s|)
    decreases |s|
  {
    if s == [] then 0 else 10 * ParseDecimal(s[..|s| - 1]) + DigitValue(s[|s| - 1])
  }

  /** Reading back a rendered number gives the number. */
  lemma {:induction false} DecimalRoundTrip(n: nat)
    ensures ParseDecimal(ToDecimal(n)) == n
    decreases n
  {
    if n >= 10 {
      var t := ToDecimal(n / 10);
      var r := ToDecimal(n);
      assert r == t + [DigitChar(n % 10)];
      assert r[..|r| - 1] == t;
      DecimalRoundTrip(n / 10);
    }
  }

  /** A number with exactly `k` decimal digits renders as `k` characters. */
  lemma {:induction false} DecimalLength(n: nat, k: nat)
    requires k >= 1 && Pow10(k - 1) <= n < Pow10(k)
    ensures |ToDecimal(n)| == k
    decreases k
  {
    if k > 1 {
      assert n >= 10 by {
        assert Pow10(k - 1) == 10 * Pow10(k - 2);
      }
      assert Pow10(k - 2) <= n / 10 < Pow10(k - 1) by {
        assert Pow10(k - 1) == 10 * Pow10(k - 2);
        assert Pow10(k) == 10 * Pow10(k - 1);
      }
      DecimalLength(n / 10, k - 1);
    } else {
      assert Pow10(1) == 10;
    }
  }

  /** The range of `Math.floor(Math.random() * 900000)`: the draw behind a generated code. */
  type Draw = d: nat | d < 900000

  /**
    `generateOTP`: `Math.floor(100000 + Math.random() * 900000).toString()`,
    with the random draw abstracted to `draw`. The code is six digits, has no
    leading zero and denotes 100000 + draw.
   */
  function GenerateOtp(draw: Draw): (code: string)
    ensures |code| == SlotCount && AllDigits(code)
    ensures code[0] != '0'
    ensures ParseDecimal(code) == 100000 + draw
  {
    var n := 100000 + draw;
    assert Pow10(5) == 100000 && Pow10(6) == 1000000;
    DecimalLength(n, 6);
    DecimalRoundTrip(n);
    ToDecimal(n)
  }
}
