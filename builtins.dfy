/** The JavaScript built-ins the core relies on, over exact reals and
    unbounded integers: Math.ceil/floor/abs/max, the `%` operator,
    `String(n)` for a non-negative integer, `padStart` and `toFixed(0)`. */
module Builtins {

  function Ceil(x: real): (r: int)
    ensures r as real - 1.0 < x <= r as real
  {
    -((-x).Floor)
  }

  /** Rounds toward zero: the quotient JavaScript's `%` truncates, as
      `Math.trunc` does. */
  function Trunc(x: real): (r: int)
    ensures 0.0 <= x ==> r as real <= x < r as real + 1.0
    ensures x < 0.0 ==> r as real - 1.0 < x <= r as real
  {
    if x >= 0.0 then x.Floor else Ceil(x)
  }

  function Abs(n: int): (r: nat)
    ensures r == n || r == -n
  {
    if n < 0 then -n else n
  }

  function MaxReal(a: real, b: real): (r: real)
    ensures r >= a && r >= b && (r == a || r == b)
  {
    if a >= b then a else b
  }

  function MinNat(a: nat, b: nat): (r: nat)
    ensures r <= a && r <= b && (r == a || r == b)
  {
    if a <= b then a else b
  }

  /** JavaScript's `x % y`: the remainder takes the sign of the dividend. */
  function JsRem(x: real, y: real): (r: real)
    requires y != 0.0
  {
    x - y * Trunc(x / y) as real
  }

  // ---- decimal text ----

  predicate IsDigit(c: char) {
    '0' <= c <= '9'
  }

  /** Every character is a decimal digit (checked from the last one back). */
  predicate AllDigits(s: string) {
    s == [] || (AllDigits(s[..|s| - 1]) && IsDigit(s[|s| - 1]))
  }

  lemma {:induction false} AllDigitsIff(s: string)
    ensures AllDigits(s) <==> forall i :: 0 <= i < |s| ==> IsDigit(s[i])
  {
    if s != [] {
      var t := s[..|s| - 1];
      AllDigitsIff(t);
      assert forall i :: 0 <= i < |t| ==> t[i] == s[i];
    }
  }

  function DigitChar(d: nat): (c: char)
    requires d < 10
    ensures IsDigit(c) && c as int - '0' as int == d
  {
    ('0' as int + d) as char
  }

  function Pow10(k: nat): (r: nat)
    ensures r >= 1
  {
    if k == 0 then 1 else 10 * Pow10(k - 1)
  }

  /** `String(n)` for a non-negative integer: its shortest decimal text. */
  function NatToString(n: nat): (r: string)
    ensures |r| >= 1 && AllDigits(r)
    decreases n
  {
    if n < 10 then [DigitChar(n)] else NatToString(n / 10) + [DigitChar(n % 10)]
  }

  /** `String(n)` is the shortest text: k digits exactly when
      10^(k-1) <= n < 10^k, and "0" for zero. */
  lemma {:induction false} NatToStringLength(n: nat)
    ensures var r := NatToString(n);
      Pow10(|r| - 1) <= n < Pow10(|r|) || (n == 0 && r == "0")
    decreases n
  {
    if n >= 10 {
      NatToStringLength(n / 10);
    }
  }

  /** The number a string of decimal digits denotes (leading zeros allowed). */
  function DecimalValue(s: string): nat
    requires AllDigits(s)
  {
    if s == [] then 0
    else 10 * DecimalValue(s[..|s| - 1]) + (s[|s| - 1] as int - '0' as int)
  }

  /** Reading back `String(n)` gives `n`. */
  lemma {:induction false} DecimalRoundTrip(n: nat)
    ensures DecimalValue(NatToString(n)) == n
    decreases n
  {
    var r := NatToString(n);
    if n >= 10 {
      DecimalRoundTrip(n / 10);
      assert r[..|r| - 1] == NatToString(n / 10);
    }
  }

  function Repeat(c: char, k: nat): (r: string)
    ensures |r| == k
  {
    if k == 0 then [] else [c] + Repeat(c, k - 1)
  }

  lemma {:induction false} RepeatChars(c: char, k: nat)
    ensures forall i :: 0 <= i < k ==> Repeat(c, k)[i] == c
  {
    if k > 0 {
      RepeatChars(c, k - 1);
    }
  }

  /** The first digit of a digit string, and the digits after it. */
  lemma DigitsSplit(s: string)
    requires AllDigits(s) && s != []
    ensures IsDigit(s[0]) && AllDigits(s[1..])
  {
    AllDigitsIff(s);
    AllDigitsIff(s[1..]);
  }

  /** `s.padStart(width, fill)` with a single fill character: never truncates. */
  function PadStart(s: string, width: nat, fill: char): string {
    if |s| >= width then s else Repeat(fill, width - |s|) + s
  }

  /** `padStart` reaches the width, keeps the text as its suffix and fills
      the front with the fill character. */
  lemma PadStartShape(s: string, width: nat, fill: char)
    ensures var r := PadStart(s, width, fill);
      && |r| == (if |s| >= width then |s| else width)
      && r[|r| - |s|..] == s
      && forall i :: 0 <= i < |r| - |s| ==> r[i] == fill
  {
    if |s| < width {
      RepeatChars(fill, width - |s|);
    }
  }

  /** Leading zeros do not change the value a digit string denotes. */
  lemma {:induction false} LeadingZeros(k: nat, s: string)
    requires AllDigits(s)
    ensures AllDigits(Repeat('0', k) + s)
    ensures DecimalValue(Repeat('0', k) + s) == DecimalValue(s)
    decreases |s|
  {
    var z := Repeat('0', k);
    if s == [] {
      assert z + s == z;
      ZerosValue(k);
    } else {
      LeadingZeros(k, s[..|s| - 1]);
      assert (z + s)[..|z + s| - 1] == z + s[..|s| - 1];
    }
  }

  lemma {:induction false} ZerosValue(k: nat)
    ensures AllDigits(Repeat('0', k)) && DecimalValue(Repeat('0', k)) == 0
  {
    if k > 0 {
      ZerosValue(k - 1);
      var z := Repeat('0', k);
      RepeatChars('0', k);
      RepeatChars('0', k - 1);
      assert z[..k - 1] == Repeat('0', k - 1);
    }
  }

  /** `String(n).padStart(2, '0')`. */
  function Pad2(n: nat): string {
    PadStart(NatToString(n), 2, '0')
  }

  /** Two-digit padding reads back as the same number, has exactly two
      characters below 100 and never truncates a wider number. */
  lemma Pad2Value(n: nat)
    ensures AllDigits(Pad2(n)) && DecimalValue(Pad2(n)) == n
    ensures n < 100 ==> |Pad2(n)| == 2
    ensures n >= 100 ==> |Pad2(n)| >= 3 && Pad2(n) == NatToString(n)
  {
    var s := NatToString(n);
    DecimalRoundTrip(n);
    NatToStringLength(n);
    if |s| < 2 {
      LeadingZeros(2 - |s|, s);
    }
  }

  /** `x.toFixed(0)`: the nearest integer (ties go up), with a sign for negatives. */
  function ToFixed0(x: real): (r: string)
  {
    if x < 0.0 then "-" + NatToString((-x + 0.5).Floor) else NatToString((x + 0.5).Floor)
  }

  /** The digits `toFixed(0)` prints for a non-negative number are those of
      the integer nearest to it. */
  lemma ToFixed0Nearest(x: real)
    requires x >= 0.0
    ensures AllDigits(ToFixed0(x))
    ensures var n := DecimalValue(ToFixed0(x)) as real; x - 0.5 < n <= x + 0.5
  {
    DecimalRoundTrip((x + 0.5).Floor);
  }

  /** A negative number prints as "-" and then its magnitude's rounding,
      so ties go away from zero and a small magnitude prints "-0". */
  lemma ToFixed0Negative(x: real)
    requires x < 0.0
    ensures ToFixed0(x) == "-" + ToFixed0(-x)
    ensures x > -0.5 ==> ToFixed0(x) == "-0"
  {
  }
}
