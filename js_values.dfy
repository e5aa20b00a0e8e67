/**
 * The few JavaScript value semantics the application leans on: the
 * remainder operator `%`, the truthiness of strings and optional values,
 * `Number.prototype.toString` on integers and `String.prototype.padStart`.
 */
module JsValues {
  import opened Wrappers

  /**
   * JavaScript's `a % n` on integers. The quotient is truncated toward
   * zero, so the remainder takes the sign of the dividend (`-7 % 6` is
   * `-1`, and `-6 % 6` is `-0`, which is the number 0 here).
   */
  function Rem(a: int, n: int): int
    requires n > 0
  {
    if a >= 0 then a % n else -((-a) % n)
  }

  /** A string is truthy iff it is not empty. */
  predicate StringTruthy(s: string)
  {
    s != ""
  }

  /** An optional string (`undefined`/`null` or a string) is truthy iff it holds a non-empty string. */
  predicate OptionalStringTruthy(o: Option<string>)
  {
    o.Some? && StringTruthy(o.value)
  }

  /** An optional number is truthy iff it holds a number other than 0. */
  predicate OptionalNumberTruthy(o: Option<int>)
  {
    o.Some? && o.value != 0
  }

  predicate IsDigit(c: char)
  {
    '0' <= c <= '9'
  }

  predicate AllDigits(s: string)
  {
    forall i :: 0 <= i < |s| ==> IsDigit(s[i])
  }

  function DigitChar(d: int): (c: char)
    requires 0 <= d < 10
    ensures IsDigit(c) && c as int - '0' as int == d
  {
    ('0' as int + d) as char
  }

  function DigitValue(c: char): (d: int)
    requires IsDigit(c)
    ensures 0 <= d < 10 && DigitChar(d) == c
  {
    c as int - '0' as int
  }

  /** Decimal rendering of a natural number, without leading zeros. */
  function NatToString(n: nat): string
  {
    if n < 10 then [DigitChar(n)] else NatToString(n / 10) + [DigitChar(n % 10)]
  }

  /** The rendering is a non-empty string of digits, one digit exactly below 10, with no leading zero. */
  lemma {:induction false} NatToStringDigits(n: nat)
    ensures var s := NatToString(n);
      |s| >= 1 && AllDigits(s) && (n < 10 <==> |s| == 1) && (s[0] == '0' ==> n == 0)
  {
    if n >= 10 {
      NatToStringDigits(n / 10);
    }
  }

  /** `n.toString()` for an integer `n`. */
  function IntToString(n: int): string
  {
    if n < 0 then "-" + NatToString(-n) else NatToString(n)
  }

  /** A number renders as plain digits exactly when it is not negative, and otherwise starts with a minus sign. */
  lemma IntToStringSign(n: int)
    ensures var s := IntToString(n);
      |s| >= 1 && (n >= 0 <==> AllDigits(s)) && (n < 0 <==> s[0] == '-')
  {
    NatToStringDigits(if n < 0 then -n else n);
    if n < 0 {
      assert !IsDigit(IntToString(n)[0]);
    }
  }

  /** The number a string of decimal digits denotes. */
  function ParseNat(s: string): nat
    requires AllDigits(s)
  {
    if s == [] then 0 else 10 * ParseNat(s[..|s| - 1]) + DigitValue(s[|s| - 1])
  }

  /** Reading back what NatToString wrote gives the number again. */
  lemma {:induction false} ParseNatToString(n: nat)
    ensures AllDigits(NatToString(n))
    ensures ParseNat(NatToString(n)) == n
  {
    var s := NatToString(n);
    NatToStringDigits(n);
    if n >= 10 {
      NatToStringDigits(n / 10);
      ParseNatToString(n / 10);
      assert s[..|s| - 1] == NatToString(n / 10);
    }
  }

  /** A two-digit string denotes the number its digits spell out. */
  lemma ParseTwoDigits(s: string)
    requires |s| == 2 && AllDigits(s)
    ensures ParseNat(s) == 10 * DigitValue(s[0]) + DigitValue(s[1])
  {
    assert s[..1][..0] == [];
    assert ParseNat(s[..1]) == DigitValue(s[0]);
  }

  /**
   * `s.padStart(width, fill)`: `s` preceded by as many copies of `fill`
   * as it takes to reach `width` characters.
   */
  function PadStart(s: string, width: nat, fill: char): string
  {
    if |s| >= width then s else seq(width - |s|, _ => fill) + s
  }

  /** The padded string is `width` long (or `s` itself when already that long), ends with `s` and starts with fill characters. */
  lemma PadStartShape(s: string, width: nat, fill: char)
    ensures var r := PadStart(s, width, fill);
      |r| == (if |s| >= width then |s| else width) &&
      r[|r| - |s|..] == s &&
      forall i :: 0 <= i < |r| - |s| ==> r[i] == fill
  {
  }
}
