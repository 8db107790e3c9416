/**
 * Integer literals as Python's `int(text, 0)` reads them, and the
 * zero-padded lower-case hexadecimal of `%0Nx`.
 */
module Literals {
  import opened Wrappers

  /** The value of a digit character in bases up to 16; 16 for any other character. */
  function DigitValue(c: char): (d: nat)
    ensures d <= 16
  {
    if '0' <= c <= '9' then (c - '0') as nat
    else if 'a' <= c <= 'f' then (c - 'a') as nat + 10
    else if 'A' <= c <= 'F' then (c - 'A') as nat + 10
    else 16
  }

  predicate AllDigits(s: string, base: nat)
  {
    forall i :: 0 <= i < |s| ==> DigitValue(s[i]) < base
  }

  /** The number that the digits `s` denote in `base`, most significant first. */
  function DigitsValue(s: string, base: nat): nat
  {
    if s == [] then 0
    else DigitsValue(s[..|s| - 1], base) * base + DigitValue(s[|s| - 1])
  }

  /** A non-empty run of digits of `base`, or nothing. */
  function ParseDigits(s: string, base: nat): Option<nat>
  {
    if |s| > 0 && AllDigits(s, base) then Some(DigitsValue(s, base)) else None
  }

  predicate AllZeros(s: string)
  {
    forall i :: 0 <= i < |s| ==> s[i] == '0'
  }

  /**
   * An unsigned literal with base 0: `0x`/`0X` hexadecimal, `0o`/`0O`
   * octal, `0b`/`0B` binary, otherwise decimal, where a leading zero is
   * allowed only when every digit is zero.
   */
  function ParseUnsigned(s: string): Option<nat>
  {
    if |s| >= 2 && s[0] == '0' && (s[1] == 'x' || s[1] == 'X') then ParseDigits(s[2..], 16)
    else if |s| >= 2 && s[0] == '0' && (s[1] == 'o' || s[1] == 'O') then ParseDigits(s[2..], 8)
    else if |s| >= 2 && s[0] == '0' && (s[1] == 'b' || s[1] == 'B') then ParseDigits(s[2..], 2)
    else if |s| > 0 && s[0] == '0' && !AllZeros(s) then None
    else ParseDigits(s, 10)
  }

  /**
   * `int(s, 0)` for ASCII text: an optional sign followed by an unsigned
   * literal; `None` where Python rejects such text. Non-ASCII decimal digits,
   * underscores, surrounding whitespace and the limit on the length of long
   * decimal literals are not modelled.
   */
  function ParseInt(s: string): Option<int>
  {
    if |s| > 0 && s[0] == '-' then
      match ParseUnsigned(s[1..])
      case None => None
      case Some(n) => Some(-(n as int))
    else if |s| > 0 && s[0] == '+' then
      match ParseUnsigned(s[1..])
      case None => None
      case Some(n) => Some(n)
    else
      match ParseUnsigned(s)
      case None => None
      case Some(n) => Some(n)
  }

  /** A digit as `%x` writes it: a decimal digit or a lower-case letter `a` to `f`. */
  predicate LowerHex(c: char)
  {
    '0' <= c <= '9' || 'a' <= c <= 'f'
  }

  /** Lower-case hexadecimal digit of `d`. */
  function HexChar(d: nat): (c: char)
    requires d < 16
    ensures DigitValue(c) == d
  {
    if d < 10 then ('0' as int + d) as char else ('a' as int + d - 10) as char
  }

  function Pow(b: nat, e: nat): (p: nat)
    ensures p >= 1 || b == 0
  {
    if e == 0 then 1 else b * Pow(b, e - 1)
  }

  lemma {:induction false} PowAdd(b: nat, e1: nat, e2: nat)
    ensures Pow(b, e1 + e2) == Pow(b, e1) * Pow(b, e2)
  {
    if e1 > 0 {
      PowAdd(b, e1 - 1, e2);
      calc {
        Pow(b, e1 + e2);
        b * Pow(b, (e1 - 1) + e2);
        b * (Pow(b, e1 - 1) * Pow(b, e2));
        (b * Pow(b, e1 - 1)) * Pow(b, e2);
      }
    }
  }

  /** Sixteen hexadecimal digits hold every value below `2^32` (and up to `2^64`). */
  lemma SixteenHexDigits()
    ensures Pow(16, 16) == 0x1_0000_0000_0000_0000
  {
    assert Pow(16, 2) == 0x100;
    PowAdd(16, 2, 2);
    PowAdd(16, 4, 4);
    PowAdd(16, 8, 8);
  }

  /** `"%0*x" % (w, v)` for a `v` that fits in `w` digits: the low `w` hexadecimal digits of `v`. */
  function HexDigits(v: nat, w: nat): string
  {
    if w == 0 then "" else HexDigits(v / 16, w - 1) + [HexChar(v % 16)]
  }

  /** The `w` digits written for `v` are hexadecimal digits and read back as `v`. */
  lemma {:induction false} HexDigitsValue(v: nat, w: nat)
    requires v < Pow(16, w)
    ensures |HexDigits(v, w)| == w
    ensures AllDigits(HexDigits(v, w), 16)
    ensures DigitsValue(HexDigits(v, w), 16) == v
  {
    if w > 0 {
      var h := HexDigits(v, w);
      assert v / 16 < Pow(16, w - 1);
      HexDigitsValue(v / 16, w - 1);
      assert h[..|h| - 1] == HexDigits(v / 16, w - 1);
      assert DigitValue(h[|h| - 1]) == v % 16;
    }
  }

  /** Every digit written for `v` is a decimal digit or a lower-case letter, as `%x` prints them. */
  lemma {:induction false} HexDigitsLowerCase(v: nat, w: nat)
    ensures |HexDigits(v, w)| == w
    ensures forall i :: 0 <= i < w ==> LowerHex(HexDigits(v, w)[i])
  {
    if w > 0 {
      HexDigitsLowerCase(v / 16, w - 1);
      var h := HexDigits(v, w);
      assert h == HexDigits(v / 16, w - 1) + [HexChar(v % 16)];
      assert LowerHex(HexChar(v % 16));
      forall i | 0 <= i < w
        ensures LowerHex(h[i])
      {
        if i < w - 1 {
          assert h[i] == HexDigits(v / 16, w - 1)[i];
        }
      }
    }
  }

  /** A hexadecimal literal `0x` + the digits written for `v` reads back as `v`. */
  lemma HexLiteralRoundTrip(v: nat, w: nat)
    requires 0 < w && v < Pow(16, w)
    ensures |HexDigits(v, w)| == w
    ensures ParseInt("0x" + HexDigits(v, w)) == Some(v)
  {
    HexDigitsValue(v, w);
    var s := "0x" + HexDigits(v, w);
    assert s[2..] == HexDigits(v, w);
    assert ParseUnsigned(s) == Some(v);
  }
}
