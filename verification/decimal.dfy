/** Decimal text: digit strings, left padding and the integer parsing the handlers rely on. */
module Decimal {
  import opened Wrappers

  predicate IsDigit(c: char) { '0' <= c <= '9' }

  /** The test `/^\d*$/` (ASCII digits only). */
  predicate AllDigits(s: string) { forall i :: 0 <= i < |s| ==> IsDigit(s[i]) }

  function DigitValue(c: char): (d: nat)
    requires IsDigit(c)
    ensures d < 10
  {
    c as int - '0' as int
  }

  function DigitChar(d: nat): (c: char)
    requires d < 10
    ensures IsDigit(c) && DigitValue(c) == d
  {
    ('0' as int + d) as char
  }

  function Pow10(k: nat): (p: nat)
    ensures p >= 1
  {
    if k == 0 then 1 else 10 * Pow10(k - 1)
  }

  /** The value of a digit string, most significant digit first; `""` reads as 0. */
  function ParseDigits(s: string): nat
    requires AllDigits(s)
  {
    if |s| == 0 then 0 else ParseDigits(s[..|s| - 1]) * 10 + DigitValue(s[|s| - 1])
  }

  /** The shortest decimal rendering of `n`, as JavaScript's `String(n)` writes a non-negative integer. */
  function Digits(n: nat): (s: string)
    ensures AllDigits(s) && 1 <= |s|
    ensures s[0] == '0' ==> n == 0
  {
    if n < 10 then [DigitChar(n)] else Digits(n / 10) + [DigitChar(n % 10)]
  }

  /** JavaScript's `s.padStart(width, pad)`: left-pads `s` to `width` characters, never truncates. */
  function PadStart(s: string, width: nat, pad: char): (r: string)
    ensures |s| >= width ==> r == s
    ensures |s| < width ==> |r| == width
    ensures |s| <= |r|
    ensures r[|r| - |s|..] == s
    ensures forall i :: 0 <= i < |r| - |s| ==> r[i] == pad
    decreases width - |s|
  {
    if |s| >= width then s else PadStart([pad] + s, width, pad)
  }

  /** `n` written with at least `width` digits, zero-padded on the left (the `yyyy`, `MM`, `dd` of a date format). */
  function Padded(n: nat, width: nat): (s: string)
    ensures AllDigits(s)
  {
    PadStart(Digits(n), width, '0')
  }

  /** JavaScript's `parseInt(s)` without a radix, after an optional sign: a `0x` or `0X` prefix
      reads the hexadecimal digits that follow it, anything else reads decimal digits; the value is
      that of the longest digit prefix, or `None` (NaN) when that prefix is empty. */
  function ParseIntPrefix(s: string): Option<int>
  {
    if |s| > 0 && (s[0] == '-' || s[0] == '+') then
      match UnsignedRun(s[1..])
      case None => None
      case Some(v) =>
        var signed: int := if s[0] == '-' then 0 - (v as int) else v as int;
        Some(signed)
    else
      UnsignedRun(s)
  }

  /** `0x` or `0X`, which switches `parseInt` without a radix to base 16. */
  predicate HasHexPrefix(s: string) {
    |s| >= 2 && s[0] == '0' && (s[1] == 'x' || s[1] == 'X')
  }

  /** The digits after the sign: hexadecimal behind a `0x` prefix, decimal otherwise. */
  function UnsignedRun(s: string): Option<nat> {
    if HasHexPrefix(s) then HexRun(s[2..]) else DigitRun(s)
  }

  /** The value of the longest run of digits that starts `s`, or `None` when `s` does not start with a digit. */
  function DigitRun(s: string): (r: Option<nat>)
    ensures r.None? <==> (|s| == 0 || !IsDigit(s[0]))
    ensures AllDigits(s) && |s| > 0 ==> r == Some(ParseDigits(s))
  {
    var k := PrefixLen(s);
    PrefixLenAllDigits(s);
    assert k == |s| ==> s[..k] == s;
    if k == 0 then None else Some(ParseDigits(s[..k]))
  }

  /** Length of the longest digit prefix of `s`. */
  function PrefixLen(s: string): (k: nat)
    ensures k <= |s|
    ensures AllDigits(s[..k])
    ensures k < |s| ==> !IsDigit(s[k])
  {
    if |s| == 0 || !IsDigit(s[0]) then 0
    else
      var k := 1 + PrefixLen(s[1..]);
      assert s[..k] == [s[0]] + s[1..][..k - 1];
      k
  }

  lemma {:induction false} PrefixLenAllDigits(s: string)
    ensures AllDigits(s) ==> PrefixLen(s) == |s|
  {
    if |s| > 0 && AllDigits(s) {
      PrefixLenAllDigits(s[1..]);
    }
  }

  // ---------------------------------------------------------------------------------------------
  // Hexadecimal digits, as `parseInt` reads them behind a `0x` prefix.

  predicate IsHexDigit(c: char) { IsDigit(c) || 'a' <= c <= 'f' || 'A' <= c <= 'F' }

  predicate AllHex(s: string) { forall i :: 0 <= i < |s| ==> IsHexDigit(s[i]) }

  function HexValue(c: char): (d: nat)
    requires IsHexDigit(c)
    ensures d < 16
    ensures IsDigit(c) ==> d == DigitValue(c)
  {
    if IsDigit(c) then DigitValue(c)
    else if 'a' <= c <= 'f' then c as int - 'a' as int + 10
    else c as int - 'A' as int + 10
  }

  /** The value of a hexadecimal digit string, most significant digit first. */
  function ParseHex(s: string): nat
    requires AllHex(s)
  {
    if |s| == 0 then 0 else ParseHex(s[..|s| - 1]) * 16 + HexValue(s[|s| - 1])
  }

  /** Appending a hexadecimal digit shifts the value by one place. */
  lemma ParseHexSnoc(s: string, c: char)
    requires AllHex(s) && IsHexDigit(c)
    ensures AllHex(s + [c]) && ParseHex(s + [c]) == ParseHex(s) * 16 + HexValue(c)
  {
    assert (s + [c])[..|s|] == s;
  }

  /** The value of the longest run of hexadecimal digits that starts `s`, or `None` when there is none. */
  function HexRun(s: string): (r: Option<nat>)
    ensures r.None? <==> (|s| == 0 || !IsHexDigit(s[0]))
    ensures AllHex(s) && |s| > 0 ==> r == Some(ParseHex(s))
  {
    var k := HexPrefixLen(s);
    HexPrefixLenAllHex(s);
    assert k == |s| ==> s[..k] == s;
    if k == 0 then None else Some(ParseHex(s[..k]))
  }

  /** Length of the longest hexadecimal digit prefix of `s`. */
  function HexPrefixLen(s: string): (k: nat)
    ensures k <= |s|
    ensures AllHex(s[..k])
    ensures k < |s| ==> !IsHexDigit(s[k])
  {
    if |s| == 0 || !IsHexDigit(s[0]) then 0
    else
      var k := 1 + HexPrefixLen(s[1..]);
      assert s[..k] == [s[0]] + s[1..][..k - 1];
      k
  }

  lemma {:induction false} HexPrefixLenAllHex(s: string)
    ensures AllHex(s) ==> HexPrefixLen(s) == |s|
  {
    if |s| > 0 && AllHex(s) {
      HexPrefixLenAllHex(s[1..]);
    }
  }

  // ---------------------------------------------------------------------------------------------
  // Round trips between numbers and their digit strings.

  /** Reading the concatenation of two digit strings shifts the first by the length of the second. */
  lemma {:induction false} ParseAppend(a: string, b: string)
    requires AllDigits(a) && AllDigits(b)
    ensures AllDigits(a + b)
    ensures ParseDigits(a + b) == ParseDigits(a) * Pow10(|b|) + ParseDigits(b)
  {
    var ab := a + b;
    assert AllDigits(ab) by {
      forall i | 0 <= i < |ab| ensures IsDigit(ab[i]) {
        if i < |a| { assert ab[i] == a[i]; } else { assert ab[i] == b[i - |a|]; }
      }
    }
    if |b| == 0 {
      assert ab == a;
    } else {
      var b' := b[..|b| - 1];
      assert ab[..|ab| - 1] == a + b';
      assert ab[|ab| - 1] == b[|b| - 1];
      ParseAppend(a, b');
      ShiftStep(ParseDigits(a), Pow10(|b'|), ParseDigits(b'), DigitValue(b[|b| - 1]));
    }
  }

  lemma ShiftStep(x: int, p: int, y: int, d: int)
    ensures (x * p + y) * 10 + d == x * (10 * p) + (y * 10 + d)
  {
    assert (x * p) * 10 == x * (10 * p);
  }

  /** Leading zeros do not change the value read. */
  lemma LeadingZeros(z: string, s: string)
    requires forall i :: 0 <= i < |z| ==> z[i] == '0'
    requires AllDigits(s)
    ensures AllDigits(z + s) && ParseDigits(z + s) == ParseDigits(s)
  {
    ZerosReadZero(z);
    ParseAppend(z, s);
  }

  lemma {:induction false} ZerosReadZero(z: string)
    requires forall i :: 0 <= i < |z| ==> z[i] == '0'
    ensures AllDigits(z) && ParseDigits(z) == 0
  {
    if |z| > 0 {
      ZerosReadZero(z[..|z| - 1]);
    }
  }

  /** Reading back the rendering of `n` gives `n`. */
  lemma {:induction false} ParseDigitsOfDigits(n: nat)
    ensures ParseDigits(Digits(n)) == n
  {
    if n >= 10 {
      var s := Digits(n);
      ParseDigitsOfDigits(n / 10);
      assert s[..|s| - 1] == Digits(n / 10);
    }
  }

  /** A number below `10^k` renders in at most `k` digits (for `k >= 1`). */
  lemma {:induction false} DigitsLength(n: nat, k: nat)
    requires 1 <= k && n < Pow10(k)
    ensures |Digits(n)| <= k
  {
    if n >= 10 {
      assert n / 10 < Pow10(k - 1);
      assert k - 1 != 0;
      DigitsLength(n / 10, k - 1);
    }
  }

  /** Reading back a zero-padded rendering gives the number, and the width is exact when `n` fits. */
  lemma ParsePadded(n: nat, width: nat)
    ensures ParseDigits(Padded(n, width)) == n
    ensures 1 <= width && n < Pow10(width) ==> |Padded(n, width)| == width
  {
    var s := Digits(n);
    var r := PadStart(s, width, '0');
    var z := r[..|r| - |s|];
    assert forall i :: 0 <= i < |z| ==> z[i] == '0' by {
      forall i | 0 <= i < |z| ensures z[i] == '0' {
        assert z[i] == r[i];
      }
    }
    assert r == z + s;
    LeadingZeros(z, s);
    ParseDigitsOfDigits(n);
    if 1 <= width && n < Pow10(width) {
      DigitsLength(n, width);
    }
  }
}
