/** Fixed-width numerals, the building block of the two text forms the service prints: the canonical text of a UUID
    (lower-case hexadecimal) and the ISO 8601 text of a timestamp (decimal, zero-padded). */
module Text {

  function Pow(base: nat, e: nat): nat {
    if e == 0 then 1 else base * Pow(base, e - 1)
  }

  lemma {:induction false} PowPositive(base: nat, e: nat)
    requires base >= 1
    ensures Pow(base, e) >= 1
  {
    if e > 0 {
      PowPositive(base, e - 1);
    }
  }

  lemma {:induction false} PowAdd(base: nat, m: nat, n: nat)
    ensures Pow(base, m + n) == Pow(base, m) * Pow(base, n)
  {
    if n > 0 {
      PowAdd(base, m, n - 1);
      calc {
        Pow(base, m + n);
        base * Pow(base, m + n - 1);
        base * (Pow(base, m) * Pow(base, n - 1));
        { MulSwap(base, Pow(base, m), Pow(base, n - 1)); }
        Pow(base, m) * (base * Pow(base, n - 1));
        Pow(base, m) * Pow(base, n);
      }
    }
  }

  lemma MulSwap(a: int, b: int, c: int)
    ensures a * (b * c) == b * (a * c)
  {
  }

  /** 16^32 = 2^128, the number of distinct UUIDs. */
  lemma Pow16To32()
    ensures Pow(16, 32) == 0x1_0000_0000_0000_0000_0000_0000_0000_0000
  {
    assert Pow(16, 2) == 256;
    PowAdd(16, 2, 2);
    PowAdd(16, 4, 4);
    PowAdd(16, 8, 8);
    PowAdd(16, 16, 16);
  }

  /** The digit character for `d`: '0'..'9', then lower-case 'a'..'f'. */
  function DigitChar(d: nat): (c: char)
    requires d < 16
    ensures DigitValue(c) == d
  {
    if d < 10 then ('0' as int + d) as char else ('a' as int + d - 10) as char
  }

  /** The value of a digit character, -1 for anything that is not one. */
  function DigitValue(c: char): int {
    if '0' <= c <= '9' then c as int - '0' as int
    else if 'a' <= c <= 'f' then c as int - 'a' as int + 10
    else -1
  }

  /** `v` written in `base` with exactly `width` digits, most significant first, padded with zeros. */
  function Digits(v: nat, base: nat, width: nat): (s: string)
    requires 2 <= base <= 16
    requires v < Pow(base, width)
    ensures |s| == width
    decreases width
  {
    if width == 0 then ""
    else
      DivBelow(v, base, Pow(base, width - 1));
      Digits(v / base, base, width - 1) + [DigitChar(v % base)]
  }

  lemma DivBelow(v: nat, base: nat, p: nat)
    requires base >= 1
    requires v < base * p
    ensures 0 <= v / base < p && 0 <= v % base < base
  {
    var q := v / base;
    assert base * q <= v;
    if q >= p {
      MulAtLeast(base, q, p);
    }
  }

  lemma MulAtLeast(base: nat, q: nat, p: nat)
    requires q >= p
    ensures base * q >= base * p
  {
    assert base * q == base * p + base * (q - p);
  }

  /** The number a string of digits denotes in `base`. */
  function ValueOf(s: string, base: nat): int {
    if s == "" then 0 else ValueOf(s[..|s| - 1], base) * base + DigitValue(s[|s| - 1])
  }

  /** Reading a numeral back gives the number written. */
  lemma {:induction false} ValueOfDigits(v: nat, base: nat, width: nat)
    requires 2 <= base <= 16
    requires v < Pow(base, width)
    ensures ValueOf(Digits(v, base, width), base) == v
    decreases width
  {
    if width > 0 {
      LastDigit(v, base, width);
      var q: nat, r: nat := v / base, v % base;
      ValueOfDigits(q, base, width - 1);
      assert ValueOf(Digits(v, base, width), base) == q * base + r by {
        ValueOfSnoc(Digits(q, base, width - 1), DigitChar(r), base);
      }
      DivMod(v, base);
    }
  }

  /** The numeral of `v` is the numeral of `v / base` followed by the digit of `v % base`. */
  lemma LastDigit(v: nat, base: nat, width: nat)
    requires 2 <= base <= 16 && width > 0
    requires v < Pow(base, width)
    ensures 0 <= v / base < Pow(base, width - 1) && 0 <= v % base < base
    ensures Digits(v, base, width) == Digits(v / base, base, width - 1) + [DigitChar(v % base)]
  {
    DivBelow(v, base, Pow(base, width - 1));
  }

  lemma ValueOfSnoc(s: string, c: char, base: nat)
    ensures ValueOf(s + [c], base) == ValueOf(s, base) * base + DigitValue(c)
  {
    assert (s + [c])[..|s|] == s;
  }

  lemma DivMod(v: nat, base: nat)
    requires base >= 1
    ensures (v / base) * base + v % base == v
  {
  }

  /** Two numbers of the same width have the same numeral only if they are equal. */
  lemma DigitsInjective(u: nat, v: nat, base: nat, width: nat)
    requires 2 <= base <= 16
    requires u < Pow(base, width) && v < Pow(base, width)
    requires Digits(u, base, width) == Digits(v, base, width)
    ensures u == v
  {
    ValueOfDigits(u, base, width);
    ValueOfDigits(v, base, width);
  }

  /** Two concatenations with suffixes of equal length are equal only piece by piece. */
  lemma SplitEqual(a1: string, a2: string, b1: string, b2: string)
    requires |a2| == |b2|
    requires a1 + a2 == b1 + b2
    ensures a1 == b1 && a2 == b2
  {
    assert a1 == (a1 + a2)[..|a1|];
    assert b1 == (b1 + b2)[..|b1|];
    assert a2 == (a1 + a2)[|a1|..];
    assert b2 == (b1 + b2)[|b1|..];
  }
}
