/** Writing whole numbers in base 10 or 16 as JavaScript's
    `Number.prototype.toString(radix)` does for non-negative integers
    (lower-case digits, no leading zeros), and reading them back. */
module Numerals {

  /** The value of a digit character, or -1 for any other character. */
  function DigitValue(c: char): (v: int)
    ensures -1 <= v < 16
  {
    if '0' <= c <= '9' then c as int - '0' as int
    else if 'a' <= c <= 'f' then c as int - 'a' as int + 10
    else -1
  }

  /** The digit for `d`: '0'..'9', then 'a'..'f'. */
  function DigitChar(d: nat): (c: char)
    requires d < 16
    ensures DigitValue(c) == d
  {
    if d < 10 then ('0' as int + d) as char else ('a' as int + d - 10) as char
  }

  predicate IsDigit(c: char, base: nat) {
    0 <= DigitValue(c) < base
  }

  predicate AllDigits(s: string, base: nat) {
    forall i :: 0 <= i < |s| ==> IsDigit(s[i], base)
  }

  /** Distinct digits are distinct characters, so a digit is read back as itself. */
  lemma DigitCharInjective(d: nat, c: char)
    requires d < 16 && DigitValue(c) == d
    ensures DigitChar(d) == c
  {
  }

  /** Euclid's division by the base, for a number of more than one digit. */
  lemma DivStep(n: nat, base: nat)
    requires 2 <= base <= n
    ensures n / base < n && n == (n / base) * base + n % base && 0 <= n % base < base
  {
  }

  /** `n.toString(base)`. */
  function ToBase(n: nat, base: nat): (s: string)
    requires 2 <= base <= 16
    ensures 1 <= |s|
    ensures AllDigits(s, base)
    ensures FromBase(s, base) == n
    ensures s[0] == '0' <==> n == 0
    ensures n == 0 ==> s == "0"
    decreases n
  {
    if n < base then
      var s := [DigitChar(n)];
      assert s[..0] == [];
      assert DigitValue('0') == 0;
      s
    else
      var q, r := n / base, n % base;
      DivStep(n, base);
      var p := ToBase(q, base);
      var s := p + [DigitChar(r)];
      assert s[..|s| - 1] == p;
      assert forall i :: 0 <= i < |p| ==> s[i] == p[i];
      assert FromBase(s, base) == FromBase(p, base) * base + r;
      s
  }

  /** The number a string of digits denotes. */
  function FromBase(s: string, base: nat): nat
    requires 2 <= base <= 16 && AllDigits(s, base)
  {
    if |s| == 0 then 0
    else FromBase(s[..|s| - 1], base) * base + DigitValue(s[|s| - 1])
  }

  /** Quotient and remainder by 10 or 16 are determined by the division
      equation. */
  lemma DivUnique(n: nat, base: nat, q: nat, d: nat)
    requires (base == 10 || base == 16) && d < base && n == q * base + d
    ensures n / base == q && n % base == d
    ensures q >= 1 ==> n >= base
  {
    if base == 10 {
      assert n == 10 * q + d;
    } else {
      assert n == 16 * q + d;
    }
  }

  /** Reading digits: the prefix read in the base, then the last digit. */
  lemma FromBaseSnoc(s: string, base: nat)
    requires 2 <= base <= 16 && 1 <= |s| && AllDigits(s, base)
    ensures AllDigits(s[..|s| - 1], base)
    ensures FromBase(s, base) == FromBase(s[..|s| - 1], base) * base + DigitValue(s[|s| - 1])
  {
  }

  /** Writing a number of more than one digit: its quotient, then the digit
      of its remainder. */
  lemma ToBaseSnocAny(n: nat, base: nat)
    requires 2 <= base <= 16 && n >= base
    ensures ToBase(n, base) == ToBase(n / base, base) + [DigitChar(n % base)]
  {
  }

  /** A string of decimal or hex digits with no leading zero is the one
      `ToBase` writes for its value: the written form is unique. */
  lemma {:induction false} ToBaseUnique(s: string, base: nat)
    requires (base == 10 || base == 16) && 1 <= |s| && AllDigits(s, base)
    requires |s| > 1 ==> s[0] != '0'
    ensures ToBase(FromBase(s, base), base) == s
    decreases |s|
  {
    if |s| == 1 {
      ToBaseDigit(s, base);
    } else {
      var p, c := s[..|s| - 1], s[|s| - 1];
      assert p[0] == s[0] && AllDigits(p, base);
      ToBaseUnique(p, base);
      assert s == p + [c];
      ToBaseAppend(p, c, base);
    }
  }

  /** A single digit is written as itself. */
  lemma ToBaseDigit(s: string, base: nat)
    requires 2 <= base <= 16 && |s| == 1 && AllDigits(s, base)
    ensures ToBase(FromBase(s, base), base) == s
  {
    var v := DigitValue(s[0]);
    assert s[..0] == [];
    assert FromBase(s, base) == v;
    assert ToBase(v, base) == [DigitChar(v)];
    DigitCharInjective(v, s[0]);
    assert s == [s[0]];
  }

  /** A digit appended to a written number gives the written form of the
      longer number. */
  lemma ToBaseAppend(p: string, c: char, base: nat)
    requires (base == 10 || base == 16) && 1 <= |p| && AllDigits(p, base) && IsDigit(c, base)
    requires p[0] != '0' && ToBase(FromBase(p, base), base) == p
    ensures AllDigits(p + [c], base) && ToBase(FromBase(p + [c], base), base) == p + [c]
  {
    var s := p + [c];
    assert s[..|s| - 1] == p;
    FromBaseSnoc(s, base);
    var q, d := FromBase(p, base), DigitValue(c);
    DivUnique(FromBase(s, base), base, q, d);
    ToBaseSnocAny(FromBase(s, base), base);
    DigitCharInjective(d, c);
  }

  /** Two hex digits denote their value. */
  lemma FromTwoDigits(a: nat, b: nat)
    requires a < 16 && b < 16
    ensures AllDigits([DigitChar(a), DigitChar(b)], 16)
    ensures FromBase([DigitChar(a), DigitChar(b)], 16) == a * 16 + b
  {
    var s := [DigitChar(a), DigitChar(b)];
    assert s[..1] == [DigitChar(a)];
    assert s[..1][..0] == [];
    assert FromBase(s[..1], 16) == a;
    assert FromBase(s, 16) == FromBase(s[..1], 16) * 16 + b;
  }
}
