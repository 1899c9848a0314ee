/** Decimal and hexadecimal text of natural numbers, and powers of two. */
module Numerals {

  predicate IsDigit(c: char) { '0' <= c <= '9' }

  predicate IsHexDigit(c: char) { IsDigit(c) || 'a' <= c <= 'f' || 'A' <= c <= 'F' }

  function DigitValue(c: char): (d: nat)
    requires IsHexDigit(c)
    ensures d < 16 && (IsDigit(c) ==> d < 10)
  {
    if IsDigit(c) then c as int - '0' as int
    else if 'a' <= c <= 'f' then c as int - 'a' as int + 10
    else c as int - 'A' as int + 10
  }

  predicate AllDigits(s: string) { forall i :: 0 <= i < |s| ==> IsDigit(s[i]) }

  predicate AllHex(s: string) { forall i :: 0 <= i < |s| ==> IsHexDigit(s[i]) }

  /** `Number(s)` for digits (base 10) and `parseInt(s, 16)` for hexadecimal digits. */
  function ValueIn(s: string, base: nat): nat
    requires AllHex(s) && (base == 10 || base == 16)
  {
    if s == [] then 0
    else
      var high, last := ValueIn(s[..|s| - 1], base), DigitValue(s[|s| - 1]);
      if base == 10 then 10 * high + last else 16 * high + last
  }

  function DigitChar(d: nat): char
    requires d < 16
  {
    if d < 10 then '0' + d as char else 'a' + (d - 10) as char
  }

  lemma CharIsDigit(d: nat)
    requires d < 16
    ensures IsHexDigit(DigitChar(d)) && DigitValue(DigitChar(d)) == d && (d < 10 ==> IsDigit(DigitChar(d)))
  {
  }

  /** `n.toString(base)`. */
  function TextIn(n: nat, base: nat): (s: string)
    requires base == 10 || base == 16
    ensures s != []
  {
    if n < base then [DigitChar(n)]
    else if base == 10 then TextIn(n / 10, base) + [DigitChar(n % 10)]
    else TextIn(n / 16, base) + [DigitChar(n % 16)]
  }

  lemma {:induction false} TextIsDigits(n: nat, base: nat)
    requires base == 10 || base == 16
    ensures AllHex(TextIn(n, base)) && (base == 10 ==> AllDigits(TextIn(n, base)))
  {
    CharIsDigit(n % base);
    if n >= base { TextIsDigits(if base == 10 then n / 10 else n / 16, base); }
  }

  /** A byte has at most three decimal digits, a 16-bit group at most four hexadecimal ones. */
  lemma {:induction false} TextLength(n: nat)
    ensures n < 10 ==> |TextIn(n, 10)| == 1
    ensures n < 100 ==> |TextIn(n, 10)| <= 2
    ensures n < 1000 ==> |TextIn(n, 10)| <= 3
    ensures n < 0x10 ==> |TextIn(n, 16)| == 1
    ensures n < 0x100 ==> |TextIn(n, 16)| <= 2
    ensures n < 0x1000 ==> |TextIn(n, 16)| <= 3
    ensures n < 0x1_0000 ==> |TextIn(n, 16)| <= 4
  {
    if n >= 10 { TextLength(n / 10); }
    if n >= 16 { TextLength(n / 16); }
  }

  lemma {:induction false} ValueOfText(n: nat, base: nat)
    requires base == 10 || base == 16
    ensures AllHex(TextIn(n, base)) && ValueIn(TextIn(n, base), base) == n
  {
    TextIsDigits(n, base);
    CharIsDigit(n % base);
    var s := TextIn(n, base);
    if n < base {
      assert s[..|s| - 1] == [];
    } else {
      var high := if base == 10 then n / 10 else n / 16;
      ValueOfText(high, base);
      assert s[..|s| - 1] == TextIn(high, base);
    }
  }

  lemma {:induction false} ValueBound(s: string)
    requires AllHex(s)
    ensures |s| <= 1 ==> ValueIn(s, 16) < 0x10
    ensures |s| <= 2 ==> ValueIn(s, 16) < 0x100
    ensures |s| <= 3 ==> ValueIn(s, 16) < 0x1000
    ensures |s| <= 4 ==> ValueIn(s, 16) < 0x1_0000
  {
    if s != [] { ValueBound(s[..|s| - 1]); }
  }

  function Power10(k: nat): (p: nat)
    ensures p >= 1
  {
    if k == 0 then 1 else 10 * Power10(k - 1)
  }

  function Pow2(n: nat): (p: nat)
    ensures p >= 1
  {
    if n == 0 then 1 else 2 * Pow2(n - 1)
  }

  lemma {:induction false} Pow2Sum(a: nat, b: nat)
    ensures Pow2(a + b) == Pow2(a) * Pow2(b)
  {
    if a > 0 {
      Pow2Sum(a - 1, b);
      assert 2 * Pow2(a - 1) * Pow2(b) == 2 * (Pow2(a - 1) * Pow2(b));
    }
  }

  /** Bitwise `&` of natural numbers. */
  function BitAnd(x: nat, y: nat): nat {
    if x == 0 || y == 0 then 0
    else 2 * BitAnd(x / 2, y / 2) + if x % 2 == 1 && y % 2 == 1 then 1 else 0
  }

  /** Masking with low ones keeps the remainder. */
  lemma {:induction false} LowOnes(x: nat, n: nat)
    ensures BitAnd(x, Pow2(n) - 1) == x % Pow2(n)
  {
    if n == 0 || x == 0 {
      NoOnes(x, Pow2(n));
    } else {
      LowOnes(x / 2, n - 1);
      DoubleOnes(x, Pow2(n - 1));
    }
  }

  lemma NoOnes(x: nat, p: nat)
    requires p > 0 && (x == 0 || p == 1)
    ensures BitAnd(x, p - 1) == 0 == x % p
  {
    if x == 0 { DivModUnique(0, p, 0, 0); }
  }

  lemma DoubleOnes(x: nat, p: nat)
    requires x > 0 && p > 0 && BitAnd(x / 2, p - 1) == x / 2 % p
    ensures BitAnd(x, 2 * p - 1) == x % (2 * p)
  {
    assert (2 * p - 1) / 2 == p - 1 && (2 * p - 1) % 2 == 1;
    ModDouble(x, p);
  }

  lemma ModDouble(x: nat, p: nat)
    requires p > 0
    ensures x % (2 * p) == 2 * (x / 2 % p) + x % 2
  {
    var q, r := x / 2 / p, x / 2 % p;
    assert x == (2 * p) * q + (2 * r + x % 2);
    DivModUnique(x, 2 * p, q, 2 * r + x % 2);
  }

  lemma DivModUnique(x: int, m: nat, q: int, r: int)
    requires m > 0 && x == m * q + r && 0 <= r < m
    ensures x / m == q && x % m == r
  {
    var d := q - x / m;
    assert m * d == m * q - m * (x / m);
    SmallMultiple(m, d);
  }

  lemma SmallMultiple(m: int, d: int)
    requires -m < m * d < m
    ensures d == 0
  {
    assert d >= 1 ==> m * (d - 1) >= 0;
    assert d <= -1 ==> m * (-1 - d) >= 0;
  }

  /** `m << k`. */
  function ShiftLeft(m: nat, k: nat): nat {
    if k == 0 then m else 2 * ShiftLeft(m, k - 1)
  }

  /** `x >> k`. */
  function ShiftRight(x: nat, k: nat): nat {
    if k == 0 then x else ShiftRight(x / 2, k - 1)
  }

  /** Masking with shifted ones works on the shifted-out number. */
  lemma {:induction false} ShiftedOnes(x: nat, k: nat, m: nat)
    ensures BitAnd(x, ShiftLeft(m, k)) == ShiftLeft(BitAnd(ShiftRight(x, k), m), k)
  {
    if k > 0 {
      ShiftedOnes(x / 2, k - 1, m);
      var y := ShiftLeft(m, k - 1);
      assert BitAnd(x, 2 * y) == 2 * BitAnd(x / 2, y);
    }
  }

  /** Shifting out and back drops the remainder. */
  lemma {:induction false} ShiftBack(x: nat, k: nat)
    ensures ShiftLeft(ShiftRight(x, k), k) == x - x % Pow2(k)
  {
    if k > 0 {
      ShiftBack(x / 2, k - 1);
      ModDouble(x, Pow2(k - 1));
    }
  }
}
