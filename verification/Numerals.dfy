/** Numbers as strings of digits: what printf's digit loop produces and atoi's consumes. */
module Numerals {

  import Nonlinear

  const DIGITS := "0123456789abcdef"

  /** The digits of n in base b, most significant first; zero is "0". */
  function DigitString(n: nat, b: nat): string
    requires 2 <= b <= 16
  {
    if n < b then [DIGITS[n]] else DigitString(n / b, b) + [DIGITS[n % b]]
  }

  predicate IsDigit(c: char) { '0' <= c <= '9' }

  /** The place of a character among the sixteen digits. */
  function DigitValue(c: char): nat
  {
    if '0' <= c <= '9' then c as nat - '0' as nat
    else if 'a' <= c <= 'f' then c as nat - 'a' as nat + 10
    else 0
  }

  /** The number a string of digits stands for in base b. */
  function Value(s: string, b: nat): nat
  {
    if s == [] then 0 else Value(s[..|s| - 1], b) * b + DigitValue(s[|s| - 1])
  }

  predicate AllDigits(s: string) { forall i :: 0 <= i < |s| ==> IsDigit(s[i]) }

  lemma DigitTable(d: nat)
    requires d < 16
    ensures DigitValue(DIGITS[d]) == d
    ensures d < 10 <==> IsDigit(DIGITS[d])
    ensures DIGITS[d] != '\0'
  {
  }

  lemma ValueSnoc(s: string, c: char, b: nat)
    ensures Value(s + [c], b) == Value(s, b) * b + DigitValue(c)
  {
    assert (s + [c])[..|s|] == s;
  }

  lemma DivMod(n: nat, b: nat)
    requires b > 0
    ensures n == n / b * b + n % b
  {
  }

  function LastDigit(n: nat, b: nat): char
    requires 2 <= b <= 16
  { DIGITS[n % b] }

  function DropDigit(n: nat, b: nat): nat
    requires 2 <= b <= 16
  { n / b }

  lemma OneDigit(n: nat, b: nat)
    requires 2 <= b <= 16 && n < b
    ensures DropDigit(n, b) == 0 && DigitString(n, b) == [LastDigit(n, b)] && LastDigit(n, b) == DIGITS[n]
  {
    Nonlinear.QuotRem(n, b, 0, n);
  }

  lemma Smaller(n: nat, b: nat)
    requires 2 <= b <= n
    ensures 0 < n / b < n
  {
    var q := n / b;
    DivMod(n, b);
    Nonlinear.MulLe(2, b, q);
  }

  lemma ManyDigits(n: nat, b: nat)
    requires 2 <= b <= 16 && n >= b
    ensures 0 < DropDigit(n, b) < n && DigitString(n, b) == DigitString(DropDigit(n, b), b) + [LastDigit(n, b)]
  {
    Smaller(n, b);
  }

  lemma Peel(n: nat, b: nat)
    requires 2 <= b <= 16
    ensures DropDigit(n, b) * b + DigitValue(LastDigit(n, b)) == n
  {
    DivMod(n, b);
    DigitTable(n % b);
  }

  lemma NoValue(b: nat)
    ensures Value([], b) == 0
  {
  }

  /** The digit string stands for the number it was made from, in every base printf knows. */
  lemma {:induction false} DigitStringValue(n: nat, b: nat)
    requires 2 <= b <= 16
    ensures DigitString(n, b) != [] && Value(DigitString(n, b), b) == n
  {
    hide DigitString, LastDigit, DropDigit, DigitValue, Value;
    Peel(n, b);
    if n < b {
      OneDigit(n, b);
      ValueSnoc([], LastDigit(n, b), b);
      assert [] + [LastDigit(n, b)] == [LastDigit(n, b)];
      NoValue(b);
    } else {
      ManyDigits(n, b);
      DigitStringValue(DropDigit(n, b), b);
      ValueSnoc(DigitString(DropDigit(n, b), b), LastDigit(n, b), b);
    }
  }

  /** A digit string starts with 0 only for zero. */
  lemma {:induction false} NoLeadingZero(n: nat, b: nat)
    requires 2 <= b <= 16
    ensures DigitString(n, b) != [] && (DigitString(n, b)[0] == '0' ==> n == 0)
  {
    hide DigitString, LastDigit, DropDigit;
    if n < b {
      OneDigit(n, b);
      DigitTable(n);
    } else {
      ManyDigits(n, b);
      NoLeadingZero(DropDigit(n, b), b);
    }
  }

  lemma LastIsDecimal(n: nat, b: nat)
    requires 2 <= b <= 10
    ensures IsDigit(LastDigit(n, b))
  {
    DigitTable(n % b);
  }

  lemma {:induction false} DecimalDigits(n: nat, b: nat)
    requires 2 <= b <= 10
    ensures AllDigits(DigitString(n, b))
  {
    hide DigitString, LastDigit, DropDigit, IsDigit;
    if n < b {
      OneDigit(n, b);
      DigitTable(n);
    } else {
      ManyDigits(n, b);
      DecimalDigits(DropDigit(n, b), b);
      LastIsDecimal(n, b);
    }
  }

  function Pow(b: nat, k: nat): nat { if k == 0 then 1 else b * Pow(b, k - 1) }

  lemma QuotientShrinks(n: nat, b: nat)
    requires b >= 8
    ensures n / b <= n / 8
  {
    var q := n / b;
    assert q * b <= n;
    Nonlinear.MulLe(8, b, q);
  }

  lemma PowNext(k: nat)
    ensures Pow(8, k + 1) == 8 * Pow(8, k)
  {
  }

  lemma PowZero()
    ensures Pow(8, 0) == 1
  {
  }

  /** A number below 8^k takes at most k digits in any base from 8 up. */
  lemma {:induction false} DigitCount(n: nat, b: nat, k: nat)
    requires 8 <= b <= 16 && k > 0 && n < Pow(8, k)
    ensures 0 < |DigitString(n, b)| <= k
  {
    hide DigitString, LastDigit, Pow;
    if n < b {
      OneDigit(n, b);
    } else {
      ManyDigits(n, b);
      QuotientShrinks(n, b);
      PowNext(k - 1);
      assert k > 1 by { PowZero(); }
      DigitCount(DropDigit(n, b), b, k - 1);
    }
  }

  lemma PowShift(k: nat, p: nat, j: nat)
    requires Pow(8, k) == p && j == 4
    ensures Pow(8, k + 4) == 4096 * p
  {
    assert Pow(8, k + 1) == 8 * p;
    assert Pow(8, k + 2) == 64 * p;
    assert Pow(8, k + 3) == 512 * p;
  }

  /** Twenty-two octal digits hold any 64-bit number. */
  lemma SixtyFourBits()
    ensures Pow(8, 22) > 0xffff_ffff_ffff_ffff
  {
    assert Pow(8, 4) == 4096 by { assert Pow(8, 2) == 64; }
    PowShift(4, 4096, 4);
    PowShift(8, 0x100_0000, 4);
    PowShift(12, 0x10_0000_0000, 4);
    PowShift(16, 0x1_0000_0000_0000, 4);
    assert Pow(8, 20) == 0x1000_0000_0000_0000;
    assert Pow(8, 21) == 8 * Pow(8, 20);
    assert Pow(8, 22) == 8 * Pow(8, 21);
  }

  /** Leading zeros do not count; trailing ones multiply by ten. */
  lemma {:induction false} ValueConcat(s: string, t: string, b: nat)
    ensures Value(s + t, b) == Value(s, b) * Pow(b, |t|) + Value(t, b)
  {
    if t == [] {
      assert s + t == s;
    } else {
      var n := |t| - 1;
      assert (s + t)[..|s + t| - 1] == s + t[..n];
      ValueConcat(s, t[..n], b);
      var p, v := Pow(b, n), Value(s, b);
      calc {
        Value(s + t, b);
        (v * p + Value(t[..n], b)) * b + DigitValue(t[n]);
        { Nonlinear.Distribute(v * p, Value(t[..n], b), b); }
        (v * p) * b + Value(t[..n], b) * b + DigitValue(t[n]);
        { Nonlinear.Assoc(v, p, b); }
        v * (p * b) + Value(t, b);
        v * Pow(b, |t|) + Value(t, b);
      }
    }
  }

  lemma {:induction false} ValueOfZeros(s: string, b: nat)
    requires forall i :: 0 <= i < |s| ==> s[i] == '0'
    ensures Value(s, b) == 0
  {
    if s != [] {
      ValueOfZeros(s[..|s| - 1], b);
    }
  }
}
