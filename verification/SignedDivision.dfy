/** common/gcc-millicode/divdi3.c and moddi3.c: signed 64-bit division on top of __qdivrem. */
module SignedDivision {
  import opened Words
  import opened Nonlinear
  import Qdivrem

  const MIN: Long := -0x8000_0000_0000_0000

  function ToSigned(x: ULong): Long { if x < W64 / 2 then x else x - W64 }

  /** Unary minus on an unsigned double word. */
  function Negate(x: ULong): ULong { Wrap64(W64 - x) }

  function Abs(x: int): nat { if x < 0 then -x else x }

  /** Division as section 6.5.5 of ISO/IEC 9899:1999 defines it: the quotient truncated toward zero,
      and the remainder that makes a == q * b + r. */
  function TruncQuot(a: int, b: int): int
    requires b != 0
  {
    if (a < 0) == (b < 0) then Abs(a) / Abs(b) else -(Abs(a) / Abs(b))
  }

  function TruncRem(a: int, b: int): int
    requires b != 0
  {
    a - TruncQuot(a, b) * b
  }

  /** The remainder is smaller than the divisor and never has the sign opposite to the dividend's. */
  lemma TruncRemMeaning(a: int, b: int)
    requires b != 0
    ensures TruncRem(a, b) == if a < 0 then -(Abs(a) % Abs(b)) else Abs(a) % Abs(b)
    ensures Abs(TruncRem(a, b)) < Abs(b)
  {
    var q, r := Abs(a) / Abs(b), Abs(a) % Abs(b);
    assert Abs(a) == q * Abs(b) + r;
    assert (-q) * b == -(q * b) by { Distribute(0, q, b); }
    assert b < 0 ==> q * Abs(b) == -(q * b) by { Distribute(0, b, q); }
  }

  lemma SameQuotient(a: int, b: int, q: int, r: int, q': int, r': int)
    requires b != 0 && a == q * b + r && a == q' * b + r'
    requires Abs(r) < Abs(b) && (r == 0 || (r < 0 <==> a < 0))
    requires Abs(r') < Abs(b) && (r' == 0 || (r' < 0 <==> a < 0))
    ensures q == q' && r == r'
  {
    var k := q - q';
    assert k * b == r' - r by { Distribute(q, q', b); }
    if b > 0 {
      OnlyZeroMultiple(k, b);
    } else {
      assert k * (0 - b) == r - r' by { Distribute(0, b, k); }
      OnlyZeroMultiple(k, 0 - b);
    }
  }

  /** Only truncated division meets those three conditions. */
  lemma TruncUnique(a: int, b: int, q: int, r: int)
    requires b != 0 && a == q * b + r
    requires Abs(r) < Abs(b) && (r == 0 || (r < 0 <==> a < 0))
    ensures q == TruncQuot(a, b) && r == TruncRem(a, b)
  {
    TruncRemMeaning(a, b);
    assert a == TruncQuot(a, b) * b + TruncRem(a, b);
    hide TruncQuot, TruncRem;
    SameQuotient(a, b, q, r, TruncQuot(a, b), TruncRem(a, b));
  }

  lemma Magnitude(a: Long)
    ensures (if a < 0 then Negate(Wrap64(a)) else Wrap64(a)) == Abs(a)
  {
  }

  /** Only the most negative number over 1 or -1 has a quotient of that magnitude. */
  lemma QuotientRange(x: nat, d: nat)
    requires x <= W64 / 2 && d > 0
    ensures x / d <= W64 / 2 && (x / d == W64 / 2 <==> x == W64 / 2 && d == 1)
  {
    var q, r := x / d, x % d;
    assert x == q * d + r;
    if d >= 2 {
      MulLe(2, d, q);
    }
  }

  /** A magnitude of at most 2^63 given a sign. */
  lemma Resigned(x: ULong, neg: bool)
    requires x <= W64 / 2
    ensures ToSigned(if neg then Negate(x) else x) == if neg then 0 - x else if x == W64 / 2 then MIN else x
  {
  }

  lemma SignedQuotient(a: Long, b: Long, uq: ULong)
    requires b != 0 && uq == Abs(a) / Abs(b)
    ensures
      var q := if (a < 0) != (b < 0) then Negate(uq) else uq;
      ToSigned(q) == if a == MIN && b == -1 then MIN else TruncQuot(a, b)
  {
    QuotientRange(Abs(a), Abs(b));
    Resigned(uq, (a < 0) != (b < 0));
    hide ToSigned, Negate;
  }

  /** __divdi3 truncates toward zero, and wraps only for the most negative number over -1. */
  method Divdi3(a: Long, b: Long) returns (trap: bool, q: Long)
    ensures trap <==> b == 0
    ensures b != 0 ==> q == if a == MIN && b == -1 then MIN else TruncQuot(a, b)
  {
    hide TruncQuot, Wrap64, Negate, ToSigned;
    var ua, ub, neg := Wrap64(a), Wrap64(b), false;
    Magnitude(a);
    Magnitude(b);
    if a < 0 {
      ua, neg := Negate(ua), !neg;
    }
    if b < 0 {
      ub, neg := Negate(ub), !neg;
    }
    var uq, ur;
    trap, uq, ur := Qdivrem.Qdivrem(ua, ub);
    if !trap {
      QuotRem(ua, ub, uq, ur);
      SignedQuotient(a, b, uq);
    }
    if neg {
      uq := Negate(uq);
    }
    q := ToSigned(uq);
  }

  lemma SignedRemainder(a: Long, b: Long, ur: ULong)
    requires b != 0 && ur == Abs(a) % Abs(b)
    ensures ToSigned(if a < 0 then Negate(ur) else ur) == TruncRem(a, b)
  {
    TruncRemMeaning(a, b);
    Resigned(ur, a < 0);
    hide TruncRem, ToSigned, Negate;
  }

  /** __moddi3 gives the matching remainder, with no exception. */
  method Moddi3(a: Long, b: Long) returns (trap: bool, r: Long)
    ensures trap <==> b == 0
    ensures b != 0 ==> r == TruncRem(a, b)
  {
    hide TruncRem, TruncQuot, Wrap64, Negate, ToSigned;
    var ua, ub, neg := Wrap64(a), Wrap64(b), false;
    Magnitude(a);
    Magnitude(b);
    if a < 0 {
      ua, neg := Negate(ua), !neg;
    }
    if b < 0 {
      ub := Negate(ub);
    }
    var uq, ur;
    trap, uq, ur := Qdivrem.Qdivrem(ua, ub);
    if !trap {
      QuotRem(ua, ub, uq, ur);
      SignedRemainder(a, b, ur);
    }
    if neg {
      ur := Negate(ur);
    }
    r := ToSigned(ur);
  }
}
