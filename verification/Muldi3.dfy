/** common/gcc-millicode/muldi3.c: 64-bit multiplication by two levels of Karatsuba. */
module Muldi3 {
  import opened Words
  import opened Nonlinear
  import opened SignedDivision

  /** |u1 - u0| * |v0 - v1| with its sign is the Karatsuba middle term. */
  lemma Middle(u1: int, u0: int, v1: int, v0: int, udiff: int, vdiff: int, neg: bool)
    requires udiff == Abs(u1 - u0) && vdiff == Abs(v0 - v1)
    requires neg == ((u1 < u0) != (v0 < v1))
    ensures (if neg then -(udiff * vdiff) else udiff * vdiff) == u1 * v0 + u0 * v1 - u1 * v1 - u0 * v0
  {
    Distribute(u1, u0, v0 - v1);
    Distribute(v0, v1, u1);
    Distribute(v0, v1, u0);
  }

  lemma HalvesProduct(u: int, v: int, u1: int, u0: int, v1: int, v0: int, w: int)
    requires u == u1 * w + u0 && v == v1 * w + v0
    ensures u * v == (u1 * v1) * (w * w) + (u1 * v0 + u0 * v1) * w + u0 * v0
  {
    assert u * v == (u1 * w) * v + u0 * v by { Distribute(u1 * w, u0, v); }
    assert u0 * v == (u0 * v1) * w + u0 * v0 by { Distribute(v1 * w, v0, u0); Assoc(u0, v1, w); }
    assert (u1 * w) * v == (u1 * w) * (v1 * w) + (u1 * w) * v0 by { Distribute(v1 * w, v0, u1 * w); }
    assert (u1 * w) * (v1 * w) == (u1 * v1) * (w * w) by {
      Assoc(u1, w, v1 * w);
      Assoc(w, v1, w);
      Assoc(u1, v1, w * w);
    }
    assert (u1 * w) * v0 == (u1 * v0) * w by { Assoc(u1, w, v0); Assoc(u1, v0, w); }
    Distribute(u1 * v0, u0 * v1, w);
  }

  /** A double word kept in two words: the pair (h, l) holds `x` up to k wrap-arounds of 2^64. */
  ghost predicate Holds(h: UInt, l: UInt, x: int, k: int)
  {
    x == h * W32 + l + k * W64
  }

  lemma ShiftedHalves(m: UInt)
    ensures m * B == HHalf(m) * W32 + LHup(m)
  {
    QuotRem(m * B, W32, HHalf(m), LHalf(m) * B);
  }

  lemma WrapOnce(x: int)
    requires -W32 <= x < 2 * W32
    ensures Wrap32(x) == if x < 0 then x + W32 else if x < W32 then x else x - W32
  {
  }

  lemma HoldsIs(h: UInt, l: UInt, x: int, k: int)
    requires Holds(h, l, x, k) && 0 <= x < W64
    ensures h * W32 + l == x
  {
  }

  /** The product of the high halves, once at the top and once half a word down. */
  lemma FirstTerm(high: UInt)
    requires high <= (B - 1) * (B - 1)
    ensures Holds(Wrap32(high + HHalf(high)), LHup(high), high * W32 + high * B, 0)
  {
    ShiftedHalves(high);
    assert HHalf(high) < B - 1;
    hide LHup, HHalf;
    WrapOnce(high + HHalf(high));
  }

  /** prod += m << 16, with the carry made by hand. */
  method AddShifted(h: UInt, l: UInt, m: UInt, ghost x: int, ghost k: int) returns (h': UInt, l': UInt, ghost k': int)
    requires Holds(h, l, x, k)
    ensures Holds(h', l', x + m * B, k')
  {
    hide LHup, HHalf, Wrap32;
    ShiftedHalves(m);
    WrapOnce(l + LHup(m));
    l' := Wrap32(l + LHup(m));
    ghost var s := h + HHalf(m) + (if l' < l then 1 else 0);
    WrapOnce(s);
    h' := Wrap32(h + HHalf(m) + (if l' < l then 1 else 0));
    k' := if s < W32 then k else k + 1;
  }

  /** prod -= m << 16, with the borrow made by hand. */
  method SubShifted(h: UInt, l: UInt, m: UInt, ghost x: int, ghost k: int) returns (h': UInt, l': UInt, ghost k': int)
    requires Holds(h, l, x, k)
    ensures Holds(h', l', x - m * B, k')
  {
    hide LHup, HHalf, Wrap32;
    ShiftedHalves(m);
    WrapOnce(l - LHup(m));
    l' := Wrap32(l - LHup(m));
    ghost var s := h - (HHalf(m) + (if l' > l then 1 else 0));
    WrapOnce(s);
    h' := Wrap32(h - (HHalf(m) + (if l' > l then 1 else 0)));
    k' := if s < 0 then k - 1 else k;
  }

  lemma HalfProductFits(a: int, b: int)
    requires 0 <= a < B && 0 <= b < B
    ensures 0 <= a * b <= (B - 1) * (B - 1)
  {
    MulLe(a, B - 1, b);
    MulLe(b, B - 1, B - 1);
    MulLe(0, a, b);
  }

  lemma WordProductFits(a: UInt, b: UInt)
    ensures 0 <= a * b < W64
  {
    MulLe(a, W32 - 1, b);
    MulLe(b, W32 - 1, W32 - 1);
    MulLe(0, a, b);
  }

  /** The two differences of halves, made non-negative, and the sign of their product. */
  method Differences(u1: int, u0: int, v1: int, v0: int) returns (udiff: int, vdiff: int, neg: bool)
    ensures udiff == Abs(u1 - u0) && vdiff == Abs(v0 - v1)
    ensures (if neg then -(udiff * vdiff) else udiff * vdiff) == (u1 * v0 + u0 * v1) - u1 * v1 - u0 * v0
  {
    if u1 >= u0 {
      udiff, neg := u1 - u0, false;
    } else {
      udiff, neg := u0 - u1, true;
    }
    if v0 >= v1 {
      vdiff := v0 - v1;
    } else {
      vdiff, neg := v1 - v0, !neg;
    }
    Middle(u1, u0, v1, v0, udiff, vdiff, neg);
  }

  lemma Halves(x: UInt)
    ensures x == HHalf(x) * B + LHalf(x)
  {
  }

  lemma WrapFits(x: int)
    requires 0 <= x < W32
    ensures Wrap32(x) == x
  {
  }

  lemma KaratsubaSum(high: int, mid: int, low: int, cross: int, neg: bool, p: int)
    requires p == high * (B * B) + cross * B + low
    requires (if neg then -mid else mid) == cross - high - low
    ensures p == high * W32 + high * B + (if neg then -(mid * B) else mid * B) + low * B + low
  {
  }

  method AddLow(h: UInt, l: UInt, low: UInt, ghost x: int, ghost k: int) returns (h': UInt, l': UInt, ghost k': int)
    requires Holds(h, l, x, k)
    ensures Holds(h', l', x + low, k')
  {
    hide Wrap32;
    WrapOnce(l + low);
    h', l', k' := h, Wrap32(l + low), k;
    if l' < low {
      WrapOnce(h + 1);
      h' := Wrap32(h + 1);
      k' := if h + 1 < W32 then k else k + 1;
    }
  }

  method Assemble(high: UInt, mid: UInt, low: UInt, neg: bool, ghost p: ULong) returns (prod: ULong)
    requires high <= (B - 1) * (B - 1)
    requires p == high * W32 + high * B + (if neg then -(mid * B) else mid * B) + low * B + low
    ensures prod == p
  {
    hide LHup, HHalf, Wrap32, Holds;
    FirstTerm(high);
    var prodh, prodl := Wrap32(high + HHalf(high)), LHup(high);
    ghost var x, k := high * W32 + high * B, 0;
    if neg {
      prodh, prodl, k := SubShifted(prodh, prodl, mid, x, k);
      x := x - mid * B;
    } else {
      prodh, prodl, k := AddShifted(prodh, prodl, mid, x, k);
      x := x + mid * B;
    }
    prodh, prodl, k := AddShifted(prodh, prodl, low, x, k);
    x := x + low * B;
    prodh, prodl, k := AddLow(prodh, prodl, low, x, k);
    HoldsIs(prodh, prodl, x + low, k);
    prod := prodh * W32 + prodl;
  }

  /** __lmulq: the exact product of any two words; every transient carry and borrow cancels. */
  method Lmulq(u: UInt, v: UInt) returns (prod: ULong)
    ensures prod == u * v
  {
    hide HHalf, LHalf, Wrap32;
    var u1: int, u0: int, v1: int, v0: int := HHalf(u), LHalf(u), HHalf(v), LHalf(v);
    Halves(u);
    Halves(v);
    HalfProductFits(u0, v0);
    WrapFits(u0 * v0);
    var low := Wrap32(u0 * v0);
    if u1 == 0 && v1 == 0 {
      return low;
    }
    var udiff, vdiff, neg := Differences(u1, u0, v1, v0);
    HalfProductFits(udiff, vdiff);
    HalfProductFits(u1, v1);
    WrapFits(udiff * vdiff);
    WrapFits(u1 * v1);
    var mid, high := Wrap32(udiff * vdiff), Wrap32(u1 * v1);
    HalvesProduct(u, v, u1, u0, v1, v0, B);
    KaratsubaSum(high, mid, low, u1 * v0 + u0 * v1, neg, u * v);
    WordProductFits(u, v);
    prod := Assemble(high, mid, low, neg, u * v);
  }

  // ------------------------------------------------------------------ the product

  /** The product as its low double word and everything that is a multiple of 2^64. */
  lemma Carry(h: int, kh: int, high: int, m: int, km: int, mid: int, kn: int, signed: int, lo: int, hi: int, ks: int,
      prodh: int, low: int)
    requires h == kh * W32 + high && m == km * W32 + mid && signed == mid + kn * W32
    requires high + signed + lo + hi == ks * W32 + prodh && low == hi * W32 + lo
    ensures h * W64 + (h + m + low) * W32 + low == (prodh * W32 + lo) + (h + kh + km - kn + ks + hi) * W64
  {
  }

  lemma Residues(h: int, m: int, low: ULong, negmid: bool, high: UInt, mid: UInt, signed: UInt, prodh: UInt,
      prod: ULong, p: int)
    requires high == h % W32 && mid == m % W32 && signed == if negmid then (W32 - mid) % W32 else mid
    requires prodh == (high + signed + Low(low) + High(low)) % W32 && prod == prodh * W32 + Low(low)
    requires p == h * W64 + (h + (if negmid then -m else m) + low) * W32 + low
    ensures prod == Wrap64(p)
  {
    var kh, km := h / W32, m / W32;
    var s := high + signed + Low(low) + High(low);
    var ks := s / W32;
    var kn := if negmid then (if mid == 0 then 0 else 1) else 0;
    assert signed == (if negmid then 0 - (mid as int) else mid) + kn * W32;
    assert h == kh * W32 + high && m == km * W32 + mid && s == ks * W32 + prodh;
    var m', km' := if negmid then 0 - m else m, if negmid then 0 - km else km;
    var mid' := if negmid then 0 - (mid as int) else mid;
    assert m' == km' * W32 + mid';
    Carry(h, kh, high, m', km', mid', kn, signed, Low(low), High(low), ks, prodh, low);
    var k := h + kh + km' - kn + ks + High(low);
    QuotRem(p, W64, k, prod);
  }

  /** Only the low words of `high` and `mid` matter: whatever else they hold is a multiple of 2^64. */
  method AssembleProduct(high: UInt, mid: UInt, low: ULong, negmid: bool, ghost h: int, ghost m: int, ghost p: int)
      returns (prod: ULong)
    requires high == Wrap32(h) && mid == Wrap32(m)
    requires p == h * W64 + (h + (if negmid then -m else m) + low) * W32 + low
    ensures prod == Wrap64(p)
  {
    var signed: UInt := if negmid then Wrap32(W32 - mid) else mid;
    var prodh, prodl := Wrap32(high + signed + Low(low) + High(low)), Low(low);
    prod := prodh * W32 + prodl;
    Residues(h, m, low, negmid, high, mid, signed, prodh, prod, p);
  }

  method UnsignedProduct(u: ULong, v: ULong) returns (p: ULong)
    ensures p == Wrap64(u * v)
  {
    var u1: int, u0: int, v1: int, v0: int := High(u), Low(u), High(v), Low(v);
    HalvesProduct(u, v, u1, u0, v1, v0, W32);
    WordProductFits(u0, v0);
    if u1 == 0 && v1 == 0 {
      p := Lmulq(u0, v0);
      return;
    }
    var low := Lmulq(u0, v0);
    var udiff, vdiff, negmid := Differences(u1, u0, v1, v0);
    var mid, high := Wrap32(udiff * vdiff), Wrap32(u1 * v1);
    p := AssembleProduct(high, mid, low, negmid, u1 * v1, udiff * vdiff, u * v);
  }

  lemma SignOfProduct(a: int, b: int)
    ensures a * b == if (a < 0) == (b < 0) then Abs(a) * Abs(b) else -(Abs(a) * Abs(b))
  {
  }

  lemma NegateProduct(x: int)
    ensures Wrap64(-x) == Negate(Wrap64(x))
  {
  }

  /** __muldi3: the product of any two double words, modulo 2^64 in two's complement. */
  method Muldi3(a: Long, b: Long) returns (prod: Long)
    ensures prod == ToSigned(Wrap64(a * b))
  {
    var u, v, negall := Wrap64(a), Wrap64(b), false;
    Magnitude(a);
    Magnitude(b);
    if a < 0 {
      u, negall := Negate(u), true;
    }
    if b < 0 {
      v, negall := Negate(v), !negall;
    }
    var p := UnsignedProduct(u, v);
    SignOfProduct(a, b);
    NegateProduct(Abs(a) * Abs(b));
    prod := ToSigned(if negall then Negate(p) else p);
  }
}
