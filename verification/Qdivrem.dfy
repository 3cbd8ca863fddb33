/** common/gcc-millicode/qdivrem.c: 64-bit unsigned division with remainder on a 32-bit machine,
    Knuth's Program D in base 2^16 run in place on five-digit arrays. */
module Qdivrem {
  import opened Words
  import opened Digits
  import opened Nonlinear

  // ---------------------------------------------------------------- shifting

  /** One digit multiplied by s = 2^sh, where c = 2^(16 - sh): the part that leaves at the top, and
      the part that stays, which has room for the top of the next digit. */
  lemma CutDigit(p: Digit, s: nat, c: nat)
    requires 0 < s && 0 < c && s * c == B
    ensures 0 <= p * s < W32
    ensures p * s / B == p / c < s
    ensures p * s % B == (p % c) * s <= B - s
  {
    var h, l := p / c, p % c;
    Distribute(h * c, l, s);
    Assoc(h, c, s);
    MulLe(0, l, s);
    MulLe(l, c - 1, s);
    Distribute(c, 1, s);
    QuotRem(p * s, B, h, l * s);
    CancelLt(h, s, c);
    MulLe(1, c, s);
    MulLe(p, B - 1, s);
    MulLe(0, p, s);
    MulLe(s, B, B - 1);
  }

  lemma ShiftFactors(sh: nat)
    requires 0 < sh < 16
    ensures Pow2(sh) * Pow2(16 - sh) == B
  {
    Pow2Split(sh, 16 - sh);
    Pow2Of16();
  }

  /** What a digit loses at the top and what it keeps when it is multiplied by `s`. */
  ghost function Leaves(p: Digit, s: nat): int { p * s / B }
  ghost function Stays(p: Digit, s: nat): int { p * s % B }

  /** What is left of a digit after the shift, seen through the wrap-around and the mask. */
  lemma KeptPart(a: Digit, s: nat, c: nat)
    requires 0 < s && 0 < c && s * c == B
    ensures LHalf(Wrap32(a * s)) == (a % c) * s == Stays(a, s) <= B - s
  {
    CutDigit(a, s, c);
  }

  /** Two parts that share no bit. */
  lemma JoinParts(a: Digit, b: Digit, s: nat, c: nat, sh: nat)
    requires s == Pow2(sh) && 0 < c && s * c == B
    ensures Or((a % c) * s, b / c) == (a % c) * s + b / c < B && b / c == Leaves(b, s)
  {
    CutDigit(a, s, c);
    CutDigit(b, s, c);
    OrDisjoint(a % c, b / c, sh);
  }

  /** The shifted digit at one place: the rest of `a` joined with the top bits of its neighbour. */
  method ShiftPair(a: Digit, b: Digit, sh: nat) returns (d: Digit)
    requires 0 < sh < 16
    ensures d == Stays(a, Pow2(sh)) + Leaves(b, Pow2(sh))
  {
    hide Or, Stays, Leaves, Wrap32, LHalf, Pow2;
    var s, c := Pow2(sh), Pow2(16 - sh);
    ShiftFactors(sh);
    KeptPart(a, s, c);
    JoinParts(a, b, s, c, sh);
    d := Or(LHalf(Wrap32(a * s)), b / c);
  }

  method ShiftLast(a: Digit, sh: nat) returns (d: Digit)
    requires 0 < sh < 16
    ensures d == Stays(a, Pow2(sh))
  {
    hide Stays, Wrap32, LHalf, Pow2;
    var s, c := Pow2(sh), Pow2(16 - sh);
    ShiftFactors(sh);
    KeptPart(a, s, c);
    d := LHalf(Wrap32(a * s));
  }

  /** `n` is `o` multiplied by `s`, digit by digit, without the part that leaves at the front. */
  ghost predicate IsShifted(o: seq<Digit>, n: seq<Digit>, s: nat)
  {
    && |n| == |o|
    && forall k {:trigger n[k]} {:trigger o[k]} :: 0 <= k < |o| ==>
         n[k] == Stays(o[k], s) + (if k + 1 < |o| then Leaves(o[k + 1], s) else 0)
  }

  lemma ShiftStep(a: Digit, x: int, o: int, n: int, p: int, s: nat, leaves: int)
    requires n + leaves * p == o * s
    requires x == Stays(a, s) + leaves
    ensures x * p + n + Leaves(a, s) * (B * p) == (a * p + o) * s
  {
    var stays, lost := Stays(a, s), Leaves(a, s);
    assert a * s == lost * B + stays;
    assert x * p == stays * p + leaves * p by { Distribute(stays, leaves, p); }
    assert lost * (B * p) == (lost * B) * p by { Assoc(lost, B, p); }
    assert (a * s) * p == (lost * B) * p + stays * p by { Distribute(lost * B, stays, p); }
    assert (a * p + o) * s == (a * s) * p + o * s by { Distribute(a * p, o, s); Assoc(a, p, s); Assoc(a, s, p); }
  }

  lemma RestIsShifted(o: seq<Digit>, n: seq<Digit>, s: nat)
    requires |o| > 1 && IsShifted(o, n, s)
    ensures IsShifted(o[1..], n[1..], s)
  {
    hide Leaves, Stays;
    assert forall k :: 0 <= k < |o| - 1 ==> o[1..][k] == o[k + 1] && n[1..][k] == n[k + 1];
  }

  lemma FirstShifted(o: seq<Digit>, n: seq<Digit>, s: nat)
    requires o != [] && IsShifted(o, n, s)
    ensures |n| == |o| && n[0] == Stays(o[0], s) + if |o| == 1 then 0 else Leaves(o[1], s)
  {
    hide Leaves, Stays;
  }

  lemma BPowNext(n: nat)
    ensures BPow(n + 1) == B * BPow(n)
  {
  }

  lemma NoDigits()
    ensures Val([]) == 0 && BPow(0) == 1
  {
  }

  lemma {:induction false} ShiftedValue(o: seq<Digit>, n: seq<Digit>, s: nat)
    requires o != [] && IsShifted(o, n, s)
    ensures Val(n) + Leaves(o[0], s) * BPow(|o|) == Val(o) * s
  {
    hide Leaves, Stays, Val, BPow, IsShifted;
    FirstShifted(o, n, s);
    var o', n', p := o[1..], n[1..], BPow(|o| - 1);
    assert o == [o[0]] + o' && n == [n[0]] + n';
    ValCons(o[0], o');
    ValCons(n[0], n');
    BPowNext(|o| - 1);
    var leaves := if o' == [] then 0 else Leaves(o'[0], s);
    if o' == [] {
      NoDigits();
    } else {
      RestIsShifted(o, n, s);
      ShiftedValue(o', n', s);
    }
    ShiftStep(o[0], n[0], Val(o'), Val(n'), p, s, leaves);
  }

  lemma ShiftedSlice(o: seq<Digit>, p: seq<Digit>, off: nat, len: nat, s: nat)
    requires |p| == |o| && off + len < |o| && p[off + len] == Stays(o[off + len], s)
    requires forall k :: off <= k < off + len ==> p[k] == Stays(o[k], s) + Leaves(o[k + 1], s)
    ensures IsShifted(o[off..off + len + 1], p[off..off + len + 1], s)
  {
    hide Leaves, Stays;
    var was, now := o[off..off + len + 1], p[off..off + len + 1];
    forall k | 0 <= k <= len
      ensures now[k] == Stays(was[k], s) + (if k < len then Leaves(was[k + 1], s) else 0)
    {
      assert was[k] == o[off + k] && now[k] == p[off + k];
      assert k < len ==> was[k + 1] == o[off + k + 1];
    }
  }

  /** Shift p[off..off+len] left by `sh` bits; the bits that leave at the top are lost. */
  method Shl(p: array<Digit>, off: nat, len: nat, sh: nat)
    requires off + len < p.Length && 0 < sh < 16
    modifies p
    ensures IsShifted(old(p[off..off + len + 1]), p[off..off + len + 1], Pow2(sh))
    ensures p[..off] == old(p[..off]) && p[off + len + 1..] == old(p[off + len + 1..])
  {
    hide Leaves, Stays, Pow2, IsShifted;
    ghost var o, s := p[..], Pow2(sh);
    var i := 0;
    while i < len
      invariant 0 <= i <= len
      invariant forall k :: off <= k < off + i ==> p[k] == Stays(o[k], s) + Leaves(o[k + 1], s)
      invariant forall k :: 0 <= k < p.Length && !(off <= k < off + i) ==> p[k] == o[k]
    {
      p[off + i] := ShiftPair(p[off + i], p[off + i + 1], sh);
      i := i + 1;
    }
    p[off + len] := ShiftLast(p[off + len], sh);
    ShiftedSlice(o, p[..], off, len, s);
    assert o[off..off + len + 1] == old(p[off..off + len + 1]);
    assert p[..][off..off + len + 1] == p[off..off + len + 1];
  }

  // ------------------------------------------------------------ trial digit

  /** The dividend window w = top * p + wl over the divisor v = lead * p + vl, where `top` is the
      first three digits of the window and `lead` the first two of the divisor. */
  ghost predicate Window(w: int, top: int, wl: int, v: int, lead: int, vl: int, p: int)
  {
    && w == top * p + wl && 0 <= wl < p
    && v == lead * p + vl && 0 <= vl < p
    && 0 <= top && B < lead
  }

  /** A trial digit that fails the three-by-two digit test is larger than the true digit. */
  lemma TooBig(w: int, top: int, wl: int, v: int, lead: int, vl: int, p: int, qhat: int)
    requires Window(w, top, wl, v, lead, vl, p)
    requires 0 <= qhat && qhat * lead > top
    ensures w < qhat * v
  {
    MulLe(top + 1, qhat * lead, p);
    Distribute(top, 1, p);
    Assoc(qhat, lead, p);
    Distribute(lead * p, vl, qhat);
    MulLe(0, vl, qhat);
  }

  /** A trial digit that passes it is at most one larger. */
  lemma AtMostOneMore(w: int, top: int, wl: int, v: int, lead: int, vl: int, p: int, qhat: int)
    requires Window(w, top, wl, v, lead, vl, p)
    requires 0 < qhat < B && qhat * lead <= top
    ensures (qhat - 1) * v <= w
  {
    MulLe(qhat * lead, top, p);
    Assoc(qhat, lead, p);
    var k := qhat - 1;
    Distribute(lead * p, vl, k);
    Distribute(qhat, 1, lead * p);
    MulLe(vl, p, k);
    MulLe(k, lead, p);
  }

  /** No product of a digit and a trial digit leaves an unsigned int. */
  lemma ProductFits(v: Digit, qhat: int)
    requires 0 <= qhat <= B
    ensures 0 <= v * qhat <= (B - 1) * B && Wrap32(v * qhat) == v * qhat
    ensures qhat < B ==> v * qhat <= (B - 1) * (B - 1)
  {
    MulLe(v, B - 1, qhat);
    MulLe(0, v, qhat);
    MulLe(qhat, B, B - 1);
  }

  /** The comparison the correction loop makes, in 32-bit arithmetic. */
  predicate Exceeds(v2: Digit, qhat: UInt, rhat: UInt, u2: Digit)
  {
    Wrap32(v2 * qhat) > Combine(rhat, u2)
  }

  ghost predicate Estimate(nn: int, u2: int, v1: int, v2: int, qhat: int, rhat: int)
  {
    && 0 <= qhat < B
    && nn == qhat * v1 + rhat
    && (qhat < B - 1 ==> nn * B + u2 < (qhat + 1) * (v1 * B + v2))
  }

  lemma TopProduct(qhat: int, v1: int, v2: int)
    ensures qhat * (v1 * B + v2) == (qhat * v1) * B + v2 * qhat
  {
    Distribute(v1 * B, v2, qhat);
    Assoc(qhat, v1, B);
  }

  /** It compares qhat * lead with the three-digit top of the window, without overflow. */
  lemma ExceedsIsExact(nn: int, u2: Digit, v1: Digit, v2: Digit, qhat: UInt, rhat: UInt)
    requires Estimate(nn, u2, v1, v2, qhat, rhat) && rhat < B
    ensures Exceeds(v2, qhat, rhat, u2) <==> nn * B + u2 < qhat * (v1 * B + v2)
  {
    ProductFits(v2, qhat);
    CombineIsPair(rhat, u2);
    TopProduct(qhat, v1, v2);
  }

  /** Once rhat reaches B no further correction is due. */
  lemma StopIsSafe(nn: int, u2: Digit, v1: Digit, v2: Digit, qhat: int, rhat: int)
    requires Estimate(nn, u2, v1, v2, qhat, rhat) && rhat >= B
    ensures qhat * (v1 * B + v2) <= nn * B + u2
  {
    ProductFits(v2, qhat);
    TopProduct(qhat, v1, v2);
  }

  lemma EstimateStep(nn: int, u2: Digit, v1: Digit, v2: Digit, qhat: int, rhat: nat)
    requires Estimate(nn, u2, v1, v2, qhat, rhat)
    requires nn * B + u2 < qhat * (v1 * B + v2)
    ensures qhat > 0 && Estimate(nn, u2, v1, v2, qhat - 1, rhat + v1)
  {
    TopProduct(qhat, v1, v2);
    Distribute(qhat, 1, v1);
  }

  lemma FirstEstimate(u0: Digit, u1: Digit, u2: Digit, v1: Digit, v2: Digit, qhat: int, rhat: int)
    requires u0 < v1
    requires qhat == (u0 * B + u1) / v1 && rhat == (u0 * B + u1) % v1
    ensures Estimate(u0 * B + u1, u2, v1, v2, qhat, rhat)
  {
    var nn := u0 * B + u1;
    assert nn == qhat * v1 + rhat;
    assert nn < B * v1 by { MulLe(u0 + 1, v1, B); }
    CancelLt(qhat, B, v1);
    Distribute(qhat, 1, v1);
    assert 0 <= qhat by { CancelLt(-1, qhat, v1); }
    Distribute(v1 * B, v2, qhat + 1);
    Assoc(qhat + 1, v1, B);
    MulLe(0, v2, qhat + 1);
  }

  /** `qhat` is top / lead, capped at B - 1. */
  ghost predicate IsTrialDigit(top: int, lead: int, qhat: int)
  {
    && 0 <= qhat < B
    && qhat * lead <= top
    && (qhat < B - 1 ==> top < (qhat + 1) * lead)
  }

  method FirstTwoDigits(u0: Digit, u1: Digit, ghost u2: Digit, v1: Digit, ghost v2: Digit)
      returns (qhat: UInt, rhat: UInt)
    requires B / 2 <= v1 && u0 <= v1
    ensures qhat < B && rhat < 2 * B
    ensures Estimate(u0 * B + u1, u2, v1, v2, qhat, rhat)
  {
    if u0 == v1 {
      // qhat = B and rhat = u1, then straight into the body of the correction loop
      qhat, rhat := B - 1, u1 + v1;
    } else {
      CombineIsPair(u0, u1);
      var nn := Combine(u0, u1);
      FirstEstimate(u0, u1, u2, v1, v2, nn / v1, nn % v1);
      qhat, rhat := nn / v1, nn % v1;
    }
  }

  lemma EstimateIsTrialDigit(nn: int, u2: int, v1: int, v2: int, qhat: int, rhat: int)
    requires Estimate(nn, u2, v1, v2, qhat, rhat)
    requires qhat * (v1 * B + v2) <= nn * B + u2
    ensures IsTrialDigit(nn * B + u2, v1 * B + v2, qhat)
  {
  }

  /** D3.  The estimate from the first two digits, corrected by the third, is the quotient of the
      first three digits of the window by the first two of the divisor, capped at B - 1. */
  method TrialDigit(u0: Digit, u1: Digit, u2: Digit, v1: Digit, v2: Digit) returns (qhat: UInt)
    requires B / 2 <= v1 && u0 <= v1
    ensures IsTrialDigit((u0 * B + u1) * B + u2, v1 * B + v2, qhat)
  {
    hide Exceeds, Estimate;
    ghost var nn := u0 * B + u1;
    var rhat: UInt;
    qhat, rhat := FirstTwoDigits(u0, u1, u2, v1, v2);
    while rhat < B && Exceeds(v2, qhat, rhat, u2)
      invariant qhat < B && rhat < 2 * B
      invariant Estimate(nn, u2, v1, v2, qhat, rhat)
      decreases qhat
    {
      ExceedsIsExact(nn, u2, v1, v2, qhat, rhat);
      EstimateStep(nn, u2, v1, v2, qhat, rhat);
      qhat := qhat - 1;
      rhat := rhat + v1;
    }
    if rhat < B {
      ExceedsIsExact(nn, u2, v1, v2, qhat, rhat);
    } else {
      StopIsSafe(nn, u2, v1, v2, qhat, rhat);
    }
    EstimateIsTrialDigit(nn, u2, v1, v2, qhat, rhat);
  }

  /** The corrected trial digit is the true quotient digit or exactly one more. */
  lemma TrialDigitBracket(w: int, top: int, wl: int, v: int, lead: int, vl: int, p: int, qhat: int)
    requires Window(w, top, wl, v, lead, vl, p)
    requires IsTrialDigit(top, lead, qhat)
    requires w < B * v
    ensures (qhat - 1) * v <= w < (qhat + 1) * v
  {
    if qhat < B - 1 {
      TooBig(w, top, wl, v, lead, vl, p, qhat + 1);
    }
    if qhat > 0 {
      AtMostOneMore(w, top, wl, v, lead, vl, p, qhat);
    } else {
      MulLe(0, top, p);
      MulLe(0, lead, p);
    }
  }

  // ------------------------------------------- multiply, subtract, add back

  lemma BorrowWord(o: Digit, p: int, borrow: Digit, t: UInt, d: Digit, borrow': Digit)
    requires 0 <= p <= (B - 1) * (B - 1) && t == Wrap32(o - p - borrow)
    requires d == LHalf(t) && borrow' == Wrap32(B - HHalf(t)) % B
    ensures d == o - p - borrow + borrow' * B
  {
  }

  /** One place of D4: the digit left behind and the borrow handed on, in wrap-around arithmetic. */
  method SubPlace(o: Digit, v: Digit, qhat: UInt, borrow: Digit) returns (d: Digit, borrow': Digit)
    requires qhat < B
    ensures d == o - v * qhat - borrow + borrow' * B
  {
    ProductFits(v, qhat);
    var t := Wrap32(o - Wrap32(v * qhat) - borrow);
    d := LHalf(t);
    borrow' := Wrap32(B - HHalf(t)) % B;
    BorrowWord(o, v * qhat, borrow, t, d, borrow');
  }

  lemma SubProducts(p: int, x: int, y: int, z: int, z': int, d: int, o: int, v: int, qhat: int, t: int, t': int)
    requires x == y - qhat * z + t * p
    requires z' == v * p + z
    requires d == o - v * qhat - t + t' * B
    ensures d * p + x == (o * p + y) - qhat * z' + t' * (B * p)
  {
    assert d * p == o * p - qhat * (v * p) - t * p + t' * (B * p) by {
      assert (v * qhat) * p == qhat * (v * p) by { Assoc(v, qhat, p); }
      assert (t' * B) * p == t' * (B * p) by { Assoc(t', B, p); }
      Distribute(o - v * qhat - t, t' * B, p);
      Distribute(o - v * qhat, t, p);
      Distribute(o, v * qhat, p);
    }
    assert qhat * z' == qhat * (v * p) + qhat * z by { Distribute(v * p, z, qhat); }
  }

  lemma MulSubStep(us: seq<Digit>, os: seq<Digit>, vs: seq<Digit>, d: Digit, o: Digit, v: Digit, qhat: int, t: int,
      t': int)
    requires |us| == |os| == |vs|
    requires Val(us) == Val(os) - qhat * Val(vs) + t * BPow(|us|)
    requires d == o - v * qhat - t + t' * B
    ensures Val([d] + us) == Val([o] + os) - qhat * Val([v] + vs) + t' * BPow(|us| + 1)
  {
    hide Val, BPow;
    BPowNext(|us|);
    ValCons(d, us);
    ValCons(o, os);
    ValCons(v, vs);
    SubProducts(BPow(|us|), Val(us), Val(os), Val(vs), Val([v] + vs), d, o, v, qhat, t, t');
  }

  /** The leading place of D4 and the D5 test: the high half is nonzero exactly on a borrow. */
  method SubTop(o: Digit, borrow: Digit) returns (d: Digit, borrowed: bool)
    ensures borrowed <==> o < borrow
    ensures d == o - borrow + (if borrowed then B else 0)
  {
    var t := Wrap32(o - borrow);
    d := LHalf(t);
    borrowed := HHalf(t) != 0;
  }

  lemma TopProducts(d: int, o: int, t: int, p: int, borrowed: bool)
    requires d == o - t + (if borrowed then B else 0)
    ensures d * p == o * p - t * p + (if borrowed then B * p else 0)
  {
    Distribute(o, t, p);
    Distribute(o - t, B, p);
  }

  /** D4 on u[x..x+n] and v[y+1..y+n].  `borrowed` says that the window went below zero, by exactly
      the wrap-around of its n + 1 digits. */
  method MulSub(u: array<Digit>, x: nat, v: array<Digit>, y: nat, n: nat, qhat: UInt) returns (borrowed: bool)
    requires u != v && x + n < u.Length && y + n < v.Length && qhat < B
    modifies u
    ensures Val(u[x..x + n + 1])
         == Val(old(u[x..x + n + 1])) - qhat * Val(v[y + 1..y + n + 1]) + (if borrowed then BPow(n + 1) else 0)
    ensures u[..x] == old(u[..x]) && u[x + n + 1..] == old(u[x + n + 1..])
  {
    hide Val, BPow, LHalf, HHalf;
    ghost var o := u[..];
    var t: Digit, i := 0, n;
    assert u[x + n + 1..x + n + 1] == [] == v[y + n + 1..y + n + 1];
    NoDigits();
    while i > 0
      invariant 0 <= i <= n
      invariant Val(u[x + i + 1..x + n + 1])
             == Val(o[x + i + 1..x + n + 1]) - qhat * Val(v[y + i + 1..y + n + 1]) + t * BPow(n - i)
      invariant u[..x + i + 1] == o[..x + i + 1]
      invariant u[x + n + 1..] == o[x + n + 1..]
    {
      ghost var us, t0 := u[x + i + 1..x + n + 1], t;
      assert u[x + i] == o[x + i];
      u[x + i], t := SubPlace(u[x + i], v[y + i], qhat, t);
      MulSubStep(us, o[x + i + 1..x + n + 1], v[y + i + 1..y + n + 1], u[x + i], o[x + i], v[y + i], qhat, t0, t);
      assert u[x + i..x + n + 1] == [u[x + i]] + us;
      assert o[x + i..x + n + 1] == [o[x + i]] + o[x + i + 1..x + n + 1];
      assert v[y + i..y + n + 1] == [v[y + i]] + v[y + i + 1..y + n + 1];
      i := i - 1;
    }
    ghost var us := u[x + 1..x + n + 1];
    assert u[x] == o[x];
    u[x], borrowed := SubTop(u[x], t);
    ValCons(u[x], us);
    ValCons(o[x], o[x + 1..x + n + 1]);
    assert u[x + 1..x + n + 1] == us;
    assert u[x..x + n + 1] == [u[x]] + us;
    assert o[x..x + n + 1] == [o[x]] + o[x + 1..x + n + 1];
    TopProducts(u[x], o[x], t, BPow(n), borrowed);
    BPowNext(n);
  }

  lemma AddProducts(p: int, d: int, o: int, v: int, t: int, t': int)
    requires d + t' * B == o + v + t
    ensures d * p + t' * (B * p) == o * p + v * p + t * p
  {
    assert (t' * B) * p == t' * (B * p) by { Assoc(t', B, p); }
    Distribute(d, t' * B, p);
    Distribute(o + v, t, p);
    Distribute(o, v, p);
  }

  lemma AddStep(us: seq<Digit>, os: seq<Digit>, vs: seq<Digit>, d: Digit, o: Digit, v: Digit, t: int, t': int)
    requires |us| == |os| == |vs|
    requires Val(us) + t * BPow(|us|) == Val(os) + Val(vs)
    requires d + t' * B == o + v + t
    ensures Val([d] + us) + t' * BPow(|us| + 1) == Val([o] + os) + Val([v] + vs)
  {
    hide Val, BPow;
    BPowNext(|us|);
    ValCons(d, us);
    ValCons(o, os);
    ValCons(v, vs);
    AddProducts(BPow(|us|), d, o, v, t, t');
  }

  /** D6: add v[y+1..y+n] back to u[x..x+n]; the carry out of the leading digit is dropped. */
  lemma HalvesMakeUp(t: UInt)
    ensures LHalf(t) + HHalf(t) * B == t
  {
  }

  /** One place of the add-back loop. */
  method AddPlace(o: Digit, v: Digit, t: UInt) returns (d: Digit, t': UInt)
    requires t <= 1
    ensures d + t' * B == o + v + t && t' <= 1
  {
    var sum := t + o + v;
    d := LHalf(sum);
    t' := HHalf(sum);
  }

  /** The leading place of the add-back loop. */
  method AddTop(u: array<Digit>, x: nat, n: nat, t: UInt) returns (ghost carry: nat)
    requires x + n < u.Length && t <= 1
    modifies u
    ensures Val(u[x..x + n + 1]) + carry * BPow(n + 1) == (old(u[x]) + t) * BPow(n) + Val(old(u[x + 1..x + n + 1]))
    ensures u[..x] == old(u[..x]) && u[x + n + 1..] == old(u[x + n + 1..])
  {
    hide Val, BPow, LHalf, HHalf;
    ghost var us, sum := u[x + 1..x + n + 1], u[x] + t;
    carry := HHalf(sum);
    HalvesMakeUp(sum);
    u[x] := LHalf(u[x] + t);
    ValCons(u[x], us);
    assert u[x..x + n + 1] == [u[x]] + us;
    BPowNext(n);
    Distribute(LHalf(sum), carry * B, BPow(n));
    Assoc(carry, B, BPow(n));
  }

  method AddBack(u: array<Digit>, x: nat, v: array<Digit>, y: nat, n: nat) returns (ghost carry: nat)
    requires u != v && x + n < u.Length && y + n < v.Length
    modifies u
    ensures Val(u[x..x + n + 1]) + carry * BPow(n + 1) == Val(old(u[x..x + n + 1])) + Val(v[y + 1..y + n + 1])
    ensures u[..x] == old(u[..x]) && u[x + n + 1..] == old(u[x + n + 1..])
  {
    hide Val, BPow, LHalf, HHalf;
    ghost var o := u[..];
    var t: UInt, i := 0, n;
    assert u[x + n + 1..x + n + 1] == [] == v[y + n + 1..y + n + 1];
    NoDigits();
    while i > 0
      invariant 0 <= i <= n && 0 <= t <= 1
      invariant Val(u[x + i + 1..x + n + 1]) + t * BPow(n - i)
             == Val(o[x + i + 1..x + n + 1]) + Val(v[y + i + 1..y + n + 1])
      invariant u[..x + i + 1] == o[..x + i + 1]
      invariant u[x + n + 1..] == o[x + n + 1..]
    {
      ghost var us, t0 := u[x + i + 1..x + n + 1], t;
      assert u[x + i] == o[x + i];
      u[x + i], t := AddPlace(u[x + i], v[y + i], t);
      AddStep(us, o[x + i + 1..x + n + 1], v[y + i + 1..y + n + 1], u[x + i], o[x + i], v[y + i], t0, t);
      assert u[x + i..x + n + 1] == [u[x + i]] + us;
      assert o[x + i..x + n + 1] == [o[x + i]] + o[x + i + 1..x + n + 1];
      assert v[y + i..y + n + 1] == [v[y + i]] + v[y + i + 1..y + n + 1];
      i := i - 1;
    }
    ghost var rest := o[x + 1..x + n + 1];
    assert u[x] == o[x];
    carry := AddTop(u, x, n, t);
    ValCons(o[x], rest);
    assert o[x..x + n + 1] == [o[x]] + rest;
  }

  // -------------------------------------------------- one digit of Program D

  /** Comparing numbers of equal length compares their leading digits. */
  lemma LeadingDigit(a: seq<Digit>, b: seq<Digit>)
    requires |a| == |b| > 0 && Val(a) < Val(b)
    ensures a[0] <= b[0]
  {
    hide Val, BPow;
    var p := BPow(|a| - 1);
    assert a == [a[0]] + a[1..] && b == [b[0]] + b[1..];
    ValCons(a[0], a[1..]);
    ValCons(b[0], b[1..]);
    ValBound(b[1..]);
    CancelLe(a[0], b[0], p);
  }

  /** A number below B^n written with n + 1 digits starts with a zero. */
  lemma LeadingZero(a: seq<Digit>)
    requires |a| > 0 && Val(a) < BPow(|a| - 1)
    ensures a[0] == 0
  {
    hide Val, BPow;
    assert a == [a[0]] + a[1..];
    ValCons(a[0], a[1..]);
    CancelLt(a[0], 1, BPow(|a| - 1));
  }

  lemma ThreeDigits(s: seq<Digit>)
    requires |s| == 3
    ensures Val(s) == (s[0] * B + s[1]) * B + s[2]
  {
    assert s == s[..2] + [s[2]];
    ValSnoc(s[..2], s[2]);
    TwoDigits(s[..2]);
  }

  /** The window and divisor of an iteration, split as the trial digit sees them. */
  lemma WindowOf(us: seq<Digit>, vs: seq<Digit>)
    requires 2 <= |vs| && |us| == |vs| + 1 && B / 2 <= vs[0]
    requires Val(us[..|vs|]) < Val(vs)
    ensures us[0] <= vs[0]
    ensures Window(Val(us), (us[0] * B + us[1]) * B + us[2], Val(us[3..]),
                   Val(vs), vs[0] * B + vs[1], Val(vs[2..]), BPow(|vs| - 2))
    ensures Val(us) < B * Val(vs)
  {
    hide Val, BPow;
    LeadingDigit(us[..|vs|], vs);
    ThreeDigits(us[..3]);
    TwoDigits(vs[..2]);
    assert us == us[..3] + us[3..];
    ValConcat(us[..3], us[3..]);
    assert vs == vs[..2] + vs[2..];
    ValConcat(vs[..2], vs[2..]);
    ValBound(us[3..]);
    ValBound(vs[2..]);
    assert us == us[..|vs|] + [us[|vs|]];
    ValSnoc(us[..|vs|], us[|vs|]);
  }

  /** What D4 leaves decides exactly whether the trial digit was the true one or one more. */
  lemma BorrowIsExact(w: nat, v: nat, qhat: nat, left: nat, m: int, borrowed: bool)
    requires (qhat - 1) * v <= w < (qhat + 1) * v
    requires v < m && left < m
    requires left == w - qhat * v + (if borrowed then m else 0)
    ensures !borrowed ==> w == qhat * v + left && left < v
    ensures borrowed ==> qhat > 0 && w == (qhat - 1) * v + (left + v - m) && 0 <= left + v - m < v
  {
    Distribute(qhat, 1, v);
  }

  lemma CarryIsOne(carry: nat, m: int, left: nat, v: nat, left': nat)
    requires left' < m && 0 <= left + v - m < m
    requires left' + carry * m == left + v
    ensures left' == left + v - m
  {
    Distribute(carry, 1, m);
    OnlyZeroMultiple(carry - 1, m);
  }

  lemma TrialDigitRange(top: int, lead: int, qhat: int)
    requires IsTrialDigit(top, lead, qhat)
    ensures 0 <= qhat < B
  {
  }

  /** D3 to D6: divide the window u[x..x+n] by v[y+1..y+n] in place, leaving the remainder. */
  method QuotientDigit(u: array<Digit>, x: nat, v: array<Digit>, y: nat, n: nat) returns (q: Digit)
    requires u != v && 2 <= n && x + n < u.Length && y + n < v.Length
    requires B / 2 <= v[y + 1]
    requires Val(u[x..x + n]) < Val(v[y + 1..y + n + 1])
    modifies u
    ensures Val(old(u[x..x + n + 1])) == q * Val(v[y + 1..y + n + 1]) + Val(u[x..x + n + 1])
    ensures Val(u[x..x + n + 1]) < Val(v[y + 1..y + n + 1])
    ensures u[x] == 0
    ensures u[..x] == old(u[..x]) && u[x + n + 1..] == old(u[x + n + 1..])
  {
    hide Val, BPow, Window, IsTrialDigit;
    ghost var us, vs := u[x..x + n + 1], v[y + 1..y + n + 1];
    assert us[..n] == u[x..x + n];
    WindowOf(us, vs);
    var qhat := TrialDigit(u[x], u[x + 1], u[x + 2], v[y + 1], v[y + 2]);
    TrialDigitBracket(Val(us), (us[0] * B + us[1]) * B + us[2], Val(us[3..]),
                      Val(vs), vs[0] * B + vs[1], Val(vs[2..]), BPow(n - 2), qhat);
    TrialDigitRange((us[0] * B + us[1]) * B + us[2], vs[0] * B + vs[1], qhat);
    var borrowed := MulSub(u, x, v, y, n, qhat);
    ghost var left := u[x..x + n + 1];
    ghost var m := BPow(n + 1);
    ValBound(left);
    ValBound(vs);
    BPowNext(n);
    BorrowIsExact(Val(us), Val(vs), qhat, Val(left), m, borrowed);
    if borrowed {
      qhat := qhat - 1;
      ghost var carry := AddBack(u, x, v, y, n);
      ValBound(u[x..x + n + 1]);
      CarryIsOne(carry, m, Val(left), Val(vs), Val(u[x..x + n + 1]));
    }
    LeadingZero(u[x..x + n + 1]);
    q := qhat;
  }

  // ------------------------------------------------------------- Program D

  /** Before digit j: the dividend is what the digits found so far account for plus what is left. */
  ghost predicate Accounted(total: int, vs: seq<Digit>, qs: seq<Digit>, us: seq<Digit>, n: nat)
    requires |qs| + n <= |us|
  {
    && total == Val(vs) * (Val(qs) * BPow(|us| - |qs| - n)) + Val(us)
    && Val(us[|qs|..|qs| + n]) < Val(vs)
    && forall k :: 0 <= k < |qs| ==> us[k] == 0
  }

  /** Dividing a window inside a number takes digit * divisor, at the window's place, off the number. */
  lemma WindowReplaced(o: seq<Digit>, u: seq<Digit>, j: nat, n: nat, digit: Digit, vs: seq<Digit>)
    requires |o| == |u| && j + n < |o|
    requires u[..j] == o[..j] && u[j + n + 1..] == o[j + n + 1..]
    requires Val(o[j..j + n + 1]) == digit * Val(vs) + Val(u[j..j + n + 1])
    ensures Val(o) == (digit * Val(vs)) * BPow(|o| - (j + n + 1)) + Val(u)
  {
    hide Val, BPow;
    var k := j + n + 1;
    var p := BPow(|o| - k);
    assert o[..k] == o[..j] + o[j..k] && u[..k] == u[..j] + u[j..k];
    ValConcat(o[..j], o[j..k]);
    ValConcat(u[..j], u[j..k]);
    assert o == o[..k] + o[k..] && u == u[..k] + u[k..];
    ValConcat(o[..k], o[k..]);
    ValConcat(u[..k], u[k..]);
    Distribute(digit * Val(vs), Val(u[..k]), p);
  }

  lemma DigitProducts(v: int, qs: int, digit: int, p: int)
    ensures v * ((qs * B + digit) * p) == v * (qs * (B * p)) + (digit * v) * p
  {
    assert (qs * B + digit) * p == qs * (B * p) + digit * p by { Distribute(qs * B, digit, p); Assoc(qs, B, p); }
    Distribute(qs * (B * p), digit * p, v);
    Assoc(digit, v, p);
  }

  lemma AccountedStep(total: int, vs: seq<Digit>, qs: seq<Digit>, before: seq<Digit>, after: seq<Digit>, n: nat,
      digit: Digit)
    requires |before| == |after| && |qs| + n < |before|
    requires Accounted(total, vs, qs, before, n)
    requires after[..|qs|] == before[..|qs|] && after[|qs| + n + 1..] == before[|qs| + n + 1..]
    requires Val(before[|qs|..|qs| + n + 1]) == digit * Val(vs) + Val(after[|qs|..|qs| + n + 1])
    requires Val(after[|qs|..|qs| + n + 1]) < Val(vs) && after[|qs|] == 0
    ensures Accounted(total, vs, qs + [digit], after, n)
  {
    hide Val, BPow;
    var j := |qs|;
    WindowReplaced(before, after, j, n, digit, vs);
    ValSnoc(qs, digit);
    BPowNext(|after| - j - n - 1);
    DigitProducts(Val(vs), Val(qs), digit, BPow(|after| - j - n - 1));
    assert after[j..j + n + 1] == [after[j]] + after[j + 1..j + 1 + n];
    ValCons(after[j], after[j + 1..j + 1 + n]);
    forall k | 0 <= k < j + 1 ensures after[k] == 0 {
      if k < j {
        assert after[k] == after[..j][k] == before[..j][k] == before[k];
      }
    }
  }

  lemma BPowZero()
    ensures BPow(0) == 1
  {
  }

  lemma LeadingZeros(s: seq<Digit>, k: nat)
    requires k <= |s| && forall i :: 0 <= i < k ==> s[i] == 0
    ensures Val(s) == Val(s[k..])
  {
    assert s == s[..k] + s[k..];
    ValConcat(s[..k], s[k..]);
    ValZeros(s[..k]);
  }

  lemma AccountedEnd(total: int, vs: seq<Digit>, qs: seq<Digit>, us: seq<Digit>, n: nat)
    requires |qs| + n == |us| && Accounted(total, vs, qs, us, n)
    ensures total == Val(vs) * Val(qs) + Val(us) && Val(us) < Val(vs)
    ensures forall k :: 0 <= k < |qs| ==> us[k] == 0
  {
    hide Val, BPow;
    BPowZero();
    var w := Val(qs) * BPow(|us| - |qs| - n);
    assert w == Val(qs) by { assert |us| - |qs| - n == 0; }
    assert total == Val(vs) * w + Val(us);
    LeadingZeros(us, |qs|);
    assert us[|qs|..|qs| + n] == us[|qs|..];
  }

  lemma SubSlice(u: array<Digit>, x: nat, a: nat, b: nat)
    requires a <= b && x + b <= u.Length
    ensures u[x..][a..b] == u[x + a..x + b]
  {
  }

  lemma AccountedStart(vs: seq<Digit>, us: seq<Digit>, n: nat)
    requires n <= |us| && Val(us[0..n]) < Val(vs)
    ensures Accounted(Val(us), vs, [], us, n)
  {
    NoDigits();
  }

  lemma AccountedWindow(total: int, vs: seq<Digit>, qs: seq<Digit>, us: seq<Digit>, n: nat)
    requires |qs| + n <= |us| && Accounted(total, vs, qs, us, n)
    ensures Val(us[|qs|..|qs| + n]) < Val(vs)
  {
  }

  /** One turn of the digit loop. */
  method DivideOnce(u: array<Digit>, x: nat, v: array<Digit>, y: nat, q: array<Digit>, z: nat, m: nat, n: nat,
      j: nat, ghost total: int)
    requires u != v && u != q && v != q
    requires 2 <= n && x + m + n + 1 == u.Length && y + n + 1 == v.Length && z + m + 1 == q.Length
    requires B / 2 <= v[y + 1] && j <= m
    requires Accounted(total, v[y + 1..], q[z..z + j], u[x..], n)
    modifies u, q
    ensures Accounted(total, v[y + 1..], q[z..z + j + 1], u[x..], n)
    ensures u[..x] == old(u[..x]) && q[..z] == old(q[..z])
  {
    hide Val, BPow, Accounted;
    ghost var before, qs, vs := u[x..], q[z..z + j], v[y + 1..];
    AccountedWindow(total, vs, qs, before, n);
    assert v[y + 1..y + n + 1] == vs;
    SubSlice(u, x, j, j + n);
    SubSlice(u, x, j, j + n + 1);
    var digit := QuotientDigit(u, x + j, v, y, n);
    SubSlice(u, x, j, j + n + 1);
    ghost var after := u[x..];
    assert after[..j] == before[..j] && after[j + n + 1..] == before[j + n + 1..];
    AccountedStep(total, vs, qs, before, after, n, digit);
    q[z + j] := digit;
    assert q[z..z + j + 1] == qs + [digit];
  }

  /** D2 to D7 over u[x..x+m+n] and v[y+1..y+n]: the quotient digits go to q[z..z+m], and what is
      left of u is the remainder. */
  method ProgramD(u: array<Digit>, x: nat, v: array<Digit>, y: nat, q: array<Digit>, z: nat, m: nat, n: nat)
    requires u != v && u != q && v != q
    requires 2 <= n && x + m + n + 1 == u.Length && y + n + 1 == v.Length && z + m + 1 == q.Length
    requires B / 2 <= v[y + 1]
    requires Val(u[x..x + n]) < Val(v[y + 1..])
    modifies u, q
    ensures Val(old(u[x..])) == Val(v[y + 1..]) * Val(q[z..]) + Val(u[x..])
    ensures Val(u[x..]) < Val(v[y + 1..])
    ensures u[..x] == old(u[..x]) && forall k :: x <= k <= x + m ==> u[k] == 0
    ensures q[..z] == old(q[..z])
  {
    hide Val, BPow, Accounted;
    ghost var total := Val(u[x..]);
    var j := 0;
    SubSlice(u, x, 0, n);
    AccountedStart(v[y + 1..], u[x..], n);
    assert q[z..z + j] == [];
    while j <= m
      invariant 0 <= j <= m + 1
      invariant Accounted(total, v[y + 1..], q[z..z + j], u[x..], n)
      invariant u[..x] == old(u[..x]) && q[..z] == old(q[..z])
    {
      DivideOnce(u, x, v, y, q, z, m, n, j, total);
      j := j + 1;
    }
    assert q[z..z + m + 1] == q[z..];
    AccountedEnd(total, v[y + 1..], q[z..], u[x..], n);
  }

  // ------------------------------------------------- shifting the remainder back

  ghost function Unshifted(a: Digit, b: Digit, d: nat): int
    requires 0 < d < 16
  {
    b / Pow2(d) + (a % Pow2(d)) * Pow2(16 - d)
  }

  /** One digit of the shift back: the top of `b` joined with the low bits of `a` before it. */
  method UnshiftPair(a: Digit, b: Digit, d: nat) returns (x: Digit)
    requires 0 < d < 16
    ensures x == Unshifted(a, b, d)
  {
    hide Or, Stays, Leaves, Wrap32, LHalf, Pow2;
    var s, c := Pow2(d), Pow2(16 - d);
    ShiftFactors(d);
    KeptPart(a, c, s);
    JoinParts(a, b, c, s, 16 - d);
    OrCommutes(b / s, (a % s) * c);
    x := Or(b / s, LHalf(Wrap32(a * c)));
  }

  ghost predicate IsUnshifted(o: seq<Digit>, n: seq<Digit>, d: nat)
    requires 0 < d < 16
  {
    && |o| == |n| + 1
    && forall k {:trigger n[k]} :: 0 <= k < |n| ==> n[k] == Unshifted(o[k], o[k + 1], d)
  }

  lemma UnshiftProducts(al: int, bh: int, bl: int, b: int, x: int, rest: int, whole: int, p: int, s: int, c: int)
    requires s * c == B && b == bh * s + bl && x == bh + al * c && whole == x * p + rest
    ensures whole * s == al * (B * p) + (b * p - bl * p) + rest * s
  {
    assert x * s == bh * s + al * B by { Distribute(bh, al * c, s); Assoc(al, c, s); }
    assert (x * s) * p == b * p - bl * p + al * (B * p) by {
      Distribute(b - bl, al * B, p);
      Distribute(b, bl, p);
      Assoc(al, B, p);
    }
    assert whole * s == (x * s) * p + rest * s by { Distribute(x * p, rest, s); Assoc(x, p, s); Assoc(x, s, p); }
  }

  lemma UnshiftStep(a: Digit, b: Digit, x: int, rest: int, whole: int, p: int, d: nat)
    requires 0 < d < 16 && x == Unshifted(a, b, d)
    requires whole == x * p + rest
    ensures whole * Pow2(d) == (a % Pow2(d)) * (B * p) + (b * p - (b % Pow2(d)) * p) + rest * Pow2(d)
  {
    hide Pow2;
    ShiftFactors(d);
    UnshiftProducts(a % Pow2(d), b / Pow2(d), b % Pow2(d), b, x, rest, whole, p, Pow2(d), Pow2(16 - d));
  }

  lemma {:induction false} UnshiftedValue(o: seq<Digit>, n: seq<Digit>, d: nat)
    requires 0 < d < 16 && IsUnshifted(o, n, d)
    ensures Val(n) * Pow2(d) + o[|o| - 1] % Pow2(d) == (o[0] % Pow2(d)) * BPow(|n|) + Val(o[1..])
  {
    hide Val, BPow, Unshifted, Pow2;
    if n == [] {
      NoDigits();
      assert o[1..] == [];
    } else {
      var o', n' := o[1..], n[1..];
      assert forall k :: 0 <= k < |n'| ==> n'[k] == n[k + 1];
      UnshiftedValue(o', n', d);
      assert n == [n[0]] + n' && o' == [o'[0]] + o[2..];
      assert o'[1..] == o[2..];
      ValCons(n[0], n');
      ValCons(o'[0], o[2..]);
      BPowNext(|n'|);
      UnshiftStep(o[0], o[1], n[0], Val(n'), Val(n), BPow(|n'|), d);
    }
  }

  lemma ExactShift(val: int, r: int, last: Digit, d: nat)
    requires val * Pow2(d) + last % Pow2(d) == (0 % Pow2(d)) * BPow(0) + r * Pow2(d)
    ensures val == r
  {
    Distribute(r, val, Pow2(d));
    OnlyZeroMultiple(r - val, Pow2(d));
  }

  /** Undoing the shift digit by digit divides the value by 2^d. */
  lemma ShiftedBack(o: seq<Digit>, n: seq<Digit>, r: nat, d: nat)
    requires 0 < d < 16 && 0 < |o| == |n| && o[0] == 0 && n[0] == 0 && Val(o) == r * Pow2(d)
    requires forall k {:trigger n[k]} :: 0 < k < |n| ==> n[k] == Unshifted(o[k - 1], o[k], d)
    ensures Val(n) == r
  {
    hide Val, BPow, Pow2, Unshifted;
    var n' := n[1..];
    assert forall k {:trigger n'[k]} :: 0 <= k < |n'| ==> n'[k] == n[k + 1];
    UnshiftedValue(o, n', d);
    assert n == [n[0]] + n';
    assert o == [o[0]] + o[1..];
    ValCons(n[0], n');
    ValCons(o[0], o[1..]);
    ExactShift(Val(n), r, o[|o| - 1], d);
  }

  /** Shift u[x..x+n], whose leading digit is zero, right by `d` bits. */
  method ShiftBack(u: array<Digit>, x: nat, n: nat, d: nat, ghost r: nat)
    requires x + n + 1 == u.Length && 0 < d < 16
    requires u[x] == 0 && Val(u[x..]) == r * Pow2(d)
    modifies u
    ensures Val(u[x..]) == r
    ensures u[x] == 0 && u[..x] == old(u[..x])
  {
    hide Val, BPow, Pow2, Unshifted;
    ghost var o := u[..];
    var i := n;
    while i > 0
      invariant 0 <= i <= n
      invariant forall k :: 0 <= k <= x + i ==> u[k] == o[k]
      invariant forall k :: x + i < k < u.Length ==> u[k] == Unshifted(o[k - 1], o[k], d)
    {
      u[x + i] := UnshiftPair(u[x + i - 1], u[x + i], d);
      i := i - 1;
    }
    u[x] := 0;
    ghost var os, us := o[x..], u[x..];
    assert forall k {:trigger us[k]} :: 0 < k < |us| ==> us[k] == Unshifted(os[k - 1], os[k], d);
    ShiftedBack(os, us, r, d);
  }

  // ------------------------------------------------------ one-digit divisors

  lemma ShortQuotient(r: int, uj: Digit, t: Digit, rbj: int)
    requires 0 <= r < t && rbj == r * B + uj
    ensures 0 <= rbj / t < B && rbj == (rbj / t) * t + rbj % t
  {
    MulLe(r + 1, t, B);
    assert rbj == (rbj / t) * t + rbj % t;
    CancelLt(rbj / t, B, t);
  }

  method ShortPlace(r: UInt, uj: Digit, t: Digit) returns (qj: Digit, r': UInt)
    requires r < t
    ensures r * B + uj == qj * t + r' && r' < t
  {
    hide Combine;
    CombineIsPair(r, uj);
    var rbj := Combine(r, uj);
    ShortQuotient(r, uj, t, rbj);
    qj := rbj / t;
    r' := rbj % t;
  }

  lemma ShortProducts(u1: int, u2: int, u3: int, u4: int, q1: int, q2: int, q3: int, q4: int, r1: int, r2: int,
      r3: int, r4: int, t: int)
    requires u1 == q1 * t + r1 && r1 * B + u2 == q2 * t + r2
    requires r2 * B + u3 == q3 * t + r3 && r3 * B + u4 == q4 * t + r4
    ensures (u1 * B + u2) * W32 + (u3 * B + u4) == ((q1 * B + q2) * W32 + (q3 * B + q4)) * t + r4
  {
    Distribute((q1 * B + q2) * W32, q3 * B + q4, t);
    Distribute(q1 * B, q2, t);
    Distribute(q3 * B, q4, t);
  }

  /** Exercise 16 of Knuth's section 4.3.1: four places by a single digit. */
  method ShortDivide(u: seq<Digit>, t: Digit) returns (q: seq<Digit>, r: UInt)
    requires |u| == 4 && t > 0
    ensures |q| == 4 && Val(u) == Val(q) * t + r && r < t
  {
    hide Val;
    var q1, q2, q3, q4: Digit;
    var r1, r2, r3: UInt;
    q1, r1 := ShortPlace(0, u[0], t);
    q2, r2 := ShortPlace(r1, u[1], t);
    q3, r3 := ShortPlace(r2, u[2], t);
    q4, r := ShortPlace(r3, u[3], t);
    q := [q1, q2, q3, q4];
    FourDigits(u);
    FourDigits(q);
    ShortProducts(u[0], u[1], u[2], u[3], q1, q2, q3, q4, r1, r2, r3, r, t);
  }

  // ------------------------------------------------------------- the division

  /** Break a double word into digits behind a zero digit. */
  method Load(x: ULong) returns (a: array<Digit>)
    ensures fresh(a) && a.Length == 5 && a[0] == 0
    ensures Val(a[1..]) == x
  {
    a := new Digit[5] [0, HHalf(High(x)), LHalf(High(x)), HHalf(Low(x)), LHalf(Low(x))];
    assert a[1..] == [a[1], a[2], a[3], a[4]];
    FourDigits(a[1..]);
  }

  /** Put a double word together from four digits. */
  function Store(s: seq<Digit>): (x: ULong)
    requires |s| == 4
    ensures x == Val(s)
  {
    FourDigits(s);
    ValBound(s);
    BPowSmall();
    CombineIsPair(s[0], s[1]);
    CombineIsPair(s[2], s[3]);
    Combine(s[0], s[1]) * W32 + Combine(s[2], s[3])
  }

  /** A number whose leading digit is nonzero fills its places. */
  lemma FullLength(s: seq<Digit>)
    requires |s| > 0 && s[0] > 0
    ensures Val(s) >= BPow(|s| - 1)
  {
    hide Val, BPow;
    assert s == [s[0]] + s[1..];
    ValCons(s[0], s[1..]);
    MulLe(1, s[0], BPow(|s| - 1));
  }

  lemma {:induction false} PowerGrows(a: nat, b: nat)
    requires a <= b
    ensures Pow2(a) <= Pow2(b)
    decreases b
  {
    if a < b {
      PowerGrows(a, b - 1);
    }
  }

  /** The normalising shift: the number of doublings that bring `v1` to at least B / 2. */
  method Normaliser(v1: Digit) returns (d: nat)
    requires v1 > 0
    ensures d < 16 && B / 2 <= v1 * Pow2(d) < B
  {
    var t: UInt := v1;
    d := 0;
    while t < B / 2
      invariant t == v1 * Pow2(d) < B && d < 16
      invariant Pow2(d) <= t
      decreases B - t
    {
      Assoc(2, v1, Pow2(d));
      t := Wrap32(t * 2);
      d := d + 1;
      if d >= 16 {
        PowerGrows(16, d);
        Pow2Of16();
      }
    }
  }

  /** Nothing leaves a digit when its shifted value is still a digit. */
  lemma NothingLeaves(p: Digit, s: nat)
    requires 0 <= p * s < B
    ensures Leaves(p, s) == 0 && Stays(p, s) == p * s
  {
  }

  /** Before the first digit the leading n places of the shifted dividend are below the divisor. */
  lemma FirstWindow(o: seq<Digit>, us: seq<Digit>, vo: nat, v: nat, n: nat, s: nat)
    requires 2 <= n < |us| == |o| && o[0] == 0 && s > 0
    requires Val(us) == Val(o) * s
    requires vo >= BPow(n - 1) && v == vo * s
    ensures Val(us[0..n]) < v
  {
    hide Val, BPow;
    LeadingZeros(o, 1);
    ValBound(o[1..]);
    var head, rest := us[0..n], |us| - n;
    assert us == head + us[n..];
    ValConcat(head, us[n..]);
    BPowSplit(n - 1, rest);
    var p, t := BPow(n - 1), BPow(rest);
    assert Val(head) * t < (p * s) * t by {
      MulLe(Val(o) + 1, p * t, s);
      Distribute(Val(o), 1, s);
      Assoc(p, t, s);
      Assoc(p, s, t);
    }
    CancelLt(Val(head), p * s, t);
    MulLe(p, vo, s);
  }

  lemma ShiftedLead(o: seq<Digit>, n: seq<Digit>, s: nat)
    requires o != [] && IsShifted(o, n, s)
    ensures n[0] >= Stays(o[0], s)
  {
    if |o| > 1 {
      assert 0 <= o[1] * s by { MulLe(0, o[1], s); }
    }
  }

  /** shl on a number whose leading digit has room for the shift. */
  method ShiftUp(u: array<Digit>, x: nat, n: nat, d: nat)
    requires 0 < d < 16 && x + n + 1 == u.Length && u[x] * Pow2(d) < B
    modifies u
    ensures Val(u[x..]) == Val(old(u[x..])) * Pow2(d)
    ensures u[..x] == old(u[..x]) && u[x] >= old(u[x]) * Pow2(d)
  {
    hide Val, BPow, Leaves, Stays, Pow2;
    ghost var o, s := u[x..], Pow2(d);
    MulLe(0, u[x], s);
    NothingLeaves(u[x], s);
    Shl(u, x, n, d);
    assert u[x..x + n + 1] == u[x..] && old(u[x..x + n + 1]) == o;
    ShiftedValue(o, u[x..], s);
    ShiftedLead(o, u[x..], s);
  }

  /** D1: shift both numbers so that the divisor starts with at least B / 2. */
  method Normalise(u: array<Digit>, x: nat, v: array<Digit>, y: nat, m: nat, n: nat) returns (d: nat)
    requires u != v && 2 <= n && x + m + n + 1 == u.Length && y + n + 1 == v.Length
    requires u[x] == 0 && v[y + 1] > 0
    modifies u, v
    ensures d < 16 && B / 2 <= v[y + 1]
    ensures Val(u[x..]) == Val(old(u[x..])) * Pow2(d)
    ensures Val(v[y + 1..]) == Val(old(v[y + 1..])) * Pow2(d)
    ensures Val(u[x..x + n]) < Val(v[y + 1..])
    ensures u[..x] == old(u[..x])
  {
    hide Val, BPow, Leaves, Stays;
    ghost var o, vo := u[x..], v[y + 1..];
    d := Normaliser(v[y + 1]);
    if d > 0 {
      ShiftUp(u, x, m + n, d);
      ShiftUp(v, y + 1, n - 1, d);
    }
    FullLength(vo);
    FirstWindow(o, u[x..], Val(vo), Val(v[y + 1..]), n, Pow2(d));
    SubSlice(u, x, 0, n);
  }

  lemma {:induction false} BPowGrows(a: nat, b: nat)
    requires a <= b
    ensures BPow(a) <= BPow(b)
    decreases b
  {
    if a < b {
      BPowGrows(a, b - 1);
    }
  }

  /** A dividend no smaller than the divisor has at least as many places. */
  lemma EnoughPlaces(us: seq<Digit>, vs: seq<Digit>, k: nat)
    requires k < |us| && (forall i :: 0 <= i <= k ==> us[i] == 0)
    requires |vs| > 0 && vs[0] > 0 && Val(us) >= Val(vs)
    ensures |us| - k - 1 >= |vs|
  {
    hide Val, BPow;
    LeadingZeros(us, k + 1);
    ValBound(us[k + 1..]);
    FullLength(vs);
    if |us| - k - 1 < |vs| {
      BPowGrows(|us| - k - 1, |vs| - 1);
    }
  }

  /** Scaling both operands scales the remainder and leaves the quotient alone. */
  lemma Unscaled(u: nat, v: nat, q: nat, s: nat, rest: nat)
    requires s > 0 && u * s == (v * s) * q + rest && rest < v * s
    ensures u >= q * v && u - q * v < v && rest == (u - q * v) * s
  {
    Assoc(q, v, s);
    Distribute(u, q * v, s);
    CancelLt(-1, u - q * v, s);
    CancelLt(u - q * v, v, s);
  }

  /** The places of the dividend: m = 4 - n - x, where x leading digits of u[1..] are zero. */
  method CountPlaces(u: array<Digit>, n: nat, ghost vs: seq<Digit>) returns (x: nat, m: nat)
    requires u.Length == 5 && u[0] == 0 && |vs| == n && 2 <= n <= 4 && vs[0] > 0
    requires Val(u[1..]) >= Val(vs)
    ensures x + m + n == 4 && Val(u[x..]) == Val(u[1..]) && forall k :: 0 <= k <= x ==> u[k] == 0
  {
    hide Val, BPow;
    LeadingZeros(u[..], 1);
    assert u[..][1..] == u[1..];
    x, m := 0, 4 - n;
    while u[x + 1] == 0
      invariant x + m + n == 4 && forall k :: 0 <= k <= x ==> u[k] == 0
      decreases m
    {
      assert 0 < m by { EnoughPlaces(u[..], vs, x + 1); }
      x, m := x + 1, m - 1;
    }
    LeadingZeros(u[..], x);
    assert u[..][x..] == u[x..];
  }

  method ZeroDigits(k: nat) returns (q: array<Digit>)
    requires k <= 5
    ensures fresh(q) && q.Length == 5 && forall i :: 0 <= i < k ==> q[i] == 0
  {
    q := new Digit[5];
    var i := k;
    while i > 0
      invariant 0 <= i <= k && forall j :: i <= j < k ==> q[j] == 0
    {
      i := i - 1;
      q[i] := 0;
    }
  }

  lemma PowerZero()
    ensures Pow2(0) == 1
  {
  }

  /** The remainder u[k..4] >> d, the digits before it being zero. */
  method Remainder(u: array<Digit>, k: nat, n: nat, d: nat, ghost r: nat) returns (rem: ULong)
    requires u.Length == 5 && k + n == 4 && d < 16
    requires (forall i :: 0 <= i <= k ==> u[i] == 0) && Val(u[k..]) == r * Pow2(d)
    modifies u
    ensures rem == r
  {
    hide Val, BPow, Pow2;
    if d > 0 {
      ShiftBack(u, k, n, d, r);
      assert forall i :: 0 <= i < k ==> u[i] == u[..k][i];
    } else {
      PowerZero();
    }
    LeadingZeros(u[..], k);
    LeadingZeros(u[..], 1);
    assert u[..][1..] == u[1..] && u[..][k..] == u[k..];
    rem := Store(u[1..]);
  }

  lemma StoredTail(q: array<Digit>, k: nat, head: seq<Digit>)
    requires q.Length == 5 && 1 <= k <= 5 && q[..k] == head
    requires forall i :: 0 <= i < k ==> head[i] == 0
    ensures Val(q[1..]) == Val(q[k..])
  {
    hide Val, BPow;
    assert forall i :: 0 <= i < k ==> q[i] == q[..k][i];
    LeadingZeros(q[..], k);
    LeadingZeros(q[..], 1);
    assert q[..][1..] == q[1..] && q[..][k..] == q[k..];
  }

  method LongDivide(u: array<Digit>, v: array<Digit>, y: nat, n: nat, ghost ull: ULong, ghost vll: ULong)
      returns (quot: ULong, rem: ULong)
    requires u != v && u.Length == v.Length == 5 && 2 <= n <= 4 && y == 4 - n
    requires u[0] == 0 && Val(u[1..]) == ull
    requires v[y + 1] > 0 && Val(v[y + 1..]) == vll
    requires vll <= ull
    modifies u, v
    ensures ull == quot * vll + rem && rem < vll
  {
    hide Val, BPow, Pow2;
    var x, m := CountPlaces(u, n, v[y + 1..]);
    var q := ZeroDigits(4 - m);
    var d := Normalise(u, x, v, y, m, n);
    ghost var head := q[..4 - m];
    ProgramD(u, x, v, y, q, 4 - m, m, n);
    StoredTail(q, 4 - m, head);
    quot := Store(q[1..]);
    Unscaled(ull, vll, quot, Pow2(d), Val(u[x..]));
    LeadingZeros(u[x..], m);
    assert u[x..][m..] == u[x + m..];
    assert forall k :: 0 <= k < x ==> u[k] == u[..x][k];
    rem := Remainder(u, x + m, n, d, ull - quot * vll);
  }

  lemma OneDigit(d: Digit)
    ensures Val([d]) == d
  {
    assert [d] == [] + [d];
  }

  /** __qdivrem: quotient and remainder of every pair of double words with a nonzero divisor; a zero
      divisor traps, with the dividend stored as the remainder. */
  method Qdivrem(ull: ULong, vll: ULong) returns (trap: bool, quot: ULong, rem: ULong)
    ensures trap <==> vll == 0
    ensures vll != 0 ==> ull == quot * vll + rem && rem < vll
    ensures vll == 0 ==> rem == ull
  {
    hide Val, BPow;
    trap, quot, rem := false, 0, ull;
    if vll == 0 {
      trap := true;
      return;
    }
    if ull < vll {
      return;
    }
    var u := Load(ull);
    var v := Load(vll);
    var n, y := 4, 0;
    while v[y + 1] == 0
      invariant 2 <= n <= 4 && y == 4 - n
      invariant forall k :: 0 <= k <= y ==> v[k] == 0
      decreases n
    {
      n := n - 1;
      if n == 1 {
        LeadingZeros(v[1..], 3);
        assert v[1..][3..] == [v[4]];
        OneDigit(v[4]);
        var q, r := ShortDivide(u[1..], v[y + 2]);
        quot, rem := Store(q), r;
        return;
      }
      y := y + 1;
    }
    LeadingZeros(v[1..], y);
    assert v[1..][y..] == v[y + 1..];
    quot, rem := LongDivide(u, v, y, n, ull, vll);
  }
}
