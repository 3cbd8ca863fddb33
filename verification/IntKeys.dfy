/** kern/lib/hashtable.c: int_to_byte_string_nomalloc, which turns a descriptor number into a string
    usable as a hash table key. */
module IntKeys {
  import opened SignedDivision

  const INT_BYTES := 4

  type Int = x: int | -0x8000_0000 <= x < 0x8000_0000

  /** The byte for a remainder of either sign: shifted up one bit, the low bit set, in two's complement. */
  function Byte(d: int): int { (2 * d + 1) % 256 }

  lemma QuotientSmaller(n: int)
    ensures TruncQuot(n, 128) != 0 ==> Abs(TruncQuot(n, 128)) < Abs(n)
    ensures n >= 0 ==> TruncQuot(n, 128) == n / 128 && TruncRem(n, 128) == n % 128
    ensures n < 0 ==> TruncQuot(n, 128) == -((-n) / 128) && TruncRem(n, 128) == -((-n) % 128)
  {
  }

  /** Seven bits to a byte, least significant first, every byte odd; C division truncates. */
  function Encode(n: int): (s: seq<int>)
    ensures |s| > 0 && forall i :: 0 <= i < |s| ==> 0 < s[i] < 256 && s[i] % 2 == 1
    decreases Abs(n)
  {
    QuotientSmaller(n);
    [Byte(TruncRem(n, 128))] + if TruncQuot(n, 128) == 0 then [] else Encode(TruncQuot(n, 128))
  }

  lemma EncodeUnfold(n: int)
    ensures Encode(n) == [Byte(TruncRem(n, 128))] + if TruncQuot(n, 128) == 0 then [] else Encode(TruncQuot(n, 128))
  {
  }

  lemma EncodeStep(n: nat)
    ensures Encode(n) == [2 * (n % 128) + 1] + if n / 128 == 0 then [] else Encode(n / 128)
  {
    hide Encode, TruncRem, TruncQuot;
    EncodeUnfold(n);
    QuotientSmaller(n);
  }

  lemma EncodeNegativeStep(m: int)
    requires m > 0
    ensures Encode(-m) == [Byte(-(m % 128))] + if m / 128 == 0 then [] else Encode(-(m / 128))
  {
    hide Encode, TruncRem, TruncQuot;
    EncodeUnfold(-m);
    QuotientSmaller(-m);
  }

  // -------------------------------------------------------------- non-negative numbers

  function Decode(s: seq<int>): nat
    requires forall i :: 0 <= i < |s| ==> 0 < s[i]
  {
    if s == [] then 0 else s[0] / 2 + 128 * Decode(s[1..])
  }

  /** The key determines the number. */
  lemma {:induction false} EncodeRoundTrip(n: nat)
    ensures Decode(Encode(n)) == n
  {
    hide Encode;
    EncodeStep(n);
    var s := Encode(n);
    if n / 128 == 0 {
      assert s[1..] == [];
    } else {
      EncodeRoundTrip(n / 128);
      assert s[1..] == Encode(n / 128);
    }
  }

  lemma EncodeInjective(a: nat, b: nat)
    requires Encode(a) == Encode(b)
    ensures a == b
  {
    EncodeRoundTrip(a);
    EncodeRoundTrip(b);
  }

  function Pow128(k: nat): nat { if k == 0 then 1 else 128 * Pow128(k - 1) }

  lemma {:induction false} EncodeLength(n: nat, k: nat)
    requires k > 0 && n < Pow128(k)
    ensures |Encode(n)| <= k
  {
    hide Encode;
    EncodeStep(n);
    assert Pow128(k) == 128 * Pow128(k - 1);
    if n / 128 != 0 {
      assert k > 1;
      EncodeLength(n / 128, k - 1);
    }
  }

  // ------------------------------------------------------------------ negative numbers

  /** The number each of whose seven-bit digits is the negative of m's. */
  function Mirror(m: nat): nat { if m == 0 then 0 else (128 - m % 128) % 128 + 128 * Mirror(m / 128) }

  lemma NegatedDigit(d: nat)
    requires d < 128
    ensures var e := (128 - d) % 128; (128 - e) % 128 == d && (e == 0 <==> d == 0)
  {
  }

  lemma MirrorDigit(m: nat)
    requires m > 0
    ensures Mirror(m) % 128 == (128 - m % 128) % 128 && Mirror(m) / 128 == Mirror(m / 128)
  {
  }

  lemma MirrorPositive(m: nat)
    requires m > 0
    ensures Mirror(m) > 0
  {
    if m < 128 { NegatedDigit(m); } else { MirrorPositive(m / 128); }
  }

  lemma {:induction false} MirrorTwice(m: nat)
    ensures Mirror(Mirror(m)) == m
  {
    if m > 0 {
      var x := Mirror(m);
      MirrorPositive(m);
      MirrorTwice(m / 128);
      MirrorDigit(m);
      NegatedDigit(m % 128);
      assert Mirror(x) == (128 - x % 128) % 128 + 128 * Mirror(x / 128);
    }
  }

  lemma NegativeByte(d: int)
    requires 0 <= d < 128
    ensures Byte(-d) == 2 * ((128 - d) % 128) + 1
  {
  }

  /** A negative number's key is the key of its mirror image. */
  lemma {:induction false} NegativeKey(m: int)
    requires m > 0
    ensures Encode(-m) == Encode(Mirror(m))
  {
    hide Encode;
    var x := Mirror(m);
    EncodeNegativeStep(m);
    EncodeStep(x);
    MirrorDigit(m);
    NegativeByte(m % 128);
    if m / 128 == 0 {
      assert Mirror(m / 128) == 0;
    } else {
      MirrorPositive(m / 128);
      NegativeKey(m / 128);
    }
  }

  /** Two numbers have the same key exactly when they are equal or one is the mirror image of the other's
      negative: 127 and -1, for one. */
  lemma SameKeyIff(a: int, b: int)
    ensures Encode(a) == Encode(b) <==> a == b || (b < 0 <= a && a == Mirror(-b)) || (a < 0 <= b && b == Mirror(-a))
  {
    hide Encode, Mirror;
    if a < 0 { NegativeKey(-a); MirrorTwice(-a); }
    if b < 0 { NegativeKey(-b); MirrorTwice(-b); }
    var x: nat, y: nat := if a < 0 then Mirror(-a) else a, if b < 0 then Mirror(-b) else b;
    assert Encode(a) == Encode(x) && Encode(b) == Encode(y);
    if Encode(x) == Encode(y) { EncodeInjective(x, y); }
  }

  lemma {:induction false} MirrorBound(m: nat, k: nat)
    requires m < Pow128(k)
    ensures Mirror(m) < Pow128(k)
  {
    if m > 0 {
      assert Pow128(k) == 128 * Pow128(k - 1);
      MirrorBound(m / 128, k - 1);
    }
  }

  lemma MirrorAbove(m: nat)
    ensures Mirror(m) >= 128 * Mirror(m / 128)
  {
  }

  lemma Powers()
    ensures Pow128(4) == 0x1000_0000 && Pow128(5) == 0x8_0000_0000
  {
    assert Pow128(2) == 0x4000 && Pow128(3) == 0x20_0000;
  }

  lemma MirrorOfDigit(d: nat)
    requires 0 < d < 128
    ensures Mirror(d) == 128 - d
  {
    assert Mirror(d / 128) == 0;
  }

  lemma TopDigit(m: nat)
    requires 0x1000_0000 <= m <= 0x8000_0000
    ensures 1 <= m / 128 / 128 / 128 / 128 <= 8
  {
    var m1 := m / 128;
    assert 0x20_0000 <= m1 <= 0x100_0000;
    var m2 := m1 / 128;
    assert 0x4000 <= m2 <= 0x2_0000;
    var m3 := m2 / 128;
    assert 0x80 <= m3 <= 0x400;
  }

  /** Five digits mirror to a fifth digit of at least 120. */
  lemma MirrorIsLarge(m: nat)
    requires 0x1000_0000 <= m <= 0x8000_0000
    ensures Mirror(m) >= 0x8000_0000
  {
    hide Mirror;
    TopDigit(m);
    MirrorOfDigit(m / 128 / 128 / 128 / 128);
    MirrorAbove(m / 128 / 128 / 128);
    MirrorAbove(m / 128 / 128);
    MirrorAbove(m / 128);
    MirrorAbove(m);
  }

  /** -1 and 127 share a key. */
  lemma MinusOne()
    ensures Encode(-1) == Encode(127)
  {
    hide Encode;
    assert Mirror(1) == 127 by { MirrorOfDigit(1); }
    SameKeyIff(127, -1);
  }

  /** A negative int shares its key with a non-negative int exactly when it is above -2^28. */
  lemma CollidesIff(b: int)
    requires -0x8000_0000 <= b < 0
    ensures (exists a: Int :: a >= 0 && Encode(a) == Encode(b)) <==> b > -0x1000_0000
  {
    hide Encode;
    var m := -b;
    Powers();
    if m < 0x1000_0000 {
      MirrorBound(m, 4);
      var a: Int := Mirror(m);
      SameKeyIff(a, b);
    } else {
      MirrorIsLarge(m);
      forall a: Int | a >= 0 ensures Encode(a) != Encode(b) {
        SameKeyIff(a, b);
      }
    }
  }

  // ---------------------------------------------------------------------- every int

  /** Every int makes a key of at most five bytes, so with its NUL it fits the six bytes that
      int_to_byte_string allocates. */
  lemma EncodeFits(n: int)
    requires -0x8000_0000 <= n < 0x8000_0000
    ensures |Encode(n)| <= 5
  {
    hide Encode;
    Powers();
    if n >= 0 {
      EncodeLength(n, 5);
    } else {
      MirrorBound(-n, 5);
      NegativeKey(-n);
      EncodeLength(Mirror(-n), 5);
    }
  }

  /** int_to_byte_string_nomalloc: the key, NUL-terminated. */
  method IntToByteString(input: Int, digits: array<int>)
    requires digits.Length == INT_BYTES + 2
    modifies digits
    ensures var k := Encode(input); |k| < digits.Length && digits[..|k|] == k && digits[|k|] == 0
  {
    hide Encode, Byte, TruncRem, TruncQuot;
    EncodeFits(input);
    ghost var key := Encode(input);
    var rest: int := input;
    var digitcount := 0;
    var cond := true;
    while cond && digitcount < INT_BYTES + 2
      invariant 0 <= digitcount <= |key| <= 5
      invariant cond ==> key == digits[..digitcount] + Encode(rest)
      invariant !cond ==> key == digits[..digitcount]
      decreases |key| - digitcount, cond
    {
      EncodeUnfold(rest);
      ghost var before := digits[..digitcount];
      digits[digitcount] := Byte(TruncRem(rest, 128));
      assert digits[..digitcount + 1] == before + [Byte(TruncRem(rest, 128))];
      rest := TruncQuot(rest, 128);
      digitcount := digitcount + 1;
      cond := rest != 0;
    }
    digits[digitcount] := 0;
  }
}
