/** kern/lib/bitmap.c: a bitmap kept in an array of bytes, with the bits past its end marked in use. */
module Bitmaps {

  const ENOSPC := 36

  /** (WORD_TYPE)1 << o */
  function Mask(o: nat): bv8
    requires o < 8
  { 1 << o }

  predicate Test(b: bv8, o: nat)
    requires o < 8
  { b & Mask(o) != 0 }

  lemma MaskTable()
    ensures Mask(0) == 1 && Mask(1) == 2 && Mask(2) == 4 && Mask(3) == 8
    ensures Mask(4) == 16 && Mask(5) == 32 && Mask(6) == 64 && Mask(7) == 128
  {
  }

  lemma OrMask(b: bv8, o: nat, p: nat)
    requires o < 8 && p < 8
    ensures Test(b | Mask(o), p) <==> p == o || Test(b, p)
  {
    MaskTable();
  }

  lemma AndNotMask(b: bv8, o: nat, p: nat)
    requires o < 8 && p < 8
    ensures Test(b & !Mask(o), p) <==> p != o && Test(b, p)
  {
    MaskTable();
  }

  lemma AllOnes(b: bv8)
    ensures b == 0xff <==> forall p :: 0 <= p < 8 ==> Test(b, p)
  {
    MaskTable();
    if forall p :: 0 <= p < 8 ==> Test(b, p) {
      assert Test(b, 0) && Test(b, 1) && Test(b, 2) && Test(b, 3);
      assert Test(b, 4) && Test(b, 5) && Test(b, 6) && Test(b, 7);
    }
  }

  function ByteCount(nbits: nat): nat { (nbits + 7) / 8 }

  /** Bit k of a row of bytes. */
  predicate BitOf(w: seq<bv8>, k: nat)
    requires k < 8 * |w|
  { Test(w[k / 8], k % 8) }

  ghost function BitsOf(w: seq<bv8>, nbits: nat): (s: seq<bool>)
    requires nbits <= 8 * |w|
    ensures |s| == nbits
  {
    seq(nbits, k requires 0 <= k < nbits => BitOf(w, k))
  }

  /** The byte after bit o of it is set or cleared. */
  function Write(b: bv8, o: nat, on: bool): bv8
    requires o < 8
  { if on then b | Mask(o) else b & !Mask(o) }

  lemma TestWrite(b: bv8, o: nat, on: bool, p: nat)
    requires o < 8 && p < 8
    ensures Test(Write(b, o, on), p) == if p == o then on else Test(b, p)
  {
    OrMask(b, o, p);
    AndNotMask(b, o, p);
  }

  lemma WriteBit(w: seq<bv8>, k: nat, on: bool, j: nat)
    requires k < 8 * |w| && j < 8 * |w|
    ensures BitOf(w[k / 8 := Write(w[k / 8], k % 8, on)], j) == if j == k then on else BitOf(w, j)
  {
    hide Test, Write;
    TestWrite(w[k / 8], k % 8, on, j % 8);
  }

  ghost predicate PaddingSet(w: seq<bv8>, nbits: nat)
  {
    forall k :: nbits <= k < 8 * |w| ==> BitOf(w, k)
  }

  lemma WriteBits(w: seq<bv8>, nbits: nat, k: nat, on: bool)
    requires k < nbits <= 8 * |w|
    ensures
      var w' := w[k / 8 := Write(w[k / 8], k % 8, on)];
      && BitsOf(w', nbits) == BitsOf(w, nbits)[k := on]
      && (PaddingSet(w, nbits) ==> PaddingSet(w', nbits))
  {
    hide BitOf, Write;
    var w' := w[k / 8 := Write(w[k / 8], k % 8, on)];
    forall j | 0 <= j < 8 * |w| ensures BitOf(w', j) == if j == k then on else BitOf(w, j) {
      WriteBit(w, k, on, j);
    }
    assert BitsOf(w', nbits) == BitsOf(w, nbits)[k := on];
  }

  lemma ZeroBits(w: seq<bv8>)
    requires forall i :: 0 <= i < |w| ==> w[i] == 0
    ensures forall k :: 0 <= k < 8 * |w| ==> !BitOf(w, k)
  {
    forall k | 0 <= k < 8 * |w| ensures !BitOf(w, k) {
      assert w[k / 8] == 0;
    }
  }

  ghost predicate TakenUpTo(w: seq<bv8>, min: nat, top: nat)
  {
    forall k :: min <= k < top && k < 8 * |w| ==> BitOf(w, k)
  }

  lemma LeastClear(w: seq<bv8>, min: nat, ix: nat, start: nat, offset: nat)
    requires ix < |w| && start <= offset < 8 && (start == 0 || 8 * ix + start == min)
    requires TakenUpTo(w, min, 8 * ix) && (forall p :: start <= p < offset ==> Test(w[ix], p)) && !Test(w[ix], offset)
    ensures TakenUpTo(w, min, 8 * ix + offset) && !BitOf(w, 8 * ix + offset)
  {
    hide Test;
    forall k | min <= k < 8 * ix + offset ensures BitOf(w, k) {
      if k >= 8 * ix {
        assert k / 8 == ix && k % 8 == k - 8 * ix;
      }
    }
    var k := 8 * ix + offset;
    assert k / 8 == ix && k % 8 == offset;
  }

  lemma WordTaken(w: seq<bv8>, min: nat, ix: nat, start: nat)
    requires ix < |w| && start <= 8 && (start == 0 || 8 * ix + start == min)
    requires TakenUpTo(w, min, 8 * ix) && forall p :: start <= p < 8 ==> Test(w[ix], p)
    ensures TakenUpTo(w, min, 8 * (ix + 1))
  {
    hide Test;
    forall k | min <= k < 8 * (ix + 1) ensures BitOf(w, k) {
      if k >= 8 * ix {
        assert k / 8 == ix && k % 8 == k - 8 * ix;
      }
    }
  }

  lemma NotPadding(w: seq<bv8>, nbits: nat, index: nat)
    requires |w| == ByteCount(nbits) && PaddingSet(w, nbits) && index < 8 * |w| && !BitOf(w, index)
    ensures index < nbits
  {
  }

  class Bitmap {
    const nbits: nat
    const v: array<bv8>

    ghost predicate Valid()
      reads v
    { v.Length == ByteCount(nbits) && PaddingSet(v[..], nbits) }

    ghost function Bits(): seq<bool>
      requires v.Length == ByteCount(nbits)
      reads v
    { BitsOf(v[..], nbits) }

    /** Every bit clear, and the left-over bits of the last byte marked so that none is ever handed out. */
    constructor (n: nat)
      ensures Valid() && fresh(v) && nbits == n
      ensures forall k :: 0 <= k < n ==> !Bits()[k]
    {
      nbits := n;
      var words := ByteCount(n);
      var w := new bv8[words](_ => 0);
      ZeroBits(w[..]);
      if words > n / 8 {
        var ix := words - 1;
        var j := n - ix * 8;
        while j < 8
          invariant n - ix * 8 <= j <= 8 && ix == words - 1 == n / 8 && w.Length == words
          invariant forall k :: 0 <= k < 8 * words ==> (BitOf(w[..], k) <==> n <= k < ix * 8 + j)
        {
          hide BitOf, Write;
          ghost var before := w[..];
          w[ix] := Write(w[ix], j, true);
          assert w[..] == before[ix := Write(before[ix], j, true)];
          assert (ix * 8 + j) / 8 == ix && (ix * 8 + j) % 8 == j;
          forall k | 0 <= k < 8 * words ensures BitOf(w[..], k) <==> n <= k < ix * 8 + j + 1 {
            WriteBit(before, ix * 8 + j, true, k);
          }
          j := j + 1;
        }
      }
      v := w;
      hide BitOf;
    }

    method SetBit(k: nat, on: bool)
      requires Valid() && k < nbits
      modifies v
      ensures Valid() && Bits() == old(Bits())[k := on]
    {
      hide BitOf, Write, BitsOf;
      WriteBits(v[..], nbits, k, on);
      v[k / 8] := Write(v[k / 8], k % 8, on);
      assert v[..] == old(v[..])[k / 8 := Write(old(v[k / 8]), k % 8, on)];
    }

    method Mark(index: nat)
      requires Valid() && index < nbits && !Bits()[index]
      modifies v
      ensures Valid() && Bits() == old(Bits())[index := true]
    {
      SetBit(index, true);
    }

    /** Clearing a bit that is already clear is allowed. */
    method Unmark(index: nat)
      requires Valid() && index < nbits
      modifies v
      ensures Valid() && Bits() == old(Bits())[index := false]
    {
      SetBit(index, false);
    }

    /** Any bit of the array may be read, padding included, which counts as in use. */
    method IsSet(index: nat) returns (r: bool)
      requires Valid() && index < 8 * v.Length
      ensures r == (index < nbits ==> Bits()[index])
    {
      hide Test;
      r := Test(v[index / 8], index % 8);
      assert r == BitOf(v[..], index);
    }

    /** Takes the least clear bit at or above min, which is never a padding bit; if it fails there is
        none and nothing has changed. */
    method AllocAfter(min: nat) returns (err: nat, index: nat)
      requires Valid()
      modifies v
      ensures Valid() && (err == 0 || err == ENOSPC)
      ensures err == 0 ==>
        && min <= index < nbits && !old(Bits())[index] && Bits() == old(Bits())[index := true]
        && forall k :: min <= k < index ==> old(Bits())[k]
      ensures err == ENOSPC ==> Bits() == old(Bits()) && forall k :: min <= k < nbits ==> Bits()[k]
    {
      hide Test, BitOf, Write, PaddingSet;
      index := 0;
      var maxix := ByteCount(nbits);
      var offset := min % 8;
      var first := true;
      var ix := min / 8;
      ghost var w := v[..];
      while ix < maxix
        invariant v[..] == w && min / 8 <= ix && (first <==> ix == min / 8) && (first ==> offset == min % 8)
        invariant TakenUpTo(w, min, 8 * ix)
        decreases maxix - ix
      {
        AllOnes(v[ix]);
        if v[ix] != 0xff {
          if !first {
            offset := 0;
          }
          ghost var start := offset;
          while offset < 8
            invariant start <= offset <= 8 && v[..] == w
            invariant forall p :: start <= p < offset ==> Test(w[ix], p)
          {
            if !Test(v[ix], offset) {
              index := ix * 8 + offset;
              LeastClear(w, min, ix, start, offset);
              NotPadding(w, nbits, index);
              SetBit(index, true);
              err := 0;
              assert forall k :: min <= k < index ==> BitsOf(w, nbits)[k];
              return;
            }
            offset := offset + 1;
          }
          assert first;
          WordTaken(w, min, ix, start);
        } else {
          WordTaken(w, min, ix, 0);
        }
        first := false;
        ix := ix + 1;
      }
      err := ENOSPC;
      assert forall k :: min <= k < nbits ==> BitsOf(w, nbits)[k];
    }
  }
}
