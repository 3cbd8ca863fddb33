/** kern/vm/coremap.c: locate_range, the first-fit search for a run of pages. */
module PageRange {

  import opened Bitmaps
  import opened Words

  /** Pages start .. start + n - 1 exist and are all clear. */
  ghost predicate ClearRun(bits: seq<bool>, start: nat, n: nat)
  {
    start + n <= |bits| && forall k :: start <= k < start + n ==> !bits[k]
  }

  ghost predicate NoRunBelow(bits: seq<bool>, n: nat, min: nat)
  {
    forall s :: 0 <= s < min ==> !ClearRun(bits, s, n)
  }

  ghost function WithRun(bits: seq<bool>, start: nat, n: nat): seq<bool>
    requires start + n <= |bits|
  {
    seq(|bits|, k requires 0 <= k < |bits| => start <= k < start + n || bits[k])
  }

  lemma WithRunStep(bits: seq<bool>, start: nat, i: nat)
    requires start + i < |bits|
    ensures WithRun(bits, start, i + 1) == WithRun(bits, start, i)[start + i := true]
    ensures bits[start + i] ==> WithRun(bits, start, i + 1) == WithRun(bits, start, i)
    ensures WithRun(bits, start, 0) == bits
  {
    assert bits[start + i] ==> WithRun(bits, start, i + 1) == WithRun(bits, start, i);
  }

  lemma AfterRun(bits: seq<bool>, start: nat, i: nat)
    requires start + i <= |bits|
    ensures |WithRun(bits, start, i)| == |bits|
    ensures start + i < |bits| ==> WithRun(bits, start, i)[start + i] == bits[start + i]
  {
  }

  lemma LastByte(n: nat)
    ensures n <= 8 * ByteCount(n) < n + 8 && (8 * ByteCount(n) == n <==> n % 8 == 0)
  {
  }

  /** A set page at idx + i rules out every start from idx up to it, given that the pages from min to idx
      are set. */
  lemma SkipPast(bits: seq<bool>, n: nat, min: nat, idx: nat, i: nat)
    requires NoRunBelow(bits, n, min) && min <= idx && i < n && idx + i < |bits| && bits[idx + i]
    requires forall k :: min <= k < idx ==> bits[k]
    ensures NoRunBelow(bits, n, idx + i)
  {
    forall s | min <= s < idx + i ensures !ClearRun(bits, s, n) {
      if s < idx {
        assert bits[s];
      } else {
        assert s <= idx + i < s + n;
      }
    }
  }

  lemma NoneLeft(bits: seq<bool>, n: nat, min: nat)
    requires n > 0 && NoRunBelow(bits, n, min) && forall k :: min <= k < |bits| ==> bits[k]
    ensures forall s: nat :: !ClearRun(bits, s, n)
  {
    forall s: nat ensures !ClearRun(bits, s, n) {
      if s >= min && s < |bits| {
        assert bits[s];
      }
    }
  }

  lemma TooClose(bits: seq<bool>, n: nat, min: nat, idx: nat)
    requires n > 0 && NoRunBelow(bits, n, min) && idx + n > |bits|
    requires forall k :: min <= k < idx && k < |bits| ==> bits[k]
    ensures forall s: nat :: !ClearRun(bits, s, n)
  {
    forall s: nat ensures !ClearRun(bits, s, n) {
      if min <= s < idx && s < |bits| {
        assert bits[s];
      }
    }
  }

  lemma FirstFit(bits: seq<bool>, n: nat, min: nat, idx: nat)
    requires n > 0 && NoRunBelow(bits, n, min) && idx <= |bits| && forall k :: min <= k < idx ==> bits[k]
    ensures NoRunBelow(bits, n, idx)
  {
    forall s | min <= s < idx ensures !ClearRun(bits, s, n) {
      assert bits[s];
    }
  }

  /** The end-of-memory test is made on 32-bit words: it is right exactly when the sum does not wrap. */
  lemma EndTestExactIff(idx: nat, npages: nat, length: nat)
    requires idx < length < W32 && npages < W32
    ensures (Wrap32(idx + npages) > length <==> idx + npages > length) <==> idx + npages < W32
  {
  }

  /** One page in, all but one of 2^32 pages seem to fit a memory of 100. */
  lemma EndTestFails()
    ensures Wrap32(1 + (W32 - 1)) <= 100 < 1 + (W32 - 1)
  {
  }

  /** The requests that send the search past the end of its bytes: every page from which the sum does not
      wrap is in use, the last page is clear, and no padding bit follows it. */
  ghost predicate RunsOff(bits: seq<bool>, n: nat)
  {
    && |bits| > 0 && |bits| % 8 == 0 && !bits[|bits| - 1]
    && forall k :: 0 <= k < |bits| && k + n < W32 ==> bits[k]
  }

  lemma RunsOffExample()
    ensures RunsOff([true, false, false, false, false, false, false, false], W32 - 1)
  {
  }

  lemma NotOff(bits: seq<bool>, n: nat, k: nat)
    requires k < |bits| && !bits[k] && k + n < W32
    ensures !RunsOff(bits, n)
  {
  }

  class Coremap {
    const free: Bitmap
    const swappable: Bitmap

    ghost predicate Valid()
      reads free.v, swappable.v
    {
      free.Valid() && swappable.Valid() && free.nbits == swappable.nbits && free.v != swappable.v
    }

    /** coremap_free and coremap_swappable over the same pages. */
    constructor (npages: nat)
      ensures Valid() && free.nbits == npages && fresh(free.v) && fresh(swappable.v)
      ensures forall k :: 0 <= k < npages ==> !free.Bits()[k] && !swappable.Bits()[k]
    {
      free := new Bitmap(npages);
      swappable := new Bitmap(npages);
    }

    /** The loop that clears the pages marked so far, last to first. */
    method RollBack(bm: Bitmap, idx: nat, i: nat, ghost was: seq<bool>)
      requires bm.Valid() && |was| == bm.nbits && idx + i <= bm.nbits
      requires bm.Bits() == WithRun(was, idx, i) && forall k :: idx <= k < idx + i ==> !was[k]
      modifies bm.v
      ensures bm.Valid() && bm.Bits() == was
    {
      var j := i;
      while j > 0
        invariant 0 <= j <= i && bm.Valid() && bm.Bits() == WithRun(was, idx, j)
      {
        WithRunStep(was, idx, j - 1);
        j := j - 1;
        bm.Unmark(idx + j);
        assert WithRun(was, idx, j + 1)[idx + j := false] == WithRun(was, idx, j);
      }
      assert WithRun(was, idx, 0) == was;
    }

    /** The loop that marks the rest of a run, or rolls it back when it meets a page in use; the padding
        after the last page is in use.  With no padding, a run that passes the last page is off the end. */
    method MarkRun(bm: Bitmap, idx: nat, npages: nat, ghost was: seq<bool>)
        returns (success: bool, stop: nat, overrun: bool)
      requires bm.Valid() && |was| == bm.nbits && idx < bm.nbits && npages > 0
      requires bm.Bits() == was[idx := true] && !was[idx]
      modifies bm.v
      ensures bm.Valid() && !(success && overrun)
      ensures success ==> ClearRun(was, idx, npages) && bm.Bits() == WithRun(was, idx, npages)
      ensures overrun ==> ClearRun(was, idx, bm.nbits - idx) && bm.Bits() == WithRun(was, idx, bm.nbits - idx)
      ensures overrun ==> bm.nbits % 8 == 0 && bm.nbits - idx < npages
      ensures !success && !overrun ==> bm.Bits() == was && 0 < stop < npages && idx + stop <= bm.nbits
      ensures !success && !overrun ==> if idx + stop < bm.nbits then was[idx + stop] else bm.nbits % 8 != 0
    {
      hide BitsOf, PaddingSet, WithRun, ByteCount;
      LastByte(bm.nbits);
      WithRunStep(was, idx, 0);
      var i := 1;
      success, stop, overrun := true, 0, false;
      while i < npages
        invariant 1 <= i <= npages && idx + i <= bm.nbits && bm.Valid() && bm.Bits() == WithRun(was, idx, i)
        invariant forall k :: idx <= k < idx + i ==> !was[k]
      {
        if idx + i >= 8 * bm.v.Length {
          return false, i, true;
        }
        AfterRun(was, idx, i);
        var taken := bm.IsSet(idx + i);
        if taken {
          RollBack(bm, idx, i, was);
          return false, i, false;
        }
        WithRunStep(was, idx, i);
        bm.Mark(idx + i);
        i := i + 1;
      }
    }

    /** The loop that sets the run in both bitmaps. */
    method MarkBoth(idx: nat, npages: nat)
      requires Valid() && idx + npages <= free.nbits
      modifies free.v, swappable.v
      ensures Valid()
      ensures free.Bits() == WithRun(old(free.Bits()), idx, npages)
      ensures swappable.Bits() == WithRun(old(swappable.Bits()), idx, npages)
    {
      ghost var f, s := free.Bits(), swappable.Bits();
      assert WithRun(f, idx, 0) == f && WithRun(s, idx, 0) == s;
      hide WithRun, BitsOf, PaddingSet;
      var i := 0;
      while i < npages
        invariant i <= npages && Valid()
        invariant free.Bits() == WithRun(f, idx, i) && swappable.Bits() == WithRun(s, idx, i)
      {
        WithRunStep(f, idx, i);
        WithRunStep(s, idx, i);
        MarkIfClear(free, idx + i);
        MarkIfClear(swappable, idx + i);
        i := i + 1;
      }
    }

    method MarkIfClear(bm: Bitmap, k: nat)
      requires bm.Valid() && k < bm.nbits
      modifies bm.v
      ensures bm.Valid() && bm.Bits() == old(bm.Bits())[k := true]
    {
      var taken := bm.IsSet(k);
      if !taken {
        bm.Mark(k);
      } else {
        assert bm.Bits() == old(bm.Bits())[k := true];
      }
    }

    /** The search of one bitmap: the lowest run of clear pages, marked; or, when there is none, the bitmap
        as it was.  It leaves the bitmap's bytes on exactly the requests of RunsOff. */
    method Search(bm: Bitmap, npages: nat) returns (err: nat, result: nat, overrun: bool)
      requires bm.Valid() && bm.nbits <= W32 / 2 && 0 < npages < W32
      modifies bm.v
      ensures bm.Valid() && (overrun <==> RunsOff(old(bm.Bits()), npages)) && (err == 0 || err == ENOSPC)
      ensures !overrun && err == 0 ==>
        && ClearRun(old(bm.Bits()), result, npages) && NoRunBelow(old(bm.Bits()), npages, result)
        && bm.Bits() == WithRun(old(bm.Bits()), result, npages)
      ensures !overrun && err == ENOSPC ==>
        bm.Bits() == old(bm.Bits()) && forall s: nat :: !ClearRun(old(bm.Bits()), s, npages)
    {
      hide BitsOf, PaddingSet, WithRun;
      ghost var was := bm.Bits();
      var min := 0;
      while min < bm.nbits
        invariant bm.Valid() && bm.Bits() == was && NoRunBelow(was, npages, min) && min <= |was|
        invariant npages > |was| ==> forall k :: 0 <= k < min && k + npages < W32 ==> was[k]
        invariant 0 < min == |was| ==> |was| % 8 != 0 && npages > |was|
        decreases bm.nbits - min
      {
        var failed, idx := bm.AllocAfter(min);
        if failed != 0 {
          NoneLeft(was, npages, min);
          return failed, 0, false;
        }
        assert forall k :: min <= k < idx ==> was[k];
        if Wrap32(idx + npages) > bm.nbits {
          bm.Unmark(idx);
          assert was[idx := true][idx := false] == was;
          NotOff(was, npages, idx);
          TooClose(was, npages, min, idx);
          return ENOSPC, 0, false;
        }
        var success, i, off := MarkRun(bm, idx, npages, was);
        if off {
          return ENOSPC, 0, true;
        }
        if success {
          NotOff(was, npages, idx);
          FirstFit(was, npages, min, idx);
          return 0, idx, false;
        }
        if idx + i < |was| {
          SkipPast(was, npages, min, idx, i);
        }
        min := idx + i;
      }
      NoneLeft(was, npages, min);
      return ENOSPC, 0, false;
    }

    /** locate_range: the lowest run of clear pages in the chosen bitmap, marked in both; or, when there is
        none, both bitmaps as they were.  Asked for no pages it takes the lowest clear page in that bitmap
        alone.  A 32-bit machine has at most 2^20 pages. */
    method LocateRange(inFree: bool, npages: nat) returns (err: nat, result: nat, overrun: bool)
      requires Valid() && free.nbits <= W32 / 2 && npages < W32
      modifies free.v, swappable.v
      ensures Valid() && (err == 0 || err == ENOSPC)
      ensures overrun <==> RunsOff(old(if inFree then free.Bits() else swappable.Bits()), npages)
      ensures
        var was := old(if inFree then free.Bits() else swappable.Bits());
        !overrun ==>
        && (err == 0 && npages > 0 ==> ClearRun(was, result, npages) && NoRunBelow(was, npages, result))
        && (err == ENOSPC && npages > 0 ==> forall s: nat :: !ClearRun(was, s, npages))
        && (err == 0 && npages == 0 ==> result < |was| && !was[result] && forall k :: 0 <= k < result ==> was[k])
        && (err == ENOSPC && npages == 0 ==> forall k :: 0 <= k < |was| ==> was[k])
      ensures !overrun && err == 0 && npages > 0 ==>
        && free.Bits() == WithRun(old(free.Bits()), result, npages)
        && swappable.Bits() == WithRun(old(swappable.Bits()), result, npages)
      ensures !overrun && err == ENOSPC ==>
        free.Bits() == old(free.Bits()) && swappable.Bits() == old(swappable.Bits())
      ensures !overrun && err == 0 && npages == 0 ==>
        if inFree then free.Bits() == old(free.Bits())[result := true] && swappable.Bits() == old(swappable.Bits())
        else swappable.Bits() == old(swappable.Bits())[result := true] && free.Bits() == old(free.Bits())
    {
      hide BitsOf, PaddingSet;
      var bm := if inFree then free else swappable;
      ghost var was := bm.Bits();
      if npages == 0 {
        err, result, overrun := ENOSPC, 0, false;
        if bm.nbits > 0 {
          err, result := bm.AllocAfter(0);
          if err == 0 { NotOff(was, npages, result); }
        }
        return;
      }
      err, result, overrun := Search(bm, npages);
      if !overrun && err == 0 {
        MarkBoth(result, npages);
        assert WithRun(WithRun(was, result, npages), result, npages) == WithRun(was, result, npages);
      }
    }
  }
}
