/** Consequences of the heap invariant, and how single updates of the heap keep it. */
module KmallocFacts {
  import opened Collections
  import opened KmallocState
  import Nonlinear

  // ------------------------------------------------------------ blocks of a page

  lemma SizeTable(t: nat)
    requires t < NSIZES
    ensures Blocks(t) * BlockSize(t) == PAGE && BlockSize(t) % 16 == 0 && BlockSize(t) / 16 * 16 == BlockSize(t)
  {
    if t == 0 {
    } else if t == 1 {
    } else if t == 2 {
    } else if t == 3 {
    } else if t == 4 {
    } else if t == 5 {
    } else if t == 6 {
    }
  }

  /** The number of an aligned offset's block. */
  lemma BlockNumber(t: nat, off: int) returns (q: nat)
    requires t < NSIZES && Aligned(off, t)
    ensures off == q * BlockSize(t) && q < Blocks(t)
  {
    SizeTable(t);
    var s := BlockSize(t);
    q := off / s;
    assert off == q * s;
    hide Aligned, BlockSize, Blocks;
    Nonlinear.CancelLt(q, Blocks(t), s);
  }

  lemma WithinPage(t: nat, off: int)
    requires t < NSIZES && Aligned(off, t)
    ensures 0 <= off && off + BlockSize(t) <= PAGE && off % 16 == 0
  {
    hide Aligned, BlockSize, Blocks;
    var s := BlockSize(t);
    var q := BlockNumber(t, off);
    SizeTable(t);
    Nonlinear.MulLe(q + 1, Blocks(t), s);
    Nonlinear.MulLe(0, q, s);
    Nonlinear.Distribute(q, 1, s);
    Nonlinear.Assoc(q, s / 16, 16);
    Nonlinear.QuotRem(off, 16, q * (s / 16), 0);
  }

  lemma AlignedApart(t: nat, x: int, y: int)
    requires t < NSIZES && Aligned(x, t) && Aligned(y, t) && x < y
    ensures x + BlockSize(t) <= y && y + BlockSize(t) <= PAGE
  {
    hide Aligned, BlockSize, Blocks;
    var s := BlockSize(t);
    var p := BlockNumber(t, x);
    var q := BlockNumber(t, y);
    Nonlinear.CancelLt(p, q, s);
    Nonlinear.MulLe(p + 1, q, s);
    Nonlinear.Distribute(p, 1, s);
    WithinPage(t, y);
  }

  ghost function Slots(t: nat, n: nat): (s: set<int>)
    requires t < NSIZES && n <= Blocks(t)
  {
    if n == 0 then {} else Slots(t, n - 1) + {(n - 1) * BlockSize(t)}
  }

  lemma SlotAligned(t: nat, k: nat)
    requires t < NSIZES && k < Blocks(t)
    ensures Aligned(k * BlockSize(t), t) && (k + 1) * BlockSize(t) <= PAGE
  {
    var s := BlockSize(t);
    assert s > 0;
    hide BlockSize, Blocks;
    SizeTable(t);
    Nonlinear.MulLe(k + 1, Blocks(t), s);
    Nonlinear.Distribute(k, 1, s);
    Nonlinear.MulLe(0, k, s);
    Nonlinear.QuotRem(k * s, s, k, 0);
  }

  lemma SlotAlone(t: nat, k: nat, o: int)
    requires t < NSIZES && k < Blocks(t) && Aligned(o, t) && k * BlockSize(t) <= o < (k + 1) * BlockSize(t)
    ensures o == k * BlockSize(t)
  {
    hide Aligned, BlockSize, Blocks;
    var s := BlockSize(t);
    var q := BlockNumber(t, o);
    Nonlinear.CancelLt(q, k + 1, s);
    Nonlinear.Distribute(q, 1, s);
    Nonlinear.CancelLt(k, q + 1, s);
  }

  lemma SlotStep(t: nat, k: nat)
    requires t < NSIZES && k < Blocks(t)
    ensures Aligned(k * BlockSize(t), t)
    ensures forall o :: Aligned(o, t) && k * BlockSize(t) <= o < (k + 1) * BlockSize(t) ==> o == k * BlockSize(t)
    ensures (k + 1) * BlockSize(t) <= PAGE
  {
    hide Aligned, BlockSize, Blocks;
    SlotAligned(t, k);
    forall o | Aligned(o, t) && k * BlockSize(t) <= o < (k + 1) * BlockSize(t) ensures o == k * BlockSize(t) {
      SlotAlone(t, k, o);
    }
  }

  /** Raising the bound by one block lets in one more aligned offset. */
  lemma OneMoreSlot(t: nat, m: nat, o: int)
    requires t < NSIZES && m < Blocks(t)
    ensures Aligned(o, t) && o < (m + 1) * BlockSize(t) <==>
      (Aligned(o, t) && o < m * BlockSize(t)) || o == m * BlockSize(t)
  {
    hide Aligned, BlockSize, Blocks;
    SlotStep(t, m);
    Nonlinear.Distribute(m, 1, BlockSize(t));
  }

  lemma {:induction false} SlotsMeaning(t: nat, n: nat)
    requires t < NSIZES && n <= Blocks(t)
    ensures forall o :: o in Slots(t, n) <==> Aligned(o, t) && o < n * BlockSize(t)
    ensures |Slots(t, n)| == n
  {
    if n > 0 {
      hide Aligned, BlockSize, Blocks;
      var m, s := n - 1, BlockSize(t);
      SlotsMeaning(t, m);
      assert Slots(t, n) == Slots(t, m) + {m * s};
      hide Slots;
      assert m * s !in Slots(t, m);
      forall o ensures o in Slots(t, n) <==> Aligned(o, t) && o < n * s {
        OneMoreSlot(t, m, o);
      }
    }
  }

  ghost function Elems(s: seq<nat>): set<int> { set x | x in s }

  lemma {:induction false} DistinctSize(s: seq<nat>)
    requires Distinct(s)
    ensures |Elems(s)| == |s|
  {
    if s != [] {
      var t := s[..|s| - 1];
      DistinctSize(t);
      assert s[|s| - 1] !in t;
      assert Elems(s) == Elems(t) + {s[|s| - 1]};
    }
  }

  lemma SubsetSize<T>(a: set<T>, b: set<T>)
    requires a <= b
    ensures |a| <= |b| && (|a| == |b| ==> a == b)
  {
    assert b == a + (b - a);
  }

  lemma NotNegative(t: nat, o: int)
    requires t < NSIZES && Aligned(o, t)
    ensures o >= 0
  {
  }

  lemma SlotsAll(t: nat)
    requires t < NSIZES
    ensures Blocks(t) * BlockSize(t) == PAGE
    ensures forall o: nat :: Aligned(o, t) ==> o < Blocks(t) * BlockSize(t)
  {
    SizeTable(t);
    hide BlockSize, Blocks;
  }

  /** A free list holds every block of its page exactly when it is as long as the page has blocks. */
  lemma FullFreeList(t: nat, fl: seq<nat>)
    requires t < NSIZES && Distinct(fl) && forall k :: 0 <= k < |fl| ==> Aligned(fl[k], t)
    ensures |fl| <= Blocks(t)
    ensures |fl| == Blocks(t) <==> forall o: nat :: Aligned(o, t) ==> o in fl
  {
    hide Slots, BlockSize, Blocks, Aligned;
    var s := Elems(fl);
    SlotsMeaning(t, Blocks(t));
    SlotsAll(t);
    DistinctSize(fl);
    assert s <= Slots(t, Blocks(t));
    SubsetSize(s, Slots(t, Blocks(t)));
    if forall o: nat :: Aligned(o, t) ==> o in fl {
      forall o | o in Slots(t, Blocks(t)) ensures o in s {
        NotNegative(t, o);
        var n: nat := o;
        assert n in fl;
      }
      assert s == Slots(t, Blocks(t));
    }
  }

  // ---------------------------------------------------------------- consequences

  lemma TypedOf(s: Store, v: View)
    requires Inv(s, v)
    ensures Typed(s.refs, v)
  {
    hide ListsOk, BitsOk, WholeOk, FreeOk, BlocksOk, PageAddr, BlkType;
  }

  lemma LiveOf(s: Store, v: View, a: nat)
    requires Inv(s, v) && Typed(s.refs, v) && a in v.live
    ensures LiveAt(s.refs, v, a, v.live[a])
  {
    hide ListsOk, BitsOk, WholeOk, PagesOk, LiveAt, FreeOrLive, Typed;
  }

  lemma BlockInPage(s: Store, v: View, a: nat)
    requires Inv(s, v) && a in v.live
    ensures v.live[a].id in v.all && 0 <= v.live[a].id < |s.refs| && BlkType(s.refs[v.live[a].id]) < NSIZES
    ensures Aligned(a - PageAddr(s.refs[v.live[a].id]), BlkType(s.refs[v.live[a].id]))
    ensures v.live[a].size <= BlockSize(BlkType(s.refs[v.live[a].id]))
  {
    hide Inv, PageAddr, BlkType, BlockSize, Aligned;
    TypedOf(s, v);
    LiveOf(s, v, a);
  }

  lemma FrameOf(s: Store, v: View, id: int)
    requires Inv(s, v) && id in v.all
    ensures 0 <= id < |s.refs| && PageAddr(s.refs[id]) / PAGE in v.frames
    ensures v.frames[PageAddr(s.refs[id]) / PAGE] == HeapPage(id)
  {
    hide ListsOk, BitsOk, WholeOk, FreeOk, BlocksOk, PageAddr, BlkType;
  }

  lemma PageAligned(pr: PageRef)
    ensures PageAddr(pr) % PAGE == 0
  {
  }

  lemma OtherPage(p: nat, q: nat, a: nat, b: nat, size: nat)
    requires p % PAGE == 0 && q % PAGE == 0 && p / PAGE != q / PAGE
    requires p <= a && a + size <= p + PAGE && q <= b < q + PAGE && a < b
    ensures a + size <= b
  {
  }

  lemma WholeFrame(s: Store, v: View, a: nat, f: nat)
    requires Inv(s, v) && a in v.whole && a / PAGE <= f < a / PAGE + v.whole[a]
    ensures f in v.frames && v.frames[f] == Whole(a)
  {
    hide ListsOk, BitsOk, BlocksOk, PagesOk;
  }

  lemma WholeShape(s: Store, v: View, a: nat)
    requires Inv(s, v) && a in v.whole
    ensures a % PAGE == 0 && v.whole[a] > 0
  {
    hide ListsOk, BitsOk, BlocksOk, PagesOk;
  }

  lemma SixteenthOfPage(p: int, off: int)
    requires p % PAGE == 0 && off % 16 == 0
    ensures (p + off) % 16 == 0
  {
    var q, k := p / PAGE, off / 16;
    Nonlinear.QuotRem(p + off, 16, 256 * q + k, 0);
  }

  /** A live block lies in its page, whose frame bears its mark. */
  lemma BlockPlace(s: Store, v: View, a: nat)
    requires Inv(s, v) && a in v.live
    ensures 0 <= v.live[a].id < |s.refs| && BlkType(s.refs[v.live[a].id]) < NSIZES
    ensures
      var p := PageAddr(s.refs[v.live[a].id]);
      && p <= a && a + BlockSize(BlkType(s.refs[v.live[a].id])) <= p + PAGE && p % PAGE == 0
      && p / PAGE in v.frames && v.frames[p / PAGE] == HeapPage(v.live[a].id)
  {
    hide Inv, PageAddr, BlkType, BlockSize, Aligned;
    var id := v.live[a].id;
    BlockInPage(s, v, a);
    FrameOf(s, v, id);
    PageAligned(s.refs[id]);
    WithinPage(BlkType(s.refs[id]), a - PageAddr(s.refs[id]));
  }

  lemma BlockAligned(s: Store, v: View, a: nat)
    requires Inv(s, v) && a in v.live
    ensures a % 16 == 0
  {
    hide Inv, PageAddr, BlkType, BlockSize, Aligned;
    var id := v.live[a].id;
    BlockInPage(s, v, a);
    PageAligned(s.refs[id]);
    WithinPage(BlkType(s.refs[id]), a - PageAddr(s.refs[id]));
    SixteenthOfPage(PageAddr(s.refs[id]), a - PageAddr(s.refs[id]));
  }

  lemma SamePageApart(s: Store, v: View, a: nat, b: nat)
    requires Inv(s, v) && a in v.live && b in v.live && a < b && v.live[a].id == v.live[b].id
    ensures 0 <= v.live[a].id < |s.refs| && BlkType(s.refs[v.live[a].id]) < NSIZES
    ensures a + BlockSize(BlkType(s.refs[v.live[a].id])) <= b
  {
    hide Inv, PageAddr, BlkType, BlockSize, Aligned;
    BlockInPage(s, v, a);
    BlockInPage(s, v, b);
    var pr := s.refs[v.live[a].id];
    AlignedApart(BlkType(pr), a - PageAddr(pr), b - PageAddr(pr));
  }

  /** Live blocks do not overlap, are aligned to 16 bytes, and are as large as was asked. */
  lemma LiveDisjoint(s: Store, v: View, a: nat, b: nat)
    requires Inv(s, v) && a in v.live && b in v.live && a < b
    ensures 0 <= v.live[a].id < |s.refs| && BlkType(s.refs[v.live[a].id]) < NSIZES
    ensures a + BlockSize(BlkType(s.refs[v.live[a].id])) <= b
    ensures a % 16 == 0 && v.live[a].size <= BlockSize(BlkType(s.refs[v.live[a].id]))
  {
    hide Inv, PageAddr, BlkType, BlockSize, Aligned;
    var i, j := v.live[a].id, v.live[b].id;
    BlockInPage(s, v, a);
    BlockAligned(s, v, a);
    BlockPlace(s, v, a);
    if i == j {
      SamePageApart(s, v, a, b);
    } else {
      BlockPlace(s, v, b);
      OtherPage(PageAddr(s.refs[i]), PageAddr(s.refs[j]), a, b, BlockSize(BlkType(s.refs[i])));
    }
  }

  // ---------------------------------------------------- all live allocations

  /** A live allocation of either kind: the whole block behind a small request, or a run of pages. */
  ghost predicate Extent(s: Store, v: View, a: nat, n: nat)
  {
    || (a in v.live && 0 <= v.live[a].id < |s.refs| && BlkType(s.refs[v.live[a].id]) < NSIZES
        && n == BlockSize(BlkType(s.refs[v.live[a].id])))
    || (a in v.whole && n == v.whole[a] * PAGE)
  }

  lemma ExtentPositive(s: Store, v: View, a: nat, n: nat)
    requires Inv(s, v) && Extent(s, v, a, n)
    ensures n > 0 && a % 16 == 0
  {
    hide Inv, PageAddr, BlkType, BlockSize, Aligned;
    if a in v.live {
      BlockAligned(s, v, a);
    }
    if a in v.whole {
      WholeShape(s, v, a);
      SixteenthOfPage(a, 0);
    }
  }

  lemma OnePage(p: nat, a: nat, n: nat, f: nat)
    requires p % PAGE == 0 && p <= a && 0 < n && a + n <= p + PAGE && a / PAGE <= f <= (a + n - 1) / PAGE
    ensures f == a / PAGE == p / PAGE
  {
  }

  lemma NotBothKinds(s: Store, v: View, a: nat)
    requires Inv(s, v) && a in v.live
    ensures a !in v.whole
  {
    hide Inv, PageAddr, BlkType, BlockSize, Aligned;
    BlockPlace(s, v, a);
    if a in v.whole {
      WholeShape(s, v, a);
      WholeFrame(s, v, a, a / PAGE);
      OnePage(PageAddr(s.refs[v.live[a].id]), a, 1, a / PAGE);
    }
  }

  /** The frames a live allocation touches all bear its owner's mark. */
  lemma ExtentFrames(s: Store, v: View, a: nat, n: nat, f: nat)
    requires Inv(s, v) && Extent(s, v, a, n) && a / PAGE <= f <= (a + n - 1) / PAGE
    ensures f in v.frames
    ensures a in v.live ==> v.frames[f] == HeapPage(v.live[a].id)
    ensures a !in v.live ==> v.frames[f] == Whole(a)
  {
    hide Inv, PageAddr, BlkType, BlockSize, Aligned;
    ExtentPositive(s, v, a, n);
    if a in v.live {
      NotBothKinds(s, v, a);
      BlockPlace(s, v, a);
      OnePage(PageAddr(s.refs[v.live[a].id]), a, n, f);
    } else {
      WholeShape(s, v, a);
      WholeFrame(s, v, a, f);
    }
  }

  /** Any two live allocations, blocks or runs of pages, are disjoint over their whole extent; each is
      16-byte aligned, and no address is of both kinds. */
  lemma AllocationsDisjoint(s: Store, v: View, a: nat, m: nat, b: nat, n: nat)
    requires Inv(s, v) && Extent(s, v, a, m) && Extent(s, v, b, n)
    ensures a % 16 == 0 && m > 0 && !(a in v.live && a in v.whole)
    ensures a < b ==> a + m <= b
  {
    hide Inv, BlkType, BlockSize;
    ExtentPositive(s, v, a, m);
    ExtentPositive(s, v, b, n);
    if a in v.live { NotBothKinds(s, v, a); }
    if a < b < a + m {
      var f := b / PAGE;
      ExtentFrames(s, v, a, m, f);
      ExtentFrames(s, v, b, n, f);
      if a in v.live {
        LiveDisjoint(s, v, a, b);
      }
    }
  }

  // -------------------------------------------------------------- client writes

  ghost predicate InBlock(s: Store, v: View, a: nat, w: nat)
  {
    && a in v.live
    && 0 <= v.live[a].id < |s.refs| && BlkType(s.refs[v.live[a].id]) < NSIZES
    && a <= 4 * w < a + BlockSize(BlkType(s.refs[v.live[a].id]))
  }

  ghost predicate InWhole(v: View, a: nat, w: nat)
  {
    a in v.whole && a / PAGE <= w / 1024 < a / PAGE + v.whole[a]
  }

  /** Word `w` of memory belongs to some client. */
  ghost predicate ClientWord(s: Store, v: View, w: nat)
  {
    (exists a :: InBlock(s, v, a, w)) || (exists a :: InWhole(v, a, w))
  }

  lemma WordInFrame(p: nat, a: nat, n: nat, w: nat)
    requires p % PAGE == 0 && p <= a && a + n <= p + PAGE && a <= 4 * w < a + n
    ensures w / 1024 == p / PAGE
  {
  }

  /** No word that a client owns lies in a descriptor page, or in any page that is not the client's own run
      or a page of blocks. */
  lemma ClientWordFrame(s: Store, v: View, w: nat)
    requires Inv(s, v) && ClientWord(s, v, w)
    ensures w / 1024 in v.frames && (v.frames[w / 1024].HeapPage? || v.frames[w / 1024].Whole?)
  {
    hide Inv, PageAddr, BlkType, BlockSize;
    if a :| InBlock(s, v, a, w) {
      BlockPlace(s, v, a);
      var pr := s.refs[v.live[a].id];
      WordInFrame(PageAddr(pr), a, BlockSize(BlkType(pr)), w);
    } else {
      var a :| InWhole(v, a, w);
      WholeFrame(s, v, a, w / 1024);
    }
  }

  lemma FreeIsAligned(s: Store, v: View, id: int, off: nat)
    requires Inv(s, v) && id in v.all && id in v.free && off in v.free[id]
    ensures 0 <= id < |s.refs| && BlkType(s.refs[id]) < NSIZES && Aligned(off, BlkType(s.refs[id]))
  {
    hide ListsOk, BitsOk, WholeOk, BlocksOk, PageAddr, BlkType, Aligned;
    var fl := v.free[id];
    assert FreeOk(s.mem, s.refs[id], fl);
    var k :| 0 <= k < |fl| && fl[k] == off;
  }

  lemma NotFreeAndLive(s: Store, v: View, a: nat)
    requires Inv(s, v) && a in v.live
    ensures v.live[a].id in v.free && 0 <= v.live[a].id < |s.refs|
    ensures a - PageAddr(s.refs[v.live[a].id]) !in v.free[v.live[a].id]
  {
    hide Inv, PageAddr, BlkType, BlockSize, Aligned;
    TypedOf(s, v);
    LiveOf(s, v, a);
  }

  lemma BlocksApart(s: Store, v: View, a: nat, id: int, off: nat)
    requires Inv(s, v) && a in v.live && id in v.all && id in v.free && off in v.free[id]
    ensures 0 <= id < |s.refs| && 0 <= v.live[a].id < |s.refs| && BlkType(s.refs[v.live[a].id]) < NSIZES
    ensures PageAddr(s.refs[id]) + off < a || a + BlockSize(BlkType(s.refs[v.live[a].id])) <= PageAddr(s.refs[id]) + off
  {
    hide Inv, PageAddr, BlkType, Aligned, BlockSize;
    BlockInPage(s, v, a);
    FreeIsAligned(s, v, id, off);
    FrameOf(s, v, id);
    var j := v.live[a].id;
    FrameOf(s, v, j);
    var p, q := s.refs[id], s.refs[j];
    PageAligned(p);
    PageAligned(q);
    WithinPage(BlkType(p), off);
    WithinPage(BlkType(q), a - PageAddr(q));
    if j == id {
      NotFreeAndLive(s, v, a);
      if a - PageAddr(q) < off {
        AlignedApart(BlkType(q), a - PageAddr(q), off);
      }
    } else {
      assert PageAddr(p) / PAGE != PageAddr(q) / PAGE;
    }
  }

  lemma WordsApart(x: nat, a: nat, size: nat, w: nat)
    requires x % 16 == 0 && (x < a || a + size <= x) && a <= 4 * w < a + size
    ensures x / 4 != w
  {
  }

  lemma FrameApart(p: nat, off: nat, w: nat)
    requires p % PAGE == 0 && off < PAGE && p / PAGE != w / 1024
    ensures (p + off) / 4 != w
  {
  }

  /** A free block's first word is no client's. */
  lemma FreeWordIsNotClients(s: Store, v: View, w: nat, id: int, off: nat)
    requires Inv(s, v) && ClientWord(s, v, w)
    requires id in v.all && id in v.free && off in v.free[id]
    ensures 0 <= id < |s.refs| && (PageAddr(s.refs[id]) + off) / 4 != w
  {
    hide Inv, PageAddr, BlkType, Aligned, BlockSize;
    FreeIsAligned(s, v, id, off);
    var pr := s.refs[id];
    PageAligned(pr);
    WithinPage(BlkType(pr), off);
    if a :| InBlock(s, v, a, w) {
      BlocksApart(s, v, a, id, off);
      SixteenthOfPage(PageAddr(pr), off);
      hide InWhole;
      WordsApart(PageAddr(pr) + off, a, BlockSize(BlkType(s.refs[v.live[a].id])), w);
    } else {
      var a :| InWhole(v, a, w);
      hide InBlock;
      FrameOf(s, v, id);
      WholeFrame(s, v, a, w / 1024);
      FrameApart(PageAddr(pr), off, w);
    }
  }

  ghost predicate FreeWord(mem: seq<int>, pr: PageRef, off: nat) { (PageAddr(pr) + off) / 4 < |mem| }

  lemma FreeWordInMemory(mem: seq<int>, pr: PageRef, fl: seq<nat>, k: nat)
    requires PageOk(|mem|, pr) && FreeOk(mem, pr, fl) && k < |fl|
    ensures FreeWord(mem, pr, fl[k])
  {
  }

  /** A free list is kept by writes outside its own link words. */
  lemma FreeFrame(mem: seq<int>, mem': seq<int>, pr: PageRef, fl: seq<nat>)
    requires PageOk(|mem|, pr) && FreeOk(mem, pr, fl) && |mem'| == |mem|
    requires forall k :: 0 <= k < |fl| ==>
      FreeWord(mem, pr, fl[k]) && mem'[(PageAddr(pr) + fl[k]) / 4] == mem[(PageAddr(pr) + fl[k]) / 4]
    ensures FreeOk(mem', pr, fl)
  {
    hide PageAddr, BlkType, Aligned;
  }

  /** No client write can change a free list, or anything else the heap relies on. */
  lemma ClientWriteIsHarmless(s: Store, v: View, w: nat, x: int)
    requires Quiet(s, v) && w < |s.mem| && ClientWord(s, v, w)
    ensures Quiet(s.(mem := s.mem[w := x]), v)
  {
    hide ListsOk, BitsOk, WholeOk, BlocksOk, PageAddr, BlkType, Aligned, ClientWord, NoIdlePage, FreeOk;
    var mem' := s.mem[w := x];
    forall id | id in v.all
      ensures PageOk(|mem'|, s.refs[id]) && FreeOk(mem', s.refs[id], v.free[id])
    {
      var pr, fl := s.refs[id], v.free[id];
      forall k | 0 <= k < |fl|
        ensures FreeWord(s.mem, pr, fl[k]) && mem'[(PageAddr(pr) + fl[k]) / 4] == s.mem[(PageAddr(pr) + fl[k]) / 4]
      {
        FreeWordInMemory(s.mem, pr, fl, k);
        FreeWordIsNotClients(s, v, w, id, fl[k]);
      }
      FreeFrame(s.mem, mem', pr, fl);
    }
  }
}
