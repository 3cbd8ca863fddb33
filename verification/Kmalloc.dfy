/** kern/vm/kmalloc.c: the pool allocator itself.  Each method below is one stretch of code that runs
    with kmalloc_spinlock held; Kmalloc and Kfree string them together and let every other thread run
    in between. */
module Kmalloc {
  import opened KmallocState
  import opened KmallocFacts
  import opened KmallocSteps
  import opened KmallocLemmas

  /** The index of the smallest block size that holds `clientsz` bytes; too large is a panic. */
  method Blocktype(clientsz: nat) returns (panic: bool, t: nat)
    ensures panic <==> clientsz > 2048
    ensures !panic ==> t < NSIZES && clientsz <= BlockSize(t) && forall u :: 0 <= u < t ==> BlockSize(u) < clientsz
  {
    t := 0;
    while t < NSIZES
      invariant t <= NSIZES
      invariant forall u :: 0 <= u < t ==> BlockSize(u) < clientsz
    {
      if clientsz <= BlockSize(t) {
        return false, t;
      }
      t := t + 1;
    }
    assert BlockSize(7) < clientsz;
    panic := true;
  }

  /** remove_lists, for one of the two lists: walk to `id` and point its predecessor past it. */
  method UnlinkFrom(r: seq<PageRef>, onAll: bool, head: int, id: int, ghost l: seq<int>)
      returns (r': seq<PageRef>, head': int)
    requires Linked(r, onAll, head, l)
    ensures Linked(r', onAll, head', Without(l, id)) && Relinks(r, r', onAll)
    ensures forall i :: 0 <= i < |r| && i !in l ==> r'[i] == r[i]
  {
    hide Linked, Without;
    r', head' := r, head;
    var prev, cur := -1, head;
    ghost var k := 0;
    LinkedWalk(r, onAll, head, l, 0);
    while cur != -1
      invariant 0 <= k <= |l| && cur == At(l, k) && (k == 0 <==> prev == -1) && (k > 0 ==> prev == l[k - 1])
      invariant forall j :: 0 <= j < k ==> l[j] != id
      decreases |l| - k
    {
      LinkedWalk(r, onAll, head, l, k);
      if cur == id {
        LinkedUnlink(r, onAll, head, l, k);
        if prev == -1 {
          head' := Next(r[cur], onAll);
        } else {
          LinkedWalk(r, onAll, head, l, k - 1);
          r' := r[prev := SetNext(r[prev], onAll, Next(r[cur], onAll))];
        }
        return;
      }
      prev, cur := cur, Next(r[cur], onAll);
      k := k + 1;
    }
    LinkedWalk(r, onAll, head, l, k);
    WithoutNone(l, id);
  }

  class KHeap {
    var mem: seq<int>
    var refs: seq<PageRef>
    var inuse: seq<bool>
    var numinuse: seq<nat>
    var rootPage: seq<nat>
    var sizebases: seq<int>
    var allbase: int
    var granted: map<nat, nat>  // page frames alloc_kpages has handed out, with the start of their run
    var v: View                 // what the lists stand for and who holds what; only OthersRun consults it

    function S(): Store
      reads this
    {
      Store(mem, refs, inuse, numinuse, rootPage, sizebases, allbase)
    }

    ghost predicate Locked()
      reads this
    {
      Inv(S(), v) && GrantsOk(granted, v)
    }

    ghost predicate Unlocked()
      reads this
    {
      Quiet(S(), v) && GrantsOk(granted, v)
    }

    constructor (memory: seq<int>)
      ensures Unlocked() && mem == memory && granted == map[] && v.live == map[] && v.whole == map[] && v.pending == {}
      ensures v.all == [] && |v.same| == NSIZES && (forall t :: 0 <= t < NSIZES ==> v.same[t] == [])
      ensures |inuse| == TOTAL && (forall i :: 0 <= i < TOTAL ==> !inuse[i])
      ensures |rootPage| == NROOTS && (forall r :: 0 <= r < NROOTS ==> rootPage[r] == 0)
    {
      mem := memory;
      refs := seq(TOTAL, i => PageRef(-1, -1, 0, INVALID_OFFSET, 0));
      inuse := seq(TOTAL, i => false);
      numinuse := seq(NROOTS, i => 0);
      rootPage := seq(NROOTS, i => 0);
      sizebases := seq(NSIZES, i => -1);
      allbase := -1;
      granted := map[];
      v := View([], seq(NSIZES, i => []), map[], map[], map[], {}, map[]);
      new;
      forall r | 0 <= r < NROOTS ensures numinuse[r] == Count(RootBits(inuse, r)) {
        CountBound(RootBits(inuse, r));
      }
    }

    /** doalloc: unlink the first free block of page `id` and hand it out. */
    method TakeBlock(id: int, size: nat) returns (ptr: nat)
      requires Locked() && id in v.all && 0 <= id < |refs| && refs[id].nfree > 0
      requires BlkType(refs[id]) < NSIZES && size <= BlockSize(BlkType(refs[id]))
      modifies this`refs, this`v
      ensures Locked() && ptr !in old(v.live)
      ensures id in old(v.free) && old(v.free[id]) != [] && v == old(TookView(S(), v, id, size))
      ensures ptr == old(PageAddr(refs[id]) + v.free[id][0])
      ensures refs == old(refs[id := Rest(refs[id], v.free[id])])
    {
      hide ListsOk, PagesOk, BlocksOk, WholeOk, BitsOk, PageAddr, BlkType, BlockSize, PageOk, FreeOk, Aligned;
      FreeOf(mem, refs, v, id);
      ghost var fl := v.free[id];
      FreeListHead(mem, refs[id], fl);
      TakeKeeps(S(), v, id, size);
      assert refs[id].flOff < PAGE;
      var pr := refs[id];
      var prpage := PageAddr(pr);
      ptr := prpage + pr.flOff;
      var next := mem[ptr / 4];
      v := TookView(S(), v, id, size);
      if next != 0 {
        assert pr.nfree - 1 > 0 && 0 <= next - prpage < PAGE;
        refs := refs[id := pr.(nfree := pr.nfree - 1, flOff := next - prpage)];
      } else {
        assert pr.nfree - 1 == 0;
        refs := refs[id := pr.(nfree := pr.nfree - 1, flOff := INVALID_OFFSET)];
      }
    }

    /** The walk along the pages of one size: the first with room, or -1. */
    method PageWithRoom(t: nat) returns (pr: int)
      requires Unlocked() && t < NSIZES
      ensures t < |v.same|
      ensures pr != -1 ==> pr in v.same[t] && 0 <= pr < |refs| && refs[pr].nfree > 0 && HasRoom(refs, v.same[t])
      ensures pr == -1 ==> forall id :: id in v.same[t] ==> 0 <= id < |refs| && refs[id].nfree == 0
    {
      ListsSizes(refs, sizebases, allbase, v);
      ghost var l, k := v.same[t], 0;
      assert Linked(refs, false, sizebases[t], l);
      hide Quiet, GrantsOk, Linked;
      LinkedWalk(refs, false, sizebases[t], l, 0);
      pr := sizebases[t];
      while pr != -1
        invariant 0 <= k <= |l| && pr == At(l, k)
        invariant forall j :: 0 <= j < k ==> 0 <= l[j] < |refs| && refs[l[j]].nfree == 0
        decreases |l| - k
      {
        assert pr in l;
        LinkedWalk(refs, false, sizebases[t], l, k);
        if refs[pr].nfree > 0 {
          return;
        }
        pr := refs[pr].nextSame;
        k := k + 1;
      }
      LinkedWalk(refs, false, sizebases[t], l, k);
    }

    /** First locked section of subpage_kmalloc: look for a page of the right size with room. */
    method TrySubpage(t: nat, size: nat) returns (found: bool, ptr: nat)
      requires Unlocked() && t < NSIZES && size <= BlockSize(t)
      modifies this`refs, this`v
      ensures Unlocked()
      ensures found ==> Handed(old(v), v, ptr, size)
      ensures found ==> t < |old(v.same)| && HasRoom(old(refs), old(v.same)[t])
      ensures !found ==> v == old(v) && refs == old(refs) && t < |v.same|
      ensures !found ==> forall id :: id in v.same[t] ==> 0 <= id < |refs| && refs[id].nfree == 0
    {
      hide Inv, GrantsOk, NoIdlePage, PageAddr, BlkType, BlockSize, HasRoom;
      var pr := PageWithRoom(t);
      if pr == -1 {
        return false, 0;
      }
      OfItsSize(S(), v, t, pr);
      TakeStaysQuiet(S(), v, pr, size);
      ptr := TakeBlock(pr, size);
      found := true;
    }

    /** The first clear bit of a root that is not full. */
    method FirstClear(r: nat) returns (id: nat)
      requires |inuse| == TOTAL && r < NROOTS && Count(RootBits(inuse, r)) < NPAGEREFS
      ensures r * NPAGEREFS <= id < (r + 1) * NPAGEREFS && !inuse[id]
      ensures forall i :: r * NPAGEREFS <= i < id ==> inuse[i]
    {
      var base, i := r * NPAGEREFS, 0;
      while i < NPAGEREFS / 32
        invariant 0 <= i <= 8
        invariant forall k :: base <= k < base + 32 * i ==> inuse[k]
      {
        if exists k :: base + 32 * i <= k < base + 32 * i + 32 && !inuse[k] {
          var j := 0;
          while j < 32
            invariant 0 <= j <= 32
            invariant forall k :: base + 32 * i <= k < base + 32 * i + j ==> inuse[k]
          {
            if !inuse[base + 32 * i + j] {
              return base + 32 * i + j;
            }
            j := j + 1;
          }
          assert false;
        }
        i := i + 1;
      }
      id := 0;
      CountBound(RootBits(inuse, r));
      assert false;
    }

    /** First part of allocpageref: mark the first free descriptor. */
    method Reserve() returns (ok: bool, id: nat)
      requires Unlocked()
      modifies this`inuse, this`numinuse, this`v
      ensures Unlocked()
      ensures ok ==> id < TOTAL && id !in old(v.pending) && id !in v.all && v == old(v.(pending := v.pending + {id}))
      ensures ok ==> NextClear(old(inuse), id) && inuse == old(inuse)[id := true]
      ensures ok ==> |old(numinuse)| == NROOTS && Adjusted(old(numinuse), numinuse, id, true)
      ensures !ok ==> v == old(v) && inuse == old(inuse) && numinuse == old(numinuse) && AllUsed(inuse)
    {
      hide ListsOk, PagesOk, BlocksOk, WholeOk, Count, RootBits;
      var r := 0;
      while r < NROOTS
        invariant 0 <= r <= NROOTS && v == old(v) && inuse == old(inuse) && numinuse == old(numinuse)
        invariant forall i :: 0 <= i < r * NPAGEREFS ==> inuse[i]
        invariant forall k :: 0 <= k < r ==> numinuse[k] == NPAGEREFS
      {
        if numinuse[r] < NPAGEREFS {
          id := FirstClear(r);
          ReserveKeeps(S(), v, id, numinuse[r := numinuse[r] + 1]);
          v := v.(pending := v.pending + {id});
          inuse := inuse[id := true];
          numinuse := numinuse[r := numinuse[r] + 1];
          ok := true;
          return;
        }
        RootIsFull(inuse, r);
        r := r + 1;
      }
      ok, id := false, 0;
    }

    /** Last part of allocpagerefpage, after alloc_kpages has returned `va`. */
    method InstallRefPage(r: nat, va: nat) returns (extra: bool)
      requires Unlocked() && r < NROOTS && va != 0 && va % PAGE == 0
      requires va / PAGE in v.frames && v.frames[va / PAGE] == InTransit
      modifies this`rootPage, this`v
      ensures Unlocked() && |rootPage| == NROOTS && rootPage[r] != 0
      ensures |old(rootPage)| == NROOTS && (extra <==> old(rootPage)[r] != 0)
      ensures extra ==> v == old(v) && rootPage == old(rootPage)
      ensures !extra ==> rootPage == old(rootPage)[r := va] && v == old(v.(frames := v.frames[va / PAGE := RefPage(r)]))
    {
      hide ListsOk, PagesOk, BlocksOk, WholeOk, Count, RootBits;
      extra := rootPage[r] != 0;
      if !extra {
        InstallKeeps(S(), v, r, va);
        rootPage := rootPage[r := va];
        v := v.(frames := v.frames[va / PAGE := RefPage(r)]);
      }
    }

    /** Thread the free list through a fresh page. */
    method BuildFreeList(page: nat, t: nat)
      requires t < NSIZES && page % PAGE == 0 && 0 < page && page + PAGE <= 4 * |mem|
      modifies this`mem
      ensures ChangedInPage(old(mem), mem, page) && Chained(mem, page, t, Blocks(t)) && |mem| == |old(mem)|
    {
      hide SlotAt, Blocks, Chained;
      FirstSlot(mem, page, t);
      mem := mem[page / 4 := 0];
      var i := 1;
      while i < Blocks(t)
        invariant 1 <= i <= Blocks(t)
        invariant ChangedInPage(old(mem), mem, page) && Chained(mem, page, t, i)
      {
        SlotInPage(t, i, page);
        ChainStep(mem, page, t, i);
        mem := mem[(page + SlotAt(t, i)) / 4 := page + SlotAt(t, i - 1)];
        i := i + 1;
      }
    }

    /** Last section of subpage_kmalloc: describe the fresh page, link it, and take a block from it. */
    method FinishPage(id: nat, page: nat, t: nat, size: nat) returns (ptr: nat)
      requires Unlocked() && MayAdd(S(), v, id, page) && t < NSIZES && size <= BlockSize(t)
      modifies this`mem, this`refs, this`sizebases, this`allbase, this`v
      ensures Unlocked()
      ensures
        Handed(old(v.(pending := v.pending - {id}, frames := v.frames[page / PAGE := HeapPage(id)])), v, ptr, size)
      ensures v.live[ptr].id == id && ChangedInPage(old(mem), mem, page)
    {
      hide ListsOk, PagesOk, BlocksOk, WholeOk, BitsOk, SlotAt, Chained, FreshList, PageOk, FreeOk, ChangedInPage,
        BlockSize, NoIdlePage, MayAdd;
      ListsSizes(refs, sizebases, allbase, v);
      MayAddPage(S(), v, id, page);
      ghost var s0, v0 := S(), v;
      BuildFreeList(page, t);
      var pr := PageRef(sizebases[t], allbase, page + t, SlotAt(t, Blocks(t) - 1), Blocks(t));
      assert pr == NewRef(s0, page, t) by { LastSlot(t); }
      ChainIsFreeList(mem, pr, page, t);
      AddKeeps(s0, v0, id, page, t, mem);
      refs := refs[id := pr];
      sizebases := sizebases[t := id];
      allbase := id;
      v := AddedView(v, id, page, t);
      AddedIsUsable(s0, v0, id, page, t, mem, size);
      ptr := TakeBlock(id, size);
    }

    /** Fill a block with 0xdeadbeef. */
    method FillDeadbeef(addr: nat, len: nat)
      requires addr % 4 == 0 && len % 4 == 0 && addr + len <= 4 * |mem|
      modifies this`mem
      ensures |mem| == |old(mem)|
      ensures forall w :: 0 <= w < |mem| ==> mem[w] == if addr <= 4 * w < addr + len then DEADBEEF else old(mem)[w]
    {
      var i := 0;
      while i < len / 4
        invariant 0 <= i <= len / 4 && |mem| == |old(mem)|
        invariant forall w :: 0 <= w < |mem| ==>
          mem[w] == if addr <= 4 * w < addr + 4 * i then DEADBEEF else old(mem)[w]
      {
        mem := mem[addr / 4 + i := DEADBEEF];
        i := i + 1;
      }
    }

    /** The heap page that contains `ptr`, or -1. */
    method FindPage(ptr: nat) returns (id: int)
      requires Locked()
      ensures id == -1 ==>
        forall i :: i in v.all ==> 0 <= i < |refs| && !(PageAddr(refs[i]) <= ptr < PageAddr(refs[i]) + PAGE)
      ensures id != -1 ==> id in v.all && 0 <= id < |refs| && PageAddr(refs[id]) <= ptr < PageAddr(refs[id]) + PAGE
    {
      hide PagesOk, BlocksOk, WholeOk, BitsOk, BlkType, PageAddr, Linked;
      ghost var l, k := v.all, 0;
      LinkedWalk(refs, true, allbase, l, 0);
      id := allbase;
      while id != -1
        invariant 0 <= k <= |l| && id == At(l, k)
        invariant forall j :: 0 <= j < k ==>
          0 <= l[j] < |refs| && !(PageAddr(refs[l[j]]) <= ptr < PageAddr(refs[l[j]]) + PAGE)
        decreases |l| - k
      {
        LinkedWalk(refs, true, allbase, l, k);
        assert id in v.all;
        assert BlkType(refs[id]) < NSIZES;
        if PageAddr(refs[id]) <= ptr < PageAddr(refs[id]) + PAGE {
          return;
        }
        id := refs[id].nextAll;
        k := k + 1;
      }
      LinkedWalk(refs, true, allbase, l, k);
    }

    /** Put a live block back on the free list of its page. */
    method GiveBlock(id: int, ptr: nat)
      requires Locked() && ptr in v.live && v.live[ptr].id == id && id in v.free && 0 <= id < |refs|
      requires PageAddr(refs[id]) <= ptr
      modifies this`mem, this`refs, this`v
      ensures Locked() && |mem| == |old(mem)|
      ensures v == old(GaveView(v, id, ptr, ptr - PageAddr(refs[id])))
      ensures refs == old(refs[id := refs[id].(flOff := ptr - PageAddr(refs[id]), nfree := refs[id].nfree + 1)])
      ensures OnlyBlock(old(S()), old(v), ptr, mem)
    {
      hide ListsOk, PagesOk, BlocksOk, WholeOk, BitsOk, PageAddr, BlkType, BlockSize, PageOk, FreeOk, Aligned, InBlock;
      ghost var s0 := S();
      BlockInPage(s0, v, ptr);
      FreeOf(mem, refs, v, id);
      BlockInMemory(mem, refs[id], ptr);
      var pr := refs[id];
      var prpage := PageAddr(pr);
      FillDeadbeef(ptr, BlockSize(BlkType(pr)));
      FreeListFirst(s0.mem, pr, v.free[id]);
      var next := 0;
      if pr.flOff != INVALID_OFFSET {
        next := prpage + pr.flOff;
      }
      mem := mem[ptr / 4 := next];
      RelinkedBy(s0, v, ptr, mem, next);
      GiveKeeps(s0, v, ptr, mem);
      v := GaveView(v, id, ptr, ptr - prpage);
      refs := refs[id := pr.(flOff := ptr - prpage, nfree := pr.nfree + 1)];
    }

    /** freepageref: find the root whose page holds descriptor `id` and clear its bit.  The kernel stops at
        a root without a page that has descriptors in use, which is every such root in front of `id`. */
    method FreePageRef(id: nat) returns (panic: bool)
      requires |refs| == TOTAL && BitsOk(inuse, numinuse, rootPage, v) && id in v.all
      modifies this`inuse, this`numinuse
      ensures panic <==> PagelessBelow(rootPage, id)
      ensures panic ==> inuse == old(inuse) && numinuse == old(numinuse)
      ensures !panic ==> inuse == old(inuse)[id := false] && Adjusted(old(numinuse), numinuse, id, false)
    {
      hide Count, RootBits;
      var mine := id / NPAGEREFS;
      var p := rootPage[mine] + 16 * (id % NPAGEREFS);
      var r := 0;
      while r < mine
        invariant 0 <= r <= mine
        invariant forall k :: 0 <= k < r ==> rootPage[k] != 0
      {
        if rootPage[r] == 0 {
          assert numinuse[r] != 0 by { PagelessRootIsFull(inuse, numinuse, rootPage, v, id, r); }
          if numinuse[r] != 0 {
            return true;
          }
        } else {
          assert !(rootPage[r] <= p < rootPage[r] + PAGE) by { OtherRootPage(inuse, numinuse, rootPage, v, r, mine); }
        }
        r := r + 1;
      }
      var j := (p - rootPage[r]) / 16;
      assert j == id % NPAGEREFS && inuse[r * NPAGEREFS + j];
      CountPositive(inuse, id);
      inuse := inuse[r * NPAGEREFS + j := false];
      numinuse := numinuse[r := numinuse[r] - 1];
      panic := false;
    }

    /** The end of subpage_kfree for a page whose last live block is gone: off both lists, descriptor
        free, page on its way back to free_kpages. */
    method DropPage(id: nat, t: nat) returns (panic: bool)
      requires Locked() && id in v.all && id < TOTAL && BlkType(refs[id]) == t && t < NSIZES
      requires forall a :: a in v.live ==> v.live[a].id != id
      modifies this`refs, this`sizebases, this`allbase, this`inuse, this`numinuse, this`v
      ensures panic <==> PagelessBelow(rootPage, id)
      ensures !panic ==> Locked() && t < |old(v.same)| && v == old(Dropped(v, id, t, PageAddr(refs[id])))
      ensures !panic ==> |refs| == |old(refs)|
      ensures !panic ==>
        forall i :: 0 <= i < |refs| ==> refs[i].pab == old(refs)[i].pab && refs[i].nfree == old(refs)[i].nfree
    {
      hide PagesOk, BlocksOk, WholeOk, BitsOk, Linked, Without, PageAddr, BlkType, GrantsOk, Adjusted;
      ghost var s0 := S();
      ListsSizes(refs, sizebases, allbase, v);
      assert Linked(refs, false, sizebases[t], v.same[t]);
      var r1, base := UnlinkFrom(refs, false, sizebases[t], id, v.same[t]);
      RelinksKeeps(refs, r1, false, allbase, v.all);
      var r2, all := UnlinkFrom(r1, true, allbase, id, v.all);
      var sb := sizebases[t := base];
      forall u | 0 <= u < NSIZES
        ensures Linked(r2, false, sb[u], if u == t then Without(v.same[t], id) else v.same[u])
      {
        if u == t {
          RelinksKeeps(r1, r2, true, base, Without(v.same[t], id));
        } else {
          OtherListKept(refs, sizebases, allbase, v, t, r1, u);
          RelinksKeeps(r1, r2, true, sizebases[u], v.same[u]);
        }
      }
      BitsShape(inuse, numinuse, rootPage, v);
      panic := FreePageRef(id);
      if !panic {
        DropKeeps(s0, v, id, t, r2, sb, all, numinuse);
        DropGrants(s0, v, id, t, granted);
        v := Dropped(v, id, t, PageAddr(refs[id]));
        refs, sizebases, allbase := r2, sb, all;
      }
    }

    /** subpage_kfree.  `ours` is false for a pointer that is on no heap page.  `page` is the page to
        return to free_kpages, 0 if there is none. */
    method SubpageKfree(ptr: nat) returns (ours: bool, panic: bool, page: nat)
      requires Unlocked() && (ptr in v.live || ptr in v.whole)
      modifies this`mem, this`refs, this`sizebases, this`allbase, this`inuse, this`numinuse, this`v
      ensures ours <==> ptr in old(v.live)
      ensures !ours ==> !panic && page == 0 && S() == old(S()) && v == old(v)
      ensures panic <==> old(StopsKernel(rootPage, v, ptr))
      ensures ours && !panic ==> Unlocked() && v.live == old(v.live) - {ptr} && v.whole == old(v.whole)
      ensures ours && !panic ==> v.pending == old(v.pending) && OnlyBlock(old(S()), old(v), ptr, mem)
      ensures ours && !panic ==> (page != 0 <==> old(LastOfItsPage(v, ptr)))
      ensures ours && !panic ==>
        v.frames == if page == 0 then old(v.frames) else old(v.frames)[page / PAGE := InTransit]
      ensures page != 0 ==> page % PAGE == 0 && page / PAGE in old(v.frames) && old(v.frames)[page / PAGE].HeapPage?
      ensures page != 0 ==> page / PAGE == ptr / PAGE
    {
      hide ListsOk, PagesOk, BlocksOk, WholeOk, BitsOk, Linked, Without, PageAddr, BlkType, BlockSize, Blocks,
        NoIdlePage;
      hide Typed, Aligned, OnlyBlock;
      panic, page := false, 0;
      ghost var s0, v0 := S(), v;
      var id := FindPage(ptr);
      if id == -1 {
        NotOnAnyPage(s0, v0, ptr);
        ours := false;
        return;
      }
      RoutedHome(s0, v0, ptr, id);
      ours := true;
      var pr := refs[id];
      var t := BlkType(pr);
      assert Aligned(ptr - PageAddr(pr), t);
      GiveBlock(id, ptr);
      ghost var s1, v1 := S(), v;
      var full := refs[id].nfree == Blocks(t);
      SamePlace(pr, refs[id]);
      EmptyPage(s1, v1, id);
      LastMeans(v0, v1, ptr);
      if full {
        PageAligned(pr);
        FrameOf(s0, v0, id);
        panic := DropPage(id, t);
        if !panic {
          page := PageAddr(pr);
          BlockPlace(s0, v0, ptr);
          OnePage(page, ptr, 1, ptr / PAGE);
          PositivePage(s0, v0, id);
          ListsDistinct(s1.refs, s1.sizebases, s1.allbase, v1);
          DropStaysQuiet(s0, v0, s1.refs, refs, v1, v, id, t, page);
        }
      } else {
        GiveStaysQuiet(s0, v0, s1.refs, v1, id, ptr);
      }
    }

    // ------------------------------------------------------- the page allocator

    /** The page allocator can hand out the n pages from `choice` on: they exist and none is granted. */
    ghost predicate Grantable(choice: nat, n: nat)
      reads this
    { CanGrant(granted, |mem|, choice, n) }

    /** alloc_kpages(1).  `choice` is whatever the page allocator settles on; a choice it could not
        make stands for running out of memory. */
    method AllocPage(choice: nat) returns (va: nat)
      requires Unlocked()
      modifies this`granted, this`v
      ensures Unlocked() && va == if old(Grantable(choice, 1)) then choice else 0
      ensures va == 0 ==> v == old(v)
      ensures va != 0 ==> va % PAGE == 0 && va + PAGE <= 4 * |mem| && va / PAGE !in old(v.frames)
      ensures va != 0 ==> v == old(v.(frames := v.frames[va / PAGE := InTransit]))
      ensures granted == if va == 0 then old(granted) else old(granted)[va / PAGE := va / PAGE]
      ensures va != 0 ==> va / PAGE !in old(granted)
    {
      hide Inv, NoIdlePage;
      va := 0;
      assert Run(choice / PAGE, 1) == {choice / PAGE};
      if 0 < choice && choice % PAGE == 0 && choice + PAGE <= 4 * |mem| && choice / PAGE !in granted {
        va := choice;
        FramesKeep(S(), v, v.(frames := v.frames[va / PAGE := InTransit]));
        IdleIgnoresFrames(refs, v, v.(frames := v.frames[va / PAGE := InTransit]));
        granted := granted[va / PAGE := va / PAGE];
        v := v.(frames := v.frames[va / PAGE := InTransit]);
      }
    }

    /** alloc_kpages(n) for a whole-page allocation.  Asked for no pages it hands out one that nobody then
        accounts for. */
    method AllocWhole(n: nat, choice: nat) returns (va: nat)
      requires Unlocked()
      modifies this`granted, this`v
      ensures Unlocked() && va == if old(Grantable(choice, PagesTaken(n))) then choice else 0
      ensures va == 0 ==> v == old(v)
      ensures va != 0 && n == 0 ==>
        va / PAGE !in old(v.frames) && v == old(v.(frames := v.frames[va / PAGE := InTransit]))
      ensures va != 0 && n > 0 ==>
        va % PAGE == 0 && va + n * PAGE <= 4 * |mem| && Run(va / PAGE, n) !! old(v.frames).Keys
      ensures va != 0 && n > 0 ==> va !in old(v.whole) && v == old(WithWhole(v, va, n))
    {
      hide Inv, NoIdlePage, Run;
      if n == 0 {
        va := AllocPage(choice);
        return;
      }
      va := 0;
      if 0 < choice && choice % PAGE == 0 && choice + n * PAGE <= 4 * |mem| && Run(choice / PAGE, n) !! granted.Keys {
        va := choice;
        WholeAddKeeps(S(), v, va, n);
        IdleIgnoresFrames(refs, v, WithWhole(v, va, n));
        granted := granted + (map f | f in Run(va / PAGE, n) :: va / PAGE);
        v := WithWhole(v, va, n);
      }
    }

    /** free_kpages of a page in transit. */
    method FreePage(va: nat)
      requires Unlocked() && va % PAGE == 0 && va / PAGE in v.frames && v.frames[va / PAGE] == InTransit
      modifies this`granted, this`v
      ensures Unlocked() && v == old(v.(frames := v.frames - {va / PAGE})) && granted == old(granted) - {va / PAGE}
    {
      hide ListsOk, PagesOk, BlocksOk, BitsOk, NoIdlePage, WholeOk, GrantsOk;
      var p := va / PAGE;
      var v' := v.(frames := v.frames - {p});
      FramesKeep(S(), v, v');
      IdleIgnoresFrames(refs, v, v');
      UngrantPage(v, granted, p);
      granted := map f | f in granted && granted[f] != p :: granted[f];
      v := v';
    }

    /** free_kpages of a whole-page allocation. */
    method FreeWhole(va: nat)
      requires Unlocked() && va in v.whole
      modifies this`granted, this`v
      ensures Unlocked() && v == old(WithoutWhole(v, va))
      ensures v.frames == old(v.frames - Run(va / PAGE, v.whole[va]))
    {
      hide Inv, GrantsOk, NoIdlePage, Run;
      WholeFreeKeeps(S(), v, va);
      RunIsAll(S(), v, va);
      UngrantRun(S(), v, granted, va);
      IdleIgnoresFrames(refs, v, WithoutWhole(v, va));
      granted := map f | f in granted && granted[f] != va / PAGE :: granted[f];
      v := WithoutWhole(v, va);
    }

    // -------------------------------------------------------------------- the clients

    /** A client storing into a word it owns changes that word and nothing the heap relies on. */
    method ClientStore(w: nat, x: int)
      requires Unlocked() && w < |mem| && ClientWord(S(), v, w)
      modifies this`mem
      ensures Unlocked() && mem == old(mem)[w := x]
    {
      hide Quiet, GrantsOk, ClientWord;
      ClientWriteIsHarmless(S(), v, w, x);
      mem := mem[w := x];
    }

    // ------------------------------------------------------------- the other threads

    method TheirTake(t: nat, size: nat, ids: set<int>, pages: set<nat>, mine: set<nat>)
      requires Unlocked()
      modifies this
      ensures Unlocked() && Spared(old(S()), old(v), S(), v, ids, pages, mine)
    {
      hide Quiet, GrantsOk, Spared, Handed, BlockSize;
      ghost var s0, v0 := S(), v;
      SparesItself(s0, v0, ids, pages, mine);
      if t < NSIZES && size <= BlockSize(t) {
        var found, ptr := TrySubpage(t, size);
        if found { TakeSpares(s0, v0, S(), v, ptr, size, ids, pages, mine); }
      }
    }

    method TheirReserve(ids: set<int>, pages: set<nat>, mine: set<nat>)
      requires Unlocked()
      modifies this
      ensures Unlocked() && Spared(old(S()), old(v), S(), v, ids, pages, mine)
    {
      hide Quiet, GrantsOk, Spared;
      ghost var s0, v0 := S(), v;
      SparesItself(s0, v0, ids, pages, mine);
      var ok, id := Reserve();
      if ok { ReserveSpares(s0, v0, S(), v, id, ids, pages, mine); }
    }

    method TheirInstall(r: nat, va: nat, ids: set<int>, pages: set<nat>, mine: set<nat>)
      requires Unlocked()
      modifies this
      ensures Unlocked() && Spared(old(S()), old(v), S(), v, ids, pages, mine)
    {
      hide Quiet, GrantsOk, Spared;
      ghost var s0, v0 := S(), v;
      SparesItself(s0, v0, ids, pages, mine);
      if r < NROOTS && va != 0 && va % PAGE == 0 && TheirPage(v, pages, va) {
        var extra := InstallRefPage(r, va);
        if !extra { InstallSpares(s0, v0, S(), v, r, va, ids, pages, mine); }
      }
    }

    method TheirFinish(id: nat, page: nat, t: nat, size: nat, ids: set<int>, pages: set<nat>, mine: set<nat>)
      requires Unlocked()
      modifies this
      ensures Unlocked() && Spared(old(S()), old(v), S(), v, ids, pages, mine)
    {
      hide Quiet, GrantsOk, Spared, MayAdd, Handed, BlockSize;
      ghost var s0, v0 := S(), v;
      SparesItself(s0, v0, ids, pages, mine);
      QuietShape(s0, v0);
      QuietInv(s0, v0);
      if t < NSIZES && size <= BlockSize(t) && id < TOTAL && id in v.pending && id !in ids
        && 0 < page && page % PAGE == 0 && page + PAGE <= 4 * |mem| && TheirPage(v, pages, page)
        && rootPage[id / NPAGEREFS] != 0
      {
        ReadyToAdd(s0, v0, id, page);
        var ptr := FinishPage(id, page, t, size);
        FinishSpares(s0, v0, S(), v, id, page, ptr, size, ids, pages, mine);
      }
    }

    /** A free that would stop the kernel is no section, since nothing runs after it. */
    method TheirFree(ptr: nat, ids: set<int>, pages: set<nat>, mine: set<nat>)
      requires Unlocked()
      modifies this
      ensures Unlocked() && Spared(old(S()), old(v), S(), v, ids, pages, mine)
    {
      hide Quiet, Inv, GrantsOk, Spared, OnlyBlock, StopsKernel, LastOfItsPage;
      ghost var s0, v0 := S(), v;
      SparesItself(s0, v0, ids, pages, mine);
      QuietInv(s0, v0);
      if ptr in v.live && ptr !in mine && !StopsKernel(rootPage, v, ptr) {
        var ours, panic, page := SubpageKfree(ptr);
        assert ours && !panic;
        GiveSpares(s0, v0, S(), v, ptr, page, ids, pages, mine);
      }
    }

    /** A call of the page allocator, or a store, by some other thread. */
    method OutsideSection(e: PageCall, ids: set<int>, pages: set<nat>, mine: set<nat>)
      requires Unlocked()
      modifies this
      ensures Unlocked() && Spared(old(S()), old(v), S(), v, ids, pages, mine)
    {
      hide Quiet, GrantsOk, Spared, CanGrant, Run;
      ghost var s0, v0 := S(), v;
      SparesItself(s0, v0, ids, pages, mine);
      match e
      case GetPage(choice) =>
        var va := AllocPage(choice);
        if va != 0 { FramesSpare(s0, v0, S(), v, va / PAGE, ids, pages, mine); }
      case PutPage(va) =>
        if va % PAGE == 0 && TheirPage(v, pages, va) {
          FreePage(va);
          FramesSpare(s0, v0, S(), v, va / PAGE, ids, pages, mine);
        }
      case GetRun(n, choice) =>
        var va := AllocWhole(n, choice);
        if va != 0 && n == 0 { FramesSpare(s0, v0, S(), v, va / PAGE, ids, pages, mine); }
        if va != 0 && n > 0 { GetRunSpares(s0, v0, S(), v, va, n, ids, pages, mine); }
      case PutRun(va) =>
        if va in v.whole && va !in mine {
          FreeWhole(va);
          PutRunSpares(s0, v0, S(), v, va, ids, pages, mine);
        }
      case Put(a, w, x) =>
        if a !in mine && Owns(v, a, w) && w < |mem| {
          StoreSpares(s0, v0, a, w, x, ids, pages, mine);
          ClientStore(w, x);
        }
    }

    /** One locked section of the allocator by some other thread.  What that thread may touch is what it
        holds: anything but this thread's descriptors `ids`, frames `pages` and allocations `mine`. */
    method OtherSection(e: Section, ids: set<int>, pages: set<nat>, mine: set<nat>)
      requires Unlocked()
      modifies this
      ensures Unlocked() && Spared(old(S()), old(v), S(), v, ids, pages, mine)
    {
      hide Quiet, GrantsOk, Spared;
      match e
      case Take(t, size) => TheirTake(t, size, ids, pages, mine);
      case ReserveOne => TheirReserve(ids, pages, mine);
      case Install(r, va) => TheirInstall(r, va, ids, pages, mine);
      case Finish(id, page, t, size) => TheirFinish(id, page, t, size, ids, pages, mine);
      case Give(ptr) => TheirFree(ptr, ids, pages, mine);
      case Outside(what) => OutsideSection(what, ids, pages, mine);
    }

    /** Whatever the other threads do while this one does not hold the lock: any sections of theirs, in any
        order.  They keep the heap in order and spare what this thread holds. */
    method OthersRun(script: seq<Section>, ids: set<int>, pages: set<nat>, mine: set<nat>)
      requires Unlocked()
      modifies this
      ensures Unlocked() && Spared(old(S()), old(v), S(), v, ids, pages, mine)
      ensures script == [] ==> S() == old(S()) && v == old(v) && granted == old(granted)
    {
      hide Quiet, GrantsOk, Spared;
      ghost var s0, v0 := S(), v;
      SparesItself(s0, v0, ids, pages, mine);
      var i := 0;
      while i < |script|
        invariant 0 <= i <= |script| && Unlocked() && Spared(s0, v0, S(), v, ids, pages, mine)
        invariant i == 0 ==> S() == s0 && v == v0 && granted == old(granted)
      {
        ghost var s1, v1 := S(), v;
        OtherSection(script[i], ids, pages, mine);
        SparedTwice(s0, v0, s1, v1, S(), v, ids, pages, mine);
        i := i + 1;
      }
    }

    // ---------------------------------------------------------- kmalloc and kfree

    /** allocpagerefpage for the root of descriptor `id`. */
    method FetchRefPage(id: nat, choice: nat, page: nat, script: Script, mine: set<nat>)
      requires Unlocked() && id < TOTAL && id in v.pending && |rootPage| == NROOTS && rootPage[id / NPAGEREFS] == 0
      requires page / PAGE in v.frames && v.frames[page / PAGE] == InTransit
      modifies this
      ensures Unlocked() && Spared(old(S()), old(v), S(), v, {id}, {page / PAGE}, mine)
      ensures Alone(script) && !old(Grantable(choice, 1)) ==> S() == old(S()) && v == old(v) && granted == old(granted)
      ensures Alone(script) && old(Grantable(choice, 1)) ==>
        && S() == old(S().(rootPage := rootPage[id / NPAGEREFS := choice]))
        && v == old(v.(frames := v.frames[choice / PAGE := RefPage(id / NPAGEREFS)]))
    {
      hide Quiet, GrantsOk, Spared;
      ghost var s0, v0 := S(), v;
      var r, ids, pages := id / NPAGEREFS, {id}, {page / PAGE};
      OthersRun(script(0), ids, pages, mine);
      ghost var s1, v1 := S(), v;
      var va := AllocPage(choice);
      if va == 0 {
        OthersRun(script(1), ids, pages, mine);
        SparedTwice(s0, v0, s1, v1, S(), v, ids, pages, mine);
        return;
      }
      HeldFrame(s0, v0, s1, v1, ids, pages, page / PAGE, mine);
      FramesSpare(s1, v1, S(), v, va / PAGE, ids, pages, mine);
      SparedTwice(s0, v0, s1, v1, S(), v, ids, pages, mine);
      ghost var s2, v2 := S(), v;
      QuietShape(s2, v2);
      OfferRefPage(id, va, page, script, mine);
      SparedTwice(s0, v0, s2, v2, S(), v, ids, pages, mine);
    }

    /** The end of allocpagerefpage: the lock is taken again and the page installed, or given back. */
    method OfferRefPage(id: nat, va: nat, page: nat, script: Script, mine: set<nat>)
      requires Unlocked() && id < TOTAL && |rootPage| == NROOTS && page / PAGE != va / PAGE && va != 0 && va % PAGE == 0
      requires va / PAGE in v.frames && v.frames[va / PAGE] == InTransit
      modifies this
      ensures Unlocked() && Spared(old(S()), old(v), S(), v, {id}, {page / PAGE}, mine)
      ensures Alone(script) && old(rootPage)[id / NPAGEREFS] == 0 ==>
        && S() == old(S().(rootPage := rootPage[id / NPAGEREFS := va]))
        && v == old(v.(frames := v.frames[va / PAGE := RefPage(id / NPAGEREFS)]))
      ensures Alone(script) && old(rootPage)[id / NPAGEREFS] != 0 ==>
        && S() == old(S()) && v == old(v.(frames := v.frames - {va / PAGE}))
        && granted == old(granted) - {va / PAGE}
    {
      hide Quiet, GrantsOk, Spared;
      ghost var s0, v0 := S(), v;
      var r, ids, pages := id / NPAGEREFS, {id}, {page / PAGE};
      OthersRun(script(1), ids, {page / PAGE, va / PAGE}, mine);
      SparedFewer(s0, v0, S(), v, ids, {page / PAGE, va / PAGE}, pages, mine);
      HeldFrame(s0, v0, S(), v, ids, {page / PAGE, va / PAGE}, va / PAGE, mine);
      ghost var s1, v1 := S(), v;
      var extra := InstallRefPage(r, va);
      if extra {
        ReturnExtra(id, va, page, script, mine);
      } else {
        InstallSpares(s1, v1, S(), v, r, va, ids, pages, mine);
      }
      SparedTwice(s0, v0, s1, v1, S(), v, ids, pages, mine);
    }

    /** Somebody else installed the descriptor page first: give ours back. */
    method ReturnExtra(id: nat, va: nat, page: nat, script: Script, mine: set<nat>)
      requires Unlocked() && va % PAGE == 0 && va / PAGE in v.frames && v.frames[va / PAGE] == InTransit
      requires page / PAGE != va / PAGE
      modifies this
      ensures Unlocked() && Spared(old(S()), old(v), S(), v, {id}, {page / PAGE}, mine)
      ensures Alone(script) ==>
        && S() == old(S()) && v == old(v.(frames := v.frames - {va / PAGE}))
        && granted == old(granted) - {va / PAGE}
    {
      hide Quiet, GrantsOk, Spared;
      ghost var s0, v0 := S(), v;
      var ids, pages := {id}, {page / PAGE};
      OthersRun(script(2), ids, {page / PAGE, va / PAGE}, mine);
      SparedFewer(s0, v0, S(), v, ids, {page / PAGE, va / PAGE}, pages, mine);
      HeldFrame(s0, v0, S(), v, ids, {page / PAGE, va / PAGE}, va / PAGE, mine);
      ghost var s1, v1 := S(), v;
      FreePage(va);
      FramesSpare(s1, v1, S(), v, va / PAGE, ids, pages, mine);
      SparedTwice(s0, v0, s1, v1, S(), v, ids, pages, mine);
      ghost var s2, v2 := S(), v;
      OthersRun(script(3), ids, pages, mine);
      SparedTwice(s0, v0, s2, v2, S(), v, ids, pages, mine);
    }

    /** allocpageref, with the lock dropped while the descriptor page is fetched.  It fails at once when
        every descriptor is in use; refused a page, it fails too, but keeps the descriptor's bit. */
    method AllocPageRef(choice: nat, page: nat, script: Script, mine: set<nat>) returns (ok: bool, id: nat)
      requires Unlocked() && page / PAGE in v.frames && v.frames[page / PAGE] == InTransit
      modifies this
      ensures Unlocked() && Spared(old(S()), old(v), S(), v, {}, {page / PAGE}, mine)
      ensures AllUsed(old(inuse)) ==> !ok && S() == old(S()) && v == old(v) && granted == old(granted)
      ensures !AllUsed(old(inuse)) ==> NextClear(old(inuse), id) && id < TOTAL && id in v.pending
      ensures ok ==> !AllUsed(old(inuse))
      ensures !AllUsed(old(inuse)) ==> |rootPage| == NROOTS && (ok <==> rootPage[id / NPAGEREFS] != 0)
      ensures Alone(script) && !AllUsed(old(inuse)) ==> RefGranted(old(S()), old(v), S(), v, id, choice, ok)
      ensures Alone(script) && !AllUsed(old(inuse)) ==>
        && |old(rootPage)| == NROOTS && (ok <==> old(rootPage)[id / NPAGEREFS] != 0 || old(Grantable(choice, 1)))
        && (!ok ==> granted == old(granted))
    {
      hide Quiet, GrantsOk, Spared;
      ghost var s0, v0 := S(), v;
      ok, id := Reserve();
      if !ok {
        SparesItself(s0, v0, {}, {page / PAGE}, mine);
        return;
      }
      ReserveSpares(s0, v0, S(), v, id, {}, {page / PAGE}, mine);
      QuietShape(S(), v);
      ghost var s1, v1 := S(), v;
      if rootPage[id / NPAGEREFS] == 0 {
        FetchRefPage(id, choice, page, script, mine);
        HeldId(s1, v1, S(), v, id, {page / PAGE}, mine);
        SparedFewerIds(s1, v1, S(), v, id, {page / PAGE}, mine);
        SparedTwice(s0, v0, s1, v1, S(), v, {}, {page / PAGE}, mine);
        QuietShape(S(), v);
      }
      ok := rootPage[id / NPAGEREFS] != 0;
    }

    /** alloc_kpages would hand out `choice`, and allocpageref then find a descriptor with a page, its own
        or, for a root without one, `choice'`. */
    ghost predicate Obtainable(choice: nat, choice': nat)
      requires |rootPage| == NROOTS && |inuse| == TOTAL
      reads this
    {
      && Grantable(choice, 1)
      && var id := NextFree(inuse, 0);
         && id < TOTAL
         && (rootPage[id / NPAGEREFS] != 0 || (Grantable(choice', 1) && choice' / PAGE != choice / PAGE))
    }

    /** subpage_kmalloc with its new page in hand: get a descriptor for it and take the first block, or give
        the page back. */
    method DescribePage(t: nat, sz: nat, page: nat, choice: nat, script: Script, mine: set<nat>) returns (ptr: nat)
      requires Unlocked() && t < NSIZES && sz <= BlockSize(t)
      requires 0 < page && page % PAGE == 0 && page + PAGE <= 4 * |mem|
      requires page / PAGE in v.frames && v.frames[page / PAGE] == InTransit
      modifies this
      ensures Unlocked() && Spared(old(S()), old(v), S(), v, {}, {}, mine)
      ensures ptr != 0 ==> Fresh(old(v), v, ptr, sz, mine)
      ensures Alone(script) ==>
        var id := NextFree(old(inuse), 0);
        (ptr != 0 <==> id < TOTAL && (old(rootPage)[id / NPAGEREFS] != 0 || old(Grantable(choice, 1))))
      ensures Alone(script) && ptr == 0 ==>
        && granted == old(granted) - {page / PAGE}
        && GaveUp(old(S()), old(v.(frames := v.frames - {page / PAGE})), S(), v, !AllUsed(old(inuse)))
      ensures Alone(script) && ptr != 0 ==> PageAdded(old(S()), old(v), S(), v, ptr)
    {
      hide Quiet, GrantsOk, Spared, MayAdd, Handed, RefGranted, GaveUp, PageAdded;
      ghost var s0, v0 := S(), v;
      QuietShape(s0, v0);
      var f := page / PAGE;
      ptr := 0;
      OthersRun(script(0), {}, {f}, mine);
      HeldFrame(s0, v0, S(), v, {}, {f}, f, mine);
      ghost var s1, v1 := S(), v;
      var others: Script := (k: nat) => script(k + 2);
      assert Alone(script) ==> Alone(others);
      var ok, id := AllocPageRef(choice, page, others, mine);
      SparedTwice(s0, v0, s1, v1, S(), v, {}, {f}, mine);
      HeldFrame(s0, v0, S(), v, {}, {f}, f, mine);
      SparedFewer(s0, v0, S(), v, {}, {f}, {}, mine);
      ghost var s2, v2 := S(), v;
      NoneClear(s0.inuse);
      if Alone(script) && !AllUsed(s0.inuse) { NextClearIs(s0.inuse, id); }
      if ok {
        MemSame(s0, v0, S(), v, {}, {}, mine);
        ReadyToAdd(S(), v, id, page);
        ptr := FinishPage(id, page, t, sz);
        QuietInv(s2, v2);
        FinishSpares(s2, v2, S(), v, id, page, ptr, sz, {}, {}, mine);
        SparedTwice(s0, v0, s2, v2, S(), v, {}, {}, mine);
        FreshNow(s0, v0, s2, v2, v, id, page, ptr, sz, mine);
        NotNull(S(), v, ptr);
        if Alone(script) { PageAddedBy(s0, v0, s2, v2, S(), v, id, page, choice, ptr, sz); }
      } else {
        GiveUp(page, script, mine);
        SparedTwice(s0, v0, s2, v2, S(), v, {}, {}, mine);
        if Alone(script) { RefRefused(s0, v0, s2, v2, S(), v, id, f, choice); }
      }
    }

    /** Give the page back. */
    method GiveUp(page: nat, script: Script, mine: set<nat>)
      requires Unlocked() && page % PAGE == 0 && page / PAGE in v.frames && v.frames[page / PAGE] == InTransit
      modifies this
      ensures Unlocked() && Spared(old(S()), old(v), S(), v, {}, {}, mine)
      ensures Alone(script) ==>
        && S() == old(S()) && v == old(v.(frames := v.frames - {page / PAGE}))
        && granted == old(granted) - {page / PAGE}
    {
      hide Quiet, GrantsOk, Spared;
      ghost var s0, v0 := S(), v;
      var f := page / PAGE;
      OthersRun(script(1), {}, {f}, mine);
      HeldFrame(s0, v0, S(), v, {}, {f}, f, mine);
      SparedFewer(s0, v0, S(), v, {}, {f}, {}, mine);
      ghost var s1, v1 := S(), v;
      FreePage(page);
      FramesSpare(s1, v1, S(), v, f, {}, {}, mine);
      SparedTwice(s0, v0, s1, v1, S(), v, {}, {}, mine);
    }

    /** The part of subpage_kmalloc after it has found no room: get a page, a descriptor for it, and
        take the first block. */
    method KmallocFromNewPage(t: nat, sz: nat, choice: nat, choice': nat, script: Script, mine: set<nat>)
      returns (ptr: nat)
      requires Unlocked() && t < NSIZES && sz <= BlockSize(t)
      modifies this
      ensures Unlocked() && Spared(old(S()), old(v), S(), v, {}, {}, mine)
      ensures ptr != 0 ==> Fresh(old(v), v, ptr, sz, mine)
      ensures Alone(script) ==> (ptr != 0 <==> old(Obtainable(choice, choice')))
      ensures Alone(script) && ptr == 0 ==>
        granted == old(granted) && GaveUp(old(S()), old(v), S(), v, old(Grantable(choice, 1)) && !AllUsed(old(inuse)))
      ensures Alone(script) && ptr != 0 ==> PageAdded(old(S()), old(v), S(), v, ptr)
    {
      hide Quiet, GrantsOk, Spared, GaveUp, PageAdded;
      ghost var s0, v0, g0 := S(), v, granted;
      QuietShape(s0, v0);
      NoneClear(inuse);
      ptr := 0;
      var page := AllocPage(choice);
      if page == 0 {
        SparesItself(s0, v0, {}, {}, mine);
        NothingGiven(s0, v0);
        return;
      }
      FramesSpare(s0, v0, S(), v, page / PAGE, {}, {}, mine);
      ghost var v1 := v;
      GrantAfter(g0, |mem|, page, choice');
      var others: Script := (k: nat) => script(k + 1);
      assert Alone(script) ==> Alone(others);
      ptr := DescribePage(t, sz, page, choice', others, mine);
      SparedTwice(s0, v0, s0, v1, S(), v, {}, {}, mine);
      FreshSince(v0, v1, v, ptr, sz, mine);
      if Alone(script) {
        assert g0[page / PAGE := page / PAGE] - {page / PAGE} == g0;
        AfterPage(s0, v0, v1, S(), v, page / PAGE, ptr, !AllUsed(s0.inuse));
      }
    }

    /** subpage_kmalloc, for a thread that holds the allocations `mine`.  It asks for a page only when no page
        of the smallest fitting size has room. */
    method SubpageKmalloc(sz: nat, choice: nat, choice': nat, script: Script, mine: set<nat>) returns (ptr: nat)
      requires Unlocked() && sz <= 2048
      modifies this
      ensures Unlocked() && Spared(old(S()), old(v), S(), v, {}, {}, mine)
      ensures ptr != 0 ==> Fresh(old(v), v, ptr, sz, mine)
      ensures !NoRoom(old(refs), old(v), sz) ==> Handed(old(v), v, ptr, sz) && ptr != 0
      ensures Alone(script) && NoRoom(old(refs), old(v), sz) ==> (ptr != 0 <==> old(Obtainable(choice, choice')))
      ensures Alone(script) && NoRoom(old(refs), old(v), sz) && ptr == 0 ==>
        && granted == old(granted)
        && GaveUp(old(S()), old(v), S(), v, old(Grantable(choice, 1)) && !AllUsed(old(inuse)))
      ensures Alone(script) && NoRoom(old(refs), old(v), sz) && ptr != 0 ==> PageAdded(old(S()), old(v), S(), v, ptr)
    {
      hide Quiet, GrantsOk, Spared, GaveUp, PageAdded, CanGrant, Handed;
      ghost var s0, v0 := S(), v;
      QuietShape(s0, v0);
      var panic, t := Blocktype(sz);
      var found;
      found, ptr := TrySubpage(t, sz);
      if found {
        TakeSpares(s0, v0, S(), v, ptr, sz, {}, {}, mine);
        FreshlyHanded(v0, v, ptr, sz, mine);
        NotNull(S(), v, ptr);
      } else {
        OthersRun(script(0), {}, {}, mine);
        ghost var s1, v1 := S(), v;
        QuietShape(s1, v1);
        var others: Script := (k: nat) => script(k + 1);
        assert Alone(script) ==> Alone(others);
        ptr := KmallocFromNewPage(t, sz, choice, choice', others, mine);
        SparedTwice(s0, v0, s1, v1, S(), v, {}, {}, mine);
        FreshThrough(s0, v0, s1, v1, v, ptr, sz, mine);
      }
    }

    /** kmalloc: whatever it returns is new, large enough, aligned and apart from every other allocation. */
    method Kmalloc(sz: nat, choice: nat, choice': nat, script: Script, mine: set<nat>) returns (ptr: nat)
      requires Unlocked() && sz < 0x1_0000_0000
      modifies this
      ensures Unlocked() && Spared(old(S()), old(v), S(), v, {}, {}, mine)
      ensures ptr != 0 && sz <= 0x1_0000_0000 - PAGE ==> Serves(S(), v, ptr, sz)
      ensures ptr != 0 && sz < 2048 ==> Fresh(old(v), v, ptr, sz, mine)
      ensures sz < 2048 && !NoRoom(old(refs), old(v), sz) ==> Handed(old(v), v, ptr, sz) && ptr != 0
      ensures Alone(script) && sz < 2048 && NoRoom(old(refs), old(v), sz) ==>
        (ptr != 0 <==> old(Obtainable(choice, choice')))
      ensures Alone(script) && sz < 2048 && NoRoom(old(refs), old(v), sz) && ptr == 0 ==>
        && granted == old(granted)
        && GaveUp(old(S()), old(v), S(), v, old(Grantable(choice, 1)) && !AllUsed(old(inuse)))
      ensures Alone(script) && sz < 2048 && NoRoom(old(refs), old(v), sz) && ptr != 0 ==>
        PageAdded(old(S()), old(v), S(), v, ptr)
      ensures sz >= 2048 ==> ptr == if old(Grantable(choice, PagesTaken(PagesFor(sz)))) then choice else 0
      ensures ptr != 0 && sz >= 2048 && PagesFor(sz) > 0 ==> v == old(WithWhole(v, ptr, PagesFor(sz)))
      ensures ptr != 0 && sz >= 2048 && PagesFor(sz) > 0 ==> ptr !in old(v.whole)
      ensures ptr != 0 && sz >= 2048 && PagesFor(sz) == 0 ==>
        ptr / PAGE !in old(v.frames) && v == old(v.(frames := v.frames[ptr / PAGE := InTransit]))
    {
      hide Quiet, GrantsOk, Spared, GaveUp, PageAdded, CanGrant, Handed, Serves;
      ghost var s0, v0 := S(), v;
      QuietShape(s0, v0);
      if sz >= 2048 {
        ptr := AllocWhole(PagesFor(sz), choice);
        PagesHoldRequest(sz);
        if ptr == 0 {
          SparesItself(s0, v0, {}, {}, mine);
        } else if PagesFor(sz) == 0 {
          FramesSpare(s0, v0, S(), v, ptr / PAGE, {}, {}, mine);
        } else {
          GetRunSpares(s0, v0, S(), v, ptr, PagesFor(sz), {}, {}, mine);
          if sz <= 0x1_0000_0000 - PAGE { RunServes(S(), v, ptr, sz); }
        }
      } else {
        ptr := SubpageKmalloc(sz, choice, choice', script, mine);
        if ptr != 0 { BlockServes(S(), v, ptr, sz); }
      }
    }

    /** The end of subpage_kfree outside the lock: the emptied page goes back to free_kpages. */
    method ReturnPage(page: nat, script: Script, mine: set<nat>)
      requires Unlocked() && page % PAGE == 0 && page / PAGE in v.frames && v.frames[page / PAGE] == InTransit
      modifies this
      ensures Unlocked() && Spared(old(S()), old(v), S(), v, {}, {}, mine)
      ensures page / PAGE !in v.frames
      ensures Alone(script) ==>
        v == old(v.(frames := v.frames - {page / PAGE})) && granted == old(granted) - {page / PAGE}
    {
      hide Quiet, GrantsOk, Spared;
      ghost var s1, v1 := S(), v;
      var f := page / PAGE;
      OthersRun(script(0), {}, {f}, mine);
      HeldFrame(s1, v1, S(), v, {}, {f}, f, mine);
      SparedFewer(s1, v1, S(), v, {}, {f}, {}, mine);
      ghost var s2, v2 := S(), v;
      FreePage(page);
      FramesSpare(s2, v2, S(), v, f, {}, {}, mine);
      SparedTwice(s1, v1, s2, v2, S(), v, {}, {}, mine);
    }

    /** The rest of kfree for a run of pages. */
    method FreeRun(ptr: nat, mine: set<nat>) returns (ghost gone: View)
      requires Unlocked() && ptr in v.whole && ptr !in v.live && ptr !in mine
      modifies this
      ensures Unlocked() && Spared(old(S()), old(v), S(), v, {}, {}, mine) && Undisturbed(gone, v, {}, {}, mine)
      ensures v == gone && gone.live == old(v.live) && gone.whole == old(v.whole) - {ptr} && v.pending == old(v.pending)
      ensures v.frames == old(v.frames - FreedFrames(v, ptr)) && granted == old(granted - FreedFrames(v, ptr))
    {
      hide Quiet, GrantsOk, Spared, Undisturbed, LastOfItsPage, Run;
      ghost var s0, v0 := S(), v;
      QuietInv(s0, v0);
      FreeWhole(ptr);
      gone := v;
      PutRunSpares(s0, v0, S(), v, ptr, {}, {}, mine);
      SparesItself(S(), v, {}, {}, mine);
      SparedView(S(), v, S(), v, mine);
      SameGrants(old(granted), granted, v0, v, FreedFrames(v0, ptr));
    }

    /** The rest of kfree once subpage_kfree has taken the block: the page it emptied, if any, goes back. */
    method AfterBlock(ghost s0: Store, ghost v0: View, ptr: nat, page: nat, script: Script, mine: set<nat>)
      requires Unlocked() && Inv(s0, v0) && GrantsOk(granted, v0) && ptr in v0.live && ptr !in mine
      requires v.live == v0.live - {ptr} && v.whole == v0.whole && v.pending == v0.pending
      requires OnlyBlock(s0, v0, ptr, mem) && rootPage == s0.rootPage && (page != 0 <==> LastOfItsPage(v0, ptr))
      requires v.frames == if page == 0 then v0.frames else v0.frames[page / PAGE := InTransit]
      requires page != 0 ==> page % PAGE == 0 && page / PAGE == ptr / PAGE
      requires page != 0 ==> page / PAGE in v0.frames && v0.frames[page / PAGE].HeapPage?
      modifies this
      ensures Unlocked() && Spared(s0, v0, S(), v, {}, {}, mine) && Undisturbed(old(v), v, {}, {}, mine)
      ensures v.frames.Keys !! FreedFrames(v0, ptr)
      ensures Alone(script) ==> v.live == old(v.live) && v.whole == old(v.whole) && v.pending == v0.pending
      ensures Alone(script) ==>
        v.frames == v0.frames - FreedFrames(v0, ptr) && granted == old(granted) - FreedFrames(v0, ptr)
    {
      hide Quiet, Inv, GrantsOk, Spared, OnlyBlock, Undisturbed, LastOfItsPage, Run;
      ghost var s1, v1 := S(), v;
      GiveSpares(s0, v0, s1, v1, ptr, page, {}, {}, mine);
      SparesItself(s1, v1, {}, {}, mine);
      if page != 0 {
        ReturnPage(page, script, mine);
        SparedTwice(s0, v0, s1, v1, S(), v, {}, {}, mine);
      }
      SparedView(s1, v1, S(), v, mine);
      if Alone(script) { SameGrants(old(granted), granted, v0, v, FreedFrames(v0, ptr)); }
    }

    /** kfree of NULL or of a pointer that kmalloc handed to this thread.  It stops the kernel exactly when
        the block is the last of its page and some root in front of the page's descriptor has no page.  When
        it returns, the frames it frees belong to nobody; undisturbed, those and no others have gone back. */
    method Kfree(ptr: nat, script: Script, mine: set<nat>) returns (panic: bool, ghost gone: View)
      requires Unlocked() && (ptr == 0 || ptr in v.live || ptr in v.whole) && ptr !in mine
      modifies this
      ensures panic <==> ptr != 0 && old(StopsKernel(rootPage, v, ptr))
      ensures !panic ==> Unlocked() && Spared(old(S()), old(v), S(), v, {}, {}, mine)
      ensures !panic ==> Undisturbed(gone, v, {}, {}, mine)
      ensures !panic && Alone(script) ==> v.live == gone.live && v.whole == gone.whole && v.pending == old(v.pending)
      ensures ptr == 0 ==> v == old(v) && S() == old(S()) && granted == old(granted)
      ensures !panic && ptr != 0 && ptr in old(v.live) ==>
        gone.live == old(v.live) - {ptr} && gone.whole == old(v.whole)
      ensures !panic && ptr != 0 && ptr !in old(v.live) ==>
        gone.live == old(v.live) && gone.whole == old(v.whole) - {ptr}
      ensures !panic && ptr != 0 ==> v.frames.Keys !! old(FreedFrames(v, ptr))
      ensures !panic && ptr != 0 && Alone(script) ==>
        v.frames == old(v.frames - FreedFrames(v, ptr)) && granted == old(granted - FreedFrames(v, ptr))
    {
      hide Quiet, GrantsOk, Spared, OnlyBlock, StopsKernel, Undisturbed, LastOfItsPage, Run;
      ghost var s0, v0 := S(), v;
      SparesItself(s0, v0, {}, {}, mine);
      SparedView(s0, v0, s0, v0, mine);
      panic, gone := false, v;
      if ptr == 0 {
        return;
      }
      QuietInv(s0, v0);
      var ours, page;
      ours, panic, page := SubpageKfree(ptr);
      if !ours {
        gone := FreeRun(ptr, mine);
      } else if !panic {
        gone := v;
        AfterBlock(s0, v0, ptr, page, script, mine);
      }
    }
  }

  /** The assertion does fail: a heap of four pages on which 256 allocations are refused a descriptor page,
      one is served, and that one is freed.  No other thread runs, and none waits for anything. */
  method ReachTheAssertion() returns (panic: bool)
    ensures panic
  {
    hide Quiet, GrantsOk, Spared, PageAdded, Serves, Handed;
    var alone: Script := k => [];
    var h := new KHeap(seq(4096, _ => 0));
    var i := 0;
    while i < NPAGEREFS
      invariant 0 <= i <= NPAGEREFS && fresh(h) && h.Unlocked() && FailedSoFar(h.S(), h.v, i) && h.granted == map[]
    {
      QuietShape(h.S(), h.v);
      FailsAgain(h.S(), h.v, i);
      var ptr := h.Kmalloc(16, PAGE, 0, alone, {});
      i := i + 1;
    }
    QuietShape(h.S(), h.v);
    NextIsServed(h.S(), h.v);
    var ptr := h.Kmalloc(16, PAGE, 2 * PAGE, alone, {});
    ghost var gone;
    panic, gone := h.Kfree(ptr, alone, {});
  }
}
