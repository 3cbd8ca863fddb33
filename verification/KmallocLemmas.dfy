/** kern/vm/kmalloc.c: what its sections rely on from one another, and the facts about single pages, lists
    and descriptor bits that their proofs are made of. */
module KmallocLemmas {
  import opened Collections
  import opened KmallocState
  import opened KmallocFacts
  import opened KmallocSteps

  /** The number of pages kmalloc asks for, in 32-bit arithmetic. */
  function PagesFor(sz: nat): nat { (sz + PAGE - 1) % 0x1_0000_0000 / PAGE }

  /** How many pages alloc_kpages takes for a request of n: asked for none it still takes one. */
  function PagesTaken(n: nat): nat { if n == 0 then 1 else n }

  /** The pages hold the request exactly when rounding up does not wrap around: above 2^32 - 4096 bytes
      kmalloc asks for no page at all. */
  lemma PagesHoldRequest(sz: nat)
    requires 2048 <= sz < 0x1_0000_0000
    ensures PagesFor(sz) * PAGE >= sz <==> sz <= 0x1_0000_0000 - PAGE
    ensures PagesFor(sz) == 0 <==> sz > 0x1_0000_0000 - PAGE
  {
  }

  // -------------------------------------------------- where the assertion fails

  /** Some root in front of the descriptor's own has no page. */
  predicate PagelessBelow(rootPage: seq<nat>, id: int)
  {
    exists r :: 0 <= r < id / NPAGEREFS && r < |rootPage| && rootPage[r] == 0
  }

  predicate LastOfItsPage(v: View, ptr: nat)
    requires ptr in v.live
  {
    forall a :: a in v.live && a != ptr ==> v.live[a].id != v.live[ptr].id
  }

  lemma LastMeans(v: View, v': View, ptr: nat)
    requires ptr in v.live && v'.live == v.live - {ptr}
    ensures LastOfItsPage(v, ptr) <==> forall a :: a in v'.live ==> v'.live[a].id != v.live[ptr].id
  {
    if forall a :: a in v'.live ==> v'.live[a].id != v.live[ptr].id {
      forall a | a in v.live && a != ptr ensures v.live[a].id != v.live[ptr].id {
        assert a in v'.live;
      }
    }
  }

  /** Freeing `ptr` fails the assertion in freepageref. */
  predicate StopsKernel(rootPage: seq<nat>, v: View, ptr: nat)
  {
    ptr in v.live && LastOfItsPage(v, ptr) && PagelessBelow(rootPage, v.live[ptr].id)
  }

  // ------------------------------------------------- what one thread spares another

  /** A block of `size` bytes was handed out at `ptr` and nothing else that anyone holds changed. */
  ghost predicate Handed(v: View, v': View, ptr: nat, size: nat)
  {
    && ptr !in v.live && ptr in v'.live && v'.live[ptr].size == size
    && v'.live == v.live[ptr := v'.live[ptr]]
    && v'.whole == v.whole && v'.pending == v.pending && v'.frames == v.frames
  }

  ghost predicate Undisturbed(v: View, v': View, ids: set<int>, pages: set<nat>, mine: set<nat>)
  {
    && (forall i :: i in ids && i in v.pending ==> i in v'.pending)
    && (forall f :: f in pages && f in v.frames && v.frames[f] == InTransit ==>
        f in v'.frames && v'.frames[f] == InTransit)
    && (forall a :: a in mine && a in v.live ==> a in v'.live && v'.live[a] == v.live[a])
    && (forall a :: a in mine && a in v.whole ==> a in v'.whole && v'.whole[a] == v.whole[a])
  }

  /** Word w lies in the allocation at a, as far as its holder asked for it. */
  predicate Owns(v: View, a: nat, w: int)
  {
    || (a in v.live && a <= 4 * w < a + v.live[a].size)
    || (a in v.whole && a <= 4 * w < a + v.whole[a] * PAGE)
  }

  /** The contents of the allocations `mine` are as they were. */
  ghost predicate Intact(mem: seq<int>, mem': seq<int>, v: View, mine: set<nat>)
  {
    && |mem'| == |mem|
    && forall a, w {:trigger Owns(v, a, w)} :: a in mine && Owns(v, a, w) && 0 <= w < |mem| ==> mem'[w] == mem[w]
  }

  /** A root's page, once there, stays. */
  ghost predicate RootsStay(roots: seq<nat>, roots': seq<nat>)
  {
    |roots'| == |roots| && forall r :: 0 <= r < |roots| && roots[r] != 0 ==> roots'[r] == roots[r]
  }

  /** Descriptors `ids`, frames `pages` and allocations `mine` of one thread have come through what others
      did: still reserved, still in transit, still live with their contents. */
  ghost predicate Spared(s: Store, v: View, s': Store, v': View, ids: set<int>, pages: set<nat>, mine: set<nat>)
  {
    Undisturbed(v, v', ids, pages, mine) && Intact(s.mem, s'.mem, v, mine) && RootsStay(s.rootPage, s'.rootPage)
  }

  /** A call of the page allocator, or a client's store into its own memory. */
  datatype PageCall =
    | GetPage(choice: nat)
    | PutPage(va: nat)
    | GetRun(n: nat, choice: nat)
    | PutRun(va: nat)
    | Put(a: nat, w: nat, x: int)

  /** A locked section of the allocator, or something outside it. */
  datatype Section =
    | Take(t: nat, size: nat)
    | ReserveOne
    | Install(r: nat, va: nat)
    | Finish(id: nat, page: nat, t: nat, size: nat)
    | Give(ptr: nat)
    | Outside(what: PageCall)

  /** What the other threads do at the first, second, ... moment the lock is free. */
  type Script = nat -> seq<Section>

  ghost predicate Alone(script: Script) { forall k :: script(k) == [] }

  predicate TheirPage(v: View, pages: set<nat>, va: nat)
  {
    va / PAGE !in pages && va / PAGE in v.frames && v.frames[va / PAGE] == InTransit
  }

  // --------------------------------------------- what a thread gets when left alone

  predicate AllUsed(inuse: seq<bool>) { forall i :: 0 <= i < |inuse| ==> inuse[i] }

  /** The first clear bit is at id. */
  ghost predicate NextClear(inuse: seq<bool>, id: int)
  {
    0 <= id < |inuse| && !inuse[id] && forall i :: 0 <= i < id ==> inuse[i]
  }

  /** The page allocator can hand out the n pages from `choice` on: they exist and none is granted. */
  ghost predicate CanGrant(granted: map<nat, nat>, words: nat, choice: nat, n: nat)
  {
    0 < choice && choice % PAGE == 0 && choice + n * PAGE <= 4 * words && Run(choice / PAGE, n) !! granted.Keys
  }

  /** The first clear bit from i on, or the length. */
  function NextFree(inuse: seq<bool>, i: nat): (k: nat)
    requires i <= |inuse|
    ensures i <= k <= |inuse| && (forall j :: i <= j < k ==> inuse[j]) && (k < |inuse| ==> !inuse[k])
    decreases |inuse| - i
  {
    if i == |inuse| || !inuse[i] then i else NextFree(inuse, i + 1)
  }

  lemma NextClearIs(inuse: seq<bool>, id: int)
    requires NextClear(inuse, id)
    ensures NextFree(inuse, 0) == id && !AllUsed(inuse)
  {
  }

  lemma NoneClear(inuse: seq<bool>)
    ensures AllUsed(inuse) <==> NextFree(inuse, 0) == |inuse|
  {
  }

  /** A descriptor was reserved, and its root given `choice` if it had no page; or that was refused. */
  ghost predicate RefGranted(s: Store, v: View, s': Store, v': View, id: int, choice: nat, ok: bool)
  {
    && 0 <= id < |s.inuse| && id / NPAGEREFS < |s.rootPage|
    && s' == s.(inuse := s.inuse[id := true], numinuse := s'.numinuse, rootPage := s'.rootPage)
    && v' == v.(pending := v.pending + {id}, frames := v'.frames) && (!ok ==> v'.frames == v.frames)
    && s'.rootPage ==
       if s.rootPage[id / NPAGEREFS] != 0 || !ok then s.rootPage else s.rootPage[id / NPAGEREFS := choice]
  }

  /** An allocation that failed has changed nothing, unless it got as far as reserving a descriptor: that
      stays reserved. */
  ghost predicate GaveUp(s: Store, v: View, s': Store, v': View, reserved: bool)
  {
    var id := NextFree(s.inuse, 0);
    if reserved then
      && id < |s.inuse| && s' == s.(inuse := s.inuse[id := true], numinuse := s'.numinuse)
      && v' == v.(pending := v.pending + {id})
    else s' == s && v' == v
  }

  /** One block more is live, on a page described by the descriptor that was free first. */
  ghost predicate PageAdded(s: Store, v: View, s': Store, v': View, ptr: nat)
  {
    && ptr in v'.live && v'.live == v.live[ptr := v'.live[ptr]] && v'.live[ptr].id == NextFree(s.inuse, 0)
    && |s'.rootPage| == |s.rootPage|
    && forall r :: 0 <= r < |s.rootPage| && r != v'.live[ptr].id / NPAGEREFS ==> s'.rootPage[r] == s.rootPage[r]
  }

  lemma GrantAfter(granted: map<nat, nat>, words: nat, page: nat, choice: nat)
    ensures CanGrant(granted[page / PAGE := page / PAGE], words, choice, 1) <==>
            CanGrant(granted, words, choice, 1) && choice / PAGE != page / PAGE
  {
    assert Run(choice / PAGE, 1) == {choice / PAGE};
  }

  lemma PageAddedBy(s: Store, v: View, s1: Store, v1: View, s2: Store, v2: View,
                    id: int, page: nat, choice: nat, ptr: nat, sz: nat)
    requires NextClear(s.inuse, id) && RefGranted(s, v, s1, v1, id, choice, true) && s2.rootPage == s1.rootPage
    requires Handed(v1.(pending := v1.pending - {id}, frames := v1.frames[page / PAGE := HeapPage(id)]), v2, ptr, sz)
    requires v2.live[ptr].id == id
    ensures PageAdded(s, v, s2, v2, ptr)
  {
    NextClearIs(s.inuse, id);
  }

  lemma RefRefused(s: Store, v: View, s1: Store, v1: View, s2: Store, v2: View, id: int, f: nat, choice: nat)
    requires AllUsed(s.inuse) ==> s1 == s && v1 == v
    requires !AllUsed(s.inuse) ==> NextClear(s.inuse, id) && RefGranted(s, v, s1, v1, id, choice, false)
    requires s2 == s1 && v2 == v1.(frames := v1.frames - {f})
    ensures GaveUp(s, v.(frames := v.frames - {f}), s2, v2, !AllUsed(s.inuse))
  {
    if !AllUsed(s.inuse) { NextClearIs(s.inuse, id); }
  }

  lemma NothingGiven(s: Store, v: View)
    ensures GaveUp(s, v, s, v, false)
  {
  }

  /** What holds from the moment the page was granted holds from the moment before. */
  lemma AfterPage(s: Store, v: View, v1: View, s': Store, v': View, f: nat, ptr: nat, reserved: bool)
    requires f !in v.frames && v1 == v.(frames := v.frames[f := InTransit])
    ensures ptr != 0 && PageAdded(s, v1, s', v', ptr) ==> PageAdded(s, v, s', v', ptr)
    ensures GaveUp(s, v1.(frames := v1.frames - {f}), s', v', reserved) ==> GaveUp(s, v, s', v', reserved)
  {
    assert v.frames[f := InTransit] - {f} == v.frames;
  }

  /** `ptr` is now a live block of `sz` bytes, and none of the blocks the thread held before. */
  ghost predicate Fresh(v: View, v': View, ptr: nat, sz: nat, mine: set<nat>)
  {
    ptr in v'.live && v'.live[ptr].size == sz && (ptr in mine ==> ptr !in v.live)
  }

  lemma FreshSince(v: View, v1: View, v2: View, ptr: nat, sz: nat, mine: set<nat>)
    requires v1.live == v.live && (ptr != 0 ==> Fresh(v1, v2, ptr, sz, mine))
    ensures ptr != 0 ==> Fresh(v, v2, ptr, sz, mine)
  {
  }

  // ------------------------------------------------------------------- sparing

  lemma MemSame(s: Store, v: View, s': Store, v': View, ids: set<int>, pages: set<nat>, mine: set<nat>)
    requires Spared(s, v, s', v', ids, pages, mine)
    ensures |s'.mem| == |s.mem|
  {
  }

  lemma OfItsSize(s: Store, v: View, t: nat, id: int)
    requires Inv(s, v) && t < NSIZES && t < |v.same| && id in v.same[t]
    ensures id in v.all && 0 <= id < |s.refs| && BlkType(s.refs[id]) == t
  {
    hide PagesOk, BlocksOk, WholeOk, BitsOk, BlkType;
    LinkedRange(s.refs, true, s.allbase, v.all);
  }

  lemma QuietInv(s: Store, v: View)
    requires Quiet(s, v)
    ensures Inv(s, v)
  {
  }

  lemma PositivePage(s: Store, v: View, id: int)
    requires Inv(s, v) && id in v.all
    ensures 0 <= id < |s.refs| && PageAddr(s.refs[id]) > 0
  {
    hide ListsOk, BlocksOk, WholeOk, BitsOk, PageAddr, BlkType, FreeOk;
  }

  lemma NotNull(s: Store, v: View, ptr: nat)
    requires Quiet(s, v) && ptr in v.live
    ensures ptr != 0
  {
    hide Inv, NoIdlePage, PageAddr, BlkType, BlockSize, Aligned;
    BlockInPage(s, v, ptr);
    PositivePage(s, v, v.live[ptr].id);
    WithinPage(BlkType(s.refs[v.live[ptr].id]), ptr - PageAddr(s.refs[v.live[ptr].id]));
  }

  lemma FreshlyHanded(v: View, v': View, ptr: nat, sz: nat, mine: set<nat>)
    requires Handed(v, v', ptr, sz)
    ensures Fresh(v, v', ptr, sz, mine) && ptr in v'.live
  {
  }

  lemma FreshThrough(s: Store, v: View, s1: Store, v1: View, v2: View, ptr: nat, sz: nat, mine: set<nat>)
    requires Spared(s, v, s1, v1, {}, {}, mine) && (ptr != 0 ==> Fresh(v1, v2, ptr, sz, mine))
    ensures ptr != 0 ==> Fresh(v, v2, ptr, sz, mine)
  {
  }

  lemma SparedView(s: Store, v: View, s': Store, v': View, mine: set<nat>)
    requires Spared(s, v, s', v', {}, {}, mine)
    ensures Undisturbed(v, v', {}, {}, mine)
  {
  }

  ghost predicate ApartFromAll(s: Store, v: View, ptr: nat, n: nat)
  {
    forall b: nat, m: nat :: Extent(s, v, b, m) && b != ptr ==> b + m <= ptr || ptr + n <= b
  }

  /** The allocation at `ptr` has room for sz bytes, is 16-byte aligned and overlaps no other. */
  ghost predicate Serves(s: Store, v: View, ptr: nat, sz: nat)
  {
    && ptr % 16 == 0
    && exists n :: Extent(s, v, ptr, n) && sz <= n && ApartFromAll(s, v, ptr, n)
  }

  lemma ExtentIsApart(s: Store, v: View, ptr: nat, n: nat, sz: nat)
    requires Quiet(s, v) && Extent(s, v, ptr, n) && sz <= n
    ensures Serves(s, v, ptr, sz)
  {
    hide Inv, NoIdlePage, Extent;
    ExtentPositive(s, v, ptr, n);
    forall b: nat, m: nat | Extent(s, v, b, m) && b != ptr ensures b + m <= ptr || ptr + n <= b {
      AllocationsDisjoint(s, v, ptr, n, b, m);
      AllocationsDisjoint(s, v, b, m, ptr, n);
    }
  }

  lemma RunServes(s: Store, v: View, ptr: nat, sz: nat)
    requires Quiet(s, v) && 2048 <= sz <= 0x1_0000_0000 - PAGE && ptr in v.whole && v.whole[ptr] == PagesFor(sz)
    ensures Serves(s, v, ptr, sz)
  {
    hide Quiet, Serves;
    PagesHoldRequest(sz);
    ExtentIsApart(s, v, ptr, v.whole[ptr] * PAGE, sz);
  }

  lemma BlockExtent(s: Store, v: View, ptr: nat) returns (n: nat)
    requires Inv(s, v) && ptr in v.live
    ensures Extent(s, v, ptr, n) && v.live[ptr].size <= n
  {
    hide Inv, BlkType, BlockSize, PageAddr, Aligned;
    BlockInPage(s, v, ptr);
    n := BlockSize(BlkType(s.refs[v.live[ptr].id]));
  }

  lemma BlockServes(s: Store, v: View, ptr: nat, sz: nat)
    requires Quiet(s, v) && ptr in v.live && v.live[ptr].size == sz
    ensures Serves(s, v, ptr, sz)
  {
    QuietInv(s, v);
    hide Quiet, Serves, Inv, Extent;
    var n := BlockExtent(s, v, ptr);
    ExtentIsApart(s, v, ptr, n, sz);
  }

  lemma FreshNow(s: Store, v: View, s1: Store, v1: View, v2: View, id: int, page: nat, ptr: nat, sz: nat,
      mine: set<nat>)
    requires Spared(s, v, s1, v1, {}, {}, mine)
    requires Handed(v1.(pending := v1.pending - {id}, frames := v1.frames[page / PAGE := HeapPage(id)]), v2, ptr, sz)
    ensures Fresh(v, v2, ptr, sz, mine)
  {
  }

  lemma SparesItself(s: Store, v: View, ids: set<int>, pages: set<nat>, mine: set<nat>)
    ensures Spared(s, v, s, v, ids, pages, mine)
  {
  }

  lemma SparedTwice(s: Store, v: View, s1: Store, v1: View, s2: Store, v2: View,
                    ids: set<int>, pages: set<nat>, mine: set<nat>)
    requires Spared(s, v, s1, v1, ids, pages, mine) && Spared(s1, v1, s2, v2, ids, pages, mine)
    ensures Spared(s, v, s2, v2, ids, pages, mine)
  {
    assert Intact(s.mem, s2.mem, v, mine) by {
      forall a, w | a in mine && Owns(v, a, w) && 0 <= w < |s.mem| ensures s2.mem[w] == s.mem[w] {
        assert Owns(v1, a, w);
      }
    }
  }

  lemma SparedFewer(s: Store, v: View, s': Store, v': View, ids: set<int>, pages: set<nat>, fewer: set<nat>,
      mine: set<nat>)
    requires Spared(s, v, s', v', ids, pages, mine) && fewer <= pages
    ensures Spared(s, v, s', v', ids, fewer, mine)
  {
  }

  lemma SparedFewerIds(s: Store, v: View, s': Store, v': View, id: int, pages: set<nat>, mine: set<nat>)
    requires Spared(s, v, s', v', {id}, pages, mine)
    ensures Spared(s, v, s', v', {}, pages, mine)
  {
  }

  lemma HeldId(s: Store, v: View, s': Store, v': View, id: int, pages: set<nat>, mine: set<nat>)
    requires Spared(s, v, s', v', {id}, pages, mine) && id in v.pending
    ensures id in v'.pending
  {
  }

  lemma HeldFrame(s: Store, v: View, s': Store, v': View, ids: set<int>, pages: set<nat>, f: nat, mine: set<nat>)
    requires Spared(s, v, s', v', ids, pages, mine) && f in pages && f in v.frames && v.frames[f] == InTransit
    ensures f in v'.frames && v'.frames[f] == InTransit
  {
  }

  // ------------------------------------------- what each section does to the others

  lemma TakeSpares(s: Store, v: View, s': Store, v': View, ptr: nat, size: nat,
                   ids: set<int>, pages: set<nat>, mine: set<nat>)
    requires Handed(v, v', ptr, size) && s'.mem == s.mem && s'.rootPage == s.rootPage
    ensures Spared(s, v, s', v', ids, pages, mine)
  {
  }

  lemma ReserveSpares(s: Store, v: View, s': Store, v': View, id: int, ids: set<int>, pages: set<nat>, mine: set<nat>)
    requires v' == v.(pending := v.pending + {id}) && s'.mem == s.mem && s'.rootPage == s.rootPage
    ensures Spared(s, v, s', v', ids, pages, mine)
  {
  }

  lemma InstallSpares(s: Store, v: View, s': Store, v': View, r: nat, va: nat,
                      ids: set<int>, pages: set<nat>, mine: set<nat>)
    requires v' == v.(frames := v.frames[va / PAGE := RefPage(r)]) && va / PAGE !in pages && s'.mem == s.mem
    requires r < |s.rootPage| && s.rootPage[r] == 0 && s'.rootPage == s.rootPage[r := va]
    ensures Spared(s, v, s', v', ids, pages, mine)
  {
  }

  /** A page joining or leaving those in transit. */
  lemma FramesSpare(s: Store, v: View, s': Store, v': View, f: nat, ids: set<int>, pages: set<nat>, mine: set<nat>)
    requires v' == v.(frames := v.frames[f := InTransit]) || (v' == v.(frames := v.frames - {f}) && f !in pages)
    requires s'.mem == s.mem && s'.rootPage == s.rootPage
    ensures Spared(s, v, s', v', ids, pages, mine)
  {
  }

  lemma GetRunSpares(s: Store, v: View, s': Store, v': View, va: nat, n: nat,
                     ids: set<int>, pages: set<nat>, mine: set<nat>)
    requires v' == WithWhole(v, va, n) && Run(va / PAGE, n) !! v.frames.Keys && va !in v.whole
    requires s'.mem == s.mem && s'.rootPage == s.rootPage
    ensures Spared(s, v, s', v', ids, pages, mine)
  {
    hide Run;
  }

  lemma PutRunSpares(s: Store, v: View, s': Store, v': View, va: nat, ids: set<int>, pages: set<nat>, mine: set<nat>)
    requires v' == WithoutWhole(v, va) && va !in mine && s'.mem == s.mem && s'.rootPage == s.rootPage
    ensures Spared(s, v, s', v', ids, pages, mine)
  {
  }

  /** The allocation a word belongs to, with its extent. */
  lemma OwnsExtent(s: Store, v: View, a: nat, w: int) returns (n: nat)
    requires Inv(s, v) && Owns(v, a, w)
    ensures Extent(s, v, a, n) && a <= 4 * w < a + n
  {
    hide Inv, PageAddr, BlkType, BlockSize, Aligned;
    if a in v.live {
      BlockInPage(s, v, a);
      NotBothKinds(s, v, a);
      n := BlockSize(BlkType(s.refs[v.live[a].id]));
    } else {
      n := v.whole[a] * PAGE;
    }
  }

  lemma WordFrame(a: nat, n: nat, w: int)
    requires a <= 4 * w < a + n
    ensures 0 <= w && a / PAGE <= w / 1024 <= (a + n - 1) / PAGE
  {
  }

  /** Nothing live lies on a page in transit. */
  lemma TransitIsNobodys(s: Store, v: View, page: nat, a: nat, w: int)
    requires Inv(s, v) && page / PAGE in v.frames && v.frames[page / PAGE] == InTransit && Owns(v, a, w)
    ensures w / 1024 != page / PAGE
  {
    hide Inv, Owns, Extent;
    var n := OwnsExtent(s, v, a, w);
    WordFrame(a, n, w);
    ExtentFrames(s, v, a, n, w / 1024);
  }

  lemma FinishSpares(s: Store, v: View, s': Store, v': View, id: int, page: nat, ptr: nat, size: nat,
                     ids: set<int>, pages: set<nat>, mine: set<nat>)
    requires Inv(s, v) && ChangedInPage(s.mem, s'.mem, page) && s'.rootPage == s.rootPage && id !in ids
    requires page / PAGE !in pages && page / PAGE in v.frames && v.frames[page / PAGE] == InTransit
    requires Handed(v.(pending := v.pending - {id}, frames := v.frames[page / PAGE := HeapPage(id)]), v', ptr, size)
    ensures Spared(s, v, s', v', ids, pages, mine)
  {
    hide Inv, Owns;
    forall a, w | a in mine && Owns(v, a, w) && 0 <= w < |s.mem| ensures s'.mem[w] == s.mem[w] {
      TransitIsNobodys(s, v, page, a, w);
    }
  }

  /** Memory has changed only within the block at `ptr`. */
  ghost predicate OnlyBlock(s: Store, v: View, ptr: nat, mem': seq<int>)
  {
    && |mem'| == |s.mem|
    && forall w :: 0 <= w < |mem'| && !InBlock(s, v, ptr, w) ==> mem'[w] == s.mem[w]
  }

  lemma BlocksOwnWords(s: Store, v: View, ptr: nat, a: nat, w: nat)
    requires Inv(s, v) && InBlock(s, v, ptr, w) && Owns(v, a, w)
    ensures a == ptr
  {
    hide Inv, Owns, PageAddr, BlkType, BlockSize;
    var n := OwnsExtent(s, v, a, w);
    var m := BlockSize(BlkType(s.refs[v.live[ptr].id]));
    AllocationsDisjoint(s, v, a, n, ptr, m);
    AllocationsDisjoint(s, v, ptr, m, a, n);
  }

  lemma GiveSpares(s: Store, v: View, s': Store, v': View, ptr: nat, page: nat,
                   ids: set<int>, pages: set<nat>, mine: set<nat>)
    requires Inv(s, v) && ptr !in mine && v'.live == v.live - {ptr} && v'.whole == v.whole && v'.pending == v.pending
    requires page != 0 ==> page / PAGE in v.frames && v.frames[page / PAGE].HeapPage?
    requires v'.frames == if page == 0 then v.frames else v.frames[page / PAGE := InTransit]
    requires OnlyBlock(s, v, ptr, s'.mem) && s'.rootPage == s.rootPage
    ensures Spared(s, v, s', v', ids, pages, mine)
  {
    hide Inv, Owns, InBlock;
    forall a, w | a in mine && Owns(v, a, w) && 0 <= w < |s.mem| ensures s'.mem[w] == s.mem[w] {
      if InBlock(s, v, ptr, w) { BlocksOwnWords(s, v, ptr, a, w); }
    }
  }

  lemma RunWord(a: nat, n: nat, w: nat)
    requires a % PAGE == 0 && a <= 4 * w < a + n * PAGE
    ensures a / PAGE <= w / 1024 < a / PAGE + n
  {
    assert 4 * w / PAGE == w / 1024;
    var q := a / PAGE;
    assert a == q * PAGE;
    assert 4 * w < (q + n) * PAGE;
  }

  /** A word has one owner. */
  lemma OneOwner(s: Store, v: View, a: nat, b: nat, w: nat)
    requires Inv(s, v) && Owns(v, a, w) && Owns(v, b, w)
    ensures a == b
  {
    hide Inv, Owns, Extent;
    var m := OwnsExtent(s, v, a, w);
    var n := OwnsExtent(s, v, b, w);
    AllocationsDisjoint(s, v, a, m, b, n);
    AllocationsDisjoint(s, v, b, n, a, m);
  }

  lemma StoreSpares(s: Store, v: View, a: nat, w: nat, x: int, ids: set<int>, pages: set<nat>, mine: set<nat>)
    requires Quiet(s, v) && a !in mine && Owns(v, a, w) && w < |s.mem|
    ensures ClientWord(s, v, w) && Spared(s, v, s.(mem := s.mem[w := x]), v, ids, pages, mine)
  {
    hide Inv, NoIdlePage, PageAddr, BlkType, BlockSize;
    var mem' := s.mem[w := x];
    var n := OwnsExtent(s, v, a, w);
    if a in v.live {
      NotBothKinds(s, v, a);
      assert InBlock(s, v, a, w);
    } else {
      WholeShape(s, v, a);
      RunWord(a, v.whole[a], w);
      assert InWhole(v, a, w);
    }
    hide Owns;
    forall b, u | b in mine && Owns(v, b, u) && 0 <= u < |s.mem| ensures mem'[u] == s.mem[u] {
      if u == w { OneOwner(s, v, a, b, w); }
    }
  }

  /** Some page of the list has a free block. */
  ghost predicate HasRoom(refs: seq<PageRef>, l: seq<int>)
  {
    exists id :: id in l && 0 <= id < |refs| && refs[id].nfree > 0
  }

  /** No page of the smallest block size that fits has a free block. */
  ghost predicate NoRoom(refs: seq<PageRef>, v: View, sz: nat)
  {
    forall t ::
      0 <= t < NSIZES && t < |v.same| && sz <= BlockSize(t) && (forall u :: 0 <= u < t ==> BlockSize(u) < sz) ==>
      forall id :: id in v.same[t] ==> 0 <= id < |refs| && refs[id].nfree == 0
  }

  lemma ReadyToAdd(s: Store, v: View, id: nat, page: nat)
    requires id < TOTAL && id in v.pending && |s.rootPage| == NROOTS && s.rootPage[id / NPAGEREFS] != 0
    requires page % PAGE == 0 && 0 < page && page + PAGE <= 4 * |s.mem|
    requires page / PAGE in v.frames && v.frames[page / PAGE] == InTransit
    ensures MayAdd(s, v, id, page)
  {
  }

  lemma QuietShape(s: Store, v: View)
    requires Quiet(s, v)
    ensures |s.refs| == |s.inuse| == TOTAL && |s.rootPage| == NROOTS
  {
    hide ListsOk, PagesOk, BlocksOk, WholeOk;
  }

  lemma IdleIgnoresFrames(refs: seq<PageRef>, v: View, v': View)
    requires NoIdlePage(refs, v) && v'.all == v.all
    ensures NoIdlePage(refs, v')
  {
  }

  lemma RunStart(v: View, f: nat)
    requires WholeOk(v) && f in v.frames && v.frames[f].Whole?
    ensures v.frames[f].start / PAGE in v.frames && v.frames[v.frames[f].start / PAGE] == v.frames[f]
  {
    var a := v.frames[f].start;
    assert a in v.whole;
    assert a / PAGE in v.frames && v.frames[a / PAGE] == Whole(a);
  }

  /** No run other than its own starts at a page in transit. */
  lemma OnlyItself(v: View, granted: map<nat, nat>, p: nat)
    requires WholeOk(v) && GrantsOk(granted, v) && p in v.frames && v.frames[p] == InTransit
    ensures forall f :: f in granted ==> (granted[f] == p <==> f == p)
  {
    forall f | f in granted && granted[f] == p ensures f == p {
      if v.frames[f].Whole? {
        RunStart(v, f);
      }
    }
  }

  lemma UngrantPage(v: View, granted: map<nat, nat>, p: nat)
    requires WholeOk(v) && GrantsOk(granted, v) && p in v.frames && v.frames[p] == InTransit
    ensures GrantsOk(map f | f in granted && granted[f] != p :: granted[f], v.(frames := v.frames - {p}))
    ensures (map f | f in granted && granted[f] != p :: granted[f]) == granted - {p}
  {
    OnlyItself(v, granted, p);
    hide WholeOk;
  }

  /** The frames that go back to the page allocator when `ptr` is freed: the frame of the block if it is the
      last of its page, all of a run of pages. */
  function FreedFrames(v: View, ptr: nat): set<nat>
  {
    if ptr in v.live then if LastOfItsPage(v, ptr) then {ptr / PAGE} else {}
    else if ptr in v.whole then Run(ptr / PAGE, v.whole[ptr])
    else {}
  }

  lemma RunIsAll(s: Store, v: View, a: nat)
    requires Inv(s, v) && a in v.whole
    ensures WithoutWhole(v, a).frames == v.frames - Run(a / PAGE, v.whole[a])
  {
    hide ListsOk, PagesOk, BlocksOk, BitsOk, Run;
    forall f | f in v.frames ensures v.frames[f] == Whole(a) <==> f in Run(a / PAGE, v.whole[a]) {
      if v.frames[f] == Whole(a) { assert InItsRun(v, f, a); }
    }
  }

  lemma OnlyItsRun(v: View, granted: map<nat, nat>, a: nat)
    requires WholeOk(v) && GrantsOk(granted, v) && a in v.whole
    ensures forall f :: f in granted ==> (granted[f] == a / PAGE <==> v.frames[f] == Whole(a))
  {
    assert v.frames[a / PAGE] == Whole(a);
    forall f | f in granted && granted[f] == a / PAGE ensures v.frames[f] == Whole(a) {
      if v.frames[f].Whole? {
        RunStart(v, f);
      }
    }
  }

  /** What free_kpages leaves of the grants. */
  lemma UngrantRun(s: Store, v: View, granted: map<nat, nat>, a: nat)
    requires Inv(s, v) && GrantsOk(granted, v) && a in v.whole
    ensures GrantsOk(map f | f in granted && granted[f] != a / PAGE :: granted[f], WithoutWhole(v, a))
  {
    hide ListsOk, PagesOk, BlocksOk, BitsOk;
    OnlyItsRun(v, granted, a);
    hide WholeOk;
  }

  lemma SameGrants(granted: map<nat, nat>, granted': map<nat, nat>, v: View, v': View, gone: set<nat>)
    requires GrantsOk(granted, v) && GrantsOk(granted', v') && v'.frames == v.frames - gone
    ensures granted' == granted - gone
  {
  }

  /** A pointer on no heap page is to no live block. */
  lemma NotOnAnyPage(s: Store, v: View, ptr: nat)
    requires Inv(s, v)
    requires forall i :: i in v.all ==>
      0 <= i < |s.refs| && !(PageAddr(s.refs[i]) <= ptr < PageAddr(s.refs[i]) + PAGE)
    ensures ptr !in v.live
  {
    hide Inv, PageAddr, BlkType, BlockSize, Aligned;
    if ptr in v.live {
      BlockInPage(s, v, ptr);
      WithinPage(BlkType(s.refs[v.live[ptr].id]), ptr - PageAddr(s.refs[v.live[ptr].id]));
    }
  }

  /** A heap page that contains a pointer handed out by kmalloc is the page of that block. */
  lemma RoutedHome(s: Store, v: View, ptr: nat, id: int)
    requires Inv(s, v) && (ptr in v.live || ptr in v.whole)
    requires id in v.all && 0 <= id < |s.refs| && PageAddr(s.refs[id]) <= ptr < PageAddr(s.refs[id]) + PAGE
    ensures ptr in v.live && v.live[ptr].id == id && id in v.free && BlkType(s.refs[id]) < NSIZES && id < TOTAL
    ensures Aligned(ptr - PageAddr(s.refs[id]), BlkType(s.refs[id]))
  {
    hide ListsOk, PagesOk, BlocksOk, WholeOk, BitsOk, Typed, PageAddr, BlkType, BlockSize, Aligned;
    FrameOf(s, v, id);
    PageAligned(s.refs[id]);
    assert ptr / PAGE == PageAddr(s.refs[id]) / PAGE;
    if ptr in v.live {
      BlockInPage(s, v, ptr);
      NotFreeAndLive(s, v, ptr);
      var j := v.live[ptr].id;
      FrameOf(s, v, j);
      PageAligned(s.refs[j]);
      WithinPage(BlkType(s.refs[j]), ptr - PageAddr(s.refs[j]));
      assert ptr / PAGE == PageAddr(s.refs[j]) / PAGE;
    } else {
      WholeShape(s, v, ptr);
      WholeFrame(s, v, ptr, ptr / PAGE);
    }
  }

  lemma CoverOf(s: Store, v: View, id: int, o: nat)
    requires Inv(s, v) && Typed(s.refs, v) && id in v.all && Aligned(o, BlkType(s.refs[id]))
    ensures FreeOrLive(s.refs, v, id, o)
  {
    hide ListsOk, BitsOk, WholeOk, PagesOk, LiveAt, FreeOrLive, Typed, Aligned;
  }

  /** A page has no live block exactly when every block is on its free list. */
  lemma EmptyPage(s: Store, v: View, id: int)
    requires Inv(s, v) && id in v.all
    ensures 0 <= id < |s.refs| && BlkType(s.refs[id]) < NSIZES && s.refs[id].nfree <= Blocks(BlkType(s.refs[id]))
    ensures s.refs[id].nfree == Blocks(BlkType(s.refs[id])) <==> forall a :: a in v.live ==> v.live[a].id != id
  {
    hide ListsOk, BlocksOk, WholeOk, BitsOk, PageAddr, BlkType, BlockSize, Blocks, Aligned;
    FreeOf(s.mem, s.refs, v, id);
    var fl, t := v.free[id], BlkType(s.refs[id]);
    FullFreeList(t, fl);
    TypedOf(s, v);
    if forall o: nat :: Aligned(o, t) ==> o in fl {
      forall a | a in v.live ensures v.live[a].id != id {
        LiveOf(s, v, a);
        if v.live[a].id == id {
          WithinPage(t, a - PageAddr(s.refs[id]));
          assert false;
        }
      }
    }
    if forall a :: a in v.live ==> v.live[a].id != id {
      forall o: nat | Aligned(o, t) ensures o in fl {
        CoverOf(s, v, id, o);
      }
    }
  }

  lemma RootIsFull(inuse: seq<bool>, r: nat)
    requires |inuse| == TOTAL && r < NROOTS && Count(RootBits(inuse, r)) >= NPAGEREFS
    ensures forall i :: r * NPAGEREFS <= i < (r + 1) * NPAGEREFS ==> inuse[i]
    ensures Count(RootBits(inuse, r)) == NPAGEREFS
  {
    CountBound(RootBits(inuse, r));
    forall i | r * NPAGEREFS <= i < (r + 1) * NPAGEREFS ensures inuse[i] {
      RootBitsAt(inuse, i);
    }
  }

  /** A root without a page in front of a descriptor in use is full, and every one of its descriptors is
      reserved without having, or ever having had, a page: by an allocation that still waits for one or
      by one that was refused and gave up. */
  lemma PagelessRootIsFull(inuse: seq<bool>, numinuse: seq<nat>, rootPage: seq<nat>, v: View, id: int, r: nat)
    requires BitsOk(inuse, numinuse, rootPage, v) && Used(v, id) && r < NROOTS && r < id / NPAGEREFS && rootPage[r] == 0
    ensures numinuse[r] == NPAGEREFS
    ensures forall i :: r * NPAGEREFS <= i < (r + 1) * NPAGEREFS ==> i in v.pending
  {
    hide Count, RootBits;
    RootIsFull(inuse, r);
    forall i | r * NPAGEREFS <= i < (r + 1) * NPAGEREFS ensures i in v.pending {
      assert inuse[i] && i / NPAGEREFS == r;
    }
  }

  lemma GiveStaysQuiet(s: Store, v: View, refs': seq<PageRef>, v': View, id: int, ptr: nat)
    requires NoIdlePage(s.refs, v) && id in v.all && 0 <= id < |s.refs| && |refs'| == |s.refs| && v'.all == v.all
    requires forall i :: 0 <= i < |refs'| && i != id ==> refs'[i] == s.refs[i]
    requires BlkType(refs'[id]) < NSIZES && refs'[id].nfree < Blocks(BlkType(refs'[id]))
    ensures NoIdlePage(refs', v')
  {
  }

  lemma DropStaysQuiet(s: Store, v: View, refs1: seq<PageRef>, refs': seq<PageRef>, v1: View, v': View, id: int,
      t: nat, page: nat)
    requires NoIdlePage(s.refs, v) && Distinct(v1.all) && v1.all == v.all
    requires t < |v1.same| && v' == Dropped(v1, id, t, page)
    requires |refs'| == |refs1| == |s.refs|
    requires forall i :: 0 <= i < |refs1| && i != id ==> refs1[i] == s.refs[i]
    requires forall i :: 0 <= i < |refs'| ==> refs'[i].pab == refs1[i].pab && refs'[i].nfree == refs1[i].nfree
    ensures NoIdlePage(refs', v')
  {
    hide Without, PageAddr, BlkType, Blocks;
    WithoutMembers(v1.all, id);
    SamePlaces(refs1, refs');
  }

  lemma BitsShape(inuse: seq<bool>, numinuse: seq<nat>, rootPage: seq<nat>, v: View)
    requires BitsOk(inuse, numinuse, rootPage, v)
    ensures |inuse| == TOTAL && |numinuse| == |rootPage| == NROOTS
  {
  }

  lemma RelinksKeeps(r: seq<PageRef>, r': seq<PageRef>, onAll: bool, head: int, l: seq<int>)
    requires Linked(r, !onAll, head, l) && Relinks(r, r', onAll)
    ensures Linked(r', !onAll, head, l)
  {
    LinkedKept(r, r', !onAll, head, l);
  }

  lemma OtherListKept(r: seq<PageRef>, sizebases: seq<int>, allbase: int, v: View, t: nat, r': seq<PageRef>, u: nat)
    requires ListsOk(r, sizebases, allbase, v) && t < NSIZES && u < NSIZES && u != t
    requires |r'| == |r| && forall i :: 0 <= i < |r| && i !in v.same[t] ==> r'[i] == r[i]
    ensures Linked(r', false, sizebases[u], v.same[u])
  {
    hide BlkType;
    var l := v.same[u];
    assert Linked(r, false, sizebases[u], l);
    forall k | 0 <= k < |l| ensures r'[l[k]] == r[l[k]] {
      assert l[k] in v.same[u];
    }
    LinkedKept(r, r', false, sizebases[u], l);
  }

  lemma DropGrants(s: Store, v: View, id: int, t: nat, granted: map<nat, nat>)
    requires Inv(s, v) && id in v.all && t < |v.same| && GrantsOk(granted, v) && 0 <= id < |s.refs|
    ensures GrantsOk(granted, Dropped(v, id, t, PageAddr(s.refs[id])))
  {
    hide Inv, PageAddr, Without;
    FrameOf(s, v, id);
  }

  lemma OtherRootPage(inuse: seq<bool>, numinuse: seq<nat>, rootPage: seq<nat>, v: View, r: nat, q: nat)
    requires BitsOk(inuse, numinuse, rootPage, v)
    requires r < NROOTS && q < NROOTS && r != q && rootPage[r] != 0 && rootPage[q] != 0
    ensures rootPage[r] % PAGE == 0 && rootPage[q] % PAGE == 0 && rootPage[r] / PAGE != rootPage[q] / PAGE
  {
    hide Count, RootBits;
  }

  lemma CountPositive(inuse: seq<bool>, id: nat)
    requires |inuse| == TOTAL && id < TOTAL && inuse[id]
    ensures Count(RootBits(inuse, id / NPAGEREFS)) > 0
  {
    RootBitsAt(inuse, id);
    CountBound(RootBits(inuse, id / NPAGEREFS));
  }

  lemma Quarter(x: int)
    requires x % 16 == 0
    ensures x % 4 == 0
  {
  }

  lemma BlockInMemory(mem: seq<int>, pr: PageRef, ptr: nat)
    requires PageOk(|mem|, pr) && Aligned(ptr - PageAddr(pr), BlkType(pr))
    ensures ptr % 4 == 0 && BlockSize(BlkType(pr)) % 4 == 0 && ptr + BlockSize(BlkType(pr)) <= 4 * |mem|
  {
    hide PageAddr, BlkType, BlockSize, Aligned;
    var off := ptr - PageAddr(pr);
    WithinPage(BlkType(pr), off);
    PageAligned(pr);
    SixteenthOfPage(PageAddr(pr), off);
    SizeTable(BlkType(pr));
    Quarter(ptr);
    Quarter(BlockSize(BlkType(pr)));
  }

  lemma FreeListFirst(mem: seq<int>, pr: PageRef, fl: seq<nat>)
    requires PageOk(|mem|, pr) && FreeOk(mem, pr, fl)
    ensures FirstFree(pr, fl) == if pr.flOff == INVALID_OFFSET then 0 else PageAddr(pr) + pr.flOff
  {
    hide BlockSize, PageAddr, BlkType;
    assert fl != [] ==> Aligned(fl[0], BlkType(pr));
  }

  lemma RelinkedBy(s: Store, v: View, a: nat, mem': seq<int>, next: int)
    requires a in v.live && 0 <= v.live[a].id < |s.refs| && BlkType(s.refs[v.live[a].id]) < NSIZES
    requires |mem'| == |s.mem| && a / 4 < |mem'| && mem'[a / 4] == next && a % 4 == 0
    requires var size := BlockSize(BlkType(s.refs[v.live[a].id]));
      forall w :: 0 <= w < |mem'| && w != a / 4 && !(a <= 4 * w < a + size) ==> mem'[w] == s.mem[w]
    ensures Relinked(s, v, a, mem', next)
  {
  }

  /** The word at block k holds the address of block k - 1, or nothing. */
  ghost predicate LinksBack(mem: seq<int>, page: nat, t: nat, k: nat)
    requires t < NSIZES
  {
    (page + SlotAt(t, k)) / 4 < |mem| && mem[(page + SlotAt(t, k)) / 4] == if k == 0 then 0 else page + SlotAt(t, k - 1)
  }

  /** The first `i` blocks of the page are chained from the last of them back to block 0. */
  ghost predicate Chained(mem: seq<int>, page: nat, t: nat, i: nat)
    requires t < NSIZES
  {
    forall k :: 0 <= k < i ==> LinksBack(mem, page, t, k)
  }

  lemma FirstSlot(mem: seq<int>, page: nat, t: nat)
    requires t < NSIZES && page % PAGE == 0 && page + PAGE <= 4 * |mem|
    ensures page / 4 < |mem| && Chained(mem[page / 4 := 0], page, t, 1) && ChangedInPage(mem, mem[page / 4 := 0], page)
  {
  }

  lemma LastSlot(t: nat)
    requires t < NSIZES
    ensures SlotAt(t, Blocks(t) - 1) == (Blocks(t) - 1) * BlockSize(t)
  {
  }

  lemma ListsSizes(r: seq<PageRef>, sizebases: seq<int>, allbase: int, v: View)
    requires ListsOk(r, sizebases, allbase, v)
    ensures |sizebases| == |v.same| == NSIZES
  {
  }

  lemma MayAddPage(s: Store, v: View, id: int, page: nat)
    requires MayAdd(s, v, id, page)
    ensures 0 <= id < TOTAL && page % PAGE == 0 && 0 < page && page + PAGE <= 4 * |s.mem|
    ensures page / PAGE in v.frames && v.frames[page / PAGE] == InTransit
  {
  }

  /** The page just added has room, and after one block is taken from it no page is idle. */
  lemma AddedIsUsable(s: Store, v: View, id: int, page: nat, t: nat, mem': seq<int>, size: nat)
    requires Quiet(s, v) && MayAdd(s, v, id, page) && t < NSIZES && t < |s.sizebases| && t < |v.same|
    requires |s.refs| == TOTAL
    ensures var s', v' := Added(s, id, page, t, mem'), AddedView(v, id, page, t);
      && id in v'.all && BlkType(s'.refs[id]) == t && s'.refs[id].nfree > 0
      && NoIdlePage(Took(s', v', id).refs, TookView(s', v', id, size))
  {
    hide Inv, FreshList, PageAddr, BlkType;
    NewRefType(s, page, t);
    assert |FreshList(t)| == Blocks(t);
    var v' := AddedView(v, id, page, t);
    assert forall i :: i in v'.all <==> i == id || i in v.all;
    var pr := NewRef(s, page, t);
    SamePlace(pr, Rest(pr, FreshList(t)));
  }

  lemma SlotApart(t: nat, k: nat, i: nat, page: nat)
    requires t < NSIZES && k < i < Blocks(t) && page % PAGE == 0
    ensures SlotAt(t, k) + 16 <= SlotAt(t, i) && SlotAt(t, i) + 16 <= PAGE
    ensures (page + SlotAt(t, k)) / 4 < (page + SlotAt(t, i)) / 4
  {
    SlotStep(t, k);
    SlotStep(t, i);
    Descends(i, k, BlockSize(t));
    AlignedApart(t, k * BlockSize(t), i * BlockSize(t));
  }

  lemma SlotInPage(t: nat, k: nat, page: nat)
    requires t < NSIZES && k < Blocks(t) && page % PAGE == 0
    ensures SlotAt(t, k) < PAGE && ((page + SlotAt(t, k)) / 4) / 1024 == page / PAGE
    ensures page <= 4 * ((page + SlotAt(t, k)) / 4) < page + PAGE
  {
    SlotStep(t, k);
  }

  lemma ChainStep(mem: seq<int>, page: nat, t: nat, i: nat)
    requires t < NSIZES && page % PAGE == 0 && page + PAGE <= 4 * |mem| && 0 < i < Blocks(t) && Chained(mem, page, t, i)
    ensures (page + SlotAt(t, i)) / 4 < |mem|
    ensures Chained(mem[(page + SlotAt(t, i)) / 4 := page + SlotAt(t, i - 1)], page, t, i + 1)
  {
    hide SlotAt, Blocks;
    SlotInPage(t, i, page);
    var mem' := mem[(page + SlotAt(t, i)) / 4 := page + SlotAt(t, i - 1)];
    forall k | 0 <= k < i + 1 ensures LinksBack(mem', page, t, k) {
      if k < i {
        SlotApart(t, k, i, page);
        assert LinksBack(mem, page, t, k);
      }
    }
  }

  lemma FreshIsSlot(t: nat, k: nat)
    requires t < NSIZES && k < Blocks(t)
    ensures FreshList(t)[k] == SlotAt(t, Blocks(t) - 1 - k)
  {
  }

  lemma ChainedAt(mem: seq<int>, page: nat, t: nat, i: nat, k: nat)
    requires t < NSIZES && k < i && Chained(mem, page, t, i)
    ensures (page + SlotAt(t, k)) / 4 < |mem|
    ensures mem[(page + SlotAt(t, k)) / 4] == if k == 0 then 0 else page + SlotAt(t, k - 1)
  {
    assert LinksBack(mem, page, t, k);
  }

  lemma ChainedWord(mem: seq<int>, page: nat, t: nat, k: nat)
    requires t < NSIZES && page % PAGE == 0 && 0 < page && page + PAGE <= 4 * |mem| && Chained(mem, page, t, Blocks(t))
    requires k < Blocks(t) == |FreshList(t)|
    ensures
      var fl := FreshList(t);
      (page + fl[k]) / 4 < |mem| && mem[(page + fl[k]) / 4] == if k + 1 < |fl| then page + fl[k + 1] else 0
  {
    hide BlockSize, Aligned, Blocks, FreshList, SlotAt;
    var j := Blocks(t) - 1 - k;
    FreshIsSlot(t, k);
    ChainedAt(mem, page, t, Blocks(t), j);
    if j > 0 {
      FreshIsSlot(t, k + 1);
    }
  }

  /** A complete chain is the free list of a fresh page. */
  lemma ChainIsFreeList(mem: seq<int>, pr: PageRef, page: nat, t: nat)
    requires t < NSIZES && page % PAGE == 0 && 0 < page && page + PAGE <= 4 * |mem| && Chained(mem, page, t, Blocks(t))
    requires pr.pab == page + t && pr.flOff == SlotAt(t, Blocks(t) - 1) && pr.nfree == Blocks(t)
    ensures PageOk(|mem|, pr) && FreeOk(mem, pr, FreshList(t))
  {
    hide BlockSize, Aligned, Blocks, FreshList, SlotAt;
    var fl := FreshList(t);
    FreshCovers(t);
    assert PageAddr(pr) == page && BlkType(pr) == t;
    hide PageAddr, BlkType;
    FreshIsSlot(t, 0);
    forall k | 0 <= k < |fl|
      ensures FreeWord(mem, pr, fl[k]) && mem[(page + fl[k]) / 4] == if k + 1 < |fl| then page + fl[k + 1] else 0
    {
      ChainedWord(mem, page, t, k);
    }
  }

  ghost function At(l: seq<int>, k: nat): int { if k < |l| then l[k] else -1 }

  lemma LinkedWalk(r: seq<PageRef>, onAll: bool, head: int, l: seq<int>, k: nat)
    requires Linked(r, onAll, head, l)
    ensures k == 0 ==> head == At(l, 0)
    ensures k < |l| ==> 0 <= l[k] < |r| && Next(r[l[k]], onAll) == At(l, k + 1)
    ensures At(l, k) == -1 <==> k >= |l|
  {
  }

  lemma FreeListHead(mem: seq<int>, pr: PageRef, fl: seq<nat>)
    requires PageOk(|mem|, pr) && FreeOk(mem, pr, fl) && pr.nfree > 0
    ensures |fl| == pr.nfree && fl[0] == pr.flOff < PAGE && FreeWord(mem, pr, fl[0])
    ensures |fl| > 1 ==> mem[(PageAddr(pr) + fl[0]) / 4] == PageAddr(pr) + fl[1] != 0 && fl[1] < PAGE
    ensures |fl| == 1 ==> mem[(PageAddr(pr) + fl[0]) / 4] == 0
  {
    hide BlockSize;
    assert Aligned(fl[0], BlkType(pr));
    assert |fl| > 1 ==> Aligned(fl[1], BlkType(pr));
  }

  lemma TakeStaysQuiet(s: Store, v: View, id: int, size: nat)
    requires Quiet(s, v) && id in v.all && 0 <= id < |s.refs| && s.refs[id].nfree > 0
    ensures id in v.free && v.free[id] != [] && NoIdlePage(Took(s, v, id).refs, TookView(s, v, id, size))
  {
    hide ListsOk, BlocksOk, WholeOk, BitsOk, FreeOk, PageAddr;
    FreeOf(s.mem, s.refs, v, id);
    FreeListHead(s.mem, s.refs[id], v.free[id]);
  }

  // ------------------------------------------------------------ reaching the assertion

  /** After i allocations that got a page and were refused a descriptor page: i descriptors of the first
      root are reserved, no root has a page, and nothing is live. */
  ghost predicate FailedSoFar(s: Store, v: View, i: nat)
  {
    && i <= NPAGEREFS && |s.inuse| == TOTAL && |s.rootPage| == NROOTS && |s.mem| == 4096
    && (forall k :: 0 <= k < TOTAL ==> (s.inuse[k] <==> k < i))
    && (forall r :: 0 <= r < NROOTS ==> s.rootPage[r] == 0)
    && v.live == map[] && v.all == [] && (forall t :: 0 <= t < |v.same| ==> v.same[t] == [])
  }

  lemma FailsAgain(s: Store, v: View, i: nat)
    requires FailedSoFar(s, v, i) && i < NPAGEREFS
    ensures NoRoom(s.refs, v, 16) && NextFree(s.inuse, 0) == i && !AllUsed(s.inuse)
    ensures CanGrant(map[], 4096, PAGE, 1) && !CanGrant(map[], 4096, 0, 1)
    ensures forall s', v' :: GaveUp(s, v, s', v', true) ==> FailedSoFar(s', v', i + 1)
  {
    assert NextClear(s.inuse, i);
    NextClearIs(s.inuse, i);
  }

  lemma NextIsServed(s: Store, v: View)
    requires FailedSoFar(s, v, NPAGEREFS)
    ensures NoRoom(s.refs, v, 16) && NextFree(s.inuse, 0) == NPAGEREFS
    ensures CanGrant(map[], 4096, PAGE, 1) && CanGrant(map[], 4096, 2 * PAGE, 1)
    ensures forall s', v', ptr :: PageAdded(s, v, s', v', ptr) ==> StopsKernel(s'.rootPage, v', ptr)
  {
    assert NextClear(s.inuse, NPAGEREFS);
    NextClearIs(s.inuse, NPAGEREFS);
    forall s', v', ptr | PageAdded(s, v, s', v', ptr) ensures StopsKernel(s'.rootPage, v', ptr) {
      assert s'.rootPage[0] == 0;
    }
  }
}
