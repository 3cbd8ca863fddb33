/** kern/vm/kmalloc.c: what the kernel heap stores, and what must be true of it whenever the heap
    lock is free.  Page descriptors are numbered; a descriptor pointer is its number, -1 for NULL. */
module KmallocState {
  import opened Collections

  const PAGE := 4096
  const NSIZES := 8
  const NPAGEREFS := 256
  const NROOTS := 16
  const TOTAL := 4096
  const INVALID_OFFSET := 0xffff
  const DEADBEEF := 0xdeadbeef

  function BlockSize(t: nat): (s: nat)
    requires t < NSIZES
    ensures 16 <= s <= 2048
  {
    [16, 32, 64, 128, 256, 512, 1024, 2048][t]
  }

  function Blocks(t: nat): (n: nat)
    requires t < NSIZES
    ensures 2 <= n <= 256
  {
    [256, 128, 64, 32, 16, 8, 4, 2][t]
  }

  /** struct pageref.  The page address and the block type share a word. */
  datatype PageRef = PageRef(nextSame: int, nextAll: int, pab: nat, flOff: nat, nfree: nat)

  function PageAddr(pr: PageRef): nat { pr.pab - pr.pab % PAGE }
  function BlkType(pr: PageRef): nat { pr.pab % PAGE }

  /** Who owns a page frame that alloc_kpages has handed out. */
  datatype Owner = HeapPage(id: int) | RefPage(root: int) | Whole(start: nat) | InTransit

  /** A live block: the descriptor of its page and the size the client asked for. */
  datatype Block = Block(id: int, size: nat)

  /** What the linked structures stand for. */
  datatype View = View(
    all: seq<int>,               // allbase, front to back
    same: seq<seq<int>>,         // sizebases[t], front to back
    free: map<int, seq<nat>>,    // the free list of each page, as offsets into the page
    live: map<nat, Block>,       // blocks handed to clients
    whole: map<nat, nat>,        // whole-page allocations: address and number of pages
    pending: set<int>,           // descriptors reserved and not, or not yet, given a page
    frames: map<nat, Owner>)

  // ----------------------------------------------------------------- the lists

  function Next(pr: PageRef, onAll: bool): int { if onAll then pr.nextAll else pr.nextSame }

  /** Following `Next` from `head` visits exactly `l`, in order, and stops. */
  ghost predicate Linked(refs: seq<PageRef>, onAll: bool, head: int, l: seq<int>)
  {
    && (forall k :: 0 <= k < |l| ==> 0 <= l[k] < |refs|)
    && Distinct(l)
    && head == (if l == [] then -1 else l[0])
    && (forall k :: 0 <= k < |l| ==> Next(refs[l[k]], onAll) == if k + 1 < |l| then l[k + 1] else -1)
  }

  ghost predicate ListsOk(refs: seq<PageRef>, sizebases: seq<int>, allbase: int, v: View)
  {
    && |sizebases| == |v.same| == NSIZES
    && Linked(refs, true, allbase, v.all)
    && (forall t :: 0 <= t < NSIZES ==> Linked(refs, false, sizebases[t], v.same[t]))
    && (forall t, id :: 0 <= t < NSIZES && id in v.same[t] ==> id in v.all && BlkType(refs[id]) == t)
    && (forall id :: id in v.all ==> BlkType(refs[id]) < NSIZES && id in v.same[BlkType(refs[id])])
  }

  // ----------------------------------------------------------------- the pages

  ghost predicate PageOk(words: nat, pr: PageRef)
  {
    BlkType(pr) < NSIZES && 0 < PageAddr(pr) && PageAddr(pr) + PAGE <= 4 * words
  }

  ghost predicate Aligned(off: int, t: nat)
    requires t < NSIZES
  {
    0 <= off < PAGE && off % BlockSize(t) == 0
  }

  /** The in-band free list of one page. */
  ghost predicate FreeOk(mem: seq<int>, pr: PageRef, fl: seq<nat>)
    requires PageOk(|mem|, pr)
  {
    && |fl| == pr.nfree
    && (forall k :: 0 <= k < |fl| ==> Aligned(fl[k], BlkType(pr)))
    && Distinct(fl)
    && pr.flOff == (if fl == [] then INVALID_OFFSET else fl[0])
    && (forall k :: 0 <= k < |fl| ==>
          mem[(PageAddr(pr) + fl[k]) / 4] == if k + 1 < |fl| then PageAddr(pr) + fl[k + 1] else 0)
  }

  ghost predicate PagesOk(mem: seq<int>, refs: seq<PageRef>, v: View)
  {
    && (forall id :: id in v.all ==> 0 <= id < |refs| && id in v.free && PageOk(|mem|, refs[id]))
    && (forall id :: id in v.all ==> FreeOk(mem, refs[id], v.free[id]))
    && (forall id :: id in v.all ==>
          PageAddr(refs[id]) / PAGE in v.frames && v.frames[PageAddr(refs[id]) / PAGE] == HeapPage(id))
  }

  // ---------------------------------------------------------------- the blocks

  ghost predicate Typed(refs: seq<PageRef>, v: View)
  {
    forall i :: i in v.all ==> 0 <= i < |refs| && i in v.free && BlkType(refs[i]) < NSIZES
  }

  /** A block of page b.id starts at `a`, large enough and not on the free list. */
  ghost predicate LiveAt(refs: seq<PageRef>, v: View, a: nat, b: Block)
    requires Typed(refs, v)
  {
    && b.id in v.all
    && Aligned(a - PageAddr(refs[b.id]), BlkType(refs[b.id]))
    && a - PageAddr(refs[b.id]) !in v.free[b.id]
    && b.size <= BlockSize(BlkType(refs[b.id]))
  }

  ghost predicate FreeOrLive(refs: seq<PageRef>, v: View, id: int, off: nat)
    requires Typed(refs, v) && id in v.all
  {
    off in v.free[id] || (PageAddr(refs[id]) + off in v.live && v.live[PageAddr(refs[id]) + off].id == id)
  }

  /** Every block of every page is either on its page's free list or live, and not both. */
  ghost predicate BlocksOk(refs: seq<PageRef>, v: View)
    requires Typed(refs, v)
  {
    && (forall a :: a in v.live ==> LiveAt(refs, v, a, v.live[a]))
    && (forall id, off: nat :: id in v.all && Aligned(off, BlkType(refs[id])) ==> FreeOrLive(refs, v, id, off))
  }

  /** Frame f is one of the pages of the whole-page allocation at a. */
  ghost predicate InItsRun(v: View, f: nat, a: nat) { a in v.whole && a / PAGE <= f < a / PAGE + v.whole[a] }

  ghost predicate WholeOk(v: View)
  {
    && (forall a, f :: a in v.whole && a / PAGE <= f < a / PAGE + v.whole[a] ==>
        f in v.frames && v.frames[f] == Whole(a))
    && (forall a :: a in v.whole ==> a % PAGE == 0 && v.whole[a] > 0)
    && (forall f :: f in v.frames && v.frames[f].Whole? ==> InItsRun(v, f, v.frames[f].start))
  }

  // ----------------------------------------------------------- the descriptors

  ghost function Count(b: seq<bool>): nat
  {
    if b == [] then 0 else Count(b[..|b| - 1]) + if b[|b| - 1] then 1 else 0
  }

  ghost function RootBits(inuse: seq<bool>, r: nat): seq<bool>
    requires r < NROOTS && |inuse| == TOTAL
  {
    inuse[r * NPAGEREFS..(r + 1) * NPAGEREFS]
  }

  /** A descriptor in use: of a page, or reserved and perhaps never given one. */
  predicate Used(v: View, id: int) { id in v.all || id in v.pending }

  /** allocpageref moves on to the next root only when one is full, and a root without a page never
      gives a descriptor back: below a descriptor in use, such a root is full. */
  ghost predicate FullBelow(numinuse: seq<nat>, rootPage: seq<nat>, v: View)
    requires |numinuse| == |rootPage| == NROOTS
  {
    forall r, id {:trigger rootPage[r], Used(v, id)} ::
      0 <= r < NROOTS && Used(v, id) && r < id / NPAGEREFS && rootPage[r] == 0 ==> numinuse[r] == NPAGEREFS
  }

  ghost predicate BitsOk(inuse: seq<bool>, numinuse: seq<nat>, rootPage: seq<nat>, v: View)
  {
    && |inuse| == TOTAL && |numinuse| == |rootPage| == NROOTS
    && (forall id :: 0 <= id < TOTAL ==> (inuse[id] <==> id in v.all || id in v.pending))
    && (forall id :: id in v.all || id in v.pending ==> 0 <= id < TOTAL)
    && (forall id :: id in v.pending ==> id !in v.all)
    && (forall r :: 0 <= r < NROOTS ==> numinuse[r] == Count(RootBits(inuse, r)))
    && (forall id :: id in v.all ==> rootPage[id / NPAGEREFS] != 0)
    && FullBelow(numinuse, rootPage, v)
    && (forall r :: 0 <= r < NROOTS && rootPage[r] != 0 ==>
          rootPage[r] % PAGE == 0 && rootPage[r] / PAGE in v.frames && v.frames[rootPage[r] / PAGE] == RefPage(r))
  }

  /** No page is kept without a live block. */
  ghost predicate NoIdlePage(refs: seq<PageRef>, v: View)
  {
    forall id :: id in v.all ==>
      0 <= id < |refs| && BlkType(refs[id]) < NSIZES && refs[id].nfree < Blocks(BlkType(refs[id]))
  }

  // ------------------------------------------------------------ the whole heap

  datatype Store = Store(
    mem: seq<int>,               // kernel memory, one element per 32-bit word
    refs: seq<PageRef>,
    inuse: seq<bool>,
    numinuse: seq<nat>,
    rootPage: seq<nat>,
    sizebases: seq<int>,
    allbase: int)

  /** Holds whenever the lock is held or free. */
  ghost predicate Inv(s: Store, v: View)
  {
    && |s.refs| == TOTAL
    && ListsOk(s.refs, s.sizebases, s.allbase, v)
    && PagesOk(s.mem, s.refs, v)
    && BlocksOk(s.refs, v)
    && WholeOk(v)
    && BitsOk(s.inuse, s.numinuse, s.rootPage, v)
  }

  /** Holds whenever the lock is free. */
  ghost predicate Quiet(s: Store, v: View)
  {
    Inv(s, v) && NoIdlePage(s.refs, v)
  }
}
