/** The updates that the kmalloc.c functions make under the lock, as functions on the heap and on what
    it stands for, and that each keeps the invariant. */
module KmallocSteps {
  import opened Collections
  import opened KmallocState
  import opened KmallocFacts

  ghost predicate SameLinks(r: seq<PageRef>, r': seq<PageRef>)
  {
    && |r| == |r'|
    && forall i :: 0 <= i < |r| ==>
      r'[i].nextSame == r[i].nextSame && r'[i].nextAll == r[i].nextAll && r'[i].pab == r[i].pab
  }

  lemma LinkedKept(r: seq<PageRef>, r': seq<PageRef>, onAll: bool, head: int, l: seq<int>)
    requires Linked(r, onAll, head, l) && |r| == |r'|
    requires forall k :: 0 <= k < |l| ==> Next(r'[l[k]], onAll) == Next(r[l[k]], onAll)
    ensures Linked(r', onAll, head, l)
  {
  }

  lemma ListsKept(r: seq<PageRef>, r': seq<PageRef>, sizebases: seq<int>, allbase: int, v: View, v': View)
    requires ListsOk(r, sizebases, allbase, v) && SameLinks(r, r')
    requires v'.all == v.all && v'.same == v.same
    ensures ListsOk(r', sizebases, allbase, v')
  {
    LinkedKept(r, r', true, allbase, v.all);
    forall t | 0 <= t < NSIZES ensures Linked(r', false, sizebases[t], v.same[t]) {
      LinkedKept(r, r', false, sizebases[t], v.same[t]);
    }
  }

  // ------------------------------------------------------- taking a block (doalloc)

  function Rest(pr: PageRef, fl: seq<nat>): PageRef
    requires fl != [] && pr.nfree > 0
  {
    pr.(nfree := pr.nfree - 1, flOff := if |fl| > 1 then fl[1] else INVALID_OFFSET)
  }

  ghost function Took(s: Store, v: View, id: int): Store
    requires 0 <= id < |s.refs| && id in v.free && v.free[id] != [] && s.refs[id].nfree > 0
  {
    s.(refs := s.refs[id := Rest(s.refs[id], v.free[id])])
  }

  function TookView(s: Store, v: View, id: int, size: nat): View
    requires 0 <= id < |s.refs| && id in v.free && v.free[id] != []
  {
    v.(free := v.free[id := v.free[id][1..]],
       live := v.live[PageAddr(s.refs[id]) + v.free[id][0] := Block(id, size)])
  }

  lemma FreeTail(mem: seq<int>, pr: PageRef, fl: seq<nat>)
    requires PageOk(|mem|, pr) && FreeOk(mem, pr, fl) && fl != []
    ensures pr.nfree > 0 && PageOk(|mem|, Rest(pr, fl)) && FreeOk(mem, Rest(pr, fl), fl[1..])
    ensures fl[0] !in fl[1..] && Aligned(fl[0], BlkType(pr))
  {
    var fl' := fl[1..];
    assert forall k :: 0 <= k < |fl'| ==> fl'[k] == fl[k + 1];
  }

  lemma FreeIsNotLive(s: Store, v: View, id: int, off: nat)
    requires Inv(s, v) && id in v.all && id in v.free && off in v.free[id]
    ensures 0 <= id < |s.refs| && PageAddr(s.refs[id]) + off !in v.live
  {
    hide Inv, PageAddr, BlkType, BlockSize;
    FrameOf(s, v, id);
    var a := PageAddr(s.refs[id]) + off;
    if a in v.live {
      BlocksApart(s, v, a, id, off);
    }
  }

  /** Nothing new in use, and no root without a page that had one or counted otherwise. */
  lemma FullBelowKept(n: seq<nat>, n': seq<nat>, roots: seq<nat>, roots': seq<nat>, v: View, v': View)
    requires |n| == |n'| == |roots| == |roots'| == NROOTS && FullBelow(n, roots, v)
    requires forall id :: Used(v', id) ==> Used(v, id)
    requires forall r :: 0 <= r < NROOTS && roots'[r] == 0 ==> roots[r] == 0 && n'[r] == n[r]
    ensures FullBelow(n', roots', v')
  {
    forall r, id | 0 <= r < NROOTS && Used(v', id) && r < id / NPAGEREFS && roots'[r] == 0
      ensures n'[r] == NPAGEREFS
    {
      assert Used(v, id) && roots[r] == 0;
    }
  }

  /** The parts of the invariant that do not look at free lists and live blocks. */
  lemma OthersKept(s: Store, s': Store, v: View, v': View)
    requires WholeOk(v) && BitsOk(s.inuse, s.numinuse, s.rootPage, v)
    requires s'.inuse == s.inuse && s'.numinuse == s.numinuse && s'.rootPage == s.rootPage
    requires v'.all == v.all && v'.pending == v.pending && v'.whole == v.whole && v'.frames == v.frames
    ensures WholeOk(v') && BitsOk(s'.inuse, s'.numinuse, s'.rootPage, v')
  {
    FullBelowKept(s.numinuse, s'.numinuse, s.rootPage, s'.rootPage, v, v');
  }

  lemma SamePlace(p: PageRef, q: PageRef)
    requires p.pab == q.pab
    ensures PageAddr(p) == PageAddr(q) && BlkType(p) == BlkType(q)
  {
  }

  lemma TakePages(s: Store, v: View, id: int, size: nat)
    requires PagesOk(s.mem, s.refs, v) && id in v.all && id in v.free && v.free[id] != []
    requires 0 <= id < |s.refs|
    ensures s.refs[id].nfree > 0 && PagesOk(s.mem, Took(s, v, id).refs, TookView(s, v, id, size))
  {
    hide PageAddr, BlkType, FreeOk;
    assert FreeOk(s.mem, s.refs[id], v.free[id]);
    FreeTail(s.mem, s.refs[id], v.free[id]);
    SamePlace(s.refs[id], Rest(s.refs[id], v.free[id]));
  }

  /** What taking the first free block of page `id` rests on. */
  ghost predicate CanTake(s: Store, v: View, id: int, size: nat)
  {
    && Typed(s.refs, v) && BlocksOk(s.refs, v) && id in v.all && v.free[id] != []
    && size <= BlockSize(BlkType(s.refs[id])) && s.refs[id].nfree > 0
    && PageAddr(s.refs[id]) + v.free[id][0] !in v.live
    && Aligned(v.free[id][0], BlkType(s.refs[id])) && v.free[id][0] !in v.free[id][1..]
  }

  lemma SamePlaces(r: seq<PageRef>, r': seq<PageRef>)
    requires |r| == |r'| && forall i :: 0 <= i < |r| ==> r[i].pab == r'[i].pab
    ensures forall i :: 0 <= i < |r| ==> PageAddr(r'[i]) == PageAddr(r[i]) && BlkType(r'[i]) == BlkType(r[i])
  {
  }

  lemma TookFacts(s: Store, v: View, id: int, size: nat)
    requires CanTake(s, v, id, size)
    ensures
      var refs', v' := Took(s, v, id).refs, TookView(s, v, id, size);
      && v'.all == v.all && v'.free == v.free[id := v.free[id][1..]]
      && v'.live == v.live[PageAddr(s.refs[id]) + v.free[id][0] := Block(id, size)]
      && |refs'| == |s.refs| && Typed(refs', v')
      && forall i :: 0 <= i < |refs'| ==>
        PageAddr(refs'[i]) == PageAddr(s.refs[i]) && BlkType(refs'[i]) == BlkType(s.refs[i])
  {
    hide PageAddr, BlkType, BlockSize, Aligned, BlocksOk;
    SamePlaces(s.refs, Took(s, v, id).refs);
  }

  lemma NotInTail(l: seq<nat>, x: int)
    requires l != []
    ensures x !in l ==> x !in l[1..]
  {
  }

  lemma LiveBefore(s: Store, v: View, id: int, size: nat, b: nat)
    requires CanTake(s, v, id, size) && b in v.live
    ensures LiveAt(s.refs, v, b, v.live[b])
  {
    hide PageAddr, BlkType, BlockSize, Aligned, LiveAt;
  }

  lemma TakeLive(s: Store, v: View, id: int, size: nat, b: nat)
    requires CanTake(s, v, id, size) && b in TookView(s, v, id, size).live
    ensures
      var refs', v' := Took(s, v, id).refs, TookView(s, v, id, size);
      Typed(refs', v') && LiveAt(refs', v', b, v'.live[b])
  {
    hide PageAddr, BlkType, BlockSize, Aligned, Took, TookView;
    TookFacts(s, v, id, size);
    var fl := v.free[id];
    if b != PageAddr(s.refs[id]) + fl[0] {
      LiveBefore(s, v, id, size, b);
      NotInTail(fl, b - PageAddr(s.refs[v.live[b].id]));
    }
  }

  lemma InTail(l: seq<nat>, x: nat)
    requires x in l && x != l[0]
    ensures x in l[1..]
  {
    assert l == [l[0]] + l[1..];
  }

  lemma TakeFreeOrLive(s: Store, v: View, id: int, size: nat, i: int, o: nat)
    requires CanTake(s, v, id, size) && i in v.all && FreeOrLive(s.refs, v, i, o)
    ensures
      var refs', v' := Took(s, v, id).refs, TookView(s, v, id, size);
      Typed(refs', v') && i in v'.all && FreeOrLive(refs', v', i, o)
  {
    hide PageAddr, BlkType, BlockSize, Aligned, BlocksOk, Took, TookView;
    TookFacts(s, v, id, size);
    var fl := v.free[id];
    if i == id && o != fl[0] && o in fl {
      InTail(fl, o);
    }
  }

  lemma TakeBlocks(s: Store, v: View, id: int, size: nat)
    requires CanTake(s, v, id, size)
    ensures
      var refs', v' := Took(s, v, id).refs, TookView(s, v, id, size);
      Typed(refs', v') && BlocksOk(refs', v')
  {
    hide PageAddr, BlkType, BlockSize, Aligned, LiveAt, FreeOrLive, TookView, Took;
    TookFacts(s, v, id, size);
    var refs', v' := Took(s, v, id).refs, TookView(s, v, id, size);
    forall b | b in v'.live ensures LiveAt(refs', v', b, v'.live[b]) {
      TakeLive(s, v, id, size, b);
    }
    forall i, o: nat | i in v'.all && Aligned(o, BlkType(refs'[i])) ensures FreeOrLive(refs', v', i, o) {
      assert FreeOrLive(s.refs, v, i, o);
      TakeFreeOrLive(s, v, id, size, i, o);
    }
  }

  lemma PagesTyped(mem: seq<int>, refs: seq<PageRef>, v: View)
    requires PagesOk(mem, refs, v)
    ensures Typed(refs, v)
  {
    hide FreeOk;
  }

  lemma FreeOf(mem: seq<int>, refs: seq<PageRef>, v: View, id: int)
    requires PagesOk(mem, refs, v) && id in v.all
    ensures 0 <= id < |refs| && id in v.free && PageOk(|mem|, refs[id]) && FreeOk(mem, refs[id], v.free[id])
  {
    hide FreeOk, PageAddr, BlkType;
  }

  lemma TakeKeeps(s: Store, v: View, id: int, size: nat)
    requires Inv(s, v) && id in v.all && id in v.free && v.free[id] != []
    requires 0 <= id < |s.refs| && BlkType(s.refs[id]) < NSIZES && size <= BlockSize(BlkType(s.refs[id]))
    ensures s.refs[id].nfree > 0 && PageAddr(s.refs[id]) + v.free[id][0] !in v.live
    ensures Inv(Took(s, v, id), TookView(s, v, id, size))
  {
    hide ListsOk, PagesOk, BlocksOk, WholeOk, BitsOk, PageAddr, BlkType, BlockSize, PageOk, FreeOk, Aligned, Typed;
    FreeIsNotLive(s, v, id, v.free[id][0]);
    TakePages(s, v, id, size);
    PagesTyped(s.mem, s.refs, v);
    FreeOf(s.mem, s.refs, v, id);
    FreeTail(s.mem, s.refs[id], v.free[id]);
    TakeBlocks(s, v, id, size);
    var s', v' := Took(s, v, id), TookView(s, v, id, size);
    ListsKept(s.refs, s'.refs, s.sizebases, s.allbase, v, v');
    OthersKept(s, s', v, v');
  }

  // -------------------------------------------------- giving a block back (subpage_kfree)

  /** Memory after the block at `a` has been overwritten and linked in front of `next`. */
  ghost predicate Relinked(s: Store, v: View, a: nat, mem': seq<int>, next: int)
  {
    && |mem'| == |s.mem|
    && (forall w: nat :: w < |mem'| && !InBlock(s, v, a, w) ==> mem'[w] == s.mem[w])
    && a / 4 < |mem'| && mem'[a / 4] == next
  }

  ghost function FirstFree(pr: PageRef, fl: seq<nat>): int { if fl == [] then 0 else PageAddr(pr) + fl[0] }

  ghost function Gave(s: Store, id: int, mem': seq<int>, off: nat): Store
    requires 0 <= id < |s.refs|
  {
    s.(mem := mem', refs := s.refs[id := s.refs[id].(flOff := off, nfree := s.refs[id].nfree + 1)])
  }

  function GaveView(v: View, id: int, a: nat, off: nat): View
    requires id in v.free
  {
    v.(free := v.free[id := [off] + v.free[id]], live := v.live - {a})
  }

  lemma DistinctCons(l: seq<nat>, x: nat)
    requires Distinct(l) && x !in l
    ensures Distinct([x] + l)
  {
  }

  /** What a free list says about its k-th block's first word. */
  lemma FreeWordIs(mem: seq<int>, pr: PageRef, fl: seq<nat>, k: nat)
    requires PageOk(|mem|, pr) && FreeOk(mem, pr, fl) && k < |fl|
    ensures FreeWord(mem, pr, fl[k])
    ensures mem[(PageAddr(pr) + fl[k]) / 4] == if k + 1 < |fl| then PageAddr(pr) + fl[k + 1] else 0
  {
    hide BlockSize, Aligned, PageAddr, BlkType, Blocks, Distinct;
    FreeWordInMemory(mem, pr, fl, k);
  }

  lemma FreeConsFirst(mem': seq<int>, pr: PageRef, fl: seq<nat>, off: nat)
    requires (PageAddr(pr) + off) / 4 < |mem'| && mem'[(PageAddr(pr) + off) / 4] == FirstFree(pr, fl)
    ensures
      var fl' := [off] + fl;
      && (PageAddr(pr) + fl'[0]) / 4 < |mem'|
      && mem'[(PageAddr(pr) + fl'[0]) / 4] == if 1 < |fl'| then PageAddr(pr) + fl'[1] else 0
  {
    hide PageAddr;
    var fl' := [off] + fl;
    assert fl'[0] == off;
    if fl == [] {
      assert FirstFree(pr, fl) == 0;
    } else {
      assert fl'[1] == fl[0];
      assert FirstFree(pr, fl) == PageAddr(pr) + fl[0];
    }
  }

  lemma FreeConsWord(mem': seq<int>, pr: PageRef, fl: seq<nat>, off: nat, k: nat)
    requires PageOk(|mem'|, pr) && FreeOk(mem', pr, fl) && k <= |fl|
    requires (PageAddr(pr) + off) / 4 < |mem'| && mem'[(PageAddr(pr) + off) / 4] == FirstFree(pr, fl)
    ensures
      var fl' := [off] + fl;
      && (PageAddr(pr) + fl'[k]) / 4 < |mem'|
      && mem'[(PageAddr(pr) + fl'[k]) / 4] == if k + 1 < |fl'| then PageAddr(pr) + fl'[k + 1] else 0
  {
    hide BlockSize, Aligned, PageAddr, BlkType, Blocks, FreeOk, FirstFree;
    if k == 0 {
      FreeConsFirst(mem', pr, fl, off);
    } else {
      FreeWordIs(mem', pr, fl, k - 1);
      var fl' := [off] + fl;
      assert fl'[k] == fl[k - 1];
      assert k < |fl| ==> fl'[k + 1] == fl[k];
    }
  }

  lemma FreeCons(mem': seq<int>, pr: PageRef, fl: seq<nat>, off: nat)
    requires PageOk(|mem'|, pr) && FreeOk(mem', pr, fl)
    requires Aligned(off, BlkType(pr)) && off !in fl
    requires (PageAddr(pr) + off) / 4 < |mem'| && mem'[(PageAddr(pr) + off) / 4] == FirstFree(pr, fl)
    ensures
      var pr' := pr.(flOff := off, nfree := pr.nfree + 1);
      PageOk(|mem'|, pr') && FreeOk(mem', pr', [off] + fl) && |fl| + 1 <= Blocks(BlkType(pr))
  {
    hide BlockSize, Aligned, PageAddr, BlkType, Blocks, Distinct, FreeWord;
    var pr', fl' := pr.(flOff := off, nfree := pr.nfree + 1), [off] + fl;
    SamePlace(pr, pr');
    DistinctCons(fl, off);
    forall k | 0 <= k < |fl'| ensures Aligned(fl'[k], BlkType(pr)) {
      assert k > 0 ==> fl'[k] == fl[k - 1];
    }
    FullFreeList(BlkType(pr), fl');
    forall k | 0 <= k < |fl'|
      ensures
        && (PageAddr(pr) + fl'[k]) / 4 < |mem'|
        && mem'[(PageAddr(pr) + fl'[k]) / 4] == if k + 1 < |fl'| then PageAddr(pr) + fl'[k + 1] else 0
    {
      FreeConsWord(mem', pr, fl, off, k);
    }
  }

  lemma GivePages(s: Store, v: View, a: nat, mem': seq<int>)
    requires Inv(s, v) && a in v.live
    requires 0 <= v.live[a].id < |s.refs| && v.live[a].id in v.free && PageAddr(s.refs[v.live[a].id]) <= a
    requires Relinked(s, v, a, mem', FirstFree(s.refs[v.live[a].id], v.free[v.live[a].id]))
    ensures var id := v.live[a].id; var off := a - PageAddr(s.refs[id]);
      PagesOk(mem', Gave(s, id, mem', off).refs, GaveView(v, id, a, off))
  {
    hide ListsOk, BlocksOk, WholeOk, BitsOk, PageAddr, BlkType, BlockSize, FreeOk, Aligned;
    var id := v.live[a].id;
    var pr := s.refs[id];
    BlockInPage(s, v, a);
    NotFreeAndLive(s, v, a);
    forall i | i in v.all ensures PageOk(|mem'|, s.refs[i]) && FreeOk(mem', s.refs[i], v.free[i]) {
      var fl := v.free[i];
      assert FreeOk(s.mem, s.refs[i], fl);
      forall k | 0 <= k < |fl|
        ensures FreeWord(s.mem, s.refs[i], fl[k])
          && mem'[(PageAddr(s.refs[i]) + fl[k]) / 4] == s.mem[(PageAddr(s.refs[i]) + fl[k]) / 4]
      {
        FreeWordInMemory(s.mem, s.refs[i], fl, k);
        var w := (PageAddr(s.refs[i]) + fl[k]) / 4;
        if InBlock(s, v, a, w) {
          FreeWordIsNotClients(s, v, w, i, fl[k]);
        }
      }
      FreeFrame(s.mem, mem', s.refs[i], fl);
    }
    FreeCons(mem', pr, v.free[id], a - PageAddr(pr));
    SamePlace(pr, pr.(flOff := a - PageAddr(pr), nfree := pr.nfree + 1));
  }

  lemma GiveLive(refs: seq<PageRef>, refs': seq<PageRef>, v: View, v': View, a: nat, off: nat, b: nat)
    requires Typed(refs, v) && a in v.live && v.live[a].id in v.all && off == a - PageAddr(refs[v.live[a].id])
    requires |refs| == |refs'| && v' == GaveView(v, v.live[a].id, a, off) && Typed(refs', v')
    requires forall i :: 0 <= i < |refs| ==>
      PageAddr(refs'[i]) == PageAddr(refs[i]) && BlkType(refs'[i]) == BlkType(refs[i])
    requires b in v.live && b != a && LiveAt(refs, v, b, v.live[b])
    ensures LiveAt(refs', v', b, v.live[b])
  {
    hide PageAddr, BlkType, BlockSize, Aligned;
  }

  lemma GiveCover(refs: seq<PageRef>, refs': seq<PageRef>, v: View, v': View, a: nat, off: nat, i: int, o: nat)
    requires Typed(refs, v) && a in v.live && v.live[a].id in v.all && off == a - PageAddr(refs[v.live[a].id])
    requires |refs| == |refs'| && v' == GaveView(v, v.live[a].id, a, off) && Typed(refs', v')
    requires forall i :: 0 <= i < |refs| ==>
      PageAddr(refs'[i]) == PageAddr(refs[i]) && BlkType(refs'[i]) == BlkType(refs[i])
    requires i in v.all && FreeOrLive(refs, v, i, o)
    ensures FreeOrLive(refs', v', i, o)
  {
    hide PageAddr, BlkType, BlockSize, Aligned;
  }

  lemma GiveBlocks(s: Store, v: View, a: nat, mem': seq<int>)
    requires Typed(s.refs, v) && BlocksOk(s.refs, v) && a in v.live
    requires v.live[a].id in v.all && PageAddr(s.refs[v.live[a].id]) <= a
    ensures var id := v.live[a].id; var off := a - PageAddr(s.refs[id]);
      var refs', v' := Gave(s, id, mem', off).refs, GaveView(v, id, a, off);
      Typed(refs', v') && BlocksOk(refs', v')
  {
    hide PageAddr, BlkType, BlockSize, Aligned, LiveAt, FreeOrLive;
    var id := v.live[a].id;
    var off := a - PageAddr(s.refs[id]);
    var refs', v' := Gave(s, id, mem', off).refs, GaveView(v, id, a, off);
    SamePlaces(s.refs, refs');
    forall b | b in v'.live ensures LiveAt(refs', v', b, v'.live[b]) {
      GiveLive(s.refs, refs', v, v', a, off, b);
    }
    forall i, o: nat | i in v'.all && Aligned(o, BlkType(refs'[i])) ensures FreeOrLive(refs', v', i, o) {
      GiveCover(s.refs, refs', v, v', a, off, i, o);
    }
  }

  lemma GiveKeeps(s: Store, v: View, a: nat, mem': seq<int>)
    requires Inv(s, v) && a in v.live
    requires 0 <= v.live[a].id < |s.refs| && v.live[a].id in v.free && PageAddr(s.refs[v.live[a].id]) <= a
    requires Relinked(s, v, a, mem', FirstFree(s.refs[v.live[a].id], v.free[v.live[a].id]))
    ensures var id := v.live[a].id; var off := a - PageAddr(s.refs[id]);
      Inv(Gave(s, id, mem', off), GaveView(v, id, a, off))
  {
    hide ListsOk, PagesOk, BlocksOk, WholeOk, BitsOk, PageAddr, BlkType, BlockSize, Relinked;
    GivePages(s, v, a, mem');
    PagesTyped(s.mem, s.refs, v);
    LiveOf(s, v, a);
    GiveBlocks(s, v, a, mem');
    var id := v.live[a].id;
    var off := a - PageAddr(s.refs[id]);
    var s', v' := Gave(s, id, mem', off), GaveView(v, id, a, off);
    ListsKept(s.refs, s'.refs, s.sizebases, s.allbase, v, v');
    OthersKept(s, s', v, v');
  }

  // ------------------------------------------------------------------ a fresh page

  function SlotAt(t: nat, i: nat): nat
    requires t < NSIZES
  {
    i * BlockSize(t)
  }

  /** The free list a fresh page is given: its blocks from the last to the first. */
  function FreshList(t: nat): (fl: seq<nat>)
    requires t < NSIZES
    ensures |fl| == Blocks(t)
  {
    seq(Blocks(t), k requires 0 <= k < Blocks(t) => SlotAt(t, Blocks(t) - 1 - k))
  }

  lemma FreshAt(t: nat, k: nat)
    requires t < NSIZES && k < Blocks(t)
    ensures FreshList(t)[k] == (Blocks(t) - 1 - k) * BlockSize(t)
    ensures Aligned(FreshList(t)[k], t)
  {
    var i := Blocks(t) - 1 - k;
    assert FreshList(t)[k] == SlotAt(t, i);
    assert SlotAt(t, i) == i * BlockSize(t);
    hide FreshList, SlotAt, BlockSize, Blocks, Aligned;
    SlotStep(t, i);
  }

  lemma Descends(a: int, b: int, c: int)
    requires b < a && 0 < c
    ensures b * c < a * c
  {
  }

  lemma FreshCovers(t: nat)
    requires t < NSIZES
    ensures Distinct(FreshList(t)) && forall k :: 0 <= k < Blocks(t) ==> Aligned(FreshList(t)[k], t)
    ensures forall o: nat :: Aligned(o, t) ==> o in FreshList(t)
  {
    hide Aligned, Blocks, BlockSize, FreshList;
    forall k | 0 <= k < Blocks(t) ensures Aligned(FreshList(t)[k], t) {
      FreshAt(t, k);
    }
    forall i, j | 0 <= i < j < Blocks(t) ensures FreshList(t)[i] != FreshList(t)[j] {
      FreshAt(t, i);
      FreshAt(t, j);
      Descends(Blocks(t) - 1 - i, Blocks(t) - 1 - j, BlockSize(t));
    }
    FullFreeList(t, FreshList(t));
  }

  ghost function NewRef(s: Store, page: nat, t: nat): PageRef
    requires t < NSIZES && t < |s.sizebases|
  {
    PageRef(s.sizebases[t], s.allbase, page + t, (Blocks(t) - 1) * BlockSize(t), Blocks(t))
  }

  ghost function Added(s: Store, id: int, page: nat, t: nat, mem': seq<int>): Store
    requires t < NSIZES && t < |s.sizebases| && 0 <= id < |s.refs|
  {
    s.(mem := mem', refs := s.refs[id := NewRef(s, page, t)], sizebases := s.sizebases[t := id], allbase := id)
  }

  function AddedView(v: View, id: int, page: nat, t: nat): View
    requires t < NSIZES && t < |v.same|
  {
    v.(all := [id] + v.all, same := v.same[t := [id] + v.same[t]], free := v.free[id := FreshList(t)],
       pending := v.pending - {id}, frames := v.frames[page / PAGE := HeapPage(id)])
  }

  /** What the new-page section of subpage_kmalloc may rely on: its own reserved descriptor and the
      page it was given, neither of which any other section touches. */
  ghost predicate MayAdd(s: Store, v: View, id: int, page: nat)
  {
    && id in v.pending && 0 <= id < TOTAL && |s.rootPage| == NROOTS && s.rootPage[id / NPAGEREFS] != 0
    && page % PAGE == 0 && 0 < page && page + PAGE <= 4 * |s.mem|
    && page / PAGE in v.frames && v.frames[page / PAGE] == InTransit
  }

  lemma LinkedStep(r: seq<PageRef>, onAll: bool, head: int, l: seq<int>, k: nat)
    requires Linked(r, onAll, head, l) && k < |l|
    ensures 0 <= l[k] < |r| && Next(r[l[k]], onAll) == if k + 1 < |l| then l[k + 1] else -1
  {
  }

  lemma LinkedHead(r: seq<PageRef>, onAll: bool, head: int, l: seq<int>)
    requires Linked(r, onAll, head, l)
    ensures head == if l == [] then -1 else l[0]
  {
    hide Distinct, Next;
  }

  lemma PushNext(r: seq<PageRef>, onAll: bool, head: int, l: seq<int>, id: int, pr: PageRef, k: nat)
    requires Linked(r, onAll, head, l) && 0 <= id < |r| && id !in l && Next(pr, onAll) == head && k <= |l|
    ensures
      var l', r' := [id] + l, r[id := pr];
      0 <= l'[k] < |r'| && Next(r'[l'[k]], onAll) == if k + 1 < |l'| then l'[k + 1] else -1
  {
    hide Linked, Next;
    var l', r' := [id] + l, r[id := pr];
    if k > 0 {
      var j := k - 1;
      LinkedStep(r, onAll, head, l, j);
      assert l'[k] == l[j] && l[j] in l;
      assert r'[l'[k]] == r[l[j]];
      assert k < |l| ==> l'[k + 1] == l[k];
    } else {
      LinkedHead(r, onAll, head, l);
      assert l'[0] == id && r'[id] == pr;
      assert l != [] ==> l'[1] == l[0];
    }
  }

  lemma LinkedPush(r: seq<PageRef>, onAll: bool, head: int, l: seq<int>, id: int, pr: PageRef)
    requires Linked(r, onAll, head, l) && 0 <= id < |r| && id !in l && Next(pr, onAll) == head
    ensures Linked(r[id := pr], onAll, id, [id] + l)
  {
    var l', r' := [id] + l, r[id := pr];
    forall k | 0 <= k < |l'| ensures 0 <= l'[k] < |r'| {
      assert k > 0 ==> l'[k] == l[k - 1];
    }
    forall k | 0 <= k < |l'| ensures Next(r'[l'[k]], onAll) == if k + 1 < |l'| then l'[k + 1] else -1 {
      PushNext(r, onAll, head, l, id, pr, k);
    }
    assert Linked(r', onAll, id, l');
  }

  lemma LinkedOther(r: seq<PageRef>, onAll: bool, head: int, l: seq<int>, id: int, pr: PageRef)
    requires Linked(r, onAll, head, l) && 0 <= id < |r| && id !in l
    ensures Linked(r[id := pr], onAll, head, l)
  {
    LinkedKept(r, r[id := pr], onAll, head, l);
  }

  lemma LinkedRange(r: seq<PageRef>, onAll: bool, head: int, l: seq<int>)
    requires Linked(r, onAll, head, l)
    ensures forall i :: i in l ==> 0 <= i < |r|
    ensures forall i :: 0 <= i < |l| ==> 0 <= l[i] < |r|
  {
  }

  lemma AddLists(s: Store, v: View, id: int, page: nat, t: nat, mem': seq<int>)
    requires ListsOk(s.refs, s.sizebases, s.allbase, v) && 0 <= id < |s.refs| && id !in v.all
    requires t < NSIZES && page % PAGE == 0
    ensures var s', v' := Added(s, id, page, t, mem'), AddedView(v, id, page, t);
      ListsOk(s'.refs, s'.sizebases, s'.allbase, v')
  {
    hide Linked, BlockSize, Blocks, FreshList;
    var s', v', pr := Added(s, id, page, t, mem'), AddedView(v, id, page, t), NewRef(s, page, t);
    assert BlkType(pr) == t;
    LinkedPush(s.refs, true, s.allbase, v.all, id, pr);
    forall u | 0 <= u < NSIZES ensures Linked(s'.refs, false, s'.sizebases[u], v'.same[u]) {
      assert id !in v.same[u];
      if u == t {
        LinkedPush(s.refs, false, s.sizebases[t], v.same[t], id, pr);
      } else {
        LinkedOther(s.refs, false, s.sizebases[u], v.same[u], id, pr);
      }
    }
    forall u, i | 0 <= u < NSIZES && i in v'.same[u]
      ensures i in v'.all && 0 <= i < |s'.refs| && BlkType(s'.refs[i]) == u
    {
      LinkedRange(s.refs, false, s.sizebases[u], v.same[u]);
      if i != id {
        assert i in v.same[u];
      }
    }
    forall i | i in v'.all
      ensures 0 <= i < |s'.refs| && BlkType(s'.refs[i]) < NSIZES && i in v'.same[BlkType(s'.refs[i])]
    {
      LinkedRange(s.refs, true, s.allbase, v.all);
      if i != id {
        assert i in v.all;
      }
    }
  }

  /** Memory changed only inside one page. */
  ghost predicate ChangedInPage(mem: seq<int>, mem': seq<int>, page: nat)
  {
    |mem'| == |mem| && forall w: nat :: w < |mem| && w / 1024 != page / PAGE ==> mem'[w] == mem[w]
  }

  lemma FreeInPage(mem: seq<int>, pr: PageRef, fl: seq<nat>, k: nat)
    requires PageOk(|mem|, pr) && FreeOk(mem, pr, fl) && k < |fl|
    ensures ((PageAddr(pr) + fl[k]) / 4) / 1024 == PageAddr(pr) / PAGE
  {
    hide BlockSize;
    assert Aligned(fl[k], BlkType(pr));
  }

  lemma OtherPageKept(mem: seq<int>, mem': seq<int>, page: nat, pr: PageRef, fl: seq<nat>)
    requires PageOk(|mem|, pr) && FreeOk(mem, pr, fl) && ChangedInPage(mem, mem', page)
    requires PageAddr(pr) / PAGE != page / PAGE
    ensures PageOk(|mem'|, pr) && FreeOk(mem', pr, fl)
  {
    hide FreeOk, PageAddr, BlkType;
    PageAligned(pr);
    forall k | 0 <= k < |fl|
      ensures FreeWord(mem, pr, fl[k]) && mem'[(PageAddr(pr) + fl[k]) / 4] == mem[(PageAddr(pr) + fl[k]) / 4]
    {
      FreeWordInMemory(mem, pr, fl, k);
      FreeInPage(mem, pr, fl, k);
    }
    FreeFrame(mem, mem', pr, fl);
  }

  lemma AddPages(s: Store, v: View, id: int, page: nat, t: nat, mem': seq<int>)
    requires PagesOk(s.mem, s.refs, v) && MayAdd(s, v, id, page) && |s.refs| == TOTAL && id !in v.all
    requires t < NSIZES && t < |s.sizebases| && t < |v.same| && ChangedInPage(s.mem, mem', page)
    requires PageOk(|mem'|, NewRef(s, page, t)) && FreeOk(mem', NewRef(s, page, t), FreshList(t))
    ensures PagesOk(mem', Added(s, id, page, t, mem').refs, AddedView(v, id, page, t))
  {
    hide FreeOk, BlockSize, Blocks, FreshList, ChangedInPage;
    var refs', v' := Added(s, id, page, t, mem').refs, AddedView(v, id, page, t);
    assert PageAddr(NewRef(s, page, t)) == page;
    forall i | i in v'.all
      ensures 0 <= i < |refs'| && i in v'.free && PageOk(|mem'|, refs'[i]) && FreeOk(mem', refs'[i], v'.free[i])
      ensures PageAddr(refs'[i]) / PAGE in v'.frames && v'.frames[PageAddr(refs'[i]) / PAGE] == HeapPage(i)
    {
      if i != id {
        assert i in v.all;
        OtherPageKept(s.mem, mem', page, s.refs[i], v.free[i]);
      }
    }
  }

  lemma NewRefType(s: Store, page: nat, t: nat)
    requires t < NSIZES && t < |s.sizebases| && page % PAGE == 0
    ensures BlkType(NewRef(s, page, t)) == t && PageAddr(NewRef(s, page, t)) == page
  {
  }

  lemma LiveIdIn(refs: seq<PageRef>, v: View, b: nat)
    requires Typed(refs, v) && BlocksOk(refs, v) && b in v.live
    ensures v.live[b].id in v.all
  {
    assert LiveAt(refs, v, b, v.live[b]);
  }

  /** A page whose descriptor and free list are the same in both states keeps its blocks. */
  lemma LiveElsewhere(refs: seq<PageRef>, refs': seq<PageRef>, v: View, v': View, b: nat)
    requires Typed(refs, v) && Typed(refs', v') && b in v.live && LiveAt(refs, v, b, v.live[b])
    requires v.live[b].id in v'.all && refs'[v.live[b].id] == refs[v.live[b].id]
    requires v'.free[v.live[b].id] == v.free[v.live[b].id]
    ensures LiveAt(refs', v', b, v.live[b])
  {
  }

  lemma FreeOrLiveElsewhere(refs: seq<PageRef>, refs': seq<PageRef>, v: View, v': View, i: int, o: nat)
    requires Typed(refs, v) && Typed(refs', v') && i in v.all && FreeOrLive(refs, v, i, o)
    requires i in v'.all && refs'[i] == refs[i] && v'.free[i] == v.free[i] && v'.live == v.live
    ensures FreeOrLive(refs', v', i, o)
  {
  }

  lemma FreeIsFreeOrLive(refs: seq<PageRef>, v: View, id: int, o: nat)
    requires Typed(refs, v) && id in v.all && o in v.free[id]
    ensures FreeOrLive(refs, v, id, o)
  {
  }

  lemma AddBlocks(s: Store, v: View, id: int, page: nat, t: nat, mem': seq<int>)
    requires Typed(s.refs, v) && BlocksOk(s.refs, v) && 0 <= id < |s.refs| && id !in v.all
    requires t < NSIZES && t < |s.sizebases| && t < |v.same| && page % PAGE == 0
    ensures var refs', v' := Added(s, id, page, t, mem').refs, AddedView(v, id, page, t);
      Typed(refs', v') && BlocksOk(refs', v')
  {
    hide BlockSize, Blocks, FreshList, Aligned, PageAddr, BlkType, LiveAt, FreeOrLive;
    var refs', v' := Added(s, id, page, t, mem').refs, AddedView(v, id, page, t);
    NewRefType(s, page, t);
    FreshCovers(t);
    assert forall i :: i in v'.all <==> i == id || i in v.all;
    forall b | b in v'.live ensures LiveAt(refs', v', b, v'.live[b]) {
      LiveIdIn(s.refs, v, b);
      LiveElsewhere(s.refs, refs', v, v', b);
    }
    forall i, o: nat | i in v'.all && Aligned(o, BlkType(refs'[i])) ensures FreeOrLive(refs', v', i, o) {
      if i != id {
        FreeOrLiveElsewhere(s.refs, refs', v, v', i, o);
      } else {
        FreeIsFreeOrLive(refs', v', id, o);
      }
    }
  }

  lemma AddOthers(s: Store, v: View, id: int, page: nat, t: nat)
    requires WholeOk(v) && BitsOk(s.inuse, s.numinuse, s.rootPage, v) && MayAdd(s, v, id, page)
    requires t < NSIZES && t < |v.same|
    ensures WholeOk(AddedView(v, id, page, t)) && BitsOk(s.inuse, s.numinuse, s.rootPage, AddedView(v, id, page, t))
    ensures id !in v.all
  {
    hide FreshList, Count, RootBits;
    var v' := AddedView(v, id, page, t);
    assert forall i :: i in v'.all <==> i == id || i in v.all;
    FullBelowKept(s.numinuse, s.numinuse, s.rootPage, s.rootPage, v, v');
  }

  lemma AddKeeps(s: Store, v: View, id: int, page: nat, t: nat, mem': seq<int>)
    requires Inv(s, v) && MayAdd(s, v, id, page) && t < NSIZES && ChangedInPage(s.mem, mem', page)
    requires t < |s.sizebases| && t < |v.same|
    requires PageOk(|mem'|, NewRef(s, page, t)) && FreeOk(mem', NewRef(s, page, t), FreshList(t))
    ensures Inv(Added(s, id, page, t, mem'), AddedView(v, id, page, t))
  {
    hide ListsOk, PagesOk, BlocksOk, WholeOk, BitsOk, FreeOk, PageOk, ChangedInPage, FreshList, Typed;
    AddOthers(s, v, id, page, t);
    AddLists(s, v, id, page, t, mem');
    AddPages(s, v, id, page, t, mem');
    PagesTyped(s.mem, s.refs, v);
    AddBlocks(s, v, id, page, t, mem');
  }

  // ---------------------------------------------------------- giving a page up

  function Without(l: seq<int>, id: int): seq<int>
  {
    if l == [] then [] else if l[0] == id then l[1..] else [l[0]] + Without(l[1..], id)
  }

  lemma {:induction false} WithoutMembers(l: seq<int>, id: int)
    requires Distinct(l)
    ensures forall x :: x in Without(l, id) <==> x in l && x != id
  {
    if l != [] {
      assert forall x :: x in l <==> x == l[0] || x in l[1..];
      if l[0] == id {
        assert id !in l[1..];
      } else {
        WithoutMembers(l[1..], id);
      }
    }
  }

  /** Only the links of one of the two lists differ. */
  ghost predicate Relinks(r: seq<PageRef>, r': seq<PageRef>, onAll: bool)
  {
    && |r| == |r'|
    && forall i :: 0 <= i < |r| ==>
         && Next(r'[i], !onAll) == Next(r[i], !onAll)
         && r'[i].pab == r[i].pab && r'[i].flOff == r[i].flOff && r'[i].nfree == r[i].nfree
  }

  function Dropped(v: View, id: int, t: nat, page: nat): View
    requires t < |v.same|
  {
    v.(all := Without(v.all, id), same := v.same[t := Without(v.same[t], id)], free := v.free - {id},
       frames := v.frames[page / PAGE := InTransit])
  }

  lemma LinkedDistinct(r: seq<PageRef>, onAll: bool, head: int, l: seq<int>)
    requires Linked(r, onAll, head, l)
    ensures Distinct(l)
  {
  }

  lemma DropLists(r: seq<PageRef>, r': seq<PageRef>, sizebases: seq<int>, sizebases': seq<int>, allbase: int,
      allbase': int, v: View, id: int, t: nat, page: nat)
    requires ListsOk(r, sizebases, allbase, v) && id in v.all && t < NSIZES && BlkType(r[id]) == t
    requires |r'| == |r| && |sizebases'| == NSIZES && forall i :: 0 <= i < |r| ==> r'[i].pab == r[i].pab
    requires Linked(r', true, allbase', Without(v.all, id))
    requires forall u :: 0 <= u < NSIZES ==>
      Linked(r', false, sizebases'[u], if u == t then Without(v.same[t], id) else v.same[u])
    ensures ListsOk(r', sizebases', allbase', Dropped(v, id, t, page))
  {
    hide Linked, PageAddr, BlkType, Without;
    SamePlaces(r, r');
    var v' := Dropped(v, id, t, page);
    LinkedDistinct(r, true, allbase, v.all);
    WithoutMembers(v.all, id);
    assert forall u :: 0 <= u < NSIZES ==> Linked(r, false, sizebases[u], v.same[u]);
    LinkedDistinct(r, false, sizebases[t], v.same[t]);
    WithoutMembers(v.same[t], id);
    LinkedRange(r, true, allbase, v.all);
    forall u | 0 <= u < NSIZES ensures Linked(r', false, sizebases'[u], v'.same[u]) { }
    forall u, i | 0 <= u < NSIZES && i in v'.same[u] ensures i in v'.all && BlkType(r'[i]) == u {
      assert i in v.same[u] && i in v.all;
    }
    forall i | i in v'.all ensures BlkType(r'[i]) < NSIZES && i in v'.same[BlkType(r'[i])] {
      assert i in v.all && i in v.same[BlkType(r[i])];
    }
  }

  lemma FreeSame(mem: seq<int>, p: PageRef, q: PageRef, fl: seq<nat>)
    requires PageOk(|mem|, p) && FreeOk(mem, p, fl) && q.pab == p.pab && q.flOff == p.flOff && q.nfree == p.nfree
    ensures PageOk(|mem|, q) && FreeOk(mem, q, fl)
  {
    hide PageAddr, BlkType, Aligned;
    SamePlace(p, q);
  }

  lemma DropPages(s: Store, r': seq<PageRef>, v: View, id: int, t: nat)
    requires PagesOk(s.mem, s.refs, v) && id in v.all && t < |v.same| && Distinct(v.all)
    requires |r'| == |s.refs|
    requires forall i :: 0 <= i < |r'| ==>
      r'[i].pab == s.refs[i].pab && r'[i].flOff == s.refs[i].flOff && r'[i].nfree == s.refs[i].nfree
    ensures PagesOk(s.mem, r', Dropped(v, id, t, PageAddr(s.refs[id])))
  {
    hide FreeOk, PageAddr, BlkType, Without;
    var v' := Dropped(v, id, t, PageAddr(s.refs[id]));
    WithoutMembers(v.all, id);
    SamePlaces(s.refs, r');
    forall i | i in v'.all
      ensures 0 <= i < |r'| && i in v'.free && PageOk(|s.mem|, r'[i]) && FreeOk(s.mem, r'[i], v'.free[i])
      ensures PageAddr(r'[i]) / PAGE in v'.frames && v'.frames[PageAddr(r'[i]) / PAGE] == HeapPage(i)
    {
      assert i in v.all && i != id;
      FreeSame(s.mem, s.refs[i], r'[i], v.free[i]);
    }
  }

  lemma LiveSame(refs: seq<PageRef>, refs': seq<PageRef>, v: View, v': View, b: nat)
    requires Typed(refs, v) && Typed(refs', v') && b in v.live && LiveAt(refs, v, b, v.live[b])
    requires v.live[b].id in v'.all && refs'[v.live[b].id].pab == refs[v.live[b].id].pab
    requires v'.free[v.live[b].id] == v.free[v.live[b].id]
    ensures LiveAt(refs', v', b, v.live[b])
  {
  }

  lemma FreeOrLiveSame(refs: seq<PageRef>, refs': seq<PageRef>, v: View, v': View, i: int, o: nat)
    requires Typed(refs, v) && Typed(refs', v') && i in v.all && FreeOrLive(refs, v, i, o)
    requires i in v'.all && refs'[i].pab == refs[i].pab && v'.free[i] == v.free[i] && v'.live == v.live
    ensures FreeOrLive(refs', v', i, o)
  {
  }

  lemma DropBlocks(s: Store, r': seq<PageRef>, v: View, id: int, t: nat, page: nat)
    requires Typed(s.refs, v) && BlocksOk(s.refs, v) && t < |v.same| && Distinct(v.all)
    requires |r'| == |s.refs| && forall i :: 0 <= i < |r'| ==> r'[i].pab == s.refs[i].pab
    requires forall a :: a in v.live ==> v.live[a].id != id
    ensures var v' := Dropped(v, id, t, page); Typed(r', v') && BlocksOk(r', v')
  {
    hide PageAddr, BlkType, BlockSize, Aligned, LiveAt, FreeOrLive, Without;
    var v' := Dropped(v, id, t, page);
    WithoutMembers(v.all, id);
    SamePlaces(s.refs, r');
    forall b | b in v'.live ensures LiveAt(r', v', b, v'.live[b]) {
      LiveIdIn(s.refs, v, b);
      LiveSame(s.refs, r', v, v', b);
    }
    forall i, o: nat | i in v'.all && Aligned(o, BlkType(r'[i])) ensures FreeOrLive(r', v', i, o) {
      FreeOrLiveSame(s.refs, r', v, v', i, o);
    }
  }

  // -------------------------------------------------------------- descriptor bits

  lemma {:induction false} CountUpdate(b: seq<bool>, i: nat, x: bool)
    requires i < |b|
    ensures Count(b[i := x]) == Count(b) + (if x then 1 else 0) - (if b[i] then 1 else 0)
  {
    var n := |b| - 1;
    if i == n {
      assert b[i := x][..n] == b[..n];
    } else {
      assert b[i := x][..n] == b[..n][i := x];
      CountUpdate(b[..n], i, x);
    }
  }

  lemma {:induction false} CountBound(b: seq<bool>)
    ensures Count(b) <= |b|
    ensures Count(b) == |b| <==> forall i :: 0 <= i < |b| ==> b[i]
    ensures Count(b) == 0 <==> forall i :: 0 <= i < |b| ==> !b[i]
  {
    if b != [] {
      CountBound(b[..|b| - 1]);
      assert forall i :: 0 <= i < |b| - 1 ==> b[..|b| - 1][i] == b[i];
    }
  }

  lemma RootBitsUpdate(inuse: seq<bool>, id: nat, x: bool, r: nat)
    requires |inuse| == TOTAL && id < TOTAL && r < NROOTS
    ensures RootBits(inuse[id := x], r) ==
      if r == id / NPAGEREFS then RootBits(inuse, r)[id % NPAGEREFS := x] else RootBits(inuse, r)
  {
  }

  ghost predicate Adjusted(n: seq<nat>, n': seq<nat>, id: nat, x: bool)
  {
    && |n| == |n'| == NROOTS
    && forall r :: 0 <= r < NROOTS ==>
         n'[r] + (if r == id / NPAGEREFS && !x then 1 else 0) == n[r] + (if r == id / NPAGEREFS && x then 1 else 0)
  }

  lemma RootBitsAt(inuse: seq<bool>, id: nat)
    requires |inuse| == TOTAL && id < TOTAL
    ensures |RootBits(inuse, id / NPAGEREFS)| == NPAGEREFS
    ensures RootBits(inuse, id / NPAGEREFS)[id % NPAGEREFS] == inuse[id]
  {
  }

  /** Setting or clearing one bit and adjusting its root's counter keeps every count exact. */
  lemma CountsKept(inuse: seq<bool>, numinuse: seq<nat>, id: nat, x: bool, numinuse': seq<nat>)
    requires |inuse| == TOTAL && id < TOTAL && |numinuse| == |numinuse'| == NROOTS
    requires forall r :: 0 <= r < NROOTS ==> numinuse[r] == Count(RootBits(inuse, r))
    requires inuse[id] == !x
    requires Adjusted(numinuse, numinuse', id, x)
    ensures forall r :: 0 <= r < NROOTS ==> numinuse'[r] == Count(RootBits(inuse[id := x], r))
  {
    hide Count, RootBits;
    forall r | 0 <= r < NROOTS ensures numinuse'[r] == Count(RootBits(inuse[id := x], r)) {
      RootBitsUpdate(inuse, id, x, r);
      if r == id / NPAGEREFS {
        RootBitsAt(inuse, id);
        CountUpdate(RootBits(inuse, r), id % NPAGEREFS, x);
      }
    }
  }

  lemma DropBits(s: Store, numinuse': seq<nat>, v: View, id: int, t: nat, page: nat)
    requires BitsOk(s.inuse, s.numinuse, s.rootPage, v) && id in v.all && t < |v.same| && Distinct(v.all)
    requires Adjusted(s.numinuse, numinuse', id, false)
    requires page / PAGE in v.frames && v.frames[page / PAGE] == HeapPage(id)
    ensures BitsOk(s.inuse[id := false], numinuse', s.rootPage, Dropped(v, id, t, page))
  {
    hide Count, RootBits, Without;
    WithoutMembers(v.all, id);
    CountsKept(s.inuse, s.numinuse, id, false, numinuse');
    FullBelowKept(s.numinuse, numinuse', s.rootPage, s.rootPage, v, Dropped(v, id, t, page));
  }

  ghost function Freed(s: Store, r': seq<PageRef>, sizebases': seq<int>, allbase': int, numinuse': seq<nat>,
      id: int): Store
    requires 0 <= id < |s.inuse|
  {
    s.(refs := r', sizebases := sizebases', allbase := allbase', inuse := s.inuse[id := false], numinuse := numinuse')
  }

  lemma ListsDistinct(r: seq<PageRef>, sizebases: seq<int>, allbase: int, v: View)
    requires ListsOk(r, sizebases, allbase, v)
    ensures Distinct(v.all)
  {
  }

  /** Whole allocations only care about the frames they own. */
  lemma WholeFrames(v: View, v': View)
    requires WholeOk(v) && v'.whole == v.whole
    requires forall f :: f in v.frames && v.frames[f].Whole? ==> f in v'.frames && v'.frames[f] == v.frames[f]
    requires forall f :: f in v'.frames && v'.frames[f].Whole? ==> f in v.frames && v'.frames[f] == v.frames[f]
    ensures WholeOk(v')
  {
  }

  lemma DropKeeps(s: Store, v: View, id: int, t: nat, r': seq<PageRef>, sizebases': seq<int>, allbase': int,
      numinuse': seq<nat>)
    requires Inv(s, v) && id in v.all && 0 <= id < TOTAL && BlkType(s.refs[id]) == t && t < NSIZES
    requires forall a :: a in v.live ==> v.live[a].id != id
    requires |r'| == |s.refs| && |sizebases'| == NSIZES && |v.same| == NSIZES && |s.inuse| == TOTAL
    requires forall i :: 0 <= i < |r'| ==>
      r'[i].pab == s.refs[i].pab && r'[i].flOff == s.refs[i].flOff && r'[i].nfree == s.refs[i].nfree
    requires Linked(r', true, allbase', Without(v.all, id))
    requires forall u :: 0 <= u < NSIZES ==>
      Linked(r', false, sizebases'[u], if u == t then Without(v.same[t], id) else v.same[u])
    requires Adjusted(s.numinuse, numinuse', id, false)
    ensures Inv(Freed(s, r', sizebases', allbase', numinuse', id), Dropped(v, id, t, PageAddr(s.refs[id])))
  {
    hide ListsOk, PagesOk, BlocksOk, WholeOk, BitsOk, Typed, PageAddr, BlkType, Without, Linked;
    var page := PageAddr(s.refs[id]);
    FrameOf(s, v, id);
    ListsDistinct(s.refs, s.sizebases, s.allbase, v);
    PagesTyped(s.mem, s.refs, v);
    DropLists(s.refs, r', s.sizebases, sizebases', s.allbase, allbase', v, id, t, page);
    DropPages(s, r', v, id, t);
    DropBlocks(s, r', v, id, t, page);
    DropBits(s, numinuse', v, id, t, page);
    WholeFrames(v, Dropped(v, id, t, page));
  }

  // ------------------------------------------------------------------- reservation

  ghost function Reserved(s: Store, id: int, numinuse': seq<nat>): Store
    requires 0 <= id < |s.inuse|
  {
    s.(inuse := s.inuse[id := true], numinuse := numinuse')
  }

  lemma ClearBitLeavesRoom(inuse: seq<bool>, id: nat)
    requires |inuse| == TOTAL && id < TOTAL && !inuse[id]
    ensures Count(RootBits(inuse, id / NPAGEREFS)) < NPAGEREFS
  {
    CountBound(RootBits(inuse, id / NPAGEREFS));
    RootBitsAt(inuse, id);
  }

  lemma ReserveInOrder(s: Store, v: View, id: int, numinuse': seq<nat>)
    requires BitsOk(s.inuse, s.numinuse, s.rootPage, v) && 0 <= id < TOTAL && !s.inuse[id]
    requires Adjusted(s.numinuse, numinuse', id, true)
    requires forall r :: 0 <= r < id / NPAGEREFS ==> s.numinuse[r] == NPAGEREFS
    ensures FullBelow(numinuse', s.rootPage, v.(pending := v.pending + {id}))
  {
    hide RootBits, Count;
    var v' := v.(pending := v.pending + {id});
    ClearBitLeavesRoom(s.inuse, id);
    forall r, i | 0 <= r < NROOTS && Used(v', i) && r < i / NPAGEREFS && s.rootPage[r] == 0
      ensures numinuse'[r] == NPAGEREFS
    {
      if i != id {
        assert Used(v, i);
      }
    }
  }

  lemma SameBlocksView(refs: seq<PageRef>, v: View, v': View)
    requires Typed(refs, v) && BlocksOk(refs, v) && v'.all == v.all && v'.free == v.free && v'.live == v.live
    ensures Typed(refs, v') && BlocksOk(refs, v')
  {
    hide PageAddr, BlkType, Aligned, BlockSize;
    forall b | b in v'.live ensures LiveAt(refs, v', b, v'.live[b]) {
      assert LiveAt(refs, v, b, v.live[b]);
    }
    forall i, o: nat | i in v'.all && Aligned(o, BlkType(refs[i])) ensures FreeOrLive(refs, v', i, o) {
      assert FreeOrLive(refs, v, i, o);
    }
  }

  /** Nothing but the descriptor bits looks at `pending`. */
  lemma SameListsView(s: Store, v: View, v': View)
    requires ListsOk(s.refs, s.sizebases, s.allbase, v) && PagesOk(s.mem, s.refs, v)
    requires Typed(s.refs, v) && BlocksOk(s.refs, v)
    requires v' == v.(pending := v'.pending)
    ensures ListsOk(s.refs, s.sizebases, s.allbase, v') && PagesOk(s.mem, s.refs, v')
    ensures Typed(s.refs, v') && BlocksOk(s.refs, v')
  {
    hide Linked, FreeOk, PageAddr, BlkType;
    SameBlocksView(s.refs, v, v');
  }

  lemma ReserveKeeps(s: Store, v: View, id: int, numinuse': seq<nat>)
    requires Inv(s, v) && 0 <= id < TOTAL && |s.inuse| == TOTAL && !s.inuse[id]
    requires Adjusted(s.numinuse, numinuse', id, true)
    requires forall r :: 0 <= r < id / NPAGEREFS ==> s.numinuse[r] == NPAGEREFS
    ensures Inv(Reserved(s, id, numinuse'), v.(pending := v.pending + {id}))
    ensures id !in v.pending && id !in v.all
  {
    hide ListsOk, PagesOk, BlocksOk, Count, RootBits;
    var v' := v.(pending := v.pending + {id});
    CountsKept(s.inuse, s.numinuse, id, true, numinuse');
    ReserveInOrder(s, v, id, numinuse');
    PagesTyped(s.mem, s.refs, v);
    SameListsView(s, v, v');
  }

  // ------------------------------------------------------------------ page frames

  /** Frames that the heap or a whole-page allocation owns keep their owner. */
  ghost predicate OwnedKept(f: map<nat, Owner>, f': map<nat, Owner>)
  {
    && (forall p :: p in f && f[p] != InTransit ==> p in f' && f'[p] == f[p])
    && (forall p :: p in f' && f'[p].Whole? ==> p in f && f[p] == f'[p])
  }

  /** The parts of the invariant other than WholeOk only care about the heap's own frames. */
  lemma HeapFramesKept(s: Store, v: View, v': View)
    requires Inv(s, v) && WholeOk(v') && v' == v.(frames := v'.frames, whole := v'.whole)
    requires forall p :: p in v.frames && (v.frames[p].HeapPage? || v.frames[p].RefPage?) ==>
      p in v'.frames && v'.frames[p] == v.frames[p]
    ensures Inv(s, v')
  {
    hide FreeOk, PageAddr, BlkType, Linked, Count, RootBits, Aligned, WholeOk;
    SameBlocksView(s.refs, v, v');
    FullBelowKept(s.numinuse, s.numinuse, s.rootPage, s.rootPage, v, v');
  }

  /** alloc_kpages handing a page out and free_kpages taking one back leave the heap alone. */
  lemma FramesKeep(s: Store, v: View, v': View)
    requires Inv(s, v) && v' == v.(frames := v'.frames) && OwnedKept(v.frames, v'.frames)
    ensures Inv(s, v')
  {
    hide ListsOk, PagesOk, BlocksOk, BitsOk, Typed;
    HeapFramesKept(s, v, v');
  }

  /** allocpagerefpage installing the page it was given. */
  lemma InstallKeeps(s: Store, v: View, r: nat, page: nat)
    requires Inv(s, v) && r < NROOTS && |s.rootPage| == NROOTS && s.rootPage[r] == 0
    requires page != 0 && page % PAGE == 0 && page / PAGE in v.frames && v.frames[page / PAGE] == InTransit
    ensures Inv(s.(rootPage := s.rootPage[r := page]), v.(frames := v.frames[page / PAGE := RefPage(r)]))
  {
    hide ListsOk, PagesOk, BlocksOk, WholeOk, Count, RootBits;
    var v' := v.(frames := v.frames[page / PAGE := RefPage(r)]);
    FramesKeep(s, v, v');
  }

  // ----------------------------------------------------------------- unlinking

  function SetNext(pr: PageRef, onAll: bool, x: int): PageRef
  {
    if onAll then pr.(nextAll := x) else pr.(nextSame := x)
  }

  lemma {:induction false} WithoutAt(l: seq<int>, k: nat)
    requires Distinct(l) && k < |l|
    ensures Without(l, l[k]) == l[..k] + l[k + 1..]
  {
    if k > 0 {
      var rest := l[1..];
      assert rest[k - 1] == l[k];
      WithoutAt(rest, k - 1);
      assert [l[0]] + (rest[..k - 1] + rest[k..]) == l[..k] + l[k + 1..];
    }
  }

  lemma {:induction false} WithoutNone(l: seq<int>, id: int)
    requires id !in l
    ensures Without(l, id) == l
  {
    if l != [] {
      WithoutNone(l[1..], id);
      assert l == [l[0]] + l[1..];
    }
  }

  ghost function Cut(l: seq<int>, k: nat): seq<int>
    requires k < |l|
  {
    l[..k] + l[k + 1..]
  }

  lemma CutAt(l: seq<int>, k: nat, j: nat)
    requires k < |l| && j < |l| - 1
    ensures Cut(l, k)[j] == if j < k then l[j] else l[j + 1]
  {
  }

  lemma CutDistinct(l: seq<int>, k: nat)
    requires k < |l| && Distinct(l)
    ensures Distinct(Cut(l, k))
  {
  }

  lemma CutNext(r: seq<PageRef>, onAll: bool, head: int, l: seq<int>, k: nat, r': seq<PageRef>, j: nat)
    requires Linked(r, onAll, head, l) && k < |l| && j < |l| - 1 && |r'| == |r|
    requires forall i :: 0 <= i < |l| && i + 1 != k && i != k ==> r'[l[i]] == r[l[i]]
    requires k > 0 ==> Next(r'[l[k - 1]], onAll) == Next(r[l[k]], onAll)
    ensures 0 <= Cut(l, k)[j] < |r'|
    ensures Next(r'[Cut(l, k)[j]], onAll) == if j + 1 < |l| - 1 then Cut(l, k)[j + 1] else -1
  {
    hide Linked, Next, Cut;
    CutAt(l, k, j);
    if j + 1 < |l| - 1 {
      CutAt(l, k, j + 1);
    }
    var i := if j < k then j else j + 1;
    LinkedStep(r, onAll, head, l, i);
    LinkedStep(r, onAll, head, l, k);
  }

  lemma NextSet(pr: PageRef, onAll: bool, next: int)
    ensures Next(SetNext(pr, onAll, next), onAll) == next
  {
  }

  lemma OthersStay(r: seq<PageRef>, l: seq<int>, k: nat, r': seq<PageRef>)
    requires Distinct(l) && 0 < k < |l| && (forall i :: 0 <= i < |l| ==> 0 <= l[i] < |r|) && |r'| == |r|
    requires forall i :: 0 <= i < |r| && i != l[k - 1] ==> r'[i] == r[i]
    ensures forall i :: 0 <= i < |l| && i + 1 != k ==> r'[l[i]] == r[l[i]]
  {
    forall i | 0 <= i < |l| && i + 1 != k ensures r'[l[i]] == r[l[i]] {
      assert l[i] != l[k - 1];
    }
  }

  lemma FirstCut(r: seq<PageRef>, onAll: bool, head: int, l: seq<int>)
    requires Linked(r, onAll, head, l) && l != []
    ensures 0 <= l[0] < |r| && Next(r[l[0]], onAll) == if Cut(l, 0) == [] then -1 else Cut(l, 0)[0]
  {
    assert Cut(l, 0) == l[1..];
    LinkedStep(r, onAll, head, l, 0);
  }

  lemma FirstKept(r: seq<PageRef>, onAll: bool, head: int, l: seq<int>, k: nat)
    requires Linked(r, onAll, head, l) && 0 < k < |l|
    ensures Cut(l, k) != [] && head == Cut(l, k)[0]
  {
  }

  lemma CutLength(l: seq<int>, k: nat)
    requires k < |l|
    ensures |Cut(l, k)| == |l| - 1
  {
  }

  lemma MakeLinked(r: seq<PageRef>, onAll: bool, l: seq<int>)
    requires Distinct(l) && forall j :: 0 <= j < |l| ==> 0 <= l[j] < |r|
    requires forall j :: 0 <= j < |l| ==> Next(r[l[j]], onAll) == if j + 1 < |l| then l[j + 1] else -1
    ensures Linked(r, onAll, if l == [] then -1 else l[0], l)
  {
    hide Next, Distinct;
  }

  lemma Unlinked(r: seq<PageRef>, onAll: bool, head: int, l: seq<int>, k: nat, r': seq<PageRef>)
    requires Linked(r, onAll, head, l) && k < |l| && |r'| == |r|
    requires forall i :: 0 <= i < |l| && i + 1 != k && i != k ==> r'[l[i]] == r[l[i]]
    requires k > 0 ==> Next(r'[l[k - 1]], onAll) == Next(r[l[k]], onAll)
    ensures |Cut(l, k)| == |l| - 1 && Linked(r', onAll, if Cut(l, k) == [] then -1 else Cut(l, k)[0], Cut(l, k))
  {
    hide Cut, Distinct, Next;
    LinkedDistinct(r, onAll, head, l);
    CutDistinct(l, k);
    CutLength(l, k);
    var l' := Cut(l, k);
    forall j | 0 <= j < |l'|
      ensures 0 <= l'[j] < |r'|
      ensures Next(r'[l'[j]], onAll) == if j + 1 < |l'| then l'[j + 1] else -1
    {
      CutNext(r, onAll, head, l, k, r', j);
    }
    MakeLinked(r', onAll, l');
  }

  /** Pointing the predecessor of an element, or the head, past it takes it off the list. */
  lemma LinkedUnlink(r: seq<PageRef>, onAll: bool, head: int, l: seq<int>, k: nat)
    requires Linked(r, onAll, head, l) && k < |l|
    ensures var next := Next(r[l[k]], onAll);
      if k == 0 then Linked(r, onAll, next, Without(l, l[k]))
      else Linked(r[l[k - 1] := SetNext(r[l[k - 1]], onAll, next)], onAll, head, Without(l, l[k]))
  {
    LinkedDistinct(r, onAll, head, l);
    assert Without(l, l[k]) == Cut(l, k) by { WithoutAt(l, k); }
    hide Linked, Without, Cut, Next, SetNext;
    LinkedStep(r, onAll, head, l, k);
    var next := Next(r[l[k]], onAll);
    if k == 0 {
      Unlinked(r, onAll, head, l, k, r);
      FirstCut(r, onAll, head, l);
    } else {
      LinkedStep(r, onAll, head, l, k - 1);
      var r' := r[l[k - 1] := SetNext(r[l[k - 1]], onAll, next)];
      NextSet(r[l[k - 1]], onAll, next);
      LinkedRange(r, onAll, head, l);
      OthersStay(r, l, k, r');
      Unlinked(r, onAll, head, l, k, r');
      FirstKept(r, onAll, head, l, k);
    }
  }

  // ------------------------------------------------------------- whole-page runs

  /** What the page allocator remembers: every frame it handed out, with the frame its run starts at. */
  ghost predicate GrantsOk(granted: map<nat, nat>, v: View)
  {
    && granted.Keys == v.frames.Keys
    && forall f :: f in granted ==> granted[f] == if v.frames[f].Whole? then v.frames[f].start / PAGE else f
  }

  function Run(start: nat, n: nat): (s: set<nat>)
    ensures forall f :: f in s <==> start <= f < start + n
  {
    if n == 0 then {} else Run(start, n - 1) + {start + n - 1}
  }

  function WithWhole(v: View, a: nat, n: nat): View
  {
    v.(frames := v.frames + (map f | f in Run(a / PAGE, n) :: Whole(a)), whole := v.whole[a := n])
  }

  lemma WholeAdded(v: View, a: nat, n: nat)
    requires WholeOk(v) && a % PAGE == 0 && n > 0 && Run(a / PAGE, n) !! v.frames.Keys
    ensures WholeOk(WithWhole(v, a, n)) && a !in v.whole
  {
    hide Run;
    var v', frame := WithWhole(v, a, n), a / PAGE;
    assert frame in Run(frame, n);
    assert a in v.whole ==> frame in v.frames;
    forall f | f in v'.frames && v'.frames[f].Whole? ensures InItsRun(v', f, v'.frames[f].start) {
      assert f in v.frames && f !in Run(frame, n) ==> InItsRun(v, f, v.frames[f].start);
    }
    hide InItsRun;
    forall x, f | x in v'.whole && x / PAGE <= f < x / PAGE + v'.whole[x]
      ensures f in v'.frames && v'.frames[f] == Whole(x)
    {
      if x == a {
        assert f in Run(frame, n);
      } else {
        assert f in v.frames && v.frames[f] == Whole(x);
      }
    }
  }

  lemma WholeAddKeeps(s: Store, v: View, a: nat, n: nat)
    requires Inv(s, v) && a % PAGE == 0 && n > 0 && Run(a / PAGE, n) !! v.frames.Keys
    ensures Inv(s, WithWhole(v, a, n)) && a !in v.whole
  {
    hide ListsOk, PagesOk, BlocksOk, BitsOk, Typed, WholeOk;
    WholeAdded(v, a, n);
    HeapFramesKept(s, v, WithWhole(v, a, n));
  }

  function WithoutWhole(v: View, a: nat): View
  {
    v.(frames := map f | f in v.frames && v.frames[f] != Whole(a) :: v.frames[f], whole := v.whole - {a})
  }

  lemma WholeGone(v: View, a: nat)
    requires WholeOk(v)
    ensures WholeOk(WithoutWhole(v, a))
  {
    var v' := WithoutWhole(v, a);
    forall f | f in v'.frames && v'.frames[f].Whole? ensures InItsRun(v', f, v'.frames[f].start) {
      assert InItsRun(v, f, v.frames[f].start);
    }
    hide InItsRun;
    forall x, f | x in v'.whole && x / PAGE <= f < x / PAGE + v'.whole[x]
      ensures f in v'.frames && v'.frames[f] == Whole(x)
    {
      assert x in v.whole && v.frames[f] == Whole(x);
    }
  }

  lemma WholeFreeKeeps(s: Store, v: View, a: nat)
    requires Inv(s, v)
    ensures Inv(s, WithoutWhole(v, a))
  {
    hide ListsOk, PagesOk, BlocksOk, BitsOk, Typed;
    WholeGone(v, a);
    HeapFramesKept(s, v, WithoutWhole(v, a));
    hide WholeOk;
  }
}
