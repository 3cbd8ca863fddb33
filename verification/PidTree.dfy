/** kern/proc/pid.c: the tree of pid blocks, as it grows under pid_allocate.  A block and its subtrees
    are one value; a write to a block gives the updated value. */
module PidTree {

  import opened Collections
  import opened SignedDivision
  import Nonlinear

  type Proc = int

  const DIR_SIZE := 8       // PID_DIR_SIZE
  const PID_MIN := 2
  const PID_MAX := 32767

  datatype Tree = Null | Block(pids: seq<int>, procs: seq<Option<Proc>>, sizes: seq<nat>, subs: seq<Tree>)

  /** Every block has its eight slots. */
  predicate WellSized(t: Tree)
  {
    t.Block? ==>
      && |t.pids| == |t.procs| == |t.sizes| == |t.subs| == DIR_SIZE
      && forall i :: 0 <= i < DIR_SIZE ==> WellSized(t.subs[i])
  }

  /** pid_create_tree: all slots vacant, or the kernel's process at pid 0. */
  function Create(kproc: Option<Proc>): Tree
  {
    Block(if kproc.Some? then [0, -1, -1, -1, -1, -1, -1, -1] else [-1, -1, -1, -1, -1, -1, -1, -1],
          [kproc, None, None, None, None, None, None, None],
          [0, 0, 0, 0, 0, 0, 0, 0],
          [Null, Null, Null, Null, Null, Null, Null, Null])
  }

  /** The pid that divides the range evenly at slot i; C division truncates. */
  function Slot(lo: int, hi: int, i: nat): int { lo + TruncQuot(i * (hi - lo), DIR_SIZE) }

  /** Where the scan for a vacant slot stops. */
  function FirstOpen(procs: seq<Option<Proc>>, i: nat): nat
    requires i <= |procs|
    decreases |procs| - i
  {
    if i == |procs| || procs[i].None? then i else FirstOpen(procs, i + 1)
  }

  /** The scan for the least-full subtree, from slot i on with `idx` the best so far. */
  function LeastFrom(sizes: seq<nat>, i: nat, idx: nat): nat
    requires i <= |sizes| && idx < |sizes|
    decreases |sizes| - i
  {
    if i == |sizes| then idx else LeastFrom(sizes, i + 1, if sizes[i] < sizes[idx] then i else idx)
  }

  function SubLo(t: Tree, lo: int, idx: nat): int
    requires t.Block? && idx < |t.pids|
  { if lo < t.pids[idx] + 1 then t.pids[idx] + 1 else lo }

  function SubHi(t: Tree, hi: int, idx: nat): int
    requires t.Block? && idx < |t.pids|
  { if idx + 1 < |t.pids| then t.pids[idx + 1] - 1 else hi }

  predicate Full(t: Tree) { t.Block? && FirstOpen(t.procs, 0) == |t.procs| }

  function Grown(sub: Tree): Tree { if sub.Null? then Create(None) else sub }

  lemma FirstOpenMeaning(procs: seq<Option<Proc>>, i: nat)
    requires i <= |procs|
    ensures i <= FirstOpen(procs, i) <= |procs|
    ensures forall j :: i <= j < FirstOpen(procs, i) ==> procs[j].Some?
    ensures FirstOpen(procs, i) < |procs| ==> procs[FirstOpen(procs, i)].None?
    decreases |procs| - i
  {
    if i < |procs| && procs[i].Some? {
      FirstOpenMeaning(procs, i + 1);
    }
  }

  function Fill(t: Tree, proc: Proc, lo: int, hi: int): (Tree, int)
    requires t.Block? && WellSized(t) && !Full(t)
  {
    FirstOpenMeaning(t.procs, 0);
    var i := FirstOpen(t.procs, 0);
    var pid := if t.pids[i] != -1 then t.pids[i] else Slot(lo, hi, i);
    (t.(pids := t.pids[i := pid], procs := t.procs[i := Some(proc)]), pid)
  }

  /** The result is the first slot whose size no other slot is below. */
  lemma LeastFullMeaning(sizes: seq<nat>, i: nat, idx: nat)
    requires idx < i <= |sizes|
    requires forall j :: 0 <= j < i ==> sizes[idx] <= sizes[j]
    requires forall j :: 0 <= j < idx ==> sizes[idx] < sizes[j]
    ensures
      var r := LeastFrom(sizes, i, idx);
      && r < |sizes|
      && (forall j :: 0 <= j < |sizes| ==> sizes[r] <= sizes[j])
      && (forall j :: 0 <= j < r ==> sizes[r] < sizes[j])
    decreases |sizes| - i
  {
    if i < |sizes| {
      LeastFullMeaning(sizes, i + 1, if sizes[i] < sizes[idx] then i else idx);
    }
  }

  /** pid_allocate_helper. */
  function Allocate(t: Tree, proc: Proc, lo: int, hi: int): (Tree, int)
    requires t.Block? && WellSized(t)
    decreases if Full(t) then 1 else 0, t
  {
    if !Full(t) then Fill(t, proc, lo, hi)
    else
      LeastFullMeaning(t.sizes, 1, 0);
      var idx := LeastFrom(t.sizes, 1, 0);
      assert WellSized(t.subs[idx]);
      var (sub, pid) := Allocate(Grown(t.subs[idx]), proc, SubLo(t, lo, idx), SubHi(t, hi, idx));
      (t.(sizes := t.sizes[idx := t.sizes[idx] + 1], subs := t.subs[idx := sub]), pid)
  }

  function Lookup(t: Tree, pid: int): Option<Proc>
    requires WellSized(t)
    decreases t, DIR_SIZE + 1
  {
    if t.Null? then None else LookupFrom(t, pid, 0)
  }

  /** pid_get_proc: the scan along one block from slot i, and the descent it ends in. */
  function LookupFrom(t: Tree, pid: int, i: nat): Option<Proc>
    requires t.Block? && WellSized(t) && i <= DIR_SIZE
    decreases t, DIR_SIZE - i
  {
    if i == DIR_SIZE then Lookup(t.subs[DIR_SIZE - 1], pid)
    else if pid == t.pids[i] then t.procs[i]
    else if pid < t.pids[i] then if i == 0 then None else Lookup(t.subs[i - 1], pid)
    else LookupFrom(t, pid, i + 1)
  }

  // ---- slots of a range ----

  predicate Roomy(lo: int, hi: int) { hi - lo >= DIR_SIZE }

  /** In a range that is not backwards the truncated division is the plain one. */
  lemma SlotIs(lo: int, hi: int, i: nat)
    requires lo <= hi
    ensures 0 <= i * (hi - lo) && Slot(lo, hi, i) == lo + i * (hi - lo) / DIR_SIZE
  {
    Nonlinear.MulLe(0, i, hi - lo);
  }

  lemma EighthStep(x: nat, d: nat)
    ensures d / 8 <= (x + d) / 8 - x / 8 <= (d + 7) / 8
  {
  }

  lemma SlotBounds(lo: int, hi: int, i: nat)
    requires Roomy(lo, hi) && i < DIR_SIZE
    ensures lo <= Slot(lo, hi, i) <= hi
    ensures i == 0 ==> Slot(lo, hi, i) == lo
    ensures i < DIR_SIZE - 1 ==> Slot(lo, hi, i + 1) - Slot(lo, hi, i) >= (hi - lo) / DIR_SIZE
    ensures i == DIR_SIZE - 1 ==> hi - Slot(lo, hi, i) >= (hi - lo) / DIR_SIZE
  {
    var d := hi - lo;
    SlotIs(lo, hi, i);
    SlotIs(lo, hi, i + 1);
    Nonlinear.Distribute(i, 1, d);
    EighthStep(i * d, d);
    Nonlinear.MulLe(i, 7, d);
  }

  lemma Signs(i: nat, d: int)
    ensures TruncQuot(i * d, 8) == if d < 0 then -((i * Abs(d)) / 8) else (i * Abs(d)) / 8
  {
    if d < 0 {
      assert i * d == -(i * Abs(d));
    }
  }

  lemma SlotsApart(d: int, i: nat, j: nat)
    requires i < j < 8 && (d >= 8 || d <= -8)
    ensures TruncQuot(i * d, 8) != TruncQuot(j * d, 8)
  {
    var a := Abs(d);
    assert TruncQuot(i * d, 8) == (if d < 0 then -((i * a) / 8) else (i * a) / 8) by { Signs(i, d); }
    assert TruncQuot(j * d, 8) == (if d < 0 then -((j * a) / 8) else (j * a) / 8) by { Signs(j, d); }
    Nonlinear.MulLe(i + 1, j, a);
    Nonlinear.Distribute(i, 1, a);
  }

  /** The eight pids of a block are different exactly when its ends are eight or more apart. */
  lemma SlotsDifferIff(lo: int, hi: int)
    ensures (forall i, j :: 0 <= i < j < DIR_SIZE ==> Slot(lo, hi, i) != Slot(lo, hi, j)) <==>
      hi - lo >= 8 || hi - lo <= -8
  {
    var d := hi - lo;
    if -8 < d < 8 {
      assert Slot(lo, hi, 0) == Slot(lo, hi, 1);
    } else {
      forall i, j | 0 <= i < j < DIR_SIZE ensures Slot(lo, hi, i) != Slot(lo, hi, j) {
        SlotsApart(d, i, j);
      }
    }
  }

  // ---- the shape of an allocated tree ----

  /** The range is wide enough for k processes: to divide, or to hold one at its low end. */
  predicate Enough(lo: int, hi: int, k: nat) { Roomy(lo, hi) || (lo <= hi && k <= 1) }

  /** The pid slot i gets: the kernel's slot keeps pid 0, below the range. */
  function Want(lo: int, hi: int, i: nat, root: bool): int { if root && i == 0 then 0 else Slot(lo, hi, i) }

  ghost function Taken(procs: seq<Option<Proc>>): nat
  {
    if procs == [] then 0 else Taken(procs[..|procs| - 1]) + if procs[|procs| - 1].Some? then 1 else 0
  }

  /** How many processes a tree holds. */
  ghost function Size(t: Tree): nat
  {
    if t.Null? then 0 else Taken(t.procs) + SizesOf(t.subs)
  }

  ghost function SizesOf(subs: seq<Tree>): nat
  {
    if subs == [] then 0 else SizesOf(subs[..|subs| - 1]) + Size(subs[|subs| - 1])
  }

  ghost predicate SlotsOk(t: Tree, lo: int, hi: int, root: bool)
    requires t.Block? && WellSized(t)
  {
    var k := FirstOpen(t.procs, 0);
    && (root ==> k > 0)
    && (forall i :: 0 <= i < k && i < DIR_SIZE ==> t.procs[i].Some? && t.pids[i] == Want(lo, hi, i, root))
    && (forall i :: k <= i < DIR_SIZE ==> t.procs[i].None? && t.pids[i] == -1)
  }

  /** Sibling subtrees are within one of each other. */
  ghost predicate Even(sizes: seq<nat>)
  {
    forall i, j :: 0 <= i < |sizes| && 0 <= j < |sizes| ==> sizes[i] <= sizes[j] + 1
  }

  ghost predicate Shape(t: Tree, lo: int, hi: int, root: bool)
    decreases t, 1
  {
    && t.Block? && WellSized(t) && Enough(lo, hi, FirstOpen(t.procs, 0)) && lo > 0
    && SlotsOk(t, lo, hi, root) && Even(t.sizes)
    && (!Full(t) ==> forall i :: 0 <= i < DIR_SIZE ==> t.subs[i].Null?)
    && (forall i :: 0 <= i < DIR_SIZE ==> SubOk(t, lo, hi, i))
  }

  ghost predicate SubOk(t: Tree, lo: int, hi: int, i: nat)
    requires t.Block? && WellSized(t) && i < DIR_SIZE
    decreases t, 0
  {
    && t.sizes[i] == Size(t.subs[i])
    && (t.subs[i].Block? ==> Shape(t.subs[i], SubLo(t, lo, i), SubHi(t, hi, i), false))
  }

  /** The block the allocation will end in has room for one more. */
  predicate Fits(t: Tree, lo: int, hi: int)
    requires t.Block? && WellSized(t)
    decreases if Full(t) then 1 else 0, t
  {
    if !Full(t) then Enough(lo, hi, FirstOpen(t.procs, 0) + 1)
    else
      LeastFullMeaning(t.sizes, 1, 0);
      var idx := LeastFrom(t.sizes, 1, 0);
      assert WellSized(t.subs[idx]);
      Fits(Grown(t.subs[idx]), SubLo(t, lo, idx), SubHi(t, hi, idx))
  }

  lemma FreshBlock(kproc: Option<Proc>)
    ensures WellSized(Create(kproc))
    ensures forall i :: 0 <= i < DIR_SIZE ==> Create(kproc).subs[i].Null? && Create(kproc).sizes[i] == 0
  {
    var t := Create(kproc);
    forall i | 0 <= i < DIR_SIZE ensures t.subs[i].Null? && t.sizes[i] == 0 {
      assert i == 0 || i == 1 || i == 2 || i == 3 || i == 4 || i == 5 || i == 6 || i == 7;
    }
    assert WellSized(Null);
  }

  lemma FreshSlots(kproc: Option<Proc>)
    ensures FirstOpen(Create(kproc).procs, 0) == if kproc.Some? then 1 else 0
  {
    var procs := Create(kproc).procs;
    assert kproc.Some? ==> FirstOpen(procs, 1) == 1;
  }

  lemma {:induction false} EmptySubs(subs: seq<Tree>)
    requires forall i :: 0 <= i < |subs| ==> subs[i].Null?
    ensures SizesOf(subs) == 0
  {
    if subs != [] {
      EmptySubs(subs[..|subs| - 1]);
    }
  }

  lemma {:induction false} TakenUpdate(procs: seq<Option<Proc>>, i: nat, p: Option<Proc>)
    requires i < |procs|
    ensures Taken(procs[i := p]) + (if procs[i].Some? then 1 else 0) == Taken(procs) + if p.Some? then 1 else 0
  {
    var n := |procs| - 1;
    if i == n {
      assert procs[i := p][..n] == procs[..n];
    } else {
      TakenUpdate(procs[..n], i, p);
      assert procs[i := p][..n] == procs[..n][i := p];
    }
  }

  lemma {:induction false} NoneTaken(procs: seq<Option<Proc>>)
    requires forall i :: 0 <= i < |procs| ==> procs[i].None?
    ensures Taken(procs) == 0
  {
    if procs != [] {
      NoneTaken(procs[..|procs| - 1]);
    }
  }

  lemma FreshTaken(kproc: Option<Proc>)
    ensures Taken(Create(kproc).procs) == if kproc.Some? then 1 else 0
  {
    var none: seq<Option<Proc>> := [None, None, None, None, None, None, None, None];
    TakenUpdate(none, 0, kproc);
    NoneTaken(none);
    assert Create(kproc).procs == none[0 := kproc];
    hide Taken;
  }

  lemma FreshShape(lo: int, hi: int, kproc: Option<Proc>)
    requires 0 < lo <= hi
    ensures Shape(Create(kproc), lo, hi, kproc.Some?)
    ensures Size(Create(kproc)) == if kproc.Some? then 1 else 0
    ensures !Full(Create(kproc))
  {
    var t := Create(kproc);
    FreshBlock(kproc);
    FreshSlots(kproc);
    EmptySubs(t.subs);
    FreshTaken(kproc);
    hide SizesOf, Taken, FirstOpen, WellSized;
    assert Size(t) == Taken(t.procs);
    forall i | 0 <= i < DIR_SIZE ensures SubOk(t, lo, hi, i) {
      assert t.subs[i].Null? && t.sizes[i] == 0;
    }
  }

  lemma {:induction false} SizesUpdate(subs: seq<Tree>, i: nat, sub: Tree)
    requires i < |subs|
    ensures SizesOf(subs[i := sub]) + Size(subs[i]) == SizesOf(subs) + Size(sub)
  {
    hide Size;
    var n := |subs| - 1;
    if i == n {
      assert subs[i := sub][..n] == subs[..n];
    } else {
      SizesUpdate(subs[..n], i, sub);
      assert subs[i := sub][..n] == subs[..n][i := sub];
    }
  }

  // ---- where a lookup goes ----

  /** The pids of the taken slots rise, from the range's low end (or the kernel's 0) to its high end. */
  lemma PidsRise(t: Tree, lo: int, hi: int, root: bool, i: nat, j: nat)
    requires Shape(t, lo, hi, root) && i < j < FirstOpen(t.procs, 0) && j < DIR_SIZE
    ensures t.pids[i] < t.pids[j]
    decreases j - i
  {
    hide SubOk;
    assert t.pids[j - 1] < t.pids[j] by {
      SlotBounds(lo, hi, j - 1);
      SlotBounds(lo, hi, j);
    }
    if i < j - 1 {
      PidsRise(t, lo, hi, root, i, j - 1);
    }
  }

  ghost predicate Between(t: Tree, pid: int, i: nat)
    requires t.Block? && WellSized(t) && i < DIR_SIZE
  {
    t.pids[i] < pid && (i + 1 < DIR_SIZE ==> pid < t.pids[i + 1])
  }

  lemma ScanReaches(t: Tree, lo: int, hi: int, root: bool, pid: int, from: nat, i: nat)
    requires Shape(t, lo, hi, root) && Full(t) && from <= i < DIR_SIZE
    requires pid == t.pids[i] || Between(t, pid, i)
    ensures LookupFrom(t, pid, from) == if pid == t.pids[i] then t.procs[i] else Lookup(t.subs[i], pid)
    decreases i - from
  {
    hide SubOk;
    FirstOpenMeaning(t.procs, 0);
    if from < i {
      PidsRise(t, lo, hi, root, from, i);
      ScanReaches(t, lo, hi, root, pid, from + 1, i);
    } else if pid != t.pids[i] && i + 1 < DIR_SIZE {
      assert LookupFrom(t, pid, i) == LookupFrom(t, pid, i + 1);
    }
  }

  /** In a full block every pid above the first slot's belongs to one slot or one subtree. */
  lemma RouteExists(t: Tree, pid: int) returns (i: nat)
    requires t.Block? && WellSized(t) && t.pids[0] <= pid
    ensures i < DIR_SIZE && (pid == t.pids[i] || Between(t, pid, i))
  {
    i := 0;
    while i + 1 < DIR_SIZE && t.pids[i + 1] <= pid
      invariant i < DIR_SIZE && t.pids[i] <= pid
      decreases DIR_SIZE - i
    {
      i := i + 1;
    }
  }

  lemma BelowIsAbsent(t: Tree, lo: int, hi: int, root: bool, pid: int)
    requires Shape(t, lo, hi, root) && FirstOpen(t.procs, 0) > 0 && pid < t.pids[0]
    ensures Lookup(t, pid) == None
  {
    hide SubOk;
  }

  /** An open block finds exactly what its taken slots hold. */
  lemma OpenScan(t: Tree, lo: int, hi: int, root: bool, pid: int, i: nat)
    requires Shape(t, lo, hi, root) && !Full(t) && i <= DIR_SIZE
    ensures forall j :: i <= j < FirstOpen(t.procs, 0) && j < DIR_SIZE && t.pids[j] == pid ==>
      LookupFrom(t, pid, i) == t.procs[j]
    ensures (forall j :: i <= j < FirstOpen(t.procs, 0) && j < DIR_SIZE ==> t.pids[j] != pid) ==>
      LookupFrom(t, pid, i) == None
    decreases DIR_SIZE - i
  {
    hide SubOk;
    FirstOpenMeaning(t.procs, 0);
    if i < DIR_SIZE {
      OpenScan(t, lo, hi, root, pid, i + 1);
      forall j | i < j < FirstOpen(t.procs, 0) && j < DIR_SIZE ensures t.pids[i] < t.pids[j] {
        PidsRise(t, lo, hi, root, i, j);
      }
    }
  }

  // ---- allocation ----

  /** What one allocation must do to a tree. */
  ghost predicate Allocated(t: Tree, t': Tree, proc: Proc, pid: int, lo: int, hi: int, root: bool)
  {
    && Shape(t', lo, hi, root) && WellSized(t) && Size(t') == Size(t) + 1
    && lo <= pid <= hi && Lookup(t, pid) == None
    && forall q :: Lookup(t', q) == if q == pid then Some(proc) else Lookup(t, q)
  }

  lemma OpenMoves(procs: seq<Option<Proc>>, i: nat, p: Option<Proc>, k: nat)
    requires i <= |procs| && i <= k == FirstOpen(procs, i) < |procs| && p.Some?
    requires forall j :: k <= j < |procs| ==> procs[j].None?
    ensures FirstOpen(procs[k := p], i) == k + 1
    decreases |procs| - i
  {
    FirstOpenMeaning(procs, i);
    if i < k {
      OpenMoves(procs, i + 1, p, k);
    }
  }

  lemma FillShape(t: Tree, proc: Proc, lo: int, hi: int, root: bool)
    requires Shape(t, lo, hi, root) && !Full(t) && Fits(t, lo, hi)
    ensures
      var (t', pid) := Fill(t, proc, lo, hi);
      && Shape(t', lo, hi, root) && Size(t') == Size(t) + 1 && lo <= pid <= hi
      && FirstOpen(t'.procs, 0) == FirstOpen(t.procs, 0) + 1 <= DIR_SIZE
      && pid == t'.pids[FirstOpen(t.procs, 0)] && t'.subs == t.subs
  {
    var (t', pid) := Fill(t, proc, lo, hi);
    var k := FirstOpen(t.procs, 0);
    FirstOpenMeaning(t.procs, 0);
    if Roomy(lo, hi) { SlotBounds(lo, hi, k); }
    TakenUpdate(t.procs, k, Some(proc));
    OpenMoves(t.procs, 0, Some(proc), k);
    forall i | 0 <= i < DIR_SIZE ensures SubOk(t', lo, hi, i) {
      assert SubOk(t, lo, hi, i);
    }
  }

  /** An open block that has just been filled up is full, and its lookups go through empty subtrees. */
  lemma FilledLookup(t: Tree, lo: int, hi: int, root: bool, q: int)
    requires Shape(t, lo, hi, root) && (forall i :: 0 <= i < DIR_SIZE ==> t.subs[i].Null?)
    ensures forall j :: 0 <= j < FirstOpen(t.procs, 0) && j < DIR_SIZE && t.pids[j] == q ==> Lookup(t, q) == t.procs[j]
    ensures (forall j :: 0 <= j < FirstOpen(t.procs, 0) && j < DIR_SIZE ==> t.pids[j] != q) ==> Lookup(t, q) == None
  {
    hide SubOk;
    FirstOpenMeaning(t.procs, 0);
    if !Full(t) {
      OpenScan(t, lo, hi, root, q, 0);
    } else if q < t.pids[0] {
      BelowIsAbsent(t, lo, hi, root, q);
      forall j | 0 < j < DIR_SIZE ensures t.pids[0] < t.pids[j] { PidsRise(t, lo, hi, root, 0, j); }
    } else {
      var i := RouteExists(t, q);
      ScanReaches(t, lo, hi, root, q, 0, i);
      forall j | 0 <= j < DIR_SIZE && j != i ensures t.pids[j] != q {
        if j < i {
          PidsRise(t, lo, hi, root, j, i);
        } else {
          PidsRise(t, lo, hi, root, i, j);
          if i + 1 < j { PidsRise(t, lo, hi, root, i + 1, j); }
        }
      }
    }
  }

  lemma FillIsAllocation(t: Tree, proc: Proc, lo: int, hi: int, root: bool)
    requires Shape(t, lo, hi, root) && !Full(t) && Fits(t, lo, hi)
    ensures var (t', pid) := Fill(t, proc, lo, hi); Allocated(t, t', proc, pid, lo, hi, root)
  {
    var (t', pid) := Fill(t, proc, lo, hi);
    var k := FirstOpen(t.procs, 0);
    FirstOpenMeaning(t.procs, 0);
    FillShape(t, proc, lo, hi, root);
    forall j | 0 <= j < k ensures t'.pids[j] == t.pids[j] && t'.procs[j] == t.procs[j] && t.pids[j] != pid {
      PidsRise(t', lo, hi, root, j, k);
    }
    hide SubOk, Shape, Lookup;
    FilledLookup(t, lo, hi, root, pid);
    forall q ensures Lookup(t', q) == if q == pid then Some(proc) else Lookup(t, q) {
      FilledLookup(t, lo, hi, root, q);
      FilledLookup(t', lo, hi, root, q);
    }
  }

  lemma FreshOpens()
    ensures FirstOpen(Create(None).procs, 0) == 0
  {
  }

  lemma FreshAbsent(lo: int, hi: int, q: int)
    requires 0 < lo <= hi
    ensures WellSized(Create(None)) && Lookup(Create(None), q) == None
  {
    FreshShape(lo, hi, None);
    FreshOpens();
    FilledLookup(Create(None), lo, hi, false, q);
  }

  /** A block made on the way finds nothing yet, like the empty subtree it replaces. */
  lemma GrownSame(sub: Tree, lo: int, hi: int)
    requires WellSized(sub) && 0 < lo <= hi && (sub.Block? ==> Shape(sub, lo, hi, false))
    ensures Shape(Grown(sub), lo, hi, false) && Size(Grown(sub)) == Size(sub)
    ensures forall q :: Lookup(Grown(sub), q) == Lookup(sub, q)
  {
    if sub.Null? {
      FreshShape(lo, hi, None);
      var t := Create(None);
      hide Shape, Create;
      assert FirstOpen(t.procs, 0) == 0 by { FreshOpens(); }
      forall q ensures Lookup(t, q) == None {
        FreshAbsent(lo, hi, q);
      }
    }
  }

  function Attach(t: Tree, idx: nat, sub: Tree): Tree
    requires t.Block? && WellSized(t) && idx < DIR_SIZE
  {
    t.(sizes := t.sizes[idx := t.sizes[idx] + 1], subs := t.subs[idx := sub])
  }

  lemma AttachSize(t: Tree, idx: nat, sub: Tree)
    requires t.Block? && WellSized(t) && idx < DIR_SIZE && Size(sub) == Size(t.subs[idx]) + 1
    ensures Size(Attach(t, idx, sub)) == Size(t) + 1
  {
    SizesUpdate(t.subs, idx, sub);
    hide SizesOf, Taken;
  }

  lemma AttachWellSized(t: Tree, idx: nat, sub: Tree)
    requires t.Block? && WellSized(t) && idx < DIR_SIZE && WellSized(sub)
    ensures WellSized(Attach(t, idx, sub))
  {
    var t' := Attach(t, idx, sub);
    assert forall i :: 0 <= i < DIR_SIZE ==> WellSized(t'.subs[i]);
  }

  lemma EvenKept(sizes: seq<nat>, idx: nat)
    requires Even(sizes) && idx < |sizes| && forall j :: 0 <= j < |sizes| ==> sizes[idx] <= sizes[j]
    ensures Even(sizes[idx := sizes[idx] + 1])
  {
  }

  lemma AttachSub(t: Tree, lo: int, hi: int, idx: nat, sub: Tree, i: nat)
    requires t.Block? && WellSized(t) && idx < DIR_SIZE && i < DIR_SIZE && SubOk(t, lo, hi, i)
    requires WellSized(Attach(t, idx, sub)) && Size(sub) == Size(t.subs[idx]) + 1 && t.sizes[idx] == Size(t.subs[idx])
    requires sub.Block? && Shape(sub, SubLo(t, lo, idx), SubHi(t, hi, idx), false)
    ensures SubOk(Attach(t, idx, sub), lo, hi, i)
  {
    hide Size, Shape;
  }

  lemma AttachShape(t: Tree, lo: int, hi: int, root: bool, idx: nat, sub: Tree)
    requires Shape(t, lo, hi, root) && Full(t) && idx < DIR_SIZE
    requires forall j :: 0 <= j < DIR_SIZE ==> t.sizes[idx] <= t.sizes[j]
    requires Shape(sub, SubLo(t, lo, idx), SubHi(t, hi, idx), false) && Size(sub) == Size(t.subs[idx]) + 1
    ensures Shape(Attach(t, idx, sub), lo, hi, root) && Size(Attach(t, idx, sub)) == Size(t) + 1
  {
    var t' := Attach(t, idx, sub);
    AttachSize(t, idx, sub);
    AttachWellSized(t, idx, sub);
    EvenKept(t.sizes, idx);
    assert SubOk(t, lo, hi, idx);
    assert t.sizes[idx] == Size(t.subs[idx]) && sub.Block?;
    hide Size, Even, SubOk;
    forall i | 0 <= i < DIR_SIZE ensures SubOk(t', lo, hi, i) {
      assert SubOk(t, lo, hi, i);
      AttachSub(t, lo, hi, idx, sub, i);
    }
    assert SlotsOk(t', lo, hi, root);
  }

  /** Two routes for one pid are the same route. */
  lemma RouteUnique(t: Tree, lo: int, hi: int, root: bool, pid: int, i: nat, j: nat)
    requires Shape(t, lo, hi, root) && Full(t) && i < DIR_SIZE && j < DIR_SIZE
    requires Between(t, pid, i) && (pid == t.pids[j] || Between(t, pid, j))
    ensures i == j && pid != t.pids[j]
  {
    hide SubOk;
    FirstOpenMeaning(t.procs, 0);
    if i < j {
      if i + 1 < j { PidsRise(t, lo, hi, root, i + 1, j); }
    } else if j < i {
      PidsRise(t, lo, hi, root, j, i);
      if j + 1 < i { PidsRise(t, lo, hi, root, j + 1, i); }
    }
  }

  lemma BelowBoth(t: Tree, t': Tree, lo: int, hi: int, root: bool, q: int)
    requires Shape(t, lo, hi, root) && Shape(t', lo, hi, root) && Full(t) && Full(t') && q < t.pids[0] == t'.pids[0]
    ensures Lookup(t, q) == None && Lookup(t', q) == None
  {
    FirstOpenMeaning(t.procs, 0);
    FirstOpenMeaning(t'.procs, 0);
    BelowIsAbsent(t, lo, hi, root, q);
    BelowIsAbsent(t', lo, hi, root, q);
  }

  lemma AttachLookup(t: Tree, lo: int, hi: int, root: bool, idx: nat, sub: Tree, q: int)
    requires Shape(t, lo, hi, root) && Full(t) && idx < DIR_SIZE
    requires Shape(Attach(t, idx, sub), lo, hi, root)
    ensures WellSized(sub)
    ensures Between(t, q, idx) ==>
      Lookup(t, q) == Lookup(t.subs[idx], q) && Lookup(Attach(t, idx, sub), q) == Lookup(sub, q)
    ensures !Between(t, q, idx) ==> Lookup(Attach(t, idx, sub), q) == Lookup(t, q)
  {
    var t' := Attach(t, idx, sub);
    assert WellSized(t'.subs[idx]);
    hide SubOk, Shape;
    if q < t.pids[0] {
      assert t'.pids[0] == t.pids[0];
      BelowBoth(t, t', lo, hi, root, q);
      if 0 < idx { PidsRise(t, lo, hi, root, 0, idx); }
    } else {
      var i := RouteExists(t, q);
      ScanReaches(t, lo, hi, root, q, 0, i);
      ScanReaches(t', lo, hi, root, q, 0, i);
      if Between(t, q, idx) { RouteUnique(t, lo, hi, root, q, idx, i); }
    }
  }

  /** The range handed down lies inside this block's and strictly between its two neighbouring slots. */
  lemma SubRange(t: Tree, lo: int, hi: int, root: bool, idx: nat)
    requires Shape(t, lo, hi, root) && Full(t) && idx < DIR_SIZE
    ensures lo <= SubLo(t, lo, idx) && SubHi(t, hi, idx) <= hi && t.pids[idx] < SubLo(t, lo, idx)
    ensures idx + 1 < DIR_SIZE ==> SubHi(t, hi, idx) < t.pids[idx + 1]
    ensures SubHi(t, hi, idx) - SubLo(t, lo, idx) >= (hi - lo) / DIR_SIZE - 2
  {
    hide SubOk;
    FirstOpenMeaning(t.procs, 0);
    SlotBounds(lo, hi, idx);
    if idx + 1 < DIR_SIZE { SlotBounds(lo, hi, idx + 1); }
  }

  lemma DescendIsAllocation(t: Tree, proc: Proc, lo: int, hi: int, root: bool, idx: nat, sub: Tree, pid: int)
    requires Shape(t, lo, hi, root) && Full(t) && idx < DIR_SIZE
    requires forall j :: 0 <= j < DIR_SIZE ==> t.sizes[idx] <= t.sizes[j]
    requires SubLo(t, lo, idx) <= SubHi(t, hi, idx)
    requires Allocated(Grown(t.subs[idx]), sub, proc, pid, SubLo(t, lo, idx), SubHi(t, hi, idx), false)
    ensures Allocated(t, Attach(t, idx, sub), proc, pid, lo, hi, root)
  {
    assert SubOk(t, lo, hi, idx);
    SubRange(t, lo, hi, root, idx);
    GrownSame(t.subs[idx], SubLo(t, lo, idx), SubHi(t, hi, idx));
    AttachShape(t, lo, hi, root, idx, sub);
    hide SubOk, Shape, Lookup;
    assert Between(t, pid, idx);
    AttachLookup(t, lo, hi, root, idx, sub, pid);
    forall q ensures Lookup(Attach(t, idx, sub), q) == if q == pid then Some(proc) else Lookup(t, q) {
      AttachLookup(t, lo, hi, root, idx, sub, q);
    }
  }

  /** The subtree a full block hands the request to is in order and wide enough. */
  lemma DescentReady(t: Tree, lo: int, hi: int, root: bool)
    requires Shape(t, lo, hi, root) && Fits(t, lo, hi) && Full(t)
    ensures
      var idx := LeastFrom(t.sizes, 1, 0);
      && idx < DIR_SIZE && (forall j :: 0 <= j < DIR_SIZE ==> t.sizes[idx] <= t.sizes[j])
      && Shape(Grown(t.subs[idx]), SubLo(t, lo, idx), SubHi(t, hi, idx), false)
      && Fits(Grown(t.subs[idx]), SubLo(t, lo, idx), SubHi(t, hi, idx))
      && SubLo(t, lo, idx) <= SubHi(t, hi, idx)
      && (t.subs[idx].Null? ==> !Full(Grown(t.subs[idx])))
  {
    LeastFullMeaning(t.sizes, 1, 0);
    var idx := LeastFrom(t.sizes, 1, 0);
    assert SubOk(t, lo, hi, idx);
    SubRange(t, lo, hi, root, idx);
    assert Fits(Grown(t.subs[idx]), SubLo(t, lo, idx), SubHi(t, hi, idx));
    hide Shape, Lookup;
    GrownSame(t.subs[idx], SubLo(t, lo, idx), SubHi(t, hi, idx));
    FreshOpens();
  }

  lemma AllocateDescends(t: Tree, proc: Proc, lo: int, hi: int)
    requires t.Block? && WellSized(t) && Full(t)
    ensures
      var idx := LeastFrom(t.sizes, 1, 0);
      && idx < DIR_SIZE && WellSized(t.subs[idx])
      && var (sub, pid) := Allocate(Grown(t.subs[idx]), proc, SubLo(t, lo, idx), SubHi(t, hi, idx));
         Allocate(t, proc, lo, hi) == (Attach(t, idx, sub), pid)
  {
    LeastFullMeaning(t.sizes, 1, 0);
  }

  /** Allocation, at any depth: the new pid is inside the range, was free, now finds the process; every
      other pid finds what it found before; counts stay exact and siblings stay even. */
  lemma {:induction false} AllocateIsAllocation(t: Tree, proc: Proc, lo: int, hi: int, root: bool)
    requires Shape(t, lo, hi, root) && Fits(t, lo, hi)
    ensures var (t', pid) := Allocate(t, proc, lo, hi); Allocated(t, t', proc, pid, lo, hi, root)
    decreases if Full(t) then 1 else 0, t
  {
    if !Full(t) {
      FillIsAllocation(t, proc, lo, hi, root);
    } else {
      var idx := LeastFrom(t.sizes, 1, 0);
      DescentReady(t, lo, hi, root);
      AllocateDescends(t, proc, lo, hi);
      hide Shape, Lookup, Allocated, Allocate, Fits, Attach;
      var lo', hi' := SubLo(t, lo, idx), SubHi(t, hi, idx);
      AllocateIsAllocation(Grown(t.subs[idx]), proc, lo', hi', false);
      var (sub, pid) := Allocate(Grown(t.subs[idx]), proc, lo', hi');
      DescendIsAllocation(t, proc, lo, hi, root, idx, sub, pid);
    }
  }

  // ---- how many allocations the range is wide enough for ----

  /** The span that leaves room for r levels of full blocks and one process in each block below them, and
      how many processes those hold. */
  function NeedSpan(r: nat): nat { if r == 0 then 0 else DIR_SIZE * (NeedSpan(r - 1) + 2) }

  function Capacity(r: nat): nat { if r == 0 then 1 else DIR_SIZE + DIR_SIZE * Capacity(r - 1) }

  lemma {:induction false} NeedSpanGrows(r: nat)
    ensures r > 0 ==> NeedSpan(r) >= DIR_SIZE
  {
  }

  lemma {:induction false} AllTaken(procs: seq<Option<Proc>>)
    requires forall i :: 0 <= i < |procs| ==> procs[i].Some?
    ensures Taken(procs) == |procs|
  {
    if procs != [] { AllTaken(procs[..|procs| - 1]); }
  }

  lemma {:induction false} SizesAtLeast(subs: seq<Tree>, m: nat)
    requires forall i :: 0 <= i < |subs| ==> Size(subs[i]) >= m
    ensures SizesOf(subs) >= |subs| * m
  {
    hide Size;
    if subs != [] {
      var n := |subs| - 1;
      SizesAtLeast(subs[..n], m);
      Nonlinear.Distribute(n, 1, m);
    }
  }

  /** The least-full subtree of a full block holds at most an eighth of what is below it. */
  lemma LeastIsSmall(t: Tree, lo: int, hi: int, root: bool, idx: nat, cap: nat)
    requires Shape(t, lo, hi, root) && Full(t) && idx < DIR_SIZE && Size(t) < DIR_SIZE + DIR_SIZE * cap
    requires forall j :: 0 <= j < DIR_SIZE ==> t.sizes[idx] <= t.sizes[j]
    ensures Size(t.subs[idx]) < cap
  {
    FirstOpenMeaning(t.procs, 0);
    AllTaken(t.procs);
    if Size(t.subs[idx]) >= cap {
      forall i | 0 <= i < DIR_SIZE ensures Size(t.subs[i]) >= cap {
        assert SubOk(t, lo, hi, i) && SubOk(t, lo, hi, idx);
      }
      SizesAtLeast(t.subs, cap);
    }
  }

  lemma {:induction false} SomeTaken(procs: seq<Option<Proc>>, k: nat)
    requires k < |procs| && procs[k].Some?
    ensures Taken(procs) > 0
  {
    if k < |procs| - 1 { SomeTaken(procs[..|procs| - 1], k); }
  }

  lemma {:induction false} RoomEnough(t: Tree, lo: int, hi: int, root: bool, r: nat)
    requires Shape(t, lo, hi, root) && hi - lo >= NeedSpan(r) && Size(t) < Capacity(r)
    ensures Fits(t, lo, hi)
    decreases r
  {
    NeedSpanGrows(r);
    FirstOpenMeaning(t.procs, 0);
    if r == 0 && FirstOpen(t.procs, 0) > 0 { SomeTaken(t.procs, 0); }
    if Full(t) {
      LeastFullMeaning(t.sizes, 1, 0);
      var idx := LeastFrom(t.sizes, 1, 0);
      assert SubOk(t, lo, hi, idx);
      var lo', hi' := SubLo(t, lo, idx), SubHi(t, hi, idx);
      SubRange(t, lo, hi, root, idx);
      var cap := if r == 0 then 0 else Capacity(r - 1);
      LeastIsSmall(t, lo, hi, root, idx, cap);
      assert r > 0;
      NeedSpanGrows(r - 1);
      assert hi' - lo' >= NeedSpan(r - 1);
      GrownSame(t.subs[idx], lo', hi');
      RoomEnough(Grown(t.subs[idx]), lo', hi', false, r - 1);
    }
  }

  /** The span from which r levels of blocks are the last that can divide. */
  function MaxSpan(r: nat): nat { if r == 0 then 7 else DIR_SIZE * (MaxSpan(r - 1) + 1) }

  lemma SlotGaps(lo: int, hi: int, i: nat)
    requires Roomy(lo, hi) && i < DIR_SIZE
    ensures i < DIR_SIZE - 1 ==> Slot(lo, hi, i + 1) - Slot(lo, hi, i) <= (hi - lo + 7) / DIR_SIZE
    ensures i == DIR_SIZE - 1 ==> hi - Slot(lo, hi, i) <= (hi - lo + 7) / DIR_SIZE
  {
    var d := hi - lo;
    SlotIs(lo, hi, i);
    SlotIs(lo, hi, i + 1);
    Nonlinear.Distribute(i, 1, d);
    EighthStep(i * d, d);
  }

  lemma SubSpanTop(t: Tree, lo: int, hi: int, root: bool, idx: nat)
    requires Shape(t, lo, hi, root) && Full(t) && idx < DIR_SIZE
    ensures SubHi(t, hi, idx) - SubLo(t, lo, idx) <= (hi - lo + 7) / DIR_SIZE - 1
  {
    hide SubOk;
    FirstOpenMeaning(t.procs, 0);
    SlotGaps(lo, hi, idx);
    SlotBounds(lo, hi, idx);
    if idx + 1 < DIR_SIZE { SlotBounds(lo, hi, idx + 1); }
  }

  lemma {:induction false} TakenAtMost(procs: seq<Option<Proc>>)
    ensures Taken(procs) <= |procs|
  {
    if procs != [] { TakenAtMost(procs[..|procs| - 1]); }
  }

  lemma {:induction false} TakenBelow(procs: seq<Option<Proc>>, k: nat)
    requires k < |procs| && procs[k].None?
    ensures Taken(procs) < |procs|
  {
    TakenAtMost(procs[..|procs| - 1]);
    if k < |procs| - 1 {
      TakenBelow(procs[..|procs| - 1], k);
    }
  }

  lemma {:induction false} SizesAtMost(subs: seq<Tree>, m: nat)
    requires forall i :: 0 <= i < |subs| ==> Size(subs[i]) <= m
    ensures SizesOf(subs) <= |subs| * m
  {
    hide Size;
    if subs != [] {
      var n := |subs| - 1;
      SizesAtMost(subs[..n], m);
      Nonlinear.Distribute(n, 1, m);
    }
  }

  lemma NothingInNull()
    ensures Size(Null) == 0
  {
  }

  lemma {:induction false} Split(subs: seq<Tree>, idx: nat)
    requires idx < |subs|
    ensures SizesOf(subs) == SizesOf(subs[..idx]) + Size(subs[idx]) + SizesOf(subs[idx + 1..])
    decreases |subs|
  {
    hide Size;
    var n := |subs| - 1;
    if idx < n {
      Split(subs[..n], idx);
      assert subs[..n][..idx] == subs[..idx];
      assert subs[idx + 1..][..n - idx - 1] == subs[..n][idx + 1..];
    } else {
      assert subs[idx + 1..] == [];
    }
  }

  lemma SevenOf(subs: seq<Tree>, idx: nat, m: nat)
    requires idx < |subs| == DIR_SIZE && subs[idx].Null? && forall i :: 0 <= i < |subs| ==> Size(subs[i]) <= m
    ensures SizesOf(subs) <= 7 * m
  {
    hide Size, SizesOf;
    NothingInNull();
    Split(subs, idx);
    SizesAtMost(subs[..idx], m);
    SizesAtMost(subs[idx + 1..], m);
    Nonlinear.Distribute(idx, 7 - idx, m);
  }

  /** Eight subtrees of at most one more than the least hold fewer than eight of the next size. */
  lemma LessThanAll(subs: seq<Tree>, idx: nat, least: nat)
    requires idx < |subs| == DIR_SIZE && Size(subs[idx]) == least
    requires forall i :: 0 <= i < |subs| ==> Size(subs[i]) <= least + 1
    ensures SizesOf(subs) < DIR_SIZE * (least + 1)
  {
    hide Size, SizesOf;
    SizesUpdate(subs, idx, Null);
    var rest := subs[idx := Null];
    forall i | 0 <= i < |rest| ensures Size(rest[i]) <= least + 1 {
      NothingInNull();
    }
    NothingInNull();
    SevenOf(rest, idx, least + 1);
  }

  /** With even siblings, the least-full subtree holds its eighth of what is below the block. */
  lemma LeastIsLarge(t: Tree, lo: int, hi: int, root: bool, idx: nat, cap: nat)
    requires Shape(t, lo, hi, root) && Full(t) && idx < DIR_SIZE && Size(t) >= DIR_SIZE + DIR_SIZE * cap
    ensures Size(t.subs[idx]) >= cap
  {
    FirstOpenMeaning(t.procs, 0);
    AllTaken(t.procs);
    assert SizesOf(t.subs) >= DIR_SIZE * cap;
    if Size(t.subs[idx]) < cap {
      var least := Size(t.subs[idx]);
      assert SubOk(t, lo, hi, idx);
      forall i | 0 <= i < DIR_SIZE ensures Size(t.subs[i]) <= least + 1 {
        assert SubOk(t, lo, hi, i);
      }
      LessThanAll(t.subs, idx, least);
    }
  }

  lemma {:induction false} CapacityGrows(r: nat)
    ensures Capacity(r) >= 1 && (r > 0 ==> Capacity(r) > DIR_SIZE)
  {
    if r > 0 { CapacityGrows(r - 1); }
  }

  lemma OpenSize(t: Tree, lo: int, hi: int, root: bool)
    requires Shape(t, lo, hi, root) && !Full(t)
    ensures Size(t) < DIR_SIZE && (Size(t) > 0 ==> FirstOpen(t.procs, 0) > 0)
  {
    hide SubOk;
    FirstOpenMeaning(t.procs, 0);
    TakenBelow(t.procs, FirstOpen(t.procs, 0));
    EmptySubs(t.subs);
    if FirstOpen(t.procs, 0) == 0 { NoneTaken(t.procs); }
  }

  /** A block too narrow to divide that already holds one. */
  lemma NarrowIsTaken(t: Tree, lo: int, hi: int, root: bool)
    requires Shape(t, lo, hi, root) && !Roomy(lo, hi) && Size(t) >= 1
    ensures !Full(t) && FirstOpen(t.procs, 0) == 1 && t.procs[0].Some? && t.pids[1] == -1
    ensures !root ==> t.pids[0] == lo
    ensures !Fits(t, lo, hi)
  {
    hide SubOk;
    FirstOpenMeaning(t.procs, 0);
    OpenSize(t, lo, hi, root);
    SlotIs(lo, hi, 0);
  }

  lemma NarrowRepeats(t: Tree, proc: Proc, lo: int, hi: int)
    requires Shape(t, lo, hi, false) && 0 <= hi - lo <= 7 && Size(t) >= 1
    ensures !Fits(t, lo, hi)
    ensures Allocate(t, proc, lo, hi).1 == lo && Lookup(t, lo).Some?
  {
    NarrowIsTaken(t, lo, hi, false);
    SlotIs(lo, hi, 1);
    assert Allocate(t, proc, lo, hi).1 == Slot(lo, hi, 1);
    FilledLookup(t, lo, hi, false, lo);
  }

  /** Once its levels are full, a tree has no room for one more, and the pid it hands out is taken. */
  lemma {:induction false} TooDeep(t: Tree, proc: Proc, lo: int, hi: int, root: bool, r: nat)
    requires Shape(t, lo, hi, root) && NeedSpan(r) <= hi - lo <= MaxSpan(r)
    requires Size(t) >= Capacity(r) && (root ==> r > 0)
    ensures !Fits(t, lo, hi)
    ensures var pid := Allocate(t, proc, lo, hi).1; lo <= pid <= hi && Lookup(t, pid).Some?
    decreases r
  {
    CapacityGrows(r);
    if r == 0 {
      NarrowRepeats(t, proc, lo, hi);
    } else {
      if !Full(t) { OpenSize(t, lo, hi, root); }
      LeastFullMeaning(t.sizes, 1, 0);
      var idx := LeastFrom(t.sizes, 1, 0);
      assert SubOk(t, lo, hi, idx);
      var lo', hi' := SubLo(t, lo, idx), SubHi(t, hi, idx);
      SubSpanTop(t, lo, hi, root, idx);
      SubRange(t, lo, hi, root, idx);
      CapacityGrows(r - 1);
      LeastIsLarge(t, lo, hi, root, idx, Capacity(r - 1));
      assert t.subs[idx].Block? && Grown(t.subs[idx]) == t.subs[idx];
      TooDeep(t.subs[idx], proc, lo', hi', false, r - 1);
      AllocateDescends(t, proc, lo, hi);
      var pid := Allocate(t.subs[idx], proc, lo', hi').1;
      hide Allocate, Shape;
      assert Between(t, pid, idx);
      ScanReaches(t, lo, hi, root, pid, 0, idx);
    }
  }

  // ---- whole runs ----

  /** The trees and pids of a run of pid_allocate calls on a new tree. */
  ghost predicate IsRun(trees: seq<Tree>, kproc: Proc, procs: seq<Proc>, pids: seq<int>)
  {
    && |trees| == |procs| + 1 == |pids| + 1
    && trees[0] == Create(Some(kproc))
    && (forall i :: 0 <= i < |trees| ==> trees[i].Block? && WellSized(trees[i]))
    && (forall i :: 0 <= i < |procs| ==> (trees[i + 1], pids[i]) == Allocate(trees[i], procs[i], PID_MIN, PID_MAX))
  }

  /** Every allocation so far found room. */
  ghost predicate AllFit(trees: seq<Tree>, n: nat)
    requires n <= |trees| && forall i :: 0 <= i < |trees| ==> trees[i].Block? && WellSized(trees[i])
  {
    forall i :: 0 <= i < n ==> Fits(trees[i], PID_MIN, PID_MAX)
  }

  lemma {:induction false} RunShape(trees: seq<Tree>, kproc: Proc, procs: seq<Proc>, pids: seq<int>, n: nat)
    requires IsRun(trees, kproc, procs, pids) && n <= |procs| && AllFit(trees, n)
    ensures Shape(trees[n], PID_MIN, PID_MAX, true) && Size(trees[n]) == n + 1
  {
    hide Shape, Lookup, Allocate, Size;
    if n == 0 {
      FreshShape(PID_MIN, PID_MAX, Some(kproc));
    } else {
      RunShape(trees, kproc, procs, pids, n - 1);
      AllocateIsAllocation(trees[n - 1], procs[n - 1], PID_MIN, PID_MAX, true);
      assert (trees[n], pids[n - 1]) == Allocate(trees[n - 1], procs[n - 1], PID_MIN, PID_MAX);
    }
  }

  lemma RunStep(trees: seq<Tree>, kproc: Proc, procs: seq<Proc>, pids: seq<int>, n: nat)
    requires IsRun(trees, kproc, procs, pids) && n < |procs| && AllFit(trees, n + 1)
    ensures Allocated(trees[n], trees[n + 1], procs[n], pids[n], PID_MIN, PID_MAX, true)
  {
    RunShape(trees, kproc, procs, pids, n);
    AllocateIsAllocation(trees[n], procs[n], PID_MIN, PID_MAX, true);
    assert (trees[n + 1], pids[n]) == Allocate(trees[n], procs[n], PID_MIN, PID_MAX);
  }

  /** The plain map a run of allocations is meant to build. */
  function Directory(kproc: Proc, procs: seq<Proc>, pids: seq<int>): map<int, Proc>
    requires |procs| == |pids|
  {
    if procs == [] then map[0 := kproc]
    else
      var n := |procs| - 1;
      Directory(kproc, procs[..n], pids[..n])[pids[n] := procs[n]]
  }

  lemma NewTreeLookup(kproc: Proc, q: int)
    ensures WellSized(Create(Some(kproc))) && Lookup(Create(Some(kproc)), q) == if q == 0 then Some(kproc) else None
  {
    FreshShape(PID_MIN, PID_MAX, Some(kproc));
    var t := Create(Some(kproc));
    assert FirstOpen(t.procs, 0) == 1 by { assert FirstOpen(t.procs, 1) == 1; }
    hide Shape, Lookup;
    FilledLookup(t, PID_MIN, PID_MAX, true, q);
  }

  /** While there is room, every pid finds just what the plain map holds for it. */
  lemma {:induction false} LookupAgrees(trees: seq<Tree>, kproc: Proc, procs: seq<Proc>, pids: seq<int>, n: nat, q: int)
    requires IsRun(trees, kproc, procs, pids) && n <= |procs| && AllFit(trees, n)
    ensures var d := Directory(kproc, procs[..n], pids[..n]); Lookup(trees[n], q) == if q in d then Some(d[q]) else None
  {
    hide Shape, Lookup, Allocate, Fits;
    if n == 0 {
      NewTreeLookup(kproc, q);
    } else {
      LookupAgrees(trees, kproc, procs, pids, n - 1, q);
      RunStep(trees, kproc, procs, pids, n - 1);
      assert procs[..n][..n - 1] == procs[..n - 1] && pids[..n][..n - 1] == pids[..n - 1];
    }
  }

  lemma {:induction false} InDirectory(kproc: Proc, procs: seq<Proc>, pids: seq<int>, i: nat)
    requires i < |procs| == |pids|
    ensures pids[i] in Directory(kproc, procs, pids)
  {
    var n := |procs| - 1;
    if i < n {
      InDirectory(kproc, procs[..n], pids[..n], i);
      assert pids[..n][i] == pids[i];
    }
  }

  /** While there is room no pid is handed out twice, each is in the legal range, and none is the kernel's. */
  lemma NewPidIsNew(trees: seq<Tree>, kproc: Proc, procs: seq<Proc>, pids: seq<int>, i: nat, j: nat)
    requires IsRun(trees, kproc, procs, pids) && i < j < |procs| && AllFit(trees, j + 1)
    ensures pids[i] != pids[j] && PID_MIN <= pids[i] <= PID_MAX && PID_MIN <= pids[j] <= PID_MAX
  {
    RunStep(trees, kproc, procs, pids, i);
    RunStep(trees, kproc, procs, pids, j);
    LookupAgrees(trees, kproc, procs, pids, j, pids[j]);
    InDirectory(kproc, procs[..j], pids[..j], i);
    assert pids[..j][i] == pids[i];
  }

  lemma Levels()
    ensures Capacity(4) == 8776 && NeedSpan(4) == 9360 && MaxSpan(4) == 33352
  {
    assert Capacity(0) == 1 && Capacity(1) == 16 && Capacity(2) == 136 && Capacity(3) == 1096;
    assert NeedSpan(0) == 0 && NeedSpan(1) == 16 && NeedSpan(2) == 144 && NeedSpan(3) == 1168;
    assert MaxSpan(0) == 7 && MaxSpan(1) == 64 && MaxSpan(2) == 520 && MaxSpan(3) == 4168;
  }

  /** The first 8775 allocations fill four levels of blocks and put one process into each block of the
      fifth, and they all find room. */
  lemma {:induction false} FirstAllocationsFit(trees: seq<Tree>, kproc: Proc, procs: seq<Proc>, pids: seq<int>, n: nat)
    requires IsRun(trees, kproc, procs, pids) && n <= |procs| && n <= 8775
    ensures AllFit(trees, n)
  {
    if n > 0 {
      FirstAllocationsFit(trees, kproc, procs, pids, n - 1);
      RunShape(trees, kproc, procs, pids, n - 1);
      Levels();
      RoomEnough(trees[n - 1], PID_MIN, PID_MAX, true, 4);
    }
  }

  lemma {:induction false} FromDirectory(kproc: Proc, procs: seq<Proc>, pids: seq<int>, q: int)
    requires |procs| == |pids| && q in Directory(kproc, procs, pids) && q != 0
    ensures exists i :: 0 <= i < |pids| && pids[i] == q
    decreases |procs|
  {
    var n := |procs| - 1;
    if procs != [] && pids[n] != q {
      FromDirectory(kproc, procs[..n], pids[..n], q);
      var i :| 0 <= i < n && pids[..n][i] == q;
      assert pids[i] == q;
    }
  }

  /** Allocation 8776 gets a pid that an earlier one has. */
  lemma NextIsTaken(trees: seq<Tree>, kproc: Proc, procs: seq<Proc>, pids: seq<int>)
    requires IsRun(trees, kproc, procs, pids) && |procs| > 8775
    ensures exists i :: 0 <= i < 8775 && pids[i] == pids[8775]
  {
    FirstAllocationsFit(trees, kproc, procs, pids, 8775);
    RunShape(trees, kproc, procs, pids, 8775);
    Levels();
    TooDeep(trees[8775], procs[8775], PID_MIN, PID_MAX, true, 4);
    assert (trees[8775 + 1], pids[8775]) == Allocate(trees[8775], procs[8775], PID_MIN, PID_MAX);
    LookupAgrees(trees, kproc, procs, pids, 8775, pids[8775]);
    FromDirectory(kproc, procs[..8775], pids[..8775], pids[8775]);
  }

  lemma Lengths(trees: seq<Tree>, kproc: Proc, procs: seq<Proc>, pids: seq<int>)
    requires IsRun(trees, kproc, procs, pids)
    ensures |trees| == |procs| + 1 == |pids| + 1
    ensures forall i :: 0 <= i < |trees| ==> trees[i].Block? && WellSized(trees[i])
  {
  }

  /** The pids of a run are all different exactly when it makes no more than 8775 allocations. */
  lemma PidsAreDistinctIff(trees: seq<Tree>, kproc: Proc, procs: seq<Proc>, pids: seq<int>)
    requires IsRun(trees, kproc, procs, pids)
    ensures Distinct(pids) <==> |procs| <= 8775
    ensures |procs| <= 8775 ==> forall i :: 0 <= i < |pids| ==> PID_MIN <= pids[i] <= PID_MAX
  {
    hide IsRun;
    Lengths(trees, kproc, procs, pids);
    if |procs| <= 8775 {
      forall i, j | 0 <= i < j < |pids| ensures pids[i] != pids[j] {
        FirstAllocationsFit(trees, kproc, procs, pids, j + 1);
        NewPidIsNew(trees, kproc, procs, pids, i, j);
      }
      forall i | 0 <= i < |pids| ensures PID_MIN <= pids[i] <= PID_MAX {
        FirstAllocationsFit(trees, kproc, procs, pids, i + 1);
        RunStep(trees, kproc, procs, pids, i);
      }
    } else {
      NextIsTaken(trees, kproc, procs, pids);
    }
  }

  /** While a run has found room so far, it finds room again exactly when fewer than 8775 were placed. */
  lemma RoomIffFew(trees: seq<Tree>, kproc: Proc, procs: seq<Proc>, pids: seq<int>, n: nat)
    requires IsRun(trees, kproc, procs, pids) && n < |procs| && AllFit(trees, n)
    ensures Fits(trees[n], PID_MIN, PID_MAX) <==> n < 8775
  {
    if n < 8775 {
      FirstAllocationsFit(trees, kproc, procs, pids, n + 1);
    } else {
      RunShape(trees, kproc, procs, pids, 8775);
      Levels();
      TooDeep(trees[8775], procs[8775], PID_MIN, PID_MAX, true, 4);
    }
  }

  /** Through the first 8775 allocations every pid finds just what the plain map holds for it. */
  lemma LookupAgreesUpTo(trees: seq<Tree>, kproc: Proc, procs: seq<Proc>, pids: seq<int>, n: nat, q: int)
    requires IsRun(trees, kproc, procs, pids) && n <= |procs| && n <= 8775
    ensures var d := Directory(kproc, procs[..n], pids[..n]); Lookup(trees[n], q) == if q in d then Some(d[q]) else None
  {
    FirstAllocationsFit(trees, kproc, procs, pids, n);
    LookupAgrees(trees, kproc, procs, pids, n, q);
  }

  /** Two processes put one after the other into a new block get the same pid exactly when the block's
      ends are less than eight apart. */
  lemma NarrowBlockRepeats(p1: Proc, p2: Proc, lo: int, hi: int)
    requires lo > 0
    ensures
      var (t1, pid1) := Allocate(Create(None), p1, lo, hi);
      t1.Block? && WellSized(t1) && (Allocate(t1, p2, lo, hi).1 == pid1 <==> -8 < hi - lo < 8)
  {
    var t := Create(None);
    FreshOpens();
    var (t1, pid1) := Allocate(t, p1, lo, hi);
    assert t1 == t.(pids := t.pids[0 := lo], procs := t.procs[0 := Some(p1)]);
    assert FirstOpen(t1.procs, 0) == 1 by { assert FirstOpen(t1.procs, 1) == 1; }
    var d := hi - lo;
    assert TruncQuot(1 * d, 8) == 0 <==> -8 < d < 8;
  }

  // ---- the loops ----

  method PidAllocateHelper(t: Tree, proc: Proc, lo: int, hi: int) returns (t': Tree, pid: int)
    requires t.Block? && WellSized(t)
    ensures (t', pid) == Allocate(t, proc, lo, hi)
    decreases if Full(t) then 1 else 0, t
  {
    var i := 0;
    while i < DIR_SIZE
      invariant i <= DIR_SIZE && FirstOpen(t.procs, i) == FirstOpen(t.procs, 0)
    {
      if t.procs[i].None? {
        pid := Slot(lo, hi, i);
        if t.pids[i] != -1 {
          pid := t.pids[i];
        }
        t' := t.(pids := t.pids[i := pid], procs := t.procs[i := Some(proc)]);
        return;
      }
      i := i + 1;
    }
    var idx := 0;
    i := 1;
    while i < DIR_SIZE
      invariant 1 <= i <= DIR_SIZE && idx < DIR_SIZE && LeastFrom(t.sizes, i, idx) == LeastFrom(t.sizes, 1, 0)
    {
      if t.sizes[i] < t.sizes[idx] {
        idx := i;
      }
      i := i + 1;
    }
    assert WellSized(t.subs[idx]);
    FreshOpens();
    var sub;
    sub, pid := PidAllocateHelper(Grown(t.subs[idx]), proc, SubLo(t, lo, idx), SubHi(t, hi, idx));
    t' := t.(sizes := t.sizes[idx := t.sizes[idx] + 1], subs := t.subs[idx := sub]);
  }

  method PidGetProc(t: Tree, pid: int) returns (r: Option<Proc>)
    requires WellSized(t)
    ensures r == Lookup(t, pid)
    decreases t
  {
    if t.Null? {
      return None;
    }
    var i := 0;
    while i < DIR_SIZE
      invariant i <= DIR_SIZE && LookupFrom(t, pid, i) == LookupFrom(t, pid, 0)
    {
      if pid == t.pids[i] {
        return t.procs[i];
      } else if pid < t.pids[i] {
        if i == 0 {
          return None;
        }
        r := PidGetProc(t.subs[i - 1], pid);
        return;
      }
      i := i + 1;
    }
    r := PidGetProc(t.subs[DIR_SIZE - 1], pid);
  }
}
