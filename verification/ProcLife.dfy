/** kern/proc/proc.c and kern/syscall/process_syscalls.c: the parent/child bookkeeping of fork, exit
    and waitpid.  A step is one critical section of pids->lock; cv_wait ends one and its return begins
    another.  Every process has one thread that waits, as in the menu and in user processes. */
module ProcLife {
  import opened Collections

  type Pid = int
  const NONE: Pid := -1

  /** struct proc.  `serial` tells apart records that used the same pid one after the other. */
  datatype Proc = Proc(serial: nat, parent: Pid, waitpid: Pid, exited: bool, exitVal: int, children: seq<Pid>,
      cvAlive: bool)

  /** The thread of an unexited process: outside sys_waitpid, asleep in cv_wait, or past it and about
      to look at child->exited again.  The serial is that of the record the pointer `child` is to. */
  datatype Thread = Running | Asleep(child: Pid, serial: nat) | Woken(child: Pid, serial: nat)

  /** What a completed sys_waitpid reported. */
  datatype Delivery = Delivery(waiter: Pid, serial: nat, code: int)

  datatype State = State(
    procs: map<Pid, Proc>,          // the pid directory
    threads: map<Pid, Thread>,
    next: nat,                      // the next serial number
    codes: map<nat, int>,           // the argument of exit, for every process that has exited
    destroyed: seq<nat>,            // records given to proc_destroy
    delivered: seq<Delivery>)

  datatype Errno = EINVAL | EFAULT | ESRCH | ECHILD

  datatype Step =
    | Fork(p: Pid, newpid: Pid)               // sys_fork; with p == 0, proc_create_runprogram
    | Exit(p: Pid, code: int)                 // sys__exit
    | Wait(p: Pid, pid: Pid, options: int, badStatus: bool)
    | Resume(p: Pid)                          // sys_waitpid after cv_wait returns

  // -------------------------------------------------------------- the operations

  /** pid_remove_proc and kfree. */
  function Destroy(s: State, p: Pid): State
    requires p in s.procs
  {
    s.(procs := s.procs - {p}, destroyed := s.destroyed + [s.procs[p].serial])
  }

  /** proc_exit's loop: an exited child will never be waited for, any other becomes an orphan. */
  function Orphan(s: State, children: seq<Pid>): State
    decreases |children|
  {
    if children == [] then s
    else
      var c := children[0];
      var s1 :=
        if c !in s.procs then s
        else if s.procs[c].exited then Destroy(s, c)
        else s.(procs := s.procs[c := s.procs[c].(parent := NONE)]);
      Orphan(s1, children[1..])
  }

  /** cv_broadcast on the parent's condition variable. */
  function WakeWaiter(s: State, p: Pid): State
  {
    if p in s.threads && s.threads[p].Asleep?
    then s.(threads := s.threads[p := Woken(s.threads[p].child, s.threads[p].serial)]) else s
  }

  function ProcExit(s: State, p: Pid, code: int): State
    requires p in s.procs
  {
    var s1 := Orphan(s, s.procs[p].children);
    if p !in s1.procs then s1
    else
      var me := s1.procs[p].(children := [], cvAlive := false);
      var s2 := s1.(procs := s1.procs[p := me]);
      if me.parent == NONE || me.parent !in s2.procs then Destroy(s2, p)
      else
        var s3 := s2.(procs := s2.procs[p := me.(exited := true, exitVal := code)]);
        if s3.procs[me.parent].waitpid == p then WakeWaiter(s3, me.parent) else s3
  }

  /** The list as the loop leaves it, `i` elements having gone from the front to the back. */
  function Rotate(l: seq<Pid>, val: Pid, i: nat): seq<Pid>
    requires 1 <= i <= |l|
    decreases |l| - i
  {
    if i == |l| then l
    else if l[i] == l[0] then l[i..] + l[..i]
    else if l[i] == val then l[i + 1..] + l[..i]
    else Rotate(l, val, i + 1)
  }

  /** proc_remlist: rotate through the list until `val`, or the value it began with, comes up. */
  function Remlist(l: seq<Pid>, val: Pid): seq<Pid>
  {
    if l == [] then []
    else if l[0] == val || |l| == 1 then l[1..]
    else Rotate(l, val, 1)
  }

  function WaitError(s: State, p: Pid, pid: Pid, options: int, badStatus: bool): (e: seq<Errno>)
    ensures e == [] ==> pid in s.procs && s.procs[pid].parent == p
  {
    if options != 0 then [EINVAL]
    else if badStatus then [EFAULT]
    else if pid !in s.procs then [ESRCH]
    else if s.procs[pid].parent != p then [ECHILD]
    else []
  }

  /** The tail of sys_waitpid once child->exited is seen: report, destroy the child, forget it. */
  function Reap(s: State, p: Pid, pid: Pid): State
    requires p in s.procs && pid in s.procs
  {
    var child := s.procs[pid];
    var s1 := s.(procs := s.procs[p := s.procs[p].(waitpid := NONE)],
                 threads := s.threads[p := Running],
                 delivered := s.delivered + [Delivery(p, child.serial, child.exitVal)]);
    var s2 := Destroy(s1, pid);
    if p in s2.procs then s2.(procs := s2.procs[p := s2.procs[p].(children := Remlist(s2.procs[p].children, pid))])
    else s2
  }

  /** One turn of the waiting loop. */
  function TestChild(s: State, p: Pid, pid: Pid): State
    requires p in s.procs && pid in s.procs
  {
    if s.procs[pid].exited then Reap(s, p, pid)
    else s.(threads := s.threads[p := Asleep(pid, s.procs[pid].serial)])
  }

  predicate Enabled(s: State, step: Step)
  {
    && step.p in s.procs && step.p in s.threads
    && match step
       case Fork(p, newpid) => s.threads[p].Running? && newpid > 0 && newpid !in s.procs
       case Exit(p, _) => s.threads[p].Running? && p != 0
       case Wait(p, _, _, _) => s.threads[p].Running?
       case Resume(p) => s.threads[p].Woken? && s.threads[p].child in s.procs
  }

  function After(s: State, step: Step): State
    requires Enabled(s, step)
  {
    match step
    case Fork(p, newpid) =>
      var me := s.procs[p];
      s.(procs :=
           s.procs[newpid := Proc(s.next, p, NONE, false, 0, [], true)][p := me.(children := me.children + [newpid])],
         threads := s.threads[newpid := Running], next := s.next + 1)
    case Exit(p, code) =>
      var s1 := ProcExit(s, p, code);
      s1.(threads := s1.threads - {p}, codes := s1.codes[s.procs[p].serial := code])
    case Wait(p, pid, options, badStatus) =>
      if WaitError(s, p, pid, options, badStatus) != [] then s
      else TestChild(s.(procs := s.procs[p := s.procs[p].(waitpid := pid)]), p, pid)
    case Resume(p) => TestChild(s, p, s.threads[p].child)
  }

  ghost predicate Initial(s: State)
  {
    s == State(map[0 := Proc(0, NONE, NONE, false, 0, [], true)], map[0 := Running], 1, map[], [], [])
  }

  ghost predicate IsRun(run: seq<State>, steps: seq<Step>)
  {
    && |run| == |steps| + 1 && Initial(run[0])
    && forall i :: 0 <= i < |steps| ==> Enabled(run[i], steps[i]) && run[i + 1] == After(run[i], steps[i])
  }

  // ------------------------------------------------------------------ invariant

  /** A child list has no doubles, and everything on it is there and names the owner as its parent. */
  ghost predicate ListOk(procs: map<Pid, Proc>, p: Pid)
    requires p in procs
  {
    Distinct(procs[p].children) && forall c :: c in procs[p].children ==> c in procs && procs[c].parent == p
  }

  /** A parent is there, has not exited, and has the child on its list. */
  ghost predicate ParentOk(procs: map<Pid, Proc>, c: Pid)
    requires c in procs
  {
    var p := procs[c].parent;
    p != NONE ==> p != c && p in procs && !procs[p].exited && c in procs[p].children
  }

  /** Parent pointers and child lists mirror each other, and only the unexited have children. */
  ghost predicate FamilyOk(procs: map<Pid, Proc>)
  {
    && (forall p :: p in procs ==> ListOk(procs, p))
    && (forall c :: c in procs ==> ParentOk(procs, c))
    && NONE !in procs
    && 0 in procs && !procs[0].exited && procs[0].parent == NONE
  }

  /** An exited process that is still listed has a parent that can wait for it. */
  ghost predicate ZombiesOk(procs: map<Pid, Proc>)
  {
    forall p :: p in procs ==>
      && (procs[p].exited ==> procs[p].parent != NONE && procs[p].children == [] && !procs[p].cvAlive)
      && (!procs[p].exited ==> procs[p].cvAlive)
  }

  /** A sleeper's child is there, is its own, and has not exited; a woken one's is there, its own, and has. */
  ghost predicate WaitOk(s: State, p: Pid, t: Thread)
    requires p in s.procs
  {
    match t
    case Running => s.procs[p].waitpid == NONE
    case Asleep(c, n) =>
      && s.procs[p].waitpid == c && c in s.procs && s.procs[c].serial == n && s.procs[c].parent == p
      && !s.procs[c].exited
    case Woken(c, n) =>
      && s.procs[p].waitpid == c && c in s.procs && s.procs[c].serial == n && s.procs[c].parent == p
      && s.procs[c].exited
  }

  ghost predicate ThreadsOk(s: State)
  {
    && (forall p :: p in s.threads <==> p in s.procs && !s.procs[p].exited)
    && (forall p :: p in s.threads ==> WaitOk(s, p, s.threads[p]))
  }

  ghost predicate SerialsOk(s: State)
  {
    && (forall p :: p in s.procs ==> s.procs[p].serial < s.next && s.procs[p].serial !in s.destroyed)
    && (forall p, q :: p in s.procs && q in s.procs && s.procs[p].serial == s.procs[q].serial ==> p == q)
    && (forall n :: n in s.destroyed ==> n < s.next)
    && (forall n :: n in s.codes ==> n < s.next)
    && Distinct(s.destroyed)
  }

  ghost predicate CodesOk(s: State)
  {
    && (forall p :: p in s.procs ==> (s.procs[p].exited <==> s.procs[p].serial in s.codes))
    && (forall p :: p in s.procs && s.procs[p].exited ==> s.procs[p].exitVal == s.codes[s.procs[p].serial])
    && (forall i :: 0 <= i < |s.delivered| ==>
        s.delivered[i].serial in s.codes && s.delivered[i].code == s.codes[s.delivered[i].serial])
  }

  ghost predicate Inv(s: State)
  {
    FamilyOk(s.procs) && ZombiesOk(s.procs) && ThreadsOk(s) && SerialsOk(s) && CodesOk(s)
  }

  // -------------------------------------------------------------- child lists

  lemma {:induction false} RotateMeaning(l: seq<Pid>, val: Pid, i: nat)
    requires Distinct(l) && 1 <= i <= |l| && val !in l[..i]
    ensures var r := Rotate(l, val, i);
      if val in l then Distinct(r) && (forall x :: x in r <==> x in l && x != val) else r == l
    decreases |l| - i
  {
    if i < |l| && l[i] != val {
      assert l[..i + 1] == l[..i] + [l[i]];
      RotateMeaning(l, val, i + 1);
    } else if i < |l| {
      var r := l[i + 1..] + l[..i];
      assert l == l[..i] + [val] + l[i + 1..];
      assert val !in l[i + 1..];
      assert Distinct(r);
    } else {
      assert l[..i] == l;
    }
  }

  /** Taking a listed child off the list removes that child and no other, in whatever order. */
  lemma RemlistRemoves(l: seq<Pid>, val: Pid)
    requires Distinct(l) && val in l
    ensures Distinct(Remlist(l, val)) && forall x :: x in Remlist(l, val) <==> x in l && x != val
  {
    if l[0] == val {
      assert l == [val] + l[1..];
      assert val !in l[1..];
    } else {
      RotateMeaning(l, val, 1);
    }
  }

  /** proc_remlist keeps every other element exactly when `val` is listed or the list is not a single
      element: a lone element is dropped whatever its value. */
  lemma RemlistKeepsOthers(l: seq<Pid>, val: Pid)
    requires Distinct(l)
    ensures (forall x :: x in l && x != val ==> x in Remlist(l, val)) <==> (val in l || |l| != 1)
  {
    if val in l {
      RemlistRemoves(l, val);
    } else if |l| >= 2 {
      RotateMeaning(l, val, 1);
    } else if |l| == 1 {
      assert l[0] in l && l[0] != val && l[0] !in Remlist(l, val);
    }
  }

  // ------------------------------------------------------------------ orphaning

  lemma {:induction false} OrphanMeaning(s: State, cs: seq<Pid>)
    requires Distinct(cs)
    ensures var s' := Orphan(s, cs);
      && s' == s.(procs := s'.procs, destroyed := s'.destroyed)
      && (forall x :: x in s'.procs <==> x in s.procs && !(x in cs && s.procs[x].exited))
      && (forall x :: x in s'.procs ==> s'.procs[x] == if x in cs then s.procs[x].(parent := NONE) else s.procs[x])
    decreases |cs|
  {
    if cs != [] {
      var c, rest := cs[0], cs[1..];
      assert forall x :: x in cs <==> x == c || x in rest;
      assert c !in rest;
      var s1 :=
        if c !in s.procs then s
        else if s.procs[c].exited then Destroy(s, c)
        else s.(procs := s.procs[c := s.procs[c].(parent := NONE)]);
      OrphanMeaning(s1, rest);
    }
  }

  lemma DestroySerials(s: State, p: Pid)
    requires SerialsOk(s) && p in s.procs
    ensures SerialsOk(Destroy(s, p))
  {
    var d := s.destroyed + [s.procs[p].serial];
    assert forall n :: n in d <==> n in s.destroyed || n == s.procs[p].serial;
  }

  /** Changing anything but the serial of a record. */
  lemma UpdateSerials(s: State, p: Pid, r: Proc)
    requires SerialsOk(s) && p in s.procs && r.serial == s.procs[p].serial
    ensures SerialsOk(s.(procs := s.procs[p := r]))
  {
  }

  lemma {:induction false} OrphanSerials(s: State, cs: seq<Pid>)
    requires SerialsOk(s)
    ensures SerialsOk(Orphan(s, cs))
    decreases |cs|
  {
    hide SerialsOk;
    if cs != [] {
      var c := cs[0];
      if c !in s.procs {
        OrphanSerials(s, cs[1..]);
      } else if s.procs[c].exited {
        DestroySerials(s, c);
        OrphanSerials(Destroy(s, c), cs[1..]);
      } else {
        UpdateSerials(s, c, s.procs[c].(parent := NONE));
        OrphanSerials(s.(procs := s.procs[c := s.procs[c].(parent := NONE)]), cs[1..]);
      }
    }
  }

  // --------------------------------------------------------------------- exit

  /** The directory before and after proc_exit of p: exited children gone, the others orphaned, and p gone
      too if it has no parent, else marked. */
  ghost predicate Exited(procs: map<Pid, Proc>, procs': map<Pid, Proc>, p: Pid, code: int)
    requires p in procs
  {
    && (forall x :: x in procs' <==>
        x in procs && !(procs[x].parent == p && procs[x].exited) && !(x == p && procs[p].parent == NONE))
    && (forall x :: x in procs' && x != p ==>
        procs'[x] == if procs[x].parent == p then procs[x].(parent := NONE) else procs[x])
    && (p in procs' ==>
        procs'[p] == procs[p].(children := [], cvAlive := false, exited := true, exitVal := code))
  }

  lemma ChildrenAre(procs: map<Pid, Proc>, p: Pid)
    requires FamilyOk(procs) && p in procs
    ensures Distinct(procs[p].children) && p !in procs[p].children
    ensures forall x :: x in procs ==> (x in procs[p].children <==> procs[x].parent == p)
    ensures var q := procs[p].parent; q != NONE ==> q in procs && q != p && !procs[q].exited
  {
    hide Distinct;
    assert ListOk(procs, p) && ParentOk(procs, p);
    forall x | x in procs ensures x in procs[p].children <==> procs[x].parent == p {
      assert ParentOk(procs, x);
    }
  }

  /** What a sys_waitpid call can be refused for, in terms of the caller's list of children. */
  ghost predicate RefusedFor(s: State, p: Pid, pid: Pid, options: int, badStatus: bool, e: seq<Errno>)
    requires p in s.procs
  {
    && (e == [EINVAL] <==> options != 0)
    && (e == [EFAULT] <==> options == 0 && badStatus)
    && (e == [ESRCH] <==> options == 0 && !badStatus && pid !in s.procs)
    && (e == [ECHILD] <==> options == 0 && !badStatus && pid in s.procs && pid !in s.procs[p].children)
    && (e == [] <==> options == 0 && !badStatus && pid in s.procs[p].children)
  }

  lemma WaitErrorMeaning(s: State, p: Pid, pid: Pid, options: int, badStatus: bool)
    requires FamilyOk(s.procs) && p in s.procs
    ensures RefusedFor(s, p, pid, options, badStatus, WaitError(s, p, pid, options, badStatus))
  {
    ChildrenAre(s.procs, p);
    assert ListOk(s.procs, p);
    hide FamilyOk, Distinct;
  }

  lemma WakeKeepsProcs(s: State, p: Pid)
    ensures WakeWaiter(s, p) == s.(threads := WakeWaiter(s, p).threads)
  {
  }

  /** The record marked, before the parent is woken. */
  function ProcExited(s: State, p: Pid, code: int): State
    requires p in s.procs
  {
    s.(procs := s.procs[p := s.procs[p].(children := [], cvAlive := false, exited := true, exitVal := code)])
  }

  lemma ExitDirectory(s: State, p: Pid, code: int)
    requires FamilyOk(s.procs) && p in s.procs
    ensures Exited(s.procs, ProcExit(s, p, code).procs, p, code)
  {
    ChildrenAre(s.procs, p);
    hide Orphan, FamilyOk, Distinct;
    OrphanMeaning(s, s.procs[p].children);
    var s1 := Orphan(s, s.procs[p].children);
    assert p in s1.procs && s1.procs[p] == s.procs[p];
    hide WakeWaiter;
    WakeKeepsProcs(ProcExited(s1, p, code), s.procs[p].parent);
  }

  lemma ExitElsewhere(s: State, p: Pid, code: int)
    requires FamilyOk(s.procs) && p in s.procs
    ensures var s' := ProcExit(s, p, code); var par := s.procs[p].parent;
      && s'.threads == (if par != NONE && s.procs[par].waitpid == p then WakeWaiter(s, par).threads else s.threads)
      && s'.next == s.next && s'.codes == s.codes && s'.delivered == s.delivered
  {
    ChildrenAre(s.procs, p);
    hide Orphan, FamilyOk, Distinct;
    OrphanMeaning(s, s.procs[p].children);
  }

  /** proc_exit: the directory, and the waiter of an exiting child woken. */
  lemma ExitMeaning(s: State, p: Pid, code: int)
    requires FamilyOk(s.procs) && p in s.procs
    ensures Exited(s.procs, ProcExit(s, p, code).procs, p, code)
    ensures var s' := ProcExit(s, p, code); var par := s.procs[p].parent;
      && (par != NONE ==> par in s.procs)
      && s'.threads == (if par != NONE && s.procs[par].waitpid == p then WakeWaiter(s, par).threads else s.threads)
      && s'.next == s.next && s'.codes == s.codes && s'.delivered == s.delivered
  {
    ChildrenAre(s.procs, p);
    hide ProcExit, Exited, WakeWaiter, FamilyOk;
    ExitDirectory(s, p, code);
    ExitElsewhere(s, p, code);
  }

  lemma NoneDistinct<T>()
    ensures Distinct<T>([])
  {
  }

  lemma ExitList(procs: map<Pid, Proc>, procs': map<Pid, Proc>, p: Pid, code: int, x: Pid)
    requires FamilyOk(procs) && ZombiesOk(procs) && p in procs && Exited(procs, procs', p, code) && x in procs'
    ensures ListOk(procs', x)
  {
    hide Distinct;
    NoneDistinct<Pid>();
    assert ListOk(procs, x);
    if x != p {
      forall c | c in procs'[x].children ensures c in procs' && procs'[c].parent == x {
        assert c in procs[x].children && procs[c].parent == x;
        assert ParentOk(procs, c);
      }
    }
  }

  lemma ExitParent(procs: map<Pid, Proc>, procs': map<Pid, Proc>, p: Pid, code: int, c: Pid)
    requires FamilyOk(procs) && p in procs && !procs[p].exited && Exited(procs, procs', p, code) && c in procs'
    ensures ParentOk(procs', c)
  {
    assert ParentOk(procs, c);
    hide FamilyOk, ListOk;
    var q := procs'[c].parent;
    if q != NONE {
      assert q == procs[c].parent && q != p;
    }
  }

  lemma ExitFamily(procs: map<Pid, Proc>, procs': map<Pid, Proc>, p: Pid, code: int)
    requires FamilyOk(procs) && ZombiesOk(procs) && p in procs && !procs[p].exited && p != 0
    requires Exited(procs, procs', p, code)
    ensures FamilyOk(procs')
  {
    hide ListOk, ParentOk, ZombiesOk;
    forall x | x in procs' ensures ListOk(procs', x) {
      ExitList(procs, procs', p, code, x);
    }
    forall c | c in procs' ensures ParentOk(procs', c) {
      ExitParent(procs, procs', p, code, c);
    }
  }

  lemma ExitZombies(procs: map<Pid, Proc>, procs': map<Pid, Proc>, p: Pid, code: int)
    requires FamilyOk(procs) && ZombiesOk(procs) && p in procs && !procs[p].exited && Exited(procs, procs', p, code)
    ensures ZombiesOk(procs')
  {
    hide ListOk, ParentOk;
    forall x | x in procs'
      ensures procs'[x].exited ==> procs'[x].parent != NONE && procs'[x].children == [] && !procs'[x].cvAlive
      ensures !procs'[x].exited ==> procs'[x].cvAlive
    {
      assert x != p ==> procs[x].exited == procs'[x].exited;
    }
  }

  lemma ExitKeepsWaited(s: State, procs': map<Pid, Proc>, p: Pid, code: int, q: Pid)
    requires q in s.procs && q != NONE && !s.procs[q].exited && q != p && p in s.procs
    requires Exited(s.procs, procs', p, code)
    requires q in s.threads && WaitOk(s, q, s.threads[q])
    ensures q in procs' && procs'[q].waitpid == s.procs[q].waitpid
    ensures
      var t := s.threads[q];
      !t.Running? ==> t.child in procs' && procs'[t.child].serial == t.serial && procs'[t.child].parent == q
    ensures var t := s.threads[q]; t.Asleep? ==> procs'[t.child].exited == (t.child == p)
    ensures var t := s.threads[q]; t.Woken? ==> procs'[t.child].exited
  {
    var t := s.threads[q];
    if !t.Running? {
      assert s.procs[t.child].parent == q;
    }
  }

  /** The child a thread waits for: still there, or gone only to have woken the thread. */
  lemma ExitWait(s: State, p: Pid, code: int, q: Pid)
    requires FamilyOk(s.procs) && ThreadsOk(s) && Enabled(s, Exit(p, code)) && q in s.threads && q != p
    ensures
      var s' := After(s, Exit(p, code));
      q in s'.threads && q in s'.procs && WaitOk(s', q, s'.threads[q])
  {
    ExitMeaning(s, p, code);
    assert q in s.procs && !s.procs[q].exited && WaitOk(s, q, s.threads[q]);
    var procs' := ProcExit(s, p, code).procs;
    ExitKeepsWaited(s, procs', p, code, q);
    hide FamilyOk, ThreadsOk, ProcExit, Exited;
  }

  lemma ExitThreads(s: State, p: Pid, code: int)
    requires Inv(s) && Enabled(s, Exit(p, code))
    ensures ThreadsOk(After(s, Exit(p, code)))
  {
    hide SerialsOk, CodesOk, ZombiesOk, ProcExit, WaitOk, FamilyOk;
    ExitMeaning(s, p, code);
    var s' := After(s, Exit(p, code));
    assert forall q :: q in s'.threads <==> q in s.threads && q != p;
    forall q | q in s'.threads ensures WaitOk(s', q, s'.threads[q]) {
      ExitWait(s, p, code, q);
    }
  }

  lemma WakeSerials(s: State, p: Pid)
    requires SerialsOk(s)
    ensures SerialsOk(WakeWaiter(s, p))
  {
  }

  /** Recording the exit code of a process that has a serial number. */
  lemma CodeSerials(s: State, threads: map<Pid, Thread>, n: nat, code: int)
    requires SerialsOk(s) && n < s.next
    ensures SerialsOk(s.(threads := threads, codes := s.codes[n := code]))
  {
  }

  lemma ExitSerials(s: State, p: Pid, code: int)
    requires FamilyOk(s.procs) && SerialsOk(s) && p in s.procs
    ensures SerialsOk(ProcExit(s, p, code))
  {
    ChildrenAre(s.procs, p);
    hide FamilyOk, SerialsOk, Orphan;
    var cs := s.procs[p].children;
    OrphanMeaning(s, cs);
    OrphanSerials(s, cs);
    var s1 := Orphan(s, cs);
    if p in s1.procs {
      var me := s1.procs[p].(children := [], cvAlive := false);
      UpdateSerials(s1, p, me);
      var s2 := s1.(procs := s1.procs[p := me]);
      if me.parent == NONE || me.parent !in s2.procs {
        DestroySerials(s2, p);
      } else {
        UpdateSerials(s2, p, me.(exited := true, exitVal := code));
        WakeSerials(s2.(procs := s2.procs[p := me.(exited := true, exitVal := code)]), me.parent);
      }
    }
  }

  lemma ExitRecorded(s: State, p: Pid, code: int)
    requires Inv(s) && Enabled(s, Exit(p, code))
    ensures SerialsOk(After(s, Exit(p, code)))
  {
    var n := s.procs[p].serial;
    assert n < s.next;
    hide ThreadsOk, CodesOk, ZombiesOk, FamilyOk, SerialsOk, ProcExit;
    ExitSerials(s, p, code);
    ExitMeaning(s, p, code);
    var done := ProcExit(s, p, code);
    CodeSerials(done, done.threads - {p}, n, code);
  }

  lemma Unexited(s: State, p: Pid)
    requires ThreadsOk(s) && p in s.threads
    ensures p in s.procs && !s.procs[p].exited
  {
  }

  lemma ExitCodes(s: State, p: Pid, code: int)
    requires Inv(s) && Enabled(s, Exit(p, code))
    ensures CodesOk(After(s, Exit(p, code)))
  {
    hide ThreadsOk, ProcExit, FamilyOk, ZombiesOk;
    ExitMeaning(s, p, code);
    var s', n := After(s, Exit(p, code)), s.procs[p].serial;
    Unexited(s, p);
    assert n !in s.codes;
    forall x | x in s'.procs
      ensures s'.procs[x].exited <==> s'.procs[x].serial in s'.codes
      ensures s'.procs[x].exited ==> s'.procs[x].exitVal == s'.codes[s'.procs[x].serial]
    {
      if x != p {
        assert s.procs[x].serial != n;
      }
    }
  }

  lemma ExitKeeps(s: State, p: Pid, code: int)
    requires Inv(s) && Enabled(s, Exit(p, code))
    ensures Inv(After(s, Exit(p, code)))
  {
    hide FamilyOk, ZombiesOk, ThreadsOk, SerialsOk, CodesOk, ProcExit, Exited;
    Unexited(s, p);
    ExitMeaning(s, p, code);
    ExitFamily(s.procs, ProcExit(s, p, code).procs, p, code);
    ExitZombies(s.procs, ProcExit(s, p, code).procs, p, code);
    ExitThreads(s, p, code);
    ExitRecorded(s, p, code);
    ExitCodes(s, p, code);
  }

  // ------------------------------------------------------------------- fork

  lemma OneMore(l: seq<Pid>, x: Pid)
    requires Distinct(l) && x !in l
    ensures Distinct(l + [x]) && forall y :: y in l + [x] <==> y in l || y == x
  {
  }

  /** The directory before and after fork: one record more, listed by its parent. */
  ghost predicate Forked(procs: map<Pid, Proc>, procs': map<Pid, Proc>, p: Pid, newpid: Pid, serial: nat)
  {
    && p in procs && newpid !in procs && newpid > 0
    && procs'.Keys == procs.Keys + {newpid}
    && procs'[newpid] == Proc(serial, p, NONE, false, 0, [], true)
    && procs'[p] == procs[p].(children := procs[p].children + [newpid])
    && forall x :: x in procs && x != p ==> procs'[x] == procs[x]
  }

  lemma ForkMeaning(s: State, p: Pid, newpid: Pid)
    requires Enabled(s, Fork(p, newpid))
    ensures
      var s' := After(s, Fork(p, newpid));
      && Forked(s.procs, s'.procs, p, newpid, s.next)
      && s' == s.(procs := s'.procs, threads := s.threads[newpid := Running], next := s.next + 1)
  {
  }

  lemma ForkList(procs: map<Pid, Proc>, procs': map<Pid, Proc>, p: Pid, newpid: Pid, serial: nat, x: Pid)
    requires FamilyOk(procs) && Forked(procs, procs', p, newpid, serial) && x in procs'
    ensures ListOk(procs', x)
  {
    hide Distinct;
    NoneDistinct<Pid>();
    if x != newpid {
      assert ListOk(procs, x) && newpid !in procs[x].children;
      hide FamilyOk, ParentOk;
      if x == p { OneMore(procs[p].children, newpid); }
      forall c | c in procs'[x].children ensures c in procs' && procs'[c].parent == x {
        assert c in procs[x].children || (x == p && c == newpid);
      }
    }
  }

  lemma ForkParent(procs: map<Pid, Proc>, procs': map<Pid, Proc>, p: Pid, newpid: Pid, serial: nat, c: Pid)
    requires FamilyOk(procs) && Forked(procs, procs', p, newpid, serial) && !procs[p].exited && c in procs'
    ensures ParentOk(procs', c)
  {
    if c != newpid {
      assert ParentOk(procs, c);
      hide FamilyOk, ListOk;
      assert procs'[c].parent == procs[c].parent;
    }
  }

  lemma ForkFamily(procs: map<Pid, Proc>, procs': map<Pid, Proc>, p: Pid, newpid: Pid, serial: nat)
    requires FamilyOk(procs) && Forked(procs, procs', p, newpid, serial) && !procs[p].exited
    ensures FamilyOk(procs')
  {
    hide ListOk, ParentOk;
    forall x | x in procs' ensures ListOk(procs', x) {
      ForkList(procs, procs', p, newpid, serial, x);
    }
    forall c | c in procs' ensures ParentOk(procs', c) {
      ForkParent(procs, procs', p, newpid, serial, c);
    }
  }

  lemma ForkZombies(procs: map<Pid, Proc>, procs': map<Pid, Proc>, p: Pid, newpid: Pid, serial: nat)
    requires ZombiesOk(procs) && Forked(procs, procs', p, newpid, serial) && !procs[p].exited
    ensures ZombiesOk(procs')
  {
  }

  lemma ForkWait(s: State, s': State, p: Pid, newpid: Pid, q: Pid)
    requires ThreadsOk(s) && Forked(s.procs, s'.procs, p, newpid, s.next) && s'.threads == s.threads[newpid := Running]
    requires q in s'.threads
    ensures q in s'.procs && WaitOk(s', q, s'.threads[q])
  {
    if q != newpid {
      assert WaitOk(s, q, s.threads[q]);
    }
  }

  lemma ForkThreads(s: State, s': State, p: Pid, newpid: Pid)
    requires ThreadsOk(s) && Forked(s.procs, s'.procs, p, newpid, s.next) && s'.threads == s.threads[newpid := Running]
    ensures ThreadsOk(s')
  {
    forall q | q in s'.threads ensures q in s'.procs && WaitOk(s', q, s'.threads[q]) {
      ForkWait(s, s', p, newpid, q);
    }
    hide WaitOk;
  }

  lemma ForkSerials(s: State, s': State, p: Pid, newpid: Pid)
    requires SerialsOk(s) && Forked(s.procs, s'.procs, p, newpid, s.next) && s'.next == s.next + 1
    requires s'.destroyed == s.destroyed && s'.codes == s.codes
    ensures SerialsOk(s')
  {
    hide Distinct;
    forall x | x in s'.procs ensures s'.procs[x].serial < s'.next && s'.procs[x].serial !in s'.destroyed {
      assert x == newpid || s'.procs[x].serial == s.procs[x].serial;
    }
    forall x, y | x in s'.procs && y in s'.procs && s'.procs[x].serial == s'.procs[y].serial ensures x == y {
      assert x == newpid || s'.procs[x].serial == s.procs[x].serial < s.next;
      assert y == newpid || s'.procs[y].serial == s.procs[y].serial < s.next;
    }
  }

  lemma ForkCodes(s: State, s': State, p: Pid, newpid: Pid)
    requires SerialsOk(s) && CodesOk(s) && Forked(s.procs, s'.procs, p, newpid, s.next)
    requires s'.codes == s.codes && s'.delivered == s.delivered
    ensures CodesOk(s')
  {
    hide Distinct;
    assert s.next !in s.codes;
  }

  lemma ForkKeeps(s: State, p: Pid, newpid: Pid)
    requires Inv(s) && Enabled(s, Fork(p, newpid))
    ensures Inv(After(s, Fork(p, newpid)))
  {
    hide FamilyOk, ZombiesOk, ThreadsOk, SerialsOk, CodesOk, Forked, After;
    var s' := After(s, Fork(p, newpid));
    Unexited(s, p);
    ForkMeaning(s, p, newpid);
    ForkFamily(s.procs, s'.procs, p, newpid, s.next);
    ForkZombies(s.procs, s'.procs, p, newpid, s.next);
    ForkThreads(s, s', p, newpid);
    ForkSerials(s, s', p, newpid);
    ForkCodes(s, s', p, newpid);
  }

  // ---------------------------------------------------------------- waitpid

  /** The directory while `p` is inside sys_waitpid with its pointer at `pid`. */
  ghost predicate WaitReady(s: State, p: Pid, pid: Pid)
  {
    && FamilyOk(s.procs) && ZombiesOk(s.procs) && SerialsOk(s) && CodesOk(s)
    && p in s.procs && !s.procs[p].exited && s.procs[p].waitpid == pid
    && pid in s.procs && s.procs[pid].parent == p
    && (forall q :: q in s.threads <==> q in s.procs && !s.procs[q].exited)
    && (forall q :: q in s.threads && q != p ==> WaitOk(s, q, s.threads[q]))
  }

  lemma ReapMeaning(s: State, p: Pid, pid: Pid)
    requires WaitReady(s, p, pid)
    ensures pid in s.procs[p].children && p != pid
    ensures var s' := Reap(s, p, pid);
      && s'.procs == (s.procs - {pid})[p := s.procs[p].(waitpid := NONE, children := Remlist(s.procs[p].children, pid))]
      && s'.threads == s.threads[p := Running] && s'.next == s.next && s'.codes == s.codes
      && s'.destroyed == s.destroyed + [s.procs[pid].serial]
      && s'.delivered == s.delivered + [Delivery(p, s.procs[pid].serial, s.procs[pid].exitVal)]
  {
    ChildrenAre(s.procs, p);
    hide FamilyOk, ZombiesOk, SerialsOk, CodesOk, Remlist;
  }

  /** A childless exited process taken out of the directory and off its parent's list. */
  ghost predicate TakenOut(procs: map<Pid, Proc>, procs': map<Pid, Proc>, p: Pid, pid: Pid)
  {
    && p in procs && pid in procs && p != pid && procs[pid].exited && procs[pid].parent == p
    && procs'.Keys == procs.Keys - {pid}
    && (forall x :: x in procs' && x != p ==> procs'[x] == procs[x])
    && procs'[p] == procs[p].(waitpid := NONE, children := procs'[p].children)
    && Distinct(procs'[p].children) && forall c :: c in procs'[p].children <==> c in procs[p].children && c != pid
  }

  lemma ListLess(procs: map<Pid, Proc>, procs': map<Pid, Proc>, p: Pid, pid: Pid, x: Pid)
    requires FamilyOk(procs) && TakenOut(procs, procs', p, pid) && x in procs'
    ensures ListOk(procs', x)
  {
    assert ListOk(procs, x);
    hide Distinct, FamilyOk, ParentOk;
    forall c | c in procs'[x].children ensures c in procs' && procs'[c].parent == x {
      assert c in procs[x].children && c != pid;
    }
  }

  lemma ParentLess(procs: map<Pid, Proc>, procs': map<Pid, Proc>, p: Pid, pid: Pid, c: Pid)
    requires FamilyOk(procs) && TakenOut(procs, procs', p, pid) && c in procs'
    ensures ParentOk(procs', c)
  {
    assert ParentOk(procs, c);
    hide Distinct, FamilyOk, ListOk;
    assert procs'[c].parent == procs[c].parent;
  }

  lemma FamilyLess(procs: map<Pid, Proc>, procs': map<Pid, Proc>, p: Pid, pid: Pid)
    requires FamilyOk(procs) && TakenOut(procs, procs', p, pid)
    ensures FamilyOk(procs')
  {
    hide ListOk, ParentOk, Distinct;
    forall x | x in procs' ensures ListOk(procs', x) {
      ListLess(procs, procs', p, pid, x);
    }
    forall c | c in procs' ensures ParentOk(procs', c) {
      ParentLess(procs, procs', p, pid, c);
    }
  }

  lemma ZombiesLess(procs: map<Pid, Proc>, procs': map<Pid, Proc>, p: Pid, pid: Pid)
    requires FamilyOk(procs) && ZombiesOk(procs) && TakenOut(procs, procs', p, pid)
    ensures ZombiesOk(procs')
  {
    assert ParentOk(procs, pid);
    hide Distinct, FamilyOk, ListOk;
  }

  lemma ReapFamily(s: State, p: Pid, pid: Pid)
    requires WaitReady(s, p, pid) && s.procs[pid].exited
    ensures FamilyOk(Reap(s, p, pid).procs) && ZombiesOk(Reap(s, p, pid).procs)
  {
    hide SerialsOk, CodesOk, Remlist, Reap, Distinct, FamilyOk, ZombiesOk;
    ReapMeaning(s, p, pid);
    ChildrenAre(s.procs, p);
    RemlistRemoves(s.procs[p].children, pid);
    FamilyLess(s.procs, Reap(s, p, pid).procs, p, pid);
    ZombiesLess(s.procs, Reap(s, p, pid).procs, p, pid);
  }

  /** Nobody else waits for a child of p. */
  lemma ReapWait(s: State, p: Pid, pid: Pid, q: Pid)
    requires WaitReady(s, p, pid) && s.procs[pid].exited && q in s.threads
    ensures
      var s' := Reap(s, p, pid);
      q in s'.threads && q in s'.procs && WaitOk(s', q, s'.threads[q])
  {
    ReapMeaning(s, p, pid);
    assert q in s.procs && !s.procs[q].exited && (q != p ==> WaitOk(s, q, s.threads[q]));
    hide WaitReady, Remlist, Reap;
  }

  lemma ReapThreads(s: State, p: Pid, pid: Pid)
    requires WaitReady(s, p, pid) && s.procs[pid].exited
    ensures ThreadsOk(Reap(s, p, pid))
  {
    ReapMeaning(s, p, pid);
    hide FamilyOk, ZombiesOk, SerialsOk, CodesOk, Remlist, Reap, WaitOk;
    var s' := Reap(s, p, pid);
    forall q | q in s'.threads ensures q in s'.procs && WaitOk(s', q, s'.threads[q]) {
      ReapWait(s, p, pid, q);
    }
  }

  lemma ReapCodes(s: State, p: Pid, pid: Pid)
    requires WaitReady(s, p, pid) && s.procs[pid].exited
    ensures CodesOk(Reap(s, p, pid))
  {
    ReapMeaning(s, p, pid);
    hide FamilyOk, ZombiesOk, SerialsOk, Remlist, Reap, WaitOk;
  }

  lemma SerialsIgnore(s: State, s': State)
    requires SerialsOk(s) && s'.procs == s.procs && s'.next == s.next && s'.codes == s.codes
    requires s'.destroyed == s.destroyed
    ensures SerialsOk(s')
  {
  }

  lemma ReapSerials(s: State, p: Pid, pid: Pid)
    requires WaitReady(s, p, pid) && s.procs[pid].exited
    ensures SerialsOk(Reap(s, p, pid))
  {
    hide FamilyOk, ZombiesOk, ThreadsOk, CodesOk, SerialsOk;
    var s1 := s.(procs := s.procs[p := s.procs[p].(waitpid := NONE)], threads := s.threads[p := Running],
                 delivered := s.delivered + [Delivery(p, s.procs[pid].serial, s.procs[pid].exitVal)]);
    UpdateSerials(s, p, s.procs[p].(waitpid := NONE));
    SerialsIgnore(s.(procs := s1.procs), s1);
    DestroySerials(s1, pid);
    var s2 := Destroy(s1, pid);
    if p in s2.procs {
      UpdateSerials(s2, p, s2.procs[p].(children := Remlist(s2.procs[p].children, pid)));
    }
  }

  lemma CodesIgnore(s: State, s': State)
    requires CodesOk(s) && s' == s.(threads := s'.threads)
    ensures CodesOk(s')
  {
  }

  lemma TestKeeps(s: State, p: Pid, pid: Pid)
    requires WaitReady(s, p, pid)
    ensures Inv(TestChild(s, p, pid))
  {
    hide FamilyOk, ZombiesOk, SerialsOk, CodesOk, Reap;
    if s.procs[pid].exited {
      ReapFamily(s, p, pid);
      ReapThreads(s, p, pid);
      ReapCodes(s, p, pid);
      ReapSerials(s, p, pid);
    } else {
      var s' := TestChild(s, p, pid);
      SerialsIgnore(s, s');
      CodesIgnore(s, s');
    }
  }

  lemma FamilyIgnores(procs: map<Pid, Proc>, p: Pid, r: Proc)
    requires FamilyOk(procs) && p in procs && r == procs[p].(waitpid := r.waitpid)
    ensures FamilyOk(procs[p := r])
  {
    var procs' := procs[p := r];
    forall x | x in procs' ensures ListOk(procs', x) && ParentOk(procs', x) {
      assert ListOk(procs, x) && ParentOk(procs, x);
      hide FamilyOk, Distinct;
    }
  }

  lemma ZombiesIgnore(procs: map<Pid, Proc>, p: Pid, r: Proc)
    requires ZombiesOk(procs) && p in procs && r == procs[p].(waitpid := r.waitpid)
    ensures ZombiesOk(procs[p := r])
  {
  }

  lemma CodesIgnoreWaitpid(s: State, p: Pid, r: Proc)
    requires CodesOk(s) && p in s.procs && r == s.procs[p].(waitpid := r.waitpid)
    ensures CodesOk(s.(procs := s.procs[p := r]))
  {
  }

  lemma SetWaitpid(s: State, p: Pid, pid: Pid)
    requires Inv(s) && p in s.threads && pid in s.procs && s.procs[pid].parent == p
    ensures p in s.procs && WaitReady(s.(procs := s.procs[p := s.procs[p].(waitpid := pid)]), p, pid)
  {
    hide FamilyOk, ZombiesOk, SerialsOk, CodesOk;
    var r := s.procs[p].(waitpid := pid);
    FamilyIgnores(s.procs, p, r);
    ZombiesIgnore(s.procs, p, r);
    UpdateSerials(s, p, r);
    CodesIgnoreWaitpid(s, p, r);
  }

  lemma WaitKeeps(s: State, p: Pid, pid: Pid, options: int, badStatus: bool)
    requires Inv(s) && Enabled(s, Wait(p, pid, options, badStatus))
    ensures Inv(After(s, Wait(p, pid, options, badStatus)))
  {
    if WaitError(s, p, pid, options, badStatus) == [] {
      SetWaitpid(s, p, pid);
      TestKeeps(s.(procs := s.procs[p := s.procs[p].(waitpid := pid)]), p, pid);
    }
  }

  lemma ResumeKeeps(s: State, p: Pid)
    requires Inv(s) && Enabled(s, Resume(p))
    ensures Inv(After(s, Resume(p)))
  {
    hide FamilyOk, ZombiesOk, SerialsOk, CodesOk, TestChild;
    TestKeeps(s, p, s.threads[p].child);
  }

  lemma StepKeeps(s: State, step: Step)
    requires Inv(s) && Enabled(s, step)
    ensures Inv(After(s, step))
  {
    hide Inv, After;
    match step
    case Fork(p, newpid) => ForkKeeps(s, p, newpid);
    case Exit(p, code) => ExitKeeps(s, p, code);
    case Wait(p, pid, options, badStatus) => WaitKeeps(s, p, pid, options, badStatus);
    case Resume(p) => ResumeKeeps(s, p);
  }

  lemma {:induction false} RunKeepsInv(run: seq<State>, steps: seq<Step>, i: nat)
    requires IsRun(run, steps) && i < |run|
    ensures Inv(run[i])
  {
    hide Enabled, After;
    if i > 0 {
      RunKeepsInv(run, steps, i - 1);
      StepKeeps(run[i - 1], steps[i - 1]);
    }
  }

  // ------------------------------------------------------------------- theorems

  /** Every unexited process lists each process that names it as parent exactly once, and nothing else;
      every exited process still listed has a parent that is there and has not exited. */
  lemma FamiliesAreConsistent(run: seq<State>, steps: seq<Step>, i: nat)
    requires IsRun(run, steps) && i < |run|
    ensures var procs := run[i].procs;
      && (forall p :: p in procs ==> Distinct(procs[p].children))
      && (forall p, c :: p in procs && c in procs && p != NONE ==> (c in procs[p].children <==> procs[c].parent == p))
      && (forall p :: p in procs && procs[p].exited ==> procs[p].parent in procs && !procs[procs[p].parent].exited)
  {
    hide ThreadsOk, SerialsOk, CodesOk;
    RunKeepsInv(run, steps, i);
  }

  /** No record is destroyed twice, and none is destroyed and still in the directory. */
  lemma DestroyedOnce(run: seq<State>, steps: seq<Step>, i: nat)
    requires IsRun(run, steps) && i < |run|
    ensures Distinct(run[i].destroyed) && forall p :: p in run[i].procs ==> run[i].procs[p].serial !in run[i].destroyed
  {
    hide FamilyOk, ZombiesOk, ThreadsOk, CodesOk, Distinct;
    RunKeepsInv(run, steps, i);
  }

  /** An exiting process that wakes its parent finds the parent's condition variable alive. */
  lemma ExitTouchesALiveCv(run: seq<State>, steps: seq<Step>, i: nat, p: Pid, code: int)
    requires IsRun(run, steps) && i < |steps| && steps[i] == Exit(p, code)
    ensures var s := run[i]; var par := s.procs[p].parent;
      par != NONE ==> par in s.procs && par != p && s.procs[par].cvAlive
  {
    hide SerialsOk, CodesOk, Distinct, After;
    RunKeepsInv(run, steps, i);
  }

  /** While a thread sleeps in sys_waitpid the record it points to stays in the directory, is its own
      child and has not exited, so the exit that ends the wait is still to come and will wake it. */
  lemma SleeperIsSafe(run: seq<State>, steps: seq<Step>, i: nat, p: Pid)
    requires IsRun(run, steps) && i < |run| && p in run[i].threads && run[i].threads[p].Asleep?
    ensures var s := run[i]; var c := s.threads[p].child;
      && c in s.procs && s.procs[c].serial == s.threads[p].serial && s.procs[c].parent == p && !s.procs[c].exited
      && s.threads[p].serial !in s.destroyed && s.threads[p].serial !in s.codes
  {
    hide FamilyOk, ZombiesOk, Distinct;
    RunKeepsInv(run, steps, i);
  }

  lemma ExitWakesTheSleeper(run: seq<State>, steps: seq<Step>, i: nat, p: Pid, code: int)
    requires IsRun(run, steps) && i < |steps| && steps[i] == Exit(p, code)
    ensures forall q :: q in run[i].threads && run[i].threads[q].Asleep? && run[i].threads[q].child == p ==>
      q in run[i + 1].threads && run[i + 1].threads[q] == Woken(p, run[i].procs[p].serial)
  {
    hide SerialsOk, CodesOk, Distinct, ProcExit;
    RunKeepsInv(run, steps, i);
    ExitMeaning(run[i], p, code);
  }

  /** The pointer of a woken waiter still is to its child, so sys_waitpid can always carry on. */
  lemma WokenCanResume(run: seq<State>, steps: seq<Step>, i: nat, p: Pid)
    requires IsRun(run, steps) && i < |run| && p in run[i].threads && run[i].threads[p].Woken?
    ensures Enabled(run[i], Resume(p)) && run[i].procs[run[i].threads[p].child].serial == run[i].threads[p].serial
  {
    hide FamilyOk, ZombiesOk, SerialsOk, CodesOk;
    RunKeepsInv(run, steps, i);
  }

  /** A process exits once: its code, once recorded, never changes. */
  lemma ExitCodesAreFinal(run: seq<State>, steps: seq<Step>, i: nat, n: nat)
    requires IsRun(run, steps) && i < |steps| && n in run[i].codes
    ensures n in run[i + 1].codes && run[i + 1].codes[n] == run[i].codes[n]
  {
    hide FamilyOk, ZombiesOk, SerialsOk, ProcExit;
    var s := run[i];
    RunKeepsInv(run, steps, i);
    if steps[i].Exit? {
      ExitMeaning(s, steps[i].p, steps[i].code);
      Unexited(s, steps[i].p);
    }
  }

  /** Everything sys_waitpid ever reports is the code that this very child passed to exit. */
  lemma WaitReportsTheExitCode(run: seq<State>, steps: seq<Step>, i: nat, k: nat)
    requires IsRun(run, steps) && i < |run| && k < |run[i].delivered|
    ensures run[i].delivered[k].serial in run[i].codes
    ensures run[i].delivered[k].code == run[i].codes[run[i].delivered[k].serial]
  {
    hide FamilyOk, ZombiesOk, SerialsOk, ThreadsOk;
    RunKeepsInv(run, steps, i);
  }
}
