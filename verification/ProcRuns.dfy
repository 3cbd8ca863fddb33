/** kern/proc/proc.c and kern/syscall/process_syscalls.c: what fork, exit and waitpid do on every run, and
    what a run as a whole guarantees. */
module ProcRuns {
  import opened Collections
  import opened ProcLife

  lemma StepOf(run: seq<State>, steps: seq<Step>, i: nat)
    requires IsRun(run, steps) && i < |steps|
    ensures |run| == |steps| + 1 && Inv(run[i]) && Enabled(run[i], steps[i])
    ensures run[i + 1] == After(run[i], steps[i])
  {
    RunKeepsInv(run, steps, i);
  }

  // -------------------------------------------------------------- single calls

  /** sys_waitpid refuses for the first of four reasons that holds, and for nothing else; the last is that
      the caller does not list the process as a child.  A refused call changes nothing. */
  lemma WaitIsRefusedWhen(run: seq<State>, steps: seq<Step>, i: nat)
    requires IsRun(run, steps) && i < |steps| && steps[i].Wait? && steps[i].p in run[i].procs
    ensures
      var s, c := run[i], steps[i];
      var e := WaitError(s, c.p, c.pid, c.options, c.badStatus);
      RefusedFor(s, c.p, c.pid, c.options, c.badStatus, e) && (e != [] ==> run[i + 1] == s)
  {
    StepOf(run, steps, i);
    var c := steps[i];
    hide IsRun, FamilyOk, TestChild, RefusedFor;
    WaitErrorMeaning(run[i], c.p, c.pid, c.options, c.badStatus);
  }

  /** Process p has collected its child pid: the child's own exit code reported, the child out of the
      directory and off the list, p running again, and every other process as it was. */
  ghost predicate Collected(s: State, s': State, p: Pid, pid: Pid)
    requires p in s.procs && pid in s.procs && s.procs[pid].serial in s.codes
  {
    var child := s.procs[pid];
    && s'.delivered == s.delivered + [Delivery(p, child.serial, s.codes[child.serial])]
    && s'.destroyed == s.destroyed + [child.serial]
    && s'.threads == s.threads[p := Running] && s'.next == s.next && s'.codes == s.codes
    && s'.procs.Keys == s.procs.Keys - {pid} && p in s'.procs
    && (forall x :: x in s'.procs && x != p ==> s'.procs[x] == s.procs[x])
    && s'.procs[p] == s.procs[p].(waitpid := NONE, children := s'.procs[p].children)
    && Distinct(s'.procs[p].children)
    && (forall c :: c in s'.procs[p].children <==> c in s.procs[p].children && c != pid)
  }

  lemma ReapCollects(s: State, p: Pid, pid: Pid)
    requires WaitReady(s, p, pid) && s.procs[pid].exited
    ensures s.procs[pid].serial in s.codes && Collected(s, Reap(s, p, pid), p, pid)
  {
    ReapMeaning(s, p, pid);
    ChildrenAre(s.procs, p);
    RemlistRemoves(s.procs[p].children, pid);
    assert CodesOk(s);
    hide WaitReady, FamilyOk, ZombiesOk, SerialsOk, Remlist, Reap, Distinct;
  }

  lemma WaitIsReady(s: State, p: Pid, pid: Pid)
    requires Inv(s) && Enabled(s, Wait(p, pid, 0, false)) && pid in s.procs[p].children
    ensures pid in s.procs && s.procs[pid].parent == p && p != pid
    ensures WaitReady(s.(procs := s.procs[p := s.procs[p].(waitpid := pid)]), p, pid)
    ensures s.procs[pid].exited ==> s.procs[pid].serial in s.codes
  {
    assert ListOk(s.procs, p);
    ChildrenAre(s.procs, p);
    assert CodesOk(s);
    hide FamilyOk, ZombiesOk, ThreadsOk, SerialsOk;
    SetWaitpid(s, p, pid);
  }

  lemma CollectedBefore(s: State, s1: State, s': State, p: Pid, pid: Pid)
    requires p in s.procs && pid in s.procs && s.procs[pid].serial in s.codes && p != pid
    requires s1 == s.(procs := s.procs[p := s.procs[p].(waitpid := pid)]) && Collected(s1, s', p, pid)
    ensures Collected(s, s', p, pid)
  {
    hide Distinct;
  }

  /** A process that waits for one of its own children is never refused: it collects the child at once if
      the child has exited, and otherwise goes to sleep on that very record. */
  lemma WaitTakesOwnChild(run: seq<State>, steps: seq<Step>, i: nat, p: Pid, pid: Pid)
    requires IsRun(run, steps) && i < |steps| && steps[i] == Wait(p, pid, 0, false)
    requires p in run[i].procs && pid in run[i].procs[p].children
    ensures pid in run[i].procs
    ensures run[i].procs[pid].exited ==>
      run[i].procs[pid].serial in run[i].codes && Collected(run[i], run[i + 1], p, pid)
    ensures !run[i].procs[pid].exited ==>
      run[i + 1] == run[i].(procs := run[i].procs[p := run[i].procs[p].(waitpid := pid)],
                            threads := run[i].threads[p := Asleep(pid, run[i].procs[pid].serial)])
  {
    StepOf(run, steps, i);
    var s := run[i];
    WaitIsReady(s, p, pid);
    var s1 := s.(procs := s.procs[p := s.procs[p].(waitpid := pid)]);
    hide IsRun, Inv, WaitReady, Reap, Collected;
    if s.procs[pid].exited {
      ReapCollects(s1, p, pid);
      CollectedBefore(s, s1, run[i + 1], p, pid);
    }
  }

  /** A woken waiter never goes back to sleep: the child it was woken for has exited, and it collects it. */
  lemma WokenCollects(run: seq<State>, steps: seq<Step>, i: nat, p: Pid)
    requires IsRun(run, steps) && i < |steps| && steps[i] == Resume(p) && p in run[i].procs && p in run[i].threads
    ensures
      var s := run[i];
      && s.threads[p].Woken? && s.threads[p].child in s.procs
      && s.procs[s.threads[p].child].serial == s.threads[p].serial && s.threads[p].serial in s.codes
      && Collected(s, run[i + 1], p, s.threads[p].child)
  {
    StepOf(run, steps, i);
    var s := run[i];
    assert ThreadsOk(s) && WaitOk(s, p, s.threads[p]);
    assert WaitReady(s, p, s.threads[p].child);
    hide IsRun, Inv, WaitReady, Reap, Collected;
    ReapCollects(s, p, s.threads[p].child);
  }

  /** fork adds one running process with a record never used before, listed by the caller alone. */
  lemma ForkAddsAChild(run: seq<State>, steps: seq<Step>, i: nat)
    requires IsRun(run, steps) && i < |steps| && steps[i].Fork?
    ensures
      var s, s', p, newpid := run[i], run[i + 1], steps[i].p, steps[i].newpid;
      && p in s.procs && newpid !in s.procs
      && s'.procs.Keys == s.procs.Keys + {newpid}
      && s'.procs[newpid] == Proc(s.next, p, NONE, false, 0, [], true)
      && s.next !in s.destroyed && (forall x :: x in s.procs ==> s.procs[x].serial != s.next)
      && s'.procs[p] == s.procs[p].(children := s.procs[p].children + [newpid])
      && (forall x :: x in s.procs && x != p ==> s'.procs[x] == s.procs[x])
      && s'.threads == s.threads[newpid := Running] && s'.next == s.next + 1
      && s'.codes == s.codes && s'.destroyed == s.destroyed && s'.delivered == s.delivered
  {
    StepOf(run, steps, i);
    assert SerialsOk(run[i]);
    ForkMeaning(run[i], steps[i].p, steps[i].newpid);
    hide IsRun, Inv, Enabled, After;
  }

  lemma NotNone(procs: map<Pid, Proc>, p: Pid)
    requires FamilyOk(procs) && p in procs
    ensures p != NONE
  {
  }

  lemma ExitThread(s: State, p: Pid, code: int, q: Pid)
    requires Inv(s) && Enabled(s, Exit(p, code))
    ensures
      var s' := After(s, Exit(p, code));
      && (q in s'.threads <==> q in s.threads && q != p)
      && (q in s'.threads ==> s'.threads[q] == if s.threads[q].Asleep? && s.threads[q].child == p
                                               then Woken(p, s.threads[q].serial) else s.threads[q])
  {
    hide ProcExit, FamilyOk, ZombiesOk, SerialsOk, CodesOk, Distinct, Exited;
    ExitMeaning(s, p, code);
    if q in s.threads {
      assert q in s.procs && q != NONE by { Unexited(s, q); NotNone(s.procs, q); }
      assert WaitOk(s, q, s.threads[q]);
    }
    assert ThreadsOk(s) && p in s.procs;
    if s.procs[p].parent in s.threads { assert WaitOk(s, s.procs[p].parent, s.threads[s.procs[p].parent]); }
  }

  /** exit takes the caller's exited children out of the directory and orphans the others; the caller goes
      too when nobody can wait for it, and is otherwise kept, with its code, for its parent; the parent is
      woken exactly when it sleeps on the caller, and no other thread is touched. */
  lemma ExitLeavesAZombieOrNothing(run: seq<State>, steps: seq<Step>, i: nat)
    requires IsRun(run, steps) && i < |steps| && steps[i].Exit? && steps[i].p in run[i].procs
    ensures
      var s, s', p, code := run[i], run[i + 1], steps[i].p, steps[i].code;
      && Exited(s.procs, s'.procs, p, code)
      && s'.codes == s.codes[s.procs[p].serial := code] && s'.delivered == s.delivered && s'.next == s.next
      && (forall q :: q in s'.threads <==> q in s.threads && q != p)
      && (forall q :: q in s'.threads ==> s'.threads[q] == if s.threads[q].Asleep? && s.threads[q].child == p
                                                           then Woken(p, s.threads[q].serial) else s.threads[q])
  {
    StepOf(run, steps, i);
    var s, s', p, code := run[i], run[i + 1], steps[i].p, steps[i].code;
    ExitMeaning(s, p, code);
    hide IsRun, Inv, ProcExit, Exited;
    forall q
      ensures q in s'.threads <==> q in s.threads && q != p
      ensures q in s'.threads ==> s'.threads[q] == if s.threads[q].Asleep? && s.threads[q].child == p
                                                   then Woken(p, s.threads[q].serial) else s.threads[q]
    {
      ExitThread(s, p, code, q);
    }
  }

  // ------------------------------------------------------- nothing is ever lost

  /** The record with this serial number is in the directory or has been destroyed. */
  ghost predicate Accounted(s: State, n: nat)
  {
    n in s.destroyed || exists p :: p in s.procs && s.procs[p].serial == n
  }

  ghost predicate Keeps(s: State, s': State) { forall n :: Accounted(s, n) ==> Accounted(s', n) }

  lemma DestroyAccounts(s: State, p: Pid)
    requires p in s.procs
    ensures Keeps(s, Destroy(s, p))
  {
    var s' := Destroy(s, p);
    forall n | Accounted(s, n) ensures Accounted(s', n) {
      if n !in s.destroyed {
        var q :| q in s.procs && s.procs[q].serial == n;
        if q != p { assert q in s'.procs && s'.procs[q].serial == n; }
      }
    }
  }

  /** Records change, serial numbers do not. */
  lemma SameSerials(s: State, s': State)
    requires s'.destroyed == s.destroyed
    requires forall x :: x in s.procs ==> x in s'.procs && s'.procs[x].serial == s.procs[x].serial
    ensures Keeps(s, s')
  {
    forall n | Accounted(s, n) ensures Accounted(s', n) {
      if n !in s.destroyed {
        var q :| q in s.procs && s.procs[q].serial == n;
        assert q in s'.procs && s'.procs[q].serial == n;
      }
    }
  }

  lemma {:induction false} OrphanAccounts(s: State, cs: seq<Pid>)
    ensures Keeps(s, Orphan(s, cs))
    decreases |cs|
  {
    hide Accounted;
    if cs != [] {
      var c := cs[0];
      if c !in s.procs {
        OrphanAccounts(s, cs[1..]);
      } else if s.procs[c].exited {
        DestroyAccounts(s, c);
        OrphanAccounts(Destroy(s, c), cs[1..]);
      } else {
        var s1 := s.(procs := s.procs[c := s.procs[c].(parent := NONE)]);
        SameSerials(s, s1);
        OrphanAccounts(s1, cs[1..]);
      }
    }
  }

  lemma ExitAccounts(s: State, p: Pid, code: int)
    requires p in s.procs
    ensures Keeps(s, ProcExit(s, p, code))
  {
    hide Accounted, Orphan;
    var s1 := Orphan(s, s.procs[p].children);
    OrphanAccounts(s, s.procs[p].children);
    if p in s1.procs {
      var me := s1.procs[p].(children := [], cvAlive := false);
      var s2 := s1.(procs := s1.procs[p := me]);
      SameSerials(s1, s2);
      if me.parent == NONE || me.parent !in s2.procs {
        DestroyAccounts(s2, p);
      } else {
        SameSerials(s2, ProcExit(s, p, code));
      }
    }
  }

  lemma ReapAccounts(s: State, p: Pid, pid: Pid)
    requires p in s.procs && pid in s.procs
    ensures Keeps(s, Reap(s, p, pid))
  {
    hide Accounted;
    var s1 := s.(procs := s.procs[p := s.procs[p].(waitpid := NONE)], threads := s.threads[p := Running],
                 delivered := s.delivered + [Delivery(p, s.procs[pid].serial, s.procs[pid].exitVal)]);
    SameSerials(s, s1);
    DestroyAccounts(s1, pid);
    SameSerials(Destroy(s1, pid), Reap(s, p, pid));
  }

  lemma TestAccounts(s: State, p: Pid, pid: Pid)
    requires p in s.procs && pid in s.procs
    ensures Keeps(s, TestChild(s, p, pid))
  {
    hide Accounted, Reap;
    if s.procs[pid].exited {
      ReapAccounts(s, p, pid);
    } else {
      SameSerials(s, TestChild(s, p, pid));
    }
  }

  lemma NewAccounted(s: State, p: Pid, newpid: Pid)
    requires Enabled(s, Fork(p, newpid))
    ensures Accounted(After(s, Fork(p, newpid)), s.next)
  {
    var s' := After(s, Fork(p, newpid));
    assert newpid in s'.procs && s'.procs[newpid].serial == s.next;
  }

  lemma {:induction false} OrphanCounts(s: State, cs: seq<Pid>)
    ensures Orphan(s, cs).next == s.next
    decreases |cs|
  {
    if cs != [] {
      var c := cs[0];
      var s1 :=
        if c !in s.procs then s
        else if s.procs[c].exited then Destroy(s, c)
        else s.(procs := s.procs[c := s.procs[c].(parent := NONE)]);
      OrphanCounts(s1, cs[1..]);
    }
  }

  lemma ExitCounts(s: State, p: Pid, code: int)
    requires p in s.procs
    ensures ProcExit(s, p, code).next == s.next
  {
    hide Orphan;
    OrphanCounts(s, s.procs[p].children);
  }

  lemma TestCounts(s: State, p: Pid, pid: Pid)
    requires p in s.procs && pid in s.procs
    ensures TestChild(s, p, pid).next == s.next
  {
  }

  lemma StepAccounts(s: State, step: Step)
    requires Enabled(s, step)
    ensures Keeps(s, After(s, step)) && (step.Fork? ==> Accounted(After(s, step), s.next))
    ensures After(s, step).next == if step.Fork? then s.next + 1 else s.next
  {
    hide Accounted, ProcExit, TestChild;
    match step
    case Fork(p, newpid) =>
      SameSerials(s, After(s, step));
      NewAccounted(s, p, newpid);
    case Exit(p, code) =>
      ExitAccounts(s, p, code);
      SameSerials(ProcExit(s, p, code), After(s, step));
      ExitCounts(s, p, code);
    case Wait(p, pid, options, badStatus) =>
      var s1 := s.(procs := s.procs[p := s.procs[p].(waitpid := pid)]);
      if WaitError(s, p, pid, options, badStatus) == [] {
        SameSerials(s, s1);
        TestAccounts(s1, p, pid);
        TestCounts(s1, p, pid);
      }
    case Resume(p) =>
      TestAccounts(s, p, s.threads[p].child);
      TestCounts(s, p, s.threads[p].child);
  }

  lemma {:induction false} AllAccounted(run: seq<State>, steps: seq<Step>, i: nat, n: nat)
    requires IsRun(run, steps) && i < |run| && n < run[i].next
    ensures Accounted(run[i], n)
  {
    hide Enabled, After;
    if i == 0 {
      assert 0 in run[0].procs && run[0].procs[0].serial == n;
    } else {
      StepAccounts(run[i - 1], steps[i - 1]);
      if n < run[i - 1].next { AllAccounted(run, steps, i - 1, n); }
    }
  }

  /** Every process ever made is, at every moment, either in the directory under one pid or destroyed once,
      and not both: no record is leaked and none is freed twice. */
  lemma NoProcessIsLost(run: seq<State>, steps: seq<Step>, i: nat, n: nat)
    requires IsRun(run, steps) && i < |run| && n < run[i].next
    ensures Distinct(run[i].destroyed)
    ensures n in run[i].destroyed <==> forall p :: p in run[i].procs ==> run[i].procs[p].serial != n
    ensures forall p, q ::
      (p in run[i].procs && q in run[i].procs && run[i].procs[p].serial == run[i].procs[q].serial ==> p == q)
  {
    AllAccounted(run, steps, i, n);
    RunKeepsInv(run, steps, i);
    assert SerialsOk(run[i]);
    hide IsRun, Inv, Distinct;
  }

  // ------------------------------------------------------------ no deadlock

  /** A parent was made before its children. */
  ghost predicate ElderParents(procs: map<Pid, Proc>)
  {
    forall c :: c in procs && procs[c].parent in procs ==> procs[procs[c].parent].serial < procs[c].serial
  }

  lemma ForkElders(s: State, p: Pid, newpid: Pid)
    requires Inv(s) && ElderParents(s.procs) && Enabled(s, Fork(p, newpid))
    ensures ElderParents(After(s, Fork(p, newpid)).procs)
  {
    ForkMeaning(s, p, newpid);
    var procs' := After(s, Fork(p, newpid)).procs;
    assert SerialsOk(s) && NONE !in s.procs;
    hide After, Distinct;
    forall c | c in procs' && procs'[c].parent in procs'
      ensures procs'[procs'[c].parent].serial < procs'[c].serial
    {
      if c != newpid { assert ParentOk(s.procs, c) && procs'[c].parent == s.procs[c].parent; }
    }
  }

  lemma ExitElders(procs: map<Pid, Proc>, procs': map<Pid, Proc>, p: Pid, code: int)
    requires p in procs && NONE !in procs && ElderParents(procs) && Exited(procs, procs', p, code)
    ensures ElderParents(procs')
  {
  }

  /** Nothing but processes taken out: the others keep parent and serial number. */
  lemma FewerElders(procs: map<Pid, Proc>, procs': map<Pid, Proc>)
    requires ElderParents(procs)
    requires forall x :: x in procs' ==>
      x in procs && procs'[x].parent == procs[x].parent && procs'[x].serial == procs[x].serial
    ensures ElderParents(procs')
  {
  }

  lemma TestElders(s: State, p: Pid, pid: Pid)
    requires ElderParents(s.procs) && p in s.procs && pid in s.procs
    ensures ElderParents(TestChild(s, p, pid).procs)
  {
    FewerElders(s.procs, TestChild(s, p, pid).procs);
  }

  lemma StepElders(s: State, step: Step)
    requires Inv(s) && ElderParents(s.procs) && Enabled(s, step)
    ensures ElderParents(After(s, step).procs)
  {
    hide ElderParents, TestChild, ProcExit;
    match step
    case Fork(p, newpid) => ForkElders(s, p, newpid);
    case Exit(p, code) =>
      ExitMeaning(s, p, code);
      ExitElders(s.procs, After(s, step).procs, p, code);
    case Wait(p, pid, options, badStatus) =>
      var procs1 := s.procs[p := s.procs[p].(waitpid := pid)];
      FewerElders(s.procs, procs1);
      if WaitError(s, p, pid, options, badStatus) == [] { TestElders(s.(procs := procs1), p, pid); }
    case Resume(p) => TestElders(s, p, s.threads[p].child);
  }

  lemma NoneElder(s: State)
    requires Initial(s)
    ensures ElderParents(s.procs)
  {
  }

  /** On every run a parent is older than its children, whatever pids they have. */
  lemma {:induction false} ParentsAreElder(run: seq<State>, steps: seq<Step>, i: nat)
    requires IsRun(run, steps) && i < |run|
    ensures ElderParents(run[i].procs)
  {
    hide Inv, Enabled, After, ElderParents;
    if i == 0 {
      NoneElder(run[0]);
    } else {
      hide IsRun;
      StepOf(run, steps, i - 1);
      ParentsAreElder(run, steps, i - 1);
      StepElders(run[i - 1], steps[i - 1]);
    }
  }

  /** Follow a sleeper to the child it waits for, and so on down: pids may repeat over time, but serial
      numbers grow, so the chain ends at somebody awake. */
  lemma {:induction false} AwakeBelow(s: State, p: Pid) returns (q: Pid)
    requires ThreadsOk(s) && ElderParents(s.procs) && p in s.threads
    requires forall x :: x in s.procs ==> s.procs[x].serial < s.next
    ensures q in s.threads && !s.threads[q].Asleep?
    decreases if p in s.procs then s.next - s.procs[p].serial else 0
  {
    assert WaitOk(s, p, s.threads[p]);
    if s.threads[p].Asleep? {
      q := AwakeBelow(s, s.threads[p].child);
    } else {
      q := p;
    }
  }

  /** waitpid cannot deadlock: whoever sleeps in it, at any moment of any run, waits in the end for some
      process that is not asleep. */
  lemma SomebodyIsAwake(run: seq<State>, steps: seq<Step>, i: nat)
    requires IsRun(run, steps) && i < |run|
    ensures exists p :: p in run[i].threads && !run[i].threads[p].Asleep?
  {
    RunKeepsInv(run, steps, i);
    ParentsAreElder(run, steps, i);
    assert ThreadsOk(run[i]) && SerialsOk(run[i]) && 0 in run[i].threads;
    hide IsRun, Inv, ElderParents;
    var q := AwakeBelow(run[i], 0);
  }

  /** On every run a process outside waitpid can fork onto any free pid, wait for anything, and, unless it
      is the kernel's own, exit; a woken one can go on; a sleeping one waits for a process that lives. */
  lemma NobodyIsStuck(run: seq<State>, steps: seq<Step>, i: nat, p: Pid)
    requires IsRun(run, steps) && i < |run| && p in run[i].procs && !run[i].procs[p].exited
    ensures p in run[i].threads
    ensures
      var s := run[i];
      match s.threads[p]
      case Running =>
        && (forall q :: q > 0 && q !in s.procs ==> Enabled(s, Fork(p, q)))
        && (forall code :: p != 0 ==> Enabled(s, Exit(p, code)))
        && (forall pid, options, bad :: Enabled(s, Wait(p, pid, options, bad)))
      case Woken(_, _) => Enabled(s, Resume(p))
      case Asleep(c, _) => c in s.threads && s.procs[p].children != [] && c in s.procs[p].children
  {
    RunKeepsInv(run, steps, i);
    var s := run[i];
    assert ThreadsOk(s) && WaitOk(s, p, s.threads[p]);
    ChildrenAre(s.procs, p);
    hide IsRun, Inv, FamilyOk, ZombiesOk, SerialsOk, CodesOk;
  }
}
