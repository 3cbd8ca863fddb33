/** kern/proc/proc.c and kern/syscall/process_syscalls.c, as they run: the records changed in place and
    the lists walked element by element.  Each method is proved to take the step of the same name. */
module ProcTable {
  import opened ProcLife

  /** proc_remlist on a list of pids. */
  method ProcRemlist(list: seq<Pid>, val: Pid) returns (l: seq<Pid>)
    ensures l == Remlist(list, val)
  {
    l := list;
    if l == [] {
      return;
    }
    var first := l[0];
    l := l[1..];
    if first == val || l == [] {
      return;
    }
    l := l + [first];
    ghost var i := 1;
    while l[0] != first
      invariant 1 <= i <= |list| && l == list[i..] + list[..i]
      invariant Rotate(list, val, 1) == Rotate(list, val, i)
      decreases |list| - i
    {
      assert i < |list|;
      var cur := l[0];
      l := l[1..];
      if cur == val {
        return;
      }
      l := l + [cur];
      i := i + 1;
    }
  }

  class Directory {
    var procs: map<Pid, Proc>
    var threads: map<Pid, Thread>
    var next: nat
    ghost var codes: map<nat, int>
    ghost var destroyed: seq<nat>
    ghost var delivered: seq<Delivery>

    ghost function S(): State
      reads this
    {
      State(procs, threads, next, codes, destroyed, delivered)
    }

    /** proc_bootstrap. */
    constructor ()
      ensures Initial(S())
    {
      procs := map[0 := Proc(0, NONE, NONE, false, 0, [], true)];
      threads := map[0 := Running];
      next := 1;
      codes, destroyed, delivered := map[], [], [];
    }

    method ProcDestroy(p: Pid)
      requires p in procs
      modifies this`procs, this`destroyed
      ensures S() == old(Destroy(S(), p))
    {
      destroyed := destroyed + [procs[p].serial];
      procs := procs - {p};
    }

    /** proc_exit's walk over the children. */
    method OrphanChildren(children: seq<Pid>)
      modifies this`procs, this`destroyed
      ensures S() == old(Orphan(S(), children))
    {
      var rest := children;
      while rest != []
        invariant Orphan(S(), rest) == old(Orphan(S(), children))
        decreases |rest|
      {
        var c := rest[0];
        if c in procs {
          if procs[c].exited {
            ProcDestroy(c);
          } else {
            procs := procs[c := procs[c].(parent := NONE)];
          }
        }
        rest := rest[1..];
      }
    }

    method ExitProcess(p: Pid, code: int)
      requires p in procs
      modifies this
      ensures S() == old(ProcExit(S(), p, code))
    {
      OrphanChildren(procs[p].children);
      if p !in procs {
        return;
      }
      procs := procs[p := procs[p].(children := [], cvAlive := false)];
      var parent := procs[p].parent;
      if parent == NONE || parent !in procs {
        ProcDestroy(p);
        return;
      }
      procs := procs[p := procs[p].(exited := true, exitVal := code)];
      if procs[parent].waitpid == p && parent in threads && threads[parent].Asleep? {
        threads := threads[parent := Woken(threads[parent].child, threads[parent].serial)];
      }
    }

    method SysExit(p: Pid, code: int)
      requires Inv(S()) && Enabled(S(), Exit(p, code))
      modifies this
      ensures Inv(S()) && S() == old(After(S(), Exit(p, code)))
    {
      hide Inv, ProcExit;
      StepKeeps(S(), Exit(p, code));
      ghost var serial := procs[p].serial;
      ExitProcess(p, code);
      threads := threads - {p};
      codes := codes[serial := code];
    }

    /** sys_fork, and proc_create_runprogram with p == 0; `newpid` is what pid_allocate returned. */
    method SysFork(p: Pid, newpid: Pid)
      requires Inv(S()) && Enabled(S(), Fork(p, newpid))
      modifies this
      ensures Inv(S()) && S() == old(After(S(), Fork(p, newpid)))
    {
      hide Inv;
      StepKeeps(S(), Fork(p, newpid));
      procs := procs[newpid := Proc(next, NONE, NONE, false, 0, [], true)];
      next := next + 1;
      procs := procs[p := procs[p].(children := procs[p].children + [newpid])];
      procs := procs[newpid := procs[newpid].(parent := p)];
      threads := threads[newpid := Running];
      assert procs == old(After(S(), Fork(p, newpid)).procs);
    }

    method Test(p: Pid, pid: Pid) returns (code: seq<int>)
      requires p in procs && pid in procs
      modifies this
      ensures S() == old(TestChild(S(), p, pid))
      ensures code == if old(procs[pid].exited) then [old(procs[pid].exitVal)] else []
    {
      if !procs[pid].exited {
        threads := threads[p := Asleep(pid, procs[pid].serial)];
        return [];
      }
      procs := procs[p := procs[p].(waitpid := NONE)];
      threads := threads[p := Running];
      code := [procs[pid].exitVal];
      delivered := delivered + [Delivery(p, procs[pid].serial, procs[pid].exitVal)];
      ProcDestroy(pid);
      if p in procs {
        var l := ProcRemlist(procs[p].children, pid);
        procs := procs[p := procs[p].(children := l)];
      }
    }

    /** The exit code on record for an exited process is the one it gave to exit. */
    lemma CodeOf(pid: Pid)
      requires Inv(S()) && pid in procs && procs[pid].exited
      ensures procs[pid].serial in codes && procs[pid].exitVal == codes[procs[pid].serial]
    {
      hide FamilyOk, ZombiesOk, ThreadsOk, SerialsOk;
    }

    lemma Refusals(p: Pid, pid: Pid, options: int, badStatus: bool)
      requires Inv(S()) && p in procs
      ensures RefusedFor(S(), p, pid, options, badStatus, WaitError(S(), p, pid, options, badStatus))
    {
      WaitErrorMeaning(S(), p, pid, options, badStatus);
    }

    /** The child a woken waiter points to has exited. */
    lemma ChildExited(p: Pid)
      requires Inv(S()) && Enabled(S(), Resume(p))
      ensures procs[threads[p].child].exited && procs[threads[p].child].serial == threads[p].serial
    {
      assert WaitOk(S(), p, threads[p]);
    }

    /** sys_waitpid up to its first cv_wait or its return.  The code it hands back for a child that has
        exited already is the one the child gave to exit. */
    method SysWaitpid(p: Pid, pid: Pid, options: int, badStatus: bool) returns (err: seq<Errno>, code: seq<int>)
      requires Inv(S()) && Enabled(S(), Wait(p, pid, options, badStatus))
      modifies this
      ensures Inv(S()) && S() == old(After(S(), Wait(p, pid, options, badStatus)))
      ensures old(p in procs) && old(RefusedFor(S(), p, pid, options, badStatus, err))
      ensures code != [] <==> err == [] && old(procs[pid].exited)
      ensures code != [] ==> old(procs[pid].serial in codes && code == [codes[procs[pid].serial]])
    {
      Refusals(p, pid, options, badStatus);
      hide Inv, TestChild, RefusedFor;
      if pid in procs && procs[pid].exited { CodeOf(pid); }
      StepKeeps(S(), Wait(p, pid, options, badStatus));
      code := [];
      if options != 0 {
        return [EINVAL], code;
      }
      if badStatus {
        return [EFAULT], code;
      }
      if pid !in procs {
        return [ESRCH], code;
      }
      if procs[pid].parent != p {
        return [ECHILD], code;
      }
      procs := procs[p := procs[p].(waitpid := pid)];
      code := Test(p, pid);
      err := [];
    }

    /** sys_waitpid from the return of cv_wait to the next cv_wait or its return.  The code it hands back
        is the one the child gave to exit. */
    method ResumeWaitpid(p: Pid) returns (code: seq<int>)
      requires Inv(S()) && Enabled(S(), Resume(p))
      modifies this
      ensures Inv(S()) && S() == old(After(S(), Resume(p)))
      ensures old(threads[p].serial in codes && code == [codes[threads[p].serial]])
    {
      hide Inv, TestChild;
      ChildExited(p);
      CodeOf(threads[p].child);
      StepKeeps(S(), Resume(p));
      code := Test(p, threads[p].child);
    }
  }
}
