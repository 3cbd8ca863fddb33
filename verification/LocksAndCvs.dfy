/** kern/thread/synch.c: a sleep lock and a condition variable used with it, step by step.  A step is
    what one thread does while it holds the spinlock of the lock or of the condition variable. */
module LocksAndCvs {
  import opened Collections

  type Tid = int
  const NOBODY: Tid := -1

  datatype Pc =
    | Outside
    | Wanting(woken: bool)   // about to test is_locked, for the first time or after wchan_wakeone
    | LockAsleep             // on the lock's channel
    | Holding                // past lock_acquire
    | CvLocked               // in cv_wait with the lock and cv_spinlock
    | CvUnlocked             // in cv_wait, lock_release done, not yet on the channel
    | CvAsleep               // on the condition variable's channel
    | CvWoken                // off the channel, lock_acquire still to come

  datatype State = State(
    locked: bool,
    holder: Tid,             // lock_holder
    lockQ: seq<Tid>,         // lock_wchan
    cvSpin: Tid,             // the thread that holds cv_spinlock
    cvQ: seq<Tid>,           // cv_wchan
    pc: map<Tid, Pc>)

  datatype Step =
    | Want(t: Tid)           // call lock_acquire
    | TryLock(t: Tid)        // one turn of lock_acquire's loop
    | Release(t: Tid)        // lock_release
    | WaitBegin(t: Tid)      // cv_wait: spinlock_acquire(cv_spinlock)
    | WaitUnlock(t: Tid)     //          lock_release
    | WaitSleep(t: Tid)      //          wchan_sleep, which drops cv_spinlock
    | Rewoken(t: Tid)        //          spinlock taken again and dropped; on to lock_acquire
    | Signal(t: Tid)
    | Broadcast(t: Tid)

  function At(s: State, t: Tid): Pc { if t in s.pc then s.pc[t] else Outside }

  predicate Enabled(s: State, step: Step)
  {
    match step
    case Want(t) => t != NOBODY && At(s, t).Outside?
    case TryLock(t) => At(s, t).Wanting?
    case Release(t) => At(s, t).Holding?
    case WaitBegin(t) => At(s, t).Holding? && s.cvSpin == NOBODY
    case WaitUnlock(t) => At(s, t).CvLocked?
    case WaitSleep(t) => At(s, t).CvUnlocked?
    case Rewoken(t) => At(s, t).CvWoken? && s.cvSpin == NOBODY
    case Signal(t) => At(s, t).Holding? && s.cvSpin == NOBODY
    case Broadcast(t) => At(s, t).Holding? && s.cvSpin == NOBODY
  }

  /** lock_release: unlock and wake the thread that has slept longest. */
  function Unlock(s: State): State
  {
    var s1 := s.(locked := false, holder := NOBODY);
    if s.lockQ == [] then s1 else s1.(lockQ := s.lockQ[1..], pc := s.pc[s.lockQ[0] := Wanting(true)])
  }

  /** wchan_wakeall. */
  function WakeAll(pc: map<Tid, Pc>, q: seq<Tid>): map<Tid, Pc>
    decreases |q|
  {
    if q == [] then pc else WakeAll(pc[q[0] := CvWoken], q[1..])
  }

  function After(s: State, step: Step): State
    requires Enabled(s, step)
  {
    match step
    case Want(t) => s.(pc := s.pc[t := Wanting(false)])
    case TryLock(t) =>
      if s.locked then s.(lockQ := s.lockQ + [t], pc := s.pc[t := LockAsleep])
      else s.(locked := true, holder := t, pc := s.pc[t := Holding])
    case Release(t) => var s1 := Unlock(s); s1.(pc := s1.pc[t := Outside])
    case WaitBegin(t) => s.(cvSpin := t, pc := s.pc[t := CvLocked])
    case WaitUnlock(t) => var s1 := Unlock(s); s1.(pc := s1.pc[t := CvUnlocked])
    case WaitSleep(t) => s.(cvSpin := NOBODY, cvQ := s.cvQ + [t], pc := s.pc[t := CvAsleep])
    case Rewoken(t) => s.(pc := s.pc[t := Wanting(false)])
    case Signal(t) => if s.cvQ == [] then s else s.(cvQ := s.cvQ[1..], pc := s.pc[s.cvQ[0] := CvWoken])
    case Broadcast(t) => s.(cvQ := [], pc := WakeAll(s.pc, s.cvQ))
  }

  ghost predicate Initial(s: State) { s == State(false, NOBODY, [], NOBODY, [], map[]) }

  ghost predicate IsRun(run: seq<State>, steps: seq<Step>)
  {
    && |run| == |steps| + 1 && Initial(run[0])
    && forall i :: 0 <= i < |steps| ==> Enabled(run[i], steps[i]) && run[i + 1] == After(run[i], steps[i])
  }

  // ------------------------------------------------------------------ invariant

  predicate InCritical(pc: Pc) { pc.Holding? || pc.CvLocked? }

  ghost predicate Mutex(s: State)
  {
    && (s.locked <==> s.holder != NOBODY)
    && (s.holder != NOBODY ==> InCritical(At(s, s.holder)))
    && (forall t :: t in s.pc && InCritical(s.pc[t]) ==> t == s.holder)
  }

  ghost predicate SpinOk(s: State)
  {
    && NOBODY !in s.pc
    && (s.cvSpin != NOBODY ==> At(s, s.cvSpin).CvLocked? || At(s, s.cvSpin).CvUnlocked?)
    && (forall t :: t in s.pc && (s.pc[t].CvLocked? || s.pc[t].CvUnlocked?) ==> t == s.cvSpin)
  }

  /** A thread is on a channel exactly when it sleeps there. */
  ghost predicate LockChannelOk(s: State)
  {
    Distinct(s.lockQ) && forall t :: t in s.lockQ <==> t in s.pc && s.pc[t].LockAsleep?
  }

  ghost predicate CvChannelOk(s: State)
  {
    Distinct(s.cvQ) && forall t :: t in s.cvQ <==> t in s.pc && s.pc[t].CvAsleep?
  }

  ghost predicate ChannelsOk(s: State) { LockChannelOk(s) && CvChannelOk(s) }

  ghost predicate WokenOnItsWay(s: State)
  {
    !s.locked && s.lockQ != [] ==> exists t :: t in s.pc && s.pc[t] == Wanting(true)
  }

  ghost predicate Inv(s: State) { Mutex(s) && SpinOk(s) && ChannelsOk(s) && WokenOnItsWay(s) }

  lemma {:induction false} WakeAllMeaning(pc: map<Tid, Pc>, q: seq<Tid>)
    ensures forall t :: t in WakeAll(pc, q) <==> t in pc || t in q
    ensures forall t :: t in WakeAll(pc, q) ==> WakeAll(pc, q)[t] == if t in q then CvWoken else pc[t]
    decreases |q|
  {
    if q != [] {
      assert forall t :: t in q <==> t == q[0] || t in q[1..];
      WakeAllMeaning(pc[q[0] := CvWoken], q[1..]);
    }
  }

  lemma MutexKept(s: State, step: Step)
    requires Inv(s) && Enabled(s, step)
    ensures Mutex(After(s, step))
  {
    hide WakeAll, WokenOnItsWay;
    WakeAllMeaning(s.pc, s.cvQ);
  }

  lemma SpinKept(s: State, step: Step)
    requires Inv(s) && Enabled(s, step)
    ensures SpinOk(After(s, step))
  {
    hide WakeAll, WokenOnItsWay;
    WakeAllMeaning(s.pc, s.cvQ);
  }

  lemma DropFirst(q: seq<Tid>)
    requires q != [] && Distinct(q)
    ensures Distinct(q[1..]) && forall t :: t in q[1..] <==> t in q && t != q[0]
  {
    assert forall t :: t in q <==> t == q[0] || t in q[1..];
    assert q[0] !in q[1..];
  }

  lemma AddLast(q: seq<Tid>, x: Tid)
    requires Distinct(q) && x !in q
    ensures Distinct(q + [x]) && forall t :: t in q + [x] <==> t in q || t == x
  {
  }

  lemma LockChannelKept(s: State, step: Step)
    requires Inv(s) && Enabled(s, step)
    ensures LockChannelOk(After(s, step))
  {
    hide WakeAll, WokenOnItsWay, Distinct, Mutex;
    if s.lockQ != [] {
      DropFirst(s.lockQ);
    }
    if s.cvQ != [] {
      assert s.cvQ[0] in s.cvQ;
    }
    if step.TryLock? {
      AddLast(s.lockQ, step.t);
    }
    WakeAllMeaning(s.pc, s.cvQ);
  }

  lemma NoneDistinct()
    ensures Distinct<Tid>([])
  {
  }

  lemma CvSleepKept(s: State, t: Tid)
    requires Inv(s) && Enabled(s, WaitSleep(t))
    ensures CvChannelOk(After(s, WaitSleep(t)))
  {
    hide WakeAll, WokenOnItsWay, Distinct, Mutex, LockChannelOk, SpinOk;
    AddLast(s.cvQ, t);
  }

  lemma CvWakeKept(s: State, step: Step)
    requires Inv(s) && Enabled(s, step) && (step.Signal? || step.Broadcast?)
    ensures CvChannelOk(After(s, step))
  {
    hide WakeAll, WokenOnItsWay, Distinct, Mutex, LockChannelOk, SpinOk;
    NoneDistinct();
    if s.cvQ != [] {
      DropFirst(s.cvQ);
    }
    WakeAllMeaning(s.pc, s.cvQ);
  }

  lemma CvChannelKept(s: State, step: Step)
    requires Inv(s) && Enabled(s, step)
    ensures CvChannelOk(After(s, step))
  {
    if step.WaitSleep? {
      CvSleepKept(s, step.t);
    } else if step.Signal? || step.Broadcast? {
      CvWakeKept(s, step);
    } else {
      hide WokenOnItsWay, Distinct, Mutex;
      if s.lockQ != [] {
        assert s.lockQ[0] in s.lockQ;
      }
    }
  }

  lemma WokenKept(s: State, step: Step)
    requires Inv(s) && Enabled(s, step)
    ensures WokenOnItsWay(After(s, step))
  {
    hide WakeAll;
    WakeAllMeaning(s.pc, s.cvQ);
    var s' := After(s, step);
    if !s'.locked && s'.lockQ != [] {
      if step.Release? || step.WaitUnlock? {
        var first := s.lockQ[0];
        assert first in s.lockQ && first != step.t;
        assert first in s'.pc && s'.pc[first] == Wanting(true);
      } else {
        var t :| t in s.pc && s.pc[t] == Wanting(true);
        if s.cvQ != [] {
          assert s.cvQ[0] in s.cvQ;
        }
        assert t in s'.pc && s'.pc[t] == Wanting(true);
      }
    }
  }

  lemma StepKeeps(s: State, step: Step)
    requires Inv(s) && Enabled(s, step)
    ensures Inv(After(s, step))
  {
    hide Mutex, SpinOk, LockChannelOk, CvChannelOk, WokenOnItsWay;
    MutexKept(s, step);
    SpinKept(s, step);
    LockChannelKept(s, step);
    CvChannelKept(s, step);
    WokenKept(s, step);
  }

  lemma {:induction false} RunKeepsInv(run: seq<State>, steps: seq<Step>, i: nat)
    requires IsRun(run, steps) && i < |run|
    ensures Inv(run[i])
  {
    hide Enabled, After;
    if i > 0 {
      RunKeepsInv(run, steps, i - 1);
      StepKeeps(run[i - 1], steps[i - 1]);
    }
  }

  // ------------------------------------------------------------------- theorems

  /** At most one thread is past lock_acquire, and it is the recorded holder. */
  lemma MutualExclusion(run: seq<State>, steps: seq<Step>, i: nat, t: Tid, u: Tid)
    requires IsRun(run, steps) && i < |run| && InCritical(At(run[i], t)) && InCritical(At(run[i], u))
    ensures t == u == run[i].holder && run[i].locked
  {
    RunKeepsInv(run, steps, i);
  }

  lemma TakesIt(s: State, t: Tid)
    requires !s.locked && At(s, t) == Wanting(true)
    ensures Enabled(s, TryLock(t)) && After(s, TryLock(t)).holder == t
  {
  }

  /** A free lock with sleepers always has a woken thread about to take it, so nobody sleeps forever in
      front of a free lock. */
  lemma FreeLockIsTaken(run: seq<State>, steps: seq<Step>, i: nat)
    requires IsRun(run, steps) && i < |run| && !run[i].locked && run[i].lockQ != []
    ensures exists t ::
      At(run[i], t) == Wanting(true) && Enabled(run[i], TryLock(t)) && After(run[i], TryLock(t)).holder == t
  {
    hide After;
    RunKeepsInv(run, steps, i);
    var t :| t in run[i].pc && run[i].pc[t] == Wanting(true);
    TakesIt(run[i], t);
  }

  /** cv_wait gives up the lock and goes to sleep in one step as far as cv_broadcast can tell: whoever
      has released the lock in cv_wait is on the channel when a broadcast looks, and is woken by it. */
  lemma BroadcastMissesNobody(run: seq<State>, steps: seq<Step>, i: nat, t: Tid)
    requires IsRun(run, steps) && i < |steps| && steps[i] == Broadcast(t)
    ensures forall u :: !At(run[i], u).CvUnlocked?
    ensures forall u :: At(run[i], u).CvAsleep? ==> u in run[i].cvQ && At(run[i + 1], u).CvWoken?
    ensures var s := run[i + 1]; forall u :: u in s.pc ==> !s.pc[u].CvAsleep?
    ensures run[i + 1] == run[i].(cvQ := [], pc := run[i + 1].pc)
    ensures forall u :: !At(run[i], u).CvAsleep? ==> At(run[i + 1], u) == At(run[i], u)
  {
    RunKeepsInv(run, steps, i);
    WakeAllMeaning(run[i].pc, run[i].cvQ);
  }

  /** From the moment cv_wait drops the lock until a wakeup, a thread is asleep or about to be, and only
      a signal or a broadcast by the lock's holder can change that. */
  lemma OnlyAWakeupEndsTheWait(run: seq<State>, steps: seq<Step>, i: nat, u: Tid)
    requires IsRun(run, steps) && i < |steps|
    requires At(run[i], u).CvUnlocked? || At(run[i], u).CvAsleep?
    requires !At(run[i + 1], u).CvUnlocked? && !At(run[i + 1], u).CvAsleep?
    ensures steps[i].Signal? || steps[i].Broadcast?
    ensures steps[i].t == run[i].holder && At(run[i], u).CvAsleep? && At(run[i + 1], u).CvWoken?
  {
    RunKeepsInv(run, steps, i);
    WakeAllMeaning(run[i].pc, run[i].cvQ);
    if run[i].lockQ != [] {
      assert run[i].lockQ[0] in run[i].lockQ;
    }
    if run[i].cvQ != [] {
      assert run[i].cvQ[0] in run[i].cvQ;
    }
  }

  // ------------------------------------------------------------------ who is woken

  /** When `step` was last taken before time i; -1 for never. */
  function LastTime(steps: seq<Step>, i: nat, step: Step): int
    requires i <= |steps|
  {
    if i == 0 then -1 else if steps[i - 1] == step then i - 1 else LastTime(steps, i - 1, step)
  }

  lemma {:induction false} LastTimeBound(steps: seq<Step>, i: nat, step: Step)
    requires i <= |steps|
    ensures -1 <= LastTime(steps, i, step) < i
  {
    if i > 0 { LastTimeBound(steps, i - 1, step); }
  }

  /** The channel lists its sleepers in the order in which they went to sleep. */
  ghost predicate CvInOrder(q: seq<Tid>, steps: seq<Step>, i: nat)
    requires i <= |steps|
  {
    && (forall a :: 0 <= a < |q| ==> LastTime(steps, i, WaitSleep(q[a])) >= 0)
    && forall a, b :: 0 <= a < b < |q| ==> LastTime(steps, i, WaitSleep(q[a])) < LastTime(steps, i, WaitSleep(q[b]))
  }

  ghost predicate LockInOrder(q: seq<Tid>, steps: seq<Step>, i: nat)
    requires i <= |steps|
  {
    && (forall a :: 0 <= a < |q| ==> LastTime(steps, i, TryLock(q[a])) >= 0)
    && forall a, b :: 0 <= a < b < |q| ==> LastTime(steps, i, TryLock(q[a])) < LastTime(steps, i, TryLock(q[b]))
  }

  lemma CvOrderKept(q: seq<Tid>, steps: seq<Step>, i: nat)
    requires i < |steps| && CvInOrder(q, steps, i)
    requires steps[i].WaitSleep? ==> steps[i].t !in q
    ensures CvInOrder(q, steps, i + 1)
    ensures steps[i].WaitSleep? ==> CvInOrder(q + [steps[i].t], steps, i + 1)
  {
    forall a | 0 <= a < |q|
      ensures LastTime(steps, i + 1, WaitSleep(q[a])) == LastTime(steps, i, WaitSleep(q[a])) < i
    {
      assert q[a] in q;
      LastTimeBound(steps, i, WaitSleep(q[a]));
    }
  }

  lemma LockOrderKept(q: seq<Tid>, steps: seq<Step>, i: nat)
    requires i < |steps| && LockInOrder(q, steps, i)
    requires steps[i].TryLock? ==> steps[i].t !in q
    ensures LockInOrder(q, steps, i + 1)
    ensures steps[i].TryLock? ==> LockInOrder(q + [steps[i].t], steps, i + 1)
  {
    forall a | 0 <= a < |q|
      ensures LastTime(steps, i + 1, TryLock(q[a])) == LastTime(steps, i, TryLock(q[a])) < i
    {
      assert q[a] in q;
      LastTimeBound(steps, i, TryLock(q[a]));
    }
  }

  lemma FirstGone(q: seq<Tid>, steps: seq<Step>, i: nat)
    requires i <= |steps| && q != []
    ensures CvInOrder(q, steps, i) ==> CvInOrder(q[1..], steps, i)
    ensures LockInOrder(q, steps, i) ==> LockInOrder(q[1..], steps, i)
  {
  }

  /** How one step changes the two channels. */
  lemma ChannelsMove(s: State, step: Step)
    requires Inv(s) && Enabled(s, step)
    ensures
      var q, q' := s.cvQ, After(s, step).cvQ;
      && (step.WaitSleep? ==> step.t !in q && q' == q + [step.t])
      && (!step.WaitSleep? ==> q' == q || q' == [] || (q != [] && q' == q[1..]))
    ensures
      var q, q' := s.lockQ, After(s, step).lockQ;
      && (step.TryLock? ==> step.t !in q && (q' == q || q' == q + [step.t]))
      && (!step.TryLock? ==> q' == q || (q != [] && q' == q[1..]))
  {
    hide WakeAll, WokenOnItsWay, Mutex, Distinct;
  }

  lemma NoneInOrder(steps: seq<Step>, i: nat)
    requires i <= |steps|
    ensures CvInOrder([], steps, i) && LockInOrder([], steps, i)
  {
  }

  lemma StepOf(run: seq<State>, steps: seq<Step>, i: nat)
    requires IsRun(run, steps) && i < |steps|
    ensures Enabled(run[i], steps[i]) && run[i + 1] == After(run[i], steps[i])
  {
    hide Enabled, After;
  }

  lemma CvOrderOn(q: seq<Tid>, q': seq<Tid>, steps: seq<Step>, i: nat)
    requires i < |steps| && CvInOrder(q, steps, i)
    requires steps[i].WaitSleep? ==> steps[i].t !in q && q' == q + [steps[i].t]
    requires !steps[i].WaitSleep? ==> q' == q || q' == [] || (q != [] && q' == q[1..])
    ensures CvInOrder(q', steps, i + 1)
  {
    hide CvInOrder;
    CvOrderKept(q, steps, i);
    if q != [] { FirstGone(q, steps, i + 1); }
    NoneInOrder(steps, i + 1);
  }

  lemma LockOrderOn(q: seq<Tid>, q': seq<Tid>, steps: seq<Step>, i: nat)
    requires i < |steps| && LockInOrder(q, steps, i)
    requires steps[i].TryLock? ==> steps[i].t !in q && (q' == q || q' == q + [steps[i].t])
    requires !steps[i].TryLock? ==> q' == q || (q != [] && q' == q[1..])
    ensures LockInOrder(q', steps, i + 1)
  {
    hide LockInOrder;
    LockOrderKept(q, steps, i);
    if q != [] { FirstGone(q, steps, i + 1); }
  }

  lemma {:induction false} ChannelsInOrder(run: seq<State>, steps: seq<Step>, i: nat)
    requires IsRun(run, steps) && i < |run|
    ensures CvInOrder(run[i].cvQ, steps, i) && LockInOrder(run[i].lockQ, steps, i)
  {
    hide Inv, Enabled, After, CvInOrder, LockInOrder;
    if i == 0 {
      NoneInOrder(steps, 0);
    } else {
      ChannelsInOrder(run, steps, i - 1);
      RunKeepsInv(run, steps, i - 1);
      StepOf(run, steps, i - 1);
      ChannelsMove(run[i - 1], steps[i - 1]);
      CvOrderOn(run[i - 1].cvQ, run[i].cvQ, steps, i - 1);
      LockOrderOn(run[i - 1].lockQ, run[i].lockQ, steps, i - 1);
    }
  }

  /** Thread t has gone from p to p', and no other has moved. */
  ghost predicate OnlyMoves(s: State, s': State, t: Tid, p: Pc, p': Pc)
  {
    At(s, t) == p && At(s', t) == p' && forall u :: u != t ==> At(s', u) == At(s, u)
  }

  /** Whoever else sleeps on the channel went to sleep after its first thread. */
  lemma FirstIsEldest(run: seq<State>, steps: seq<Step>, i: nat)
    requires IsRun(run, steps) && i < |run|
    ensures |run| == |steps| + 1
    ensures var q := run[i].cvQ; q != [] ==>
      forall u :: At(run[i], u).CvAsleep? && u != q[0] ==>
        LastTime(steps, i, WaitSleep(q[0])) < LastTime(steps, i, WaitSleep(u))
    ensures var q := run[i].lockQ; q != [] ==>
      forall u :: At(run[i], u).LockAsleep? && u != q[0] ==>
        LastTime(steps, i, TryLock(q[0])) < LastTime(steps, i, TryLock(u))
  {
    RunKeepsInv(run, steps, i);
    ChannelsInOrder(run, steps, i);
    hide WokenOnItsWay, Mutex, SpinOk, Distinct, LastTime, Enabled, After;
    var s := run[i];
    forall u | At(s, u).CvAsleep? && s.cvQ != [] && u != s.cvQ[0]
      ensures LastTime(steps, i, WaitSleep(s.cvQ[0])) < LastTime(steps, i, WaitSleep(u))
    {
      assert u in s.cvQ;
      var b :| 0 <= b < |s.cvQ| && s.cvQ[b] == u;
    }
    forall u | At(s, u).LockAsleep? && s.lockQ != [] && u != s.lockQ[0]
      ensures LastTime(steps, i, TryLock(s.lockQ[0])) < LastTime(steps, i, TryLock(u))
    {
      assert u in s.lockQ;
      var b :| 0 <= b < |s.lockQ| && s.lockQ[b] == u;
    }
  }

  /** cv_signal wakes exactly one sleeper, the one that has slept longest, and does nothing else; with nobody
      asleep it does nothing. */
  lemma SignalWakesTheFirst(run: seq<State>, steps: seq<Step>, i: nat)
    requires IsRun(run, steps) && i < |steps| && steps[i].Signal?
    ensures run[i].cvQ == [] <==> forall u :: !At(run[i], u).CvAsleep?
    ensures run[i].cvQ == [] ==> run[i + 1] == run[i]
    ensures run[i].cvQ != [] ==>
      var s, s', first := run[i], run[i + 1], run[i].cvQ[0];
      && OnlyMoves(s, s', first, CvAsleep, CvWoken) && s' == s.(cvQ := s.cvQ[1..], pc := s'.pc)
      && forall u :: At(s, u).CvAsleep? && u != first ==>
           LastTime(steps, i, WaitSleep(first)) < LastTime(steps, i, WaitSleep(u))
  {
    FirstIsEldest(run, steps, i);
    RunKeepsInv(run, steps, i);
    StepOf(run, steps, i);
    hide WokenOnItsWay, Mutex, SpinOk, Distinct, LastTime, IsRun, WakeAll;
    var q := run[i].cvQ;
    if q != [] { assert q[0] in q && At(run[i], q[0]).CvAsleep?; }
  }

  /** What unlocking does to the state before the caller moves on. */
  lemma UnlockMoves(s: State, t: Tid, p: Pc)
    requires Inv(s) && InCritical(At(s, t))
    ensures
      var s1 := Unlock(s);
      var s' := s1.(pc := s1.pc[t := p]);
      && s.locked && s.holder == t && !s'.locked && s'.holder == NOBODY
      && s'.cvQ == s.cvQ && s'.cvSpin == s.cvSpin && At(s', t) == p
      && (s.lockQ == [] <==> forall u :: !At(s, u).LockAsleep?)
      && (s.lockQ == [] ==> s'.lockQ == [] && OnlyMoves(s, s', t, At(s, t), p))
      && (s.lockQ != [] ==>
            && s'.lockQ == s.lockQ[1..] && At(s, s.lockQ[0]).LockAsleep? && At(s', s.lockQ[0]) == Wanting(true)
            && (forall u :: u != t && u != s.lockQ[0] ==> At(s', u) == At(s, u)))
  {
    hide WokenOnItsWay, Distinct, CvChannelOk;
    if s.lockQ != [] { assert s.lockQ[0] in s.lockQ && At(s, s.lockQ[0]).LockAsleep?; }
  }

  /** lock_release, on its own or in cv_wait: the lock is free, the thread that has waited longest is woken
      to try for it, the caller moves on, and nothing else happens. */
  lemma ReleaseWakesTheFirst(run: seq<State>, steps: seq<Step>, i: nat)
    requires IsRun(run, steps) && i < |steps| && (steps[i].Release? || steps[i].WaitUnlock?)
    ensures
      var s, s', t := run[i], run[i + 1], steps[i].t;
      var done := if steps[i].Release? then Outside else CvUnlocked;
      && s.locked && s.holder == t && !s'.locked && s'.holder == NOBODY
      && s'.cvQ == s.cvQ && s'.cvSpin == s.cvSpin && At(s', t) == done
      && (s.lockQ == [] <==> forall u :: !At(s, u).LockAsleep?)
      && (s.lockQ == [] ==> s'.lockQ == [] && OnlyMoves(s, s', t, At(s, t), done))
    ensures run[i].lockQ != [] ==>
      var s, s', t, first := run[i], run[i + 1], steps[i].t, run[i].lockQ[0];
      && s'.lockQ == s.lockQ[1..] && At(s, first).LockAsleep? && At(s', first) == Wanting(true)
      && (forall u :: u != t && u != first ==> At(s', u) == At(s, u))
      && forall u :: At(s, u).LockAsleep? && u != first ==>
           LastTime(steps, i, TryLock(first)) < LastTime(steps, i, TryLock(u))
  {
    FirstIsEldest(run, steps, i);
    RunKeepsInv(run, steps, i);
    StepOf(run, steps, i);
    UnlockMoves(run[i], steps[i].t, if steps[i].Release? then Outside else CvUnlocked);
    hide Inv, LastTime, IsRun, WakeAll, Unlock, OnlyMoves;
  }

  /** One turn of lock_acquire: a free lock is taken, in front of a held one the caller joins the end of the
      channel. */
  lemma TryLockTakesOrSleeps(run: seq<State>, steps: seq<Step>, i: nat)
    requires IsRun(run, steps) && i < |steps| && steps[i].TryLock?
    ensures
      var s, s', t := run[i], run[i + 1], steps[i].t;
      && (!s.locked ==> OnlyMoves(s, s', t, At(s, t), Holding) && s' == s.(locked := true, holder := t, pc := s'.pc))
      && (s.locked ==> OnlyMoves(s, s', t, At(s, t), LockAsleep) && s' == s.(lockQ := s.lockQ + [t], pc := s'.pc))
  {
  }

  // -------------------------------------------------------------- cv_wait as a whole

  /** The remaining steps: calling lock_acquire, the three stages of cv_wait around its release of the lock,
      each moving its caller on and no one else. */
  lemma CallerMovesOn(run: seq<State>, steps: seq<Step>, i: nat)
    requires IsRun(run, steps) && i < |steps|
    ensures
      var s, s', t := run[i], run[i + 1], steps[i].t;
      && (steps[i].Want? ==> OnlyMoves(s, s', t, Outside, Wanting(false)) && s' == s.(pc := s'.pc))
      && (steps[i].WaitBegin? ==> OnlyMoves(s, s', t, Holding, CvLocked) && s' == s.(cvSpin := t, pc := s'.pc))
      && (steps[i].WaitSleep? ==>
            && s.cvSpin == t && OnlyMoves(s, s', t, CvUnlocked, CvAsleep)
            && s' == s.(cvSpin := NOBODY, cvQ := s.cvQ + [t], pc := s'.pc))
      && (steps[i].Rewoken? ==> OnlyMoves(s, s', t, CvWoken, Wanting(false)) && s' == s.(pc := s'.pc))
  {
    RunKeepsInv(run, steps, i);
    StepOf(run, steps, i);
    hide IsRun, WakeAll, WokenOnItsWay, ChannelsOk, Mutex;
  }

  /** Between times i and j the thread has given the lock up in cv_wait. */
  ghost predicate GaveUp(run: seq<State>, steps: seq<Step>, i: nat, j: nat, t: Tid)
    requires |run| == |steps| + 1 && j < |run|
    decreases j
  {
    i < j && ((steps[j - 1] == WaitUnlock(t) && !run[j].locked) || GaveUp(run, steps, i, j - 1, t))
  }

  /** ... and after that been woken from the channel by a signal or a broadcast. */
  ghost predicate WasWoken(run: seq<State>, steps: seq<Step>, i: nat, j: nat, t: Tid)
    requires |run| == |steps| + 1 && j < |run|
    decreases j
  {
    && i < j
    && (|| (GaveUp(run, steps, i, j - 1, t) && (steps[j - 1].Signal? || steps[j - 1].Broadcast?)
            && At(run[j - 1], t).CvAsleep? && At(run[j], t).CvWoken?)
        || WasWoken(run, steps, i, j - 1, t))
  }

  ghost predicate Waited(run: seq<State>, steps: seq<Step>, i: nat, j: nat, t: Tid)
    requires |run| == |steps| + 1 && j < |run|
  {
    match At(run[j], t)
    case Outside => false
    case CvLocked => true
    case CvUnlocked => GaveUp(run, steps, i, j, t)
    case CvAsleep => GaveUp(run, steps, i, j, t)
    case _ => WasWoken(run, steps, i, j, t)
  }

  /** What a thread on its way through cv_wait or lock_acquire may do in one step. */
  ghost predicate WaiterMove(s: State, step: Step, s': State, t: Tid)
  {
    var p, p' := At(s, t), At(s', t);
    || p' == p
    || (p.CvLocked? && step == WaitUnlock(t) && p'.CvUnlocked? && !s'.locked)
    || (p.CvUnlocked? && step == WaitSleep(t) && p'.CvAsleep?)
    || (p.CvAsleep? && (step.Signal? || step.Broadcast?) && p'.CvWoken?)
    || (p.CvWoken? && step == Rewoken(t) && p' == Wanting(false))
    || (p.Wanting? && step == TryLock(t) && (p'.LockAsleep? || p'.Holding?))
    || (p.LockAsleep? && (step.Release? || step.WaitUnlock?) && p' == Wanting(true))
  }

  lemma WaiterMoves(s: State, step: Step, t: Tid)
    requires Inv(s) && Enabled(s, step) && !At(s, t).Holding? && !At(s, t).Outside?
    ensures WaiterMove(s, step, After(s, step), t)
  {
    hide WakeAll, WokenOnItsWay;
    WakeAllMeaning(s.pc, s.cvQ);
    if s.lockQ != [] { assert s.lockQ[0] in s.lockQ; }
    if s.cvQ != [] { assert s.cvQ[0] in s.cvQ; }
  }

  lemma WaitedOn(run: seq<State>, steps: seq<Step>, i: nat, j: nat, t: Tid)
    requires |run| == |steps| + 1 && i <= j < |steps| && Waited(run, steps, i, j, t)
    requires WaiterMove(run[j], steps[j], run[j + 1], t)
    ensures Waited(run, steps, i, j + 1, t)
  {
  }

  /** From time i until time j the thread neither holds the lock nor is done with it. */
  ghost predicate Between(run: seq<State>, i: nat, j: nat, t: Tid)
    requires j <= |run|
  {
    forall k :: i <= k < j ==> !At(run[k], t).Holding? && !At(run[k], t).Outside?
  }

  lemma BetweenLess(run: seq<State>, i: nat, j: nat, t: Tid)
    requires i < j <= |run| && Between(run, i, j, t)
    ensures Between(run, i, j - 1, t) && !At(run[j - 1], t).Holding? && !At(run[j - 1], t).Outside?
  {
  }

  lemma Lengths(run: seq<State>, steps: seq<Step>)
    requires IsRun(run, steps)
    ensures |run| == |steps| + 1
  {
    hide Enabled, After;
  }

  lemma WaitStarts(run: seq<State>, steps: seq<Step>, i: nat, t: Tid)
    requires |run| == |steps| + 1 && i < |run| && At(run[i], t).CvLocked?
    ensures Waited(run, steps, i, i, t)
  {
  }

  lemma {:induction false} WaitGoesOn(run: seq<State>, steps: seq<Step>, i: nat, j: nat, t: Tid)
    requires IsRun(run, steps) && i <= j < |run| && At(run[i], t).CvLocked? && Between(run, i, j, t)
    ensures Waited(run, steps, i, j, t)
  {
    hide Inv, Enabled, After, Waited, WaiterMove, IsRun, Between;
    Lengths(run, steps);
    if j == i {
      WaitStarts(run, steps, i, t);
    } else {
      BetweenLess(run, i, j, t);
      WaitGoesOn(run, steps, i, j - 1, t);
      RunKeepsInv(run, steps, j - 1);
      StepOf(run, steps, j - 1);
      WaiterMoves(run[j - 1], steps[j - 1], t);
      WaitedOn(run, steps, i, j - 1, t);
    }
  }

  /** cv_wait comes back only with the lock, and only after it has given the lock up and a signal or a
      broadcast has woken it from the channel. */
  lemma CvWaitReturnsHolding(run: seq<State>, steps: seq<Step>, i: nat, j: nat, t: Tid)
    requires IsRun(run, steps) && i < j < |run| && At(run[i], t).CvLocked? && Between(run, i, j, t)
    requires At(run[j], t).Holding? || At(run[j], t).Outside?
    ensures At(run[j], t).Holding? && run[j].locked && run[j].holder == t && steps[j - 1] == TryLock(t)
    ensures WasWoken(run, steps, i, j, t)
  {
    BetweenLess(run, i, j, t);
    WaitGoesOn(run, steps, i, j, t);
    RunKeepsInv(run, steps, j - 1);
    RunKeepsInv(run, steps, j);
    StepOf(run, steps, j - 1);
    WaiterMoves(run[j - 1], steps[j - 1], t);
    hide Enabled, After, WasWoken, Between, IsRun, SpinOk, ChannelsOk, WokenOnItsWay;
  }

  /** Nobody is stuck but the sleepers: every other thread's next step is open to it, except that one which
      wants cv_spinlock waits for the thread that has it, whose next step is open. */
  lemma NobodyIsStuck(run: seq<State>, steps: seq<Step>, i: nat, t: Tid)
    requires IsRun(run, steps) && i < |run| && t != NOBODY
    ensures
      var s := run[i];
      match At(s, t)
      case Outside => Enabled(s, Want(t))
      case Wanting(_) => Enabled(s, TryLock(t))
      case LockAsleep => s.locked || exists u :: At(s, u) == Wanting(true) && Enabled(s, TryLock(u))
      case Holding => Enabled(s, Release(t))
      case CvLocked => Enabled(s, WaitUnlock(t))
      case CvUnlocked => Enabled(s, WaitSleep(t))
      case CvAsleep => true
      case CvWoken => s.cvSpin == NOBODY ==> Enabled(s, Rewoken(t))
    ensures At(run[i], t).Holding? && run[i].cvSpin == NOBODY ==>
      Enabled(run[i], WaitBegin(t)) && Enabled(run[i], Signal(t)) && Enabled(run[i], Broadcast(t))
    ensures run[i].cvSpin != NOBODY ==>
      Enabled(run[i], WaitUnlock(run[i].cvSpin)) || Enabled(run[i], WaitSleep(run[i].cvSpin))
  {
    RunKeepsInv(run, steps, i);
    var s := run[i];
    if At(s, t).LockAsleep? && !s.locked {
      assert t in s.lockQ;
      FreeLockIsTaken(run, steps, i);
    }
  }
}
