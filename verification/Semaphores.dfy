/** kern/thread/synch.c: P and V over a wait channel.  Every step is what one thread does between
    taking and dropping sem_lock; a thread that sleeps drops it only once it is on the channel. */
module Semaphores {

  type Tid = int

  const UINT_MAX := 0xffff_ffff

  /** sem_count, the wait channel, the threads wchan_wakeone has made runnable that have not yet run
      again, and how many P and V calls have completed. */
  datatype Sem = Sem(count: nat, initial: nat, asleep: seq<Tid>, woken: set<Tid>, ps: nat, vs: nat)

  datatype Step = P(t: Tid) | V | Rerun(t: Tid)

  predicate Waits(s: Sem, t: Tid) { t in s.asleep || t in s.woken }

  predicate Enabled(s: Sem, step: Step)
  {
    match step
    case P(t) => !Waits(s, t)
    case V => s.count < UINT_MAX        // V asserts that the count has not wrapped to zero
    case Rerun(t) => t in s.woken
  }

  /** The body of P's loop: go to sleep on a zero count, else take one and be done. */
  function TryP(s: Sem, t: Tid): Sem
  {
    if s.count == 0 then s.(asleep := s.asleep + [t]) else s.(count := s.count - 1, ps := s.ps + 1)
  }

  function After(s: Sem, step: Step): Sem
    requires Enabled(s, step)
  {
    match step
    case P(t) => TryP(s, t)
    case V =>
      var s1 := s.(count := s.count + 1, vs := s.vs + 1);
      if s.asleep == [] then s1 else s1.(asleep := s.asleep[1..], woken := s.woken + {s.asleep[0]})
    case Rerun(t) => TryP(s.(woken := s.woken - {t}), t)
  }

  ghost predicate Initial(s: Sem) { s.count == s.initial && s.asleep == [] && s.woken == {} && s.ps == 0 && s.vs == 0 }

  ghost predicate IsRun(run: seq<Sem>, steps: seq<Step>)
  {
    && |run| == |steps| + 1 && Initial(run[0])
    && forall i :: 0 <= i < |steps| ==> Enabled(run[i], steps[i]) && run[i + 1] == After(run[i], steps[i])
  }

  ghost predicate OnceOnChannel(s: Sem)
  {
    && (forall i, j :: 0 <= i < j < |s.asleep| ==> s.asleep[i] != s.asleep[j])
    && (forall i :: 0 <= i < |s.asleep| ==> s.asleep[i] !in s.woken)
  }

  ghost predicate Inv(s: Sem)
  {
    && s.count + s.ps == s.initial + s.vs
    && OnceOnChannel(s)
    && (s.asleep != [] ==> s.count <= |s.woken|)
  }

  lemma ChannelKept(s: Sem, step: Step)
    requires OnceOnChannel(s) && Enabled(s, step)
    ensures OnceOnChannel(After(s, step))
  {
  }

  lemma FirstAsleep(s: Sem)
    requires OnceOnChannel(s) && s.asleep != []
    ensures s.asleep[0] !in s.woken
  {
  }

  lemma StepKeeps(s: Sem, step: Step)
    requires Inv(s) && Enabled(s, step)
    ensures Inv(After(s, step))
  {
    hide OnceOnChannel;
    ChannelKept(s, step);
    if step.V? && s.asleep != [] {
      assert s.asleep[0] !in s.woken by { FirstAsleep(s); }
    }
  }

  lemma InitialHolds(s: Sem)
    requires Initial(s)
    ensures Inv(s)
  {
  }

  lemma {:induction false} RunKeepsInv(run: seq<Sem>, steps: seq<Step>, i: nat)
    requires IsRun(run, steps) && i < |run|
    ensures Inv(run[i])
  {
    hide Inv, Enabled, After;
    if i == 0 {
      InitialHolds(run[0]);
    } else {
      RunKeepsInv(run, steps, i - 1);
      StepKeeps(run[i - 1], steps[i - 1]);
    }
  }

  lemma SomeMember(s: set<Tid>)
    ensures s == {} || exists t :: t in s
  {
    if forall t :: t !in s {
      assert s == {};
    }
  }

  /** In every state of every run the count is what was there plus the V's less the completed P's, and
      while anybody sleeps, there are at least as many woken threads on their way as the count stands at. */
  lemma NoLostWakeup(run: seq<Sem>, steps: seq<Step>, i: nat)
    requires IsRun(run, steps) && i < |run|
    ensures run[i].count + run[i].ps == run[i].initial + run[i].vs
    ensures run[i].asleep != [] ==> run[i].count <= |run[i].woken|
    ensures run[i].count > 0 && run[i].asleep != [] ==>
      exists t :: t in run[i].woken && After(run[i], Rerun(t)).ps == run[i].ps + 1
  {
    RunKeepsInv(run, steps, i);
    var s := run[i];
    if s.count > 0 && s.asleep != [] {
      SomeMember(s.woken);
      var t :| t in s.woken;
      assert After(s, Rerun(t)).ps == s.ps + 1;
    }
  }

  /** No run completes more P's than the initial count and the V's allow. */
  lemma NeverOverdrawn(run: seq<Sem>, steps: seq<Step>, i: nat)
    requires IsRun(run, steps) && i < |run|
    ensures run[i].ps <= run[i].initial + run[i].vs
    ensures run[i].ps < run[i].initial + run[i].vs && run[i].asleep != [] ==> run[i].woken != {}
  {
    RunKeepsInv(run, steps, i);
  }

  // ------------------------------------------------------------------ one call at a time

  lemma StepOf(run: seq<Sem>, steps: seq<Step>, i: nat)
    requires IsRun(run, steps) && i < |steps|
    ensures Enabled(run[i], steps[i]) && run[i + 1] == After(run[i], steps[i])
  {
    hide Enabled, After;
  }

  /** When t last went round P's loop before time i; -1 for never. */
  function LastTry(steps: seq<Step>, i: nat, t: Tid): int
    requires i <= |steps|
  {
    if i == 0 then -1
    else if steps[i - 1] == P(t) || steps[i - 1] == Rerun(t) then i - 1
    else LastTry(steps, i - 1, t)
  }

  lemma {:induction false} LastTryBound(steps: seq<Step>, i: nat, t: Tid)
    requires i <= |steps|
    ensures -1 <= LastTry(steps, i, t) < i
  {
    if i > 0 { LastTryBound(steps, i - 1, t); }
  }

  /** The channel lists its sleepers in the order in which they went to sleep. */
  ghost predicate InOrder(q: seq<Tid>, steps: seq<Step>, i: nat)
    requires i <= |steps|
  {
    && (forall a :: 0 <= a < |q| ==> LastTry(steps, i, q[a]) >= 0)
    && forall a, b :: 0 <= a < b < |q| ==> LastTry(steps, i, q[a]) < LastTry(steps, i, q[b])
  }

  lemma OrderKept(q: seq<Tid>, steps: seq<Step>, i: nat)
    requires i < |steps| && InOrder(q, steps, i)
    requires !steps[i].V? ==> steps[i].t !in q
    ensures InOrder(q, steps, i + 1) && (q != [] ==> InOrder(q[1..], steps, i + 1))
    ensures !steps[i].V? ==> InOrder(q + [steps[i].t], steps, i + 1)
  {
    forall a | 0 <= a < |q| ensures LastTry(steps, i + 1, q[a]) == LastTry(steps, i, q[a]) < i {
      assert q[a] in q;
      LastTryBound(steps, i, q[a]);
    }
  }

  lemma ChannelMoves(s: Sem, step: Step)
    requires OnceOnChannel(s) && Enabled(s, step)
    ensures
      var q, q' := s.asleep, After(s, step).asleep;
      && (!step.V? ==> step.t !in q && (q' == q || q' == q + [step.t]))
      && (step.V? ==> q' == if q == [] then [] else q[1..])
  {
  }

  lemma {:induction false} ChannelInOrder(run: seq<Sem>, steps: seq<Step>, i: nat)
    requires IsRun(run, steps) && i < |run|
    ensures InOrder(run[i].asleep, steps, i)
  {
    if i > 0 {
      ChannelInOrder(run, steps, i - 1);
      RunKeepsInv(run, steps, i - 1);
      StepOf(run, steps, i - 1);
      ChannelMoves(run[i - 1], steps[i - 1]);
      hide Enabled, After, InOrder, OnceOnChannel;
      OrderKept(run[i - 1].asleep, steps, i - 1);
    }
  }

  /** One turn of P's loop: a positive count is taken from, in front of a zero one the caller joins the end of
      the channel. */
  lemma PTakesOrSleeps(run: seq<Sem>, steps: seq<Step>, i: nat)
    requires IsRun(run, steps) && i < |steps| && !steps[i].V?
    ensures
      var s, s', t := run[i], run[i + 1], steps[i].t;
      && t !in s'.woken && s'.woken == s.woken - {t} && s'.vs == s.vs && s'.initial == s.initial
      && (s.count > 0 ==> s'.count == s.count - 1 && s'.ps == s.ps + 1 && s'.asleep == s.asleep)
      && (s.count == 0 ==> s'.count == 0 && s'.ps == s.ps && s'.asleep == s.asleep + [t])
  {
    StepOf(run, steps, i);
  }

  /** V counts one more and wakes exactly one sleeper, the one that has slept longest, or none if none sleeps. */
  lemma VWakesTheFirst(run: seq<Sem>, steps: seq<Step>, i: nat)
    requires IsRun(run, steps) && i < |steps| && steps[i].V?
    ensures
      var s, s' := run[i], run[i + 1];
      && s'.count == s.count + 1 && s'.vs == s.vs + 1 && s'.ps == s.ps && s'.initial == s.initial
      && (s.asleep == [] ==> s'.asleep == [] && s'.woken == s.woken)
    ensures run[i].asleep != [] ==>
      var s, s', first := run[i], run[i + 1], run[i].asleep[0];
      && first !in s.woken && s'.woken == s.woken + {first} && s'.asleep == s.asleep[1..]
      && forall u :: u in s.asleep && u != first ==> LastTry(steps, i, first) < LastTry(steps, i, u)
  {
    StepOf(run, steps, i);
    RunKeepsInv(run, steps, i);
    ChannelInOrder(run, steps, i);
    hide IsRun, LastTry;
    var q := run[i].asleep;
    forall u | u in q && q != [] && u != q[0] ensures LastTry(steps, i, q[0]) < LastTry(steps, i, u) {
      var b :| 0 <= b < |q| && q[b] == u;
    }
  }

  /** A thread that is not waiting may call P, a woken one go round again, and V is open below the top count. */
  lemma NobodyIsStuck(run: seq<Sem>, steps: seq<Step>, i: nat, t: Tid)
    requires IsRun(run, steps) && i < |run|
    ensures t in run[i].asleep || Enabled(run[i], P(t)) || Enabled(run[i], Rerun(t))
    ensures run[i].count < UINT_MAX ==> Enabled(run[i], V)
  {
  }
}
