/** kern/thread/thread.c: what the scheduler's steps and those of thread_consider_migration do on every run,
    and that a migration once begun comes to its end. */
module MigrationRuns {
  import opened Migration
  import Nonlinear

  lemma StepOf(run: seq<Sys>, steps: seq<Step>, i: nat)
    requires IsRun(run, steps) && i < |steps|
    ensures |run| == |steps| + 1 && Inv(run[i]) && Enabled(run[i], steps[i])
    ensures run[i + 1] == After(run[i], steps[i])
  {
    RunKeepsInv(run, steps, i);
  }

  // ------------------------------------------------------------------ dealing in order

  /** How many threads a queue takes: up to one share, and no more than there are to send. */
  function Room(len: nat, send: nat, share: nat): nat
  {
    if len >= share then 0 else if share - len < send then share - len else send
  }

  /** A list without the sender's own thread is dealt from its head, in order, for as long as there is room. */
  lemma {:induction false} DealInOrder(queue: seq<Tid>, list: seq<Tid>, send: nat, share: nat, cur: Tid)
    requires send <= |list| && cur !in list
    ensures
      var k := Room(|queue|, send, share);
      Deal(queue, list, send, share, cur) == Moved(queue + list[..k], list[k..], send - k, true)
    decreases send
  {
    var k := Room(|queue|, send, share);
    if k == 0 {
      assert queue + list[..0] == queue && list[0..] == list;
    } else {
      assert list[0] in list;
      assert forall t :: t in list[1..] ==> t in list;
      DealInOrder(queue + [list[0]], list[1..], send - 1, share, cur);
      assert queue + [list[0]] + list[1..][..k - 1] == queue + list[..k];
      assert list[1..][k - 1..] == list[k..];
    }
  }

  // ------------------------------------------------------------------ what steps do

  ghost predicate OneCpu(s: Sys, s': Sys, c: CpuId, cpu: Cpu)
    requires IsCpu(s, c)
  {
    s'.cpus == s.cpus[c := cpu]
  }

  ghost predicate SameThreads(s: Sys, s': Sys)
  {
    s'.threads == s.threads && s'.asleep == s.asleep && s'.home == s.home
  }

  /** A woken or forked thread goes to the back of one queue, a sleeping one leaves its CPU to the next in
      line, a yielding one goes behind everybody else, and the thread dispatched is the one in front. */
  ghost predicate Schedules(s: Sys, step: Step, s': Sys)
    requires Enabled(s, step)
  {
    match step
    case Wake(t) =>
      var c := s.home[t];
      && OneCpu(s, s', c, s.cpus[c].(queue := s.cpus[c].queue + [t]))
      && s'.asleep == s.asleep - {t} && s'.threads == s.threads && s'.home == s.home
    case Fork(c, t) =>
      && OneCpu(s, s', c, s.cpus[c].(queue := s.cpus[c].queue + [t]))
      && s'.threads == s.threads + {t} && s'.home == s.home[t := c] && s'.asleep == s.asleep
    case Sleep(c) =>
      && OneCpu(s, s', c, s.cpus[c].(running := false)) && s.cpus[c].cur !in s.asleep
      && s'.asleep == s.asleep + {s.cpus[c].cur} && s'.threads == s.threads && s'.home == s.home
    case Yield(c) =>
      && SameThreads(s, s') && s.cpus[c].cur !in s.cpus[c].queue
      && OneCpu(s, s', c, s.cpus[c].(queue := s.cpus[c].queue + [s.cpus[c].cur], running := false))
    case Dispatch(c) =>
      && SameThreads(s, s') && |s'.cpus| == |s.cpus|
      && OneCpu(s, s', c, s'.cpus[c]) && s'.cpus[c].phase == s.cpus[c].phase && s'.cpus[c].running
      && [s'.cpus[c].cur] + s'.cpus[c].queue == s.cpus[c].queue
    case _ => true
  }

  /** The sender's list goes to CPU i up to one share, in order unless the sender's own thread is on it; that
      thread stays behind. */
  ghost predicate Gives(s: Sys, c: CpuId, s': Sys)
    requires Enabled(s, Give(c))
  {
    var p := s.cpus[c].phase;
    && s'.threads == s.threads && s'.asleep == s.asleep && |s'.cpus| == |s.cpus|
    && (forall d :: 0 <= d < |s.cpus| && d != c && d != p.i ==> s'.cpus[d] == s.cpus[d])
    && s'.cpus[c] == s.cpus[c].(phase := s'.cpus[c].phase)
    && var p' := s'.cpus[c].phase;
       && p'.Giving? && p'.i == p.i + 1 && p'.share == p.share
       && if p.i == c then s'.home == s.home && p'.list == p.list && p'.send == p.send
          else
            var q, q' := s.cpus[p.i].queue, s'.cpus[p.i].queue;
            && q <= q' && s'.cpus[p.i] == s.cpus[p.i].(queue := q')
            && multiset(q'[|q|..]) + multiset(p'.list) == multiset(p.list) && s.cpus[c].cur !in q'[|q|..]
            && (|q'| == |q| || |q'| <= p.share) && (p'.send == 0 || |q'| >= p.share)
            && s'.home == (map t | t in s.home :: if t in q'[|q|..] then p.i else s.home[t])
            && (s.cpus[c].cur !in p.list ==>
                  var k := Room(|q|, p.send, p.share);
                  k <= |p.list| && q' == q + p.list[..k] && p'.list == p.list[k..] && p'.send == p.send - k)
  }

  /** Count adds up queue lengths one CPU at a time; Decide compares with the least length that spreads the
      total; Take takes the tail of the queue in order; PutBack returns what nobody had room for. */
  ghost predicate Migrates(s: Sys, step: Step, s': Sys)
    requires Enabled(s, step)
  {
    match step
    case Start(c) => SameThreads(s, s') && OneCpu(s, s', c, s.cpus[c].(phase := Counting(0, 0, 0)))
    case Count(c) =>
      var p := s.cpus[c].phase;
      var n := |s.cpus[p.i].queue|;
      && SameThreads(s, s')
      && OneCpu(s, s', c, s.cpus[c].(phase := Counting(p.i + 1, p.total + n, if p.i == c then n else p.mine)))
    case Decide(c) =>
      && SameThreads(s, s') && |s'.cpus| == |s.cpus| && OneCpu(s, s', c, s.cpus[c].(phase := s'.cpus[c].phase))
      && var p, p' := s.cpus[c].phase, s'.cpus[c].phase;
         if p.mine * |s.cpus| < p.total then p'.Out?
         else
           && p'.Taking? && p'.share + p'.send == p.mine && p'.share * |s.cpus| >= p.total
           && (p'.share > 0 ==> (p'.share - 1) * |s.cpus| < p.total)
    case Take(c) =>
      && SameThreads(s, s') && |s'.cpus| == |s.cpus|
      && OneCpu(s, s', c, s.cpus[c].(queue := s'.cpus[c].queue, phase := s'.cpus[c].phase))
      && var p, p' := s.cpus[c].phase, s'.cpus[c].phase;
         && p'.Giving? && p'.i == 0 && p'.share == p.share && p'.send == p.send == |p'.list|
         && s'.cpus[c].queue + p'.list == s.cpus[c].queue
    case PutBack(c) =>
      && SameThreads(s, s')
      && OneCpu(s, s', c, s.cpus[c].(queue := s.cpus[c].queue + s.cpus[c].phase.list, phase := Out))
    case Give(c) => Gives(s, c, s')
    case _ => true
  }

  predicate OfScheduler(step: Step) { step.Fork? || step.Wake? || step.Sleep? || step.Yield? || step.Dispatch? }

  lemma SchedulerStep(s: Sys, step: Step)
    requires Inv(s) && Enabled(s, step) && OfScheduler(step)
    ensures Schedules(s, step, After(s, step))
  {
    match step
    case Sleep(c) => RunningIsAwake(s, c);
    case Yield(c) => InOnePlace(s, c, s.cpus[c].cur);
    case _ =>
  }

  lemma DealFacts(s: Sys, c: CpuId)
    requires Enabled(s, Give(c)) && PhaseOk(s.cpus[c], c)
    ensures
      var p, m := s.cpus[c].phase, DealFor(s, c);
      var q, k := s.cpus[p.i].queue, Room(|s.cpus[p.i].queue|, p.send, p.share);
      && Dealt(q, p.list, p.send, p.share, s.cpus[c].cur, m)
      && (s.cpus[c].cur !in p.list ==>
            k <= |p.list| && m.queue == q + p.list[..k] && m.list == p.list[k..] && m.send == p.send - k)
  {
    hide Deal, Dealt;
    var p := s.cpus[c].phase;
    var q := s.cpus[p.i].queue;
    DealMeaning(q, p.list, p.send, p.share, s.cpus[c].cur);
    if s.cpus[c].cur !in p.list { DealInOrder(q, p.list, p.send, p.share, s.cpus[c].cur); }
  }

  lemma GiveStepDoes(s: Sys, c: CpuId)
    requires Inv(s) && Enabled(s, Give(c))
    ensures Gives(s, c, After(s, Give(c)))
  {
    hide Inv, HomeOf, Homes, Counted, DealFor, Room;
    FromInv(s, c);
    DealFacts(s, c);
    hide PhaseOk;
  }

  lemma ShareIsLeast(mine: nat, total: nat, cpus: nat)
    requires cpus > 0
    ensures mine < OneShare(total, cpus) <==> mine * cpus < total
  {
    var k := OneShare(total, cpus);
    OneShareMeaning(total, cpus);
    hide OneShare;
    if mine < k {
      Nonlinear.MulLe(mine, k - 1, cpus);
    } else {
      Nonlinear.MulLe(k, mine, cpus);
    }
  }

  lemma DecideStepDoes(s: Sys, c: CpuId)
    requires Enabled(s, Decide(c))
    ensures Migrates(s, Decide(c), After(s, Decide(c)))
  {
    hide OneShare;
    var p := s.cpus[c].phase;
    ShareIsLeast(p.mine, p.total, |s.cpus|);
    OneShareMeaning(p.total, |s.cpus|);
  }

  lemma TakeStepDoes(s: Sys, c: CpuId)
    requires Inv(s) && Enabled(s, Take(c))
    ensures Migrates(s, Take(c), After(s, Take(c)))
  {
    FromInv(s, c);
    hide Inv, HomeOf, Counted;
    TakeMeaning(s, c);
    hide TakeTail, After;
  }

  lemma MigrationStep(s: Sys, step: Step)
    requires Inv(s) && Enabled(s, step) && !OfScheduler(step)
    ensures Migrates(s, step, After(s, step))
  {
    hide Inv;
    match step
    case Decide(c) => DecideStepDoes(s, c);
    case Take(c) => TakeStepDoes(s, c);
    case Give(c) => GiveStepDoes(s, c);
    case _ =>
  }

  /** On every run each step does what it is for and touches nothing else. */
  lemma StepsDoTheirWork(run: seq<Sys>, steps: seq<Step>, i: nat)
    requires IsRun(run, steps) && i < |steps|
    ensures Enabled(run[i], steps[i])
    ensures Schedules(run[i], steps[i], run[i + 1]) && Migrates(run[i], steps[i], run[i + 1])
  {
    StepOf(run, steps, i);
    hide IsRun, Inv, Enabled, After, Gives;
    if OfScheduler(steps[i]) {
      SchedulerStep(run[i], steps[i]);
    } else {
      MigrationStep(run[i], steps[i]);
    }
  }

  // --------------------------------------------------------------------- progress

  function To(i: nat, n: nat): nat { if i < n then n - i else 0 }

  /** Steps a CPU has at most to take before it is out of thread_consider_migration. */
  function Left(p: Phase, n: nat): nat
  {
    match p
    case Out => 0
    case Counting(i, _, _) => To(i, n) + n + 3
    case Taking(_, _) => n + 2
    case Giving(i, _, _, _) => To(i, n) + 1
  }

  /** The next step of a CPU inside thread_consider_migration. */
  function NextOf(s: Sys, c: CpuId): Step
    requires IsCpu(s, c) && !s.cpus[c].phase.Out?
  {
    match s.cpus[c].phase
    case Counting(i, _, _) => if i < |s.cpus| then Count(c) else Decide(c)
    case Taking(_, _) => Take(c)
    case Giving(i, _, send, _) => if i < |s.cpus| && send > 0 then Give(c) else PutBack(c)
  }

  predicate OfMigration(step: Step, c: CpuId) { !step.Start? && !OfScheduler(step) && step.c == c }

  lemma GiveLeft(s: Sys, c: CpuId)
    requires Enabled(s, Give(c))
    ensures AfterGive(s, c).cpus[c].phase.Giving? && AfterGive(s, c).cpus[c].phase.i == s.cpus[c].phase.i + 1
    ensures |AfterGive(s, c).cpus| == |s.cpus|
  {
    hide Deal, Rehome;
  }

  lemma NextIsNearer(s: Sys, c: CpuId)
    requires IsCpu(s, c) && !s.cpus[c].phase.Out?
    ensures
      var step := NextOf(s, c);
      && Enabled(s, step)
      && IsCpu(After(s, step), c) && Left(After(s, step).cpus[c].phase, |s.cpus|) < Left(s.cpus[c].phase, |s.cpus|)
  {
    hide AfterGive, TakeTail, OneShare;
    if NextOf(s, c).Give? { GiveLeft(s, c); }
  }

  lemma OnlyNext(s: Sys, c: CpuId, other: Step)
    requires IsCpu(s, c) && !s.cpus[c].phase.Out? && Enabled(s, other) && OfMigration(other, c)
    ensures other == NextOf(s, c)
  {
  }

  /** On every run a CPU inside thread_consider_migration has exactly one step to take, can always take it,
      and with it is nearer the end, whatever the other CPUs have done meanwhile. */
  lemma MigrationGoesOn(run: seq<Sys>, steps: seq<Step>, i: nat, c: CpuId)
    requires IsRun(run, steps) && i < |run| && IsCpu(run[i], c) && !run[i].cpus[c].phase.Out?
    ensures
      var s, step := run[i], NextOf(run[i], c);
      && Enabled(s, step) && OfMigration(step, c)
      && (forall other :: Enabled(s, other) && OfMigration(other, c) ==> other == step)
      && IsCpu(After(s, step), c) && Left(After(s, step).cpus[c].phase, |s.cpus|) < Left(s.cpus[c].phase, |s.cpus|)
  {
    hide IsRun, Enabled, After, Left;
    NextIsNearer(run[i], c);
    forall other | Enabled(run[i], other) && OfMigration(other, c) ensures other == NextOf(run[i], c) {
      OnlyNext(run[i], c, other);
    }
  }

  lemma SleeperHasAHome(s: Sys, t: Tid)
    requires Inv(s) && t in s.asleep
    ensures t in s.home && IsCpu(s, s.home[t])
  {
    assert Population(s)[t] >= multiset(s.asleep)[t] > 0;
    assert t in multiset(s.threads);
  }

  /** Between migrations a CPU can start one at any time; a running thread can fork, sleep, or yield to
      somebody waiting; an idle CPU takes the next thread as soon as there is one; and a sleeping thread can
      always be woken. */
  lemma NobodyIsStuck(run: seq<Sys>, steps: seq<Step>, i: nat, c: CpuId, t: Tid)
    requires IsRun(run, steps) && i < |run|
    ensures t in run[i].asleep ==> Enabled(run[i], Wake(t))
    ensures IsCpu(run[i], c) && run[i].cpus[c].phase.Out? ==>
      && Enabled(run[i], Start(c))
      && (Enabled(run[i], Sleep(c)) <==> run[i].cpus[c].running)
      && (Enabled(run[i], Yield(c)) <==> run[i].cpus[c].running && run[i].cpus[c].queue != [])
      && (Enabled(run[i], Dispatch(c)) <==> !run[i].cpus[c].running && run[i].cpus[c].queue != [])
      && (Enabled(run[i], Fork(c, t)) <==> run[i].cpus[c].running && t !in run[i].threads)
  {
    hide IsRun, Inv;
    RunKeepsInv(run, steps, i);
    if t in run[i].asleep { SleeperHasAHome(run[i], t); }
  }
}
