/** kern/thread/thread.c: thread_consider_migration, run by any number of CPUs at once beside the
    wake-ups, forks and context switches that also move threads between run queues.  One step is what
    a CPU does while it holds one run-queue lock. */
module Migration {

  type Tid = int
  type CpuId = int

  /** Where a CPU is in thread_consider_migration. */
  datatype Phase =
    | Out
    | Counting(i: nat, total: nat, mine: nat)
    | Taking(share: nat, send: nat)
    | Giving(i: nat, share: nat, send: nat, list: seq<Tid>)

  /** c_runqueue, c_curthread, and whether c_curthread is really running rather than left over from
      before the CPU went idle. */
  datatype Cpu = Cpu(queue: seq<Tid>, cur: Tid, running: bool, phase: Phase)

  /** `home` is t_cpu; `lost` is set once anything is popped off an empty list. */
  datatype Sys = Sys(cpus: seq<Cpu>, threads: set<Tid>, asleep: set<Tid>, home: map<Tid, CpuId>, lost: bool)

  datatype Step =
    | Fork(c: CpuId, t: Tid)
    | Wake(t: Tid)
    | Sleep(c: CpuId)
    | Yield(c: CpuId)
    | Dispatch(c: CpuId)
    | Start(c: CpuId)
    | Count(c: CpuId)
    | Decide(c: CpuId)
    | Take(c: CpuId)
    | Give(c: CpuId)
    | PutBack(c: CpuId)

  predicate IsCpu(s: Sys, c: CpuId) { 0 <= c < |s.cpus| }

  predicate Enabled(s: Sys, step: Step)
  {
    match step
    case Wake(t) => t in s.asleep && t in s.home && IsCpu(s, s.home[t])
    case Fork(c, t) => IsCpu(s, c) && s.cpus[c].running && s.cpus[c].phase.Out? && t !in s.threads
    case Sleep(c) => IsCpu(s, c) && s.cpus[c].running && s.cpus[c].phase.Out?
    case Yield(c) => IsCpu(s, c) && s.cpus[c].running && s.cpus[c].phase.Out? && s.cpus[c].queue != []
    case Dispatch(c) => IsCpu(s, c) && !s.cpus[c].running && s.cpus[c].phase.Out? && s.cpus[c].queue != []
    case Start(c) => IsCpu(s, c) && s.cpus[c].phase.Out?
    case Count(c) => IsCpu(s, c) && s.cpus[c].phase.Counting? && s.cpus[c].phase.i < |s.cpus|
    case Decide(c) => IsCpu(s, c) && s.cpus[c].phase.Counting? && s.cpus[c].phase.i >= |s.cpus|
    case Take(c) => IsCpu(s, c) && s.cpus[c].phase.Taking?
    case Give(c) => IsCpu(s, c) && s.cpus[c].phase.Giving? && s.cpus[c].phase.i < |s.cpus| && s.cpus[c].phase.send > 0
    case PutBack(c) =>
      IsCpu(s, c) && s.cpus[c].phase.Giving? && (s.cpus[c].phase.i >= |s.cpus| || s.cpus[c].phase.send == 0)
  }

  /** What a locked section leaves: a run queue, the travelling list, the number still to send, and
      whether every pop found something. */
  datatype Moved = Moved(queue: seq<Tid>, list: seq<Tid>, send: nat, found: bool)

  /** Pop `send` threads off the tail, each onto the head of the travelling list. */
  function TakeTail(queue: seq<Tid>, list: seq<Tid>, send: nat): Moved
    decreases send
  {
    if send == 0 then Moved(queue, list, 0, true)
    else if queue == [] then Moved(queue, list, send, false)
    else TakeTail(queue[..|queue| - 1], [queue[|queue| - 1]] + list, send - 1)
  }

  /** Deal from the head of the travelling list to one queue while it is below its share; the
      thread the sender itself is on goes to the back of the list instead. */
  function Deal(queue: seq<Tid>, list: seq<Tid>, send: nat, share: nat, cur: Tid): Moved
    decreases send
  {
    if |queue| >= share || send == 0 then Moved(queue, list, send, true)
    else if list == [] then Moved(queue, list, send, false)
    else if list[0] == cur then Deal(queue, list[1..] + [cur], send - 1, share, cur)
    else Deal(queue + [list[0]], list[1..], send - 1, share, cur)
  }

  function OneShare(total: nat, cpus: nat): nat
    requires cpus > 0
  { (total + cpus - 1) / cpus }

  function Enqueue(s: Sys, c: CpuId, t: Tid): Sys
    requires IsCpu(s, c)
  { s.(cpus := s.cpus[c := s.cpus[c].(queue := s.cpus[c].queue + [t])]) }

  function Rehome(home: map<Tid, CpuId>, moved: seq<Tid>, to: CpuId): map<Tid, CpuId>
  {
    map t | t in home :: if t in moved then to else home[t]
  }

  function DealFor(s: Sys, c: CpuId): Moved
    requires Enabled(s, Give(c))
  {
    var p := s.cpus[c].phase;
    Deal(s.cpus[p.i].queue, p.list, p.send, p.share, s.cpus[c].cur)
  }

  function AfterGive(s: Sys, c: CpuId): Sys
    requires Enabled(s, Give(c))
  {
    var p := s.cpus[c].phase;
    if p.i == c then s.(cpus := s.cpus[c := s.cpus[c].(phase := p.(i := p.i + 1))])
    else
      var m := DealFor(s, c);
      var sender := s.cpus[c].(phase := Giving(p.i + 1, p.share, m.send, m.list));
      var target := s.cpus[p.i].(queue := m.queue);
      var moved := if |s.cpus[p.i].queue| <= |m.queue| then m.queue[|s.cpus[p.i].queue|..] else [];
      s.(cpus := s.cpus[c := sender][p.i := target], home := Rehome(s.home, moved, p.i), lost := s.lost || !m.found)
  }

  function After(s: Sys, step: Step): Sys
    requires Enabled(s, step)
  {
    match step
    case Wake(t) => Enqueue(s.(asleep := s.asleep - {t}), s.home[t], t)
    case Fork(c, t) => Enqueue(s.(threads := s.threads + {t}, home := s.home[t := c]), c, t)
    case Sleep(c) => s.(asleep := s.asleep + {s.cpus[c].cur}, cpus := s.cpus[c := s.cpus[c].(running := false)])
    case Yield(c) => Enqueue(s.(cpus := s.cpus[c := s.cpus[c].(running := false)]), c, s.cpus[c].cur)
    case Dispatch(c) =>
      var cpu := s.cpus[c];
      s.(cpus := s.cpus[c := cpu.(cur := cpu.queue[0], queue := cpu.queue[1..], running := true)])
    case Start(c) => s.(cpus := s.cpus[c := s.cpus[c].(phase := Counting(0, 0, 0))])
    case Count(c) =>
      var p := s.cpus[c].phase;
      var n := |s.cpus[p.i].queue|;
      s.(cpus := s.cpus[c := s.cpus[c].(phase := Counting(p.i + 1, p.total + n, if p.i == c then n else p.mine))])
    case Decide(c) =>
      var p := s.cpus[c].phase;
      var share := OneShare(p.total, |s.cpus|);
      s.(cpus := s.cpus[c := s.cpus[c].(phase := if p.mine < share then Out else Taking(share, p.mine - share))])
    case Take(c) =>
      var p := s.cpus[c].phase;
      var m := TakeTail(s.cpus[c].queue, [], p.send);
      s.(cpus := s.cpus[c := s.cpus[c].(queue := m.queue, phase := Giving(0, p.share, p.send, m.list))],
         lost := s.lost || !m.found)
    case Give(c) => AfterGive(s, c)
    case PutBack(c) =>
      var cpu := s.cpus[c];
      s.(cpus := s.cpus[c := cpu.(queue := cpu.queue + cpu.phase.list, phase := Out)])
  }

  function List(p: Phase): seq<Tid> { if p.Giving? then p.list else [] }

  /** Every thread this CPU accounts for: queued, travelling, or running. */
  ghost function Part(cpu: Cpu): multiset<Tid>
  {
    multiset(cpu.queue) + multiset(List(cpu.phase)) + if cpu.running then multiset{cpu.cur} else multiset{}
  }

  ghost function Total(cpus: seq<Cpu>): multiset<Tid>
  {
    if cpus == [] then multiset{} else Total(cpus[..|cpus| - 1]) + Part(cpus[|cpus| - 1])
  }

  ghost function Population(s: Sys): multiset<Tid> { Total(s.cpus) + multiset(s.asleep) }

  /** Each thread in exactly one place. */
  ghost predicate Counted(s: Sys) { Population(s) == multiset(s.threads) }

  ghost predicate HomeOf(s: Sys, c: CpuId)
    requires IsCpu(s, c)
  {
    && (forall t :: t in s.cpus[c].queue ==> t in s.home && s.home[t] == c)
    && (forall t :: t in List(s.cpus[c].phase) ==> t in s.home && s.home[t] == c)
    && s.cpus[c].cur in s.home && s.home[s.cpus[c].cur] == c
  }

  ghost predicate Homes(s: Sys)
  {
    && (forall c :: 0 <= c < |s.cpus| ==> HomeOf(s, c))
    && (forall t :: t in s.home ==> IsCpu(s, s.home[t]))
    && s.home.Keys == s.threads
  }

  ghost predicate PhaseOk(cpu: Cpu, c: CpuId)
  {
    match cpu.phase
    case Out => true
    case Counting(i, total, mine) => mine <= |cpu.queue|
    case Taking(share, send) => send <= |cpu.queue|
    case Giving(i, share, send, list) => send <= |list|
  }

  ghost predicate Phases(s: Sys) { forall c :: 0 <= c < |s.cpus| ==> PhaseOk(s.cpus[c], c) }

  ghost predicate Inv(s: Sys) { Counted(s) && Homes(s) && Phases(s) && !s.lost }

  /** Every CPU on its boot thread, nothing queued. */
  ghost predicate Initial(s: Sys)
  {
    && (forall c :: 0 <= c < |s.cpus| ==> s.cpus[c].queue == [] && s.cpus[c].phase.Out? && s.cpus[c].running)
    && (forall c :: 0 <= c < |s.cpus| ==> s.cpus[c].cur in s.home && s.home[s.cpus[c].cur] == c)
    && (forall t :: t in s.home ==> IsCpu(s, s.home[t]))
    && s.home.Keys == s.threads && s.asleep == {} && !s.lost && Counted(s)
  }

  ghost predicate IsRun(run: seq<Sys>, steps: seq<Step>)
  {
    && |run| == |steps| + 1 && Initial(run[0])
    && forall i :: 0 <= i < |steps| ==> Enabled(run[i], steps[i]) && run[i + 1] == After(run[i], steps[i])
  }

  // ---- the two loops over a locked queue ----

  lemma OneFromTail(queue: seq<Tid>, list: seq<Tid>, send: nat)
    requires 0 < send <= |queue|
    ensures
      var n := |queue| - 1;
      && queue[..n][..n - (send - 1)] == queue[..|queue| - send]
      && queue[..n][n - (send - 1)..] + ([queue[n]] + list) == queue[|queue| - send..] + list
  {
    var n, m := |queue| - 1, |queue| - send;
    assert queue[m..] == queue[m..n] + [queue[n]];
    assert queue[..n][m..] == queue[m..n];
  }

  /** With enough on the queue no pop comes up empty, and the list gets the queue's tail in order. */
  lemma {:induction false} TakeTailMeaning(queue: seq<Tid>, list: seq<Tid>, send: nat)
    requires send <= |queue|
    ensures TakeTail(queue, list, send) == Moved(queue[..|queue| - send], queue[|queue| - send..] + list, 0, true)
    decreases send
  {
    if send == 0 {
      assert queue[..|queue|] == queue && queue[|queue|..] + list == list;
    } else {
      var n := |queue| - 1;
      TakeTailMeaning(queue[..n], [queue[n]] + list, send - 1);
      hide TakeTail;
      OneFromTail(queue, list, send);
    }
  }

  /** What dealing to `queue` may make of it and of the list. */
  ghost predicate Dealt(queue: seq<Tid>, list: seq<Tid>, send: nat, share: nat, cur: Tid, m: Moved)
  {
    && m.found && m.send <= |m.list| && m.send <= send
    && queue <= m.queue
    && multiset(m.queue[|queue|..]) + multiset(m.list) == multiset(list)
    && cur !in m.queue[|queue|..]
    && (|m.queue| == |queue| || |m.queue| <= share)
    && (m.send == 0 || |m.queue| >= share)
  }

  lemma DealtNothing(queue: seq<Tid>, list: seq<Tid>, send: nat, share: nat, cur: Tid)
    requires send <= |list| && (|queue| >= share || send == 0)
    ensures Dealt(queue, list, send, share, cur, Moved(queue, list, send, true))
  {
    assert queue[|queue|..] == [];
  }

  lemma DealtPastCur(queue: seq<Tid>, list: seq<Tid>, send: nat, share: nat, cur: Tid, m: Moved)
    requires list != [] && send > 0 && list[0] == cur && Dealt(queue, list[1..] + [cur], send - 1, share, cur, m)
    ensures Dealt(queue, list, send, share, cur, m)
  {
    assert list == [cur] + list[1..];
    assert multiset(list[1..] + [cur]) == multiset(list);
  }

  lemma OneMore(t: Tid, got: seq<Tid>, rest: seq<Tid>, left: seq<Tid>)
    requires multiset(got) + multiset(left) == multiset(rest)
    ensures multiset([t] + got) + multiset(left) == multiset([t] + rest)
  {
  }

  lemma DealtOne(queue: seq<Tid>, list: seq<Tid>, send: nat, share: nat, cur: Tid, m: Moved)
    requires list != [] && send > 0 && list[0] != cur && |queue| < share
    requires Dealt(queue + [list[0]], list[1..], send - 1, share, cur, m)
    ensures Dealt(queue, list, send, share, cur, m)
  {
    var t, n := list[0], |queue|;
    var got := m.queue[n + 1..];
    assert queue <= m.queue && m.queue[n..] == [t] + got by {
      assert m.queue[..n + 1] == queue + [t];
      assert m.queue == (queue + [t]) + got;
    }
    OneMore(t, got, list[1..], m.list);
    assert [t] + list[1..] == list;
  }

  /** What one queue gets: nothing is lost or doubled, never the sender's own thread, never beyond its
      share; and while the list is as long as the number to send, no pop comes up empty. */
  lemma {:induction false} DealMeaning(queue: seq<Tid>, list: seq<Tid>, send: nat, share: nat, cur: Tid)
    requires send <= |list|
    ensures Dealt(queue, list, send, share, cur, Deal(queue, list, send, share, cur))
    decreases send
  {
    hide Dealt;
    if |queue| >= share || send == 0 {
      DealtNothing(queue, list, send, share, cur);
    } else if list[0] == cur {
      DealMeaning(queue, list[1..] + [cur], send - 1, share, cur);
      DealtPastCur(queue, list, send, share, cur, Deal(queue, list[1..] + [cur], send - 1, share, cur));
    } else {
      DealMeaning(queue + [list[0]], list[1..], send - 1, share, cur);
      DealtOne(queue, list, send, share, cur, Deal(queue + [list[0]], list[1..], send - 1, share, cur));
    }
  }

  // ---- counting threads ----

  lemma AddBoth(x': multiset<Tid>, a: multiset<Tid>, x: multiset<Tid>, b: multiset<Tid>, z: multiset<Tid>)
    requires x' + a == x + b
    ensures (x' + z) + a == (x + z) + b
  {
    forall t ensures ((x' + z) + a)[t] == ((x + z) + b)[t] {
      assert (x' + a)[t] == (x + b)[t];
    }
  }

  lemma {:induction false} TotalUpdate(cpus: seq<Cpu>, c: nat, cpu: Cpu)
    requires c < |cpus|
    ensures Total(cpus[c := cpu]) + Part(cpus[c]) == Total(cpus) + Part(cpu)
  {
    hide Part;
    var n := |cpus| - 1;
    if c == n {
      assert cpus[c := cpu][..n] == cpus[..n];
    } else {
      TotalUpdate(cpus[..n], c, cpu);
      assert cpus[c := cpu][..n] == cpus[..n][c := cpu];
      AddBoth(Total(cpus[..n][c := cpu]), Part(cpus[c]), Total(cpus[..n]), Part(cpu), Part(cpus[n]));
    }
  }

  lemma {:induction false} PartOfTotal(cpus: seq<Cpu>, c: nat)
    requires c < |cpus|
    ensures Part(cpus[c]) <= Total(cpus)
  {
    hide Part;
    var n := |cpus| - 1;
    if c < n {
      PartOfTotal(cpus[..n], c);
    }
  }

  /** A queued thread is neither travelling nor running here, and the other way round. */
  lemma InOnePlace(s: Sys, c: CpuId, t: Tid)
    requires Counted(s) && IsCpu(s, c)
    ensures Part(s.cpus[c])[t] <= 1 && (t in Part(s.cpus[c]) ==> t in s.threads)
  {
    PartOfTotal(s.cpus, c);
    assert Part(s.cpus[c])[t] <= Population(s)[t];
  }

  lemma Balance(x: multiset<Tid>, x': multiset<Tid>, a: multiset<Tid>, a': multiset<Tid>,
                z: multiset<Tid>, z': multiset<Tid>, all: multiset<Tid>, all': multiset<Tid>)
    requires x' + a == x + a' && x + z == all && a' + z' + all == a + z + all'
    ensures x' + z' == all'
  {
    forall t ensures (x' + z')[t] == all'[t] {
      assert (x' + a)[t] == (x + a')[t] && (x + z)[t] == all[t] && (a' + z' + all)[t] == (a + z + all')[t];
    }
  }

  /** A step that only moves threads about inside one CPU's account, or between it and the sleepers. */
  lemma CountedAfter(s: Sys, s': Sys, c: CpuId, cpu: Cpu)
    requires Counted(s) && IsCpu(s, c) && s'.cpus == s.cpus[c := cpu]
    requires Part(cpu) + multiset(s'.asleep) + multiset(s.threads) ==
      Part(s.cpus[c]) + multiset(s.asleep) + multiset(s'.threads)
    ensures Counted(s')
  {
    TotalUpdate(s.cpus, c, cpu);
    Balance(Total(s.cpus), Total(s'.cpus), Part(s.cpus[c]), Part(cpu),
            multiset(s.asleep), multiset(s'.asleep), multiset(s.threads), multiset(s'.threads));
  }

  // ---- one CPU's steps ----

  lemma FromInv(s: Sys, c: CpuId)
    requires Inv(s) && IsCpu(s, c)
    ensures Counted(s) && HomeOf(s, c) && PhaseOk(s.cpus[c], c)
  {
  }

  /** Homes for the CPUs that nothing happened to. */
  lemma OneCpuHomes(s: Sys, s': Sys, c: CpuId, cpu: Cpu)
    requires Homes(s) && IsCpu(s, c) && s' == s.(cpus := s.cpus[c := cpu], asleep := s'.asleep)
    requires forall t :: t in cpu.queue || t in List(cpu.phase) || t == cpu.cur ==> t in s.home && s.home[t] == c
    ensures Homes(s')
  {
    hide List;
    forall d | 0 <= d < |s'.cpus| ensures HomeOf(s', d) {
      assert HomeOf(s, d);
    }
  }

  lemma OneCpuPhases(s: Sys, s': Sys, c: CpuId, cpu: Cpu)
    requires Phases(s) && IsCpu(s, c) && s'.cpus == s.cpus[c := cpu] && PhaseOk(cpu, c)
    ensures Phases(s')
  {
    hide PhaseOk;
  }

  lemma OneCpuKeeps(s: Sys, s': Sys, c: CpuId, cpu: Cpu)
    requires Inv(s) && IsCpu(s, c) && s' == s.(cpus := s.cpus[c := cpu], asleep := s'.asleep)
    requires PhaseOk(cpu, c)
    requires Part(cpu) + multiset(s'.asleep) == Part(s.cpus[c]) + multiset(s.asleep)
    requires forall t :: t in cpu.queue || t in List(cpu.phase) || t == cpu.cur ==> t in s.home && s.home[t] == c
    ensures Inv(s')
  {
    hide Counted, Homes, Phases, Part, PhaseOk, List;
    CountedAfter(s, s', c, cpu);
    OneCpuHomes(s, s', c, cpu);
    OneCpuPhases(s, s', c, cpu);
  }

  /** A step that only moves on to another phase with the same list. */
  lemma NewPhase(s: Sys, c: CpuId, p: Phase)
    requires Inv(s) && IsCpu(s, c) && List(p) == List(s.cpus[c].phase) && PhaseOk(s.cpus[c].(phase := p), c)
    ensures Inv(s.(cpus := s.cpus[c := s.cpus[c].(phase := p)]))
  {
    hide Inv, Counted, PhaseOk, List;
    FromInv(s, c);
    var cpu := s.cpus[c].(phase := p);
    OneCpuKeeps(s, s.(cpus := s.cpus[c := cpu]), c, cpu);
  }

  lemma RunningIsAwake(s: Sys, c: CpuId)
    requires Counted(s) && IsCpu(s, c) && s.cpus[c].running
    ensures s.cpus[c].cur !in s.asleep
  {
    var t := s.cpus[c].cur;
    PartOfTotal(s.cpus, c);
    assert Part(s.cpus[c])[t] <= Total(s.cpus)[t];
    assert Population(s)[t] <= 1;
  }

  /** Outside thread_consider_migration the queue's length does not matter. */
  lemma SamePhase(cpu: Cpu, cpu': Cpu, c: CpuId)
    requires PhaseOk(cpu, c) && cpu'.phase == cpu.phase && (cpu.phase.Out? || |cpu.queue| <= |cpu'.queue|)
    ensures PhaseOk(cpu', c)
  {
  }

  lemma SleepStep(s: Sys, c: CpuId)
    requires Inv(s) && Enabled(s, Sleep(c))
    ensures Inv(After(s, Sleep(c)))
  {
    hide Inv, Counted, PhaseOk, List;
    FromInv(s, c);
    RunningIsAwake(s, c);
    var s', cpu := After(s, Sleep(c)), s.cpus[c];
    assert multiset(s'.asleep) == multiset(s.asleep) + multiset{cpu.cur};
    SamePhase(cpu, cpu.(running := false), c);
    OneCpuKeeps(s, s', c, cpu.(running := false));
  }

  lemma YieldStep(s: Sys, c: CpuId)
    requires Inv(s) && Enabled(s, Yield(c))
    ensures Inv(After(s, Yield(c)))
  {
    hide Inv, Counted, PhaseOk, List;
    FromInv(s, c);
    var cpu := s.cpus[c];
    var cpu' := cpu.(running := false, queue := cpu.queue + [cpu.cur]);
    assert After(s, Yield(c)) == s.(cpus := s.cpus[c := cpu']);
    SamePhase(cpu, cpu', c);
    OneCpuKeeps(s, After(s, Yield(c)), c, cpu');
  }

  lemma DispatchStep(s: Sys, c: CpuId)
    requires Inv(s) && Enabled(s, Dispatch(c))
    ensures Inv(After(s, Dispatch(c)))
  {
    hide Inv, Counted, PhaseOk, List;
    FromInv(s, c);
    var cpu := s.cpus[c];
    var cpu' := cpu.(cur := cpu.queue[0], queue := cpu.queue[1..], running := true);
    assert cpu.queue == [cpu.queue[0]] + cpu.queue[1..];
    SamePhase(cpu, cpu', c);
    OneCpuKeeps(s, After(s, Dispatch(c)), c, cpu');
  }

  lemma WakeStep(s: Sys, t: Tid)
    requires Inv(s) && Enabled(s, Wake(t))
    ensures Inv(After(s, Wake(t)))
  {
    hide Inv, Counted, PhaseOk, List;
    var s', c := After(s, Wake(t)), s.home[t];
    FromInv(s, c);
    var cpu := s.cpus[c];
    var cpu' := cpu.(queue := cpu.queue + [t]);
    assert multiset(s'.asleep) + multiset{t} == multiset(s.asleep);
    SamePhase(cpu, cpu', c);
    OneCpuKeeps(s, s', c, cpu');
  }

  lemma Regroup(a: multiset<Tid>, z: multiset<Tid>, all: multiset<Tid>, one: multiset<Tid>)
    ensures (a + one) + z + all == a + z + (all + one)
  {
  }

  lemma ForkCounted(s: Sys, c: CpuId, t: Tid)
    requires Counted(s) && Enabled(s, Fork(c, t))
    ensures Counted(After(s, Fork(c, t)))
  {
    var s' := After(s, Fork(c, t));
    var a, a', one := Part(s.cpus[c]), Part(s'.cpus[c]), multiset{t};
    var z, all := multiset(s.asleep), multiset(s.threads);
    assert multiset(s'.threads) == all + one;
    assert a' == a + one;
    assert s'.cpus == s.cpus[c := s'.cpus[c]];
    assert a' + z + all == a + z + (all + one) by { hide Part; Regroup(a, z, all, one); }
    hide Part;
    CountedAfter(s, s', c, s'.cpus[c]);
  }

  lemma ForkHome(s: Sys, c: CpuId, t: Tid, d: CpuId)
    requires Homes(s) && Enabled(s, Fork(c, t)) && IsCpu(s, d)
    ensures HomeOf(After(s, Fork(c, t)), d)
  {
    assert HomeOf(s, d);
    var s' := After(s, Fork(c, t));
    assert forall x :: x in s.home ==> x in s'.home && s'.home[x] == s.home[x];
    assert d != c ==> s'.cpus[d] == s.cpus[d];
    assert s'.cpus[c].queue == s.cpus[c].queue + [t];
  }

  lemma ForkHomes(s: Sys, c: CpuId, t: Tid)
    requires Homes(s) && Enabled(s, Fork(c, t))
    ensures Homes(After(s, Fork(c, t)))
  {
    var s' := After(s, Fork(c, t));
    forall d | 0 <= d < |s'.cpus| ensures HomeOf(s', d) {
      ForkHome(s, c, t, d);
    }
    hide HomeOf;
    assert s'.home.Keys == s'.threads;
  }

  lemma ForkPhases(s: Sys, c: CpuId, t: Tid)
    requires Phases(s) && Enabled(s, Fork(c, t))
    ensures Phases(After(s, Fork(c, t)))
  {
    var s' := After(s, Fork(c, t));
    SamePhase(s.cpus[c], s'.cpus[c], c);
    OneCpuPhases(s, s', c, s'.cpus[c]);
  }

  lemma ForkStep(s: Sys, c: CpuId, t: Tid)
    requires Inv(s) && Enabled(s, Fork(c, t))
    ensures Inv(After(s, Fork(c, t)))
  {
    hide Counted, Homes, Phases;
    ForkCounted(s, c, t);
    ForkHomes(s, c, t);
    ForkPhases(s, c, t);
  }

  lemma StartStep(s: Sys, c: CpuId)
    requires Inv(s) && Enabled(s, Start(c))
    ensures Inv(After(s, Start(c)))
  {
    hide Inv;
    NewPhase(s, c, Counting(0, 0, 0));
  }

  lemma CountStep(s: Sys, c: CpuId)
    requires Inv(s) && Enabled(s, Count(c))
    ensures Inv(After(s, Count(c)))
  {
    hide Inv, Counted, HomeOf;
    FromInv(s, c);
    NewPhase(s, c, After(s, Count(c)).cpus[c].phase);
  }

  lemma DecideStep(s: Sys, c: CpuId)
    requires Inv(s) && Enabled(s, Decide(c))
    ensures Inv(After(s, Decide(c)))
  {
    hide Inv, Counted, HomeOf, OneShare;
    FromInv(s, c);
    NewPhase(s, c, After(s, Decide(c)).cpus[c].phase);
  }

  lemma OutIsOk(cpu: Cpu, c: CpuId)
    requires cpu.phase.Out?
    ensures PhaseOk(cpu, c)
  {
  }

  lemma PutBackStep(s: Sys, c: CpuId)
    requires Inv(s) && Enabled(s, PutBack(c))
    ensures Inv(After(s, PutBack(c)))
  {
    hide Inv, Counted, PhaseOk;
    FromInv(s, c);
    var cpu := s.cpus[c];
    var cpu' := cpu.(queue := cpu.queue + cpu.phase.list, phase := Out);
    assert PhaseOk(cpu', c) by { OutIsOk(cpu', c); }
    OneCpuKeeps(s, After(s, PutBack(c)), c, cpu');
  }

  /** The CPU after the victims are popped off its queue. */
  function Taken(cpu: Cpu): Cpu
    requires cpu.phase.Taking? && cpu.phase.send <= |cpu.queue|
  {
    var n := |cpu.queue| - cpu.phase.send;
    cpu.(queue := cpu.queue[..n], phase := Giving(0, cpu.phase.share, cpu.phase.send, cpu.queue[n..]))
  }

  lemma TakenParts(cpu: Cpu, c: CpuId)
    requires cpu.phase.Taking? && cpu.phase.send <= |cpu.queue|
    ensures Part(Taken(cpu)) == Part(cpu) && PhaseOk(Taken(cpu), c) && Taken(cpu).cur == cpu.cur
    ensures forall t :: t in Taken(cpu).queue || t in List(Taken(cpu).phase) ==> t in cpu.queue
  {
    var n := |cpu.queue| - cpu.phase.send;
    assert cpu.queue == cpu.queue[..n] + cpu.queue[n..];
  }

  lemma TakeMeaning(s: Sys, c: CpuId)
    requires Enabled(s, Take(c)) && s.cpus[c].phase.send <= |s.cpus[c].queue|
    ensures After(s, Take(c)) == s.(cpus := s.cpus[c := Taken(s.cpus[c])])
  {
    var cpu := s.cpus[c];
    var n := |cpu.queue| - cpu.phase.send;
    TakeTailMeaning(cpu.queue, [], cpu.phase.send);
    hide TakeTail;
    assert cpu.queue[n..] + [] == cpu.queue[n..];
  }

  lemma TakeStep(s: Sys, c: CpuId)
    requires Inv(s) && Enabled(s, Take(c))
    ensures Inv(After(s, Take(c)))
  {
    var cpu := s.cpus[c];
    FromInv(s, c);
    hide Inv, Counted, Taken, After, Part;
    assert cpu.phase.send <= |cpu.queue|;
    hide PhaseOk, List;
    TakeMeaning(s, c);
    TakenParts(cpu, c);
    OneCpuKeeps(s, After(s, Take(c)), c, Taken(cpu));
  }

  // ---- the step that touches two CPUs ----

  lemma GiveShape(s: Sys, c: CpuId)
    requires Enabled(s, Give(c)) && s.cpus[c].phase.i != c && PhaseOk(s.cpus[c], c)
    ensures
      var s', p, m := AfterGive(s, c), s.cpus[c].phase, DealFor(s, c);
      var q := s.cpus[p.i].queue;
      && q <= m.queue && multiset(m.queue[|q|..]) + multiset(m.list) == multiset(p.list)
      && s'.cpus[c] == s.cpus[c].(phase := Giving(p.i + 1, p.share, m.send, m.list))
      && s'.cpus[p.i] == s.cpus[p.i].(queue := q + m.queue[|q|..])
  {
    var p := s.cpus[c].phase;
    DealMeaning(s.cpus[p.i].queue, p.list, p.send, p.share, s.cpus[c].cur);
    hide Deal;
  }

  lemma HandOver(own: multiset<Tid>, list: multiset<Tid>, list': multiset<Tid>, moved: multiset<Tid>,
                 rc: multiset<Tid>, q: multiset<Tid>, l: multiset<Tid>, r: multiset<Tid>)
    requires moved + list' == list
    ensures (own + list' + rc) + ((q + moved) + l + r) == (own + list + rc) + (q + l + r)
  {
    forall t ensures ((own + list' + rc) + ((q + moved) + l + r))[t] == ((own + list + rc) + (q + l + r))[t] {
      assert (moved + list')[t] == list[t];
    }
  }

  lemma HandOverParts(sender: Cpu, target: Cpu, phase: Phase, moved: seq<Tid>)
    requires sender.phase.Giving? && phase.Giving?
    requires multiset(moved) + multiset(phase.list) == multiset(sender.phase.list)
    ensures Part(sender.(phase := phase)) + Part(target.(queue := target.queue + moved)) == Part(sender) + Part(target)
  {
    var own, q := multiset(sender.queue), multiset(target.queue);
    var running := if sender.running then multiset{sender.cur} else multiset{};
    var idle := if target.running then multiset{target.cur} else multiset{};
    HandOver(own, multiset(sender.phase.list), multiset(phase.list), multiset(moved), running,
             q, multiset(List(target.phase)), idle);
  }

  lemma GiveParts(s: Sys, c: CpuId)
    requires Enabled(s, Give(c)) && s.cpus[c].phase.i != c && PhaseOk(s.cpus[c], c)
    ensures
      var s', i := AfterGive(s, c), s.cpus[c].phase.i;
      Part(s'.cpus[c]) + Part(s'.cpus[i]) == Part(s.cpus[c]) + Part(s.cpus[i])
  {
    hide AfterGive, Part, DealFor;
    GiveShape(s, c);
    var p, m := s.cpus[c].phase, DealFor(s, c);
    HandOverParts(s.cpus[c], s.cpus[p.i], Giving(p.i + 1, p.share, m.send, m.list), m.queue[|s.cpus[p.i].queue|..]);
  }

  lemma PairSum(t0: multiset<Tid>, t1: multiset<Tid>, t2: multiset<Tid>,
                a: multiset<Tid>, a': multiset<Tid>, b: multiset<Tid>, b': multiset<Tid>)
    requires t1 + a == t0 + a' && t2 + b == t1 + b' && a' + b' == a + b
    ensures t2 == t0
  {
    forall t ensures t2[t] == t0[t] {
      assert (t1 + a)[t] == (t0 + a')[t] && (t2 + b)[t] == (t1 + b')[t] && (a' + b')[t] == (a + b)[t];
    }
  }

  lemma GiveCounted(s: Sys, c: CpuId)
    requires Inv(s) && Enabled(s, Give(c)) && s.cpus[c].phase.i != c
    ensures Counted(AfterGive(s, c))
  {
    var s', p := AfterGive(s, c), s.cpus[c].phase;
    var m := DealFor(s, c);
    assert PhaseOk(s.cpus[c], c);
    DealMeaning(s.cpus[p.i].queue, p.list, p.send, p.share, s.cpus[c].cur);
    var sender, target := s'.cpus[c], s'.cpus[p.i];
    var mid := s.cpus[c := sender];
    TotalUpdate(s.cpus, c, sender);
    TotalUpdate(mid, p.i, target);
    GiveParts(s, c);
    assert s'.cpus == mid[p.i := target];
    PairSum(Total(s.cpus), Total(mid), Total(s'.cpus), Part(s.cpus[c]), Part(sender), Part(s.cpus[p.i]), Part(target));
  }

  /** A thread that was dealt away is nowhere else on the sender's account. */
  lemma DealtIsGone(s: Sys, c: CpuId, t: Tid)
    requires Inv(s) && Enabled(s, Give(c))
    ensures
      var p, m := s.cpus[c].phase, DealFor(s, c);
      && s.cpus[p.i].queue <= m.queue
      && (t in m.queue[|s.cpus[p.i].queue|..] ==>
            t in p.list && t !in m.list && t !in s.cpus[c].queue && t != s.cpus[c].cur)
  {
    var p, m := s.cpus[c].phase, DealFor(s, c);
    assert PhaseOk(s.cpus[c], c);
    var q := s.cpus[p.i].queue;
    DealMeaning(q, p.list, p.send, p.share, s.cpus[c].cur);
    InOnePlace(s, c, t);
    hide Deal, Homes, Counted;
    var moved := multiset(m.queue[|q|..]);
    assert (moved + multiset(m.list))[t] == multiset(p.list)[t];
  }

  lemma LeftIsListed(s: Sys, c: CpuId, t: Tid)
    requires Enabled(s, Give(c)) && PhaseOk(s.cpus[c], c) && t in DealFor(s, c).list
    ensures t in s.cpus[c].phase.list
  {
    var p, m := s.cpus[c].phase, DealFor(s, c);
    DealMeaning(s.cpus[p.i].queue, p.list, p.send, p.share, s.cpus[c].cur);
    hide Deal;
    assert multiset(p.list)[t] >= multiset(m.list)[t] > 0;
  }

  lemma SenderHome(s: Sys, c: CpuId)
    requires Inv(s) && Enabled(s, Give(c)) && s.cpus[c].phase.i != c
    ensures HomeOf(AfterGive(s, c), c)
  {
    hide Inv, Counted, PhaseOk, Dealt, Deal;
    FromInv(s, c);
    var s', p, m := AfterGive(s, c), s.cpus[c].phase, DealFor(s, c);
    var q := s.cpus[p.i].queue;
    forall t | t in m.list ensures t in p.list {
      LeftIsListed(s, c, t);
    }
    forall t
      ensures q <= m.queue
      ensures t in m.queue[|q|..] ==> t in p.list && t !in m.list && t !in s.cpus[c].queue && t != s.cpus[c].cur
    {
      DealtIsGone(s, c, t);
    }
    assert s'.cpus[c] == s.cpus[c].(phase := Giving(p.i + 1, p.share, m.send, m.list));
  }

  lemma TargetHome(s: Sys, c: CpuId)
    requires Inv(s) && Enabled(s, Give(c)) && s.cpus[c].phase.i != c
    ensures HomeOf(AfterGive(s, c), s.cpus[c].phase.i)
  {
    hide Inv, Counted, PhaseOk, Dealt, Deal;
    var s', p, m := AfterGive(s, c), s.cpus[c].phase, DealFor(s, c);
    FromInv(s, c);
    FromInv(s, p.i);
    var q := s.cpus[p.i].queue;
    forall t ensures q <= m.queue && (t in m.queue[|q|..] ==> t in p.list) {
      DealtIsGone(s, c, t);
    }
    assert m.queue == q + m.queue[|q|..];
    assert s'.cpus[p.i] == s.cpus[p.i].(queue := m.queue);
  }

  lemma ListOf(p: Phase)
    ensures p.Giving? ==> List(p) == p.list
  {
  }

  lemma OtherHome(s: Sys, c: CpuId, d: CpuId)
    requires Inv(s) && Enabled(s, Give(c)) && IsCpu(s, d) && s.cpus[c].phase.i != c
    requires d != c && d != s.cpus[c].phase.i
    ensures HomeOf(AfterGive(s, c), d)
  {
    hide Inv, Counted, PhaseOk, Dealt, Deal, List;
    var s', p, m := AfterGive(s, c), s.cpus[c].phase, DealFor(s, c);
    FromInv(s, c);
    FromInv(s, d);
    var q := s.cpus[p.i].queue;
    forall t ensures q <= m.queue && (t in m.queue[|q|..] ==> t in List(p)) {
      DealtIsGone(s, c, t);
      ListOf(p);
    }
    assert s'.cpus[d] == s.cpus[d];
    assert forall t :: t in s.home && s.home[t] == d ==> t in s'.home && s'.home[t] == d;
  }

  lemma GiveHomes(s: Sys, c: CpuId)
    requires Inv(s) && Enabled(s, Give(c)) && s.cpus[c].phase.i != c
    ensures Homes(AfterGive(s, c))
  {
    var s', p := AfterGive(s, c), s.cpus[c].phase;
    assert Homes(s);
    hide Inv, Deal, HomeOf;
    forall d | 0 <= d < |s'.cpus| ensures HomeOf(s', d) {
      if d == c {
        SenderHome(s, c);
      } else if d == p.i {
        TargetHome(s, c);
      } else {
        OtherHome(s, c, d);
      }
    }
    assert s'.home.Keys == s.home.Keys;
  }

  lemma GivePhases(s: Sys, c: CpuId)
    requires Phases(s) && Enabled(s, Give(c)) && s.cpus[c].phase.i != c
    ensures Phases(AfterGive(s, c)) && AfterGive(s, c).lost == s.lost
  {
    var s', p := AfterGive(s, c), s.cpus[c].phase;
    assert PhaseOk(s.cpus[c], c);
    DealMeaning(s.cpus[p.i].queue, p.list, p.send, p.share, s.cpus[c].cur);
    hide Deal;
    SamePhase(s.cpus[p.i], s'.cpus[p.i], p.i);
    forall d | 0 <= d < |s'.cpus| ensures PhaseOk(s'.cpus[d], d) {
      assert PhaseOk(s.cpus[d], d);
    }
  }

  /** The sender skips its own queue. */
  lemma GiveToSelf(s: Sys, c: CpuId)
    requires Inv(s) && Enabled(s, Give(c)) && s.cpus[c].phase.i == c
    ensures Inv(AfterGive(s, c))
  {
    hide Inv, Counted, HomeOf;
    FromInv(s, c);
    var p := s.cpus[c].phase;
    NewPhase(s, c, Giving(p.i + 1, p.share, p.send, p.list));
  }

  lemma GiveToOther(s: Sys, c: CpuId)
    requires Inv(s) && Enabled(s, Give(c)) && s.cpus[c].phase.i != c
    ensures Inv(AfterGive(s, c))
  {
    hide Homes, Counted, Phases, AfterGive;
    GiveCounted(s, c);
    GiveHomes(s, c);
    GivePhases(s, c);
  }

  lemma GiveStep(s: Sys, c: CpuId)
    requires Inv(s) && Enabled(s, Give(c))
    ensures Inv(After(s, Give(c)))
  {
    hide Inv, AfterGive;
    if s.cpus[c].phase.i == c { GiveToSelf(s, c); } else { GiveToOther(s, c); }
  }

  lemma StepKeeps(s: Sys, step: Step)
    requires Inv(s) && Enabled(s, step)
    ensures Inv(After(s, step))
  {
    hide Inv;
    match step
    case Fork(c, t) => ForkStep(s, c, t);
    case Wake(t) => WakeStep(s, t);
    case Sleep(c) => SleepStep(s, c);
    case Yield(c) => YieldStep(s, c);
    case Dispatch(c) => DispatchStep(s, c);
    case Start(c) => StartStep(s, c);
    case Count(c) => CountStep(s, c);
    case Decide(c) => DecideStep(s, c);
    case PutBack(c) => PutBackStep(s, c);
    case Take(c) => TakeStep(s, c);
    case Give(c) => GiveStep(s, c);
  }

  lemma InitialHolds(s: Sys)
    requires Initial(s)
    ensures Inv(s)
  {
    hide Counted;
  }

  lemma {:induction false} RunKeepsInv(run: seq<Sys>, steps: seq<Step>, i: nat)
    requires IsRun(run, steps) && i < |run|
    ensures Inv(run[i])
  {
    hide Inv, Enabled, After, Counted;
    if i == 0 {
      InitialHolds(run[0]);
    } else {
      RunKeepsInv(run, steps, i - 1);
      StepKeeps(run[i - 1], steps[i - 1]);
    }
  }

  /** In every state of every run each thread ever forked is in exactly one place: one run queue, one
      travelling list, running on one CPU, or asleep; and no pop has ever met an empty list. */
  lemma NoThreadLostOrDoubled(run: seq<Sys>, steps: seq<Step>, i: nat)
    requires IsRun(run, steps) && i < |run|
    ensures Population(run[i]) == multiset(run[i].threads)
    ensures !run[i].lost
  {
    RunKeepsInv(run, steps, i);
  }

  /** In every state of every run the thread a CPU is on, idle or not, still belongs to that CPU and is
      on no other CPU's queue or travelling list, and every queued thread's t_cpu names its queue. */
  lemma CurrentThreadsStay(run: seq<Sys>, steps: seq<Step>, i: nat, c: CpuId)
    requires IsRun(run, steps) && i < |run| && IsCpu(run[i], c)
    ensures run[i].cpus[c].cur in run[i].home && run[i].home[run[i].cpus[c].cur] == c
    ensures forall t :: t in run[i].cpus[c].queue ==> t in run[i].home && run[i].home[t] == c
    ensures forall d :: 0 <= d < |run[i].cpus| && d != c ==>
      run[i].cpus[c].cur !in run[i].cpus[d].queue && run[i].cpus[c].cur !in List(run[i].cpus[d].phase)
  {
    RunKeepsInv(run, steps, i);
    assert HomeOf(run[i], c);
    forall d | 0 <= d < |run[i].cpus| && d != c
      ensures run[i].cpus[c].cur !in run[i].cpus[d].queue && run[i].cpus[c].cur !in List(run[i].cpus[d].phase)
    {
      assert HomeOf(run[i], d);
    }
  }

  lemma GiveBound(s: Sys, c: CpuId, d: CpuId)
    requires IsCpu(s, d) && Enabled(s, Give(c)) && PhaseOk(s.cpus[c], c)
    ensures
      var before, after := s.cpus[d].queue, AfterGive(s, c).cpus[d].queue;
      && before <= after
      && (d == c ==> after == before)
      && (|after| == |before| || |after| <= s.cpus[c].phase.share)
  {
    var p := s.cpus[c].phase;
    DealMeaning(s.cpus[p.i].queue, p.list, p.send, p.share, s.cpus[c].cur);
    hide Deal;
  }

  /** Whatever the queue lengths have become since they were counted, handing threads to a CPU never
      takes its queue past one share, and never lengthens one already there. */
  lemma NeverPastOneShare(run: seq<Sys>, steps: seq<Step>, i: nat, c: CpuId, d: CpuId)
    requires IsRun(run, steps) && i < |run| && IsCpu(run[i], d) && Enabled(run[i], Give(c))
    ensures
      var before, after := run[i].cpus[d].queue, After(run[i], Give(c)).cpus[d].queue;
      && before <= after
      && (d == c ==> after == before)
      && (|after| == |before| || |after| <= run[i].cpus[c].phase.share)
  {
    RunKeepsInv(run, steps, i);
    assert PhaseOk(run[i].cpus[c], c);
    GiveBound(run[i], c, d);
  }

  /** DIVROUNDUP: the least length that spreads the threads counted over all the CPUs. */
  lemma OneShareMeaning(total: nat, cpus: nat)
    requires cpus > 0
    ensures OneShare(total, cpus) * cpus >= total
    ensures OneShare(total, cpus) > 0 ==> (OneShare(total, cpus) - 1) * cpus < total
  {
    var x, k := total + cpus - 1, OneShare(total, cpus);
    assert x == k * cpus + x % cpus;
  }
}
