/** kern/thread/thread.c: what thread_switch and thread_startup hand over from one thread to the next
    (interrupt level, raise count, run-queue lock), on any number of CPUs, together with splx
    (kern/thread/spl.c) and the spinlocks (kern/thread/spinlock.c) they rest on. */
module ContextSwitch {
  import opened Collections

  type Tid = int
  type CpuId = int

  /** Lock c is the run-queue lock of CPU c; every other number is some other spinlock. */
  type Lock = int

  /** How far a thread has got.  `spl` is the level thread_switch read on entry and will put back. */
  datatype Place =
    | Working
    | Entered(spl: bool, lk: Option<Lock>, ready: bool)
    | Locked(spl: bool, lk: Option<Lock>, ready: bool)
    | Placed(spl: bool)
    | Idling(spl: bool)
    | Waking(spl: bool)
    | Resumed(spl: bool)
    | Tail(spl: bool)
    | Making
    | Parked(spl: bool)

  /** t_curspl (true for IPL_HIGH) and t_iplhigh_count. */
  datatype Thread = Thread(high: bool, count: int, at: Place)

  /** c_curthread, c_spinlocks, whether interrupts are on, the spinlocks whose splk_holder is this CPU,
      and the one it is spinning for. */
  datatype Cpu = Cpu(cur: Tid, spinlocks: int, irq: bool, held: set<Lock>, want: Option<Lock>)

  datatype Sys = Sys(threads: map<Tid, Thread>, cpus: seq<Cpu>)

  datatype Step =
    | SetSpl(c: CpuId, high: bool)
    | TakeInterrupt(c: CpuId)
    | SpinStart(c: CpuId, l: Lock)
    | SpinWin(c: CpuId)
    | SpinRelease(c: CpuId, l: Lock)
    | Create(c: CpuId, t: Tid)
    | Publish(c: CpuId, t: Tid)
    | SwitchIn(c: CpuId, lk: Option<Lock>, ready: bool)
    | NothingToDo(c: CpuId)
    | PutAway(c: CpuId)
    | GoIdle(c: CpuId)
    | LeaveIdle(c: CpuId)
    | SwitchTo(c: CpuId, next: Tid)
    | UnlockQueue(c: CpuId)
    | Finish(c: CpuId)

  function Bit(b: bool): int { if b then 1 else 0 }

  function LockSet(lk: Option<Lock>): set<Lock> { if lk.Some? then {lk.value} else {} }

  predicate OnCpu(s: Sys, t: Tid) { exists c :: 0 <= c < |s.cpus| && s.cpus[c].cur == t }

  predicate Runs(s: Sys, c: CpuId) { 0 <= c < |s.cpus| && s.cpus[c].cur in s.threads }

  function Me(s: Sys, c: CpuId): Thread
    requires Runs(s, c)
  { s.threads[s.cpus[c].cur] }

  predicate Free(s: Sys, l: Lock) { forall d :: 0 <= d < |s.cpus| ==> l !in s.cpus[d].held }

  /** Code outside the locked part of thread_switch, where any other spinlock may come and go. */
  predicate Loose(p: Place) { p.Working? || p.Idling? || p.Tail? }

  predicate Enabled(s: Sys, step: Step)
  {
    && Runs(s, step.c)
    && var cpu := s.cpus[step.c];
       var p := Me(s, step.c).at;
       && (!step.SpinWin? ==> cpu.want.None?)
       && match step
          case SetSpl(c, high) => p.Working?
          case TakeInterrupt(c) => p.Working? && cpu.irq
          case SpinStart(c, l) => if p.Entered? || p.Waking? then l == c else Loose(p) && l !in cpu.held
          case SpinWin(c) => cpu.want.Some? && Free(s, cpu.want.value)
          case SpinRelease(c, l) => Loose(p) && l in cpu.held
          case Create(c, t) => p.Working? && t !in s.threads
          case Publish(c, t) => p.Working? && t in s.threads && s.threads[t].at.Making?
          case SwitchIn(c, lk, ready) => p.Working? && cpu.held == LockSet(lk) && (lk.Some? ==> lk.value >= |s.cpus|)
                                         && (ready ==> lk.None?)
          case NothingToDo(c) => p.Locked? && p.ready
          case PutAway(c) => p.Locked?
          case GoIdle(c) => p.Placed?
          case LeaveIdle(c) => p.Idling? && cpu.held == {}
          case SwitchTo(c, next) => p.Placed? && (next == cpu.cur || (next in s.threads && s.threads[next].at.Parked?))
          case UnlockQueue(c) => p.Resumed?
          case Finish(c) => p.Tail?
  }

  function Put(s: Sys, c: CpuId, cpu: Cpu, th: Thread): Sys
    requires Runs(s, c) && cpu.cur == s.cpus[c].cur
  {
    s.(threads := s.threads[cpu.cur := th], cpus := s.cpus[c := cpu])
  }

  /** splraise: interrupts go off on the first raise. */
  function Raise(s: Sys, c: CpuId): Sys
    requires Runs(s, c)
  {
    var me := Me(s, c);
    var cpu := s.cpus[c];
    Put(s, c, if me.count == 0 then cpu.(irq := false) else cpu, me.(count := me.count + 1))
  }

  /** spllower: interrupts come on with the last lower. */
  function Lower(s: Sys, c: CpuId): Sys
    requires Runs(s, c)
  {
    var me := Me(s, c);
    var cpu := s.cpus[c];
    Put(s, c, if me.count - 1 == 0 then cpu.(irq := true) else cpu, me.(count := me.count - 1))
  }

  function WithMe(s: Sys, c: CpuId, th: Thread): Sys
    requires Runs(s, c)
  { Put(s, c, s.cpus[c], th) }

  function Goto(s: Sys, c: CpuId, p: Place): Sys
    requires Runs(s, c)
  { WithMe(s, c, Me(s, c).(at := p)) }

  function Splx(s: Sys, c: CpuId, high: bool): Sys
    requires Runs(s, c)
  {
    if !Me(s, c).high && high then
      var s1 := Raise(s, c);
      WithMe(s1, c, Me(s1, c).(high := true))
    else if Me(s, c).high && !high then
      Lower(WithMe(s, c, Me(s, c).(high := false)), c)
    else s
  }

  /** spinlock_acquire up to the spin loop. */
  function StartSpin(s: Sys, c: CpuId, l: Lock): Sys
    requires Runs(s, c)
  {
    var s1 := Raise(s, c);
    var cpu := s1.cpus[c];
    Put(s1, c, cpu.(spinlocks := cpu.spinlocks + 1, want := Some(l)), Me(s1, c))
  }

  /** The test-and-set that succeeds, and the store of splk_holder. */
  function WinSpin(s: Sys, c: CpuId): Sys
    requires Runs(s, c) && s.cpus[c].want.Some?
  {
    var cpu := s.cpus[c];
    var me := Me(s, c);
    var p := match me.at
             case Entered(spl, lk, ready) => Locked(spl, lk, ready)
             case Waking(spl) => Placed(spl)
             case other => other;
    Put(s, c, cpu.(held := cpu.held + {cpu.want.value}, want := None), me.(at := p))
  }

  function DropLock(s: Sys, c: CpuId, l: Lock): Sys
    requires Runs(s, c)
  {
    var cpu := s.cpus[c];
    Lower(Put(s, c, cpu.(spinlocks := cpu.spinlocks - 1, held := cpu.held - {l}), Me(s, c)), c)
  }

  /** switchframe_switch: the outgoing thread stops where it stands, the incoming one goes on. */
  function Swap(s: Sys, c: CpuId, next: Tid): Sys
    requires Enabled(s, SwitchTo(c, next))
  {
    var parked := s.threads[s.cpus[c].cur := Me(s, c).(at := Parked(Me(s, c).at.spl))];
    var incoming := parked[next].(at := Resumed(parked[next].at.spl));
    s.(threads := parked[next := incoming], cpus := s.cpus[c := s.cpus[c].(cur := next)])
  }

  function After(s: Sys, step: Step): Sys
    requires Enabled(s, step)
  {
    match step
    case SetSpl(c, high) => Splx(s, c, high)
    case TakeInterrupt(c) =>
      var me := Me(s, c);
      Put(s, c, s.cpus[c].(irq := false), if me.high then me else me.(high := true, count := me.count + 1))
    case SpinStart(c, l) => StartSpin(s, c, l)
    case SpinWin(c) => WinSpin(s, c)
    case SpinRelease(c, l) => DropLock(s, c, l)
    case Create(c, t) => s.(threads := s.threads[t := Thread(true, 1, Making)])
    case Publish(c, t) =>
      s.(threads := s.threads[t := s.threads[t].(count := s.threads[t].count + 1, at := Parked(false))])
    case SwitchIn(c, lk, ready) => Goto(Splx(s, c, true), c, Entered(Me(s, c).high, lk, ready))
    case NothingToDo(c) => Goto(DropLock(s, c, c), c, Tail(Me(s, c).at.spl))
    case PutAway(c) =>
      var p := Me(s, c).at;
      Goto(if p.lk.Some? then DropLock(s, c, p.lk.value) else s, c, Placed(p.spl))
    case GoIdle(c) => Goto(DropLock(s, c, c), c, Idling(Me(s, c).at.spl))
    case LeaveIdle(c) => Goto(s, c, Waking(Me(s, c).at.spl))
    case SwitchTo(c, next) => Swap(s, c, next)
    case UnlockQueue(c) => Goto(DropLock(s, c, c), c, Tail(Me(s, c).at.spl))
    case Finish(c) => Goto(Splx(s, c, Me(s, c).at.spl), c, Working)
  }

  /** Each CPU starts on its boot thread, just out of thread_create. */
  ghost predicate Initial(s: Sys)
  {
    && (forall c :: 0 <= c < |s.cpus| ==> s.cpus[c] == Cpu(c, 0, false, {}, None))
    && (forall c :: 0 <= c < |s.cpus| ==> c in s.threads && s.threads[c] == Thread(true, 1, Working))
    && (forall t :: t in s.threads ==> 0 <= t < |s.cpus|)
  }

  ghost predicate IsRun(run: seq<Sys>, steps: seq<Step>)
  {
    && |run| == |steps| + 1 && Initial(run[0])
    && forall i :: 0 <= i < |steps| ==> Enabled(run[i], steps[i]) && run[i + 1] == After(run[i], steps[i])
  }

  /** What the place of a running thread says about its level and its CPU's locks. */
  ghost predicate PlaceOk(c: CpuId, th: Thread, cpu: Cpu)
  {
    && (!th.at.Working? ==> th.high)
    && match th.at
       case Working => true
       case Idling(spl) => true
       case Tail(spl) => true
       case Entered(spl, lk, ready) =>
         && cpu.held == LockSet(lk) && c !in cpu.held && (ready ==> lk.None?)
         && (cpu.want.Some? ==> cpu.want.value == c)
       case Locked(spl, lk, ready) =>
         cpu.held == {c} + LockSet(lk) && c !in LockSet(lk) && (ready ==> lk.None?) && cpu.want.None?
       case Placed(spl) => cpu.held == {c} && cpu.want.None?
       case Waking(spl) => cpu.held == {} && (cpu.want.Some? ==> cpu.want.value == c)
       case Resumed(spl) => cpu.held == {c} && cpu.want.None?
       case Making => false
       case Parked(spl) => false
  }

  ghost predicate CpuOk(c: CpuId, th: Thread, cpu: Cpu)
  {
    && th.count == Bit(th.high) + cpu.spinlocks
    && cpu.spinlocks == |cpu.held| + Bit(cpu.want.Some?)
    && (cpu.irq <==> th.count == 0)
    && (cpu.want.Some? ==> cpu.want.value !in cpu.held)
    && PlaceOk(c, th, cpu)
  }

  ghost predicate OffOk(th: Thread)
  {
    th.high && if th.at.Parked? then th.count == 2 else th.at.Making? && th.count == 1
  }

  ghost predicate CpusOk(s: Sys)
  {
    forall c :: 0 <= c < |s.cpus| ==> s.cpus[c].cur in s.threads && CpuOk(c, s.threads[s.cpus[c].cur], s.cpus[c])
  }

  ghost predicate OffsOk(s: Sys)
  {
    forall t :: t in s.threads && !OnCpu(s, t) ==> OffOk(s.threads[t])
  }

  ghost predicate CursDiffer(s: Sys)
  {
    forall c, d :: 0 <= c < d < |s.cpus| ==> s.cpus[c].cur != s.cpus[d].cur
  }

  ghost predicate LocksExclusive(s: Sys)
  {
    forall c, d :: 0 <= c < d < |s.cpus| ==> s.cpus[c].held !! s.cpus[d].held
  }

  ghost predicate Inv(s: Sys) { CpusOk(s) && OffsOk(s) && CursDiffer(s) && LocksExclusive(s) }

  /** The step leaves everything alone but CPU c and the thread it runs, and lets c take no lock that
      another CPU has. */
  ghost predicate Local(s: Sys, s': Sys, c: CpuId)
  {
    && Runs(s, c) && |s'.cpus| == |s.cpus| && s'.cpus[c].cur == s.cpus[c].cur
    && s'.threads.Keys == s.threads.Keys
    && (forall d :: 0 <= d < |s.cpus| && d != c ==> s'.cpus[d] == s.cpus[d])
    && (forall t :: t in s.threads && t != s.cpus[c].cur ==> s'.threads[t] == s.threads[t])
    && (forall d :: 0 <= d < |s.cpus| && d != c ==> s'.cpus[c].held * s.cpus[d].held <= s.cpus[c].held)
  }

  lemma SameCurs(s: Sys, s': Sys)
    requires |s'.cpus| == |s.cpus| && forall d :: 0 <= d < |s.cpus| ==> s'.cpus[d].cur == s.cpus[d].cur
    ensures forall t :: OnCpu(s, t) ==> OnCpu(s', t)
  {
    forall t | OnCpu(s, t) ensures OnCpu(s', t) {
      var d :| 0 <= d < |s.cpus| && s.cpus[d].cur == t;
      assert s'.cpus[d].cur == t;
    }
  }

  lemma RunningPlace(s: Sys, t: Tid)
    requires CpusOk(s) && OnCpu(s, t)
    ensures t in s.threads && !s.threads[t].at.Parked? && !s.threads[t].at.Making?
  {
    var d :| 0 <= d < |s.cpus| && s.cpus[d].cur == t;
    assert CpuOk(d, s.threads[t], s.cpus[d]);
  }

  lemma LocalKeeps(s: Sys, s': Sys, c: CpuId)
    requires Inv(s) && Local(s, s', c)
    requires CpuOk(c, s'.threads[s'.cpus[c].cur], s'.cpus[c])
    ensures Inv(s')
  {
    hide CpuOk, OffOk;
    assert CpusOk(s') by {
      forall d | 0 <= d < |s'.cpus|
        ensures s'.cpus[d].cur in s'.threads && CpuOk(d, s'.threads[s'.cpus[d].cur], s'.cpus[d])
      {
        assert d != c ==> s.cpus[d].cur != s.cpus[c].cur;
        assert CpuOk(d, s.threads[s.cpus[d].cur], s.cpus[d]);
      }
    }
    assert OffsOk(s') by {
      SameCurs(s, s');
      forall t | t in s'.threads && !OnCpu(s', t) ensures OffOk(s'.threads[t]) {
        assert s'.cpus[c].cur != t;
      }
    }
    assert LocksExclusive(s');
  }

  /** The four primitives, each seen from the one CPU it runs on. */
  lemma SplxKeeps(s: Sys, c: CpuId, high: bool)
    requires Runs(s, c) && CpuOk(c, Me(s, c), s.cpus[c])
    requires Me(s, c).at.Working? || Me(s, c).at.Tail?
    ensures Local(s, Splx(s, c, high), c)
    ensures
      var s' := Splx(s, c, high);
      && Me(s', c).high == high && Me(s', c).at == Me(s, c).at
      && s'.cpus[c] == s.cpus[c].(irq := Me(s', c).count == 0)
      && Me(s', c).count == Bit(high) + s.cpus[c].spinlocks
  {
  }

  lemma DropKeeps(s: Sys, c: CpuId, l: Lock)
    requires Runs(s, c) && CpuOk(c, Me(s, c), s.cpus[c]) && l in s.cpus[c].held
    ensures Local(s, DropLock(s, c, l), c)
    ensures
      var s' := DropLock(s, c, l);
      && Me(s', c) == Me(s, c).(count := Me(s, c).count - 1)
      && s'.cpus[c].held == s.cpus[c].held - {l} && s'.cpus[c].want == s.cpus[c].want
      && s'.cpus[c].spinlocks == |s'.cpus[c].held| + Bit(s.cpus[c].want.Some?)
      && Me(s', c).count == Bit(Me(s, c).high) + s'.cpus[c].spinlocks
      && (s'.cpus[c].irq <==> Me(s', c).count == 0)
  {
  }

  lemma SplStep(s: Sys, step: Step)
    requires Inv(s) && Enabled(s, step) && (step.SetSpl? || step.TakeInterrupt? || step.SwitchIn? || step.Finish?)
    ensures Inv(After(s, step))
  {
    var c, s' := step.c, After(s, step);
    assert CpuOk(c, Me(s, c), s.cpus[c]);
    if step.SetSpl? { SplxKeeps(s, c, step.high); }
    if step.SwitchIn? { SplxKeeps(s, c, true); }
    if step.Finish? { SplxKeeps(s, c, Me(s, c).at.spl); }
    assert Local(s, s', c);
    assert CpuOk(c, s'.threads[s'.cpus[c].cur], s'.cpus[c]);
    LocalKeeps(s, s', c);
  }

  lemma SpinStartKeeps(s: Sys, step: Step)
    requires Inv(s) && Enabled(s, step) && step.SpinStart?
    ensures Inv(After(s, step))
  {
    var c, s' := step.c, After(s, step);
    assert CpuOk(c, Me(s, c), s.cpus[c]);
    assert Local(s, s', c);
    assert CpuOk(c, s'.threads[s'.cpus[c].cur], s'.cpus[c]);
    LocalKeeps(s, s', c);
  }

  lemma SpinWinKeeps(s: Sys, step: Step)
    requires Inv(s) && Enabled(s, step) && step.SpinWin?
    ensures Inv(After(s, step))
  {
    var c, s' := step.c, After(s, step);
    assert CpuOk(c, Me(s, c), s.cpus[c]);
    assert Local(s, s', c);
    assert CpuOk(c, s'.threads[s'.cpus[c].cur], s'.cpus[c]);
    LocalKeeps(s, s', c);
  }

  lemma SpinStep(s: Sys, step: Step)
    requires Inv(s) && Enabled(s, step) && (step.SpinStart? || step.SpinWin? || step.SpinRelease?)
    ensures Inv(After(s, step))
  {
    if step.SpinStart? {
      SpinStartKeeps(s, step);
    } else if step.SpinWin? {
      SpinWinKeeps(s, step);
    } else {
      var c, s' := step.c, After(s, step);
      assert CpuOk(c, Me(s, c), s.cpus[c]);
      DropKeeps(s, c, step.l);
      assert Local(s, s', c);
      assert CpuOk(c, s'.threads[s'.cpus[c].cur], s'.cpus[c]);
      LocalKeeps(s, s', c);
    }
  }

  lemma GotoKeeps(s: Sys, s1: Sys, c: CpuId, p: Place)
    requires Inv(s) && Local(s, s1, c) && CpuOk(c, Me(s1, c).(at := p), s1.cpus[c])
    ensures Inv(Goto(s1, c, p))
  {
    LocalKeeps(s, Goto(s1, c, p), c);
  }

  lemma UnlockKeeps(s: Sys, c: CpuId, p: Place)
    requires Inv(s) && Runs(s, c) && s.cpus[c].held == {c} && s.cpus[c].want.None? && Me(s, c).high
    requires p.Idling? || p.Tail?
    ensures Inv(Goto(DropLock(s, c, c), c, p))
  {
    assert CpuOk(c, Me(s, c), s.cpus[c]);
    DropKeeps(s, c, c);
    GotoKeeps(s, DropLock(s, c, c), c, p);
  }

  lemma PutAwayKeeps(s: Sys, c: CpuId)
    requires Inv(s) && Enabled(s, PutAway(c))
    ensures Inv(After(s, PutAway(c)))
  {
    var me := Me(s, c);
    assert CpuOk(c, me, s.cpus[c]);
    if me.at.lk.Some? {
      var m := me.at.lk.value;
      DropKeeps(s, c, m);
      assert {c} + {m} - {m} == {c};
      GotoKeeps(s, DropLock(s, c, m), c, Placed(me.at.spl));
    } else {
      assert Local(s, s, c);
      assert s.cpus[c].held == {c};
      GotoKeeps(s, s, c, Placed(me.at.spl));
    }
  }

  lemma LeaveIdleKeeps(s: Sys, c: CpuId)
    requires Inv(s) && Enabled(s, LeaveIdle(c))
    ensures Inv(After(s, LeaveIdle(c)))
  {
    assert CpuOk(c, Me(s, c), s.cpus[c]);
    assert Local(s, s, c);
    GotoKeeps(s, s, c, Waking(Me(s, c).at.spl));
  }

  lemma QueueStep(s: Sys, step: Step)
    requires Inv(s) && Enabled(s, step)
    requires step.NothingToDo? || step.GoIdle? || step.LeaveIdle? || step.UnlockQueue?
    ensures Inv(After(s, step))
  {
    var c := step.c;
    var me := Me(s, c);
    assert CpuOk(c, me, s.cpus[c]);
    hide Inv, CpuOk, Goto, DropLock;
    match step
    case NothingToDo(_) => UnlockKeeps(s, c, Tail(me.at.spl));
    case GoIdle(_) => UnlockKeeps(s, c, Idling(me.at.spl));
    case UnlockQueue(_) => UnlockKeeps(s, c, Tail(me.at.spl));
    case LeaveIdle(_) => LeaveIdleKeeps(s, c);
  }

  lemma NewThreadStep(s: Sys, step: Step)
    requires Inv(s) && Enabled(s, step) && (step.Create? || step.Publish?)
    ensures Inv(After(s, step))
  {
    var s' := After(s, step);
    assert s'.cpus == s.cpus;
    assert !OnCpu(s, step.t) by {
      if OnCpu(s, step.t) { RunningPlace(s, step.t); }
    }
    forall t | t in s'.threads && !OnCpu(s', t) ensures OffOk(s'.threads[t]) {
      assert t in s.threads ==> !OnCpu(s, t);
    }
    assert CpusOk(s') by {
      forall d | 0 <= d < |s'.cpus|
        ensures s'.cpus[d].cur in s'.threads && CpuOk(d, s'.threads[s'.cpus[d].cur], s'.cpus[d])
      {
        assert OnCpu(s, s.cpus[d].cur);
      }
    }
  }

  lemma SwapOthers(s: Sys, c: CpuId, next: Tid)
    requires Inv(s) && Enabled(s, SwitchTo(c, next)) && (next != s.cpus[c].cur ==> !OnCpu(s, next))
    requires CpuOk(c, Swap(s, c, next).threads[next], Swap(s, c, next).cpus[c])
    requires OffOk(s.threads[s.cpus[c].cur].(at := Parked(Me(s, c).at.spl)))
    ensures Inv(Swap(s, c, next))
  {
    hide CpuOk, OffOk;
    var s' := Swap(s, c, next);
    forall d | 0 <= d < |s.cpus| && d != c ensures s.cpus[d].cur != s.cpus[c].cur && s.cpus[d].cur != next {
      assert OnCpu(s, s.cpus[d].cur);
    }
    assert CpusOk(s') by {
      forall d | 0 <= d < |s'.cpus|
        ensures s'.cpus[d].cur in s'.threads && CpuOk(d, s'.threads[s'.cpus[d].cur], s'.cpus[d])
      {
        assert CpuOk(d, s.threads[s.cpus[d].cur], s.cpus[d]);
      }
    }
    assert OffsOk(s') by {
      assert s'.cpus[c].cur == next;
      assert OnCpu(s', next);
      forall t | OnCpu(s, t) && t != s.cpus[c].cur ensures OnCpu(s', t) {
        var d :| 0 <= d < |s.cpus| && s.cpus[d].cur == t;
        assert s'.cpus[d].cur == t;
      }
    }
  }

  /** The hand-over itself: two raises go out with one thread and two come in with the next, which is
      what the level it left at and the one lock of this CPU add up to. */
  lemma SwapStep(s: Sys, c: CpuId, next: Tid)
    requires Inv(s) && Enabled(s, SwitchTo(c, next))
    ensures Inv(Swap(s, c, next))
  {
    var s' := Swap(s, c, next);
    var out := s.cpus[c].cur;
    assert CpuOk(c, Me(s, c), s.cpus[c]);
    assert s.cpus[c].spinlocks == 1;
    if next != out {
      assert !OnCpu(s, next) by {
        if OnCpu(s, next) { RunningPlace(s, next); }
      }
      assert OffOk(s.threads[next]);
    }
    assert CpuOk(c, s'.threads[next], s'.cpus[c]);
    SwapOthers(s, c, next);
  }

  lemma StepKeeps(s: Sys, step: Step)
    requires Inv(s) && Enabled(s, step)
    ensures Inv(After(s, step))
  {
    hide Inv;
    match step
    case SetSpl(_, _) => SplStep(s, step);
    case TakeInterrupt(_) => SplStep(s, step);
    case SwitchIn(_, _, _) => SplStep(s, step);
    case Finish(_) => SplStep(s, step);
    case SpinStart(_, _) => SpinStep(s, step);
    case SpinWin(_) => SpinStep(s, step);
    case SpinRelease(_, _) => SpinStep(s, step);
    case Create(_, _) => NewThreadStep(s, step);
    case Publish(_, _) => NewThreadStep(s, step);
    case SwitchTo(c, next) => SwapStep(s, c, next);
    case NothingToDo(_) => QueueStep(s, step);
    case PutAway(c) => PutAwayKeeps(s, c);
    case GoIdle(_) => QueueStep(s, step);
    case LeaveIdle(_) => QueueStep(s, step);
    case UnlockQueue(_) => QueueStep(s, step);
  }

  lemma InitialHolds(s: Sys)
    requires Initial(s)
    ensures Inv(s)
  {
    forall t | t in s.threads ensures OnCpu(s, t) {
      assert s.cpus[t].cur == t;
    }
  }

  lemma {:induction false} RunKeepsInv(run: seq<Sys>, steps: seq<Step>, i: nat)
    requires IsRun(run, steps) && i < |run|
    ensures Inv(run[i])
  {
    hide Inv, Enabled, After;
    if i == 0 {
      InitialHolds(run[0]);
    } else {
      RunKeepsInv(run, steps, i - 1);
      StepKeeps(run[i - 1], steps[i - 1]);
    }
  }

  /** In every state of every run, a thread that could be switched to (sleeping, ready, or forked and
      never run) has its level high and exactly two raises on its count. */
  lemma OffCpuThreadsCarryTwo(run: seq<Sys>, steps: seq<Step>, i: nat, t: Tid)
    requires IsRun(run, steps) && i < |run|
    requires t in run[i].threads && !OnCpu(run[i], t) && !run[i].threads[t].at.Making?
    ensures run[i].threads[t].high && run[i].threads[t].count == 2
  {
    RunKeepsInv(run, steps, i);
    assert OffOk(run[i].threads[t]);
  }

  /** In every state of every run, a running thread's count is its level plus the spinlocks its CPU
      holds or spins for, and interrupts are on exactly when both are nothing. */
  lemma InterruptsFollowTheCount(run: seq<Sys>, steps: seq<Step>, i: nat, c: CpuId)
    requires IsRun(run, steps) && i < |run| && 0 <= c < |run[i].cpus|
    ensures Runs(run[i], c)
    ensures var cpu, me := run[i].cpus[c], Me(run[i], c);
      && me.count == Bit(me.high) + cpu.spinlocks
      && cpu.spinlocks == |cpu.held| + Bit(cpu.want.Some?)
      && (cpu.irq <==> !me.high && cpu.held == {} && cpu.want.None?)
  {
    RunKeepsInv(run, steps, i);
    assert CpuOk(c, run[i].threads[run[i].cpus[c].cur], run[i].cpus[c]);
  }

  /** A spinlock has at most one holder; the holder the release asserts is the CPU the incoming thread
      finds itself on, whichever that is; and taking the run-queue lock never meets the lock's own
      deadlock panic. */
  lemma QueueLockIsHandedOver(run: seq<Sys>, steps: seq<Step>, i: nat, c: CpuId)
    requires IsRun(run, steps) && i < |run| && 0 <= c < |run[i].cpus|
    ensures Runs(run[i], c)
    ensures forall d :: 0 <= d < |run[i].cpus| && d != c ==> run[i].cpus[c].held !! run[i].cpus[d].held
    ensures Me(run[i], c).at.Resumed? ==> c in run[i].cpus[c].held && run[i].cpus[c].spinlocks > 0
    ensures Me(run[i], c).at.Entered? || Me(run[i], c).at.Waking? ==> c !in run[i].cpus[c].held
  {
    RunKeepsInv(run, steps, i);
    assert CpuOk(c, run[i].threads[run[i].cpus[c].cur], run[i].cpus[c]);
  }

  /** The thread is somewhere inside thread_switch. */
  predicate Inside(p: Place) { !p.Working? && !p.Making? }

  function Saved(p: Place): bool { Inside(p) && p.spl }

  ghost predicate KeepsSaved(s: Sys, s': Sys, t: Tid)
    requires t in s.threads
  {
    && t in s'.threads
    && (Inside(s'.threads[t].at) ==> Saved(s'.threads[t].at) == Saved(s.threads[t].at))
    && (!Inside(s'.threads[t].at) ==> s'.threads[t].high == Saved(s.threads[t].at))
  }

  lemma OthersLeftAlone(s: Sys, step: Step, t: Tid)
    requires Enabled(s, step) && t in s.threads && t != s.cpus[step.c].cur
    requires step.SetSpl? || step.TakeInterrupt? || step.SpinStart? || step.SpinWin? || step.SpinRelease?
          || step.SwitchIn? || step.Finish?
    ensures t in After(s, step).threads && After(s, step).threads[t] == s.threads[t]
  {
  }

  lemma OthersInQueues(s: Sys, step: Step, t: Tid)
    requires Enabled(s, step) && t in s.threads && Inside(s.threads[t].at) && t != s.cpus[step.c].cur
    requires !step.SetSpl? && !step.TakeInterrupt? && !step.SpinStart? && !step.SpinWin? && !step.SpinRelease?
    requires !step.SwitchIn? && !step.Finish?
    ensures KeepsSaved(s, After(s, step), t)
  {
  }

  lemma OthersStayInside(s: Sys, step: Step, t: Tid)
    requires Enabled(s, step) && t in s.threads && Inside(s.threads[t].at) && t != s.cpus[step.c].cur
    ensures KeepsSaved(s, After(s, step), t)
  {
    hide After, Enabled;
    if step.SetSpl? || step.TakeInterrupt? || step.SpinStart? || step.SpinWin? || step.SpinRelease?
      || step.SwitchIn? || step.Finish? {
      OthersLeftAlone(s, step, t);
    } else {
      OthersInQueues(s, step, t);
    }
  }

  lemma SpinStaysInside(s: Sys, step: Step)
    requires Enabled(s, step) && Inside(Me(s, step.c).at) && (step.SpinStart? || step.SpinWin? || step.SpinRelease?)
    ensures KeepsSaved(s, After(s, step), s.cpus[step.c].cur)
  {
  }

  lemma QueueStaysInside(s: Sys, step: Step)
    requires Enabled(s, step) && !step.Finish? && !step.SpinStart? && !step.SpinWin? && !step.SpinRelease?
    requires Inside(Me(s, step.c).at)
    ensures KeepsSaved(s, After(s, step), s.cpus[step.c].cur)
  {
  }

  lemma StaysInside(s: Sys, step: Step, t: Tid)
    requires Inv(s) && Enabled(s, step) && t in s.threads && Inside(s.threads[t].at)
    ensures KeepsSaved(s, After(s, step), t)
  {
    var c := step.c;
    if t != s.cpus[c].cur {
      hide Inv, Enabled, After, KeepsSaved;
      OthersStayInside(s, step, t);
    } else if step.Finish? {
      assert CpuOk(c, Me(s, c), s.cpus[c]);
      SplxKeeps(s, c, s.threads[t].at.spl);
    } else if step.SpinStart? || step.SpinWin? || step.SpinRelease? {
      hide Inv, Enabled, After, KeepsSaved;
      SpinStaysInside(s, step);
    } else {
      hide Inv, Enabled, After, KeepsSaved;
      QueueStaysInside(s, step);
    }
  }

  lemma {:induction false} SavedLevelStays(run: seq<Sys>, steps: seq<Step>, i: nat, j: nat, t: Tid)
    requires IsRun(run, steps) && i <= j < |run|
    requires forall k :: i <= k <= j ==> t in run[k].threads && Inside(run[k].threads[t].at)
    ensures Saved(run[j].threads[t].at) == Saved(run[i].threads[t].at)
  {
    hide Enabled, After, Inv, Initial;
    if i < j {
      SavedLevelStays(run, steps, i, j - 1, t);
      RunKeepsInv(run, steps, j - 1);
      assert t in run[j - 1].threads && Inside(run[j - 1].threads[t].at);
      StaysInside(run[j - 1], steps[j - 1], t);
    }
  }

  lemma SwitchInSaves(s: Sys, step: Step)
    requires Enabled(s, step) && step.SwitchIn?
    ensures
      var s' := After(s, step);
      && s.cpus[step.c].cur in s'.threads
      && Inside(s'.threads[s.cpus[step.c].cur].at) && Saved(s'.threads[s.cpus[step.c].cur].at) == Me(s, step.c).high
  {
  }

  /** Whatever happens in between, on however many CPUs, a thread comes out of thread_switch at the
      interrupt level it went in with. */
  lemma LevelSurvivesTheSwitch(run: seq<Sys>, steps: seq<Step>, i: nat, j: nat)
    requires IsRun(run, steps) && i < j < |steps| && steps[i].SwitchIn?
    requires Runs(run[i], steps[i].c)
    requires forall k :: i < k <= j ==> run[i].cpus[steps[i].c].cur in run[k].threads
                                        && Inside(run[k].threads[run[i].cpus[steps[i].c].cur].at)
    requires run[i].cpus[steps[i].c].cur in run[j + 1].threads
    requires !Inside(run[j + 1].threads[run[i].cpus[steps[i].c].cur].at)
    ensures run[j + 1].threads[run[i].cpus[steps[i].c].cur].high == Me(run[i], steps[i].c).high
  {
    var t := run[i].cpus[steps[i].c].cur;
    SwitchInSaves(run[i], steps[i]);
    SavedLevelStays(run, steps, i + 1, j, t);
    RunKeepsInv(run, steps, j);
    hide Inv;
    StaysInside(run[j], steps[j], t);
  }

  lemma StepOf(run: seq<Sys>, steps: seq<Step>, i: nat)
    requires IsRun(run, steps) && i < |steps|
    ensures |run| == |steps| + 1 && Inv(run[i]) && Enabled(run[i], steps[i])
    ensures run[i + 1] == After(run[i], steps[i])
  {
    RunKeepsInv(run, steps, i);
  }

  ghost predicate SameLocks(cpu: Cpu, cpu': Cpu) { cpu'.held == cpu.held && cpu'.want == cpu.want }

  /** What each step is for, seen from its CPU: where its thread goes, at which level, and with which
      locks.  Counts and interrupts follow from these three. */
  ghost predicate Means(step: Step, me: Thread, cpu: Cpu, me': Thread, cpu': Cpu)
  {
    var saved := Saved(me.at);
    match step
    case SetSpl(_, high) => me'.high == high && me'.at == me.at && SameLocks(cpu, cpu')
    case TakeInterrupt(_) => !me.high && me'.high && me'.at == me.at && SameLocks(cpu, cpu')
    case SpinStart(_, l) => me'.high == me.high && me'.at == me.at && cpu'.held == cpu.held && cpu'.want == Some(l)
    case SpinWin(_) =>
      && me'.high == me.high && cpu.want.Some? && cpu'.held == cpu.held + {cpu.want.value} && cpu'.want.None?
      && (me.at.Entered? ==> me'.at == Locked(saved, me.at.lk, me.at.ready))
      && (me.at.Waking? ==> me'.at == Placed(saved))
      && (Loose(me.at) ==> me'.at == me.at)
    case SpinRelease(_, l) =>
      me'.high == me.high && me'.at == me.at && cpu'.held == cpu.held - {l} && cpu'.want == cpu.want
    case Create(_, _) => me' == me && cpu' == cpu
    case Publish(_, _) => me' == me && cpu' == cpu
    case SwitchIn(_, lk, ready) => me'.high && me'.at == Entered(me.high, lk, ready) && SameLocks(cpu, cpu')
    case NothingToDo(_) => me'.high && me'.at == Tail(saved) && cpu'.held == {}
    case PutAway(c) => me'.high && me'.at == Placed(saved) && cpu'.held == {c}
    case GoIdle(_) => me'.high && me'.at == Idling(saved) && cpu'.held == {}
    case LeaveIdle(_) => me'.high && me'.at == Waking(saved) && cpu'.held == {}
    case SwitchTo(_, _) => true
    case UnlockQueue(_) => me'.high && me'.at == Tail(saved) && cpu'.held == {}
    case Finish(_) => me'.high == saved && me'.at == Working && SameLocks(cpu, cpu')
  }

  ghost predicate OneThreadMoves(s: Sys, step: Step, s': Sys)
  {
    && Local(s, s', step.c)
    && Means(step, Me(s, step.c), s.cpus[step.c], Me(s', step.c), s'.cpus[step.c])
  }

  lemma SplxAndGo(s: Sys, c: CpuId, high: bool, p: Place)
    requires Runs(s, c) && CpuOk(c, Me(s, c), s.cpus[c])
    requires Me(s, c).at.Working? || Me(s, c).at.Tail?
    ensures
      var s' := Goto(Splx(s, c, high), c, p);
      && Local(s, s', c) && Me(s', c).high == high && Me(s', c).at == p && SameLocks(s.cpus[c], s'.cpus[c])
  {
    SplxKeeps(s, c, high);
  }

  lemma DropAndGo(s: Sys, c: CpuId, l: Lock, p: Place)
    requires Runs(s, c) && CpuOk(c, Me(s, c), s.cpus[c]) && l in s.cpus[c].held
    ensures
      var s' := Goto(DropLock(s, c, l), c, p);
      && Local(s, s', c) && Me(s', c).high == Me(s, c).high && Me(s', c).at == p
      && s'.cpus[c].held == s.cpus[c].held - {l} && s'.cpus[c].want == s.cpus[c].want
  {
    DropKeeps(s, c, l);
  }

  lemma LevelMeans(s: Sys, step: Step)
    requires Inv(s) && Enabled(s, step) && (step.SetSpl? || step.TakeInterrupt?)
    ensures OneThreadMoves(s, step, After(s, step))
  {
    var c := step.c;
    assert CpuOk(c, Me(s, c), s.cpus[c]);
    hide Inv;
    if step.SetSpl? { SplxKeeps(s, c, step.high); }
  }

  lemma EndsMean(s: Sys, step: Step)
    requires Inv(s) && Enabled(s, step) && (step.SwitchIn? || step.Finish?)
    ensures OneThreadMoves(s, step, After(s, step))
  {
    hide Splx, Goto, Local, CpuOk;
    var c := step.c;
    assert CpuOk(c, Me(s, c), s.cpus[c]);
    match step
    case SwitchIn(_, lk, ready) => SplxAndGo(s, c, true, Entered(Me(s, c).high, lk, ready));
    case Finish(_) => SplxAndGo(s, c, Me(s, c).at.spl, Working);
  }

  lemma SpinReleaseMeans(s: Sys, c: CpuId, l: Lock)
    requires Inv(s) && Enabled(s, SpinRelease(c, l))
    ensures OneThreadMoves(s, SpinRelease(c, l), After(s, SpinRelease(c, l)))
  {
    hide DropLock, Local, CpuOk;
    assert CpuOk(c, Me(s, c), s.cpus[c]);
    DropKeeps(s, c, l);
  }

  lemma SpinMeans(s: Sys, step: Step)
    requires Inv(s) && Enabled(s, step) && (step.SpinStart? || step.SpinWin?)
    ensures OneThreadMoves(s, step, After(s, step))
  {
    assert CpuOk(step.c, Me(s, step.c), s.cpus[step.c]);
    hide Inv;
  }

  lemma PutAwayMeans(s: Sys, c: CpuId)
    requires Inv(s) && Enabled(s, PutAway(c))
    ensures OneThreadMoves(s, PutAway(c), After(s, PutAway(c)))
  {
    var at := Me(s, c).at;
    assert CpuOk(c, Me(s, c), s.cpus[c]);
    hide Inv, DropLock, CpuOk;
    if at.lk.Some? {
      DropAndGo(s, c, at.lk.value, Placed(at.spl));
      assert {c} + {at.lk.value} - {at.lk.value} == {c};
    } else {
      assert {c} + LockSet(at.lk) == {c};
    }
  }

  lemma UnlockMeans(s: Sys, c: CpuId, step: Step)
    requires Enabled(s, step) && step.c == c && (step.NothingToDo? || step.GoIdle? || step.UnlockQueue?)
    requires CpuOk(c, Me(s, c), s.cpus[c]) && Me(s, c).high && s.cpus[c].held == {c}
    ensures OneThreadMoves(s, step, After(s, step))
  {
    hide DropLock, Goto, Local, CpuOk;
    var spl := Me(s, c).at.spl;
    DropAndGo(s, c, c, if step.GoIdle? then Idling(spl) else Tail(spl));
    assert {c} - {c} == {};
  }

  lemma QueueMeans(s: Sys, step: Step)
    requires Inv(s) && Enabled(s, step)
    requires step.NothingToDo? || step.PutAway? || step.GoIdle? || step.LeaveIdle? || step.UnlockQueue?
    ensures OneThreadMoves(s, step, After(s, step))
  {
    var c := step.c;
    var at := Me(s, c).at;
    if step.PutAway? {
      hide Inv, Enabled, After, OneThreadMoves;
      PutAwayMeans(s, c);
    } else {
      assert CpuOk(c, Me(s, c), s.cpus[c]);
      hide Inv;
      if step.LeaveIdle? {
      } else {
        assert s.cpus[c].held == {c} by {
          assert step.NothingToDo? ==> {c} + LockSet(at.lk) == {c};
        }
        hide Enabled, After, OneThreadMoves;
        UnlockMeans(s, c, step);
      }
    }
  }

  lemma OnlyOneMoves(s: Sys, step: Step)
    requires Inv(s) && Enabled(s, step) && !step.SwitchTo? && !step.Create? && !step.Publish?
    ensures OneThreadMoves(s, step, After(s, step))
  {
    hide Inv, Enabled, After, OneThreadMoves;
    if step.SetSpl? || step.TakeInterrupt? {
      LevelMeans(s, step);
    } else if step.SwitchIn? || step.Finish? {
      EndsMean(s, step);
    } else if step.SpinStart? || step.SpinWin? {
      SpinMeans(s, step);
    } else if step.SpinRelease? {
      SpinReleaseMeans(s, step.c, step.l);
    } else {
      QueueMeans(s, step);
    }
  }

  /** On every run, a step other than a switch or a fork changes one CPU and the thread it runs, and
      takes that thread to the place, level and locks that the step is for. */
  lemma StepsDoTheirWork(run: seq<Sys>, steps: seq<Step>, i: nat)
    requires IsRun(run, steps) && i < |steps|
    requires !steps[i].SwitchTo? && !steps[i].Create? && !steps[i].Publish?
    ensures OneThreadMoves(run[i], steps[i], run[i + 1])
  {
    StepOf(run, steps, i);
    OnlyOneMoves(run[i], steps[i]);
  }

  /** On every run, a switch gives the CPU to the thread taken off the run queue: that thread goes on at
      the level it was parked with, the one that gave way is parked with the level it came in with, both
      carry the count they had, and nothing else in the machine changes. */
  lemma SwitchGivesTheCpuAway(run: seq<Sys>, steps: seq<Step>, i: nat)
    requires IsRun(run, steps) && i < |steps| && steps[i].SwitchTo?
    ensures
      var s, s', c, next := run[i], run[i + 1], steps[i].c, steps[i].next;
      && Runs(s, c) && Me(s, c).at.Placed? && next in s.threads
      && s'.cpus == s.cpus[c := s.cpus[c].(cur := next)]
      && s'.threads.Keys == s.threads.Keys
      && (next != s.cpus[c].cur ==>
            && !OnCpu(s, next) && s.threads[next].at.Parked?
            && s'.threads[next] == s.threads[next].(at := Resumed(s.threads[next].at.spl))
            && s'.threads[s.cpus[c].cur] == Me(s, c).(at := Parked(Me(s, c).at.spl)))
      && (next == s.cpus[c].cur ==> s'.threads[next] == Me(s, c).(at := Resumed(Me(s, c).at.spl)))
      && (forall t :: t in s.threads && t != next && t != s.cpus[c].cur ==> s'.threads[t] == s.threads[t])
  {
    StepOf(run, steps, i);
    var s, next := run[i], steps[i].next;
    if OnCpu(s, next) { RunningPlace(s, next); }
  }

  /** On every run, a fork adds one thread and then makes it runnable with the count a switch expects;
      no other thread and no CPU notices. */
  lemma ForkTouchesOnlyTheNewThread(run: seq<Sys>, steps: seq<Step>, i: nat)
    requires IsRun(run, steps) && i < |steps| && (steps[i].Create? || steps[i].Publish?)
    ensures
      var s, s', t := run[i], run[i + 1], steps[i].t;
      && s'.cpus == s.cpus && t in s'.threads && s'.threads.Keys == s.threads.Keys + {t} && !OnCpu(s', t)
      && (steps[i].Create? ==> t !in s.threads && s'.threads[t] == Thread(true, 1, Making))
      && (steps[i].Publish? ==> s'.threads[t] == Thread(true, 2, Parked(false)))
      && (forall u :: u in s.threads && u != t ==> s'.threads[u] == s.threads[u])
  {
    StepOf(run, steps, i);
    var s, t := run[i], steps[i].t;
    assert !OnCpu(s, t) by {
      if OnCpu(s, t) { RunningPlace(s, t); }
    }
  }

  /** Made and not yet run, or on its way to its first instruction with level 0 to come, or there. */
  ghost predicate StartsLow(s: Sys, t: Tid)
  {
    && t in s.threads
    && (Inside(s.threads[t].at) ==> !Saved(s.threads[t].at))
    && (s.threads[t].at.Working? ==> !s.threads[t].high)
  }

  lemma NewThreadWaits(s: Sys, step: Step, t: Tid)
    requires Inv(s) && Enabled(s, step) && (t in s.threads ==> s.threads[t].at.Making?)
    requires t in After(s, step).threads
    ensures StartsLow(After(s, step), t)
  {
    if step.Create? || step.Publish? {
    } else {
      assert !OnCpu(s, t) by {
        if OnCpu(s, t) { RunningPlace(s, t); }
      }
      assert s.cpus[step.c].cur != t;
      if step.SwitchTo? {
      } else {
        hide Inv, Enabled, After;
        OnlyOneMoves(s, step);
      }
    }
  }

  lemma StaysLow(s: Sys, s': Sys, t: Tid)
    requires StartsLow(s, t) && Inside(s.threads[t].at) && KeepsSaved(s, s', t)
    ensures StartsLow(s', t)
  {
  }

  lemma StartsLowStep(s: Sys, step: Step, t: Tid)
    requires Inv(s) && Enabled(s, step) && StartsLow(s, t) && !s.threads[t].at.Working?
    requires t in After(s, step).threads
    ensures StartsLow(After(s, step), t)
  {
    hide Inv, Enabled, After, KeepsSaved;
    if s.threads[t].at.Making? {
      NewThreadWaits(s, step, t);
    } else {
      StaysInside(s, step, t);
      StaysLow(s, After(s, step), t);
    }
  }

  /** Thread t is there in states i + 1 to j and, before j, has not reached its entry point. */
  ghost predicate NotYetRun(run: seq<Sys>, i: nat, j: nat, t: Tid)
    requires i < j < |run|
  {
    && t in run[j].threads
    && if j == i + 1 then t !in run[i].threads
       else NotYetRun(run, i, j - 1, t) && !run[j - 1].threads[t].at.Working?
  }

  /** A forked thread, however long it waits and wherever it is first run, starts its entry point with
      interrupts let in. */
  lemma {:induction false} ForkedThreadStartsLow(run: seq<Sys>, steps: seq<Step>, i: nat, j: nat, t: Tid)
    requires IsRun(run, steps) && i < j < |run| && NotYetRun(run, i, j, t)
    ensures StartsLow(run[j], t)
    ensures run[j].threads[t].at.Working? ==> !run[j].threads[t].high
    decreases j
  {
    StepOf(run, steps, j - 1);
    if j > i + 1 {
      ForkedThreadStartsLow(run, steps, i, j - 1, t);
      hide IsRun, Inv, Enabled, After, StartsLow;
      StartsLowStep(run[j - 1], steps[j - 1], t);
    } else {
      hide IsRun, Inv, Enabled, After;
      NewThreadWaits(run[j - 1], steps[j - 1], t);
    }
  }

  /** Every spinlock this CPU has can be released and every other one tried for. */
  ghost predicate LocksAreOpen(s: Sys, c: CpuId)
    requires Runs(s, c)
  {
    forall l :: if l in s.cpus[c].held then Enabled(s, SpinRelease(c, l)) else Enabled(s, SpinStart(c, l))
  }

  ghost predicate WorkIsOpen(s: Sys, c: CpuId)
    requires Runs(s, c)
  {
    var cpu := s.cpus[c];
    && LocksAreOpen(s, c) && Enabled(s, SetSpl(c, true)) && Enabled(s, SetSpl(c, false))
    && (cpu.irq ==> Enabled(s, TakeInterrupt(c)))
    && (cpu.held == {} ==> Enabled(s, SwitchIn(c, None, true)) && Enabled(s, SwitchIn(c, None, false)))
    && (forall l :: cpu.held == {l} && l >= |s.cpus| ==> Enabled(s, SwitchIn(c, Some(l), false)))
    && (forall t :: t !in s.threads ==> Enabled(s, Create(c, t)))
    && (forall t :: t in s.threads && s.threads[t].at.Making? ==> Enabled(s, Publish(c, t)))
  }

  ghost predicate CanGoOn(s: Sys, c: CpuId)
    requires Runs(s, c)
  {
    var cpu := s.cpus[c];
    match Me(s, c).at
    case Working => WorkIsOpen(s, c)
    case Entered(_, _, _) => Enabled(s, SpinStart(c, c))
    case Locked(_, _, ready) => Enabled(s, PutAway(c)) && (ready ==> Enabled(s, NothingToDo(c)))
    case Placed(_) =>
      && Enabled(s, GoIdle(c)) && Enabled(s, SwitchTo(c, cpu.cur))
      && (forall t :: t in s.threads && s.threads[t].at.Parked? ==> Enabled(s, SwitchTo(c, t)))
    case Idling(_) => LocksAreOpen(s, c) && (cpu.held == {} ==> Enabled(s, LeaveIdle(c)))
    case Waking(_) => Enabled(s, SpinStart(c, c))
    case Resumed(_) => Enabled(s, UnlockQueue(c))
    case Tail(_) => LocksAreOpen(s, c) && Enabled(s, Finish(c))
    case Making => false
    case Parked(_) => false
  }

  lemma AtWork(s: Sys, c: CpuId)
    requires Runs(s, c) && Me(s, c).at.Working? && s.cpus[c].want.None?
    ensures WorkIsOpen(s, c)
  {
  }

  lemma LooseMoves(s: Sys, c: CpuId)
    requires Runs(s, c) && Loose(Me(s, c).at) && s.cpus[c].want.None?
    ensures LocksAreOpen(s, c)
  {
  }

  lemma GoesOn(s: Sys, c: CpuId)
    requires Runs(s, c) && PlaceOk(c, Me(s, c), s.cpus[c]) && s.cpus[c].want.None?
    ensures CanGoOn(s, c)
  {
    hide WorkIsOpen, LocksAreOpen;
    if Me(s, c).at.Working? { AtWork(s, c); }
    if Loose(Me(s, c).at) { LooseMoves(s, c); }
  }

  /** On every run and on every CPU the thread that is running can go on, except that a spinning one
      waits for the lock to be free, and an idle one must have given back what its handlers took. */
  lemma NobodyIsStuck(run: seq<Sys>, steps: seq<Step>, i: nat, c: CpuId)
    requires IsRun(run, steps) && i < |run| && 0 <= c < |run[i].cpus|
    ensures Runs(run[i], c)
    ensures
      var s := run[i];
      var want := s.cpus[c].want;
      if want.Some? then Enabled(s, SpinWin(c)) <==> Free(s, want.value) else CanGoOn(s, c)
  {
    RunKeepsInv(run, steps, i);
    assert CpuOk(c, run[i].threads[run[i].cpus[c].cur], run[i].cpus[c]);
    hide IsRun, Inv, CpuOk;
    if run[i].cpus[c].want.None? { GoesOn(run[i], c); }
  }
}
