/** kern/thread/thread.c: a TLB shootdown round.  vm_tlbshootdown_all queues the address on every CPU,
    interrupts them all, and collects one V per CPU; interprocessor_interrupt does the CPU's part. */
module Shootdown {

  type Addr = int
  type Tid = int

  /** Where a CPU is in interprocessor_interrupt, which runs with c_ipi_lock held. */
  datatype Phase =
    | Outside
    | Handled(shot: bool)     // the queue has been worked off; V still due if `shot`
    | Signalled               // V done; c_ipi_pending still to be cleared

  /** c_shootdown[..c_numshootdown], and c_ipi_pending: the shootdown bit and any other bit. */
  datatype Cpu = Cpu(queue: seq<Addr>, bit: bool, other: bool, phase: Phase)

  /** Where a thread is in vm_tlbshootdown_all; `since` is the length of the log when it entered. */
  datatype Pc =
    | Elsewhere
    | Entering(addr: Addr, since: nat)
    | Admitted(addr: Addr, since: nat)
    | Sending(addr: Addr, since: nat, next: nat)
    | Collecting(addr: Addr, since: nat, got: nat)
    | Leaving(addr: Addr, since: nat)

  /** One CPU having worked one address off its queue. */
  datatype Event = Event(cpu: int, addr: Addr)

  datatype State = State(
    cpus: seq<Cpu>,
    free: nat,                 // tlb_shootdown_free
    count: nat,                // tlb_shootdown_count
    badaddr: Addr,             // tlb_shootdown.badaddr
    threads: map<Tid, Pc>,
    owner: Tid,                // the thread between P and V of tlb_shootdown_free, -1 if none
    log: seq<Event>)

  datatype Step =
    | Enter(t: Tid, addr: Addr)
    | Admit(t: Tid)
    | SetAddress(t: Tid)
    | Send(t: Tid)
    | Sent(t: Tid)
    | Collect(t: Tid)
    | Collected(t: Tid)
    | Leave(t: Tid)
    | RaiseOther(c: nat)
    | Interrupt(c: nat)
    | Signal(c: nat)
    | Finish(c: nat)

  /** The queue is an array of TLBSHOOTDOWN_MAX places; one more request is a panic. */
  const TLBSHOOTDOWN_MAX := 16

  function ThreadAt(s: State, t: Tid): Pc { if t in s.threads then s.threads[t] else Elsewhere }

  function Worked(c: int, queue: seq<Addr>): seq<Event>
  {
    if queue == [] then [] else [Event(c, queue[0])] + Worked(c, queue[1..])
  }

  predicate Enabled(s: State, step: Step)
  {
    match step
    case Enter(t, _) => t >= 0 && ThreadAt(s, t).Elsewhere?
    case Admit(t) => ThreadAt(s, t).Entering? && s.free > 0
    case SetAddress(t) => ThreadAt(s, t).Admitted?
    case Send(t) =>
      ThreadAt(s, t).Sending? && ThreadAt(s, t).next < |s.cpus| && s.cpus[ThreadAt(s, t).next].phase.Outside?
    case Sent(t) => ThreadAt(s, t).Sending? && ThreadAt(s, t).next == |s.cpus|
    case Collect(t) => ThreadAt(s, t).Collecting? && ThreadAt(s, t).got < |s.cpus| && s.count > 0
    case Collected(t) => ThreadAt(s, t).Collecting? && ThreadAt(s, t).got == |s.cpus|
    case Leave(t) => ThreadAt(s, t).Leaving?
    case RaiseOther(c) => c < |s.cpus| && s.cpus[c].phase.Outside?
    case Interrupt(c) => c < |s.cpus| && s.cpus[c].phase.Outside? && (s.cpus[c].bit || s.cpus[c].other)
    case Signal(c) => c < |s.cpus| && s.cpus[c].phase.Handled?
    case Finish(c) => c < |s.cpus| && s.cpus[c].phase.Signalled?
  }

  function After(s: State, step: Step): State
    requires Enabled(s, step)
  {
    match step
    case Enter(t, addr) => s.(threads := s.threads[t := Entering(addr, |s.log|)])
    case Admit(t) =>
      var pc := ThreadAt(s, t);
      s.(free := s.free - 1, owner := t, threads := s.threads[t := Admitted(pc.addr, pc.since)])
    case SetAddress(t) =>
      var pc := ThreadAt(s, t);
      s.(badaddr := pc.addr, threads := s.threads[t := Sending(pc.addr, pc.since, 0)])
    case Send(t) =>
      var pc := ThreadAt(s, t);
      var c := s.cpus[pc.next];
      s.(cpus := s.cpus[pc.next := c.(queue := c.queue + [s.badaddr], bit := true)],
         threads := s.threads[t := pc.(next := pc.next + 1)])
    case Sent(t) =>
      var pc := ThreadAt(s, t);
      s.(threads := s.threads[t := Collecting(pc.addr, pc.since, 0)])
    case Collect(t) =>
      var pc := ThreadAt(s, t);
      s.(count := s.count - 1, threads := s.threads[t := pc.(got := pc.got + 1)])
    case Collected(t) =>
      var pc := ThreadAt(s, t);
      s.(threads := s.threads[t := Leaving(pc.addr, pc.since)])
    case Leave(t) => s.(free := s.free + 1, owner := -1, threads := s.threads[t := Elsewhere])
    case RaiseOther(c) => s.(cpus := s.cpus[c := s.cpus[c].(other := true)])
    case Interrupt(c) =>
      var cpu := s.cpus[c];
      if cpu.bit then
        s.(cpus := s.cpus[c := cpu.(queue := [], phase := Handled(true))], log := s.log + Worked(c, cpu.queue))
      else
        s.(cpus := s.cpus[c := cpu.(phase := Handled(false))])
    case Signal(c) =>
      s.(cpus := s.cpus[c := s.cpus[c].(phase := Signalled)],
         count := if s.cpus[c].phase.shot then s.count + 1 else s.count)
    case Finish(c) => s.(cpus := s.cpus[c := s.cpus[c].(bit := false, other := false, phase := Outside)])
  }

  ghost predicate Initial(s: State)
  {
    && (forall c :: 0 <= c < |s.cpus| ==> s.cpus[c] == Cpu([], false, false, Outside))
    && s.free == 1 && s.count == 0 && s.threads == map[] && s.owner == -1 && s.log == []
  }

  /** A run: every state is the one before it after some enabled step. */
  ghost predicate IsRun(run: seq<State>, steps: seq<Step>)
  {
    && |run| == |steps| + 1 && Initial(run[0])
    && forall i :: 0 <= i < |steps| ==> Enabled(run[i], steps[i]) && run[i + 1] == After(run[i], steps[i])
  }

  // ------------------------------------------------------------------ invariant

  /** CPU `c` has taken a request it has not yet answered. */
  predicate Owes(c: Cpu) { (c.phase.Outside? && c.bit) || (c.phase.Handled? && c.phase.shot) }

  function Owed(cpus: seq<Cpu>): nat
  {
    if cpus == [] then 0 else Owed(cpus[..|cpus| - 1]) + if Owes(cpus[|cpus| - 1]) then 1 else 0
  }

  function SentBy(pc: Pc, n: nat): nat
  {
    match pc case Sending(_, _, next) => next case Collecting(_, _, _) => n case Leaving(_, _) => n case _ => 0
  }

  function GotBy(pc: Pc, n: nat): nat
  {
    match pc case Collecting(_, _, got) => got case Leaving(_, _) => n case _ => 0
  }

  predicate Active(pc: Pc) { pc.Admitted? || pc.Sending? || pc.Collecting? || pc.Leaving? }

  ghost predicate WorkedOff(s: State, c: int, addr: Addr, since: nat)
  {
    exists k :: since <= k < |s.log| && s.log[k] == Event(c, addr)
  }

  /** A queue never holds more than the one request of the round in progress. */
  ghost predicate QueueOk(c: Cpu, badaddr: Addr)
  {
    && (c.phase.Outside? ==> c.queue == if c.bit then [badaddr] else [])
    && (!c.phase.Outside? ==> c.queue == [])
    && (c.phase.Handled? ==> c.phase.shot == c.bit)
  }

  /** Only one thread is inside, and it is the one that took the semaphore. */
  ghost predicate Exclusive(s: State)
  {
    && (s.owner == -1 <==> s.free == 1) && s.free <= 1
    && (forall t :: t in s.threads && Active(s.threads[t]) ==> t == s.owner)
    && (s.owner != -1 ==> s.owner in s.threads && Active(s.threads[s.owner]))
  }

  /** Requests sent are answered, collected, or still owed. */
  ghost predicate Balanced(s: State)
  {
    var pc := ThreadAt(s, s.owner);
    var n := |s.cpus|;
    && s.count + GotBy(pc, n) + Owed(s.cpus) == SentBy(pc, n)
    && SentBy(pc, n) <= n && GotBy(pc, n) <= n
    && (forall c :: 0 <= c < n ==> QueueOk(s.cpus[c], s.badaddr))
    && (forall c :: SentBy(pc, n) <= c < n ==> !Owes(s.cpus[c]))
  }

  /** Every CPU that was sent the request and no longer has it queued has worked it off. */
  ghost predicate Answered(s: State)
  {
    var pc := ThreadAt(s, s.owner);
    (pc.Sending? || pc.Collecting? || pc.Leaving?) ==>
      && pc.addr == s.badaddr && pc.since <= |s.log|
      && forall c :: 0 <= c < |s.cpus| && c < SentBy(pc, |s.cpus|) && !(s.cpus[c].phase.Outside? && s.cpus[c].bit) ==>
           WorkedOff(s, c, pc.addr, pc.since)
  }

  ghost predicate Inv(s: State)
  {
    && -1 !in s.threads
    && (forall t :: t in s.threads && !s.threads[t].Elsewhere? ==> s.threads[t].since <= |s.log|)
    && Exclusive(s) && Balanced(s) && Answered(s)
  }

  lemma {:induction false} OwedUpdate(cpus: seq<Cpu>, i: nat, c: Cpu)
    requires i < |cpus|
    ensures Owed(cpus[i := c]) == Owed(cpus) + (if Owes(c) then 1 else 0) - (if Owes(cpus[i]) then 1 else 0)
  {
    var n := |cpus| - 1;
    if i == n {
      assert cpus[i := c][..n] == cpus[..n];
    } else {
      assert cpus[i := c][..n] == cpus[..n][i := c];
      OwedUpdate(cpus[..n], i, c);
    }
  }

  lemma {:induction false} NoneOwed(cpus: seq<Cpu>)
    ensures Owed(cpus) == 0 <==> forall c :: 0 <= c < |cpus| ==> !Owes(cpus[c])
    ensures Owed(cpus) <= |cpus|
  {
    if cpus != [] {
      NoneOwed(cpus[..|cpus| - 1]);
      assert forall c :: 0 <= c < |cpus| - 1 ==> cpus[..|cpus| - 1][c] == cpus[c];
    }
  }

  lemma LogGrows(s: State, s': State, c: int, addr: Addr, since: nat)
    requires s.log <= s'.log && WorkedOff(s, c, addr, since)
    ensures WorkedOff(s', c, addr, since)
  {
    var k :| since <= k < |s.log| && s.log[k] == Event(c, addr);
    assert s'.log[k] == Event(c, addr);
  }

  lemma ExclusiveKept(s: State, step: Step)
    requires Inv(s) && Enabled(s, step)
    ensures Exclusive(After(s, step))
  {
    hide Owed, WorkedOff, Worked;
  }

  lemma SendBalanced(s: State, t: Tid)
    requires Inv(s) && Enabled(s, Send(t))
    ensures Balanced(After(s, Send(t)))
  {
    hide Owed, WorkedOff, Worked, Answered;
    var pc := ThreadAt(s, t);
    var c := s.cpus[pc.next];
    OwedUpdate(s.cpus, pc.next, c.(queue := c.queue + [s.badaddr], bit := true));
  }

  lemma InterruptBalanced(s: State, c: nat)
    requires Inv(s) && Enabled(s, Interrupt(c))
    ensures Balanced(After(s, Interrupt(c)))
  {
    hide Owed, WorkedOff, Worked, Answered, Exclusive;
    OwedUpdate(s.cpus, c, After(s, Interrupt(c)).cpus[c]);
  }

  lemma CpuBalanced(s: State, step: Step)
    requires Inv(s) && Enabled(s, step) && (step.RaiseOther? || step.Signal? || step.Finish?)
    ensures Balanced(After(s, step))
  {
    hide Owed, WorkedOff, Worked, Answered, Exclusive;
    OwedUpdate(s.cpus, step.c, After(s, step).cpus[step.c]);
  }

  lemma SetAddressBalanced(s: State, t: Tid)
    requires Inv(s) && Enabled(s, SetAddress(t))
    ensures Balanced(After(s, SetAddress(t)))
  {
    hide Owed, WorkedOff, Worked, Answered;
    NoneOwed(s.cpus);
  }

  /** The other steps of threads. */
  lemma ThreadBalanced(s: State, step: Step)
    requires Inv(s) && Enabled(s, step) && !step.Send? && !step.SetAddress?
    requires !step.RaiseOther? && !step.Interrupt? && !step.Signal? && !step.Finish?
    ensures Balanced(After(s, step))
  {
    hide Owed, WorkedOff, Worked, Answered, QueueOk, Owes;
    NoneOwed(s.cpus);
  }

  lemma BalancedKept(s: State, step: Step)
    requires Inv(s) && Enabled(s, step)
    ensures Balanced(After(s, step))
  {
    hide Inv, Balanced;
    match step
    case SetAddress(t) => SetAddressBalanced(s, t);
    case Send(t) => SendBalanced(s, t);
    case Interrupt(c) => InterruptBalanced(s, c);
    case RaiseOther(_) => CpuBalanced(s, step);
    case Signal(_) => CpuBalanced(s, step);
    case Finish(_) => CpuBalanced(s, step);
    case _ => ThreadBalanced(s, step);
  }

  lemma JustWorkedOff(s: State, c: nat, addr: Addr, since: nat)
    requires Enabled(s, Interrupt(c)) && s.cpus[c].bit && s.cpus[c].queue == [addr] && since <= |s.log|
    ensures WorkedOff(After(s, Interrupt(c)), c, addr, since)
  {
    assert Worked(c, [addr]) == [Event(c, addr)];
    assert After(s, Interrupt(c)).log[|s.log|] == Event(c, addr);
  }

  /** A CPU that has been sent the request and has it no more. */
  lemma AnsweredOne(s: State, step: Step, c: int)
    requires Inv(s) && Enabled(s, step) && 0 <= c < |s.cpus|
    ensures
      var s' := After(s, step);
      var pc' := ThreadAt(s', s'.owner);
      && |s'.cpus| == |s.cpus|
      && (!(pc'.Sending? || pc'.Collecting? || pc'.Leaving?) || c >= SentBy(pc', |s'.cpus|)
          || (s'.cpus[c].phase.Outside? && s'.cpus[c].bit) || WorkedOff(s', c, pc'.addr, pc'.since))
  {
    hide Owed, WorkedOff, Worked;
    var s', pc := After(s, step), ThreadAt(s, s.owner);
    if pc.Sending? || pc.Collecting? || pc.Leaving? {
      if step == Interrupt(c) && s.cpus[c].bit && c < SentBy(pc, |s.cpus|) {
        JustWorkedOff(s, c, pc.addr, pc.since);
      } else if WorkedOff(s, c, pc.addr, pc.since) {
        LogGrows(s, s', c, pc.addr, pc.since);
      }
    }
  }

  lemma AnsweredKept(s: State, step: Step)
    requires Inv(s) && Enabled(s, step)
    ensures Answered(After(s, step))
  {
    hide Owed, WorkedOff, Worked, QueueOk, Owes;
    var s' := After(s, step);
    var pc' := ThreadAt(s', s'.owner);
    forall c | 0 <= c < |s'.cpus| && c < SentBy(pc', |s'.cpus|) && !(s'.cpus[c].phase.Outside? && s'.cpus[c].bit)
      ensures pc'.Sending? || pc'.Collecting? || pc'.Leaving? ==> WorkedOff(s', c, pc'.addr, pc'.since)
    {
      AnsweredOne(s, step, c);
    }
  }

  lemma StepKeeps(s: State, step: Step)
    requires Inv(s) && Enabled(s, step)
    ensures Inv(After(s, step))
  {
    hide Exclusive, Balanced, Answered;
    ExclusiveKept(s, step);
    BalancedKept(s, step);
    AnsweredKept(s, step);
  }

  lemma InitialHolds(s: State)
    requires Initial(s)
    ensures Inv(s)
  {
    NoneOwed(s.cpus);
  }

  // ------------------------------------------------------------------- theorems

  lemma {:induction false} RunKeepsInv(run: seq<State>, steps: seq<Step>, i: nat)
    requires IsRun(run, steps) && i < |run|
    ensures Inv(run[i])
  {
    hide Inv, Enabled, After;
    if i == 0 {
      InitialHolds(run[0]);
    } else {
      RunKeepsInv(run, steps, i - 1);
      StepKeeps(run[i - 1], steps[i - 1]);
    }
  }

  /** When vm_tlbshootdown_all is about to return, every CPU has worked its address off since the call
      began, every V has been collected, and no CPU still owes one. */
  lemma RoundIsComplete(run: seq<State>, steps: seq<Step>, i: nat, t: Tid)
    requires IsRun(run, steps) && i < |steps| && steps[i] == Leave(t)
    ensures var s := run[i]; var pc := ThreadAt(s, t);
      && pc.Leaving? && s.count == 0
      && (forall c :: 0 <= c < |s.cpus| ==> WorkedOff(s, c, pc.addr, pc.since))
      && (forall c :: 0 <= c < |s.cpus| ==> !Owes(s.cpus[c]) && s.cpus[c].queue == [])
  {
    hide Owed, After, WorkedOff;
    RunKeepsInv(run, steps, i);
    NoneOwed(run[i].cpus);
  }

  /** Between rounds the counting semaphore is zero and every queue is empty. */
  lemma QuietBetweenRounds(run: seq<State>, steps: seq<Step>, i: nat)
    requires IsRun(run, steps) && i < |run| && run[i].free == 1
    ensures run[i].count == 0 && forall c :: 0 <= c < |run[i].cpus| ==> run[i].cpus[c].queue == []
  {
    hide Owed, After, WorkedOff;
    RunKeepsInv(run, steps, i);
    NoneOwed(run[i].cpus);
  }

  /** ipi_tlbshootdown never finds a request already queued, so it never runs out of places. */
  lemma SendFindsRoom(run: seq<State>, steps: seq<Step>, i: nat, t: Tid)
    requires IsRun(run, steps) && i < |steps| && steps[i] == Send(t)
    ensures run[i].cpus[ThreadAt(run[i], t).next].queue == []
    ensures |run[i].cpus[ThreadAt(run[i], t).next].queue| < TLBSHOOTDOWN_MAX
  {
    hide Owed, After, WorkedOff;
    RunKeepsInv(run, steps, i);
  }

  /** A thread that still waits for a V can count on one: it is there, or a CPU can take the next step
      toward it. */
  lemma SignalsAreOwed(run: seq<State>, steps: seq<Step>, i: nat, t: Tid)
    requires IsRun(run, steps) && i < |run|
    requires ThreadAt(run[i], t).Collecting? && ThreadAt(run[i], t).got < |run[i].cpus|
    ensures Enabled(run[i], Collect(t)) ||
      exists c :: 0 <= c < |run[i].cpus| && Owes(run[i].cpus[c])
        && (Enabled(run[i], Interrupt(c)) || Enabled(run[i], Signal(c)))
  {
    hide After, WorkedOff;
    RunKeepsInv(run, steps, i);
    var s := run[i];
    NoneOwed(s.cpus);
    if s.count == 0 {
      var c :| 0 <= c < |s.cpus| && Owes(s.cpus[c]);
      assert Enabled(s, Interrupt(c)) || Enabled(s, Signal(c));
    }
  }

  lemma StepOf(run: seq<State>, steps: seq<Step>, i: nat)
    requires IsRun(run, steps) && i < |steps|
    ensures |run| == |steps| + 1 && Inv(run[i]) && Enabled(run[i], steps[i])
    ensures run[i + 1] == After(run[i], steps[i])
  {
    RunKeepsInv(run, steps, i);
  }

  /** Thread t goes from one place to the next and everything else is as in `rest`. */
  ghost predicate Moves(s: State, s': State, t: Tid, pc: Pc, rest: State)
  {
    s' == rest.(threads := s.threads[t := pc])
  }

  /** What each step of a thread in vm_tlbshootdown_all does: its next place, and the one thing it does to
      the semaphores, the shared address or a CPU. */
  ghost predicate CallerDoes(s: State, step: Step, s': State)
  {
    match step
    case Enter(t, addr) => Moves(s, s', t, Entering(addr, |s.log|), s)
    case Admit(t) =>
      var pc := ThreadAt(s, t);
      && pc.Entering? && s.free == 1 && s.owner == -1
      && Moves(s, s', t, Admitted(pc.addr, pc.since), s.(free := 0, owner := t))
    case SetAddress(t) =>
      var pc := ThreadAt(s, t);
      && pc.Admitted? && s.owner == t
      && Moves(s, s', t, Sending(pc.addr, pc.since, 0), s.(badaddr := pc.addr))
    case Send(t) =>
      var pc := ThreadAt(s, t);
      && pc.Sending? && pc.next < |s.cpus| && s.owner == t
      && Moves(s, s', t, Sending(s.badaddr, pc.since, pc.next + 1),
               s.(cpus := s.cpus[pc.next := s.cpus[pc.next].(queue := [s.badaddr], bit := true)]))
    case Sent(t) =>
      var pc := ThreadAt(s, t);
      && pc.Sending? && pc.next == |s.cpus| && s.owner == t
      && Moves(s, s', t, Collecting(s.badaddr, pc.since, 0), s)
    case Collect(t) =>
      var pc := ThreadAt(s, t);
      && pc.Collecting? && s.count > 0 && s.owner == t
      && Moves(s, s', t, Collecting(s.badaddr, pc.since, pc.got + 1), s.(count := s.count - 1))
    case Collected(t) =>
      var pc := ThreadAt(s, t);
      && pc.Collecting? && pc.got == |s.cpus| && s.owner == t
      && Moves(s, s', t, Leaving(s.badaddr, pc.since), s)
    case Leave(t) =>
      && ThreadAt(s, t).Leaving? && s.owner == t && s.free == 0
      && Moves(s, s', t, Elsewhere, s.(free := 1, owner := -1))
    case _ => true
  }

  /** What each step of a CPU in interprocessor_interrupt does: a pending shootdown is worked off, answered
      by one V, and forgotten; another reason for the interrupt is only forgotten. */
  ghost predicate CpuDoes(s: State, step: Step, s': State)
    requires (step.RaiseOther? || step.Interrupt? || step.Signal? || step.Finish?) ==> step.c < |s.cpus|
  {
    match step
    case RaiseOther(c) => s' == s.(cpus := s.cpus[c := s.cpus[c].(other := true)])
    case Interrupt(c) =>
      s' == s.(cpus := s.cpus[c := s.cpus[c].(queue := [], phase := Handled(s.cpus[c].bit))],
               log := s.log + if s.cpus[c].bit then [Event(c, s.badaddr)] else [])
    case Signal(c) =>
      s' == s.(cpus := s.cpus[c := s.cpus[c].(phase := Signalled)],
               count := s.count + if s.cpus[c].bit then 1 else 0)
    case Finish(c) => s' == s.(cpus := s.cpus[c := Cpu([], false, false, Outside)])
    case _ => true
  }

  predicate OfCaller(step: Step)
  {
    step.Enter? || step.Admit? || step.SetAddress? || step.Send? || step.Sent? || step.Collect? || step.Collected?
    || step.Leave?
  }

  lemma CallerStep(s: State, step: Step)
    requires Inv(s) && Enabled(s, step) && OfCaller(step)
    ensures CallerDoes(s, step, After(s, step))
  {
    hide Owed, WorkedOff, Worked;
    if step.Send? {
      var n := ThreadAt(s, step.t).next;
      assert QueueOk(s.cpus[n], s.badaddr) && !Owes(s.cpus[n]);
      assert [] + [s.badaddr] == [s.badaddr];
    }
  }

  lemma WorkedOne(c: int, queue: seq<Addr>, addr: Addr)
    ensures queue == [addr] ==> Worked(c, queue) == [Event(c, addr)]
  {
    assert queue == [addr] ==> queue[1..] == [];
  }

  lemma CpuStep(s: State, step: Step)
    requires Inv(s) && Enabled(s, step) && !OfCaller(step)
    ensures CpuDoes(s, step, After(s, step))
  {
    hide Owed, WorkedOff, Owes, Exclusive, Answered;
    var cpu := s.cpus[step.c];
    assert QueueOk(cpu, s.badaddr);
    if step.Interrupt? {
      WorkedOne(step.c, cpu.queue, s.badaddr);
      assert s.log + [] == s.log;
    }
  }

  /** On every run each step does to the round, and to nothing else, what it is for. */
  lemma StepsDoTheirWork(run: seq<State>, steps: seq<Step>, i: nat)
    requires IsRun(run, steps) && i < |steps|
    ensures OfCaller(steps[i]) ==> CallerDoes(run[i], steps[i], run[i + 1])
    ensures !OfCaller(steps[i]) ==> steps[i].c < |run[i].cpus| && CpuDoes(run[i], steps[i], run[i + 1])
  {
    StepOf(run, steps, i);
    hide IsRun, Inv, After, CallerDoes, CpuDoes;
    if OfCaller(steps[i]) {
      CallerStep(run[i], steps[i]);
    } else {
      CpuStep(run[i], steps[i]);
    }
  }

  // ----------------------------------------------------------------- progress

  /** Steps a CPU still has to take before it is quiet. */
  function Work(c: Cpu): nat
  {
    match c.phase
    case Outside => if c.bit || c.other then 3 else 0
    case Handled(_) => 2
    case Signalled => 1
  }

  function AllWork(cpus: seq<Cpu>): nat
  {
    if cpus == [] then 0 else AllWork(cpus[..|cpus| - 1]) + Work(cpus[|cpus| - 1])
  }

  /** Steps the caller still has to take, counting three for each CPU it has yet to interrupt. */
  function Left(pc: Pc, n: nat): int
  {
    match pc
    case Admitted(_, _) => 5 * n + 4
    case Sending(_, _, next) => 4 * (n - next) + n + 3
    case Collecting(_, _, got) => n - got + 2
    case Leaving(_, _) => 1
    case _ => 0
  }

  /** How much of the round in progress is still to do. */
  function Remaining(s: State): int { Left(ThreadAt(s, s.owner), |s.cpus|) + AllWork(s.cpus) }

  lemma {:induction false} WorkUpdate(cpus: seq<Cpu>, i: nat, c: Cpu)
    requires i < |cpus|
    ensures AllWork(cpus[i := c]) == AllWork(cpus) + Work(c) - Work(cpus[i])
  {
    var n := |cpus| - 1;
    if i == n {
      assert cpus[i := c][..n] == cpus[..n];
    } else {
      assert cpus[i := c][..n] == cpus[..n][i := c];
      WorkUpdate(cpus[..n], i, c);
    }
  }

  /** A step of thread t's round: one of its own, or one of a CPU handling an interrupt. */
  predicate OfRound(step: Step, t: Tid)
  {
    || step.Interrupt? || step.Signal? || step.Finish?
    || (OfCaller(step) && !step.Enter? && !step.Admit? && step.t == t)
  }

  lemma CallerShortens(s: State, step: Step)
    requires Inv(s) && Enabled(s, step) && OfCaller(step) && !step.Enter? && !step.Admit?
    ensures Remaining(After(s, step)) < Remaining(s)
  {
    hide AllWork, Owed, WorkedOff, Worked, Owes, QueueOk;
    if step.Send? {
      var n := ThreadAt(s, step.t).next;
      WorkUpdate(s.cpus, n, After(s, step).cpus[n]);
    }
  }

  lemma CpuShortens(s: State, step: Step)
    requires Inv(s) && Enabled(s, step) && (step.Interrupt? || step.Signal? || step.Finish?)
    ensures Remaining(After(s, step)) < Remaining(s)
  {
    hide AllWork, Owed, WorkedOff, Worked, Owes, Inv;
    WorkUpdate(s.cpus, step.c, After(s, step).cpus[step.c]);
  }

  lemma RoundStepShortens(s: State, step: Step, t: Tid)
    requires Inv(s) && Enabled(s, step) && OfRound(step, t)
    ensures Remaining(After(s, step)) < Remaining(s)
  {
    hide Inv, Enabled, After, Remaining;
    if OfCaller(step) {
      CallerShortens(s, step);
    } else {
      CpuShortens(s, step);
    }
  }

  lemma NothingNegative(s: State)
    requires Inv(s)
    ensures Remaining(s) >= 0
  {
    hide Owed, AllWork, WorkedOff;
  }

  lemma NextStep(s: State, t: Tid) returns (step: Step)
    requires Inv(s) && Active(ThreadAt(s, t))
    ensures Enabled(s, step) && OfRound(step, t)
  {
    hide WorkedOff, Worked;
    var pc, n := ThreadAt(s, t), |s.cpus|;
    if pc.Admitted? {
      step := SetAddress(t);
    } else if pc.Leaving? {
      step := Leave(t);
    } else if pc.Sending? {
      if pc.next == n {
        step := Sent(t);
      } else {
        match s.cpus[pc.next].phase
        case Outside => step := Send(t);
        case Handled(_) => step := Signal(pc.next);
        case Signalled => step := Finish(pc.next);
      }
    } else if pc.got == n {
      step := Collected(t);
    } else if s.count > 0 {
      step := Collect(t);
    } else {
      NoneOwed(s.cpus);
      var c: nat :| c < n && Owes(s.cpus[c]);
      step := if s.cpus[c].phase.Outside? then Interrupt(c) else Signal(c);
    }
  }

  /** From the moment a call is admitted until it returns, the round can always go on: its caller or some
      CPU has a step, and every such step leaves less of the round to do. */
  lemma RoundCannotStall(run: seq<State>, steps: seq<Step>, i: nat, t: Tid)
    requires IsRun(run, steps) && i < |run| && Active(ThreadAt(run[i], t))
    ensures exists step :: Enabled(run[i], step) && OfRound(step, t)
    ensures forall step :: Enabled(run[i], step) && OfRound(step, t) ==>
      0 <= Remaining(After(run[i], step)) < Remaining(run[i])
  {
    RunKeepsInv(run, steps, i);
    hide IsRun, Inv, Enabled, After, Remaining, OfRound;
    var next := NextStep(run[i], t);
    forall step | Enabled(run[i], step) && OfRound(step, t)
      ensures 0 <= Remaining(After(run[i], step)) < Remaining(run[i])
    {
      RoundStepShortens(run[i], step, t);
      StepKeeps(run[i], step);
      NothingNegative(After(run[i], step));
    }
  }

  /** A stretch of a run made of steps of one round is no longer than what was left of it: with nothing
      else going on the call returns. */
  lemma {:induction false} RoundEnds(run: seq<State>, steps: seq<Step>, i: nat, j: nat, t: Tid)
    requires IsRun(run, steps) && i <= j <= |steps| && forall k :: i <= k < j ==> OfRound(steps[k], t)
    ensures j - i <= Remaining(run[i]) - Remaining(run[j]) && Remaining(run[j]) >= 0
    decreases j
  {
    RunKeepsInv(run, steps, j);
    NothingNegative(run[j]);
    if j > i {
      RoundEnds(run, steps, i, j - 1, t);
      StepOf(run, steps, j - 1);
      hide IsRun, Inv, Enabled, After, Remaining;
      RoundStepShortens(run[j - 1], steps[j - 1], t);
    }
  }

  /** On every run anybody may ask for a round, whoever asks is admitted as soon as none is in progress, and
      a CPU takes its interrupt whenever a bit is pending and carries it through to the end. */
  lemma NobodyIsStuck(run: seq<State>, steps: seq<Step>, i: nat, t: Tid, addr: Addr, c: nat)
    requires IsRun(run, steps) && i < |run| && t >= 0 && c < |run[i].cpus|
    ensures
      var s := run[i];
      && (ThreadAt(s, t).Elsewhere? ==> Enabled(s, Enter(t, addr)))
      && (ThreadAt(s, t).Entering? ==> (Enabled(s, Admit(t)) <==> s.owner == -1))
      && match s.cpus[c].phase
         case Outside => Enabled(s, RaiseOther(c)) && (Enabled(s, Interrupt(c)) <==> s.cpus[c].bit || s.cpus[c].other)
         case Handled(_) => Enabled(s, Signal(c))
         case Signalled => Enabled(s, Finish(c))
  {
    RunKeepsInv(run, steps, i);
    hide IsRun, Balanced, Answered;
  }
}
