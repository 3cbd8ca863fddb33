/** kern/thread/thread.c: thread_consider_migration as written, with its loops, when no other CPU
    disturbs it.  Migration says what survives when they do; here is what it achieves when they do not. */
module LoadBalancing {

  import opened Migration
  import Nonlinear

  function SumLen(queues: seq<seq<Tid>>): nat
  {
    if queues == [] then 0 else SumLen(queues[..|queues| - 1]) + |queues[|queues| - 1]|
  }

  ghost function All(queues: seq<seq<Tid>>): multiset<Tid>
  {
    if queues == [] then multiset{} else All(queues[..|queues| - 1]) + multiset(queues[|queues| - 1])
  }

  lemma {:induction false} SumLenUpdate(queues: seq<seq<Tid>>, c: nat, q: seq<Tid>)
    requires c < |queues|
    ensures SumLen(queues[c := q]) + |queues[c]| == SumLen(queues) + |q|
  {
    var n := |queues| - 1;
    if c == n {
      assert queues[c := q][..n] == queues[..n];
    } else {
      SumLenUpdate(queues[..n], c, q);
      assert queues[c := q][..n] == queues[..n][c := q];
    }
  }

  lemma {:induction false} AllUpdate(queues: seq<seq<Tid>>, c: nat, q: seq<Tid>)
    requires c < |queues|
    ensures All(queues[c := q]) + multiset(queues[c]) == All(queues) + multiset(q)
  {
    var n := |queues| - 1;
    if c == n {
      assert queues[c := q][..n] == queues[..n];
    } else {
      AllUpdate(queues[..n], c, q);
      assert queues[c := q][..n] == queues[..n][c := q];
      AddBoth(All(queues[..n][c := q]), multiset(queues[c]), All(queues[..n]), multiset(q), multiset(queues[n]));
    }
  }

  /** Queues all at least one share long hold at least a share apiece. */
  lemma {:induction false} FullQueues(queues: seq<seq<Tid>>, share: nat)
    requires forall i :: 0 <= i < |queues| ==> |queues[i]| >= share
    ensures SumLen(queues) >= |queues| * share
  {
    if queues != [] {
      var n := |queues| - 1;
      FullQueues(queues[..n], share);
      Nonlinear.Distribute(n, 1, share);
    }
  }

  predicate OnlyPast(list: seq<Tid>, send: nat, cur: Tid) { forall k :: send <= k < |list| ==> list[k] == cur }

  /** Past the number still to send, the travelling list holds nothing but the sender's own thread. */
  lemma {:induction false} DealLeftover(queue: seq<Tid>, list: seq<Tid>, send: nat, share: nat, cur: Tid)
    requires send <= |list| && OnlyPast(list, send, cur)
    ensures var m := Deal(queue, list, send, share, cur); OnlyPast(m.list, m.send, cur)
    ensures var m := Deal(queue, list, send, share, cur); |m.queue| + |m.list| == |queue| + |list|
    decreases send
  {
    if |queue| >= share || send == 0 {
    } else {
      var t, rest := list[0], list[1..];
      if t == cur {
        DealLeftover(queue, rest + [cur], send - 1, share, cur);
      } else {
        DealLeftover(queue + [t], rest, send - 1, share, cur);
      }
    }
  }

  /** What a finished target queue looks like. */
  ghost predicate Served(was: seq<Tid>, now: seq<Tid>, share: nat, cur: Tid)
  {
    was <= now && (|now| == |was| || |now| <= share) && cur !in now[|was|..]
  }

  /** Targets below i are done, the rest are untouched, and the travelling list has everything else. */
  ghost predicate Progress(was: seq<seq<Tid>>, queues: seq<seq<Tid>>, list: seq<Tid>, me: nat, share: nat, send: nat,
      cur: Tid, i: nat)
  {
    && |queues| == |was| && me < |was| && i <= |was| && share <= |was[me]|
    && queues[me] == was[me][..share]
    && (forall j :: 0 <= j < i && j != me ==>
        Served(was[j], queues[j], share, cur) && (send > 0 ==> |queues[j]| >= share))
    && (forall j :: i <= j < |was| && j != me ==> queues[j] == was[j])
    && send <= |list| && OnlyPast(list, send, cur)
    && SumLen(queues) + |list| == SumLen(was)
    && All(queues) + multiset(list) == All(was)
  }

  lemma MoveOver(a: multiset<Tid>, a': multiset<Tid>, q: multiset<Tid>, moved: multiset<Tid>, l: multiset<Tid>,
      l': multiset<Tid>)
    requires a' + q == a + (q + moved) && moved + l' == l
    ensures a' + l' == a + l
  {
    forall t ensures (a' + l')[t] == (a + l)[t] {
      assert (a' + q)[t] == (a + (q + moved))[t] && (moved + l')[t] == l[t];
    }
  }

  lemma SumsStep(queues: seq<seq<Tid>>, list: seq<Tid>, send: nat, share: nat, cur: Tid, i: nat)
    requires i < |queues| && send <= |list| && OnlyPast(list, send, cur)
    ensures
      var m := Deal(queues[i], list, send, share, cur);
      && SumLen(queues[i := m.queue]) + |m.list| == SumLen(queues) + |list|
      && All(queues[i := m.queue]) + multiset(m.list) == All(queues) + multiset(list)
  {
    var q, m := queues[i], Deal(queues[i], list, send, share, cur);
    DealMeaning(q, list, send, share, cur);
    DealLeftover(q, list, send, share, cur);
    hide Deal;
    SumLenUpdate(queues, i, m.queue);
    AllUpdate(queues, i, m.queue);
    var moved := m.queue[|q|..];
    assert m.queue == q + moved;
    MoveOver(All(queues), All(queues[i := m.queue]), multiset(q), multiset(moved), multiset(list), multiset(m.list));
  }

  lemma ProgressStep(was: seq<seq<Tid>>, queues: seq<seq<Tid>>, list: seq<Tid>, me: nat, share: nat, send: nat,
      cur: Tid, i: nat)
    requires Progress(was, queues, list, me, share, send, cur, i) && i < |was| && i != me && send > 0
    ensures
      var m := Deal(queues[i], list, send, share, cur);
      Progress(was, queues[i := m.queue], m.list, me, share, m.send, cur, i + 1)
  {
    SumsStep(queues, list, send, share, cur, i);
    DealMeaning(queues[i], list, send, share, cur);
    DealLeftover(queues[i], list, send, share, cur);
    hide Deal, All, SumLen, OnlyPast;
  }

  lemma ProgressShape(was: seq<seq<Tid>>, queues: seq<seq<Tid>>, list: seq<Tid>, me: nat, share: nat, send: nat,
      cur: Tid, i: nat)
    requires Progress(was, queues, list, me, share, send, cur, i)
    ensures |queues| == |was| && me < |was| && i <= |was| && send <= |list|
  {
  }

  lemma ProgressSkip(was: seq<seq<Tid>>, queues: seq<seq<Tid>>, list: seq<Tid>, me: nat, share: nat, send: nat,
      cur: Tid)
    requires Progress(was, queues, list, me, share, send, cur, me)
    ensures Progress(was, queues, list, me, share, send, cur, me + 1)
  {
    hide Served, All, SumLen, OnlyPast;
  }

  lemma Settled(was: seq<seq<Tid>>, queues: seq<seq<Tid>>, list: seq<Tid>, me: nat, share: nat, cur: Tid, i: nat)
    requires Progress(was, queues, list, me, share, 0, cur, i)
    ensures Progress(was, queues, list, me, share, 0, cur, |was|)
  {
  }

  lemma SumUp(a: multiset<Tid>, kept: multiset<Tid>, left: multiset<Tid>, all: multiset<Tid>)
    requires a + (kept + left) == all + kept
    ensures a + left == all
  {
    forall t ensures (a + left)[t] == all[t] {
      assert (a + (kept + left))[t] == (all + kept)[t];
    }
  }

  lemma StartsWell(was: seq<seq<Tid>>, me: nat, share: nat, cur: Tid)
    requires me < |was| && share <= |was[me]|
    ensures Progress(was, was[me := was[me][..share]], was[me][share..], me, share, |was[me]| - share, cur, 0)
  {
    var queues := was[me := was[me][..share]];
    SumLenUpdate(was, me, was[me][..share]);
    AllUpdate(was, me, was[me][..share]);
    assert was[me] == was[me][..share] + was[me][share..];
    SumUp(All(queues), multiset(was[me][..share]), multiset(was[me][share..]), All(was));
  }

  /** Every queue full and a thread still to place would be more threads than were counted. */
  lemma AllServed(was: seq<seq<Tid>>, queues: seq<seq<Tid>>, list: seq<Tid>, me: nat, share: nat, send: nat, cur: Tid)
    requires 0 < |was| && share == OneShare(SumLen(was), |was|)
    requires Progress(was, queues, list, me, share, send, cur, |was|)
    ensures send == 0
  {
    if send > 0 {
      FullQueues(queues, share);
      OneShareMeaning(SumLen(was), |was|);
    }
  }

  /** With everything sent and the left-overs put back. */
  lemma Finished(was: seq<seq<Tid>>, queues: seq<seq<Tid>>, list: seq<Tid>, me: nat, share: nat, cur: Tid)
    requires Progress(was, queues, list, me, share, 0, cur, |was|)
    ensures |queues| == |was| && me < |was| && share <= |was[me]|
    ensures
      var now := queues[me := queues[me] + list];
      && All(now) == All(was)
      && was[me][..share] <= now[me] && (forall k :: share <= k < |now[me]| ==> now[me][k] == cur)
      && (forall j :: 0 <= j < |now| && j != me ==> Served(was[j], now[j], share, cur))
  {
    hide Served, SumLen;
    var kept := queues[me];
    AllUpdate(queues, me, kept + list);
    SumUp(All(queues), multiset(kept), multiset(list), All(queues[me := kept + list]));
  }

  // ---- the code beside the steps of Migration ----

  /** The run queues are those of `s`, where CPU `me` is on thread `cur` and has got to phase `p`. */
  ghost predicate At(s: Sys, queues: seq<seq<Tid>>, me: nat, cur: Tid, p: Phase)
  {
    && |s.cpus| == |queues| && me < |queues|
    && (forall c :: 0 <= c < |queues| ==> s.cpus[c].queue == queues[c])
    && s.cpus[me].phase == p && s.cpus[me].cur == cur
  }

  /** The steps lead from s to s'. */
  ghost predicate Path(s: Sys, steps: seq<Step>, s': Sys)
    decreases |steps|
  {
    if steps == [] then s == s'
    else
      var n := |steps| - 1;
      exists mid :: Path(s, steps[..n], mid) && Enabled(mid, steps[n]) && s' == After(mid, steps[n])
  }

  lemma OneMoreStep(s: Sys, steps: seq<Step>, mid: Sys, step: Step)
    requires Path(s, steps, mid) && Enabled(mid, step)
    ensures Path(s, steps + [step], After(mid, step))
  {
    hide Enabled, After;
    assert (steps + [step])[..|steps|] == steps;
  }

  lemma {:induction false} Joined(s: Sys, first: seq<Step>, mid: Sys, second: seq<Step>, s': Sys)
    requires Path(s, first, mid) && Path(mid, second, s')
    ensures Path(s, first + second, s')
    decreases |second|
  {
    hide Enabled, After;
    if second == [] {
      assert first + second == first;
    } else {
      var n := |second| - 1;
      var last :| Path(mid, second[..n], last) && Enabled(last, second[n]) && s' == After(last, second[n]);
      Joined(s, first, mid, second[..n], last);
      OneMoreStep(s, first + second[..n], last, second[n]);
      assert first + second[..n] + [second[n]] == first + second;
    }
  }

  lemma NoSteps(s: Sys)
    ensures Path(s, [], s)
  {
  }

  lemma AtShape(s: Sys, queues: seq<seq<Tid>>, me: nat, cur: Tid, p: Phase)
    requires At(s, queues, me, cur, p)
    ensures |s.cpus| == |queues| && me < |queues|
  {
  }

  lemma StartAt(s: Sys, queues: seq<seq<Tid>>, me: nat, cur: Tid)
    requires At(s, queues, me, cur, Out)
    ensures Enabled(s, Start(me)) && At(After(s, Start(me)), queues, me, cur, Counting(0, 0, 0))
  {
  }

  lemma CountAt(s: Sys, queues: seq<seq<Tid>>, me: nat, cur: Tid, i: nat, total: nat, mine: nat)
    requires At(s, queues, me, cur, Counting(i, total, mine)) && i < |queues|
    ensures Enabled(s, Count(me))
    ensures
      var n := |queues[i]|;
      At(After(s, Count(me)), queues, me, cur, Counting(i + 1, total + n, if i == me then n else mine))
  {
  }

  lemma DecideAt(s: Sys, queues: seq<seq<Tid>>, me: nat, cur: Tid, total: nat, mine: nat)
    requires At(s, queues, me, cur, Counting(|queues|, total, mine))
    ensures Enabled(s, Decide(me))
    ensures
      var share := OneShare(total, |queues|);
      At(After(s, Decide(me)), queues, me, cur, if mine < share then Out else Taking(share, mine - share))
  {
    hide OneShare;
  }

  lemma TakeAt(s: Sys, queues: seq<seq<Tid>>, me: nat, cur: Tid, share: nat, send: nat)
    requires At(s, queues, me, cur, Taking(share, send)) && send <= |queues[me]|
    ensures Enabled(s, Take(me))
    ensures
      var n := |queues[me]| - send;
      At(After(s, Take(me)), queues[me := queues[me][..n]], me, cur, Giving(0, share, send, queues[me][n..]))
  {
    TakeMeaning(s, me);
    hide After;
  }

  lemma SkipAt(s: Sys, queues: seq<seq<Tid>>, me: nat, cur: Tid, share: nat, send: nat, list: seq<Tid>)
    requires At(s, queues, me, cur, Giving(me, share, send, list)) && send > 0
    ensures Enabled(s, Give(me)) && At(After(s, Give(me)), queues, me, cur, Giving(me + 1, share, send, list))
  {
  }

  lemma GiveAt(s: Sys, queues: seq<seq<Tid>>, me: nat, cur: Tid, i: nat, share: nat, send: nat, list: seq<Tid>)
    requires At(s, queues, me, cur, Giving(i, share, send, list)) && send > 0 && i < |queues| && i != me
    ensures Enabled(s, Give(me))
    ensures
      var m := Deal(queues[i], list, send, share, cur);
      At(After(s, Give(me)), queues[i := m.queue], me, cur, Giving(i + 1, share, m.send, m.list))
  {
    hide Deal;
  }

  lemma PutBackAt(s: Sys, queues: seq<seq<Tid>>, me: nat, cur: Tid, i: nat, share: nat, send: nat, list: seq<Tid>)
    requires At(s, queues, me, cur, Giving(i, share, send, list)) && (send == 0 || i >= |queues|)
    ensures Enabled(s, PutBack(me))
    ensures At(After(s, PutBack(me)), queues[me := queues[me] + list], me, cur, Out)
  {
  }

  class RunQueues {
    var queues: seq<seq<Tid>>
    var victims: seq<Tid>

    constructor (q: seq<seq<Tid>>)
      ensures queues == q && victims == []
    {
      queues := q;
      victims := [];
    }

    /** The counting loop: one Count step for each CPU. */
    method CountThreads(me: nat, ghost cur: Tid, ghost s: Sys)
        returns (mine: nat, total: nat, ghost s': Sys, ghost steps: seq<Step>)
      requires At(s, queues, me, cur, Counting(0, 0, 0))
      ensures mine == |queues[me]| && total == SumLen(queues)
      ensures Path(s, steps, s') && At(s', queues, me, cur, Counting(|queues|, total, mine))
    {
      hide At, Path;
      AtShape(s, queues, me, cur, Counting(0, 0, 0));
      mine, total := 0, 0;
      s', steps := s, [];
      NoSteps(s);
      var i := 0;
      while i < |queues|
        invariant i <= |queues| && total == SumLen(queues[..i]) && (i > me ==> mine == |queues[me]|)
        invariant Path(s, steps, s') && At(s', queues, me, cur, Counting(i, total, mine))
      {
        assert queues[..i + 1][..i] == queues[..i];
        CountAt(s', queues, me, cur, i, total, mine);
        OneMoreStep(s, steps, s', Count(me));
        s', steps := After(s', Count(me)), steps + [Count(me)];
        total := total + |queues[i]|;
        if i == me {
          mine := |queues[i]|;
        }
        i := i + 1;
      }
      assert queues[..i] == queues;
    }

    /** The loop that pops the tail of this CPU's own queue. */
    method TakeVictims(me: nat, send: nat)
      requires me < |queues| && send <= |queues[me]|
      modifies this
      ensures |queues| == old(|queues|)
      ensures queues == old(queues)[me := old(queues[me])[..old(|queues[me]|) - send]]
      ensures victims == old(queues[me])[old(|queues[me]|) - send..]
    {
      ghost var was := queues;
      victims := [];
      var i := 0;
      while i < send
        invariant i <= send && |queues| == |was| && send <= |was[me]|
        invariant queues == was[me := queues[me]]
        invariant queues[me] == was[me][..|was[me]| - i] && victims == was[me][|was[me]| - i..]
      {
        var n := |queues[me]| - 1;
        var t := queues[me][n];
        queues := queues[me := queues[me][..n]];
        victims := [t] + victims;
        i := i + 1;
      }
    }

    /** The loop that serves one target queue; never pops an empty list. */
    method Serve(c: nat, share: nat, send: nat, cur: Tid) returns (left: nat)
      requires c < |queues| && send <= |victims|
      modifies this
      ensures |queues| == old(|queues|)
      ensures var m := Deal(old(queues[c]), old(victims), send, share, cur);
        queues == old(queues)[c := m.queue] && victims == m.list && left == m.send
    {
      left := send;
      ghost var m := Deal(queues[c], victims, send, share, cur);
      while |queues[c]| < share && left > 0
        invariant |queues| == old(|queues|) && left <= |victims|
        invariant queues == old(queues)[c := queues[c]]
        invariant Deal(queues[c], victims, left, share, cur) == m
        decreases left
      {
        var t := victims[0];
        victims := victims[1..];
        if t == cur {
          victims := victims + [t];
          left := left - 1;
        } else {
          queues := queues[c := queues[c] + [t]];
          left := left - 1;
        }
      }
    }

    /** The loop that puts the left-overs back. */
    method PutBack(me: nat)
      requires me < |queues|
      modifies this
      ensures queues == old(queues)[me := old(queues[me]) + old(victims)] && victims == []
    {
      ghost var was, l := queues, victims;
      while victims != []
        invariant |queues| == |was| && queues == was[me := queues[me]]
        invariant queues[me] + victims == was[me] + l
        decreases |victims|
      {
        var t := victims[0];
        assert queues[me] + victims == queues[me] + [t] + victims[1..];
        victims := victims[1..];
        queues := queues[me := queues[me] + [t]];
      }
      assert queues[me] == queues[me] + victims;
    }

    /** The loop over the target CPUs: one Give step for each it gets to. */
    method Distribute(ghost was: seq<seq<Tid>>, me: nat, share: nat, toSend: nat, cur: Tid, ghost s: Sys)
        returns (left: nat, ghost i: nat, ghost s': Sys, ghost steps: seq<Step>)
      requires Progress(was, queues, victims, me, share, toSend, cur, 0)
      requires At(s, queues, me, cur, Giving(0, share, toSend, victims))
      modifies this
      ensures Progress(was, queues, victims, me, share, left, cur, |was|)
      ensures Path(s, steps, s') && At(s', queues, me, cur, Giving(i, share, left, victims))
      ensures left == 0 || i >= |queues|
    {
      hide At, Path, Progress, Deal;
      left := toSend;
      s', steps := s, [];
      NoSteps(s);
      var k := 0;
      ProgressShape(was, queues, victims, me, share, left, cur, k);
      while k < |queues| && left > 0
        invariant k <= |was| == |queues| && Progress(was, queues, victims, me, share, left, cur, k)
        invariant Path(s, steps, s') && At(s', queues, me, cur, Giving(k, share, left, victims))
        decreases |was| - k
      {
        ProgressShape(was, queues, victims, me, share, left, cur, k);
        if k != me {
          ProgressStep(was, queues, victims, me, share, left, cur, k);
          GiveAt(s', queues, me, cur, k, share, left, victims);
          left := Serve(k, share, left, cur);
        } else {
          SkipAt(s', queues, me, cur, share, left, victims);
          ProgressSkip(was, queues, victims, me, share, left, cur);
        }
        OneMoreStep(s, steps, s', Give(me));
        s', steps := After(s', Give(me)), steps + [Give(me)];
        k := k + 1;
      }
      i := k;
      if left == 0 {
        Settled(was, queues, victims, me, share, cur, k);
      }
    }

    /** All of it from the counts on, for a CPU that has a share or more. */
    method Spread(me: nat, share: nat, send: nat, cur: Tid, ghost s: Sys)
        returns (ghost s': Sys, ghost steps: seq<Step>)
      requires At(s, queues, me, cur, Taking(share, send)) && share + send == |queues[me]|
      requires share == OneShare(SumLen(queues), |queues|)
      modifies this
      ensures |queues| == old(|queues|) && All(queues) == All(old(queues))
      ensures old(queues[me])[..share] <= queues[me] && forall k :: share <= k < |queues[me]| ==> queues[me][k] == cur
      ensures forall j :: 0 <= j < |queues| && j != me ==> Served(old(queues[j]), queues[j], share, cur)
      ensures Path(s, steps, s') && At(s', queues, me, cur, Out)
    {
      ghost var was := queues;
      hide At, Path, Progress, OneShare, SumLen, All, Served;
      AtShape(s, queues, me, cur, Taking(share, send));
      StartsWell(was, me, share, cur);
      TakeAt(s, queues, me, cur, share, send);
      NoSteps(s);
      OneMoreStep(s, [], s, Take(me));
      assert [] + [Take(me)] == [Take(me)];
      ghost var taken := After(s, Take(me));
      TakeVictims(me, send);
      ghost var i, mid, gives;
      var left;
      left, i, mid, gives := Distribute(was, me, share, send, cur, taken);
      AllServed(was, queues, victims, me, share, left, cur);
      ghost var now, list := queues, victims;
      PutBackAt(mid, queues, me, cur, i, share, left, victims);
      OneMoreStep(taken, gives, mid, Step.PutBack(me));
      s', steps := After(mid, Step.PutBack(me)), [Take(me)] + (gives + [Step.PutBack(me)]);
      Joined(s, [Take(me)], taken, gives + [Step.PutBack(me)], s');
      Finished(was, now, list, me, share, cur);
      PutBack(me);
    }

    /** Afterwards this CPU keeps one share and its own thread, every other queue is as it was or longer
        by threads of ours but no longer than one share, and no thread is lost or doubled.  The whole of it
        is a path of this CPU's steps in Migration. */
    method ConsiderMigration(me: nat, cur: Tid, ghost s: Sys)
        returns (share: nat, ghost s': Sys, ghost steps: seq<Step>)
      requires At(s, queues, me, cur, Out)
      modifies this
      ensures |queues| == old(|queues|) && me < |queues| && share == OneShare(SumLen(old(queues)), |queues|)
      ensures All(queues) == All(old(queues))
      ensures old(|queues[me]|) < share ==> queues == old(queues)
      ensures old(|queues[me]|) >= share ==>
        && old(queues[me])[..share] <= queues[me]
        && (forall k :: share <= k < |queues[me]| ==> queues[me][k] == cur)
        && (forall j :: 0 <= j < |queues| && j != me ==>
              Served(old(queues[j]), queues[j], share, cur))
      ensures Path(s, steps, s') && At(s', queues, me, cur, Out)
    {
      hide At, Path, OneShare, SumLen, All, Served;
      AtShape(s, queues, me, cur, Out);
      StartAt(s, queues, me, cur);
      NoSteps(s);
      OneMoreStep(s, [], s, Start(me));
      assert [] + [Start(me)] == [Start(me)];
      ghost var counted, counts;
      var mine, total;
      mine, total, counted, counts := CountThreads(me, cur, After(s, Start(me)));
      Joined(s, [Start(me)], After(s, Start(me)), counts, counted);
      AtShape(counted, queues, me, cur, Counting(|queues|, total, mine));
      share := OneShare(total, |queues|);
      DecideAt(counted, queues, me, cur, total, mine);
      steps := [Start(me)] + counts;
      OneMoreStep(s, steps, counted, Decide(me));
      s', steps := After(counted, Decide(me)), steps + [Decide(me)];
      if mine < share {
        return;
      }
      ghost var decided := s';
      ghost var rest;
      s', rest := Spread(me, share, mine - share, cur, decided);
      Joined(s, steps, decided, rest, s');
      steps := steps + rest;
    }
  }
}
