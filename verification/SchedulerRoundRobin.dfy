/** Round robin: the queue holds exactly the discovered unfinished tasks, once each, first in first out. */
module SchedulerRoundRobin {
  import opened Sets
  import opened SchedulerModel
  import opened SchedulerMakespan
  import opened SchedulerPolicies

  /** `out` is the task now running, outside the queue; |tasks| when none is. */
  ghost predicate QueueOk(s: Sched, out: nat)
  {
    && |s.discovered| == |s.tasks|
    && NoDuplicates(s.queue)
    && (forall p :: 0 <= p < |s.queue| ==> s.queue[p] < |s.tasks|)
    && (forall i :: 0 <= i < |s.tasks| ==>
          (i in s.queue <==> s.discovered[i] && s.tasks[i].remaining != 0 && i != out))
    && (forall i :: 0 <= i < |s.tasks| && s.discovered[i] ==> s.tasks[i].arrival <= s.now)
    && (out < |s.tasks| ==> s.discovered[out])
  }

  /** Between turns. */
  ghost predicate RrInv(s: Sched)
  {
    QueueOk(s, |s.tasks|)
  }

  /** The queue never outgrows the task table. */
  lemma QueueFits(s: Sched, out: nat)
    requires QueueOk(s, out)
    ensures |s.queue| <= |s.tasks|
    ensures out < |s.tasks| ==> |s.queue| < |s.tasks|
  {
    DistinctSize(s.queue);
    SubsetSize(Elements(s.queue), Below(|s.tasks|) - (if out < |s.tasks| then {out} else {}));
  }

  /** A newly discovered ready task has a place at the back. */
  lemma JoinKeeps(s: Sched, i: nat, out: nat)
    requires QueueOk(s, out) && i < |s.tasks| && !s.discovered[i] && Ready(s.tasks, s.now, i)
    ensures i !in s.queue && |s.queue| < |s.tasks|
    ensures QueueOk(s.(queue := s.queue + [i], discovered := s.discovered[i := true]), out)
  {
    QueueFits(s.(queue := s.queue + [i], discovered := s.discovered[i := true]), out);
  }

  /** Arrivals join at the back; afterwards everyone who is ready has been discovered. */
  lemma {:induction false} ArriveFromKeeps(s: Sched, i: nat, out: nat)
    requires QueueOk(s, out) && i <= |s.tasks|
    requires forall j :: 0 <= j < i && Ready(s.tasks, s.now, j) ==> s.discovered[j]
    ensures var t := ArriveFrom(s, i);
      && QueueOk(t, out) && s.queue <= t.queue
      && (forall j :: 0 <= j < |t.tasks| && Ready(t.tasks, t.now, j) ==> t.discovered[j])
    decreases |s.tasks| - i
  {
    if i < |s.tasks| {
      if !s.discovered[i] && Ready(s.tasks, s.now, i) && i !in s.queue {
        JoinKeeps(s, i, out);
        hide QueueOk;
        ArriveFromKeeps(s.(queue := s.queue + [i], discovered := s.discovered[i := true]), i + 1, out);
      } else {
        ArriveFromKeeps(s, i + 1, out);
      }
    }
  }

  lemma ArriveKeeps(s: Sched, out: nat)
    requires QueueOk(s, out)
    ensures var t := Arrive(s);
      && QueueOk(t, out) && s.queue <= t.queue
      && (forall j :: 0 <= j < |t.tasks| && Ready(t.tasks, t.now, j) ==> t.discovered[j])
  {
    ArriveFromKeeps(s, 0, out);
  }

  /** A waiting line stays in front of whoever arrives; an empty one means the machine is idle. */
  lemma ReadyKeeps(s: Sched, m: Sched)
    requires RrInv(s) && Busy(s.tasks, s.now) && RrReady(s, m)
    ensures RrInv(m) && Busy(m.tasks, m.now) && m.queue != [] && s.queue <= m.queue
    ensures m == s.(now := m.now, queue := m.queue, discovered := m.discovered)
  {
    ArriveKeeps(s, |s.tasks|);
    var a := Arrive(s);
    if a.queue == [] {
      var next: nat :| NextArrival(a.tasks, a.now, next) && m == Arrive(a.(now := next)) && m.queue != [];
      forall i | 0 <= i < |a.tasks| ensures !Ready(a.tasks, a.now, i) {
        assert i !in a.queue;
      }
      IdleKeepsBusy(a.tasks, a.now, next);
      ArriveKeeps(a.(now := next), |a.tasks|);
    }
  }

  /** An empty queue after arrivals: the machine is idle, and the next arrival will fill it. */
  lemma IdleJump(a: Sched, next: nat)
    requires RrInv(a) && a.queue == []
    requires forall j :: 0 <= j < |a.tasks| && Ready(a.tasks, a.now, j) ==> a.discovered[j]
    ensures NoneReady(a.tasks, a.now)
    ensures NextArrival(a.tasks, a.now, next) ==>
      RrInv(a.(now := next)) && Arrive(a.(now := next)).queue != [] && RrInv(Arrive(a.(now := next)))
  {
    forall i | 0 <= i < |a.tasks| ensures !Ready(a.tasks, a.now, i) {
      assert i !in a.queue;
    }
    if NextArrival(a.tasks, a.now, next) {
      var e :| 0 <= e < |a.tasks| && a.tasks[e].remaining != 0 && a.tasks[e].arrival == next;
      var b := a.(now := next);
      ArriveKeeps(b, |b.tasks|);
      assert Ready(b.tasks, b.now, e);
      assert e in Arrive(b).queue;
    }
  }

  /** The head leaves the queue and runs. */
  lemma HeadKeeps(m: Sched, slice: nat)
    requires slice > 0 && RrInv(m) && m.queue != []
    ensures m.queue[0] < |m.tasks|
    ensures Ready(m.tasks, m.now, m.queue[0])
    ensures QueueOk(Execute(m.(queue := m.queue[1..]), m.queue[0],
                            Min(m.tasks[m.queue[0]].remaining, slice), false), m.queue[0])
  {
    var b := m.queue[0];
    assert b in m.queue;
    var popped := m.(queue := m.queue[1..]);
    var ran := Execute(popped, b, Min(m.tasks[b].remaining, slice), false);
    forall i | 0 <= i < |ran.tasks|
      ensures i in ran.queue <==> ran.discovered[i] && ran.tasks[i].remaining != 0 && i != b
    {
      assert i in m.queue <==> i == b || i in m.queue[1..];
    }
  }

  lemma SliceKeepsQueue(m: Sched, slice: nat)
    requires slice > 0 && RrInv(m) && m.queue != []
    ensures m.queue[0] < |m.tasks|
    ensures var t := RrSlice(m, slice); RrInv(t) && m.queue[1..] <= t.queue
  {
    HeadKeeps(m, slice);
    var b := m.queue[0];
    var e := Execute(m.(queue := m.queue[1..]), b, Min(m.tasks[b].remaining, slice), false);
    ArriveKeeps(e, b);
    var ran := Arrive(e);
    var t := RrSlice(m, slice);
    if ran.tasks[b].remaining != 0 {
      assert t.queue == ran.queue + [b] && b !in ran.queue;
    }
  }

  /** b, and only b, got work done in this turn. */
  ghost predicate Ran(s: Sched, t: Sched, b: nat)
  {
    && b < |s.tasks| == |t.tasks|
    && t.tasks[b].remaining < s.tasks[b].remaining
    && forall i :: 0 <= i < |s.tasks| && i != b ==> t.tasks[i] == s.tasks[i]
  }

  lemma LedgerFrame(slice: nat, s: Sched, t: Sched)
    requires slice > 0 && Ledger(Rr, slice, s)
    requires t.tasks == s.tasks && t.cost == s.cost && t.switches == s.switches && t.preempts == s.preempts
    ensures Ledger(Rr, slice, t)
  {
  }

  lemma SliceRan(m: Sched, slice: nat)
    requires slice > 0 && RrInv(m) && m.queue != []
    ensures m.queue[0] < |m.tasks|
    ensures var t := RrSlice(m, slice); SameJobs(m.tasks, t.tasks) && Ran(m, t, m.queue[0])
  {
    HeadKeeps(m, slice);
  }

  lemma SliceKeepsBusy(m: Sched, slice: nat)
    requires slice > 0 && RrInv(m) && m.queue != [] && Busy(m.tasks, m.now)
    ensures m.queue[0] < |m.tasks|
    ensures var t := RrSlice(m, slice); Busy(t.tasks, t.now)
  {
    HeadKeeps(m, slice);
    var b := m.queue[0];
    ExecuteKeepsBusy(m.(queue := m.queue[1..]), b, Min(m.tasks[b].remaining, slice), false);
  }

  lemma SliceKeepsLedger(m: Sched, slice: nat)
    requires slice > 0 && RrInv(m) && m.queue != [] && Ledger(Rr, slice, m)
    ensures m.queue[0] < |m.tasks|
    ensures Ledger(Rr, slice, RrSlice(m, slice))
  {
    hide Ledger;
    HeadKeeps(m, slice);
    var b := m.queue[0];
    var popped := m.(queue := m.queue[1..]);
    LedgerFrame(slice, m, popped);
    ExecuteKeepsLedger(Rr, slice, popped, b);
    var e := Execute(popped, b, Min(m.tasks[b].remaining, slice), false);
    LedgerFrame(slice, if e.tasks[b].remaining != 0 then e.(preempts := e.preempts + 1) else e, RrSlice(m, slice));
  }

  /** One turn: the books stay right, and the head of the queue is who ran. */
  lemma RrStepKeeps(slice: nat, s: Sched, t: Sched)
    requires slice > 0
    requires RrInv(s) && Busy(s.tasks, s.now) && Ledger(Rr, slice, s) && RrStep(slice, s, t)
    ensures RrInv(t) && Busy(t.tasks, t.now) && Ledger(Rr, slice, t) && SameJobs(s.tasks, t.tasks)
    ensures s.queue != [] ==> s.queue[0] < |s.tasks| && Ran(s, t, s.queue[0]) && s.queue[1..] <= t.queue
  {
    var m :| RrReady(s, m) && m.queue != [] && m.queue[0] < |m.tasks| && t == RrSlice(m, slice);
    ReadyKeeps(s, m);
    LedgerFrame(slice, s, m);
    SliceKeepsQueue(m, slice);
    SliceKeepsBusy(m, slice);
    SliceKeepsLedger(m, slice);
    SliceRan(m, slice);
    if s.queue != [] {
      assert s.queue[0] == m.queue[0];
      assert s.queue[1..] <= m.queue[1..];
    }
  }

  lemma RrStart(tasks: seq<Task>)
    ensures RrInv(Start(tasks))
  {
  }
}
