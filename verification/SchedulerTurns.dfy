/** One turn of each policy, told on the state before and after it: who runs, for how long,
    what is recorded, and in which order the round-robin queue stands afterwards. */
module SchedulerTurns {
  import opened SchedulerModel
  import opened SchedulerRoundRobin
  import opened SchedulerRuns

  /** Task b ran for r units from `start` on; nothing else moved in the tables and the summary. */
  ghost predicate RanFor(s: Sched, t: Sched, b: nat, start: nat, r: nat, fair: bool)
  {
    && b < |s.tasks| && r <= s.tasks[b].remaining
    && t.now == start + r
    && |t.tasks| == |s.tasks| && (forall i :: 0 <= i < |s.tasks| && i != b ==> t.tasks[i] == s.tasks[i])
    && t.tasks[b] == Task(s.tasks[b].pid, s.tasks[b].arrival, s.tasks[b].burst, s.tasks[b].remaining - r,
                          if r == s.tasks[b].remaining then t.now else s.tasks[b].completion,
                          s.tasks[b].vruntime + if fair then r else 0)
    && t.switches == s.switches + 1 && t.lastCost == r && t.cost == s.cost + r
  }

  ghost predicate Waits(s: Sched, i: nat)
  {
    i < |s.tasks| && s.tasks[i].remaining != 0 && s.tasks[i].arrival <= s.now
  }

  // ----- round robin

  ghost predicate Increasing(line: seq<nat>)
  {
    forall a, b :: 0 <= a < b < |line| ==> line[a] < line[b]
  }

  /** The tasks not discovered before, with work, that have arrived by this time, in table order. */
  ghost predicate Newcomers(s: Sched, time: nat, line: seq<nat>)
    requires |s.tasks| == |s.discovered|
  {
    && Increasing(line)
    && forall i: nat :: i in line <==>
         i < |s.tasks| && !s.discovered[i] && s.tasks[i].remaining != 0 && s.tasks[i].arrival <= time
  }

  /** Arrivals from task i on stand behind the queue, in table order. */
  lemma {:induction false} ArriveFromOrder(s: Sched, i: nat, out: nat) returns (line: seq<nat>)
    requires QueueOk(s, out) && i <= |s.tasks|
    ensures ArriveFrom(s, i).queue == s.queue + line && Increasing(line)
    ensures forall j :: j in line <==> i <= j < |s.tasks| && !s.discovered[j] && Ready(s.tasks, s.now, j)
    ensures forall j :: 0 <= j < |s.tasks| ==> ArriveFrom(s, i).discovered[j] == (s.discovered[j] || j in line)
    decreases |s.tasks| - i
  {
    line := [];
    if i < |s.tasks| {
      if !s.discovered[i] && Ready(s.tasks, s.now, i) {
        JoinKeeps(s, i, out);
        var rest := ArriveFromOrder(s.(queue := s.queue + [i], discovered := s.discovered[i := true]), i + 1, out);
        line := [i] + rest;
        assert forall b :: 0 <= b < |rest| ==> rest[b] in rest;
      } else {
        line := ArriveFromOrder(s, i + 1, out);
      }
    }
  }

  lemma ArriveOrder(s: Sched, out: nat) returns (line: seq<nat>)
    requires QueueOk(s, out)
    ensures Arrive(s).queue == s.queue + line && Newcomers(s, s.now, line)
    ensures forall j :: 0 <= j < |s.tasks| ==> Arrive(s).discovered[j] == (s.discovered[j] || j in line)
  {
    line := ArriveFromOrder(s, 0, out);
  }

  /** A round-robin turn. It starts now, or, with nobody waiting, at the next arrival; `first` are those
      who have arrived by then, `later` those who arrive while the head of the line runs. */
  ghost predicate RrTurnOf(slice: nat, s: Sched, t: Sched, start: nat, first: seq<nat>, later: seq<nat>)
    requires |s.tasks| == |s.discovered|
  {
    var line := s.queue + first;
    && (if exists i :: Waits(s, i) then start == s.now else NextArrival(s.tasks, s.now, start))
    && Newcomers(s, start, first)
    && Increasing(later)
    && (forall i: nat :: i in later <==>
          i < |s.tasks| && s.tasks[i].remaining != 0 && start < s.tasks[i].arrival <= t.now)
    && line != [] && line[0] < |s.tasks|
    && RanFor(s, t, line[0], start, if s.tasks[line[0]].remaining < slice then s.tasks[line[0]].remaining else slice,
              false)
    && t.queue == line[1..] + later + (if t.tasks[line[0]].remaining != 0 then [line[0]] else [])
    && t.preempts == s.preempts + (if t.tasks[line[0]].remaining != 0 then 1 else 0)
    && |t.discovered| == |s.discovered|
    && (forall i :: 0 <= i < |s.tasks| ==> t.discovered[i] == (s.discovered[i] || i in first || i in later))
  }

  /** The part of a turn that starts with the line m. */
  ghost predicate SliceOf(slice: nat, m: Sched, t: Sched, later: seq<nat>)
  {
    && m.queue != [] && m.queue[0] < |m.tasks|
    && var b := m.queue[0];
    && RanFor(m, t, b, m.now, if m.tasks[b].remaining < slice then m.tasks[b].remaining else slice, false)
    && Increasing(later)
    && (forall i: nat :: i in later <==>
          i < |m.tasks| && m.tasks[i].remaining != 0 && m.now < m.tasks[i].arrival <= t.now)
    && t.queue == m.queue[1..] + later + (if t.tasks[b].remaining != 0 then [b] else [])
    && t.preempts == m.preempts + (if t.tasks[b].remaining != 0 then 1 else 0)
    && |t.discovered| == |m.discovered| == |m.tasks|
    && (forall i :: 0 <= i < |m.tasks| ==> t.discovered[i] == (m.discovered[i] || i in later))
  }

  /** The head of the line m runs its slice. */
  lemma SliceOrder(slice: nat, m: Sched) returns (later: seq<nat>)
    requires slice > 0 && RrInv(m) && m.queue != []
    requires forall i :: 0 <= i < |m.tasks| && Ready(m.tasks, m.now, i) ==> m.discovered[i]
    ensures m.queue[0] < |m.tasks| && SliceOf(slice, m, RrSlice(m, slice), later)
  {
    HeadKeeps(m, slice);
    var b := m.queue[0];
    var e := Execute(m.(queue := m.queue[1..]), b, Min(m.tasks[b].remaining, slice), false);
    later := ArriveOrder(e, b);
  }

  /** Who waits is queued or joins now. */
  lemma WaitingLine(s: Sched, first: seq<nat>)
    requires RrInv(s) && Newcomers(s, s.now, first)
    ensures (exists i :: Waits(s, i)) <==> s.queue + first != []
  {
    var line := s.queue + first;
    if line != [] {
      assert line[0] in s.queue || line[0] in first;
      assert Waits(s, line[0]);
    }
    if i :| Waits(s, i) {
      assert i in s.queue || i in first;
    }
  }

  /** The line in front of which a turn starts. */
  lemma ReadyOrder(s: Sched, m: Sched) returns (first: seq<nat>)
    requires RrInv(s) && RrReady(s, m)
    ensures if exists i :: Waits(s, i) then m.now == s.now else NextArrival(s.tasks, s.now, m.now)
    ensures Newcomers(s, m.now, first) && m.queue == s.queue + first != []
    ensures m == s.(now := m.now, queue := m.queue, discovered := m.discovered) && |m.discovered| == |s.discovered|
    ensures forall j :: 0 <= j < |s.tasks| ==> m.discovered[j] == (s.discovered[j] || j in first)
  {
    first := ArriveOrder(s, |s.tasks|);
    WaitingLine(s, first);
    var a := Arrive(s);
    if a.queue == [] {
      assert a.discovered == s.discovered;
      assert a == s;
      var next: nat :| NextArrival(a.tasks, a.now, next) && m == Arrive(a.(now := next)) && m.queue != [];
      first := ArriveOrder(s.(now := next), |s.tasks|);
    }
  }

  ghost predicate RrOrdered(slice: nat, s: Sched, t: Sched)
  {
    && |s.tasks| == |s.discovered|
    && exists start: nat, first: seq<nat>, later: seq<nat> :: RrTurnOf(slice, s, t, start, first, later)
  }

  /** Every round-robin turn is of this form: in particular an unfinished task goes behind those who
      arrived while it ran. */
  lemma RrTurnOrder(slice: nat, s: Sched, t: Sched)
    requires slice > 0 && RrInv(s) && RrStep(slice, s, t)
    ensures RrOrdered(slice, s, t)
  {
    var m :| RrReady(s, m) && m.queue != [] && m.queue[0] < |m.tasks| && t == RrSlice(m, slice);
    var first := ReadyOrder(s, m);
    MidInv(s, m);
    var later := SliceOrder(slice, m);
    hide RrSlice, RrReady, QueueOk, SliceOf, RrTurnOf, Newcomers, NextArrival, Waits;
    TurnFromLine(slice, s, m, t, first, later);
  }

  lemma TurnFromLine(slice: nat, s: Sched, m: Sched, t: Sched, first: seq<nat>, later: seq<nat>)
    requires |s.discovered| == |s.tasks| && SliceOf(slice, m, t, later)
    requires if exists i :: Waits(s, i) then m.now == s.now else NextArrival(s.tasks, s.now, m.now)
    requires Newcomers(s, m.now, first) && m.queue == s.queue + first
    requires m == s.(now := m.now, queue := m.queue, discovered := m.discovered) && |m.discovered| == |s.discovered|
    requires forall j :: 0 <= j < |s.tasks| ==> m.discovered[j] == (s.discovered[j] || j in first)
    ensures RrTurnOf(slice, s, t, m.now, first, later)
  {
    hide Newcomers, NextArrival, Increasing, Waits, RanFor;
    RanFromMid(s, m, t, m.queue[0], if m.tasks[m.queue[0]].remaining < slice then m.tasks[m.queue[0]].remaining else slice);
  }

  lemma RanFromMid(s: Sched, m: Sched, t: Sched, b: nat, r: nat)
    requires m == s.(now := m.now, queue := m.queue, discovered := m.discovered)
    requires RanFor(m, t, b, m.now, r, false)
    ensures RanFor(s, t, b, m.now, r, false)
  {
  }

  /** The queue is sound with the newcomers in it, and everybody ready has been discovered. */
  lemma MidInv(s: Sched, m: Sched)
    requires RrInv(s) && RrReady(s, m)
    ensures RrInv(m) && forall i :: 0 <= i < |m.tasks| && Ready(m.tasks, m.now, i) ==> m.discovered[i]
  {
    ArriveKeeps(s, |s.tasks|);
    var a := Arrive(s);
    if a.queue == [] {
      var next: nat :| NextArrival(a.tasks, a.now, next) && m == Arrive(a.(now := next)) && m.queue != [];
      ArriveKeeps(a.(now := next), |a.tasks|);
    }
  }

  /** So is every turn of every run. */
  lemma RrRunOrder(slice: nat, tasks: seq<Task>, trace: seq<Sched>, k: nat)
    requires slice > 0 && ValidTasks(tasks) && tasks != [] && Trace(Rr, slice, tasks, trace) && k + 1 < |trace|
    ensures RrOrdered(slice, trace[k], trace[k + 1])
  {
    TraceInv(Rr, slice, tasks, trace, k);
    assert TurnAt(Rr, slice, trace, k);
    hide RrOrdered;
    RrTurnOrder(slice, trace[k], trace[k + 1]);
  }

  // ----- FCFS and CFS-lite

  ghost predicate ArrivesBefore(x: Task, a: nat, y: Task, b: nat)
  {
    x.arrival < y.arrival || (x.arrival == y.arrival && (x.pid < y.pid || (x.pid == y.pid && a < b)))
  }

  /** Of those who wait, b is first by arrival, pid and place in the table. */
  ghost predicate FirstToArrive(s: Sched, b: nat)
  {
    Waits(s, b) && forall j: nat :: Waits(s, j) && j != b ==> ArrivesBefore(s.tasks[b], b, s.tasks[j], j)
  }

  /** Of those who wait, b is first by vruntime, and then as above. */
  ghost predicate LeastServed(s: Sched, b: nat)
  {
    Waits(s, b) && forall j: nat :: Waits(s, j) && j != b ==>
      s.tasks[b].vruntime < s.tasks[j].vruntime
      || (s.tasks[b].vruntime == s.tasks[j].vruntime && ArrivesBefore(s.tasks[b], b, s.tasks[j], j))
  }

  ghost predicate QueueUnused(s: Sched, t: Sched)
  {
    t.queue == s.queue && t.discovered == s.discovered && t.preempts == s.preempts
  }

  lemma ExecuteRan(s: Sched, b: nat, r: nat, fair: bool)
    requires b < |s.tasks| && r <= s.tasks[b].remaining
    ensures RanFor(s, Execute(s, b, r, fair), b, s.now, r, fair) && QueueUnused(s, Execute(s, b, r, fair))
  {
  }

  lemma CfsChoiceServed(s: Sched, b: nat)
    requires CfsChoice(s.tasks, s.now, b)
    ensures LeastServed(s, b) && Waits(s, b)
  {
    assert forall i: nat :: Waits(s, i) ==> Ready(s.tasks, s.now, i);
  }

  /** With nobody waiting only the clock moves, to the next arrival; else the first to arrive runs to its end. */
  lemma FcfsTurn(s: Sched, t: Sched)
    requires FcfsStep(s, t)
    ensures QueueUnused(s, t)
    ensures
      if exists i :: Waits(s, i)
      then exists b: nat :: FirstToArrive(s, b) && RanFor(s, t, b, s.now, s.tasks[b].remaining, false)
      else t == s.(now := t.now) && NextArrival(s.tasks, s.now, t.now)
  {
    assert forall i: nat :: Waits(s, i) ==> Ready(s.tasks, s.now, i);
    if !Idle(s, t) {
      var b: nat :| FcfsChoice(s.tasks, s.now, b) && t == Execute(s, b, s.tasks[b].remaining, false);
      assert FirstToArrive(s, b);
    }
  }

  /** Likewise, but the least served runs, and for at most one slice. */
  lemma CfsTurn(slice: nat, s: Sched, t: Sched)
    requires CfsStep(slice, s, t)
    ensures QueueUnused(s, t)
    ensures
      if exists i :: Waits(s, i)
      then exists b: nat :: LeastServed(s, b) && RanFor(s, t, b, s.now,
             if s.tasks[b].remaining < slice then s.tasks[b].remaining else slice, true)
      else t == s.(now := t.now) && NextArrival(s.tasks, s.now, t.now)
  {
    hide Execute, RanFor, CfsLess, LeastServed;
    assert forall i: nat :: Waits(s, i) ==> Ready(s.tasks, s.now, i);
    if !Idle(s, t) {
      var b: nat :| CfsChoice(s.tasks, s.now, b) && t == Execute(s, b, Min(s.tasks[b].remaining, slice), true);
      CfsChoiceServed(s, b);
      ExecuteRan(s, b, Min(s.tasks[b].remaining, slice), true);
    }
  }
}
