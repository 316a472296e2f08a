/** What FCFS, RR and CFS-lite each keep at every turn of their loops. */
module SchedulerPolicies {
  import opened Sums
  import opened SchedulerModel
  import opened SchedulerMakespan

  // ----- the ledger: slices, switches and cost

  /** Slices of at most `slice` units that `left` units of work take. */
  function Slices(left: nat, slice: nat): (r: nat)
    requires slice > 0
  {
    if left == 0 then 0 else 1 + Slices(left - Min(left, slice), slice)
  }

  lemma {:induction false} SlicesIsCeiling(left: nat, slice: nat)
    requires slice > 0
    ensures Slices(left, slice) == (left + slice - 1) / slice
    decreases left
  {
    if 0 < left {
      SlicesIsCeiling(left - Min(left, slice), slice);
      if left <= slice {
        assert (left + slice - 1) / slice == 1 by { CeilingOfOne(left, slice); }
        assert (slice - 1) / slice == 0;
      } else {
        assert (left + slice - 1) / slice == (left - slice + slice - 1) / slice + 1 by { DivStep(left - 1, slice); }
      }
    } else {
      assert (slice - 1) / slice == 0;
    }
  }

  lemma CeilingOfOne(left: nat, slice: nat)
    requires 0 < left <= slice
    ensures (left + slice - 1) / slice == 1
  {
    DivStep(left - 1, slice);
    assert (left - 1) / slice == 0;
  }

  lemma DivStep(a: nat, d: nat)
    requires d > 0
    ensures (a + d) / d == a / d + 1
  {
    var q := a / d;
    assert a == d * q + a % d;
    assert a + d == d * (q + 1) + a % d;
    DivUnique(a + d, d, q + 1, a % d);
  }

  lemma DivUnique(a: nat, d: nat, q: nat, r: nat)
    requires d > 0 && a == d * q + r && r < d
    ensures a / d == q
  {
    var p := a / d;
    assert a == d * p + a % d;
    assert p < q ==> d * (p + 1) <= d * q;
    assert q < p ==> d * (q + 1) <= d * p;
  }

  /** Turns a task still needs: one under FCFS, its slices otherwise. */
  function Turns(policy: Policy, slice: nat, left: nat): (r: nat)
    requires policy == Fcfs || slice > 0
  {
    if policy == Fcfs then (if left == 0 then 0 else 1) else Slices(left, slice)
  }

  function TurnsLeft(policy: Policy, slice: nat, tasks: seq<Task>): (r: seq<nat>)
    requires policy == Fcfs || slice > 0
    ensures |r| == |tasks| && forall j :: 0 <= j < |tasks| ==> r[j] == Turns(policy, slice, tasks[j].remaining)
  {
    seq(|tasks|, j requires 0 <= j < |tasks| => Turns(policy, slice, tasks[j].remaining))
  }

  function TurnsTotal(policy: Policy, slice: nat, tasks: seq<Task>): (r: seq<nat>)
    requires policy == Fcfs || slice > 0
    ensures |r| == |tasks| && forall j :: 0 <= j < |tasks| ==> r[j] == Turns(policy, slice, tasks[j].burst)
  {
    seq(|tasks|, j requires 0 <= j < |tasks| => Turns(policy, slice, tasks[j].burst))
  }

  function Bursts(tasks: seq<Task>): (r: seq<nat>)
    ensures |r| == |tasks| && forall j :: 0 <= j < |tasks| ==> r[j] == tasks[j].burst
  {
    seq(|tasks|, j requires 0 <= j < |tasks| => tasks[j].burst)
  }

  /** One per unfinished task. */
  function Open(tasks: seq<Task>): (r: seq<nat>)
    ensures |r| == |tasks| && forall j :: 0 <= j < |tasks| ==> r[j] == if tasks[j].remaining == 0 then 0 else 1
  {
    seq(|tasks|, j requires 0 <= j < |tasks| => if tasks[j].remaining == 0 then 0 else 1)
  }

  ghost predicate Ledger(policy: Policy, slice: nat, s: Sched)
    requires policy == Fcfs || slice > 0
  {
    && s.cost + Sum(Remaining(s.tasks)) == Sum(Bursts(s.tasks))
    && s.switches + Sum(TurnsLeft(policy, slice, s.tasks)) == Sum(TurnsTotal(policy, slice, s.tasks))
    && (if policy == Rr then s.preempts + |s.tasks| == s.switches + Sum(Open(s.tasks)) else s.preempts == 0)
    && (forall i :: 0 <= i < |s.tasks| ==>
          s.tasks[i].remaining <= s.tasks[i].burst
          && s.tasks[i].vruntime == if policy == CfsLite then s.tasks[i].burst - s.tasks[i].remaining else 0)
  }

  /** The length of the turn each policy gives a task. */
  function TurnLength(policy: Policy, slice: nat, left: nat): (r: nat)
  {
    if policy == Fcfs then left else Min(left, slice)
  }

  lemma ExecuteSums(policy: Policy, slice: nat, s: Sched, b: nat)
    requires policy == Fcfs || slice > 0
    requires b < |s.tasks| && s.tasks[b].remaining != 0
    ensures var r := TurnLength(policy, slice, s.tasks[b].remaining);
      var t := Execute(s, b, r, policy == CfsLite);
      && Sum(TurnsLeft(policy, slice, t.tasks)) + 1 == Sum(TurnsLeft(policy, slice, s.tasks))
      && Sum(Open(t.tasks)) + (if t.tasks[b].remaining == 0 then 1 else 0) == Sum(Open(s.tasks))
      && Bursts(t.tasks) == Bursts(s.tasks)
      && TurnsTotal(policy, slice, t.tasks) == TurnsTotal(policy, slice, s.tasks)
  {
    var r := TurnLength(policy, slice, s.tasks[b].remaining);
    var t := Execute(s, b, r, policy == CfsLite);
    var turns := Turns(policy, slice, t.tasks[b].remaining);
    assert TurnsLeft(policy, slice, t.tasks) == TurnsLeft(policy, slice, s.tasks)[b := turns];
    SumUpdate(TurnsLeft(policy, slice, s.tasks), b, turns);
    var open := if t.tasks[b].remaining == 0 then 0 else 1;
    assert Open(t.tasks) == Open(s.tasks)[b := open];
    SumUpdate(Open(s.tasks), b, open);
  }

  /** One turn keeps the ledger, once RR has counted the preemption of a task with work left. */
  lemma ExecuteKeepsLedger(policy: Policy, slice: nat, s: Sched, b: nat)
    requires policy == Fcfs || slice > 0
    requires Ledger(policy, slice, s) && b < |s.tasks| && s.tasks[b].remaining != 0
    ensures var r := TurnLength(policy, slice, s.tasks[b].remaining);
      var t := Execute(s, b, r, policy == CfsLite);
      Ledger(policy, slice,
             if policy == Rr && t.tasks[b].remaining != 0 then t.(preempts := t.preempts + 1) else t)
  {
    hide Sum, SameJobs, Turns;
    ExecuteRemaining(s, b, TurnLength(policy, slice, s.tasks[b].remaining), policy == CfsLite);
    ExecuteSums(policy, slice, s, b);
  }

  lemma StartLedger(policy: Policy, slice: nat, tasks: seq<Task>)
    requires policy == Fcfs || slice > 0
    requires ValidTasks(tasks)
    ensures Ledger(policy, slice, Start(tasks))
  {
    var t := Start(tasks).tasks;
    assert Remaining(t) == Bursts(t);
    assert TurnsLeft(policy, slice, t) == TurnsTotal(policy, slice, t);
    SumOnes(Open(t));
  }

  lemma {:induction false} SumOnes(xs: seq<nat>)
    requires forall i :: 0 <= i < |xs| ==> xs[i] == 1
    ensures Sum(xs) == |xs|
  {
    if xs != [] { SumOnes(xs[1..]); }
  }

  /** At the end of a run: every slice was a switch, every unit of work was paid for once. */
  lemma DoneLedger(policy: Policy, slice: nat, s: Sched)
    requires policy == Fcfs || slice > 0
    requires Ledger(policy, slice, s) && AllDone(s.tasks)
    ensures s.cost == Sum(Bursts(s.tasks))
    ensures s.switches == Sum(TurnsTotal(policy, slice, s.tasks))
    ensures policy == Rr ==> s.preempts == s.switches - |s.tasks|
    ensures forall i :: 0 <= i < |s.tasks| ==>
      s.tasks[i].vruntime == if policy == CfsLite then s.tasks[i].burst else 0
  {
    SumZero(Remaining(s.tasks));
    SumZero(TurnsLeft(policy, slice, s.tasks));
    SumZero(Open(s.tasks));
  }

  // ----- FCFS: one pass in order of (arrival, pid, index)

  /** j comes right before i in the FCFS order. */
  ghost predicate Before(tasks: seq<Task>, j: nat, i: nat)
  {
    && j < |tasks| && i < |tasks| && FcfsLess(tasks, j, i)
    && forall k :: 0 <= k < |tasks| ==> !(FcfsLess(tasks, j, k) && FcfsLess(tasks, k, i))
  }

  ghost predicate First(tasks: seq<Task>, i: nat)
  {
    i < |tasks| && forall k :: 0 <= k < |tasks| ==> !FcfsLess(tasks, k, i)
  }

  function Max(a: nat, b: nat): (r: nat)
  {
    if a < b then b else a
  }

  /** Completion follows from the task right before, or from an empty machine for the first. */
  ghost predicate Recurrence(tasks: seq<Task>, i: nat)
    requires i < |tasks|
  {
    && (First(tasks, i) ==> tasks[i].completion == tasks[i].arrival + tasks[i].burst)
    && (forall j :: 0 <= j < |tasks| && Before(tasks, j, i) ==>
          tasks[i].completion == Max(tasks[j].completion, tasks[i].arrival) + tasks[i].burst)
  }

  /** Whoever precedes a finished task has finished, no later. */
  ghost predicate Closed(ts: seq<Task>)
  {
    forall i, j :: 0 <= i < |ts| && 0 <= j < |ts| && FcfsLess(ts, i, j) && ts[j].remaining == 0 ==>
      ts[i].remaining == 0 && ts[i].completion <= ts[j].completion
  }

  /** Under FCFS a task has not run at all, or has run to completion by the recurrence. */
  ghost predicate AllOrNothing(ts: seq<Task>, now: nat, i: nat)
    requires i < |ts|
  {
    && (ts[i].remaining == 0 || ts[i].remaining == ts[i].burst)
    && (ts[i].remaining == 0 ==> ts[i].completion <= now && Recurrence(ts, i))
  }

  /** The finished tasks are the first ones in the order, each completed by the recurrence; the clock
      stands at the last completion, or at the arrival every waiting task has yet to reach. */
  ghost predicate FcfsInv(s: Sched)
  {
    && Closed(s.tasks)
    && (forall i :: 0 <= i < |s.tasks| ==> AllOrNothing(s.tasks, s.now, i))
    && (LastFinishedAt(s.tasks, s.now) || NoneEarlier(s.tasks, s.now))
  }

  ghost predicate NoneEarlier(ts: seq<Task>, now: nat)
  {
    forall i :: 0 <= i < |ts| && ts[i].remaining != 0 ==> now <= ts[i].arrival
  }

  ghost predicate LastFinishedAt(ts: seq<Task>, now: nat)
  {
    exists l :: 0 <= l < |ts| && ts[l].remaining == 0 && ts[l].completion == now
      && forall k :: 0 <= k < |ts| && ts[k].remaining == 0 ==> k == l || FcfsLess(ts, k, l)
  }

  lemma FcfsIdleKeeps(s: Sched, t: Sched)
    requires FcfsInv(s) && Idle(s, t)
    ensures FcfsInv(t)
  {
    assert forall i :: 0 <= i < |s.tasks| && s.tasks[i].remaining != 0 ==> !Ready(s.tasks, s.now, i);
    forall i | 0 <= i < |t.tasks| ensures AllOrNothing(t.tasks, t.now, i) {
      assert AllOrNothing(s.tasks, s.now, i);
    }
  }

  /** The chosen task precedes every other unfinished one, arrived or not. */
  lemma FcfsChoiceLeast(tasks: seq<Task>, now: nat, b: nat)
    requires FcfsChoice(tasks, now, b)
    ensures forall j :: 0 <= j < |tasks| && j != b && tasks[j].remaining != 0 ==> FcfsLess(tasks, b, j)
  {
  }

  lemma FcfsChoiceFirst(s: Sched, b: nat)
    requires FcfsInv(s) && FcfsChoice(s.tasks, s.now, b) && First(s.tasks, b)
    ensures s.now == s.tasks[b].arrival
  {
    forall l | 0 <= l < |s.tasks| ensures s.tasks[l].remaining != 0 {
      assert l == b || FcfsLess(s.tasks, b, l) || FcfsLess(s.tasks, l, b);
    }
  }

  lemma FcfsChoiceAfter(s: Sched, b: nat, j: nat)
    requires FcfsInv(s) && FcfsChoice(s.tasks, s.now, b) && Before(s.tasks, j, b)
    ensures s.now == Max(s.tasks[j].completion, s.tasks[b].arrival)
  {
    FcfsChoiceLeast(s.tasks, s.now, b);
    assert s.tasks[j].remaining == 0;
    assert AllOrNothing(s.tasks, s.now, j);
    if LastFinishedAt(s.tasks, s.now) {
      var l: nat :| l < |s.tasks| && s.tasks[l].remaining == 0 && s.tasks[l].completion == s.now
        && forall k :: 0 <= k < |s.tasks| && s.tasks[k].remaining == 0 ==> k == l || FcfsLess(s.tasks, k, l);
      assert FcfsLess(s.tasks, l, b);
      assert j == l;
    }
  }

  lemma ExecuteOrder(s: Sched, b: nat, r: nat, fair: bool)
    requires b < |s.tasks| && r <= s.tasks[b].remaining
    ensures var t := Execute(s, b, r, fair);
      && (forall i, j :: 0 <= i < |s.tasks| && 0 <= j < |s.tasks| ==>
            FcfsLess(t.tasks, i, j) == FcfsLess(s.tasks, i, j))
      && (forall i :: 0 <= i < |s.tasks| ==> First(t.tasks, i) == First(s.tasks, i))
      && (forall i, j :: 0 <= i < |s.tasks| && 0 <= j < |s.tasks| ==> Before(t.tasks, j, i) == Before(s.tasks, j, i))
  {
    var t := Execute(s, b, r, fair);
    assert forall i, j :: 0 <= i < |s.tasks| && 0 <= j < |s.tasks| ==>
      FcfsLess(t.tasks, i, j) == FcfsLess(s.tasks, i, j);
  }

  lemma FcfsExecuteRecurs(s: Sched, b: nat, i: nat)
    requires FcfsInv(s) && FcfsChoice(s.tasks, s.now, b) && i < |s.tasks|
    ensures var t := Execute(s, b, s.tasks[b].remaining, false); AllOrNothing(t.tasks, t.now, i)
  {
    var t := Execute(s, b, s.tasks[b].remaining, false);
    ExecuteOrder(s, b, s.tasks[b].remaining, false);
    assert AllOrNothing(s.tasks, s.now, i);
    if i == b {
      if First(s.tasks, b) { FcfsChoiceFirst(s, b); }
      forall j | 0 <= j < |t.tasks| && Before(t.tasks, j, b)
        ensures t.tasks[b].completion == Max(t.tasks[j].completion, t.tasks[b].arrival) + t.tasks[b].burst
      {
        FcfsChoiceAfter(s, b, j);
      }
    } else if t.tasks[i].remaining == 0 {
      assert Recurrence(s.tasks, i);
      assert !FcfsLess(s.tasks, b, i);
    }
  }

  lemma FcfsExecuteKeeps(s: Sched, b: nat)
    requires FcfsInv(s) && FcfsChoice(s.tasks, s.now, b)
    ensures FcfsInv(Execute(s, b, s.tasks[b].remaining, false))
  {
    var t := Execute(s, b, s.tasks[b].remaining, false);
    ExecuteOrder(s, b, s.tasks[b].remaining, false);
    FcfsChoiceLeast(s.tasks, s.now, b);
    forall i | 0 <= i < |t.tasks| ensures AllOrNothing(t.tasks, t.now, i) {
      FcfsExecuteRecurs(s, b, i);
    }
    forall i, j | 0 <= i < |t.tasks| && 0 <= j < |t.tasks| && FcfsLess(t.tasks, i, j) && t.tasks[j].remaining == 0
      ensures t.tasks[i].remaining == 0 && t.tasks[i].completion <= t.tasks[j].completion
    {
      assert FcfsLess(s.tasks, i, j) && AllOrNothing(s.tasks, s.now, i);
      assert s.tasks[i].remaining != 0 && i != b ==> FcfsLess(s.tasks, b, i);
    }
    assert LastFinishedAt(t.tasks, t.now) by {
      assert t.tasks[b].remaining == 0 && t.tasks[b].completion == t.now;
      forall k | 0 <= k < |t.tasks| && t.tasks[k].remaining == 0 && k != b ensures FcfsLess(t.tasks, k, b) {
        assert !FcfsLess(s.tasks, b, k);
      }
    }
  }

  lemma FcfsStepKeeps(slice: nat, s: Sched, t: Sched)
    requires FcfsInv(s) && Busy(s.tasks, s.now) && Ledger(Fcfs, slice, s) && FcfsStep(s, t)
    ensures FcfsInv(t) && Busy(t.tasks, t.now) && Ledger(Fcfs, slice, t) && SameJobs(s.tasks, t.tasks)
  {
    if Idle(s, t) {
      FcfsIdleKeeps(s, t);
      IdleKeepsBusy(s.tasks, s.now, t.now);
    } else {
      var b: nat :| FcfsChoice(s.tasks, s.now, b) && t == Execute(s, b, s.tasks[b].remaining, false);
      FcfsExecuteKeeps(s, b);
      ExecuteKeepsBusy(s, b, s.tasks[b].remaining, false);
      ExecuteKeepsLedger(Fcfs, slice, s, b);
      ExecuteRemaining(s, b, s.tasks[b].remaining, false);
    }
  }

  lemma FcfsStart(tasks: seq<Task>)
    requires ValidTasks(tasks)
    ensures FcfsInv(Start(tasks))
  {
  }

  // ----- CFS-lite: nobody unfinished is more than a slice behind

  /** Task b, while unfinished, is at most one slice behind any task that arrived no earlier. */
  ghost predicate FairPair(slice: nat, tasks: seq<Task>, a: nat, b: nat)
    requires a < |tasks| && b < |tasks|
  {
    tasks[b].remaining != 0 && tasks[b].arrival <= tasks[a].arrival ==>
      tasks[a].vruntime <= tasks[b].vruntime + slice
  }

  ghost predicate Fair(slice: nat, tasks: seq<Task>)
  {
    forall a, b :: 0 <= a < |tasks| && 0 <= b < |tasks| ==> FairPair(slice, tasks, a, b)
  }

  lemma CfsExecuteFair(slice: nat, s: Sched, c: nat)
    requires Fair(slice, s.tasks) && CfsChoice(s.tasks, s.now, c)
    ensures Fair(slice, Execute(s, c, Min(s.tasks[c].remaining, slice), true).tasks)
  {
    var t := Execute(s, c, Min(s.tasks[c].remaining, slice), true);
    forall a, b | 0 <= a < |t.tasks| && 0 <= b < |t.tasks| ensures FairPair(slice, t.tasks, a, b) {
      assert FairPair(slice, s.tasks, a, b);
      assert a == c && s.tasks[b].remaining != 0 && s.tasks[b].arrival <= s.tasks[c].arrival ==>
               Ready(s.tasks, s.now, b);
    }
  }

  lemma CfsStepKeeps(slice: nat, s: Sched, t: Sched)
    requires slice > 0
    requires Fair(slice, s.tasks) && Busy(s.tasks, s.now) && Ledger(CfsLite, slice, s) && CfsStep(slice, s, t)
    ensures Fair(slice, t.tasks) && Busy(t.tasks, t.now) && Ledger(CfsLite, slice, t) && SameJobs(s.tasks, t.tasks)
  {
    if Idle(s, t) {
      IdleKeepsBusy(s.tasks, s.now, t.now);
    } else {
      var c: nat :| CfsChoice(s.tasks, s.now, c) && t == Execute(s, c, Min(s.tasks[c].remaining, slice), true);
      CfsExecuteFair(slice, s, c);
      ExecuteKeepsBusy(s, c, Min(s.tasks[c].remaining, slice), true);
      ExecuteKeepsLedger(CfsLite, slice, s, c);
      ExecuteRemaining(s, c, Min(s.tasks[c].remaining, slice), true);
    }
  }

  lemma CfsStart(slice: nat, tasks: seq<Task>)
    requires ValidTasks(tasks)
    ensures Fair(slice, Start(tasks).tasks)
  {
  }
}
