/** Whole runs of the offline scheduler, for every task table and every policy. */
module SchedulerRuns {
  import opened Sums
  import opened SchedulerModel
  import opened SchedulerMakespan
  import opened SchedulerPolicies
  import opened SchedulerRoundRobin

  ghost predicate LegalSlice(policy: Policy, slice: nat)
  {
    policy == Fcfs || slice > 0
  }

  ghost predicate PolicyInv(policy: Policy, slice: nat, s: Sched)
    requires LegalSlice(policy, slice)
  {
    && Busy(s.tasks, s.now)
    && Ledger(policy, slice, s)
    && match policy
       case Fcfs => FcfsInv(s)
       case Rr => RrInv(s)
       case CfsLite => Fair(slice, s.tasks)
  }

  lemma StepKeeps(policy: Policy, slice: nat, s: Sched, t: Sched)
    requires LegalSlice(policy, slice) && PolicyInv(policy, slice, s) && Step(policy, slice, s, t)
    ensures PolicyInv(policy, slice, t) && SameJobs(s.tasks, t.tasks)
  {
    match policy
    case Fcfs => FcfsStepKeeps(slice, s, t);
    case Rr => RrStepKeeps(slice, s, t);
    case CfsLite => CfsStepKeeps(slice, s, t);
  }

  lemma StartInv(policy: Policy, slice: nat, tasks: seq<Task>)
    requires LegalSlice(policy, slice) && ValidTasks(tasks) && tasks != []
    ensures PolicyInv(policy, slice, Start(tasks)) && SameJobs(tasks, Start(tasks).tasks)
  {
    StartBusy(tasks);
    StartLedger(policy, slice, tasks);
    FcfsStart(tasks);
    CfsStart(slice, tasks);
    RrStart(tasks);
  }

  lemma {:induction false} TraceInv(policy: Policy, slice: nat, tasks: seq<Task>, trace: seq<Sched>, k: nat)
    requires LegalSlice(policy, slice) && ValidTasks(tasks) && tasks != []
    requires Trace(policy, slice, tasks, trace) && k < |trace|
    ensures PolicyInv(policy, slice, trace[k]) && SameJobs(tasks, trace[k].tasks)
  {
    if k == 0 {
      StartInv(policy, slice, tasks);
    } else {
      TraceInv(policy, slice, tasks, trace, k - 1);
      assert TurnAt(policy, slice, trace, k - 1);
      hide PolicyInv, Step, AllDone;
      StepKeeps(policy, slice, trace[k - 1], trace[k]);
    }
  }

  /** A run whose last loop head has no work left. */
  ghost predicate CompleteTrace(policy: Policy, slice: nat, tasks: seq<Task>, trace: seq<Sched>)
  {
    Trace(policy, slice, tasks, trace) && AllDone(trace[|trace| - 1].tasks)
  }

  lemma EndOfRun(tasks: seq<Task>, end: Sched)
    requires Busy(end.tasks, end.now) && AllDone(end.tasks) && SameJobs(tasks, end.tasks) && tasks != []
    ensures LargestCompletion(end.tasks) == end.now == Makespan(tasks)
    ensures forall i :: 0 <= i < |tasks| ==> end.tasks[i].completion >= tasks[i].arrival + tasks[i].burst
  {
    DoneCompletions(end.tasks, end.now);
    DoneAtMakespan(end.tasks, end.now);
    SameJobsSameTerms(tasks, end.tasks);
  }

  /** Whatever the policy and the slice, the last task completes at the makespan of the task set,
      and no task turns around faster than its burst. */
  lemma PolicyIndependentMakespan(policy: Policy, slice: nat, tasks: seq<Task>, trace: seq<Sched>)
    requires LegalSlice(policy, slice) && ValidTasks(tasks) && tasks != []
    requires CompleteTrace(policy, slice, tasks, trace)
    ensures var end := trace[|trace| - 1];
      && LargestCompletion(end.tasks) == end.now == Makespan(tasks)
      && |end.tasks| == |tasks|
      && forall i :: 0 <= i < |tasks| ==> end.tasks[i].completion >= tasks[i].arrival + tasks[i].burst
  {
    TraceInv(policy, slice, tasks, trace, |trace| - 1);
    EndOfRun(tasks, trace[|trace| - 1]);
  }

  /** The clock of a run never passes the makespan. */
  lemma ClockWithinMakespan(policy: Policy, slice: nat, tasks: seq<Task>, trace: seq<Sched>, k: nat)
    requires LegalSlice(policy, slice) && ValidTasks(tasks) && tasks != []
    requires Trace(policy, slice, tasks, trace) && k < |trace|
    ensures trace[k].now <= Makespan(tasks)
  {
    TraceInv(policy, slice, tasks, trace, k);
    SameJobsSameTerms(tasks, trace[k].tasks);
  }

  /** FCFS completes each task at max(previous completion, arrival) + burst, taking the tasks in
      order of arrival, then pid, then table position; nothing is preempted and vruntime is unused. */
  lemma FcfsRecurrence(slice: nat, tasks: seq<Task>, trace: seq<Sched>)
    requires ValidTasks(tasks) && tasks != [] && CompleteTrace(Fcfs, slice, tasks, trace)
    ensures var end := trace[|trace| - 1];
      && |end.tasks| == |tasks|
      && (forall i, j :: 0 <= i < |tasks| && 0 <= j < |tasks| ==> FcfsLess(end.tasks, i, j) == FcfsLess(tasks, i, j))
      && (forall i :: 0 <= i < |tasks| ==> Recurrence(end.tasks, i))
      && end.switches == |tasks| && end.preempts == 0 && end.cost == Sum(Bursts(tasks))
  {
    var end := trace[|trace| - 1];
    TraceInv(Fcfs, slice, tasks, trace, |trace| - 1);
    forall i | 0 <= i < |tasks| ensures Recurrence(end.tasks, i) {
      assert AllOrNothing(end.tasks, end.now, i);
    }
    DoneLedger(Fcfs, slice, end);
    assert Bursts(end.tasks) == Bursts(tasks);
    forall i | 0 <= i < |tasks| ensures TurnsTotal(Fcfs, slice, end.tasks)[i] == 1 {
      assert TaskOk(end.tasks[i], end.now);
    }
    SumOnes(TurnsTotal(Fcfs, slice, end.tasks));
  }

  /** The sums of ceil(burst / slice) over the tasks. */
  function Ceilings(slice: nat, tasks: seq<Task>): (r: seq<nat>)
    requires slice > 0
    ensures |r| == |tasks|
  {
    seq(|tasks|, j requires 0 <= j < |tasks| => (tasks[j].burst + slice - 1) / slice)
  }

  lemma TurnsAreCeilings(policy: Policy, slice: nat, tasks: seq<Task>, jobs: seq<Task>)
    requires policy != Fcfs && slice > 0 && SameJobs(tasks, jobs)
    ensures TurnsTotal(policy, slice, jobs) == Ceilings(slice, tasks)
  {
    forall j | 0 <= j < |tasks| ensures TurnsTotal(policy, slice, jobs)[j] == Ceilings(slice, tasks)[j] {
      SlicesIsCeiling(jobs[j].burst, slice);
    }
  }

  /** RR switches once per slice of every task and preempts all but each task's last slice;
      CFS-lite switches as often; both charge every unit of work once. */
  lemma SliceCounts(policy: Policy, slice: nat, tasks: seq<Task>, trace: seq<Sched>)
    requires policy != Fcfs && slice > 0 && ValidTasks(tasks) && tasks != []
    requires CompleteTrace(policy, slice, tasks, trace)
    ensures var end := trace[|trace| - 1];
      && end.switches == Sum(Ceilings(slice, tasks))
      && end.cost == Sum(Bursts(tasks))
      && (policy == Rr ==> end.preempts == end.switches - |tasks|)
      && |end.tasks| == |tasks|
      && (policy == CfsLite ==> end.preempts == 0)
      && (policy == CfsLite ==> forall i :: 0 <= i < |tasks| ==> end.tasks[i].vruntime == tasks[i].burst)
  {
    var end := trace[|trace| - 1];
    TraceInv(policy, slice, tasks, trace, |trace| - 1);
    DoneLedger(policy, slice, end);
    TurnsAreCeilings(policy, slice, tasks, end.tasks);
    assert Bursts(end.tasks) == Bursts(tasks);
  }

  /** Between RR turns the queue holds exactly the discovered unfinished tasks, each once, and fits
      its fixed array. */
  lemma RrQueueExact(slice: nat, tasks: seq<Task>, trace: seq<Sched>, k: nat)
    requires slice > 0 && ValidTasks(tasks) && tasks != [] && Trace(Rr, slice, tasks, trace) && k < |trace|
    ensures RrInv(trace[k]) && |trace[k].queue| <= |tasks| <= MAX_TASKS
  {
    TraceInv(Rr, slice, tasks, trace, k);
    QueueFits(trace[k], |trace[k].tasks|);
  }

  lemma RrTurn(slice: nat, tasks: seq<Task>, trace: seq<Sched>, k: nat, p: nat)
    requires slice > 0 && ValidTasks(tasks) && tasks != [] && CompleteTrace(Rr, slice, tasks, trace)
    requires k < |trace| && p < |trace[k].queue|
    ensures p <= |tasks| - 1 && k + 1 < |trace|
    ensures p == 0 ==> Ran(trace[k], trace[k + 1], trace[k].queue[0])
    ensures p > 0 ==> p - 1 < |trace[k + 1].queue| && trace[k + 1].queue[p - 1] == trace[k].queue[p]
  {
    TraceInv(Rr, slice, tasks, trace, k);
    RrQueueExact(slice, tasks, trace, k);
    QueuedIsOpen(trace[k], p);
    assert k != |trace| - 1 && TurnAt(Rr, slice, trace, k);
    QueueMoves(slice, trace[k], trace[k + 1], p);
  }

  /** First in, first out: the task at position p of the queue runs in exactly the (p+1)-st turn from
      now. The queue has at most n places, so at most n - 1 other slices come first. */
  lemma {:induction false} RrBoundedWait(slice: nat, tasks: seq<Task>, trace: seq<Sched>, k: nat, p: nat)
    requires slice > 0 && ValidTasks(tasks) && tasks != [] && CompleteTrace(Rr, slice, tasks, trace)
    requires k < |trace| && p < |trace[k].queue|
    ensures p <= |tasks| - 1
    ensures k + p + 1 < |trace| && Ran(trace[k + p], trace[k + p + 1], trace[k].queue[p])
    decreases p
  {
    RrTurn(slice, tasks, trace, k, p);
    if p > 0 {
      RrBoundedWait(slice, tasks, trace, k + 1, p - 1);
    }
  }

  lemma QueuedIsOpen(s: Sched, p: nat)
    requires RrInv(s) && p < |s.queue|
    ensures !AllDone(s.tasks)
  {
    assert s.queue[p] in s.queue;
    assert s.tasks[s.queue[p]].remaining != 0;
  }

  /** In one turn the head runs and everyone behind it moves up one place. */
  lemma QueueMoves(slice: nat, s: Sched, t: Sched, p: nat)
    requires slice > 0 && PolicyInv(Rr, slice, s) && RrStep(slice, s, t) && p < |s.queue|
    ensures p == 0 ==> Ran(s, t, s.queue[0])
    ensures p > 0 ==> p - 1 < |t.queue| && t.queue[p - 1] == s.queue[p]
  {
    RrStepKeeps(slice, s, t);
    assert p > 0 ==> s.queue[p] == s.queue[1..][p - 1];
  }

  /** At every loop head of CFS-lite: an unfinished task is at most one slice of vruntime behind any
      task that arrived no earlier, so tasks of equal arrival stay within one slice of each other. */
  lemma CfsFairness(slice: nat, tasks: seq<Task>, trace: seq<Sched>, k: nat, a: nat, b: nat)
    requires slice > 0 && ValidTasks(tasks) && tasks != [] && Trace(CfsLite, slice, tasks, trace) && k < |trace|
    requires a < |tasks| && b < |tasks| && tasks[b].arrival <= tasks[a].arrival
    ensures |trace[k].tasks| == |tasks|
    ensures trace[k].tasks[b].remaining != 0 ==> trace[k].tasks[a].vruntime <= trace[k].tasks[b].vruntime + slice
    ensures trace[k].tasks[a].vruntime == trace[k].tasks[a].burst - trace[k].tasks[a].remaining
  {
    TraceInv(CfsLite, slice, tasks, trace, k);
    assert FairPair(slice, trace[k].tasks, a, b);
  }

  // ----- extending a run by a turn

  lemma TraceExtends(policy: Policy, slice: nat, tasks: seq<Task>, trace: seq<Sched>, t: Sched)
    requires Trace(policy, slice, tasks, trace)
    requires !AllDone(trace[|trace| - 1].tasks) && Step(policy, slice, trace[|trace| - 1], t)
    ensures Trace(policy, slice, tasks, trace + [t])
  {
    var longer := trace + [t];
    forall k | 0 <= k < |longer| - 1 ensures TurnAt(policy, slice, longer, k) {
      if k < |trace| - 1 {
        assert TurnAt(policy, slice, trace, k);
      }
    }
  }

  /** A turn that is legal keeps the run a run and the clock within the makespan. */
  lemma TurnExtends(policy: Policy, slice: nat, tasks: seq<Task>, trace: seq<Sched>, t: Sched)
    requires LegalSlice(policy, slice) && ValidTasks(tasks) && tasks != [] && Trace(policy, slice, tasks, trace)
    requires !AllDone(trace[|trace| - 1].tasks) && Step(policy, slice, trace[|trace| - 1], t)
    ensures Trace(policy, slice, tasks, trace + [t])
    ensures t.now <= Makespan(tasks) && SameJobs(tasks, t.tasks) && PolicyInv(policy, slice, t)
  {
    TraceExtends(policy, slice, tasks, trace, t);
    TraceInv(policy, slice, tasks, trace + [t], |trace|);
    ClockWithinMakespan(policy, slice, tasks, trace + [t], |trace|);
  }

  /** With nobody ready but work left, the next arrival exists and is no sentinel. */
  lemma NextArrivalExists(tasks: seq<Task>, jobs: seq<Task>, now: nat)
    requires SameJobs(tasks, jobs) && !AllDone(jobs) && NoneReady(jobs, now)
    ensures exists i :: 0 <= i < |jobs| && jobs[i].remaining != 0 && now < jobs[i].arrival <= Makespan(tasks)
  {
    var i :| 0 <= i < |jobs| && jobs[i].remaining != 0;
    assert !Ready(jobs, now, i);
    MakespanIsMax(tasks);
    assert Term(tasks, i) <= Makespan(tasks);
  }

  /** A turn in which somebody ran leaves less work. */
  lemma RanShrinks(s: Sched, t: Sched, b: nat)
    requires Ran(s, t, b)
    ensures Sum(Remaining(t.tasks)) < Sum(Remaining(s.tasks))
  {
    assert Remaining(t.tasks) == Remaining(s.tasks)[b := t.tasks[b].remaining];
    SumUpdate(Remaining(s.tasks), b, t.tasks[b].remaining);
  }

  /** What a loop may rely on at the loop head it has reached. */
  lemma TraceEnd(policy: Policy, slice: nat, tasks: seq<Task>, trace: seq<Sched>)
    requires LegalSlice(policy, slice) && ValidTasks(tasks) && tasks != [] && Trace(policy, slice, tasks, trace)
    ensures var s := trace[|trace| - 1];
      SameJobs(tasks, s.tasks) && s.now <= Makespan(tasks) && (policy == Rr ==> RrInv(s))
  {
    TraceInv(policy, slice, tasks, trace, |trace| - 1);
    ClockWithinMakespan(policy, slice, tasks, trace, |trace| - 1);
  }

  /** The turn that round robin takes from a dispatched state extends the run and leaves less work. */
  lemma RrSliceExtends(slice: nat, tasks: seq<Task>, trace: seq<Sched>, m: Sched)
    requires slice > 0 && ValidTasks(tasks) && tasks != [] && Trace(Rr, slice, tasks, trace)
    requires var s := trace[|trace| - 1]; !AllDone(s.tasks) && |s.tasks| == |s.discovered| && RrReady(s, m)
    requires RrInv(m) && m.queue != []
    ensures m.queue[0] < |m.tasks|
    ensures Trace(Rr, slice, tasks, trace + [RrSlice(m, slice)])
    ensures m.now + Min(m.tasks[m.queue[0]].remaining, slice) <= Makespan(tasks)
    ensures Sum(Remaining(RrSlice(m, slice).tasks)) < Sum(Remaining(m.tasks))
  {
    SliceRan(m, slice);
    var t := RrSlice(m, slice);
    assert RrStep(slice, trace[|trace| - 1], t);
    TurnExtends(Rr, slice, tasks, trace, t);
    RanShrinks(m, t, m.queue[0]);
  }

  lemma StartTrace(policy: Policy, slice: nat, tasks: seq<Task>)
    ensures Trace(policy, slice, tasks, [Start(tasks)]) && SameJobs(tasks, Start(tasks).tasks)
  {
  }

  /** The makespan lies within the last arrival and all bursts: inputs that keep that sum below the sentinel
      keep the whole run below it. */
  lemma MakespanWithin(tasks: seq<Task>, last: nat)
    requires forall i :: 0 <= i < |tasks| ==> tasks[i].arrival <= last
    ensures Makespan(tasks) <= last + Sum(Bursts(tasks))
  {
    if tasks != [] {
      MakespanIsMax(tasks);
      var i :| 0 <= i < |tasks| && Term(tasks, i) == Makespan(tasks);
      SumMonotone(DueFrom(tasks, tasks[i].arrival), Bursts(tasks));
    } else {
      assert Makespan(tasks) == 0;
    }
  }
}
