/** The offline scheduler as the kernel runs it: a fixed task table, updated in place by three loops. */
module CourseScheduler {
  import opened Common
  import opened Sums
  import opened SchedulerModel
  import opened SchedulerMakespan
  import opened SchedulerPolicies
  import opened SchedulerRoundRobin
  import opened SchedulerRuns

  datatype Summary = Summary(
    policy: Policy, switches: nat, lastCost: nat, cost: nat, slice: nat, preempts: nat,
    totalWait: nat, totalTurnaround: nat, averageWait: nat, averageTurnaround: nat)

  /** uint32 addition. */
  function Add32(a: nat, b: nat): (r: nat)
  {
    (a + b) % UINT32_RANGE
  }

  /** Wrapped sums are the sums wrapped. */
  lemma AddWrapped(a: nat, b: nat)
    ensures Add32(a % UINT32_RANGE, b) == (a + b) % UINT32_RANGE
  {
  }

  lemma NothingSummed()
    ensures Sum([]) == 0
  {
  }

  /** The averages stay 0 for an empty table. */
  function Average(total: nat, count: nat): (r: nat)
  {
    if count == 0 then 0 else total / count
  }

  class Scheduler {
    const tasks: array<Task>
    var taskCount: nat
    var summary: Summary

    ghost predicate Valid()
      reads this, tasks
    {
      tasks.Length == MAX_TASKS && taskCount <= MAX_TASKS && ValidTasks(Tasks())
    }

    ghost function Tasks(): (r: seq<Task>)
      requires tasks.Length == MAX_TASKS && taskCount <= MAX_TASKS
      reads this, tasks
    {
      tasks[..taskCount]
    }

    /** The loop state a policy has reached. */
    ghost function At(now: nat, queue: seq<nat>, discovered: seq<bool>): (r: Sched)
      requires tasks.Length == MAX_TASKS && taskCount <= MAX_TASKS
      reads this, tasks
    {
      Sched(Tasks(), now, queue, discovered, summary.switches, summary.lastCost, summary.cost, summary.preempts)
    }

    constructor ()
      ensures Valid() && fresh(tasks) && taskCount == 0
    {
      tasks := new Task[MAX_TASKS](_ => Task(0, 0, 0, 0, 0, 0));
      taskCount := 0;
      summary := Summary(Fcfs, 0, 0, 0, 0, 0, 0, 0, 0, 0);
    }

    method AddTask(pid: nat, arrival: nat, burst: nat) returns (ok: bool)
      requires Valid()
      modifies this, tasks
      ensures Valid()
      ensures ok == (pid != 0 && burst != 0 && old(taskCount) < MAX_TASKS)
      ensures Tasks() == if ok then old(Tasks()) + [Task(pid, arrival, burst, burst, 0, 0)] else old(Tasks())
      ensures summary == old(summary)
    {
      if pid == 0 || burst == 0 || taskCount >= MAX_TASKS { return false; }
      tasks[taskCount] := Task(pid, arrival, burst, burst, 0, 0);
      taskCount := taskCount + 1;
      assert Tasks() == old(Tasks()) + [Task(pid, arrival, burst, burst, 0, 0)];
      return true;
    }

    method AllTasksComplete() returns (done: bool)
      requires Valid()
      ensures done == AllDone(Tasks())
    {
      var i := 0;
      while i < taskCount
        invariant i <= taskCount
        invariant forall j :: 0 <= j < i ==> tasks[j].remaining == 0
      {
        if tasks[i].remaining != 0 {
          assert Tasks()[i].remaining != 0;
          return false;
        }
        i := i + 1;
      }
      return true;
    }

    /** UINT32_MAX stands for: nobody unfinished is still to come. */
    method NextArrivalTime(now: nat) returns (next: nat)
      requires Valid()
      ensures next < UINT32_MAX ==> NextArrival(Tasks(), now, next)
      ensures next >= UINT32_MAX ==>
        next == UINT32_MAX && forall i :: 0 <= i < taskCount && tasks[i].remaining != 0 && tasks[i].arrival > now ==>
          tasks[i].arrival >= UINT32_MAX
    {
      next := UINT32_MAX;
      var i := 0;
      while i < taskCount
        invariant i <= taskCount && next <= UINT32_MAX
        invariant forall j :: 0 <= j < i && tasks[j].remaining != 0 && tasks[j].arrival > now ==> next <= tasks[j].arrival
        invariant next < UINT32_MAX ==>
          now < next && exists j :: 0 <= j < i && tasks[j].remaining != 0 && tasks[j].arrival == next
      {
        if tasks[i].remaining != 0 && tasks[i].arrival > now && tasks[i].arrival < next {
          next := tasks[i].arrival;
        }
        i := i + 1;
      }
      if next < UINT32_MAX {
        var j :| 0 <= j < taskCount && tasks[j].remaining != 0 && tasks[j].arrival == next;
        assert Tasks()[j].remaining != 0 && Tasks()[j].arrival == next;
      }
    }

    method PickFcfs(now: nat) returns (best: Option<nat>)
      requires Valid()
      ensures best.Some? ==> best.value < taskCount && FcfsChoice(Tasks(), now, best.value)
      ensures best.None? ==> NoneReady(Tasks(), now)
    {
      best := None;
      var i := 0;
      while i < taskCount
        invariant i <= taskCount
        invariant best.None? ==> forall j :: 0 <= j < i ==> !Ready(Tasks(), now, j)
        invariant best.Some? ==> best.value < i && Ready(Tasks(), now, best.value)
        invariant best.Some? ==>
          forall j :: 0 <= j < i && Ready(Tasks(), now, j) && j != best.value ==> FcfsLess(Tasks(), best.value, j)
      {
        if tasks[i].remaining != 0 && tasks[i].arrival <= now {
          if best.None? || tasks[i].arrival < tasks[best.value].arrival
             || (tasks[i].arrival == tasks[best.value].arrival && tasks[i].pid < tasks[best.value].pid) {
            best := Some(i);
          }
        }
        i := i + 1;
      }
    }

    method PickCfsLite(now: nat) returns (best: Option<nat>)
      requires Valid()
      ensures best.Some? ==> best.value < taskCount && CfsChoice(Tasks(), now, best.value)
      ensures best.None? ==> NoneReady(Tasks(), now)
    {
      best := None;
      var i := 0;
      while i < taskCount
        invariant i <= taskCount
        invariant best.None? ==> forall j :: 0 <= j < i ==> !Ready(Tasks(), now, j)
        invariant best.Some? ==> best.value < i && Ready(Tasks(), now, best.value)
        invariant best.Some? ==>
          forall j :: 0 <= j < i && Ready(Tasks(), now, j) && j != best.value ==> CfsLess(Tasks(), best.value, j)
      {
        if tasks[i].remaining != 0 && tasks[i].arrival <= now {
          if best.None? || tasks[i].vruntime < tasks[best.value].vruntime
             || (tasks[i].vruntime == tasks[best.value].vruntime && tasks[i].arrival < tasks[best.value].arrival)
             || (tasks[i].vruntime == tasks[best.value].vruntime && tasks[i].arrival == tasks[best.value].arrival
                 && tasks[i].pid < tasks[best.value].pid) {
            best := Some(i);
          }
        }
        i := i + 1;
      }
    }

    method RecordContextSwitch(cost: nat)
      modifies this`summary
      ensures summary == old(summary).(switches := old(summary).switches + 1, lastCost := cost,
                                       cost := old(summary).cost + cost)
    {
      summary := summary.(switches := summary.switches + 1, lastCost := cost, cost := summary.cost + cost);
    }

    /** Task b runs for r units from now on; `fair` adds them to its vruntime. */
    method RunTask(b: nat, r: nat, now: nat, fair: bool, ghost queue: seq<nat>, ghost discovered: seq<bool>)
      returns (after: nat)
      requires Valid() && b < taskCount && r <= tasks[b].remaining && now + r < UINT32_RANGE
      modifies this`summary, tasks
      ensures Valid()
      ensures At(after, queue, discovered) == Execute(old(At(now, queue, discovered)), b, r, fair)
      ensures summary.slice == old(summary.slice) && summary.policy == old(summary.policy)
    {
      RecordContextSwitch(r);
      after := Add32(now, r);
      tasks[b] := tasks[b].(remaining := tasks[b].remaining - r);
      if fair {
        tasks[b] := tasks[b].(vruntime := tasks[b].vruntime + r);
      }
      if tasks[b].remaining == 0 {
        tasks[b] := tasks[b].(completion := after);
      }
      assert Tasks() == Execute(old(At(now, queue, discovered)), b, r, fair).tasks;
    }
  
    /** The scheduler stands at the last loop head of this run. */
    ghost predicate StandsAt(policy: Policy, slice: nat, jobs: seq<Task>, trace: seq<Sched>)
      requires tasks.Length == MAX_TASKS && taskCount <= MAX_TASKS
      reads this, tasks
    {
      && Trace(policy, slice, jobs, trace)
      && var s := trace[|trace| - 1];
         SameJobs(jobs, s.tasks) && s.now <= Makespan(jobs) && At(s.now, s.queue, s.discovered) == s
    }

    /** Nobody is ready: the clock jumps to the next arrival. */
    method Jump(policy: Policy, slice: nat, now: nat, ghost jobs: seq<Task>, ghost trace: seq<Sched>)
      returns (next: nat, ghost longer: seq<Sched>)
      requires Valid() && policy != Rr && LegalSlice(policy, slice)
      requires ValidTasks(jobs) && jobs != [] && Makespan(jobs) < UINT32_MAX
      requires StandsAt(policy, slice, jobs, trace) && now == trace[|trace| - 1].now
      requires !AllDone(Tasks()) && NoneReady(Tasks(), now)
      ensures next != UINT32_MAX && now < next <= Makespan(jobs)
      ensures StandsAt(policy, slice, jobs, longer) && longer[|longer| - 1] == trace[|trace| - 1].(now := next)
    {
      ghost var s := trace[|trace| - 1];
      next := NextArrivalTime(now);
      NextArrivalExists(jobs, s.tasks, now);
      longer := trace + [s.(now := next)];
      TurnExtends(policy, slice, jobs, trace, s.(now := next));
    }

    /** The chosen task runs its turn. */
    method Turn(policy: Policy, slice: nat, b: nat, now: nat, ghost jobs: seq<Task>, ghost trace: seq<Sched>)
      returns (after: nat, ghost longer: seq<Sched>)
      requires Valid() && policy != Rr && LegalSlice(policy, slice)
      requires ValidTasks(jobs) && jobs != [] && Makespan(jobs) < UINT32_MAX
      requires StandsAt(policy, slice, jobs, trace) && now == trace[|trace| - 1].now
      requires if policy == Fcfs then FcfsChoice(Tasks(), now, b) else CfsChoice(Tasks(), now, b)
      modifies this`summary, tasks
      ensures Valid()
      ensures StandsAt(policy, slice, jobs, longer) && after == longer[|longer| - 1].now
      ensures Sum(Remaining(Tasks())) < old(Sum(Remaining(Tasks())))
      ensures summary.slice == old(summary.slice) && summary.policy == old(summary.policy)
    {
      hide Trace, SameJobs, Makespan, Sum, Remaining, FcfsLess, CfsLess;
      ghost var s := trace[|trace| - 1];
      var r := TurnLength(policy, slice, tasks[b].remaining);
      ghost var t := Execute(s, b, r, policy == CfsLite);
      TurnExtends(policy, slice, jobs, trace, t);
      ExecuteRemaining(s, b, r, policy == CfsLite);
      after := RunTask(b, r, now, policy == CfsLite, s.queue, s.discovered);
      longer := trace + [t];
    }

    /** run_fcfs, from reset tasks; `jobs` names the task table it was called on. */
    method RunFcfs(ghost jobs: seq<Task>) returns (ok: bool, ghost trace: seq<Sched>)
      requires Valid() && ValidTasks(jobs) && jobs != [] && Makespan(jobs) < UINT32_MAX
      requires StandsAt(Fcfs, 0, jobs, [Start(jobs)])
      modifies this`summary, tasks
      ensures Valid()
      ensures ok && CompleteTrace(Fcfs, 0, jobs, trace) && StandsAt(Fcfs, 0, jobs, trace)
      ensures summary.slice == old(summary.slice) && summary.policy == old(summary.policy)
    {
      hide AllDone, Trace, SameJobs, Makespan, NoneReady, FcfsChoice, CfsChoice, Sum, Remaining;
      var now := 0;
      trace := [Start(jobs)];
      var done := AllTasksComplete();
      while !done
        invariant Valid() && StandsAt(Fcfs, 0, jobs, trace) && now == trace[|trace| - 1].now
        invariant done == AllDone(Tasks())
        invariant summary.slice == old(summary.slice) && summary.policy == old(summary.policy)
        decreases Sum(Remaining(Tasks())), Makespan(jobs) - now, !done
      {
        var b := PickFcfs(now);
        if b.None? {
          var next;
          next, trace := Jump(Fcfs, 0, now, jobs, trace);
          if next == UINT32_MAX { return false, trace; }
          now := next;
        } else {
          now, trace := Turn(Fcfs, 0, b.value, now, jobs, trace);
        }
        done := AllTasksComplete();
      }
      return true, trace;
    }

    /** run_cfs_lite, from reset tasks. */
    method RunCfsLite(slice: nat, ghost jobs: seq<Task>) returns (ok: bool, ghost trace: seq<Sched>)
      requires Valid() && ValidTasks(jobs) && jobs != [] && Makespan(jobs) < UINT32_MAX
      requires StandsAt(CfsLite, slice, jobs, [Start(jobs)])
      modifies this`summary, tasks
      ensures Valid()
      ensures ok == (slice > 0)
      ensures ok ==> CompleteTrace(CfsLite, slice, jobs, trace) && StandsAt(CfsLite, slice, jobs, trace)
      ensures summary.slice == old(summary.slice) && summary.policy == old(summary.policy)
    {
      hide AllDone, Trace, SameJobs, Makespan, NoneReady, FcfsChoice, CfsChoice, Sum, Remaining;
      var now := 0;
      trace := [Start(jobs)];
      if slice == 0 { return false, trace; }
      var done := AllTasksComplete();
      while !done
        invariant Valid() && StandsAt(CfsLite, slice, jobs, trace) && now == trace[|trace| - 1].now
        invariant done == AllDone(Tasks())
        invariant summary.slice == old(summary.slice) && summary.policy == old(summary.policy)
        decreases Sum(Remaining(Tasks())), Makespan(jobs) - now, !done
      {
        var b := PickCfsLite(now);
        if b.None? {
          var next;
          next, trace := Jump(CfsLite, slice, now, jobs, trace);
          if next == UINT32_MAX { return false, trace; }
          now := next;
        } else {
          now, trace := Turn(CfsLite, slice, b.value, now, jobs, trace);
        }
        done := AllTasksComplete();
      }
      return true, trace;
    }
  
    // ----- round robin over a fixed array queue

    method RrQueueContains(queue: array<nat>, count: nat, task: nat) returns (found: bool)
      requires count <= queue.Length
      ensures found == (task in queue[..count])
    {
      var i := 0;
      while i < count
        invariant i <= count && task !in queue[..i]
      {
        if queue[i] == task { return true; }
        i := i + 1;
      }
      return false;
    }

    method RrEnqueue(queue: array<nat>, count: nat, discovered: array<bool>, task: nat, ghost now: nat)
      returns (after: nat)
      requires Valid() && queue.Length == MAX_TASKS == discovered.Length && count < MAX_TASKS && task < taskCount
      requires (queue as object) != tasks && (discovered as object) != tasks
      modifies queue, discovered
      ensures after == count + 1 && Valid()
      ensures var s := old(At(now, queue[..count], discovered[..taskCount]));
        At(now, queue[..after], discovered[..taskCount]) ==
        s.(queue := s.queue + [task], discovered := s.discovered[task := true])
    {
      queue[count] := task;
      discovered[task] := true;
      after := count + 1;
      assert queue[..after] == old(queue[..count]) + [task];
    }

    method RrEnqueueArrivals(queue: array<nat>, count: nat, discovered: array<bool>, now: nat, ghost out: nat)
      returns (after: nat)
      requires Valid() && queue.Length == MAX_TASKS == discovered.Length && count <= MAX_TASKS
      requires (queue as object) != tasks && (discovered as object) != tasks
      requires QueueOk(At(now, queue[..count], discovered[..taskCount]), out)
      modifies queue, discovered
      ensures after <= MAX_TASKS && Valid()
      ensures At(now, queue[..after], discovered[..taskCount]) ==
              Arrive(old(At(now, queue[..count], discovered[..taskCount])))
    {
      after := count;
      ghost var start := At(now, queue[..count], discovered[..taskCount]);
      ghost var s := start;
      var i := 0;
      while i < taskCount
        invariant i <= taskCount && after <= MAX_TASKS && Valid()
        invariant s == At(now, queue[..after], discovered[..taskCount]) && QueueOk(s, out)
        invariant ArriveFrom(s, i) == Arrive(start)
      {
        var queued := RrQueueContains(queue, after, i);
        if !discovered[i] && tasks[i].remaining != 0 && tasks[i].arrival <= now && !queued {
          JoinKeeps(s, i, out);
          after := RrEnqueue(queue, after, discovered, i, now);
          s := s.(queue := s.queue + [i], discovered := s.discovered[i := true]);
        }
        i := i + 1;
      }
    }

    method RrPop(queue: array<nat>, count: nat) returns (task: nat, after: nat)
      requires 0 < count <= queue.Length
      modifies queue
      ensures task == old(queue[0]) && after == count - 1
      ensures queue[..after] == old(queue[..count])[1..]
    {
      task := queue[0];
      var i := 1;
      while i < count
        invariant 1 <= i <= count
        invariant forall j :: 0 <= j < i - 1 ==> queue[j] == old(queue[j + 1])
        invariant forall j :: i - 1 <= j < queue.Length ==> queue[j] == old(queue[j])
      {
        queue[i - 1] := queue[i];
        i := i + 1;
      }
      after := count - 1;
    }
  
    /** Nobody waits: the clock jumps to the next arrival, which joins the queue. */
    method RrJump(queue: array<nat>, discovered: array<bool>, now: nat, ghost jobs: seq<Task>, ghost a: Sched)
      returns (ok: bool, ready: nat, next: nat, ghost m: Sched)
      requires Valid() && queue.Length == MAX_TASKS == discovered.Length
      requires (queue as object) != tasks && (discovered as object) != tasks
      requires a == At(now, queue[..0], discovered[..taskCount]) && RrInv(a) && !AllDone(a.tasks)
      requires forall j :: 0 <= j < |a.tasks| && Ready(a.tasks, a.now, j) ==> a.discovered[j]
      requires SameJobs(jobs, a.tasks) && Makespan(jobs) < UINT32_MAX
      modifies queue, discovered
      ensures ok && 0 < ready <= MAX_TASKS && Valid()
      ensures NextArrival(a.tasks, a.now, next) && m == Arrive(a.(now := next)) && RrInv(m)
      ensures m == At(next, queue[..ready], discovered[..taskCount])
    {
      ok, ready := false, 0;
      next := NextArrivalTime(now);
      IdleJump(a, next);
      NextArrivalExists(jobs, a.tasks, now);
      m := Arrive(a.(now := next));
      if next == UINT32_MAX { return; }
      ready := RrEnqueueArrivals(queue, 0, discovered, next, |a.tasks|);
      ok := ready != 0;
    }

    /** First half of a turn: queue the arrivals; with nobody waiting, jump to the next arrival. */
    method RrDispatch(queue: array<nat>, count: nat, discovered: array<bool>, now: nat,
                      ghost jobs: seq<Task>, ghost s: Sched)
      returns (ok: bool, ready: nat, at: nat, ghost m: Sched)
      requires Valid() && queue.Length == MAX_TASKS == discovered.Length && count <= MAX_TASKS
      requires (queue as object) != tasks && (discovered as object) != tasks
      requires s == At(now, queue[..count], discovered[..taskCount]) && RrInv(s) && !AllDone(s.tasks)
      requires SameJobs(jobs, s.tasks) && Makespan(jobs) < UINT32_MAX
      modifies queue, discovered
      ensures ok && 0 < ready <= MAX_TASKS && Valid()
      ensures m == At(at, queue[..ready], discovered[..taskCount]) && RrReady(s, m) && RrInv(m) && m.queue != []
    {
      at := now;
      ready := RrEnqueueArrivals(queue, count, discovered, at, |s.tasks|);
      ArriveKeeps(s, |s.tasks|);
      m := Arrive(s);
      ok := true;
      if ready == 0 {
        ok, ready, at, m := RrJump(queue, discovered, at, jobs, m);
      }
    }

    /** Second half of a turn: the head runs a slice, arrivals queue up, unfinished work goes to the back. */
    method RrTurn(queue: array<nat>, count: nat, discovered: array<bool>, now: nat, slice: nat, ghost m: Sched)
      returns (waiting: nat, after: nat)
      requires Valid() && queue.Length == MAX_TASKS == discovered.Length && 0 < count <= MAX_TASKS && slice > 0
      requires (queue as object) != tasks && (discovered as object) != tasks
      requires m == At(now, queue[..count], discovered[..taskCount]) && RrInv(m) && m.queue != []
      requires m.queue[0] < |m.tasks|
      requires now + Min(m.tasks[m.queue[0]].remaining, slice) < UINT32_RANGE
      modifies this`summary, tasks, queue, discovered
      ensures Valid() && waiting <= MAX_TASKS
      ensures At(after, queue[..waiting], discovered[..taskCount]) == RrSlice(m, slice)
      ensures summary.slice == old(summary.slice) && summary.policy == old(summary.policy)
    {
      HeadKeeps(m, slice);
      var b, rest := RrPop(queue, count);
      var r := if tasks[b].remaining < slice then tasks[b].remaining else slice;
      ghost var e := Execute(m.(queue := m.queue[1..]), b, r, false);
      after := RunTask(b, r, now, false, queue[..rest], discovered[..taskCount]);
      waiting := RrEnqueueArrivals(queue, rest, discovered, after, b);
      ArriveKeeps(e, b);
      if tasks[b].remaining != 0 {
        QueueFits(Arrive(e), b);
        summary := summary.(preempts := summary.preempts + 1);
        queue[waiting] := b;
        waiting := waiting + 1;
        assert queue[..waiting] == Arrive(e).queue + [b];
      }
    }
  
    /** One turn, as a turn of the run. */
    method RrStepOnce(queue: array<nat>, count: nat, discovered: array<bool>, now: nat, slice: nat,
                      ghost jobs: seq<Task>, ghost trace: seq<Sched>)
      returns (ok: bool, waiting: nat, after: nat, ghost longer: seq<Sched>)
      requires Valid() && queue.Length == MAX_TASKS == discovered.Length && count <= MAX_TASKS && slice > 0
      requires (queue as object) != tasks && (discovered as object) != tasks
      requires ValidTasks(jobs) && jobs != [] && Makespan(jobs) < UINT32_MAX
      requires Trace(Rr, slice, jobs, trace) && !AllDone(Tasks())
      requires trace[|trace| - 1] == At(now, queue[..count], discovered[..taskCount])
      modifies this`summary, tasks, queue, discovered
      ensures ok && Valid() && waiting <= MAX_TASKS && Trace(Rr, slice, jobs, longer)
      ensures longer[|longer| - 1] == At(after, queue[..waiting], discovered[..taskCount])
      ensures Sum(Remaining(Tasks())) < old(Sum(Remaining(Tasks())))
      ensures summary.slice == old(summary.slice) && summary.policy == old(summary.policy)
    {
      ghost var s := trace[|trace| - 1];
      TraceEnd(Rr, slice, jobs, trace);
      var ready, at;
      ghost var m;
      ok, ready, at, m := RrDispatch(queue, count, discovered, now, jobs, s);
      waiting, after, longer := ready, at, trace;
      if !ok { return; }
      RrSliceExtends(slice, jobs, trace, m);
      waiting, after := RrTurn(queue, ready, discovered, at, slice, m);
      longer := trace + [RrSlice(m, slice)];
    }

    /** run_rr, from reset tasks. */
    method RunRr(slice: nat, ghost jobs: seq<Task>) returns (ok: bool, ghost trace: seq<Sched>)
      requires Valid() && ValidTasks(jobs) && jobs != [] && Makespan(jobs) < UINT32_MAX
      requires StandsAt(Rr, slice, jobs, [Start(jobs)])
      modifies this`summary, tasks
      ensures Valid()
      ensures ok == (slice > 0)
      ensures ok ==> CompleteTrace(Rr, slice, jobs, trace) && StandsAt(Rr, slice, jobs, trace)
      ensures summary.slice == old(summary.slice) && summary.policy == old(summary.policy)
    {
      trace := [Start(jobs)];
      if slice == 0 { return false, trace; }
      var queue := new nat[MAX_TASKS](_ => 0);
      var discovered := new bool[MAX_TASKS](_ => false);
      var count: nat, now: nat := 0, 0;
      var done := AllTasksComplete();
      assert discovered[..taskCount] == Start(jobs).discovered;
      while !done
        invariant Valid() && count <= MAX_TASKS && done == AllDone(Tasks())
        invariant Trace(Rr, slice, jobs, trace)
        invariant trace[|trace| - 1] == At(now, queue[..count], discovered[..taskCount])
        invariant summary.slice == old(summary.slice) && summary.policy == old(summary.policy)
        decreases Sum(Remaining(Tasks())), !done
      {
        var stepped;
        stepped, count, now, trace := RrStepOnce(queue, count, discovered, now, slice, jobs, trace);
        if !stepped { return false, trace; }
        done := AllTasksComplete();
      }
      TraceEnd(Rr, slice, jobs, trace);
      return true, trace;
    }

    // ----- a run of one policy

    method ResetRuntimeFields()
      requires Valid()
      modifies tasks
      ensures Valid() && Tasks() == Start(old(Tasks())).tasks
    {
      var i := 0;
      while i < taskCount
        invariant i <= taskCount && Valid()
        invariant forall j :: 0 <= j < i ==> tasks[j] == Reset(old(tasks[j]))
        invariant forall j :: i <= j < taskCount ==> tasks[j] == old(tasks[j])
      {
        tasks[i] := tasks[i].(remaining := tasks[i].burst, completion := 0, vruntime := 0);
        i := i + 1;
      }
    }

    /** Total waiting and turnaround time of the finished tasks; no subtraction goes below zero. */
    method TotalWaitTurnaround() returns (wait: nat, turnaround: nat)
      requires Valid()
      requires Finished(Tasks())
      ensures turnaround == Sum(Turnarounds(Tasks())) % UINT32_RANGE && wait == Sum(Waits(Tasks())) % UINT32_RANGE
    {
      hide Add32, Sum;
      ghost var turnarounds, waits := Turnarounds(Tasks()), Waits(Tasks());
      wait, turnaround := 0, 0;
      NothingSummed();
      var i := 0;
      while i < taskCount
        invariant i <= taskCount
        invariant turnaround == Sum(turnarounds[..i]) % UINT32_RANGE && wait == Sum(waits[..i]) % UINT32_RANGE
      {
        SumTakeNext(turnarounds, i);
        SumTakeNext(waits, i);
        AddWrapped(Sum(turnarounds[..i]), turnarounds[i]);
        AddWrapped(Sum(waits[..i]), waits[i]);
        assert Tasks()[i] == tasks[i];
        var spent := tasks[i].completion - tasks[i].arrival;
        wait := Add32(wait, spent - tasks[i].burst);
        turnaround := Add32(turnaround, spent);
        i := i + 1;
      }
      assert turnarounds[..i] == turnarounds && waits[..i] == waits;
    }

    method UpdateWaitTurnaround()
      requires Valid() && taskCount != 0 && Finished(Tasks())
      modifies this`summary
      ensures Valid()
      ensures summary == old(summary).(
        totalWait := Sum(Waits(Tasks())) % UINT32_RANGE, totalTurnaround := Sum(Turnarounds(Tasks())) % UINT32_RANGE,
        averageWait := Average(Sum(Waits(Tasks())) % UINT32_RANGE, taskCount),
        averageTurnaround := Average(Sum(Turnarounds(Tasks())) % UINT32_RANGE, taskCount))
    {
      var wait, turnaround := TotalWaitTurnaround();
      summary := summary.(totalWait := wait, totalTurnaround := turnaround,
                          averageWait := Average(wait, taskCount), averageTurnaround := Average(turnaround, taskCount));
    }

    method RunPolicy(policy: Policy, slice: nat, ghost jobs: seq<Task>) returns (ok: bool, ghost trace: seq<Sched>)
      requires Valid() && ValidTasks(jobs) && jobs != [] && Makespan(jobs) < UINT32_MAX
      requires StandsAt(policy, if policy == Fcfs then 0 else slice, jobs, [Start(jobs)])
      modifies this`summary, tasks
      ensures Valid()
      ensures ok == (policy == Fcfs || slice > 0)
      ensures ok ==> var used := if policy == Fcfs then 0 else slice;
        CompleteTrace(policy, used, jobs, trace) && StandsAt(policy, used, jobs, trace)
    {
      match policy {
        case Fcfs => ok, trace := RunFcfs(jobs);
        case Rr => ok, trace := RunRr(slice, jobs);
        case CfsLite => ok, trace := RunCfsLite(slice, jobs);
      }
    }

    /** course_scheduler_run: resets, runs the policy to completion, then sums up. */
    method Run(policy: Policy, slice: nat) returns (ok: bool, ghost trace: seq<Sched>)
      requires Valid() && Makespan(Tasks()) < UINT32_MAX
      modifies this`summary, tasks
      ensures Valid()
      ensures ok == (old(taskCount) != 0 && (policy == Fcfs || slice > 0))
      ensures ok ==>
        && CompleteTrace(policy, if policy == Fcfs then 0 else slice, old(Tasks()), trace)
        && Tasks() == trace[|trace| - 1].tasks
        && summary.switches == trace[|trace| - 1].switches && summary.cost == trace[|trace| - 1].cost
        && summary.preempts == trace[|trace| - 1].preempts
        && LargestCompletion(Tasks()) == Makespan(old(Tasks()))
        && Finished(Tasks())
        && summary.totalTurnaround == Sum(Turnarounds(Tasks())) % UINT32_RANGE
        && summary.totalWait == Sum(Waits(Tasks())) % UINT32_RANGE
    {
      hide Trace, SameJobs, Makespan, LargestCompletion, Sum;
      ghost var jobs := Tasks();
      trace := [Start(jobs)];
      if taskCount == 0 { return false, trace; }
      ResetRuntimeFields();
      var used := if policy == Fcfs then 0 else slice;
      summary := Summary(policy, 0, 0, 0, used, 0, 0, 0, 0, 0);
      StartTrace(policy, used, jobs);
      assert At(0, Start(jobs).queue, Start(jobs).discovered) == Start(jobs);
      ok, trace := RunPolicy(policy, slice, jobs);
      if !ok { return; }
      ghost var end := trace[|trace| - 1];
      assert At(end.now, end.queue, end.discovered) == end;
      PolicyIndependentMakespan(policy, used, jobs, trace);
      TraceEnd(policy, used, jobs, trace);
      UpdateWaitTurnaround();
    }
  }

  ghost predicate Finished(tasks: seq<Task>)
  {
    forall i :: 0 <= i < |tasks| ==> tasks[i].completion >= tasks[i].arrival + tasks[i].burst
  }

  ghost function Turnarounds(tasks: seq<Task>): (r: seq<nat>)
    requires Finished(tasks)
    ensures |r| == |tasks|
    ensures forall i :: 0 <= i < |tasks| ==> r[i] == tasks[i].completion - tasks[i].arrival
  {
    seq(|tasks|, i requires 0 <= i < |tasks| => tasks[i].completion - tasks[i].arrival)
  }

  ghost function Waits(tasks: seq<Task>): (r: seq<nat>)
    requires Finished(tasks)
    ensures |r| == |tasks|
    ensures forall i :: 0 <= i < |tasks| ==> r[i] == tasks[i].completion - tasks[i].arrival - tasks[i].burst
  {
    seq(|tasks|, i requires 0 <= i < |tasks| => tasks[i].completion - tasks[i].arrival - tasks[i].burst)
  }
}
