/** The offline scheduler as values: its tasks, one turn of each policy's loop, and runs of turns. */
module SchedulerModel {

  const MAX_TASKS := 8
  const UINT32_MAX := 0xffff_ffff

  datatype Policy = Fcfs | Rr | CfsLite

  datatype Task = Task(
    pid: nat, arrival: nat, burst: nat, remaining: nat, completion: nat, vruntime: nat)

  /** Everything one turn of a policy's loop reads or writes. */
  datatype Sched = Sched(
    tasks: seq<Task>, now: nat, queue: seq<nat>, discovered: seq<bool>,
    switches: nat, lastCost: nat, cost: nat, preempts: nat)

  predicate AllDone(tasks: seq<Task>)
  {
    forall i :: 0 <= i < |tasks| ==> tasks[i].remaining == 0
  }

  predicate Ready(tasks: seq<Task>, now: nat, i: nat)
  {
    i < |tasks| && tasks[i].remaining != 0 && tasks[i].arrival <= now
  }

  ghost predicate NoneReady(tasks: seq<Task>, now: nat)
  {
    forall i :: 0 <= i < |tasks| ==> !Ready(tasks, now, i)
  }

  /** (arrival, pid, index), lexicographically. */
  predicate FcfsLess(tasks: seq<Task>, a: nat, b: nat)
    requires a < |tasks| && b < |tasks|
  {
    || tasks[a].arrival < tasks[b].arrival
    || (tasks[a].arrival == tasks[b].arrival && tasks[a].pid < tasks[b].pid)
    || (tasks[a].arrival == tasks[b].arrival && tasks[a].pid == tasks[b].pid && a < b)
  }

  /** (vruntime, arrival, pid, index), lexicographically. */
  predicate CfsLess(tasks: seq<Task>, a: nat, b: nat)
    requires a < |tasks| && b < |tasks|
  {
    || tasks[a].vruntime < tasks[b].vruntime
    || (tasks[a].vruntime == tasks[b].vruntime && FcfsLess(tasks, a, b))
  }

  /** The ready task that comes first in the policy's order. */
  ghost predicate FcfsChoice(tasks: seq<Task>, now: nat, b: nat)
  {
    Ready(tasks, now, b) && forall j :: 0 <= j < |tasks| && Ready(tasks, now, j) && j != b ==> FcfsLess(tasks, b, j)
  }

  ghost predicate CfsChoice(tasks: seq<Task>, now: nat, b: nat)
  {
    Ready(tasks, now, b) && forall j :: 0 <= j < |tasks| && Ready(tasks, now, j) && j != b ==> CfsLess(tasks, b, j)
  }

  /** The earliest arrival after now among unfinished tasks. */
  ghost predicate NextArrival(tasks: seq<Task>, now: nat, next: nat)
  {
    && (exists i :: 0 <= i < |tasks| && tasks[i].remaining != 0 && tasks[i].arrival == next)
    && now < next
    && (forall i :: 0 <= i < |tasks| && tasks[i].remaining != 0 && tasks[i].arrival > now ==> next <= tasks[i].arrival)
  }

  function Min(a: nat, b: nat): (r: nat)
  {
    if a < b then a else b
  }

  /** Run task b for r units: the switch is recorded, and completion stamped when nothing is left. */
  function Execute(s: Sched, b: nat, r: nat, fair: bool): (t: Sched)
    requires b < |s.tasks| && r <= s.tasks[b].remaining
  {
    var task := s.tasks[b];
    var left := task.remaining - r;
    s.(tasks := s.tasks[b := task.(
         remaining := left,
         completion := if left == 0 then s.now + r else task.completion,
         vruntime := if fair then task.vruntime + r else task.vruntime)],
       now := s.now + r,
       switches := s.switches + 1, lastCost := r, cost := s.cost + r)
  }

  ghost predicate Idle(s: Sched, t: Sched)
  {
    NoneReady(s.tasks, s.now) && NextArrival(s.tasks, s.now, t.now) && t == s.(now := t.now)
  }

  ghost predicate FcfsStep(s: Sched, t: Sched)
  {
    || Idle(s, t)
    || exists b: nat :: FcfsChoice(s.tasks, s.now, b) && t == Execute(s, b, s.tasks[b].remaining, false)
  }

  ghost predicate CfsStep(slice: nat, s: Sched, t: Sched)
  {
    || Idle(s, t)
    || exists b: nat :: CfsChoice(s.tasks, s.now, b) && t == Execute(s, b, Min(s.tasks[b].remaining, slice), true)
  }

  /** rr_enqueue_arrivals from task i on. */
  function ArriveFrom(s: Sched, i: nat): (t: Sched)
    requires i <= |s.tasks| == |s.discovered|
    ensures t == s.(queue := t.queue, discovered := t.discovered) && |t.discovered| == |s.discovered|
    decreases |s.tasks| - i
  {
    if i == |s.tasks| then s
    else if !s.discovered[i] && Ready(s.tasks, s.now, i) && i !in s.queue then
      ArriveFrom(s.(queue := s.queue + [i], discovered := s.discovered[i := true]), i + 1)
    else ArriveFrom(s, i + 1)
  }

  function Arrive(s: Sched): (t: Sched)
    requires |s.tasks| == |s.discovered|
    ensures t == s.(queue := t.queue, discovered := t.discovered) && |t.discovered| == |s.discovered|
  {
    ArriveFrom(s, 0)
  }

  /** The queue's head runs one slice; arrivals during the slice queue up before it does again. */
  function RrSlice(s: Sched, slice: nat): (t: Sched)
    requires |s.tasks| == |s.discovered| && s.queue != [] && s.queue[0] < |s.tasks|
  {
    var b := s.queue[0];
    var ran := Arrive(Execute(s.(queue := s.queue[1..]), b, Min(s.tasks[b].remaining, slice), false));
    if ran.tasks[b].remaining == 0 then ran
    else ran.(queue := ran.queue + [b], preempts := ran.preempts + 1)
  }

  /** The state whose queue head runs in this turn: after arrivals, and after the jump if nobody waits. */
  ghost predicate RrReady(s: Sched, m: Sched)
    requires |s.tasks| == |s.discovered|
  {
    var a := Arrive(s);
    if a.queue != [] then m == a
    else exists next: nat :: NextArrival(a.tasks, a.now, next) && m == Arrive(a.(now := next)) && m.queue != []
  }

  ghost predicate RrStep(slice: nat, s: Sched, t: Sched)
  {
    && |s.tasks| == |s.discovered|
    && exists m :: RrReady(s, m) && m.queue != [] && m.queue[0] < |m.tasks| && t == RrSlice(m, slice)
  }

  ghost predicate Step(policy: Policy, slice: nat, s: Sched, t: Sched)
  {
    match policy
    case Fcfs => FcfsStep(s, t)
    case Rr => RrStep(slice, s, t)
    case CfsLite => CfsStep(slice, s, t)
  }

  /** reset_runtime_fields. */
  function Reset(task: Task): (r: Task)
  {
    task.(remaining := task.burst, completion := 0, vruntime := 0)
  }

  /** What add_task admits. */
  predicate ValidTasks(tasks: seq<Task>)
  {
    |tasks| <= MAX_TASKS && forall i :: 0 <= i < |tasks| ==> tasks[i].burst > 0 && tasks[i].pid > 0
  }

  function Start(tasks: seq<Task>): (r: Sched)
    ensures |r.tasks| == |tasks| && forall i :: 0 <= i < |tasks| ==> r.tasks[i] == Reset(tasks[i])
  {
    Sched(seq(|tasks|, i requires 0 <= i < |tasks| => Reset(tasks[i])), 0, [], seq(|tasks|, _ => false), 0, 0, 0, 0)
  }

  /** Turn k of a run begins with work left. */
  ghost predicate TurnAt(policy: Policy, slice: nat, trace: seq<Sched>, k: nat)
    requires k + 1 < |trace|
  {
    !AllDone(trace[k].tasks) && Step(policy, slice, trace[k], trace[k + 1])
  }

  /** The loop heads of a run, from the start on. */
  ghost predicate Trace(policy: Policy, slice: nat, tasks: seq<Task>, trace: seq<Sched>): (r: bool)
    ensures r ==> |trace| > 0
  {
    && |trace| > 0
    && trace[0] == Start(tasks)
    && (forall k :: 0 <= k < |trace| - 1 ==> TurnAt(policy, slice, trace, k))
  }
}
