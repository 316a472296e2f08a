/** The online scheduler as values: what a timer tick does to it and to the process states. */
module OnlineModel {
  import opened CourseProcessTypes
  import opened ProcessStates
  import opened SchedulerModel

  const NO_INDEX := MAX_TASKS
  const SWITCH_COST := 1

  datatype Slot = Slot(pid: nat, vruntime: nat, runTicks: nat)

  datatype Online = Online(
    slots: seq<Slot>, current: nat, sliceUsed: nat, policy: Policy, timeSlice: nat,
    ticks: nat, idleTicks: nat, currentPid: nat,
    switches: nat, lastCost: nat, cost: nat, preempts: nat)

  /** What configure accepts, and tick insists on. */
  predicate Configured(o: Online)
  {
    o.policy == Fcfs || o.timeSlice != 0
  }

  predicate Has(o: Online, st: States, i: nat, state: State)
  {
    i < |o.slots| && o.slots[i].pid in st && st[o.slots[i].pid] == state
  }

  predicate Runnable(o: Online, st: States, i: nat)
  {
    Has(o, st, i, State.Ready)
  }

  predicate Candidate(o: Online, st: States, i: nat)
  {
    Has(o, st, i, State.Ready) || (i == o.current && Has(o, st, i, Running))
  }

  predicate CurrentRunning(o: Online, st: States)
  {
    Has(o, st, o.current, Running)
  }

  function Release(o: Online, st: States): (r: (Online, States))
  {
    var st' := if CurrentRunning(o, st) then SetState(st, o.slots[o.current].pid, State.Ready) else st;
    (o.(current := NO_INDEX, currentPid := 0, sliceUsed := 0), st')
  }

  /** First runnable slot from i on, wrapping nothing; NO_INDEX when there is none. */
  function PickFcfsFrom(o: Online, st: States, i: nat): (r: nat)
    requires i <= |o.slots| <= MAX_TASKS
    ensures r != NO_INDEX ==>
      i <= r < |o.slots| && Runnable(o, st, r) && forall j :: i <= j < r ==> !Runnable(o, st, j)
    ensures r == NO_INDEX ==> forall j :: i <= j < |o.slots| ==> !Runnable(o, st, j)
    decreases |o.slots| - i
  {
    if i == |o.slots| then NO_INDEX else if Runnable(o, st, i) then i else PickFcfsFrom(o, st, i + 1)
  }

  /** The step-th slot of the ring that starts at `start`. */
  function RingIndex(start: nat, step: nat, n: nat): (r: nat)
    requires n > 0
    ensures r < n
  {
    (start + step) % n
  }

  function RrStart(o: Online, previous: nat): (r: nat)
    requires |o.slots| > 0
  {
    if previous == NO_INDEX then 0 else (previous + 1) % |o.slots|
  }

  function PickRrFrom(o: Online, st: States, start: nat, step: nat): (r: nat)
    requires 0 < |o.slots| <= MAX_TASKS && step <= |o.slots|
    ensures r != NO_INDEX ==> r < |o.slots| && Runnable(o, st, r)
    ensures r == NO_INDEX ==>
      forall k :: step <= k < |o.slots| ==> !Runnable(o, st, RingIndex(start, k, |o.slots|))
    decreases |o.slots| - step
  {
    if step == |o.slots| then NO_INDEX
    else if Runnable(o, st, RingIndex(start, step, |o.slots|)) then RingIndex(start, step, |o.slots|)
    else PickRrFrom(o, st, start, step + 1)
  }

  function PickRr(o: Online, st: States, previous: nat): (r: nat)
    requires |o.slots| <= MAX_TASKS
  {
    if o.slots == [] then NO_INDEX else PickRrFrom(o, st, RrStart(o, previous), 0)
  }

  /** Smaller vruntime first, then smaller pid. */
  predicate RunsBefore(o: Online, a: nat, b: nat)
    requires a < |o.slots| && b < |o.slots|
  {
    o.slots[a].vruntime < o.slots[b].vruntime
    || (o.slots[a].vruntime == o.slots[b].vruntime && o.slots[a].pid < o.slots[b].pid)
  }

  /** The candidate nobody runs before, among the first n slots. */
  function PickCfs(o: Online, st: States, n: nat): (r: nat)
    requires n <= |o.slots| <= MAX_TASKS
    ensures r != NO_INDEX ==> r < n && Candidate(o, st, r)
    ensures r != NO_INDEX ==> forall j :: 0 <= j < n && Candidate(o, st, j) ==> !RunsBefore(o, j, r)
    ensures r == NO_INDEX ==> forall j :: 0 <= j < n ==> !Candidate(o, st, j)
  {
    if n == 0 then NO_INDEX
    else
      var best := PickCfs(o, st, n - 1);
      if !Candidate(o, st, n - 1) then best
      else if best == NO_INDEX || RunsBefore(o, n - 1, best) then n - 1
      else best
  }

  /** online_select: false when the chosen slot is no candidate or its process is gone. */
  function Select(o: Online, st: States, next: nat): (r: (Online, States, bool))
  {
    if next >= |o.slots| then (o.(currentPid := 0, current := NO_INDEX, sliceUsed := 0), st, true)
    else if !Candidate(o, st, next) then (o, st, false)
    else
      var pid := o.slots[next].pid;
      var st1 := SetState(st, pid, Running);
      var st2 :=
        if o.current < |o.slots| && o.slots[o.current].pid != pid && Has(o, st1, o.current, Running)
        then SetState(st1, o.slots[o.current].pid, State.Ready) else st1;
      var switched := if o.currentPid == pid then o
        else o.(switches := o.switches + 1, lastCost := SWITCH_COST, cost := o.cost + SWITCH_COST);
      (switched.(current := next, currentPid := pid, sliceUsed := 0), st2, true)
  }

  function SelectNext(o: Online, st: States, previous: nat): (r: (Online, States, bool))
    requires |o.slots| <= MAX_TASKS
  {
    match o.policy
    case Fcfs => Select(o, st, PickFcfsFrom(o, st, 0))
    case Rr => Select(o, st, PickRr(o, st, previous))
    case CfsLite => Select(o, st, PickCfs(o, st, |o.slots|))
  }

  function Prepare(o: Online, st: States): (r: (Online, States, bool))
    requires |o.slots| <= MAX_TASKS
  {
    if !CurrentRunning(o, st) then
      var (released, st') := Release(o, st);
      SelectNext(released, st', o.current)
    else match o.policy
      case Fcfs => (o, st, true)
      case Rr =>
        if o.sliceUsed >= o.timeSlice then SelectNext(o.(preempts := o.preempts + 1), st, o.current)
        else (o, st, true)
      case CfsLite =>
        var next := PickCfs(o, st, |o.slots|);
        if next != NO_INDEX && next != o.current then Select(o, st, next) else (o, st, true)
  }

  /** The prepared tick is credited to the current slot, or counted idle. */
  function Credit(p: Online, st: States): (r: Online)
  {
    if !CurrentRunning(p, st) then p.(currentPid := 0, idleTicks := p.idleTicks + 1)
    else
      var slot := p.slots[p.current];
      p.(slots := p.slots[p.current := slot.(runTicks := slot.runTicks + 1, vruntime := slot.vruntime + 1)],
         sliceUsed := p.sliceUsed + 1)
  }

  function Tick(o: Online, st: States): (r: (Online, States, bool))
    requires |o.slots| <= MAX_TASKS
  {
    if !Configured(o) then (o, st, false)
    else
      var (p, st', ok) := Prepare(o.(ticks := o.ticks + 1), st);
      (if ok then Credit(p, st') else p, st', ok)
  }

  function Configure(o: Online, policy: Policy, timeSlice: nat): (r: (Online, bool))
  {
    if policy != Fcfs && timeSlice == 0 then (o, false)
    else (o.(policy := policy, timeSlice := if policy == Fcfs then 0 else timeSlice,
             current := NO_INDEX, currentPid := 0, sliceUsed := 0), true)
  }

  function AddProcess(o: Online, st: States, pid: nat): (r: (Online, bool))
  {
    if pid == 0 || |o.slots| >= MAX_TASKS then (o, false)
    else if pid !in st || st[pid] in {Unused, Zombie, Dead} then (o, false)
    else if exists i :: 0 <= i < |o.slots| && o.slots[i].pid == pid then (o, false)
    else (o.(slots := o.slots + [Slot(pid, 0, 0)]), true)
  }

  /** course_online_scheduler_init, then bound to a process table. */
  function Init(): (r: Online)
  {
    Online([], NO_INDEX, 0, Fcfs, 0, 0, 0, 0, 0, 0, 0, 0)
  }
}
