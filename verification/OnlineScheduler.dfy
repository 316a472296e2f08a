/** The online scheduler over a process table: slots updated in place by each timer tick. */
module OnlineScheduler {
  import opened CourseProcessTypes
  import opened CourseProcess
  import opened ProcessStates
  import opened SchedulerModel
  import opened O = OnlineModel

  class OnlineScheduler {
    const table: ProcessTable
    const slots: array<Slot>
    var taskCount: nat
    var currentIndex: nat
    var sliceUsed: nat
    var policy: Policy
    var timeSlice: nat
    var ticks: nat
    var idleTicks: nat
    var currentPid: nat
    var switches: nat
    var lastCost: nat
    var cost: nat
    var preempts: nat

    ghost predicate Valid()
      reads this, slots, table, table.processes, table.cowPages
    {
      && slots.Length == MAX_TASKS && taskCount <= MAX_TASKS && table.Valid()
      && (slots as object) != table.processes && (slots as object) != table.cowPages
    }

    ghost function Model(): (r: Online)
      requires taskCount <= slots.Length
      reads this, slots
    {
      Online(slots[..taskCount], currentIndex, sliceUsed, policy, timeSlice, ticks, idleTicks, currentPid,
             switches, lastCost, cost, preempts)
    }

    ghost function Now(): (r: States)
      reads table, table.processes
    {
      StatesOf(table.processes[..])
    }

    /** init, then bind_process_table. */
    constructor (processes: ProcessTable)
      requires processes.Valid()
      ensures Valid() && Model() == Init() && table == processes && fresh(slots)
    {
      table := processes;
      slots := new Slot[MAX_TASKS](_ => Slot(0, 0, 0));
      taskCount, currentIndex, sliceUsed := 0, NO_INDEX, 0;
      policy, timeSlice, ticks, idleTicks, currentPid := Fcfs, 0, 0, 0, 0;
      switches, lastCost, cost, preempts := 0, 0, 0, 0;
    }

    method Configure(newPolicy: Policy, slice: nat) returns (ok: bool)
      requires Valid()
      modifies this
      ensures Valid()
      ensures (Model(), ok) == O.Configure(old(Model()), newPolicy, slice)
    {
      if newPolicy != Fcfs && slice == 0 { return false; }
      policy := newPolicy;
      timeSlice := if newPolicy == Fcfs then 0 else slice;
      currentIndex, currentPid, sliceUsed := NO_INDEX, 0, 0;
      return true;
    }

    method AddProcess(pid: nat) returns (ok: bool)
      requires Valid()
      modifies this`taskCount, slots
      ensures Valid()
      ensures (Model(), ok) == O.AddProcess(old(Model()), Now(), pid)
    {
      if pid == 0 || taskCount >= MAX_TASKS { return false; }
      var p := table.FindProcess(pid);
      StatesAreFound(table.processes[..], pid);
      if p.None? || table.processes[p.value].state in {Unused, Zombie, Dead} { return false; }
      var i := 0;
      while i < taskCount
        invariant i <= taskCount && forall j :: 0 <= j < i ==> slots[j].pid != pid
      {
        if slots[i].pid == pid {
          assert Model().slots[i].pid == pid;
          return false;
        }
        i := i + 1;
      }
      slots[taskCount] := Slot(pid, 0, 0);
      taskCount := taskCount + 1;
      assert slots[..taskCount] == old(slots[..taskCount]) + [Slot(pid, 0, 0)];
      return true;
    }

    /** Whether slot i's process is known and in this state. */
    method SlotHas(i: nat, state: State) returns (r: bool)
      requires Valid()
      ensures r == Has(Model(), Now(), i, state)
    {
      if i >= taskCount { return false; }
      var p := table.FindProcess(slots[i].pid);
      StatesAreFound(table.processes[..], slots[i].pid);
      return p.Some? && table.processes[p.value].state == state;
    }

    method SetProcessState(pid: nat, state: State) returns (ok: bool)
      requires Valid() && state != Unused
      modifies table.processes
      ensures Valid()
      ensures ok == (pid in old(Now())) && Now() == SetState(old(Now()), pid, state)
    {
      ghost var procs := table.processes[..];
      StatesAreFound(procs, pid);
      ok := table.SetState(pid, state);
      if ok {
        SetStateMaps(procs, pid, Find(procs, pid).value, state);
        assert table.Model().procs == table.processes[..];
      } else {
        assert table.Model().procs == table.processes[..];
      }
    }

    method ReleaseCurrent()
      requires Valid()
      modifies this, table.processes
      ensures Valid()
      ensures (Model(), Now()) == Release(old(Model()), old(Now()))
    {
      var running := SlotHas(currentIndex, Running);
      if running {
        var _ := SetProcessState(slots[currentIndex].pid, State.Ready);
      }
      currentIndex, currentPid, sliceUsed := NO_INDEX, 0, 0;
    }

    method PickFcfs() returns (r: nat)
      requires Valid()
      ensures r == PickFcfsFrom(Model(), Now(), 0)
    {
      var i := 0;
      while i < taskCount
        invariant i <= taskCount
        invariant PickFcfsFrom(Model(), Now(), i) == PickFcfsFrom(Model(), Now(), 0)
      {
        var ready := SlotHas(i, State.Ready);
        if ready { return i; }
        i := i + 1;
      }
      return NO_INDEX;
    }

    method PickRoundRobin(previous: nat) returns (r: nat)
      requires Valid()
      ensures r == PickRr(Model(), Now(), previous)
    {
      hide StatesOf;
      if taskCount == 0 { return NO_INDEX; }
      var start := if previous == NO_INDEX then 0 else (previous + 1) % taskCount;
      var step := 0;
      while step < taskCount
        invariant step <= taskCount
        invariant PickRrFrom(Model(), Now(), start, step) == PickRr(Model(), Now(), previous)
      {
        var index := RingIndex(start, step, taskCount);
        var ready := SlotHas(index, State.Ready);
        if ready { return index; }
        step := step + 1;
      }
      return NO_INDEX;
    }

    /** READY, or RUNNING in the current slot. */
    method SlotIsCandidate(i: nat) returns (r: bool)
      requires Valid()
      ensures r == Candidate(Model(), Now(), i)
    {
      r := SlotHas(i, State.Ready);
      if !r && i == currentIndex {
        r := SlotHas(i, Running);
      }
    }

    method PickCfsLite() returns (best: nat)
      requires Valid()
      ensures best == PickCfs(Model(), Now(), taskCount)
    {
      best := NO_INDEX;
      var i := 0;
      while i < taskCount
        invariant i <= taskCount
        invariant best == PickCfs(Model(), Now(), i)
      {
        var candidate := SlotIsCandidate(i);
        if candidate {
          if best == NO_INDEX || slots[i].vruntime < slots[best].vruntime
             || (slots[i].vruntime == slots[best].vruntime && slots[i].pid < slots[best].pid) {
            best := i;
          }
        }
        i := i + 1;
      }
    }

    /** A RUNNING predecessor with another pid goes back to READY. */
    method DemoteCurrent(pid: nat)
      requires Valid()
      modifies table.processes
      ensures Valid()
      ensures var o, st := old(Model()), old(Now());
        Now() == if o.current < |o.slots| && o.slots[o.current].pid != pid && Has(o, st, o.current, Running)
                 then SetState(st, o.slots[o.current].pid, State.Ready) else st
    {
      if currentIndex < taskCount && slots[currentIndex].pid != pid {
        var still := SlotHas(currentIndex, Running);
        if still {
          var _ := SetProcessState(slots[currentIndex].pid, State.Ready);
        }
      }
    }

    /** The switch is counted when the pid changes; the slot becomes current with a fresh slice. */
    method EnterSlot(next: nat, pid: nat)
      requires Valid()
      modifies this
      ensures Valid()
      ensures var o := old(Model());
        Model() == (if o.currentPid == pid then o
                    else o.(switches := o.switches + 1, lastCost := SWITCH_COST, cost := o.cost + SWITCH_COST))
                   .(current := next, currentPid := pid, sliceUsed := 0)
    {
      if currentPid != pid {
        switches, lastCost, cost := switches + 1, SWITCH_COST, cost + SWITCH_COST;
      }
      currentIndex, currentPid, sliceUsed := next, pid, 0;
    }

    method SelectSlot(next: nat) returns (ok: bool)
      requires Valid()
      modifies this, table.processes
      ensures Valid()
      ensures (Model(), Now(), ok) == Select(old(Model()), old(Now()), next)
    {
      hide StatesOf;
      if next >= taskCount {
        currentPid, currentIndex, sliceUsed := 0, NO_INDEX, 0;
        return true;
      }
      var candidate := SlotIsCandidate(next);
      if !candidate { return false; }
      var pid := slots[next].pid;
      ok := SetProcessState(pid, Running);
      DemoteCurrent(pid);
      EnterSlot(next, pid);
    }

    method SelectNextSlot(previous: nat) returns (ok: bool)
      requires Valid()
      modifies this, table.processes
      ensures Valid()
      ensures (Model(), Now(), ok) == SelectNext(old(Model()), old(Now()), previous)
    {
      var next;
      match policy {
        case Fcfs => next := PickFcfs();
        case Rr => next := PickRoundRobin(previous);
        case CfsLite => next := PickCfsLite();
      }
      ok := SelectSlot(next);
    }

    /** The current slot is running: keep it, or preempt by time slice or by vruntime. */
    method KeepOrPreempt() returns (ok: bool)
      requires Valid() && CurrentRunning(Model(), Now())
      modifies this, table.processes
      ensures Valid()
      ensures (Model(), Now(), ok) == Prepare(old(Model()), old(Now()))
    {
      hide Select, SelectNext;
      ok := true;
      if policy == Rr && sliceUsed >= timeSlice {
        preempts := preempts + 1;
        ok := SelectNextSlot(currentIndex);
      } else if policy == CfsLite {
        var next := PickCfsLite();
        if next != NO_INDEX && next != currentIndex {
          ok := SelectSlot(next);
        }
      }
    }

    method PrepareCurrent() returns (ok: bool)
      requires Valid()
      modifies this, table.processes
      ensures Valid()
      ensures (Model(), Now(), ok) == Prepare(old(Model()), old(Now()))
    {
      var previous := currentIndex;
      var running := SlotHas(currentIndex, Running);
      if running {
        ok := KeepOrPreempt();
      } else {
        ReleaseCurrent();
        ok := SelectNextSlot(previous);
      }
    }

    method CreditCurrent()
      requires Valid()
      modifies this, slots
      ensures Valid()
      ensures Model() == Credit(old(Model()), Now())
    {
      var running := SlotHas(currentIndex, Running);
      if !running {
        currentPid, idleTicks := 0, idleTicks + 1;
        return;
      }
      var slot := slots[currentIndex];
      slots[currentIndex] := slot.(runTicks := slot.runTicks + 1, vruntime := slot.vruntime + 1);
      sliceUsed := sliceUsed + 1;
      assert slots[..taskCount] == old(slots[..taskCount])[currentIndex := slots[currentIndex]];
    }

    /** A timer tick; once configured it always succeeds (TickEffect). */
    method Tick() returns (ok: bool)
      requires Valid()
      modifies this, slots, table.processes
      ensures Valid()
      ensures (Model(), Now(), ok) == O.Tick(old(Model()), old(Now()))
    {
      hide Prepare;
      if policy != Fcfs && timeSlice == 0 { return false; }
      ticks := ticks + 1;
      ok := PrepareCurrent();
      if ok {
        CreditCurrent();
      }
    }
  }
}
