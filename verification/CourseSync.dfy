/** Semaphores and mutexes as the kernel keeps them: a waiter array shifted in place, process states set in
    the table. */
module CourseSync {
  import opened CourseProcessTypes
  import opened CourseProcess
  import opened ProcessStates
  import opened SyncModel

  /** pop_waiter: the head leaves, the others move up one place. */
  method PopWaiter(waiters: array<nat>, count: nat) returns (pid: nat, left: nat)
    requires waiters.Length == MAX_WAITERS && count <= MAX_WAITERS
    requires forall k :: 0 <= k < count ==> waiters[k] != 0
    modifies waiters
    ensures left == if count == 0 then 0 else count - 1
    ensures count == 0 ==> pid == 0
    ensures count > 0 ==> pid != 0 && pid == old(waiters[0]) && waiters[..left] == old(waiters[1..count])
    ensures forall k :: 0 <= k < left ==> waiters[k] != 0
  {
    if count == 0 { return 0, 0; }
    pid := waiters[0];
    var i: nat := 1;
    while i < count
      invariant 1 <= i <= count
      invariant forall k :: 0 <= k < i - 1 ==> waiters[k] == old(waiters[k + 1])
      invariant forall k :: i - 1 <= k < count ==> waiters[k] == old(waiters[k])
    {
      waiters[i - 1] := waiters[i];
      i := i + 1;
    }
    left := count - 1;
    waiters[left] := 0;
  }

  /** enqueue_waiter: at the back, unless the array is full. */
  method EnqueueWaiter(waiters: array<nat>, count: nat, pid: nat) returns (ok: bool, more: nat)
    requires waiters.Length == MAX_WAITERS && count <= MAX_WAITERS && pid != 0
    requires forall k :: 0 <= k < count ==> waiters[k] != 0
    modifies waiters
    ensures ok == (count < MAX_WAITERS) && more == if ok then count + 1 else count
    ensures waiters[..more] == if ok then old(waiters[..count]) + [pid] else old(waiters[..count])
    ensures forall k :: 0 <= k < more ==> waiters[k] != 0
  {
    if count >= MAX_WAITERS { return false, count; }
    waiters[count] := pid;
    return true, count + 1;
  }

  /** find_process: a process that is neither dead nor unused. */
  method FindAlive(table: ProcessTable, pid: nat) returns (alive: bool)
    requires table.Valid()
    ensures alive == Alive(StatesOf(table.processes[..]), pid)
  {
    var p := table.FindProcess(pid);
    StatesAreFound(table.processes[..], pid);
    return p.Some? && table.processes[p.value].state != Dead && table.processes[p.value].state != Unused;
  }

  /** Setting a process state, seen by pid. */
  method ChangeState(table: ProcessTable, pid: nat, state: State) returns (ok: bool)
    requires table.Valid() && state != Unused
    modifies table.processes
    ensures table.Valid()
    ensures ok == (pid in old(StatesOf(table.processes[..])))
    ensures StatesOf(table.processes[..]) == SetState(old(StatesOf(table.processes[..])), pid, state)
  {
    ghost var procs := table.processes[..];
    StatesAreFound(procs, pid);
    if Find(procs, pid).Some? { SetStateMaps(procs, pid, Find(procs, pid).value, state); }
    hide StatesOf;
    ok := table.SetState(pid, state);
  }

  class CourseSemaphore {
    const table: ProcessTable
    const waiters: array<nat>
    var waiterCount: nat
    var value: int

    ghost predicate Valid()
      reads this, waiters, table, table.processes, table.cowPages
    {
      && waiters.Length == MAX_WAITERS && waiterCount <= MAX_WAITERS && table.Valid()
      && (waiters as object) != table.processes && (waiters as object) != table.cowPages
      && forall k :: 0 <= k < waiterCount ==> waiters[k] != 0
    }

    ghost function Model(): (r: Semaphore)
      requires waiterCount <= waiters.Length
      reads this, waiters
    {
      Semaphore(value, waiters[..waiterCount])
    }

    ghost function Now(): (r: States)
      reads table, table.processes
    {
      StatesOf(table.processes[..])
    }

    constructor (processes: ProcessTable, initial: int)
      requires processes.Valid()
      ensures Valid() && table == processes && Model() == Semaphore(initial, []) && fresh(waiters)
    {
      table, value, waiterCount := processes, initial, 0;
      waiters := new nat[MAX_WAITERS](_ => 0);
    }

    method Wait(pid: nat) returns (result: Result)
      requires Valid()
      modifies this, waiters, table.processes
      ensures Valid()
      ensures (Model(), Now(), result) == SemWait(old(Model()), old(Now()), pid)
    {
      hide StatesOf;
      var alive := FindAlive(table, pid);
      if !alive { return BadProcess; }
      if value > 0 {
        value := value - 1;
        return Ok;
      }
      var ok;
      ok, waiterCount := EnqueueWaiter(waiters, waiterCount, pid);
      if !ok { return BadProcess; }
      ok := ChangeState(table, pid, Blocked);
      return if ok then Blocks else BadProcess;
    }

    method Post() returns (result: Result)
      requires Valid()
      modifies this, waiters, table.processes
      ensures Valid()
      ensures (Model(), Now(), result) == SemPost(old(Model()), old(Now()))
    {
      hide StatesOf;
      var pid: nat;
      pid, waiterCount := PopWaiter(waiters, waiterCount);
      if pid != 0 {
        var ok := ChangeState(table, pid, State.Ready);
        return if ok then Ok else BadProcess;
      }
      value := value + 1;
      return Ok;
    }
  }

  class CourseMutex {
    const table: ProcessTable
    const waiters: array<nat>
    var waiterCount: nat
    var ownerPid: nat
    var misuseGuardCount: nat

    ghost predicate Valid()
      reads this, waiters, table, table.processes, table.cowPages
    {
      && waiters.Length == MAX_WAITERS && waiterCount <= MAX_WAITERS && table.Valid()
      && (waiters as object) != table.processes && (waiters as object) != table.cowPages
      && forall k :: 0 <= k < waiterCount ==> waiters[k] != 0
    }

    ghost function Model(): (r: Mutex)
      requires waiterCount <= waiters.Length
      reads this, waiters
    {
      Mutex(ownerPid, waiters[..waiterCount], misuseGuardCount)
    }

    ghost function Now(): (r: States)
      reads table, table.processes
    {
      StatesOf(table.processes[..])
    }

    constructor (processes: ProcessTable)
      requires processes.Valid()
      ensures Valid() && table == processes && Model() == Mutex(0, [], 0) && fresh(waiters)
    {
      table, ownerPid, waiterCount, misuseGuardCount := processes, 0, 0, 0;
      waiters := new nat[MAX_WAITERS](_ => 0);
    }

    method LockFor(pid: nat) returns (result: Result)
      requires Valid()
      modifies this, waiters, table.processes
      ensures Valid()
      ensures (Model(), Now(), result) == Lock(old(Model()), old(Now()), pid)
    {
      hide StatesOf;
      var alive := FindAlive(table, pid);
      if !alive { return BadProcess; }
      if ownerPid == 0 {
        ownerPid := pid;
        return Ok;
      }
      var ok;
      ok, waiterCount := EnqueueWaiter(waiters, waiterCount, pid);
      if !ok { return BadProcess; }
      ok := ChangeState(table, pid, Blocked);
      return if ok then Blocks else BadProcess;
    }

    method UnlockFor(pid: nat) returns (result: Result)
      requires Valid()
      modifies this, waiters, table.processes
      ensures Valid()
      ensures (Model(), Now(), result) == Unlock(old(Model()), old(Now()), pid)
    {
      hide StatesOf;
      if ownerPid == 0 { return NotOwner; }
      if ownerPid != pid {
        misuseGuardCount := misuseGuardCount + 1;
        return NotOwner;
      }
      var next: nat;
      next, waiterCount := PopWaiter(waiters, waiterCount);
      if next != 0 {
        ownerPid := next;
        var ok := ChangeState(table, next, State.Ready);
        return if ok then Ok else BadProcess;
      }
      ownerPid := 0;
      return Ok;
    }
  }
}
