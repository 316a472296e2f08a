/** Counting semaphores and owner-based mutexes with queues of waiting pids. */
module SyncModel {
  import opened Sets
  import opened CourseProcessTypes
  import opened ProcessStates

  const MAX_WAITERS := MAX_PROCESSES

  datatype Result = Ok | Blocks | BadProcess | NotOwner

  datatype Semaphore = Semaphore(value: int, waiters: seq<nat>)

  datatype Mutex = Mutex(owner: nat, waiters: seq<nat>, misuse: nat)

  /** The process exists, and is not dead. */
  predicate Alive(st: States, pid: nat)
  {
    pid != 0 && pid in st && st[pid] != Dead && st[pid] != Unused
  }

  function SemWait(s: Semaphore, st: States, pid: nat): (r: (Semaphore, States, Result))
  {
    if !Alive(st, pid) then (s, st, BadProcess)
    else if s.value > 0 then (s.(value := s.value - 1), st, Ok)
    else if |s.waiters| >= MAX_WAITERS then (s, st, BadProcess)
    else (s.(waiters := s.waiters + [pid]), SetState(st, pid, Blocked), Blocks)
  }

  /** Waking a waiter whose process is gone still takes it off the queue. */
  function SemPost(s: Semaphore, st: States): (r: (Semaphore, States, Result))
  {
    if s.waiters == [] then (s.(value := s.value + 1), st, Ok)
    else
      var pid := s.waiters[0];
      (s.(waiters := s.waiters[1..]), SetState(st, pid, State.Ready), if pid in st then Ok else BadProcess)
  }

  function Lock(m: Mutex, st: States, pid: nat): (r: (Mutex, States, Result))
  {
    if !Alive(st, pid) then (m, st, BadProcess)
    else if m.owner == 0 then (m.(owner := pid), st, Ok)
    else if |m.waiters| >= MAX_WAITERS then (m, st, BadProcess)
    else (m.(waiters := m.waiters + [pid]), SetState(st, pid, Blocked), Blocks)
  }

  function Unlock(m: Mutex, st: States, pid: nat): (r: (Mutex, States, Result))
  {
    if m.owner == 0 then (m, st, NotOwner)
    else if m.owner != pid then (m.(misuse := m.misuse + 1), st, NotOwner)
    else if m.waiters == [] then (m.(owner := 0), st, Ok)
    else
      var next := m.waiters[0];
      (m.(owner := next, waiters := m.waiters[1..]), SetState(st, next, State.Ready), if next in st then Ok else BadProcess)
  }

  // ----- runs of a semaphore, whatever the processes do in between

  datatype SemStep = Wait(pid: nat, st: States) | Post(st: States)

  /** What a run has seen: posts, waits that went straight through, pids queued and pids taken off. */
  datatype SemHistory = SemHistory(posts: nat, immediate: nat, queued: seq<nat>, woken: seq<nat>)

  function SemTake(s: Semaphore, h: SemHistory, step: SemStep): (r: (Semaphore, SemHistory))
  {
    match step
    case Wait(pid, st) =>
      var (t, _, result) := SemWait(s, st, pid);
      (t, match result
          case Ok => h.(immediate := h.immediate + 1)
          case Blocks => h.(queued := h.queued + [pid])
          case _ => h)
    case Post(st) =>
      var (t, _, _) := SemPost(s, st);
      (t, if s.waiters == [] then h.(posts := h.posts + 1)
          else h.(posts := h.posts + 1, woken := h.woken + [s.waiters[0]]))
  }

  function SemRun(s: Semaphore, steps: seq<SemStep>): (r: (Semaphore, SemHistory))
    decreases |steps|
  {
    if steps == [] then (s, SemHistory(0, 0, [], []))
    else
      var n := |steps| - 1;
      var (t, h) := SemRun(s, steps[..n]);
      SemTake(t, h, steps[n])
  }

  predicate SemInv(initial: int, s: Semaphore, h: SemHistory)
  {
    && initial + h.posts == s.value + h.immediate + |h.woken|
    && h.queued == h.woken + s.waiters
    && (s.value > 0 ==> s.waiters == [])
    && |s.waiters| <= MAX_WAITERS
    && (forall k :: 0 <= k < |s.waiters| ==> s.waiters[k] != 0)
  }

  lemma SemTakeKeeps(initial: int, s: Semaphore, h: SemHistory, step: SemStep)
    requires SemInv(initial, s, h)
    ensures var (t, g) := SemTake(s, h, step); SemInv(initial, t, g)
    ensures SemTake(s, h, step).0.value < 0 ==> s.value < 0
  {
    match step
    case Wait(pid, st) =>
      assert h.woken + (s.waiters + [pid]) == (h.woken + s.waiters) + [pid];
    case Post(st) =>
      if s.waiters != [] {
        assert s.waiters == [s.waiters[0]] + s.waiters[1..];
        assert (h.woken + [s.waiters[0]]) + s.waiters[1..] == h.woken + s.waiters;
      }
  }

  /** Every run keeps the books: initial value and posts against value, immediate entries and wake-ups. Pids
      are woken in the order they queued. Nobody waits while the value is positive, and from a nonnegative
      start entries never outnumber the initial value and the posts. */
  lemma {:induction false} SemConservation(initial: int, steps: seq<SemStep>)
    ensures var (s, h) := SemRun(Semaphore(initial, []), steps);
      && SemInv(initial, s, h)
      && (initial >= 0 ==> s.value >= 0 && h.immediate + |h.woken| <= initial + h.posts)
    decreases |steps|
  {
    if steps != [] {
      var n := |steps| - 1;
      SemConservation(initial, steps[..n]);
      var (t, h) := SemRun(Semaphore(initial, []), steps[..n]);
      SemTakeKeeps(initial, t, h, steps[n]);
    }
  }

  // ----- runs of a mutex

  datatype MutexStep = Acquire(pid: nat, st: States) | Release(pid: nat, st: States)

  function MutexTake(m: Mutex, step: MutexStep): (r: Mutex)
  {
    match step
    case Acquire(pid, st) => Lock(m, st, pid).0
    case Release(pid, st) => Unlock(m, st, pid).0
  }

  function MutexRun(m: Mutex, steps: seq<MutexStep>): (r: Mutex)
    decreases |steps|
  {
    if steps == [] then m else MutexTake(MutexRun(m, steps[..|steps| - 1]), steps[|steps| - 1])
  }

  predicate MutexInv(m: Mutex)
  {
    && (m.owner == 0 ==> m.waiters == [])
    && |m.waiters| <= MAX_WAITERS
    && (forall k :: 0 <= k < |m.waiters| ==> m.waiters[k] != 0)
  }

  predicate OwnerUnlock(m: Mutex, step: MutexStep)
  {
    step.Release? && m.owner != 0 && step.pid == m.owner
  }

  /** Ownership moves only by taking a free mutex, or by the owner handing it to the head of the queue. */
  lemma StepOwner(m: Mutex, step: MutexStep)
    requires MutexInv(m)
    ensures var u := MutexTake(m, step);
      && MutexInv(u)
      && (OwnerUnlock(m, step) ==>
           if m.waiters == [] then u.owner == 0 && u.waiters == []
           else u.owner == m.waiters[0] && u.waiters == m.waiters[1..])
      && (!OwnerUnlock(m, step) && m.owner != 0 ==> u.owner == m.owner && m.waiters <= u.waiters)
      && (m.owner == 0 && u.owner != 0 ==> step.Acquire? && step.pid == u.owner && Alive(step.st, step.pid))
  {
  }

  lemma {:induction false} MutexSafe(steps: seq<MutexStep>)
    ensures MutexInv(MutexRun(Mutex(0, [], 0), steps))
    decreases |steps|
  {
    if steps != [] {
      MutexSafe(steps[..|steps| - 1]);
      StepOwner(MutexRun(Mutex(0, [], 0), steps[..|steps| - 1]), steps[|steps| - 1]);
    }
  }

  /** Unlocks by the owner of the moment. */
  function OwnerUnlocks(m: Mutex, steps: seq<MutexStep>): (r: nat)
    decreases |steps|
  {
    if steps == [] then 0
    else
      var n := |steps| - 1;
      OwnerUnlocks(m, steps[..n]) + if OwnerUnlock(MutexRun(m, steps[..n]), steps[n]) then 1 else 0
  }

  /** No overtaking: the waiter at place j moves up one place with each unlock by an owner, owns the mutex after
      exactly j + 1 of them, and keeps it until it unlocks itself. */
  lemma {:induction false} Fifo(m: Mutex, steps: seq<MutexStep>, j: nat)
    requires MutexInv(m) && j < |m.waiters|
    ensures var u := OwnerUnlocks(m, steps);
      var after := MutexRun(m, steps);
      && MutexInv(after)
      && (u <= j ==> after.owner != 0 && j - u < |after.waiters| && after.waiters[j - u] == m.waiters[j])
      && (u == j + 1 ==> after.owner == m.waiters[j])
    decreases |steps|
  {
    if steps != [] {
      var n := |steps| - 1;
      Fifo(m, steps[..n], j);
      StepOwner(MutexRun(m, steps[..n]), steps[n]);
    }
  }

  /** Nobody unlocks on behalf of this pid in the run. */
  predicate NeverReleases(pid: nat, steps: seq<MutexStep>)
  {
    forall k :: 0 <= k < |steps| && steps[k].Release? ==> steps[k].pid != pid
  }

  /** Unless it unlocks itself, an owner keeps the mutex through any run, and those who wait go on waiting. */
  lemma {:induction false} OwnerStays(m: Mutex, steps: seq<MutexStep>)
    requires MutexInv(m) && m.owner != 0 && NeverReleases(m.owner, steps)
    ensures var u := MutexRun(m, steps);
      MutexInv(u) && u.owner == m.owner && m.waiters <= u.waiters && OwnerUnlocks(m, steps) == 0
    decreases |steps|
  {
    if steps != [] {
      var n := |steps| - 1;
      OwnerStays(m, steps[..n]);
      StepOwner(MutexRun(m, steps[..n]), steps[n]);
    }
  }

  /** A waiter whose process is gone is handed the mutex all the same, and the unlock reports an error. As
      long as nobody unlocks as that pid, the mutex stays with it and every other waiter waits, through any run. */
  lemma HandedToTheGone(m: Mutex, st: States, steps: seq<MutexStep>)
    requires MutexInv(m) && m.owner != 0 && m.waiters != []
    ensures var (u, after, result) := Unlock(m, st, m.owner);
      && u.owner == m.waiters[0]
      && (result == BadProcess <==> m.waiters[0] !in st)
      && (result == Ok ==> after == st[m.waiters[0] := State.Ready])
      && (result == BadProcess ==> after == st)
      && (NeverReleases(m.waiters[0], steps) ==>
            MutexRun(u, steps).owner == m.waiters[0] && m.waiters[1..] <= MutexRun(u, steps).waiters)
  {
    if NeverReleases(m.waiters[0], steps) { OwnerStays(Unlock(m, st, m.owner).0, steps); }
  }

  // ----- who sleeps

  /** The waiters are different processes, all blocked. */
  ghost predicate Asleep(st: States, waiters: seq<nat>)
  {
    && NoDuplicates(waiters)
    && forall k :: 0 <= k < |waiters| ==> waiters[k] in st && st[waiters[k]] == Blocked
  }

  /** A caller that is not blocked itself finds a place: there are as many places as processes. */
  lemma PlaceLeft(st: States, waiters: seq<nat>, pid: nat)
    requires Asleep(st, waiters) && pid in st && st[pid] != Blocked && |st.Keys| <= MAX_PROCESSES
    ensures |waiters| < MAX_WAITERS
  {
    var all := waiters + [pid];
    assert NoDuplicates(all);
    DistinctSize(all);
    SubsetSize(Elements(all), st.Keys);
  }

  lemma JoinAsleep(st: States, waiters: seq<nat>, pid: nat)
    requires Asleep(st, waiters) && pid in st && st[pid] != Blocked
    ensures Asleep(SetState(st, pid, Blocked), waiters + [pid])
  {
  }

  lemma LeaveAsleep(st: States, waiters: seq<nat>)
    requires Asleep(st, waiters) && waiters != []
    ensures Asleep(SetState(st, waiters[0], State.Ready), waiters[1..])
  {
    assert forall k :: 0 <= k < |waiters| - 1 ==> waiters[1..][k] == waiters[k + 1];
  }

  datatype Turn = WaitBy(pid: nat) | PostNow

  /** A run in which only the semaphore changes states, and blocked processes do not call it. */
  ghost predicate Awake(s: Semaphore, st: States, turns: seq<Turn>)
    decreases |turns|
  {
    turns != [] ==>
      match turns[0]
      case WaitBy(pid) =>
        Alive(st, pid) && st[pid] != Blocked && Awake(SemWait(s, st, pid).0, SemWait(s, st, pid).1, turns[1..])
      case PostNow => Awake(SemPost(s, st).0, SemPost(s, st).1, turns[1..])
  }

  function Played(s: Semaphore, st: States, turns: seq<Turn>): (r: (Semaphore, States, seq<Result>))
    decreases |turns|
  {
    if turns == [] then (s, st, [])
    else
      var (t, now, result) :=
        match turns[0] case WaitBy(pid) => SemWait(s, st, pid) case PostNow => SemPost(s, st);
      var (u, end, results) := Played(t, now, turns[1..]);
      (u, end, [result] + results)
  }

  /** In such a run no call fails, and exactly the queued processes have been put to sleep: each waiter is
      queued once and BLOCKED, whoever left the queue is READY, and nobody else's state has changed. */
  lemma {:induction false} NobodyFails(s: Semaphore, st: States, turns: seq<Turn>)
    requires Asleep(st, s.waiters) && |st.Keys| <= MAX_PROCESSES && Awake(s, st, turns)
    ensures var (t, end, results) := Played(s, st, turns);
      && Asleep(end, t.waiters) && end.Keys == st.Keys
      && (forall k :: 0 <= k < |results| ==> results[k] == Ok || results[k] == Blocks)
      && (forall pid :: pid in st ==>
            if pid in t.waiters then end[pid] == Blocked
            else end[pid] == State.Ready || (pid !in s.waiters && end[pid] == st[pid]))
    decreases |turns|
  {
    if turns != [] {
      hide NoDuplicates;
      match turns[0]
      case WaitBy(pid) =>
        PlaceLeft(st, s.waiters, pid);
        JoinAsleep(st, s.waiters, pid);
        var (t, now, result) := SemWait(s, st, pid);
        NobodyFails(t, now, turns[1..]);
      case PostNow =>
        if s.waiters != [] { LeaveAsleep(st, s.waiters); }
        var (t, now, result) := SemPost(s, st);
        NobodyFails(t, now, turns[1..]);
    }
  }

  // ----- mutexes under the same discipline

  datatype LockTurn = LockBy(pid: nat) | UnlockBy(pid: nat)

  function LockTake(m: Mutex, st: States, turn: LockTurn): (r: (Mutex, States, Result))
  {
    match turn
    case LockBy(pid) => Lock(m, st, pid)
    case UnlockBy(pid) => Unlock(m, st, pid)
  }

  /** A run in which only the mutex changes states, and blocked processes do not call it. */
  ghost predicate AwakeLocks(m: Mutex, st: States, turns: seq<LockTurn>)
    decreases |turns|
  {
    turns != [] ==>
      && turns[0].pid in st && Alive(st, turns[0].pid) && st[turns[0].pid] != Blocked
      && AwakeLocks(LockTake(m, st, turns[0]).0, LockTake(m, st, turns[0]).1, turns[1..])
  }

  function PlayedLocks(m: Mutex, st: States, turns: seq<LockTurn>): (r: (Mutex, States, seq<Result>))
    ensures |r.2| == |turns|
    decreases |turns|
  {
    if turns == [] then (m, st, [])
    else
      var (t, now, result) := LockTake(m, st, turns[0]);
      var (u, end, results) := PlayedLocks(t, now, turns[1..]);
      (u, end, [result] + results)
  }

  /** In such a run no lock fails, and an unlock fails only for somebody who is not the owner; each waiter is
      queued once and BLOCKED, whoever left the queue is READY, and nobody else's state has changed. */
  lemma {:induction false} NobodyFailsLocking(m: Mutex, st: States, turns: seq<LockTurn>)
    requires MutexInv(m) && Asleep(st, m.waiters) && |st.Keys| <= MAX_PROCESSES && AwakeLocks(m, st, turns)
    ensures var (u, end, results) := PlayedLocks(m, st, turns);
      && MutexInv(u) && Asleep(end, u.waiters) && end.Keys == st.Keys
      && (forall k :: 0 <= k < |turns| ==>
            if turns[k].LockBy? then results[k] == Ok || results[k] == Blocks else results[k] == Ok || results[k] == NotOwner)
      && (forall pid :: pid in st ==>
            if pid in u.waiters then end[pid] == Blocked
            else end[pid] == State.Ready || (pid !in m.waiters && end[pid] == st[pid]))
    decreases |turns|
  {
    if turns != [] {
      hide NoDuplicates;
      var pid := turns[0].pid;
      PlaceLeft(st, m.waiters, pid);
      JoinAsleep(st, m.waiters, pid);
      if m.waiters != [] { LeaveAsleep(st, m.waiters); }
      var (t, now, result) := LockTake(m, st, turns[0]);
      NobodyFailsLocking(t, now, turns[1..]);
    }
  }

  // ----- when a wake-up is sound

  /** Of the processes, only blocked ones change state. */
  ghost predicate WakesSleepers(st: States, after: States)
  {
    after.Keys == st.Keys && forall pid :: pid in st && after[pid] != st[pid] ==> st[pid] == Blocked
  }

  /** Some process that has ended runs again. */
  ghost predicate Revives(st: States, after: States)
  {
    exists pid :: pid in st && pid in after && st[pid] in {Zombie, Dead} && after[pid] == State.Ready
  }

  /** The head of the queue may be set READY: it is blocked still, or READY anyway, or gone. */
  predicate HeadSleeps(st: States, waiters: seq<nat>)
  {
    waiters != [] && waiters[0] in st ==> st[waiters[0]] == Blocked || st[waiters[0]] == State.Ready
  }

  predicate HeadEnded(st: States, waiters: seq<nat>)
  {
    waiters != [] && waiters[0] in st && st[waiters[0]] in {Zombie, Dead}
  }

  lemma WakeHead(st: States, pid: nat)
    requires pid in st
    ensures var after := SetState(st, pid, State.Ready);
      && (WakesSleepers(st, after) <==> st[pid] == Blocked || st[pid] == State.Ready)
      && (Revives(st, after) <==> st[pid] in {Zombie, Dead})
  {
  }

  /** A post wakes nobody but a sleeper exactly when the head of the queue still sleeps; it brings an ended
      process back exactly when the head has ended since it queued. */
  lemma PostSoundIff(s: Semaphore, st: States)
    ensures WakesSleepers(st, SemPost(s, st).1) <==> HeadSleeps(st, s.waiters)
    ensures Revives(st, SemPost(s, st).1) <==> HeadEnded(st, s.waiters)
  {
    if s.waiters != [] && s.waiters[0] in st { WakeHead(st, s.waiters[0]); }
  }

  /** The same of an unlock by the owner. */
  lemma UnlockSoundIff(m: Mutex, st: States)
    requires m.owner != 0
    ensures WakesSleepers(st, Unlock(m, st, m.owner).1) <==> HeadSleeps(st, m.waiters)
    ensures Revives(st, Unlock(m, st, m.owner).1) <==> HeadEnded(st, m.waiters)
  {
    if m.waiters != [] && m.waiters[0] in st { WakeHead(st, m.waiters[0]); }
  }

  /** A process waits, is killed, and the next post makes it READY. */
  lemma PostRevivesKilled(st: States)
    requires st == map[1 := Zombie]
    ensures SemPost(Semaphore(0, [1]), st).1 == map[1 := State.Ready]
    ensures Revives(st, SemPost(Semaphore(0, [1]), st).1)
  {
    assert st[1] == Zombie;
  }
}
