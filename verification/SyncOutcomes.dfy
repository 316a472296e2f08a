/** What single calls on semaphores and mutexes answer and do, and what the misuse counter counts. */
module SyncOutcomes {
  import opened CourseProcessTypes
  import opened ProcessStates
  import opened SyncModel

  /** Nobody's state but this pid's moves. */
  ghost predicate OnlyPid(st: States, after: States, pid: nat)
  {
    after.Keys == st.Keys && forall q :: q in st && q != pid ==> after[q] == st[q]
  }

  ghost predicate Callable(st: States, pid: nat)
  {
    pid != 0 && pid in st && (st[pid] in {State.Ready, Running, Blocked, Zombie})
  }

  /** A wait goes through while the value is positive; else the caller joins the back of the queue and blocks,
      unless the queue is full. */
  lemma WaitOutcome(s: Semaphore, st: States, pid: nat)
    ensures var (t, after, result) := SemWait(s, st, pid);
      if !Callable(st, pid) || (s.value <= 0 && |s.waiters| >= 16) then result == BadProcess && t == s && after == st
      else if s.value > 0 then result == Ok && t.value == s.value - 1 && t.waiters == s.waiters && after == st
      else && result == Blocks && t.value == s.value && t.waiters == s.waiters + [pid]
           && OnlyPid(st, after, pid) && after[pid] == Blocked
  {
  }

  /** A post wakes the head of the queue, or raises the value when nobody waits. */
  lemma PostOutcome(s: Semaphore, st: States)
    ensures var (t, after, result) := SemPost(s, st);
      if |s.waiters| == 0 then result == Ok && t.value == s.value + 1 && t.waiters == [] && after == st
      else
        var head := s.waiters[0];
        && t.value == s.value && s.waiters == [head] + t.waiters
        && (if head in st then result == Ok && OnlyPid(st, after, head) && after[head] == State.Ready
            else result == BadProcess && after == st)
  {
    if |s.waiters| == 0 { assert s.waiters == []; }
  }

  /** A lock takes a free mutex; else the caller joins the back of the queue and blocks, unless it is full. */
  lemma LockOutcome(m: Mutex, st: States, pid: nat)
    ensures var (u, after, result) := Lock(m, st, pid);
      && u.misuse == m.misuse
      && if !Callable(st, pid) || (m.owner != 0 && |m.waiters| >= 16)
         then result == BadProcess && u.owner == m.owner && u.waiters == m.waiters && after == st
         else if m.owner == 0 then result == Ok && u.owner == pid && u.waiters == m.waiters && after == st
         else && result == Blocks && u.owner == m.owner && u.waiters == m.waiters + [pid]
              && OnlyPid(st, after, pid) && after[pid] == Blocked
  {
  }

  /** An unlock by anybody but the owner is refused and, if there is an owner, counted; the owner's frees the
      mutex or hands it to the head of the queue. */
  lemma UnlockOutcome(m: Mutex, st: States, pid: nat)
    ensures var (u, after, result) := Unlock(m, st, pid);
      if m.owner == 0 || pid != m.owner then
        && result == NotOwner && after == st && u.owner == m.owner && u.waiters == m.waiters
        && u.misuse == m.misuse + (if m.owner == 0 then 0 else 1)
      else if |m.waiters| == 0 then
        result == Ok && u.owner == 0 && u.waiters == [] && u.misuse == m.misuse && after == st
      else
        var head := m.waiters[0];
        && u.owner == head && m.waiters == [head] + u.waiters && u.misuse == m.misuse
        && (if head in st then result == Ok && OnlyPid(st, after, head) && after[head] == State.Ready
            else result == BadProcess && after == st)
  {
    if |m.waiters| == 0 { assert m.waiters == []; }
  }

  /** Unlocks of an owned mutex by somebody else. */
  function Misuses(m: Mutex, steps: seq<MutexStep>): (r: nat)
    decreases |steps|
  {
    if steps == [] then 0
    else
      var n := |steps| - 1;
      var before := MutexRun(m, steps[..n]);
      Misuses(m, steps[..n])
      + if steps[n].Release? && before.owner != 0 && steps[n].pid != before.owner then 1 else 0
  }

  lemma {:induction false} MisuseCounted(m: Mutex, steps: seq<MutexStep>)
    ensures MutexRun(m, steps).misuse == m.misuse + Misuses(m, steps)
    decreases |steps|
  {
    if steps != [] {
      var n := |steps| - 1;
      MisuseCounted(m, steps[..n]);
      var before := MutexRun(m, steps[..n]);
      match steps[n]
      case Acquire(pid, st) => LockOutcome(before, st, pid);
      case Release(pid, st) => UnlockOutcome(before, st, pid);
    }
  }
}
