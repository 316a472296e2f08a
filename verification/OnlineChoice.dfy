/** Who gets a timer tick, told on the slots and process states before it: the slot each policy owes the
    tick to, what becomes of the process that ran, and what is counted. */
module OnlineChoice {
  import opened CourseProcessTypes
  import SchedulerModel
  import opened ProcessStates
  import opened OnlineModel
  import opened OnlineRuns
  import opened OnlineFairness

  /** Smaller vruntime, then smaller pid. */
  ghost predicate Served(o: Online, a: nat, b: nat)
    requires a < |o.slots| && b < |o.slots|
  {
    o.slots[a].vruntime < o.slots[b].vruntime
    || (o.slots[a].vruntime == o.slots[b].vruntime && o.slots[a].pid < o.slots[b].pid)
  }

  /** Places of the ring passed over on the way from the slot after `previous` to slot i. */
  ghost function Ahead(o: Online, previous: nat, i: nat): (r: nat)
    requires i < |o.slots| && (previous < |o.slots| || previous == NO_INDEX)
  {
    if previous == NO_INDEX then i else if i > previous then i - previous - 1 else i + |o.slots| - previous - 1
  }

  /** The running process keeps the tick: always under FCFS, while its slice lasts under round robin, and
      under CFS-lite unless a READY slot comes before it. */
  ghost predicate KeepsTick(o: Online, st: States)
  {
    && o.current < |o.slots| && Has(o, st, o.current, Running)
    && match o.policy
       case Fcfs => true
       case Rr => o.sliceUsed < o.timeSlice
       case CfsLite => forall j :: 0 <= j < |o.slots| && Has(o, st, j, State.Ready) ==> !Served(o, j, o.current)
  }

  /** Of the READY slots, c is the one the policy owes the tick to: the lowest, the first round the ring, or
      the least served. */
  ghost predicate Owed(o: Online, st: States, c: nat)
    requires o.current < |o.slots| || o.current == NO_INDEX
  {
    && c < |o.slots| && Has(o, st, c, State.Ready)
    && forall j :: 0 <= j < |o.slots| && Has(o, st, j, State.Ready) && j != c ==>
         match o.policy
         case Fcfs => c < j
         case Rr => Ahead(o, o.current, c) < Ahead(o, o.current, j)
         case CfsLite => Served(o, c, j)
  }

  lemma FcfsOwed(o: Online, st: States, f: Online)
    requires Sound(o) && o.policy == SchedulerModel.Fcfs && f.slots == o.slots
    ensures var c := PickFcfsFrom(f, st, 0); if c == NO_INDEX then NoneReady(o, st) else Owed(o, st, c)
  {
    assert forall j :: Runnable(f, st, j) == Runnable(o, st, j) == Has(o, st, j, State.Ready);
  }

  lemma RrOwed(o: Online, st: States, f: Online)
    requires Sound(o) && o.policy == SchedulerModel.Rr && f.slots == o.slots
    ensures var c := PickRr(f, st, o.current); if c == NO_INDEX then NoneReady(o, st) else Owed(o, st, c)
  {
    hide PickRr;
    var c := PickRr(f, st, o.current);
    PickRrIsReady(f, st, o.current);
    if o.slots != [] {
      StartInRing(o);
      forall j | 0 <= j < |o.slots| && Runnable(o, st, j)
        ensures c < |o.slots| && Runnable(o, st, c)
        ensures j != c ==> Ahead(o, o.current, c) < Ahead(o, o.current, j)
      {
        assert Runnable(f, st, j);
        PickUpTo(f, st, j, o.current);
        assert Runnable(f, st, c);
      }
      assert forall j :: Has(f, st, j, State.Ready) == Has(o, st, j, State.Ready) == Runnable(o, st, j);
    }
  }

  lemma PickRrIsReady(o: Online, st: States, previous: nat)
    requires |o.slots| <= SchedulerModel.MAX_TASKS
    ensures var c := PickRr(o, st, previous); c == NO_INDEX || Has(o, st, c, State.Ready)
  {
  }

  lemma CfsOwed(o: Online, st: States, f: Online)
    requires Sound(o) && o.policy == SchedulerModel.CfsLite && f == Opening(o, st) && !KeepsTick(o, st)
    ensures var c := PickCfs(f, st, |o.slots|); if c == NO_INDEX then NoneReady(o, st) else Owed(o, st, c)
  {
    KeepsIff(o, st);
    var c := PickCfs(f, st, |o.slots|);
    assert forall j :: 0 <= j < |o.slots| && Has(o, st, j, State.Ready) ==> Runnable(o, st, j) && Candidate(f, st, j);
  }

  ghost predicate SameCosts(o: Online, p: Online)
  {
    p.switches == o.switches && p.lastCost == o.lastCost && p.cost == o.cost
  }

  /** The running process goes on. */
  ghost predicate Kept(o: Online, st: States, p: Online, st': States)
  {
    && p.current == o.current && p.currentPid == o.currentPid && st' == st
    && p.sliceUsed == o.sliceUsed + 1
    && SameCosts(o, p) && p.preempts == o.preempts
  }

  /** A slice that ran out is counted as a preemption. */
  ghost predicate PreemptsCounted(o: Online, st: States, p: Online)
  {
    p.preempts == o.preempts + if o.policy.Rr? && o.current < |o.slots| && Has(o, st, o.current, Running) then 1 else 0
  }

  /** Nobody gets the tick. */
  ghost predicate Idled(o: Online, st: States, p: Online, st': States)
  {
    && p.current == NO_INDEX && p.currentPid == 0 && p.sliceUsed == 0 && st' == st
    && SameCosts(o, p) && PreemptsCounted(o, st, p)
  }

  /** A slot that was READY gets the tick: its process is RUNNING, the one that ran is READY again, and
      nobody else's state moves. The switch is counted unless the pid was the current one already. */
  ghost predicate HandedOver(o: Online, st: States, p: Online, st': States)
  {
    && p.current < |o.slots| && p.currentPid == o.slots[p.current].pid && p.sliceUsed == 1
    && var running := o.current < |o.slots| && Has(o, st, o.current, Running);
    && st'.Keys == st.Keys
    && (forall pid :: pid in st ==>
          st'[pid] == if pid == o.slots[p.current].pid then Running
                      else if running && pid == o.slots[o.current].pid then State.Ready
                      else st[pid])
    && PreemptsCounted(o, st, p)
    && if (if running then o.currentPid else 0) == o.slots[p.current].pid then SameCosts(o, p)
       else p.switches == o.switches + 1 && p.lastCost == 1 && p.cost == o.cost + 1
  }

  /** What the choice amounts to before the tick is credited. */
  lemma KeepsIff(o: Online, st: States)
    requires Sound(o)
    ensures Keeps(o, st) <==> KeepsTick(o, st)
  {
    if o.policy == SchedulerModel.CfsLite && CurrentRunning(o, st) {
      assert forall j :: 0 <= j < |o.slots| && Has(o, st, j, State.Ready) ==> Candidate(o, st, j);
      assert Candidate(o, st, o.current);
    }
  }

  /** Selecting a READY slot hands over to it. */
  lemma SelectHands(o: Online, st: States, next: nat)
    requires Sound(o) && !KeepsTick(o, st) && next < |o.slots| && Has(o, st, next, State.Ready)
    ensures var (q, st', ok) := Select(Opening(o, st), st, next);
      && ok && q.slots == o.slots && q.current == next && q.sliceUsed == 0 && Has(q, st', next, Running)
      && HandedOver(o, st, q.(sliceUsed := 1), st')
  {
    var f := Opening(o, st);
    assert Candidate(f, st, next);
    var pid := o.slots[next].pid;
    if o.current < |o.slots| && o.current != next { assert o.slots[o.current].pid != pid; }
  }

  /** With nobody READY nothing is selected. */
  lemma SelectIdles(o: Online, st: States)
    requires Sound(o) && !KeepsTick(o, st)
    ensures var (q, st', ok) := Select(Opening(o, st), st, NO_INDEX);
      ok && q.slots == o.slots && Idled(o, st, q, st')
  {
  }

  /** The pick is the slot the policy owes the tick to. */
  lemma PickOwed(o: Online, st: States)
    requires Sound(o) && !KeepsTick(o, st)
    ensures var next := Pick(Opening(o, st), st, o.current);
      if next == NO_INDEX then NoneReady(o, st) else Owed(o, st, next)
  {
    var f := Opening(o, st);
    match o.policy
    case Fcfs => FcfsOwed(o, st, f);
    case Rr => RrOwed(o, st, f);
    case CfsLite => CfsOwed(o, st, f);
  }

  /** Crediting moves the slots' counts and the slice only. */
  lemma CreditFields(q: Online, st: States)
    ensures CurrentRunning(q, st) ==>
      Credit(q, st) == q.(slots := Credit(q, st).slots, sliceUsed := q.sliceUsed + 1)
    ensures !CurrentRunning(q, st) ==> Credit(q, st) == q.(currentPid := 0, idleTicks := q.idleTicks + 1)
  {
  }

  /** The choice that opens a tick. */
  lemma PrepareChoice(o: Online, st: States)
    requires Sound(o)
    ensures var (q, st', ok) := Prepare(o, st);
      && ok
      && if KeepsTick(o, st) then q == o && st' == st
         else if NoneReady(o, st) then Idled(o, st, q, st')
         else && Owed(o, st, q.current) && HandedOver(o, st, q.(sliceUsed := 1), st')
              && q.sliceUsed == 0 && CurrentRunning(q, st')
  {
    hide Prepare, Pick, Select, Idled, HandedOver, KeepsTick;
    PrepareCases(o, st);
    KeepsIff(o, st);
    if !KeepsTick(o, st) {
      var next := Pick(Opening(o, st), st, o.current);
      PickOwed(o, st);
      if next == NO_INDEX {
        SelectIdles(o, st);
      } else {
        assert Owed(o, st, next);
        assert Runnable(o, st, next);
        SelectHands(o, st, next);
      }
    }
  }

  lemma CreditChoice(o: Online, st: States, q: Online, st': States)
    requires |q.slots| <= SchedulerModel.MAX_TASKS
    ensures KeepsTick(o, st) ==> Kept(o, st, Credit(o, st), st)
    ensures Idled(o, st, q, st') ==> Idled(o, st, Credit(q, st'), st')
    ensures HandedOver(o, st, q.(sliceUsed := 1), st') && q.sliceUsed == 0 && CurrentRunning(q, st') ==>
      HandedOver(o, st, Credit(q, st'), st')
  {
    CreditFields(o, st);
    CreditFields(q, st');
  }

  /** The count of ticks does not matter to the choice. */
  lemma TicksAside(o: Online, t: Online, st: States)
    requires Sound(o) && t == o.(ticks := t.ticks)
    ensures KeepsTick(t, st) == KeepsTick(o, st) && NoneReady(t, st) == NoneReady(o, st)
    ensures forall p, st' :: Kept(t, st, p, st') == Kept(o, st, p, st')
    ensures forall p, st' :: Idled(t, st, p, st') == Idled(o, st, p, st')
    ensures forall p, st' :: HandedOver(t, st, p, st') == HandedOver(o, st, p, st')
    ensures forall c :: Owed(t, st, c) == Owed(o, st, c)
  {
    assert forall i, state :: Has(t, st, i, state) == Has(o, st, i, state);
    assert forall i :: Runnable(t, st, i) == Runnable(o, st, i);
    assert forall i, j :: 0 <= i < |o.slots| && 0 <= j < |o.slots| ==> Served(t, i, j) == Served(o, i, j);
    assert forall i :: 0 <= i < |o.slots| ==> Ahead(t, t.current, i) == Ahead(o, o.current, i);
  }

  /** A tick goes to the running process while that may keep it, else to the READY slot the policy owes it
      to, and to nobody if there is none. */
  lemma TickChoice(o: Online, st: States)
    requires Sound(o) && Configured(o)
    ensures var (p, st', ok) := Tick(o, st);
      && ok
      && if KeepsTick(o, st) then Kept(o, st, p, st')
         else if NoneReady(o, st) then Idled(o, st, p, st')
         else Owed(o, st, p.current) && HandedOver(o, st, p, st')
  {
    hide Prepare, Credit, Owed, KeepsTick, Kept, Idled, HandedOver, NoneReady;
    var t := o.(ticks := o.ticks + 1);
    TicksAside(o, t, st);
    PrepareChoice(t, st);
    PrepareEffect(t, st);
    TickIsCredit(o, st);
    var (q, st', _) := Prepare(t, st);
    CreditChoice(t, st, q, st');
    CreditCurrent(q, st');
  }

  lemma CreditCurrent(q: Online, st: States)
    ensures Credit(q, st).current == q.current
  {
  }

  // ----- configuring and registering

  /** Configuring is refused exactly for a slice of 0 under the two policies that need one; otherwise the policy
      is in force, nobody is current, and the counters go on. */
  lemma ConfigureOutcome(o: Online, policy: SchedulerModel.Policy, slice: nat)
    ensures var (p, ok) := Configure(o, policy, slice);
      if slice == 0 && (policy.Rr? || policy.CfsLite?) then !ok && p == o
      else && ok && p.policy == policy && (!policy.Fcfs? ==> p.timeSlice == slice)
           && p.current == NO_INDEX && p.currentPid == 0 && p.sliceUsed == 0
           && p.slots == o.slots && p.ticks == o.ticks && p.idleTicks == o.idleTicks
           && SameCosts(o, p) && p.preempts == o.preempts
  {
  }

  ghost predicate Registers(o: Online, st: States, pid: nat)
  {
    && pid != 0 && |o.slots| < 8
    && pid in st && st[pid] in {State.Ready, Running, State.Blocked}
    && forall i :: 0 <= i < |o.slots| ==> o.slots[i].pid != pid
  }

  /** A process is registered exactly when it is known, has not ended, is not listed and finds a place: at the
      back, with nothing run yet. */
  lemma AddOutcome(o: Online, st: States, pid: nat)
    ensures var (p, ok) := AddProcess(o, st, pid);
      && (ok <==> Registers(o, st, pid))
      && p == if ok then o.(slots := o.slots + [Slot(pid, 0, 0)]) else o
  {
    if pid in st {
      match st[pid] case Unused => case Zombie => case Dead => case _ =>
    }
  }
}
