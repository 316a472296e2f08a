/** What every timer tick of the online scheduler keeps, and what runs of ticks amount to. */
module OnlineRuns {
  import opened Sums
  import opened CourseProcessTypes
  import opened SchedulerModel
  import opened ProcessStates
  import opened OnlineModel

  /** Slots hold distinct pids and the current index is a slot or none. */
  ghost predicate Sound(o: Online)
  {
    && |o.slots| <= MAX_TASKS
    && (o.current == NO_INDEX || o.current < |o.slots|)
    && (forall i, j :: 0 <= i < j < |o.slots| ==> o.slots[i].pid != o.slots[j].pid)
  }

  function RunTicks(slots: seq<Slot>): (r: seq<nat>)
    ensures |r| == |slots| && forall i :: 0 <= i < |slots| ==> r[i] == slots[i].runTicks
  {
    seq(|slots|, i requires 0 <= i < |slots| => slots[i].runTicks)
  }

  /** Every tick so far was idle or credited to one slot. */
  ghost predicate Conserved(o: Online)
  {
    && o.ticks == o.idleTicks + Sum(RunTicks(o.slots))
    && forall i :: 0 <= i < |o.slots| ==> o.slots[i].vruntime == o.slots[i].runTicks
  }

  ghost predicate NoneReady(o: Online, st: States)
  {
    forall i :: 0 <= i < |o.slots| ==> !Runnable(o, st, i)
  }

  /** Only the current slot's process may be RUNNING. */
  ghost predicate Alone(o: Online, st: States)
  {
    forall i :: 0 <= i < |o.slots| && Has(o, st, i, Running) ==> i == o.current
  }

  predicate Live(o: Online, st: States, i: nat)
  {
    Has(o, st, i, State.Ready) || Has(o, st, i, Running)
  }

  /** Round robin's expired slice with nobody to hand over to. */
  predicate Drops(o: Online, st: States)
  {
    o.policy == Rr && CurrentRunning(o, st) && o.sliceUsed >= o.timeSlice
    && forall i :: 0 <= i < |o.slots| ==> !Runnable(o, st, i)
  }

  // ----- picking and selecting

  /** The ring search misses no runnable slot. */
  lemma PickRrFindsReady(o: Online, st: States, previous: nat, i: nat)
    requires |o.slots| <= MAX_TASKS && i < |o.slots| && Runnable(o, st, i)
    requires previous == NO_INDEX || previous < |o.slots|
    ensures PickRr(o, st, previous) != NO_INDEX
  {
    var n := |o.slots|;
    var start := RrStart(o, previous);
    assert start < n;
    var k := if i >= start then i - start else i + n - start;
    assert RingIndex(start, k, n) == i by {
      if i < start { assert (start + k) % n == i by { assert start + k == i + n; } }
    }
  }

  lemma PickRrRunnable(o: Online, st: States, previous: nat)
    requires |o.slots| <= MAX_TASKS && PickRr(o, st, previous) != NO_INDEX
    ensures Runnable(o, st, PickRr(o, st, previous))
  {
  }

  ghost predicate Picked(o: Online, st: States, next: nat)
  {
    && (next == NO_INDEX || (next < |o.slots| && Candidate(o, st, next)))
    && (next == NO_INDEX ==> NoneReady(o, st))
  }

  function Pick(o: Online, st: States, previous: nat): (r: nat)
    requires |o.slots| <= MAX_TASKS
  {
    match o.policy
    case Fcfs => PickFcfsFrom(o, st, 0)
    case Rr => PickRr(o, st, previous)
    case CfsLite => PickCfs(o, st, |o.slots|)
  }

  /** Every policy picks a candidate, and none only when nobody is READY. */
  lemma PickIsSound(o: Online, st: States, previous: nat)
    requires |o.slots| <= MAX_TASKS && (previous == NO_INDEX || previous < |o.slots|)
    ensures Picked(o, st, Pick(o, st, previous))
  {
    if o.policy == Rr {
      forall i | 0 <= i < |o.slots| ensures Runnable(o, st, i) ==> PickRr(o, st, previous) != NO_INDEX {
        if Runnable(o, st, i) { PickRrFindsReady(o, st, previous, i); }
      }
    }
    assert forall i :: 0 <= i < |o.slots| && Runnable(o, st, i) ==> Candidate(o, st, i);
  }

  /** Selecting a candidate makes it, and of the slots only it, RUNNING and current; the slot that
      was current goes back to READY; nothing else moves. */
  lemma SelectEffect(o: Online, st: States, next: nat)
    requires Sound(o) && next < |o.slots| && Candidate(o, st, next)
    ensures var (p, st', ok) := Select(o, st, next);
      && ok && Sound(p) && p.slots == o.slots && p.current == next && p.sliceUsed == 0
      && p.ticks == o.ticks && p.idleTicks == o.idleTicks && p.policy == o.policy && p.timeSlice == o.timeSlice
      && p.preempts == o.preempts && p.currentPid == o.slots[next].pid
      && (forall i | 0 <= i < |o.slots| ::
            Has(p, st', i, Running) == (i == next || (i != o.current && Has(o, st, i, Running))))
      && (forall i :: 0 <= i < |o.slots| ==> Live(p, st', i) == Live(o, st, i))
      && (forall i :: 0 <= i < |o.slots| && i != next && i != o.current ==>
            Runnable(p, st', i) == Runnable(o, st, i))
  {
  }

  lemma SelectNone(o: Online, st: States)
    requires |o.slots| <= MAX_TASKS
    ensures Select(o, st, NO_INDEX) == (o.(currentPid := 0, current := NO_INDEX, sliceUsed := 0), st, true)
  {
  }

  // ----- one tick

  /** The states before the tick, as the choice sees them: current released when it is not running. */
  ghost function Released(o: Online, st: States): (r: Online)
  {
    if CurrentRunning(o, st) then o else Release(o, st).0
  }

  /** Outcome of the choice that opens a tick: keep the current slot, or hand over to a picked one. */
  ghost predicate Keeps(o: Online, st: States)
  {
    && CurrentRunning(o, st)
    && match o.policy
       case Fcfs => true
       case Rr => o.sliceUsed < o.timeSlice
       case CfsLite =>
         |o.slots| <= MAX_TASKS && (PickCfs(o, st, |o.slots|) == NO_INDEX || PickCfs(o, st, |o.slots|) == o.current)
  }

  /** Either the current slot is kept, or the policy's pick is selected. */
  lemma PrepareCases(o: Online, st: States)
    requires Sound(o)
    ensures Keeps(o, st) ==> Prepare(o, st) == (o, st, true)
    ensures !Keeps(o, st) ==>
      var e := Released(o, st);
      var f := if CurrentRunning(o, st) && o.policy == Rr then e.(preempts := e.preempts + 1) else e;
      Prepare(o, st) == Select(f, st, Pick(f, st, o.current)) && Sound(f)
  {
  }

  /** The choice succeeds and leaves a running current slot unless nobody was READY. */
  lemma PrepareEffect(o: Online, st: States)
    requires Sound(o)
    ensures var (p, st', ok) := Prepare(o, st);
      && ok && Sound(p) && p.slots == o.slots && p.ticks == o.ticks && p.idleTicks == o.idleTicks
      && p.policy == o.policy && p.timeSlice == o.timeSlice
      && (CurrentRunning(p, st') || NoneReady(o, st))
  {
    hide Prepare, Select, PickFcfsFrom, PickCfs, PickRr;
    PrepareCases(o, st);
    if !Keeps(o, st) {
      var e := Released(o, st);
      var f := if CurrentRunning(o, st) && o.policy == Rr then e.(preempts := e.preempts + 1) else e;
      PickIsSound(f, st, o.current);
      var next := Pick(f, st, o.current);
      if next != NO_INDEX {
        SelectEffect(f, st, next);
        assert Has(Prepare(o, st).0, Prepare(o, st).1, next, Running);
      } else {
        SelectNone(f, st);
        assert forall i :: 0 <= i < |o.slots| ==> Runnable(f, st, i) == Runnable(o, st, i);
      }
    }
  }

  lemma CreditEffect(p: Online, st: States)
    requires Sound(p)
    ensures var q := Credit(p, st);
      && Sound(q) && |q.slots| == |p.slots| && q.ticks == p.ticks && q.current == p.current
      && q.policy == p.policy && q.timeSlice == p.timeSlice
      && (forall i :: 0 <= i < |p.slots| ==> q.slots[i].pid == p.slots[i].pid)
      && (if CurrentRunning(p, st)
          then q.idleTicks == p.idleTicks
            && q.slots == p.slots[p.current := Slot(p.slots[p.current].pid, p.slots[p.current].vruntime + 1,
                                                    p.slots[p.current].runTicks + 1)]
          else q.idleTicks == p.idleTicks + 1 && q.slots == p.slots)
  {
  }

  /** A configured scheduler never fails a tick; the tick is credited to the slot it leaves running
      and current, or counted idle, and idle only when no slot was READY. */
  lemma TickEffect(o: Online, st: States)
    requires Sound(o) && Configured(o)
    ensures var (p, st', ok) := Tick(o, st);
      && ok && Sound(p) && |p.slots| == |o.slots| && p.ticks == o.ticks + 1
      && p.policy == o.policy && p.timeSlice == o.timeSlice
      && (forall i :: 0 <= i < |o.slots| ==> p.slots[i].pid == o.slots[i].pid)
      && (if CurrentRunning(p, st')
          then p.idleTicks == o.idleTicks
            && p.slots == o.slots[p.current := Slot(o.slots[p.current].pid, o.slots[p.current].vruntime + 1,
                                                    o.slots[p.current].runTicks + 1)]
          else p.idleTicks == o.idleTicks + 1 && p.slots == o.slots && NoneReady(o, st))
  {
    var t := o.(ticks := o.ticks + 1);
    var (p, st', ok) := Prepare(t, st);
    PrepareEffect(t, st);
    CreditEffect(p, st');
    assert Tick(o, st) == (Credit(p, st'), st', true);
    assert forall i :: 0 <= i < |o.slots| ==> Runnable(t, st, i) == Runnable(o, st, i);
  }

  /** ticks = idle_ticks + the sum of run_ticks, and vruntime = run_ticks, survive every tick. */
  lemma TickConserves(o: Online, st: States)
    requires Sound(o) && Configured(o) && Conserved(o)
    ensures Conserved(Tick(o, st).0)
  {
    hide Tick;
    TickEffect(o, st);
    var (p, st', _) := Tick(o, st);
    if CurrentRunning(p, st') {
      var c := p.current;
      assert RunTicks(p.slots) == RunTicks(o.slots)[c := o.slots[c].runTicks + 1];
      SumUpdate(RunTicks(o.slots), c, o.slots[c].runTicks + 1);
    }
  }

  /** What the choice hands to Select. */
  ghost function Opening(o: Online, st: States): (r: Online)
  {
    var e := Released(o, st);
    if CurrentRunning(o, st) && o.policy == Rr then e.(preempts := e.preempts + 1) else e
  }

  /** From a state where only the current slot runs, the choice leaves only the current slot running,
      except when round robin drops an expired slot that nobody can take over from. */
  lemma PrepareAlone(o: Online, st: States)
    requires Sound(o) && Alone(o, st)
    ensures var (p, st', _) := Prepare(o, st);
      && (Alone(p, st') <==> !Drops(o, st))
      && (Drops(o, st) ==> p.current == NO_INDEX && st' == st)
      && (forall i :: 0 <= i < |o.slots| ==> Live(p, st', i) == Live(o, st, i))
  {
    hide Prepare, Select, PickFcfsFrom, PickCfs, PickRr;
    PrepareCases(o, st);
    var (p, st', _) := Prepare(o, st);
    if !Keeps(o, st) {
      var f := Opening(o, st);
      var next := Pick(f, st, o.current);
      PickIsSound(f, st, o.current);
      assert forall i :: 0 <= i < |o.slots| ==> Runnable(f, st, i) == Runnable(o, st, i);
      assert forall i :: 0 <= i < |o.slots| ==> Has(f, st, i, Running) == Has(o, st, i, Running);
      if next != NO_INDEX {
        SelectEffect(f, st, next);
        if o.policy == Rr {
          PickRrRunnable(f, st, o.current);
          assert Runnable(o, st, next);
        }
        assert Alone(p, st');
      } else {
        SelectNone(f, st);
        assert CurrentRunning(o, st) ==> Has(p, st', o.current, Running);
        assert CurrentRunning(o, st) ==> Candidate(f, st, o.current);
      }
    }
  }

  /** Under CFS-lite the slot that runs is one nobody live runs before. */
  lemma PrepareLeast(o: Online, st: States)
    requires Sound(o) && Alone(o, st) && o.policy == CfsLite
    ensures var (p, st', _) := Prepare(o, st);
      CurrentRunning(p, st') ==>
        p.slots == o.slots && Live(o, st, p.current)
        && forall j :: 0 <= j < |o.slots| && Live(o, st, j) ==> !RunsBefore(o, j, p.current)
  {
    PrepareCases(o, st);
    var f := Opening(o, st);
    var next := Pick(f, st, o.current);
    assert forall j :: 0 <= j < |o.slots| && Live(o, st, j) ==> Candidate(f, st, j);
    if !Keeps(o, st) && next != NO_INDEX {
      SelectEffect(f, st, next);
      assert forall j :: 0 <= j < |o.slots| ==> RunsBefore(f, j, next) == RunsBefore(o, j, next);
    }
  }

  /** Process states are seen through the slots' pids alone. */
  lemma SameView(o: Online, p: Online, st: States)
    requires |o.slots| == |p.slots| && forall i :: 0 <= i < |o.slots| ==> o.slots[i].pid == p.slots[i].pid
    ensures forall i :: 0 <= i < |o.slots| ==> Has(p, st, i, Running) == Has(o, st, i, Running)
    ensures forall i :: 0 <= i < |o.slots| ==> Runnable(p, st, i) == Runnable(o, st, i)
    ensures forall i :: 0 <= i < |o.slots| ==> Live(p, st, i) == Live(o, st, i)
    ensures o.current == p.current ==> Alone(p, st) == Alone(o, st)
  {
    assert forall i :: 0 <= i < |o.slots| ==> Has(p, st, i, Running) == Has(o, st, i, Running);
  }

  /** At most one slot stays RUNNING across a tick if and only if round robin does not drop. */
  lemma TickAloneIff(o: Online, st: States)
    requires Sound(o) && Configured(o) && Alone(o, st)
    ensures var (p, st', _) := Tick(o, st);
      && |p.slots| == |o.slots|
      && (Alone(p, st') <==> !Drops(o, st))
      && (forall i :: 0 <= i < |o.slots| ==> Live(p, st', i) == Live(o, st, i))
  {
    var t := o.(ticks := o.ticks + 1);
    SameView(o, t, st);
    PrepareAlone(t, st);
    PrepareEffect(t, st);
    var (q, st', _) := Prepare(t, st);
    CreditEffect(q, st');
    var p := Credit(q, st');
    SameView(q, p, st');
    assert Tick(o, st) == (p, st', true);
  }

  // ----- CFS-lite fairness over runs of ticks

  /** Live slots are within one tick of each other. */
  ghost predicate Level(o: Online, st: States)
  {
    forall i, j :: 0 <= i < |o.slots| && 0 <= j < |o.slots| && Live(o, st, i) && Live(o, st, j) ==>
      o.slots[i].vruntime <= o.slots[j].vruntime + 1
  }

  /** Crediting a live slot that nobody runs before keeps live slots level. */
  lemma CreditLevel(o: Online, st: States, p: Online, st': States, c: nat)
    requires Level(o, st) && c < |o.slots| && Live(o, st, c)
    requires forall j :: 0 <= j < |o.slots| && Live(o, st, j) ==> !RunsBefore(o, j, c)
    requires p.slots == o.slots[c := Slot(o.slots[c].pid, o.slots[c].vruntime + 1, o.slots[c].runTicks + 1)]
    requires forall i :: 0 <= i < |o.slots| ==> Live(p, st', i) == Live(o, st, i)
    ensures Level(p, st')
  {
    hide Live;
    forall i, j | 0 <= i < |p.slots| && 0 <= j < |p.slots| && Live(p, st', i) && Live(p, st', j)
      ensures p.slots[i].vruntime <= p.slots[j].vruntime + 1
    {
      assert Live(o, st, i) && Live(o, st, j);
      assert !RunsBefore(o, j, c);
    }
  }

  lemma TickIsCredit(o: Online, st: States)
    requires Sound(o) && Configured(o)
    ensures var t := o.(ticks := o.ticks + 1);
      Tick(o, st).0 == Credit(Prepare(t, st).0, Prepare(t, st).1) && Tick(o, st).1 == Prepare(t, st).1
  {
    hide Prepare, Credit;
    PrepareEffect(o.(ticks := o.ticks + 1), st);
  }

  lemma TickLevel(o: Online, st: States)
    requires Sound(o) && Configured(o) && o.policy == CfsLite && Alone(o, st) && Level(o, st)
    ensures Level(Tick(o, st).0, Tick(o, st).1)
  {
    hide Tick, Prepare, Credit, Live, Has, Level;
    var t := o.(ticks := o.ticks + 1);
    SameView(o, t, st);
    PrepareLeast(t, st);
    PrepareEffect(t, st);
    var (q, st', _) := Prepare(t, st);
    CreditEffect(q, st');
    TickIsCredit(o, st);
    TickAloneIff(o, st);
    var p := Tick(o, st).0;
    if CurrentRunning(q, st') {
      InRange(q, st');
      LevelSame(o, st, t, st);
      CreditLevel(t, st, p, st', q.current);
    } else {
      LevelSame(o, st, p, st');
    }
  }

  lemma InRange(q: Online, st: States)
    requires CurrentRunning(q, st)
    ensures q.current < |q.slots|
  {
  }

  lemma LevelSame(o: Online, st: States, p: Online, st': States)
    requires Level(o, st) && p.slots == o.slots && forall i :: 0 <= i < |o.slots| ==> Live(p, st', i) == Live(o, st, i)
    ensures Level(p, st')
  {
    hide Live;
  }

  /** The scheduler and the process states between two ticks. */
  datatype Moment = Moment(o: Online, st: States)

  ghost predicate Ticked(run: seq<Moment>, k: nat)
    requires k + 1 < |run|
  {
    |run[k].o.slots| <= MAX_TASKS && Tick(run[k].o, run[k].st) == (run[k + 1].o, run[k + 1].st, true)
  }

  /** A run of ticks, with nothing else changing states. */
  ghost predicate TickRun(run: seq<Moment>)
  {
    && |run| > 0 && Sound(run[0].o) && Configured(run[0].o)
    && forall k :: 0 <= k < |run| - 1 ==> Ticked(run, k)
  }

  /** Consecutive ticks keep the policy and the slots, and conserve. */
  lemma {:induction false} RunConserves(run: seq<Moment>, k: nat)
    requires TickRun(run) && k < |run|
    ensures var (a, b) := (run[0].o, run[k].o);
      && Sound(b) && Configured(b) && b.policy == a.policy && |b.slots| == |a.slots| && b.ticks == a.ticks + k
      && (Conserved(a) ==> Conserved(b))
  {
    hide Tick;
    if k > 0 {
      RunConserves(run, k - 1);
      assert Ticked(run, k - 1);
      TickEffect(run[k - 1].o, run[k - 1].st);
      if Conserved(run[0].o) {
        TickConserves(run[k - 1].o, run[k - 1].st);
      }
    }
  }

  /** Under FCFS and CFS-lite one slot at most is ever RUNNING, and who is live never changes. */
  lemma {:induction false} RunAlone(run: seq<Moment>, k: nat)
    requires TickRun(run) && k < |run| && run[0].o.policy != Rr && Alone(run[0].o, run[0].st)
    ensures |run[k].o.slots| == |run[0].o.slots| && Alone(run[k].o, run[k].st)
    ensures forall i :: 0 <= i < |run[0].o.slots| ==> Live(run[k].o, run[k].st, i) == Live(run[0].o, run[0].st, i)
  {
    hide Tick;
    if k > 0 {
      RunAlone(run, k - 1);
      RunConserves(run, k - 1);
      assert Ticked(run, k - 1);
      TickAloneIff(run[k - 1].o, run[k - 1].st);
    }
  }

  lemma {:induction false} RunLevel(run: seq<Moment>, k: nat)
    requires TickRun(run) && k < |run| && run[0].o.policy == CfsLite
    requires Alone(run[0].o, run[0].st) && Level(run[0].o, run[0].st)
    ensures Level(run[k].o, run[k].st)
  {
    hide Tick;
    if k > 0 {
      RunLevel(run, k - 1);
      RunAlone(run, k - 1);
      RunConserves(run, k - 1);
      assert Ticked(run, k - 1);
      TickLevel(run[k - 1].o, run[k - 1].st);
    }
  }

  /** CFS-lite: after any number of ticks, slots that are always runnable differ by at most one
      credited tick. */
  lemma CfsOnlineFairness(run: seq<Moment>, k: nat, i: nat, j: nat)
    requires TickRun(run) && k < |run| && run[0].o.policy == CfsLite
    requires Alone(run[0].o, run[0].st) && Level(run[0].o, run[0].st) && Conserved(run[0].o)
    requires i < |run[0].o.slots| && j < |run[0].o.slots|
    requires Live(run[0].o, run[0].st, i) && Live(run[0].o, run[0].st, j)
    ensures |run[k].o.slots| == |run[0].o.slots|
    ensures run[k].o.slots[i].runTicks <= run[k].o.slots[j].runTicks + 1
  {
    RunLevel(run, k);
    RunAlone(run, k);
    RunConserves(run, k);
  }

  // ----- round robin's dropped slot

  /** A dropped slot: still RUNNING, not current, and nobody READY to tick for. */
  ghost predicate Stranded(o: Online, st: States)
  {
    o.policy == Rr && o.current == NO_INDEX && NoneReady(o, st)
  }

  /** A drop strands the machine, with the dropped process RUNNING. */
  lemma DropStrands(o: Online, st: States)
    requires Sound(o) && Configured(o) && Alone(o, st) && Drops(o, st)
    ensures var (p, st', _) := Tick(o, st);
      Stranded(p, st') && st' == st && Has(p, st', o.current, Running) && p.slots == o.slots
      && p.idleTicks == o.idleTicks + 1
  {
    var t := o.(ticks := o.ticks + 1);
    SameView(o, t, st);
    PrepareAlone(t, st);
    PrepareEffect(t, st);
    var (q, st', _) := Prepare(t, st);
    CreditEffect(q, st');
    var p := Credit(q, st');
    assert Tick(o, st) == (p, st', true);
    SameView(o, p, st);
  }

  lemma StrandedTick(o: Online, st: States)
    requires Sound(o) && Configured(o) && Stranded(o, st)
    ensures var (p, st', _) := Tick(o, st);
      Stranded(p, st') && st' == st && p.slots == o.slots && p.idleTicks == o.idleTicks + 1
  {
    var t := o.(ticks := o.ticks + 1);
    PrepareCases(t, st);
    var f := Opening(t, st);
    SameView(o, f, st);
    var next := Pick(f, st, t.current);
    if next != NO_INDEX {
      PickRrRunnable(f, st, t.current);
    }
    SameView(o, Tick(o, st).0, st);
  }

  /** From a drop on every tick is idle: the dropped process is RUNNING and is never credited again. */
  lemma {:induction false} StrandedForever(run: seq<Moment>, m: nat, k: nat)
    requires TickRun(run) && m <= k < |run| && Stranded(run[m].o, run[m].st)
    ensures Stranded(run[k].o, run[k].st) && run[k].st == run[m].st && run[k].o.slots == run[m].o.slots
    ensures run[k].o.idleTicks == run[m].o.idleTicks + (k - m)
  {
    hide Tick;
    if k > m {
      StrandedForever(run, m, k - 1);
      RunConserves(run, k - 1);
      assert Ticked(run, k - 1);
      StrandedTick(run[k - 1].o, run[k - 1].st);
    }
  }

  /** One READY process, round robin with slice 1. */
  ghost predicate SingleStart(m: Moment)
  {
    m == Moment(Configure(AddProcess(Init(), map[1 := State.Ready], 1).0, Rr, 1).0, map[1 := State.Ready])
  }

  lemma SingleAfterOne(run: seq<Moment>)
    requires TickRun(run) && 1 < |run| && SingleStart(run[0])
    ensures var (p, st) := (run[1].o, run[1].st);
      && Sound(p) && Configured(p) && Alone(p, st) && Drops(p, st)
      && p.slots == [Slot(1, 1, 1)] && st == map[1 := Running] && p.idleTicks == 0
  {
    assert run[0].o.slots == [Slot(1, 0, 0)];
    assert Ticked(run, 0);
    SingleFirstTick(run[0].o, run[0].st);
    RunConserves(run, 1);
  }

  /** The smallest case: it gets the first tick and, in every run, no other. */
  lemma SingleProcessStrands(run: seq<Moment>, k: nat)
    requires TickRun(run) && 0 < k < |run| && SingleStart(run[0])
    ensures run[k].o.slots == [Slot(1, 1, 1)] && run[k].st == map[1 := Running] && run[k].o.idleTicks == k - 1
  {
    SingleAfterOne(run);
    if k > 1 {
      assert Ticked(run, 1);
      DropStrands(run[1].o, run[1].st);
      StrandedForever(run, 2, k);
    }
  }

  lemma SingleFirstTick(o: Online, st: States)
    requires Sound(o) && o.slots == [Slot(1, 0, 0)] && o.policy == Rr && o.timeSlice == 1 && o.current == NO_INDEX
    requires o.idleTicks == 0 && st == map[1 := State.Ready]
    ensures Tick(o, st).0.slots == [Slot(1, 1, 1)] && Tick(o, st).1 == map[1 := Running]
    ensures Tick(o, st).0.sliceUsed == 1 && Tick(o, st).0.current == 0 && Tick(o, st).0.idleTicks == 0
    ensures Tick(o, st).0.policy == Rr && Tick(o, st).0.timeSlice == 1
  {
    var t := o.(ticks := o.ticks + 1);
    assert Runnable(t, st, RingIndex(0, 0, 1));
    assert Prepare(t, st).2;
  }

  // ----- reconfiguring

  /** configure forgets the current slot without demoting its process: only the current slot can be
      RUNNING afterwards if and only if no slot's process was RUNNING. */
  lemma ConfigureAloneIff(o: Online, st: States, policy: Policy, timeSlice: nat)
    requires Sound(o) && Configure(o, policy, timeSlice).1
    ensures Sound(Configure(o, policy, timeSlice).0) && Configured(Configure(o, policy, timeSlice).0)
    ensures Alone(Configure(o, policy, timeSlice).0, st) <==>
            forall i :: 0 <= i < |o.slots| ==> !Has(o, st, i, Running)
  {
    var p := Configure(o, policy, timeSlice).0;
    assert forall i :: 0 <= i < |o.slots| ==> Has(p, st, i, Running) == Has(o, st, i, Running);
  }

  /** The smallest case: one process is RUNNING and current, and configuring forgets it. */
  lemma ConfigureForgets(o: Online, st: States)
    requires o == Init().(slots := [Slot(1, 0, 0)], current := 0, currentPid := 1) && st == map[1 := Running]
    ensures Alone(o, st) && Configure(o, Fcfs, 0).1 && !Alone(Configure(o, Fcfs, 0).0, st)
  {
    assert Has(Configure(o, Fcfs, 0).0, st, 0, Running);
  }

  /** Registering a process keeps the scheduler sound and the books conserved. */
  lemma AddKeeps(o: Online, st: States, pid: nat)
    requires Sound(o) && Conserved(o)
    ensures Sound(AddProcess(o, st, pid).0) && Conserved(AddProcess(o, st, pid).0)
  {
    var p := AddProcess(o, st, pid).0;
    if AddProcess(o, st, pid).1 {
      assert o.current == NO_INDEX || o.current < |p.slots|;
      assert RunTicks(p.slots) == RunTicks(o.slots) + [0];
      SumAppend(RunTicks(o.slots), 0);
    }
  }
}
