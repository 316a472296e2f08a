/** Fairness of the online scheduler while other processes come and go: process states may be changed from
    outside before every tick, as long as nobody is set RUNNING behind the scheduler's back. */
module OnlineFairness {
  import opened CourseProcessTypes
  import SchedulerModel
  import opened ProcessStates
  import opened OnlineModel
  import opened OnlineRuns

  /** Before tick k the states become mids[k]; the tick leads from there to the next moment. */
  ghost predicate Round(run: seq<Moment>, mids: seq<States>, k: nat)
    requires k + 1 < |run| && k < |mids|
  {
    |run[k].o.slots| <= SchedulerModel.MAX_TASKS && Tick(run[k].o, mids[k]) == (run[k + 1].o, run[k + 1].st, true)
  }

  /** From outside a process may block, finish, die or become ready, but is not set RUNNING. */
  ghost predicate NobodyStarted(o: Online, st: States, mid: States)
  {
    forall q :: 0 <= q < |o.slots| && Has(o, mid, q, Running) ==> Has(o, st, q, Running)
  }

  ghost predicate DisturbedRun(run: seq<Moment>, mids: seq<States>)
  {
    && |run| == |mids| + 1 && Sound(run[0].o) && Configured(run[0].o)
    && (forall k :: 0 <= k < |mids| ==> Round(run, mids, k))
    && (forall k :: 0 <= k < |mids| ==> NobodyStarted(run[k].o, run[k].st, mids[k]))
  }

  lemma {:induction false} RunSound(run: seq<Moment>, mids: seq<States>, k: nat)
    requires DisturbedRun(run, mids) && k < |run|
    ensures var (a, b) := (run[0].o, run[k].o);
      && Sound(b) && Configured(b) && |b.slots| == |a.slots| && b.policy == a.policy && b.timeSlice == a.timeSlice
      && (Conserved(a) ==> Conserved(b))
  {
    hide Tick, Conserved;
    if k > 0 {
      RunSound(run, mids, k - 1);
      assert Round(run, mids, k - 1);
      TickEffect(run[k - 1].o, mids[k - 1]);
      if Conserved(run[0].o) { TickConserves(run[k - 1].o, mids[k - 1]); }
    }
  }

  // ----- round robin: a bounded wait

  /** Steps round a ring of n places from start to i. */
  function Offset(start: nat, i: nat, n: nat): (r: nat)
    requires start < n && i < n
    ensures r < n
  {
    if i >= start then i - start else i + n - start
  }

  lemma Wrap(a: nat, n: nat)
    requires a < 2 * n
    ensures a % n == if a < n then a else a - n
  {
    if a >= n { assert a == n + (a - n); }
  }

  lemma RingAt(start: nat, k: nat, n: nat)
    requires start < n && k < n
    ensures RingIndex(start, k, n) == if start + k < n then start + k else start + k - n
    ensures Offset(start, RingIndex(start, k, n), n) == k
  {
    Wrap(start + k, n);
  }

  lemma {:induction false} PickFromUpTo(o: Online, st: States, start: nat, step: nat, k: nat)
    requires 0 < |o.slots| <= SchedulerModel.MAX_TASKS && start < |o.slots| && step <= k < |o.slots|
    requires Runnable(o, st, RingIndex(start, k, |o.slots|))
    ensures var next := PickRrFrom(o, st, start, step);
      next < |o.slots| && Runnable(o, st, next) && Offset(start, next, |o.slots|) <= k
    decreases |o.slots| - step
  {
    hide Runnable;
    RingAt(start, step, |o.slots|);
    if !Runnable(o, st, RingIndex(start, step, |o.slots|)) { PickFromUpTo(o, st, start, step + 1, k); }
  }

  lemma StartInRing(o: Online)
    requires Sound(o) && o.slots != []
    ensures RrStart(o, o.current) < |o.slots|
    ensures o.current < |o.slots| ==> RrStart(o, o.current) == if o.current + 1 < |o.slots| then o.current + 1 else 0
  {
    if o.current + 1 == |o.slots| { assert (o.current + 1) % |o.slots| == 0; }
  }

  /** The ring search goes no further than a READY slot. */
  lemma PickUpTo(o: Online, st: States, i: nat, previous: nat)
    requires |o.slots| <= SchedulerModel.MAX_TASKS && Runnable(o, st, i) && RrStart(o, previous) < |o.slots|
    ensures var next := PickRr(o, st, previous);
      var start := RrStart(o, previous);
      next < |o.slots| && Runnable(o, st, next) && Offset(start, next, |o.slots|) <= Offset(start, i, |o.slots|)
  {
    var start := RrStart(o, previous);
    var k := Offset(start, i, |o.slots|);
    RingAt(start, k, |o.slots|);
    hide Runnable, RrStart;
    PickFromUpTo(o, st, start, 0, k);
  }

  /** Ticks a READY slot may still have to wait: what is left of the running slice, and one slice for each
      place between. */
  function RrWait(o: Online, st: States, i: nat): (r: nat)
    requires i < |o.slots| && RrStart(o, o.current) < |o.slots|
  {
    var left := if CurrentRunning(o, st) && o.sliceUsed < o.timeSlice then o.timeSlice - o.sliceUsed else 0;
    left + Offset(RrStart(o, o.current), i, |o.slots|) * o.timeSlice + 1
  }

  lemma WaitBound(o: Online, st: States, i: nat)
    requires Sound(o) && o.policy == SchedulerModel.Rr && o.timeSlice > 0 && Runnable(o, st, i)
    ensures RrStart(o, o.current) < |o.slots|
    ensures RrWait(o, st, i) <= |o.slots| * o.timeSlice
  {
    StartInRing(o);
    var e, n, s := Offset(RrStart(o, o.current), i, |o.slots|), |o.slots|, o.timeSlice;
    if CurrentRunning(o, st) {
      assert e <= n - 2;
      Scaled(e, n - 2, s);
      assert (n - 2) * s + s + s == n * s;
    } else {
      Scaled(e, n - 1, s);
      assert (n - 1) * s + s == n * s;
    }
  }

  lemma OneSliceNearer(near: nat, far: nat, s: nat)
    requires near < far
    ensures near * s + s <= far * s
  {
    Scaled(near + 1, far, s);
    assert (near + 1) * s == near * s + s;
  }

  lemma Scaled(a: nat, b: nat, s: nat)
    requires a <= b
    ensures a * s <= b * s
  {
  }

  /** Between a ring place passed over and the one behind it. */
  lemma OffsetBehind(start: nat, next: nat, i: nat, n: nat)
    requires start < n && next < n && i < n && Offset(start, next, n) < Offset(start, i, n)
    ensures var behind := if next + 1 < n then next + 1 else 0;
      Offset(behind, i, n) + 1 + Offset(start, next, n) == Offset(start, i, n)
  {
  }

  /** Handing over to another slot brings a READY slot nearer by more than the new slice costs. */
  lemma HandOverNearer(o: Online, p: Online, st': States, next: nat, i: nat)
    requires o.slots != [] && |p.slots| == |o.slots| && i < |o.slots| && next < |o.slots| && Sound(p)
    requires RrStart(o, o.current) < |o.slots| && p.current == next && p.sliceUsed == 1
    requires p.timeSlice == o.timeSlice > 0
    requires Offset(RrStart(o, o.current), next, |o.slots|) < Offset(RrStart(o, o.current), i, |o.slots|)
    ensures RrStart(p, p.current) < |p.slots|
    ensures RrWait(p, st', i) < Offset(RrStart(o, o.current), i, |o.slots|) * o.timeSlice + 1
  {
    StartInRing(p);
    var start, n := RrStart(o, o.current), |o.slots|;
    OffsetBehind(start, next, i, n);
    hide Offset, RrStart;
    OneSliceNearer(Offset(RrStart(p, p.current), i, n), Offset(start, i, n), o.timeSlice);
  }

  /** A READY slot is credited by the tick, or stays READY with less to wait for. */
  lemma RrTickNearer(o: Online, st: States, i: nat)
    requires Sound(o) && o.policy == SchedulerModel.Rr && o.timeSlice > 0 && Runnable(o, st, i)
    requires RrStart(o, o.current) < |o.slots|
    ensures var (p, st', ok) := Tick(o, st);
      && Sound(p) && |p.slots| == |o.slots| && CurrentRunning(p, st')
      && (p.current == i || (Runnable(p, st', i) && RrStart(p, p.current) < |p.slots| && RrWait(p, st', i) < RrWait(o, st, i)))
  {
    TickEffect(o, st);
    var t := o.(ticks := o.ticks + 1);
    TickIsCredit(o, st);
    PrepareCases(t, st);
    if Keeps(t, st) {
      KeptNearer(o, st, i);
    } else {
      HandedNearer(o, st, i);
    }
  }

  lemma KeptNearer(o: Online, st: States, i: nat)
    requires Sound(o) && o.policy == SchedulerModel.Rr && o.timeSlice > 0 && Runnable(o, st, i)
    requires RrStart(o, o.current) < |o.slots| && Keeps(o.(ticks := o.ticks + 1), st)
    ensures var (p, st', ok) := Tick(o, st);
      && |p.slots| == |o.slots| && Runnable(p, st', i) && RrStart(p, p.current) < |p.slots|
      && RrWait(p, st', i) < RrWait(o, st, i) && CurrentRunning(p, st')
  {
    var (p, st', ok) := Tick(o, st);
    assert st' == st && p.current == o.current && p.sliceUsed == o.sliceUsed + 1;
    assert forall q :: 0 <= q < |o.slots| ==> p.slots[q].pid == o.slots[q].pid;
  }

  lemma HandedNearer(o: Online, st: States, i: nat)
    requires Sound(o) && o.policy == SchedulerModel.Rr && o.timeSlice > 0 && Runnable(o, st, i)
    requires RrStart(o, o.current) < |o.slots| && !Keeps(o.(ticks := o.ticks + 1), st)
    ensures var (p, st', ok) := Tick(o, st);
      && |p.slots| == |o.slots| && CurrentRunning(p, st')
      && (p.current == i || (Runnable(p, st', i) && RrStart(p, p.current) < |p.slots| && RrWait(p, st', i) < RrWait(o, st, i)))
  {
    hide Prepare, Select, Tick, PickRr, Offset, RrWait, Credit;
    var t := o.(ticks := o.ticks + 1);
    PrepareCases(t, st);
    var e := Released(t, st);
    var f := if CurrentRunning(t, st) then e.(preempts := e.preempts + 1) else e;
    assert f.slots == o.slots && RrStart(f, o.current) == RrStart(o, o.current);
    assert Runnable(f, st, i);
    hide Runnable, RrStart;
    PickUpTo(f, st, i, o.current);
    var next := PickRr(f, st, o.current);
    RunnableIsCandidate(f, st, next);
    SelectEffect(f, st, next);
    var (q, st', _) := Select(f, st, next);
    TickIsCredit(o, st);
    Handed(o, st, q, st', i, next);
  }

  lemma RunnableIsCandidate(o: Online, st: States, i: nat)
    requires Runnable(o, st, i)
    ensures i < |o.slots| && Candidate(o, st, i) && (i == o.current ==> !CurrentRunning(o, st))
  {
  }

  /** What remains once the selection is made. */
  lemma Handed(o: Online, st: States, q: Online, st': States, i: nat, next: nat)
    requires Sound(o) && o.timeSlice > 0 && i < |o.slots| && next < |o.slots| && RrStart(o, o.current) < |o.slots|
    requires Sound(q) && q.slots == o.slots && q.current == next && q.sliceUsed == 0 && q.timeSlice == o.timeSlice
    requires Has(q, st', next, Running) && (i != next ==> Runnable(q, st', i))
    requires Offset(RrStart(o, o.current), next, |o.slots|) <= Offset(RrStart(o, o.current), i, |o.slots|)
    ensures var p := Credit(q, st');
      && |p.slots| == |o.slots| && CurrentRunning(p, st')
      && (p.current == i || (Runnable(p, st', i) && RrStart(p, p.current) < |p.slots| && RrWait(p, st', i) < RrWait(o, st, i)))
  {
    var p := Credit(q, st');
    assert forall k :: 0 <= k < |o.slots| ==> p.slots[k].pid == o.slots[k].pid;
    assert Sound(p) by { CreditEffect(q, st'); }
    if i != next {
      assert Runnable(p, st', i);
      OffsetApart(RrStart(o, o.current), next, i, |o.slots|);
      HandOverNearer(o, p, st', next, i);
    }
  }

  lemma OffsetApart(start: nat, a: nat, b: nat, n: nat)
    requires start < n && a < n && b < n && a != b
    ensures Offset(start, a, n) != Offset(start, b, n)
  {
  }

  /** Changes from outside lengthen no wait. */
  lemma OutsideWait(o: Online, st: States, mid: States, i: nat)
    requires Sound(o) && i < |o.slots| && RrStart(o, o.current) < |o.slots| && NobodyStarted(o, st, mid)
    ensures RrWait(o, mid, i) <= RrWait(o, st, i)
  {
    assert CurrentRunning(o, mid) ==> CurrentRunning(o, st);
  }

  /** Slot i was READY and has been credited at moment m. */
  ghost predicate CreditedAt(run: seq<Moment>, m: nat, i: nat)
  {
    && 0 < m < |run| && i < |run[m].o.slots| == |run[m - 1].o.slots|
    && run[m].o.current == i && CurrentRunning(run[m].o, run[m].st)
    && run[m].o.slots[i].runTicks == run[m - 1].o.slots[i].runTicks + 1
  }

  /** Nobody outside takes the slot's READY state away. */
  ghost predicate LeftReady(run: seq<Moment>, mids: seq<States>, i: nat)
    requires |run| == |mids| + 1
  {
    forall m :: 0 <= m < |mids| && Runnable(run[m].o, run[m].st, i) ==> Runnable(run[m].o, mids[m], i)
  }

  lemma {:induction false} RrWithin(run: seq<Moment>, mids: seq<States>, k: nat, i: nat)
    requires DisturbedRun(run, mids) && run[0].o.policy == SchedulerModel.Rr && LeftReady(run, mids, i)
    requires k < |run| && Runnable(run[k].o, run[k].st, i) && RrStart(run[k].o, run[k].o.current) < |run[k].o.slots|
    requires k + RrWait(run[k].o, run[k].st, i) < |run|
    ensures exists m :: k < m <= k + RrWait(run[k].o, run[k].st, i) && CreditedAt(run, m, i)
    decreases |run| - k
  {
    hide Tick, RrStart, RrWait, Runnable;
    var o := run[k].o;
    RunSound(run, mids, k);
    WaitPositive(o, run[k].st, i);
    var mid := mids[k];
    assert Round(run, mids, k);
    OutsideWait(o, run[k].st, mid, i);
    RrTickNearer(o, mid, i);
    TickEffect(o, mid);
    if run[k + 1].o.current == i {
      assert CreditedAt(run, k + 1, i);
    } else {
      RrWithin(run, mids, k + 1, i);
    }
  }

  lemma WaitPositive(o: Online, st: States, i: nat)
    requires Runnable(o, st, i) && RrStart(o, o.current) < |o.slots|
    ensures i < |o.slots| && RrWait(o, st, i) > 0
  {
    assert Offset(RrStart(o, o.current), i, |o.slots|) * o.timeSlice >= 0;
  }

  /** Round robin: a process that is READY and left READY is credited within slots times slice ticks, whatever
      happens to the other processes. */
  lemma OnlineRrBoundedWait(run: seq<Moment>, mids: seq<States>, k: nat, i: nat)
    requires DisturbedRun(run, mids) && run[0].o.policy == SchedulerModel.Rr && LeftReady(run, mids, i)
    requires k < |run| && Runnable(run[k].o, run[k].st, i)
    requires k + |run[k].o.slots| * run[k].o.timeSlice < |run|
    ensures exists m :: k < m <= k + |run[k].o.slots| * run[k].o.timeSlice && CreditedAt(run, m, i)
  {
    hide RrStart, RrWait, Runnable, DisturbedRun, LeftReady, CreditedAt;
    RunSound(run, mids, k);
    WaitBound(run[k].o, run[k].st, i);
    RrWithin(run, mids, k, i);
  }

  // ----- CFS-lite: any two slots stay within one tick

  ghost predicate Near(o: Online, i: nat, j: nat)
  {
    && i < |o.slots| && j < |o.slots|
    && o.slots[i].vruntime <= o.slots[j].vruntime + 1 && o.slots[j].vruntime <= o.slots[i].vruntime + 1
  }

  lemma CreditNear(o: Online, p: Online, c: nat, i: nat, j: nat)
    requires Near(o, i, j) && c < |o.slots| && !RunsBefore(o, i, c) && !RunsBefore(o, j, c)
    requires p.slots == o.slots[c := Slot(o.slots[c].pid, o.slots[c].vruntime + 1, o.slots[c].runTicks + 1)]
    ensures Near(p, i, j)
  {
  }

  /** A tick keeps two live slots near, and leaves only the current one RUNNING. */
  lemma CfsTickNear(o: Online, st: States, i: nat, j: nat)
    requires Sound(o) && Configured(o) && o.policy == SchedulerModel.CfsLite && Alone(o, st)
    requires Near(o, i, j) && Live(o, st, i) && Live(o, st, j)
    ensures var (p, st', _) := Tick(o, st); Near(p, i, j) && Alone(p, st')
  {
    hide Tick, Prepare, Credit, Live, Has, Near, RunsBefore;
    var t := o.(ticks := o.ticks + 1);
    SameView(o, t, st);
    PrepareLeast(t, st);
    PrepareEffect(t, st);
    var (q, st', _) := Prepare(t, st);
    CreditEffect(q, st');
    TickIsCredit(o, st);
    TickAloneIff(o, st);
    var p := Tick(o, st).0;
    NearSame(o, t, i, j);
    if CurrentRunning(q, st') {
      InRange(q, st');
      NearInRange(o, i, j);
      CreditNear(t, p, q.current, i, j);
    } else {
      NearSame(o, p, i, j);
    }
  }

  lemma NearInRange(o: Online, i: nat, j: nat)
    requires Near(o, i, j)
    ensures i < |o.slots| && j < |o.slots|
  {
  }

  lemma NearSame(o: Online, p: Online, i: nat, j: nat)
    requires Near(o, i, j) && p.slots == o.slots
    ensures Near(p, i, j)
  {
  }

  lemma AloneOutside(o: Online, st: States, mid: States)
    requires Alone(o, st) && NobodyStarted(o, st, mid)
    ensures Alone(o, mid)
  {
  }

  /** CFS-lite, over any run in which both stay live: two slots that start within one credited tick of each other
      stay so, whatever happens to the other processes. */
  lemma {:induction false} CfsPairFairness(run: seq<Moment>, mids: seq<States>, k: nat, i: nat, j: nat)
    requires DisturbedRun(run, mids) && k < |run| && run[0].o.policy == SchedulerModel.CfsLite
    requires Alone(run[0].o, run[0].st) && Near(run[0].o, i, j)
    requires forall m :: 0 <= m < |mids| ==> Live(run[m].o, mids[m], i) && Live(run[m].o, mids[m], j)
    ensures Near(run[k].o, i, j) && Alone(run[k].o, run[k].st)
  {
    hide Tick, Near, Alone, Live;
    if k > 0 {
      CfsPairFairness(run, mids, k - 1, i, j);
      RunSound(run, mids, k - 1);
      assert Round(run, mids, k - 1);
      AloneOutside(run[k - 1].o, run[k - 1].st, mids[k - 1]);
      CfsTickNear(run[k - 1].o, mids[k - 1], i, j);
    }
  }

  // ----- from the start

  /** Registering processes one after another. */
  function AddAll(o: Online, st: States, pids: seq<nat>): (r: Online)
    decreases |pids|
  {
    if pids == [] then o else AddProcess(AddAll(o, st, pids[..|pids| - 1]), st, pids[|pids| - 1]).0
  }

  lemma {:induction false} AddAllFresh(st: States, pids: seq<nat>)
    ensures var o := AddAll(Init(), st, pids);
      && Sound(o) && Configured(o) && Conserved(o) && o.current == NO_INDEX
      && forall i :: 0 <= i < |o.slots| ==> o.slots[i].vruntime == 0
    decreases |pids|
  {
    if pids == [] {
      assert RunTicks(Init().slots) == [];
    } else {
      var n := |pids| - 1;
      AddAllFresh(st, pids[..n]);
      AddKeeps(AddAll(Init(), st, pids[..n]), st, pids[n]);
    }
  }

  /** From initialization, registrations and a switch to CFS-lite on: slots that stay live have run ticks within
      one of each other at every moment, whatever happens to the others. */
  lemma CfsFairFromStart(st: States, pids: seq<nat>, slice: nat, run: seq<Moment>, mids: seq<States>, k: nat, i: nat, j: nat)
    requires slice > 0 && DisturbedRun(run, mids) && k < |run|
    requires run[0] == Moment(Configure(AddAll(Init(), st, pids), SchedulerModel.CfsLite, slice).0, st)
    requires forall q :: 0 <= q < |run[0].o.slots| ==> !Has(run[0].o, st, q, Running)
    requires i < |run[0].o.slots| && j < |run[0].o.slots|
    requires forall m :: 0 <= m < |mids| ==> Live(run[m].o, mids[m], i) && Live(run[m].o, mids[m], j)
    ensures |run[k].o.slots| == |run[0].o.slots|
    ensures run[k].o.slots[i].runTicks <= run[k].o.slots[j].runTicks + 1
  {
    AddAllFresh(st, pids);
    assert Near(run[0].o, i, j) && Alone(run[0].o, st) && Conserved(run[0].o);
    hide DisturbedRun, AddAll, Live, Alone, Sound, Configured;
    CfsPairFairness(run, mids, k, i, j);
    RunSound(run, mids, k);
  }
}
