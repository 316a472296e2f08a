/** Runs of the process table: every operation keeps the accounting, and the counts are exact
    in exactly the runs that never reuse a slot still holding a page. */
module CourseProcessRuns {
  import opened Common
  import opened Sets
  import opened CourseProcessTypes
  import opened CourseProcessSpec
  import opened CourseProcessAccounting

  datatype Op =
    | OpSpawn(ppid: nat)
    | OpFork(pid: nat)
    | OpSetState(pid: nat, state: State)
    | OpExit(pid: nat, code: int)
    | OpKill(caller: nat, pid: nat)
    | OpWaitPid(parent: nat, pid: nat)
    | OpWait(parent: nat)
    | OpExec(pid: nat, load: Option<Image>)
    | OpMap(pid: nat, index: nat, fill: Byte)
    | OpRead(pid: nat, index: nat, offset: nat)
    | OpWrite(pid: nat, index: nat, offset: nat, value: Byte)
    | OpStoreFault(pid: nat, index: nat, offset: nat)

  /** What the caller learns: a pid, an exit status, a byte, or just success. */
  datatype Result = Failed | Done(value: int)

  function FromBool(ok: bool): (r: Result)
  {
    if ok then Done(0) else Failed
  }

  function FromOption(o: Option<int>): (r: Result)
  {
    match o
    case None => Failed
    case Some(v) => Done(v)
  }

  function FromSlot<P>(procs: seq<Process<P>>, slot: Option<nat>): (r: Result)
  {
    if slot.Some? && slot.value < |procs| then Done(procs[slot.value].pid) else Failed
  }

  function Step(t: Table, op: Op): (r: (Table, Result))
    requires Shaped(t)
    ensures Shaped(r.0)
  {
    match op
    case OpSpawn(ppid) => var (u, c) := Spawn(t, ppid); (u, FromSlot(u.procs, c))
    case OpFork(pid) => var (u, c) := Fork(t, pid); (u, FromSlot(u.procs, c))
    case OpSetState(pid, state) => var (u, ok) := SetState(t, pid, state); (u, FromBool(ok))
    case OpExit(pid, code) => var (u, ok) := Exit(t, pid, code); (u, FromBool(ok))
    case OpKill(caller, pid) => var (u, ok) := Kill(t, caller, pid); (u, FromBool(ok))
    case OpWaitPid(parent, pid) => var (u, s) := WaitPid(t, parent, pid); (u, FromOption(s))
    case OpWait(parent) => var (u, s) := Wait(t, parent); (u, FromOption(s))
    case OpExec(pid, load) => var (u, ok) := Exec(t, pid, load); (u, FromBool(ok))
    case OpMap(pid, i, fill) => var (u, ok) := Map(t, pid, i, fill); (u, FromBool(ok))
    case OpRead(pid, i, offset) => (t, FromOption(Read(t, pid, i, offset)))
    case OpWrite(pid, i, offset, value) => var (u, ok) := Write(t, pid, i, offset, value); (u, FromBool(ok))
    case OpStoreFault(pid, i, offset) => var (u, ok) := StoreFault(t, pid, i, offset); (u, FromBool(ok))
  }

  /** A caller's discipline, checkable before the call: a process that still holds
      pages is not declared DEAD by set_state, and nothing is mapped into a DEAD process. */
  predicate Admissible(t: Table, op: Op)
    requires Shaped(t)
  {
    match op
    case OpSetState(pid, state) =>
      var p := Find(t.procs, pid);
      p.Some? && state == Dead ==>
        forall i :: 0 <= i < MAX_USER_PAGES ==> !t.procs[p.value].pages[i].mapped
    case OpMap(pid, _, _) =>
      var p := Find(t.procs, pid);
      p.Some? ==> t.procs[p.value].state != Dead
    case _ => true
  }

  function Init(): (r: Table)
    ensures Shaped(r)
  {
    Table(seq(MAX_PROCESSES, _ => NoProcess(NO_REF)), seq(MAX_COW_PAGES, _ => NoPage()),
          CowStats(0, 0, 0, 0, 0, 0), 1, 1)
  }

  lemma InitInv()
    ensures Inv(Init()) && CountsExact(Init()) && DeadClean(Init())
  {
    assert UsedPages(Init().pages) == {};
  }

  // ----- spawn and slot reuse

  /** The references that go when slot c is cleared are those of slot c. */
  lemma SpawnRefs(t: Table, ppid: nat, c: nat, id: nat)
    requires Shaped(t) && Spawn(t, ppid).1 == Some(c)
    ensures Refs(Spawn(t, ppid).0.procs, id) <= Refs(t.procs, id)
    ensures forall q: nat, j: nat ::
      (q, j) in Refs(Spawn(t, ppid).0.procs, id) <==> q != c && (q, j) in Refs(t.procs, id)
  {
    var u := Spawn(t, ppid).0;
    assert forall q :: 0 <= q < |t.procs| && q != c ==> u.procs[q] == t.procs[q];
    assert Clean(u.procs[c]);
  }

  ghost predicate NoExcessFalls(t: Table, u: Table)
  {
    |u.pages| == |t.pages| && forall k :: 0 <= k < |t.pages| ==> Excess(u, k) >= Excess(t, k)
  }

  /** Whatever slot is reused, no reference that stays loses its page, and no count falls short. */
  lemma SpawnKeepsInv(t: Table, ppid: nat)
    requires Inv(t)
    ensures Inv(Spawn(t, ppid).0)
    ensures NoExcessFalls(t, Spawn(t, ppid).0)
  {
    var (u, slot) := Spawn(t, ppid);
    if slot.Some? {
      var c := slot.value;
      IssuedNext(t.nextPid);
      forall q, j | 0 <= q < |u.procs| && 0 <= j < |u.procs[q].pages| ensures RefOk(u, q, j) {
        assert RefOk(t, q, j);
        if q != c && u.procs[q].pages[j].mapped {
          SpawnRefs(t, ppid, c, u.procs[q].pages[j].id);
        }
      }
      forall l | 0 <= l < |u.pages| ensures CountOk(u, l) && Excess(u, l) >= Excess(t, l) {
        assert CountOk(t, l);
        SpawnRefs(t, ppid, c, t.pages[l].id);
        SubsetSize(Refs(u.procs, t.pages[l].id), Refs(t.procs, t.pages[l].id));
      }
    }
  }

  /** The slot a spawn or fork would take still holds a page. */
  predicate HeldSlot(t: Table)
    requires Shaped(t)
  {
    var c := FreeSlotFrom(t.procs, 0);
    c.Some? && exists i :: 0 <= i < MAX_USER_PAGES && t.procs[c.value].pages[i].mapped
  }

  /** Taking a slot raises the excess of some page if and only if the slot's last owner left a page behind. */
  lemma SpawnExcessIff(t: Table, ppid: nat)
    requires Inv(t) && Spawn(t, ppid).1.Some?
    ensures SameExcess(t, Spawn(t, ppid).0) <==> !HeldSlot(t)
    ensures CountsExact(Spawn(t, ppid).0) <==> CountsExact(t) && !HeldSlot(t)
  {
    var c := Spawn(t, ppid).1.value;
    SpawnKeepsInv(t, ppid);
    if HeldSlot(t) {
      var i :| 0 <= i < MAX_USER_PAGES && t.procs[c].pages[i].mapped;
      SpawnLeaks(t, ppid, c, i);
    } else {
      forall k | 0 <= k < |t.pages| ensures Excess(Spawn(t, ppid).0, k) == Excess(t, k) {
        SpawnRefs(t, ppid, c, t.pages[k].id);
        assert Refs(Spawn(t, ppid).0.procs, t.pages[k].id) == Refs(t.procs, t.pages[k].id);
      }
    }
    ExcessNeverFalls(t, Spawn(t, ppid).0);
  }

  /** Where no excess falls, inexact counts stay inexact. */
  lemma ExcessNeverFalls(t: Table, u: Table)
    requires Inv(t) && NoExcessFalls(t, u)
    ensures CountsExact(u) ==> CountsExact(t)
  {
    forall k | 0 <= k < |t.pages| && Excess(u, k) == 0 ensures Excess(t, k) == 0 {
      assert CountOk(t, k);
    }
  }

  lemma SpawnLeaks(t: Table, ppid: nat, c: nat, i: nat)
    requires Inv(t) && Spawn(t, ppid).1 == Some(c)
    requires i < MAX_USER_PAGES && t.procs[c].pages[i].mapped
    ensures var k := FindPage(t.pages, t.procs[c].pages[i].id);
      k.Some? && Excess(Spawn(t, ppid).0, k.value) > Excess(t, k.value) >= 0
    ensures !CountsExact(Spawn(t, ppid).0) && !SameExcess(t, Spawn(t, ppid).0)
  {
    assert RefOk(t, c, i);
    var id := t.procs[c].pages[i].id;
    var k := FindPage(t.pages, id).value;
    assert CountOk(t, k);
    var u := Spawn(t, ppid).0;
    assert (c, i) in Refs(t.procs, id);
    SpawnRefs(t, ppid, c, id);
    SubsetSize(Refs(u.procs, id), Refs(t.procs, id) - {(c, i)});
    assert Excess(u, k) > Excess(t, k);
  }

  // ----- releasing all pages of a process

  lemma {:induction false} DropFromKeepsInv(t: Table, p: nat, i: nat)
    requires Inv(t) && p < MAX_PROCESSES && i <= MAX_USER_PAGES
    requires forall j :: 0 <= j < i ==> !t.procs[p].pages[j].mapped
    ensures var u := DropFrom(t, p, i);
      && Inv(u) && SameExcess(t, u) && Clean(u.procs[p]) && u.nextPid == t.nextPid && u.nextPageId == t.nextPageId
      && u.procs == t.procs[p := t.procs[p].(pages := u.procs[p].pages)]
    decreases MAX_USER_PAGES - i
  {
    if i < MAX_USER_PAGES {
      DropRefKeepsInv(t, p, i);
      DropFromKeepsInv(DropRef(t, p, i), p, i + 1);
    }
  }

  /** Metadata of one process changes; nothing else does. */
  lemma MetaKeepsInv(t: Table, p: nat, process: Process<PageRef>)
    requires Inv(t) && p < MAX_PROCESSES
    requires process.used == t.procs[p].used && process.pid == t.procs[p].pid && process.pages == t.procs[p].pages
    ensures var u := t.(procs := t.procs[p := process]); Inv(u) && SameExcess(t, u)
  {
    AccountedFrame(t, t.(procs := t.procs[p := process]));
  }

  lemma WaitPidKeepsInv(t: Table, parent: nat, child: nat)
    requires Inv(t)
    ensures Inv(WaitPid(t, parent, child).0) && SameExcess(t, WaitPid(t, parent, child).0)
    ensures DeadClean(t) ==> DeadClean(WaitPid(t, parent, child).0)
  {
    var (u, s) := WaitPid(t, parent, child);
    if s.Some? {
      var p := Find(t.procs, child).value;
      DropFromKeepsInv(t, p, 0);
      var d := DropAll(t, p);
      MetaKeepsInv(d, p, d.procs[p].(state := Dead));
    }
  }

  lemma ExecKeepsInv(t: Table, pid: nat, load: Option<Image>)
    requires Inv(t)
    ensures Inv(Exec(t, pid, load).0) && SameExcess(t, Exec(t, pid, load).0)
    ensures DeadClean(t) ==> DeadClean(Exec(t, pid, load).0)
  {
    var (u, ok) := Exec(t, pid, load);
    if ok {
      var p := Find(t.procs, pid).value;
      DropFromKeepsInv(t, p, 0);
      var d := DropAll(t, p);
      MetaKeepsInv(d, p, d.procs[p].(image := load.value, state := Ready));
    }
  }

  // ----- fork

  /** Sharing from i on: it always finds the parent's pages, and only the two page lists move. */
  lemma {:induction false} ShareFromKeepsInv(t: Table, parent: nat, child: nat, i: nat)
    requires Inv(t) && parent < MAX_PROCESSES && child < MAX_PROCESSES && parent != child && i <= MAX_USER_PAGES
    requires t.procs[parent].used && t.procs[child].used
    requires forall j :: i <= j < MAX_USER_PAGES ==> !t.procs[child].pages[j].mapped
    ensures var (u, ok) := ShareFrom(t, parent, child, i);
      && ok && Inv(u) && SameExcess(t, u) && u.nextPid == t.nextPid && u.nextPageId == t.nextPageId
      && u.procs == t.procs[parent := t.procs[parent].(pages := u.procs[parent].pages)]
                           [child := t.procs[child].(pages := u.procs[child].pages)]
    decreases MAX_USER_PAGES - i
  {
    hide PidsOk, IdsOk, RefsOk, CountsOk, StatsOk;
    if i < MAX_USER_PAGES {
      ShareKeepsInv(t, parent, child, i);
      ShareFromKeepsInv(Share(t, parent, child, i).value, parent, child, i + 1);
    }
  }

  lemma SeedKeepsInv(t: Table, pid: nat, p: nat, c: nat)
    requires Inv(t) && Spawn(t, pid).1 == Some(c) && p < MAX_PROCESSES && p != c && t.procs[p].used
    ensures var s := ForkSeed(Spawn(t, pid).0, p, c);
      && Inv(s) && SameExcess(Spawn(t, pid).0, s) && s.procs[p] == t.procs[p] && s.procs[c].used && Clean(s.procs[c])
      && (DeadClean(t) ==> DeadClean(s))
  {
    SpawnKeepsInv(t, pid);
    var s := Spawn(t, pid).0;
    MetaKeepsInv(s, c, s.procs[c].(image := s.procs[p].image));
  }

  /** A fork is taken up: its parent can fork, and there is a slot and a pid. */
  predicate Forks(t: Table, pid: nat)
    requires Shaped(t)
  {
    var parent := Find(t.procs, pid);
    && parent.Some? && t.procs[parent.value].state != Dead && t.procs[parent.value].state != Zombie
    && Spawn(t, pid).1.Some?
  }

  lemma ForkKeepsInv(t: Table, pid: nat)
    requires Inv(t)
    ensures Inv(Fork(t, pid).0)
    ensures if Forks(t, pid) then SameExcess(Spawn(t, pid).0, Fork(t, pid).0) else Fork(t, pid) == (t, None)
    ensures Fork(t, pid).1 == if Forks(t, pid) then Spawn(t, pid).1 else None
    ensures DeadClean(t) ==> DeadClean(Fork(t, pid).0)
  {
    hide PidsOk, IdsOk, RefsOk, CountsOk, StatsOk, SameExcess, ShareFrom;
    if Forks(t, pid) {
      ForkedKeepsInv(t, pid, Find(t.procs, pid).value, Spawn(t, pid).1.value);
    }
  }

  lemma ForkedKeepsInv(t: Table, pid: nat, p: nat, c: nat)
    requires Inv(t) && Spawn(t, pid).1 == Some(c) && p < MAX_PROCESSES && p != c
    requires t.procs[p].used && t.procs[p].state != Dead
    ensures var (u, ok) := ShareFrom(ForkSeed(Spawn(t, pid).0, p, c), p, c, 0);
      && ok && Inv(u) && SameExcess(Spawn(t, pid).0, u)
      && (DeadClean(t) ==> DeadClean(u))
  {
    SeedKeepsInv(t, pid, p, c);
    var s := ForkSeed(Spawn(t, pid).0, p, c);
    ShareFromKeepsInv(s, p, c, 0);
    hide Spawn, ForkSeed, ShareFrom;
    assert s.procs[c].used;
  }

  // ----- stores

  /** Changing the bytes of one page changes no count. */
  lemma DataKeepsInv(t: Table, k: nat, data: seq<Byte>)
    requires Inv(t) && k < MAX_COW_PAGES && |data| == PAGE_SIZE
    ensures var u := SetPage(t, k, t.pages[k].(data := data)); Inv(u) && SameExcess(t, u)
  {
    var u := SetPage(t, k, t.pages[k].(data := data));
    forall q, j | 0 <= q < |u.procs| && 0 <= j < |u.procs[q].pages| ensures RefOk(u, q, j) {
      assert RefOk(t, q, j);
      FindPageFrame(t.pages, u.pages, u.procs[q].pages[j].id);
    }
    forall l | 0 <= l < |u.pages| ensures CountOk(u, l) {
      assert CountOk(t, l);
    }
    assert UsedPages(u.pages) == UsedPages(t.pages);
  }

  /** What duplicate_cow_page leaves alone. */
  lemma DuplicateFrame(t: Table, p: nat, i: nat)
    requires Shaped(t) && p < MAX_PROCESSES && i < MAX_USER_PAGES
    ensures var u := Duplicate(t, p, i).0;
      && u.nextPid == t.nextPid
      && u.procs == t.procs[p := t.procs[p].(pages := t.procs[p].pages[i := u.procs[p].pages[i]])]
      && u.procs[p].pages[i].mapped == t.procs[p].pages[i].mapped
  {
    var u := Duplicate(t, p, i).0;
    assert t.procs[p].pages == t.procs[p].pages[i := t.procs[p].pages[i]];
  }

  lemma WriteKeepsInv(t: Table, pid: nat, i: nat, offset: nat, value: Byte)
    requires Inv(t)
    ensures Inv(Write(t, pid, i, offset, value).0) && SameExcess(t, Write(t, pid, i, offset, value).0)
    ensures DeadClean(t) ==> DeadClean(Write(t, pid, i, offset, value).0)
  {
    hide PidsOk, IdsOk, RefsOk, CountsOk, StatsOk, Excess, Duplicate;
    var p := Find(t.procs, pid);
    if p.Some? && i < MAX_USER_PAGES && offset < PAGE_SIZE && t.procs[p.value].pages[i].mapped {
      DuplicateKeepsInv(t, p.value, i);
      DuplicateFrame(t, p.value, i);
      var u := Duplicate(t, p.value, i).0;
      var k := FindPage(u.pages, u.procs[p.value].pages[i].id);
      if k.Some? {
        DataKeepsInv(u, k.value, u.pages[k.value].data[offset := value]);
      }
    }
  }

  // ----- every step, every run

  lemma MetaStepKeepsInv(t: Table, op: Op)
    requires Inv(t) && (op.OpSetState? || op.OpExit? || op.OpKill?)
    ensures Inv(Step(t, op).0) && SameExcess(t, Step(t, op).0)
    ensures DeadClean(t) && Admissible(t, op) ==> DeadClean(Step(t, op).0)
  {
    var u := Step(t, op).0;
    if u != t {
      var p := Find(t.procs, op.pid).value;
      MetaKeepsInv(t, p, u.procs[p]);
    }
  }

  lemma WaitKeepsInv(t: Table, parent: nat)
    requires Inv(t)
    ensures Inv(Wait(t, parent).0) && SameExcess(t, Wait(t, parent).0)
    ensures DeadClean(t) ==> DeadClean(Wait(t, parent).0)
  {
    var p := ZombieChildFrom(t.procs, parent, 0);
    if p.Some? { WaitPidKeepsInv(t, parent, t.procs[p.value].pid); }
  }

  lemma StoreFaultKeepsInv(t: Table, pid: nat, i: nat, offset: nat)
    requires Inv(t)
    ensures Inv(StoreFault(t, pid, i, offset).0) && SameExcess(t, StoreFault(t, pid, i, offset).0)
    ensures DeadClean(t) ==> DeadClean(StoreFault(t, pid, i, offset).0)
  {
    var p := Find(t.procs, pid);
    if p.Some? && i < MAX_USER_PAGES && offset < PAGE_SIZE && t.procs[p.value].pages[i].mapped {
      DuplicateKeepsInv(t, p.value, i);
      DuplicateFrame(t, p.value, i);
    }
  }

  lemma MapKeepsDeadClean(t: Table, pid: nat, i: nat, fill: Byte)
    requires Inv(t) && DeadClean(t) && Admissible(t, OpMap(pid, i, fill))
    ensures DeadClean(Map(t, pid, i, fill).0)
  {
  }

  /** The step takes a slot for a new process. */
  predicate TakesSlot(t: Table, op: Op)
    requires Shaped(t)
  {
    match op
    case OpSpawn(ppid) => Spawn(t, ppid).1.Some?
    case OpFork(pid) => Forks(t, pid)
    case _ => false
  }

  /** Only taking a slot moves any page's excess, and only if the slot still held a page. */
  lemma StepKeepsInv(t: Table, op: Op)
    requires Inv(t)
    ensures Inv(Step(t, op).0) && NoExcessFalls(t, Step(t, op).0)
    ensures !TakesSlot(t, op) ==> SameExcess(t, Step(t, op).0)
    ensures TakesSlot(t, op) ==> (SameExcess(t, Step(t, op).0) <==> !HeldSlot(t))
    ensures CountsExact(Step(t, op).0) <==> CountsExact(t) && !(TakesSlot(t, op) && HeldSlot(t))
    ensures DeadClean(t) && Admissible(t, op) ==> DeadClean(Step(t, op).0)
  {
    hide Spawn, Fork, WaitPid, Wait, Exec, Map, Write, StoreFault, DeadClean, HeldSlot, Excess, Forks;
    hide PidsOk, IdsOk, RefsOk, CountsOk, StatsOk;
    match op
    case OpSpawn(ppid) => SpawnStepKeepsInv(t, ppid);
    case OpFork(pid) => ForkStepKeepsInv(t, pid);
    case OpSetState(_, _) => MetaStepKeepsInv(t, op);
    case OpExit(_, _) => MetaStepKeepsInv(t, op);
    case OpKill(_, _) => MetaStepKeepsInv(t, op);
    case OpWaitPid(parent, pid) => WaitPidKeepsInv(t, parent, pid);
    case OpWait(parent) => WaitKeepsInv(t, parent);
    case OpExec(pid, load) => ExecKeepsInv(t, pid, load);
    case OpMap(pid, i, fill) =>
      MapKeepsInv(t, pid, i, fill);
      if DeadClean(t) && Admissible(t, op) { MapKeepsDeadClean(t, pid, i, fill); }
    case OpRead(_, _, _) =>
    case OpWrite(pid, i, offset, value) => WriteKeepsInv(t, pid, i, offset, value);
    case OpStoreFault(pid, i, offset) => StoreFaultKeepsInv(t, pid, i, offset);
  }

  lemma SpawnStepKeepsInv(t: Table, ppid: nat)
    requires Inv(t)
    ensures var (u, c) := Spawn(t, ppid);
      && Inv(u) && NoExcessFalls(t, u)
      && (c.None? ==> u == t)
      && (c.Some? ==> (SameExcess(t, u) <==> !HeldSlot(t)))
      && (CountsExact(u) <==> CountsExact(t) && !(c.Some? && HeldSlot(t)))
      && (DeadClean(t) ==> DeadClean(u))
  {
    hide Excess, HeldSlot;
    SpawnKeepsInv(t, ppid);
    if Spawn(t, ppid).1.Some? { SpawnExcessIff(t, ppid); }
  }

  lemma ForkStepKeepsInv(t: Table, pid: nat)
    requires Inv(t)
    ensures var u := Fork(t, pid).0;
      && Inv(u) && NoExcessFalls(t, u)
      && (!Forks(t, pid) ==> u == t)
      && (Forks(t, pid) ==> (SameExcess(t, u) <==> !HeldSlot(t)))
      && (CountsExact(u) <==> CountsExact(t) && !(Forks(t, pid) && HeldSlot(t)))
      && (DeadClean(t) ==> DeadClean(u))
  {
    hide Excess, HeldSlot, Fork, DeadClean, Spawn, PidsOk, IdsOk, RefsOk, CountsOk, StatsOk;
    ForkKeepsInv(t, pid);
    SpawnKeepsInv(t, pid);
    if Forks(t, pid) { SpawnExcessIff(t, pid); }
  }

  /** Dead processes stay without pages if and only if the step keeps to the discipline or fails. */
  lemma AdmissibleIff(t: Table, op: Op)
    requires Inv(t) && DeadClean(t)
    ensures DeadClean(Step(t, op).0) <==> (Admissible(t, op) || Step(t, op).1.Failed?)
  {
    if Admissible(t, op) {
      StepKeepsInv(t, op);
    } else {
      match op
      case OpSetState(pid, state) =>
        var p := Find(t.procs, pid).value;
        assert !Clean(t.procs[p]);
        assert Step(t, op).0.procs[p].used && Step(t, op).0.procs[p].state == Dead && !Clean(Step(t, op).0.procs[p]);
      case OpMap(pid, i, fill) =>
        var p := Find(t.procs, pid).value;
        if Map(t, pid, i, fill).1 {
          assert Step(t, op).0.procs[p].pages[i].mapped;
          assert Step(t, op).0.procs[p].used && Step(t, op).0.procs[p].state == Dead && !Clean(Step(t, op).0.procs[p]);
        }
    }
  }

  function Run(t: Table, ops: seq<Op>): (r: Table)
    requires Shaped(t)
    ensures Shaped(r)
    decreases |ops|
  {
    if ops == [] then t else Run(Step(t, ops[0]).0, ops[1..])
  }

  /** Every operation of the run is admissible where it happens. */
  predicate AdmissibleRun(t: Table, ops: seq<Op>)
    requires Shaped(t)
    decreases |ops|
  {
    ops == [] || (Admissible(t, ops[0]) && AdmissibleRun(Step(t, ops[0]).0, ops[1..]))
  }

  /** No step of the run takes a slot that still holds a page. */
  predicate NoHeldSlotTaken(t: Table, ops: seq<Op>)
    requires Shaped(t)
    decreases |ops|
  {
    ops == [] || (!(TakesSlot(t, ops[0]) && HeldSlot(t)) && NoHeldSlotTaken(Step(t, ops[0]).0, ops[1..]))
  }

  lemma {:induction false} RunKeepsInv(t: Table, ops: seq<Op>)
    requires Inv(t)
    ensures Inv(Run(t, ops))
    ensures CountsExact(Run(t, ops)) <==> CountsExact(t) && NoHeldSlotTaken(t, ops)
    decreases |ops|
  {
    if ops != [] {
      hide Step, CountsExact, HeldSlot, TakesSlot, PidsOk, IdsOk, RefsOk, CountsOk, StatsOk;
      StepKeepsInv(t, ops[0]);
      RunKeepsInv(Step(t, ops[0]).0, ops[1..]);
    }
  }

  /** From boot, every count is exact at the end of a run if and only if no spawn or fork of the run took
      a slot that still held a page. */
  lemma CountsExactIff(ops: seq<Op>)
    ensures CountsExact(Run(Init(), ops)) <==> NoHeldSlotTaken(Init(), ops)
  {
    InitInv();
    RunKeepsInv(Init(), ops);
  }

  /** A page that counts a reference too many is lost: it stays in use, counting too many, for ever. */
  lemma {:induction false} LostForever(t: Table, ops: seq<Op>, k: nat)
    requires Inv(t) && k < |t.pages| && Excess(t, k) > 0
    ensures k < |Run(t, ops).pages| && Run(t, ops).pages[k].used && Excess(Run(t, ops), k) >= Excess(t, k)
    decreases |ops|
  {
    if ops != [] {
      StepKeepsInv(t, ops[0]);
      LostForever(Step(t, ops[0]).0, ops[1..], k);
    }
  }

  /** The discipline is enough for exact counts. */
  lemma {:induction false} AdmissibleRunExact(t: Table, ops: seq<Op>)
    requires Inv(t) && DeadClean(t) && AdmissibleRun(t, ops)
    ensures NoHeldSlotTaken(t, ops)
    decreases |ops|
  {
    if ops != [] {
      assert !HeldSlot(t) by { FreeSlotClean(t); }
      hide Step, HeldSlot, TakesSlot, DeadClean, PidsOk, IdsOk, RefsOk, CountsOk, StatsOk;
      StepKeepsInv(t, ops[0]);
      AdmissibleRunExact(Step(t, ops[0]).0, ops[1..]);
    }
  }

  lemma FreeSlotClean(t: Table)
    requires Inv(t) && DeadClean(t)
    ensures !HeldSlot(t)
  {
  }

  /** The page with this id counts one reference. */
  predicate CountsOne(t: Table, id: nat)
  {
    var k := FindPage(t.pages, id);
    k.Some? && t.pages[k.value].refcount == 1
  }

  /** The accounting as a reader of the statistics sees it, in every reachable table. */
  lemma ReachableAccounting(ops: seq<Op>)
    ensures var t := Run(Init(), ops);
      && LeakFree(t)
      && t.stats.faults == t.stats.copied
      && |UsedPages(t.pages)| == t.stats.mapped - t.stats.saved + t.stats.copied - t.stats.released
      && (forall k :: 0 <= k < |t.pages| && t.pages[k].used ==>
            |Refs(t.procs, t.pages[k].id)| <= t.pages[k].refcount <= t.stats.peak)
      && (forall p, i | 0 <= p < |t.procs| && 0 <= i < |t.procs[p].pages| ::
            t.procs[p].pages[i].mapped && t.procs[p].pages[i].writable ==>
              Refs(t.procs, t.procs[p].pages[i].id) == {(p, i)} && CountsOne(t, t.procs[p].pages[i].id))
  {
    InitInv();
    RunKeepsInv(Init(), ops);
    var t := Run(Init(), ops);
    forall k | 0 <= k < |t.pages| && t.pages[k].used
      ensures |Refs(t.procs, t.pages[k].id)| <= t.pages[k].refcount <= t.stats.peak && t.pages[k].refcount != 0
    {
      assert CountOk(t, k);
    }
    forall p, i | 0 <= p < |t.procs| && 0 <= i < |t.procs[p].pages|
      && t.procs[p].pages[i].mapped && t.procs[p].pages[i].writable
      ensures Refs(t.procs, t.procs[p].pages[i].id) == {(p, i)} && CountsOne(t, t.procs[p].pages[i].id)
    {
      assert RefOk(t, p, i);
    }
  }

  // ----- pids and page ids are never reused

  ghost predicate PidInUse(t: Table, pid: nat)
  {
    exists p :: 0 <= p < |t.procs| && t.procs[p].used && t.procs[p].pid == pid
  }

  ghost predicate IdInUse(t: Table, id: nat)
  {
    exists k :: 0 <= k < |t.pages| && t.pages[k].used && t.pages[k].id == id
  }

  /** Nothing already handed out, and not in use now, comes into use. */
  ghost predicate OnlyFresh(t: Table, u: Table)
  {
    && Issued(t.nextPid) <= Issued(u.nextPid) && Issued(t.nextPageId) <= Issued(u.nextPageId)
    && (forall pid: nat :: pid < Issued(t.nextPid) && PidInUse(u, pid) ==> PidInUse(t, pid))
    && (forall id: nat :: id < Issued(t.nextPageId) && IdInUse(u, id) ==> IdInUse(t, id))
  }

  lemma {:induction false} DropFromFresh(t: Table, p: nat, i: nat)
    requires Inv(t) && p < MAX_PROCESSES && i <= MAX_USER_PAGES
    ensures forall id :: IdInUse(DropFrom(t, p, i), id) ==> IdInUse(t, id)
    decreases MAX_USER_PAGES - i
  {
    if i < MAX_USER_PAGES {
      var u := DropRef(t, p, i);
      DropRefKeepsInv(t, p, i);
      forall id | IdInUse(u, id) ensures IdInUse(t, id) {
        var k :| 0 <= k < |u.pages| && u.pages[k].used && u.pages[k].id == id;
        assert t.pages[k].used && t.pages[k].id == id;
      }
      DropFromFresh(u, p, i + 1);
    }
  }

  lemma {:induction false} ShareFromFresh(t: Table, parent: nat, child: nat, i: nat)
    requires Inv(t) && parent < MAX_PROCESSES && child < MAX_PROCESSES && parent != child && i <= MAX_USER_PAGES
    requires t.procs[parent].used && t.procs[child].used
    requires forall j :: i <= j < MAX_USER_PAGES ==> !t.procs[child].pages[j].mapped
    ensures forall id :: IdInUse(ShareFrom(t, parent, child, i).0, id) ==> IdInUse(t, id)
    decreases MAX_USER_PAGES - i
  {
    if i < MAX_USER_PAGES {
      ShareKeepsInv(t, parent, child, i);
      var u := Share(t, parent, child, i).value;
      forall id | IdInUse(u, id) ensures IdInUse(t, id) {
        var k :| 0 <= k < |u.pages| && u.pages[k].used && u.pages[k].id == id;
        assert t.pages[k].used && t.pages[k].id == id;
      }
      ShareFromFresh(u, parent, child, i + 1);
    }
  }

  lemma EmptiedFresh(t: Table, p: nat, process: Process<PageRef>)
    requires Inv(t) && p < MAX_PROCESSES && process.used == t.procs[p].used && process.pid == t.procs[p].pid
    ensures OnlyFresh(t, DropAll(t, p).(procs := DropAll(t, p).procs[p := process]))
  {
    DropFromKeepsInv(t, p, 0);
    DropFromFresh(t, p, 0);
    var d := DropAll(t, p);
    var u := d.(procs := d.procs[p := process]);
    forall pid | PidInUse(u, pid) ensures PidInUse(t, pid) {
      var q :| 0 <= q < |u.procs| && u.procs[q].used && u.procs[q].pid == pid;
      assert t.procs[q].used && t.procs[q].pid == pid;
    }
    forall id | IdInUse(u, id) ensures IdInUse(t, id) {
      assert IdInUse(d, id);
    }
  }

  /** At most one page is taken, it carries the next id, and no slot changes hands. */
  lemma PagesFresh(t: Table, u: Table, k: nat)
    requires Inv(t) && Shaped(u) && k < MAX_COW_PAGES && u.nextPid == t.nextPid
    requires forall q :: 0 <= q < MAX_PROCESSES ==>
      u.procs[q].used == t.procs[q].used && u.procs[q].pid == t.procs[q].pid
    requires forall l :: 0 <= l < MAX_COW_PAGES && l != k && u.pages[l].used ==>
      t.pages[l].used && u.pages[l].id == t.pages[l].id
    requires
      || (u.nextPageId == t.nextPageId && (u.pages[k].used ==> t.pages[k].used && u.pages[k].id == t.pages[k].id))
      || (u.nextPageId == Next32(t.nextPageId) && t.nextPageId != 0 && u.pages[k].id == t.nextPageId)
    ensures OnlyFresh(t, u)
  {
    if t.nextPageId != 0 { IssuedNext(t.nextPageId); }
    forall pid | PidInUse(u, pid) ensures PidInUse(t, pid) {
      var q :| 0 <= q < |u.procs| && u.procs[q].used && u.procs[q].pid == pid;
      assert t.procs[q].used && t.procs[q].pid == pid;
    }
    forall id: nat | id < Issued(t.nextPageId) && IdInUse(u, id) ensures IdInUse(t, id) {
      var l :| 0 <= l < |u.pages| && u.pages[l].used && u.pages[l].id == id;
      assert t.pages[l].used && t.pages[l].id == id;
    }
  }

  lemma SpawnFresh(t: Table, ppid: nat)
    requires Inv(t)
    ensures OnlyFresh(t, Spawn(t, ppid).0)
  {
    var (u, slot) := Spawn(t, ppid);
    if slot.Some? {
      IssuedNext(t.nextPid);
      forall pid: nat | pid < Issued(t.nextPid) && PidInUse(u, pid) ensures PidInUse(t, pid) {
        var q :| 0 <= q < |u.procs| && u.procs[q].used && u.procs[q].pid == pid;
        assert t.procs[q].used && t.procs[q].pid == pid;
      }
    }
  }

  lemma SharedFresh(s: Table, p: nat, c: nat)
    requires Inv(s) && p < MAX_PROCESSES && c < MAX_PROCESSES && p != c
    requires s.procs[p].used && s.procs[c].used && Clean(s.procs[c])
    ensures OnlyFresh(s, ShareFrom(s, p, c, 0).0)
  {
    hide ShareFrom, RefsOk, CountsOk, StatsOk, SameExcess;
    ShareFromKeepsInv(s, p, c, 0);
    ShareFromFresh(s, p, c, 0);
    var u := ShareFrom(s, p, c, 0).0;
    forall n | PidInUse(u, n) ensures PidInUse(s, n) {
      var q :| 0 <= q < |u.procs| && u.procs[q].used && u.procs[q].pid == n;
      assert s.procs[q].used && s.procs[q].pid == n;
    }
  }

  lemma SeedFresh(t: Table, pid: nat, p: nat, c: nat)
    requires Inv(t) && Spawn(t, pid).1 == Some(c) && p < MAX_PROCESSES
    ensures OnlyFresh(t, ForkSeed(Spawn(t, pid).0, p, c))
  {
    SpawnFresh(t, pid);
    var s := Spawn(t, pid).0;
    var u := ForkSeed(s, p, c);
    forall n | PidInUse(u, n) ensures PidInUse(s, n) {
      var q :| 0 <= q < |u.procs| && u.procs[q].used && u.procs[q].pid == n;
      assert s.procs[q].used && s.procs[q].pid == n;
    }
    assert forall id :: IdInUse(u, id) ==> IdInUse(s, id);
  }

  lemma ForkFresh(t: Table, pid: nat)
    requires Inv(t)
    ensures OnlyFresh(t, Fork(t, pid).0)
  {
    if Forks(t, pid) {
      var p, c := Find(t.procs, pid).value, Spawn(t, pid).1.value;
      SeedKeepsInv(t, pid, p, c);
      SeedFresh(t, pid, p, c);
      SharedFresh(ForkSeed(Spawn(t, pid).0, p, c), p, c);
    }
  }

  lemma DuplicateFresh(t: Table, p: nat, i: nat)
    requires Inv(t) && p < MAX_PROCESSES && i < MAX_USER_PAGES && t.procs[p].pages[i].mapped
    ensures OnlyFresh(t, Duplicate(t, p, i).0)
  {
    assert RefOk(t, p, i);
    DuplicateFrame(t, p, i);
    var k := FreePageFrom(t.pages, 0);
    PagesFresh(t, Duplicate(t, p, i).0, if k.Some? then k.value else 0);
  }

  lemma WriteFresh(t: Table, pid: nat, i: nat, offset: nat, value: Byte)
    requires Inv(t)
    ensures OnlyFresh(t, Write(t, pid, i, offset, value).0)
  {
    var p := Find(t.procs, pid);
    if p.Some? && i < MAX_USER_PAGES && offset < PAGE_SIZE && t.procs[p.value].pages[i].mapped {
      DuplicateFresh(t, p.value, i);
      var d := Duplicate(t, p.value, i).0;
      var u := Write(t, pid, i, offset, value).0;
      forall id | IdInUse(u, id) ensures IdInUse(d, id) {
        var l :| 0 <= l < |u.pages| && u.pages[l].used && u.pages[l].id == id;
        assert d.pages[l].used && d.pages[l].id == id;
      }
      assert forall n :: PidInUse(u, n) ==> PidInUse(d, n);
    }
  }

  lemma MapFresh(t: Table, pid: nat, i: nat, fill: Byte)
    requires Inv(t)
    ensures OnlyFresh(t, Map(t, pid, i, fill).0)
  {
    if Map(t, pid, i, fill).1 {
      MapIsAttach(t, pid, i, fill);
      PagesFresh(t, Map(t, pid, i, fill).0, FreePageFrom(t.pages, 0).value);
    }
  }

  lemma WaitPidFresh(t: Table, parent: nat, child: nat)
    requires Inv(t)
    ensures OnlyFresh(t, WaitPid(t, parent, child).0)
  {
    if WaitPid(t, parent, child).1.Some? {
      var p := Find(t.procs, child).value;
      DropFromKeepsInv(t, p, 0);
      EmptiedFresh(t, p, DropAll(t, p).procs[p].(state := Dead));
    }
  }

  lemma WaitFresh(t: Table, parent: nat)
    requires Inv(t)
    ensures OnlyFresh(t, Wait(t, parent).0)
  {
    var c := ZombieChildFrom(t.procs, parent, 0);
    if c.Some? { WaitPidFresh(t, parent, t.procs[c.value].pid); }
  }

  lemma ExecFresh(t: Table, pid: nat, load: Option<Image>)
    requires Inv(t)
    ensures OnlyFresh(t, Exec(t, pid, load).0)
  {
    if Exec(t, pid, load).1 {
      var p := Find(t.procs, pid).value;
      DropFromKeepsInv(t, p, 0);
      EmptiedFresh(t, p, DropAll(t, p).procs[p].(image := load.value, state := Ready));
    }
  }

  lemma StoreFaultFresh(t: Table, pid: nat, i: nat, offset: nat)
    requires Inv(t)
    ensures OnlyFresh(t, StoreFault(t, pid, i, offset).0)
  {
    var p := Find(t.procs, pid);
    if p.Some? && i < MAX_USER_PAGES && offset < PAGE_SIZE && t.procs[p.value].pages[i].mapped {
      DuplicateFresh(t, p.value, i);
    }
  }

  lemma MetaFresh(t: Table, op: Op)
    requires Inv(t) && (op.OpSetState? || op.OpExit? || op.OpKill?)
    ensures OnlyFresh(t, Step(t, op).0)
  {
    PagesFresh(t, Step(t, op).0, 0);
  }

  lemma StepFresh(t: Table, op: Op)
    requires Inv(t)
    ensures OnlyFresh(t, Step(t, op).0)
  {
    hide Spawn, Fork, WaitPid, Wait, Exec, Map, Write, StoreFault, Inv, DeadClean;
    match op
    case OpSpawn(ppid) => SpawnFresh(t, ppid);
    case OpFork(pid) => ForkFresh(t, pid);
    case OpSetState(_, _) => MetaFresh(t, op);
    case OpExit(_, _) => MetaFresh(t, op);
    case OpKill(_, _) => MetaFresh(t, op);
    case OpWaitPid(parent, pid) => WaitPidFresh(t, parent, pid);
    case OpWait(parent) => WaitFresh(t, parent);
    case OpExec(pid, load) => ExecFresh(t, pid, load);
    case OpMap(pid, i, fill) => MapFresh(t, pid, i, fill);
    case OpRead(_, _, _) =>
    case OpWrite(pid, i, offset, value) => WriteFresh(t, pid, i, offset, value);
    case OpStoreFault(pid, i, offset) => StoreFaultFresh(t, pid, i, offset);
  }

  /** Once retired, a pid or a page id stays retired, for any run that follows. */
  lemma {:induction false} NeverReused(t: Table, ops: seq<Op>, pid: nat, id: nat)
    requires Inv(t)
    ensures pid < Issued(t.nextPid) && !PidInUse(t, pid) ==> !PidInUse(Run(t, ops), pid)
    ensures id < Issued(t.nextPageId) && !IdInUse(t, id) ==> !IdInUse(Run(t, ops), id)
    decreases |ops|
  {
    if ops != [] {
      StepFresh(t, ops[0]);
      StepKeepsInv(t, ops[0]);
      NeverReused(Step(t, ops[0]).0, ops[1..], pid, id);
    }
  }

  // ----- a page lost

  /** Declaring a process that holds a page DEAD and spawning again loses the page for good,
      and leak_free does not notice: the page keeps a count that no reference accounts for. */
  lemma DeadByStateLeaks()
    ensures var t := Run(Init(), [OpSpawn(0), OpMap(1, 0, 7), OpSetState(1, Dead), OpSpawn(0)]);
      !CountsExact(t) && LeakFree(t)
  {
    var t0, op1, op2, op3, op4 := Init(), OpSpawn(0), OpMap(1, 0, 7), OpSetState(1, Dead), OpSpawn(0);
    var ops := [op1, op2, op3, op4];
    ReachableAccounting(ops);
    CountsExactIff(ops);
    var t1 := Step(t0, op1).0;
    assert FreeSlotFrom(t0.procs, 0) == Some(0) && Find(t1.procs, 1) == Some(0);
    var t2 := Step(t1, op2).0;
    assert t2.procs[0].pages[0].mapped && Find(t2.procs, 1) == Some(0);
    var t3 := Step(t2, op3).0;
    assert HeldSlot(t3) && TakesSlot(t3, op4);
    assert ops[1..] == [op2, op3, op4];
    assert ops[1..][1..] == [op3, op4];
    assert ops[1..][1..][1..] == [op4];
    assert !NoHeldSlotTaken(t3, [op4]);
    assert !NoHeldSlotTaken(t2, [op3, op4]);
    assert !NoHeldSlotTaken(t1, [op2, op3, op4]);
  }
}
