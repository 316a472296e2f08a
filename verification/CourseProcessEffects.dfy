/** What single operations on the process table do, told on the table before and after:
    who is reaped, which references may be written, and what the statistics count. */
module CourseProcessEffects {
  import opened Common
  import opened CourseProcessTypes
  import opened CourseProcessSpec
  import opened CourseProcessAccounting
  import opened CourseProcessRuns

  ghost predicate OthersKept(t: Table, u: Table, p: nat)
  {
    |t.procs| == |u.procs| && forall q :: 0 <= q < |t.procs| && q != p ==> u.procs[q] == t.procs[q]
  }

  // ----- reaping

  ghost predicate ZombieChild(t: Table, parent: nat, p: nat)
  {
    p < |t.procs| && t.procs[p].used && t.procs[p].ppid == parent && t.procs[p].state == Zombie
  }

  ghost predicate ZombieChildWith(t: Table, parent: nat, pid: nat, p: nat)
  {
    ZombieChild(t, parent, p) && t.procs[p].pid == pid
  }

  /** Slot p is reaped: its exit code is reported, it gives up its pages and is DEAD; no other slot moves. */
  ghost predicate Reaped(t: Table, u: Table, p: nat, status: Option<int>)
  {
    && p < |t.procs| && OthersKept(t, u, p)
    && status == Some(t.procs[p].exitCode)
    && u.procs[p] == t.procs[p].(pages := u.procs[p].pages, state := Dead)
    && Clean(u.procs[p])
  }

  lemma WaitPidReaps(t: Table, parent: nat, p: nat)
    requires Inv(t) && ZombieChild(t, parent, p)
    ensures var (u, status) := WaitPid(t, parent, t.procs[p].pid); Reaped(t, u, p, status)
  {
    FindUnique(t.procs, p);
    hide DropFrom, RefsOk, CountsOk, StatsOk, IdsOk, SameExcess, FindFrom;
    DropFromKeepsInv(t, p, 0);
  }

  /** A wait reaps the zombie child in the lowest slot, and fails exactly when there is none. */
  lemma WaitReapsFirst(t: Table, parent: nat)
    requires Inv(t)
    ensures var (u, status) := Wait(t, parent);
      if status.None? then u == t && forall p :: !ZombieChild(t, parent, p)
      else exists p :: ZombieChild(t, parent, p) && (forall q :: q < p ==> !ZombieChild(t, parent, q))
                       && Reaped(t, u, p, status)
  {
    hide WaitPid;
    var c := ZombieChildFrom(t.procs, parent, 0);
    if c.Some? {
      WaitPidReaps(t, parent, c.value);
      assert ZombieChild(t, parent, c.value);
    }
  }

  /** Waiting for one child reaps it, and fails exactly when no zombie child of the caller has the pid. */
  lemma WaitPidOutcome(t: Table, parent: nat, pid: nat)
    requires Inv(t)
    ensures var (u, status) := WaitPid(t, parent, pid);
      if status.None? then u == t && forall p :: !ZombieChildWith(t, parent, pid, p)
      else exists p :: ZombieChildWith(t, parent, pid, p) && Reaped(t, u, p, status)
  {
    hide RefsOk, CountsOk, StatsOk, IdsOk, DropAll, Reaped;
    var p := Find(t.procs, pid);
    if p.Some? && ZombieChild(t, parent, p.value) {
      WaitPidReaps(t, parent, p.value);
      assert ZombieChildWith(t, parent, pid, p.value);
    } else {
      assert WaitPid(t, parent, pid) == (t, None);
      forall q ensures !ZombieChildWith(t, parent, pid, q) {
        if ZombieChildWith(t, parent, pid, q) { FindUnique(t.procs, q); }
      }
    }
  }

  // ----- references

  /** Some page with this id counts more than one reference. */
  ghost predicate PageShared(t: Table, id: nat)
  {
    exists k :: 0 <= k < |t.pages| && t.pages[k].used && t.pages[k].id == id && t.pages[k].refcount > 1
  }

  /** Reference i of slot p may be written: on its old page, or, when that was shared, on a new one. */
  ghost predicate StoreOwned(t: Table, u: Table, p: nat, i: nat)
    requires Shaped(t) && Shaped(u) && p < MAX_PROCESSES && i < MAX_USER_PAGES
  {
    var id := t.procs[p].pages[i].id;
    var copies := PageShared(t, id);
    && u.procs[p].pages[i] == PageRef(true, if copies then t.nextPageId else id, true, false)
    && Counted(t, u, 0, 0, if copies then 1 else 0)
  }

  /** A granted store takes a new page, under the next id, exactly when the page is shared; either way
      the reference may be written from then on. */
  lemma DuplicateOwns(t: Table, p: nat, i: nat)
    requires Inv(t) && p < MAX_PROCESSES && i < MAX_USER_PAGES && t.procs[p].pages[i].mapped
    requires Duplicate(t, p, i).1
    ensures StoreOwned(t, Duplicate(t, p, i).0, p, i)
  {
    hide PidsOk, StatsOk, Refs;
    assert RefOk(t, p, i);
    var id := t.procs[p].pages[i].id;
    var k := FindPage(t.pages, id).value;
    assert CountOk(t, k);
    assert PageShared(t, id) <==> t.pages[k].refcount > 1;
    var u := Duplicate(t, p, i).0;
    if PageShared(t, id) {
      var n := FreePageFrom(t.pages, 0).value;
      assert n != k;
      assert u.pages[n].used && u.pages[n].refcount == 1;
    }
  }

  // ----- statistics

  /** The counters moved by this much, and the peak stands at the old peak or at a count there is. */
  ghost predicate Counted(t: Table, u: Table, mapped: nat, saved: nat, copied: nat)
  {
    && u.stats.mapped == t.stats.mapped + mapped
    && u.stats.saved == t.stats.saved + saved
    && u.stats.copied == t.stats.copied + copied
    && u.stats.faults == t.stats.faults + copied
    && u.stats.peak >= t.stats.peak
    && (u.stats.peak == t.stats.peak || CountReached(u, u.stats.peak))
  }

  ghost predicate CountReached(t: Table, n: nat)
  {
    exists k :: 0 <= k < |t.pages| && t.pages[k].used && t.pages[k].refcount == n
  }

  lemma DropRefCounted(t: Table, p: nat, i: nat)
    requires Shaped(t) && p < MAX_PROCESSES && i < MAX_USER_PAGES
    ensures DropRef(t, p, i).stats == t.stats.(released := DropRef(t, p, i).stats.released)
  {
    hide FindPage;
  }

  lemma {:induction false} DropFromCounts(t: Table, p: nat, i: nat)
    requires Shaped(t) && p < MAX_PROCESSES && i <= MAX_USER_PAGES
    ensures DropFrom(t, p, i).stats == t.stats.(released := DropFrom(t, p, i).stats.released)
    decreases MAX_USER_PAGES - i
  {
    if i < MAX_USER_PAGES {
      hide DropRef;
      DropRefCounted(t, p, i);
      DropFromCounts(DropRef(t, p, i), p, i + 1);
    }
  }

  // ----- fork

  /** Reference i of the parent and of the child are one page, which neither may write. */
  ghost predicate SharedAt(t: Table, u: Table, parent: nat, child: nat, i: nat)
    requires Shaped(t) && Shaped(u) && parent < MAX_PROCESSES && child < MAX_PROCESSES && i < MAX_USER_PAGES
  {
    if t.procs[parent].pages[i].mapped then
      && u.procs[parent].pages[i] == PageRef(true, t.procs[parent].pages[i].id, false, true)
      && u.procs[child].pages[i] == u.procs[parent].pages[i]
    else u.procs[parent].pages[i] == t.procs[parent].pages[i] && u.procs[child].pages[i] == t.procs[child].pages[i]
  }

  /** The mapped references of the parent from i on. */
  ghost function MappedFrom(process: Process<PageRef>, i: nat): (r: set<nat>)
  {
    set j: nat | i <= j < |process.pages| && process.pages[j].mapped
  }

  ghost predicate CountsGrow(t: Table, u: Table)
  {
    |t.pages| == |u.pages|
    && forall k :: 0 <= k < |t.pages| ==>
         u.pages[k].used == t.pages[k].used && u.pages[k].refcount >= t.pages[k].refcount
  }

  lemma ShareFlags(t: Table, parent: nat, child: nat, i: nat)
    requires Shaped(t) && parent < MAX_PROCESSES && child < MAX_PROCESSES && parent != child && i < MAX_USER_PAGES
    requires Share(t, parent, child, i).Some?
    ensures var u := Share(t, parent, child, i).value;
      && SharedAt(t, u, parent, child, i)
      && u.procs[parent] == t.procs[parent].(pages := t.procs[parent].pages[i := u.procs[parent].pages[i]])
      && u.procs[child] == t.procs[child].(pages := t.procs[child].pages[i := u.procs[child].pages[i]])
  {
    hide FindPage;
    var u := Share(t, parent, child, i).value;
    assert t.procs[parent].pages == t.procs[parent].pages[i := t.procs[parent].pages[i]];
    assert t.procs[child].pages == t.procs[child].pages[i := t.procs[child].pages[i]];
  }

  lemma ShareCounted(t: Table, parent: nat, child: nat, i: nat)
    requires Shaped(t) && parent < MAX_PROCESSES && child < MAX_PROCESSES && i < MAX_USER_PAGES
    requires Share(t, parent, child, i).Some?
    ensures var u := Share(t, parent, child, i).value;
      var n := if t.procs[parent].pages[i].mapped then 1 else 0;
      Counted(t, u, n, n, 0) && CountsGrow(t, u)
  {
    var k := FindPage(t.pages, t.procs[parent].pages[i].id);
    var u := Share(t, parent, child, i).value;
    if t.procs[parent].pages[i].mapped {
      assert u.pages[k.value].used && u.pages[k.value].refcount == t.pages[k.value].refcount + 1;
    }
  }

  lemma CountedTwice(t: Table, u: Table, w: Table, a: nat, b: nat)
    requires Counted(t, u, a, a, 0) && Counted(u, w, b, b, 0) && CountsGrow(t, u) && CountsGrow(u, w) && StatsOk(w)
    ensures Counted(t, w, a + b, a + b, 0) && CountsGrow(t, w)
  {
    if w.stats.peak == u.stats.peak != t.stats.peak {
      var k :| 0 <= k < |u.pages| && u.pages[k].used && u.pages[k].refcount == u.stats.peak;
      assert w.pages[k].used && w.pages[k].refcount == w.stats.peak;
    }
  }

  lemma MappedFromNext(process: Process<PageRef>, i: nat)
    requires i < |process.pages|
    ensures |MappedFrom(process, i)| == |MappedFrom(process, i + 1)| + if process.pages[i].mapped then 1 else 0
  {
    assert MappedFrom(process, i) == MappedFrom(process, i + 1) + if process.pages[i].mapped then {i} else {};
  }

  lemma MappedFromSame(a: Process<PageRef>, b: Process<PageRef>, i: nat)
    requires |a.pages| == |b.pages| && forall j :: i <= j < |a.pages| ==> a.pages[j] == b.pages[j]
    ensures MappedFrom(a, i) == MappedFrom(b, i)
  {
  }

  /** One turn of the sharing loop, with what the rest of the loop needs. */
  lemma ShareTurn(t: Table, parent: nat, child: nat, i: nat)
    requires Inv(t) && parent < MAX_PROCESSES && child < MAX_PROCESSES && parent != child && i < MAX_USER_PAGES
    requires t.procs[parent].used && t.procs[child].used
    requires forall j :: i <= j < MAX_USER_PAGES ==> !t.procs[child].pages[j].mapped
    ensures Share(t, parent, child, i).Some?
    ensures var s := Share(t, parent, child, i).value;
      var n := if t.procs[parent].pages[i].mapped then 1 else 0;
      && Inv(s) && s.procs[parent].used && s.procs[child].used
      && (forall j :: 0 <= j < MAX_USER_PAGES && j != i ==>
            s.procs[parent].pages[j] == t.procs[parent].pages[j] && s.procs[child].pages[j] == t.procs[child].pages[j])
      && SharedAt(t, s, parent, child, i) && Counted(t, s, n, n, 0) && CountsGrow(t, s)
      && |MappedFrom(t.procs[parent], i)| == n + |MappedFrom(s.procs[parent], i + 1)|
  {
    hide PidsOk, IdsOk, RefsOk, CountsOk, StatsOk, Share, Counted, CountsGrow, MappedFrom, SharedAt;
    ShareKeepsInv(t, parent, child, i);
    ShareFlags(t, parent, child, i);
    ShareCounted(t, parent, child, i);
    MappedFromNext(t.procs[parent], i);
    MappedFromSame(t.procs[parent], Share(t, parent, child, i).value.procs[parent], i + 1);
  }

  /** The whole loop counts one mapping, and one page saved, for each page the parent has. */
  lemma {:induction false} ShareFromCounted(t: Table, parent: nat, child: nat, i: nat)
    requires Inv(t) && parent < MAX_PROCESSES && child < MAX_PROCESSES && parent != child && i <= MAX_USER_PAGES
    requires t.procs[parent].used && t.procs[child].used
    requires forall j :: i <= j < MAX_USER_PAGES ==> !t.procs[child].pages[j].mapped
    ensures var n := |MappedFrom(t.procs[parent], i)|;
      Counted(t, ShareFrom(t, parent, child, i).0, n, n, 0)
    ensures CountsGrow(t, ShareFrom(t, parent, child, i).0)
    decreases MAX_USER_PAGES - i
  {
    if i == MAX_USER_PAGES {
      assert MappedFrom(t.procs[parent], i) == {};
    } else {
      hide PidsOk, IdsOk, RefsOk, CountsOk, StatsOk, Share, Counted, CountsGrow, MappedFrom, SharedAt, FindPage;
      ShareTurn(t, parent, child, i);
      var s := Share(t, parent, child, i).value;
      ShareFromCounted(s, parent, child, i + 1);
      ShareFromKeepsInv(s, parent, child, i + 1);
      CountedTwice(t, s, ShareFrom(s, parent, child, i + 1).0, if t.procs[parent].pages[i].mapped then 1 else 0,
                   |MappedFrom(s.procs[parent], i + 1)|);
    }
  }

  lemma {:induction false} ShareFromFlags(t: Table, parent: nat, child: nat, i: nat)
    requires Inv(t) && parent < MAX_PROCESSES && child < MAX_PROCESSES && parent != child && i <= MAX_USER_PAGES
    requires t.procs[parent].used && t.procs[child].used
    requires forall j :: i <= j < MAX_USER_PAGES ==> !t.procs[child].pages[j].mapped
    ensures var u := ShareFrom(t, parent, child, i).0;
      && (forall j :: i <= j < MAX_USER_PAGES ==> SharedAt(t, u, parent, child, j))
      && (forall j :: 0 <= j < i ==>
            u.procs[parent].pages[j] == t.procs[parent].pages[j] && u.procs[child].pages[j] == t.procs[child].pages[j])
    decreases MAX_USER_PAGES - i
  {
    if i < MAX_USER_PAGES {
      hide PidsOk, IdsOk, RefsOk, CountsOk, StatsOk, Share, Counted, CountsGrow, MappedFrom;
      ShareTurn(t, parent, child, i);
      var s := Share(t, parent, child, i).value;
      ShareFromFlags(s, parent, child, i + 1);
      var u := ShareFrom(t, parent, child, i).0;
      assert u == ShareFrom(s, parent, child, i + 1).0;
      forall j | i <= j < MAX_USER_PAGES ensures SharedAt(t, u, parent, child, j) {
        if j > i { assert SharedAt(s, u, parent, child, j); }
      }
    }
  }

  /** One page reference of the parent before a fork, and of parent and child after it. */
  ghost predicate ForkedAt(was: PageRef, parent: PageRef, child: PageRef)
  {
    if was.mapped then parent == PageRef(true, was.id, false, true) && child == parent
    else !parent.mapped && !child.mapped
  }

  /** A fork counts one mapping, and one page saved, for each page of the parent, and takes the right to
      write them from both. */
  lemma ForkShares(t: Table, pid: nat, p: nat)
    requires Inv(t) && Find(t.procs, pid) == Some(p) && Fork(t, pid).1.Some?
    ensures var (u, c) := Fork(t, pid);
      var n := |MappedFrom(t.procs[p], 0)|;
      && c.value < MAX_PROCESSES && c.value != p && Counted(t, u, n, n, 0)
      && forall i :: 0 <= i < MAX_USER_PAGES ==>
           ForkedAt(t.procs[p].pages[i], u.procs[p].pages[i], u.procs[c.value].pages[i])
  {
    hide PidsOk, IdsOk, RefsOk, CountsOk, StatsOk, ShareFrom, Counted, CountsGrow, SameExcess, MappedFrom;
    var c := Spawn(t, pid).1.value;
    SeedKeepsInv(t, pid, p, c);
    var s := ForkSeed(Spawn(t, pid).0, p, c);
    ShareFromCounted(s, p, c, 0);
    ShareFromFlags(s, p, c, 0);
    ShareFromKeepsInv(s, p, c, 0);
    var u := Fork(t, pid).0;
    assert Fork(t, pid) == (ShareFrom(s, p, c, 0).0, Some(c));
    assert s.procs[p] == t.procs[p];
    assert c != p;
    assert Counted(t, u, |MappedFrom(t.procs[p], 0)|, |MappedFrom(t.procs[p], 0)|, 0) by {
      CountedFrom(t, s, u, |MappedFrom(t.procs[p], 0)|);
    }
    forall i | 0 <= i < MAX_USER_PAGES
      ensures ForkedAt(t.procs[p].pages[i], u.procs[p].pages[i], u.procs[c].pages[i])
    {
      assert SharedAt(s, u, p, c, i);
      assert !s.procs[c].pages[i].mapped;
    }
  }

  lemma CountedFrom(t: Table, s: Table, u: Table, n: nat)
    requires s.stats == t.stats && Counted(s, u, n, n, 0)
    ensures Counted(t, u, n, n, 0)
  {
  }

  // ----- every call

  /** What a call that fails leaves: everything as it was. */
  lemma FailedChangesNothing(t: Table, op: Op)
    requires Inv(t) && Step(t, op).1.Failed?
    ensures Step(t, op).0 == t
  {
    hide Spawn, Fork, WaitPid, Wait, Exec, Map, Write, StoreFault, Duplicate;
    hide PidsOk, IdsOk, RefsOk, CountsOk, StatsOk, SameExcess;
    match op
    case OpSpawn(ppid) => SpawnFails(t, ppid);
    case OpFork(pid) => ForkKeepsInv(t, pid); SpawnFails(t, pid);
    case OpWaitPid(parent, pid) => WaitPidOutcome(t, parent, pid);
    case OpWait(parent) => WaitReapsFirst(t, parent);
    case OpExec(pid, load) => ExecFails(t, pid, load);
    case OpMap(pid, i, fill) => MapFails(t, pid, i, fill);
    case OpWrite(pid, i, offset, value) => WriteFails(t, pid, i, offset, value);
    case OpStoreFault(pid, i, offset) => StoreFaultFails(t, pid, i, offset);
    case _ =>
  }

  lemma SpawnFails(t: Table, ppid: nat)
    requires Shaped(t)
    ensures Spawn(t, ppid).1.None? ==> Spawn(t, ppid).0 == t
  {
  }

  lemma ExecFails(t: Table, pid: nat, load: Option<Image>)
    requires Shaped(t)
    ensures !Exec(t, pid, load).1 ==> Exec(t, pid, load).0 == t
  {
    hide DropAll;
  }

  lemma MapFails(t: Table, pid: nat, i: nat, fill: Byte)
    requires Shaped(t)
    ensures !Map(t, pid, i, fill).1 ==> Map(t, pid, i, fill).0 == t
  {
  }

  /** With its page in place, a store can only fail before anything has moved. */
  lemma DuplicateFails(t: Table, p: nat, i: nat)
    requires Inv(t) && p < MAX_PROCESSES && i < MAX_USER_PAGES && t.procs[p].pages[i].mapped
    ensures var (u, ok) := Duplicate(t, p, i);
      if ok then FindPage(u.pages, u.procs[p].pages[i].id).Some? else u == t
  {
    hide PidsOk, IdsOk, CountsOk, StatsOk, SameExcess, Refs, FindPage, AllocPage;
    DuplicateKeepsInv(t, p, i);
    DuplicateFrame(t, p, i);
    assert RefOk(Duplicate(t, p, i).0, p, i);
  }

  lemma StoreFaultFails(t: Table, pid: nat, i: nat, offset: nat)
    requires Inv(t)
    ensures !StoreFault(t, pid, i, offset).1 ==> StoreFault(t, pid, i, offset).0 == t
  {
    hide PidsOk, IdsOk, RefsOk, CountsOk, StatsOk, Duplicate;
    var p := Find(t.procs, pid);
    if p.Some? && i < MAX_USER_PAGES && t.procs[p.value].pages[i].mapped { DuplicateFails(t, p.value, i); }
  }

  lemma WriteFails(t: Table, pid: nat, i: nat, offset: nat, value: Byte)
    requires Inv(t)
    ensures !Write(t, pid, i, offset, value).1 ==> Write(t, pid, i, offset, value).0 == t
  {
    hide PidsOk, IdsOk, RefsOk, CountsOk, StatsOk, Duplicate;
    var p := Find(t.procs, pid);
    if p.Some? && i < MAX_USER_PAGES && t.procs[p.value].pages[i].mapped { DuplicateFails(t, p.value, i); }
  }

  /** A new mapping may be written, stands for a page with the next id, and is counted. */
  lemma MapOwns(t: Table, pid: nat, i: nat, fill: Byte, p: nat)
    requires Inv(t) && Find(t.procs, pid) == Some(p) && Map(t, pid, i, fill).1
    ensures var u := Map(t, pid, i, fill).0;
      && i < MAX_USER_PAGES && u.procs[p].pages[i] == PageRef(true, t.nextPageId, true, false)
      && Counted(t, u, 1, 0, 0)
  {
    hide PidsOk, IdsOk, RefsOk, CountsOk, StatsOk;
    MapIsAttach(t, pid, i, fill);
    var u := Map(t, pid, i, fill).0;
    var k := FreePageFrom(t.pages, 0).value;
    assert u.pages[k].used && u.pages[k].refcount == 1;
  }

  /** A store that goes through leaves the reference writable, on a page of its own. */
  lemma WriteOwns(t: Table, pid: nat, i: nat, offset: nat, value: Byte, p: nat)
    requires Inv(t) && Find(t.procs, pid) == Some(p) && Write(t, pid, i, offset, value).1
    ensures i < MAX_USER_PAGES
    ensures StoreOwned(t, Write(t, pid, i, offset, value).0, p, i)
  {
    hide PidsOk, IdsOk, RefsOk, CountsOk, StatsOk, Duplicate;
    DuplicateOwns(t, p, i);
    var d := Duplicate(t, p, i).0;
    var u := Write(t, pid, i, offset, value).0;
    assert forall k :: 0 <= k < |u.pages| ==> u.pages[k].used == d.pages[k].used && u.pages[k].refcount == d.pages[k].refcount;
  }

  lemma StoreFaultOwns(t: Table, pid: nat, i: nat, offset: nat, p: nat)
    requires Inv(t) && Find(t.procs, pid) == Some(p) && StoreFault(t, pid, i, offset).1
    ensures i < MAX_USER_PAGES
    ensures StoreOwned(t, StoreFault(t, pid, i, offset).0, p, i)
  {
    hide PidsOk, IdsOk, RefsOk, CountsOk, StatsOk, Duplicate;
    DuplicateOwns(t, p, i);
  }

  /** The mappings, the pages saved and the pages copied that a call adds to the statistics. */
  ghost function Mapped(t: Table, op: Op): (r: nat)
    requires Shaped(t)
  {
    if Step(t, op).1.Failed? then 0 else if op.OpMap? then 1 else Saved(t, op)
  }

  ghost function Saved(t: Table, op: Op): (r: nat)
    requires Shaped(t)
  {
    if op.OpFork? && Step(t, op).1.Done? && Find(t.procs, op.pid).Some?
    then |MappedFrom(t.procs[Find(t.procs, op.pid).value], 0)| else 0
  }

  ghost function Copied(t: Table, op: Op): (r: nat)
    requires Shaped(t)
  {
    if (op.OpWrite? || op.OpStoreFault?) && Step(t, op).1.Done? && Find(t.procs, op.pid).Some?
       && op.index < MAX_USER_PAGES && PageShared(t, t.procs[Find(t.procs, op.pid).value].pages[op.index].id)
    then 1 else 0
  }

  lemma CountedSame(t: Table, u: Table)
    requires u.stats == t.stats.(released := u.stats.released)
    ensures Counted(t, u, 0, 0, 0)
  {
  }

  lemma WaitPidCounts(t: Table, parent: nat, pid: nat)
    requires Shaped(t)
    ensures Counted(t, WaitPid(t, parent, pid).0, 0, 0, 0)
  {
    hide DropFrom, Counted;
    var p := Find(t.procs, pid);
    if p.Some? { DropFromCounts(t, p.value, 0); }
    CountedSame(t, WaitPid(t, parent, pid).0);
  }

  lemma ExecCounts(t: Table, pid: nat, load: Option<Image>)
    requires Shaped(t)
    ensures Counted(t, Exec(t, pid, load).0, 0, 0, 0)
  {
    hide DropFrom, Counted;
    var p := Find(t.procs, pid);
    if p.Some? { DropFromCounts(t, p.value, 0); }
    CountedSame(t, Exec(t, pid, load).0);
  }

  lemma DoneHasProcess(t: Table, op: Op)
    requires Shaped(t) && Step(t, op).1.Done? && (op.OpFork? || op.OpMap? || op.OpWrite? || op.OpStoreFault?)
    ensures Find(t.procs, op.pid).Some?
  {
    hide ShareFrom, Duplicate, AllocPage;
  }

  /** Every call moves the counters by exactly what it maps, saves and copies. */
  lemma StatsMove(t: Table, op: Op)
    requires Inv(t)
    ensures Counted(t, Step(t, op).0, Mapped(t, op), Saved(t, op), Copied(t, op))
  {
    hide PidsOk, IdsOk, RefsOk, CountsOk, StatsOk, Counted, PageShared, MappedFrom, FindFrom, Fork, WaitPid, Exec, Map, Write,
      StoreFault, Duplicate;
    if Step(t, op).1.Failed? {
      FailedChangesNothing(t, op);
      CountedSame(t, t);
    } else {
      if op.OpFork? || op.OpMap? || op.OpWrite? || op.OpStoreFault? { DoneHasProcess(t, op); }
      match op
      case OpFork(pid) => ForkShares(t, pid, Find(t.procs, pid).value);
      case OpMap(pid, i, fill) => MapOwns(t, pid, i, fill, Find(t.procs, pid).value);
      case OpWrite(pid, i, offset, value) => WriteOwns(t, pid, i, offset, value, Find(t.procs, pid).value);
      case OpStoreFault(pid, i, offset) => StoreFaultOwns(t, pid, i, offset, Find(t.procs, pid).value);
      case OpWaitPid(parent, pid) => WaitPidCounts(t, parent, pid);
      case OpWait(parent) => WaitPidCounts(t, parent, t.procs[ZombieChildFrom(t.procs, parent, 0).value].pid);
      case OpExec(pid, load) => ExecCounts(t, pid, load);
      case _ => CountedSame(t, Step(t, op).0);
    }
  }

  /** Mappings, pages saved and pages copied over a run. */
  ghost function Totals(t: Table, ops: seq<Op>): (r: (nat, nat, nat))
    requires Shaped(t)
    decreases |ops|
  {
    if ops == [] then (0, 0, 0)
    else
      var rest := Totals(Step(t, ops[0]).0, ops[1..]);
      (Mapped(t, ops[0]) + rest.0, Saved(t, ops[0]) + rest.1, Copied(t, ops[0]) + rest.2)
  }

  lemma {:induction false} RunStats(t: Table, ops: seq<Op>)
    requires Inv(t)
    ensures var u := Run(t, ops);
      var (mapped, saved, copied) := Totals(t, ops);
      && u.stats.mapped == t.stats.mapped + mapped
      && u.stats.saved == t.stats.saved + saved
      && u.stats.copied == t.stats.copied + copied
    decreases |ops|
  {
    if ops != [] {
      hide Step, Mapped, Saved, Copied, PidsOk, IdsOk, RefsOk, CountsOk, StatsOk, CountReached;
      StepKeepsInv(t, ops[0]);
      StatsMove(t, ops[0]);
      RunStats(Step(t, ops[0]).0, ops[1..]);
    }
  }

  /** From boot the statistics are these totals: a fault for each copy, and a page released for each page
      mapped or copied that was neither saved nor is still in use. */
  lemma BootStats(ops: seq<Op>)
    ensures var u := Run(Init(), ops);
      var (mapped, saved, copied) := Totals(Init(), ops);
      && u.stats.mapped == mapped && u.stats.saved == saved
      && u.stats.copied == copied && u.stats.faults == copied
      && u.stats.released == mapped + copied - saved - |UsedPages(u.pages)|
  {
    hide Run, Totals, PidsOk, IdsOk, RefsOk, CountsOk;
    InitInv();
    RunStats(Init(), ops);
    RunKeepsInv(Init(), ops);
  }
}
