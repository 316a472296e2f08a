/** The shared, reference-counted table behaves as if every process owned private pages. */
module CourseProcessRefinement {
  import opened Common
  import opened CourseProcessTypes
  import opened CourseProcessSpec
  import opened CourseProcessAccounting
  import opened CourseProcessRuns
  import opened P = CourseProcessPrivate

  /** What slot p sees at page index i. */
  function ContentOf(t: Table, p: nat, i: nat): (r: Content)
    requires Shaped(t) && p < MAX_PROCESSES && i < MAX_USER_PAGES
    ensures r.Some? ==> |r.value| == PAGE_SIZE
  {
    if !t.procs[p].pages[i].mapped then None
    else match FindPage(t.pages, t.procs[p].pages[i].id)
      case None => None
      case Some(k) => Some(t.pages[k].data)
  }

  function ViewPages(t: Table, p: nat): (r: seq<Content>)
    requires Shaped(t) && p < MAX_PROCESSES
    ensures |r| == MAX_USER_PAGES && forall i :: 0 <= i < MAX_USER_PAGES ==> r[i] == ContentOf(t, p, i)
  {
    seq(MAX_USER_PAGES, i requires 0 <= i < MAX_USER_PAGES => ContentOf(t, p, i))
  }

  function ViewProc(t: Table, p: nat): (r: Process<Content>)
    requires Shaped(t) && p < MAX_PROCESSES
  {
    var q := t.procs[p];
    Process(q.used, q.pid, q.ppid, q.state, q.exitCode, q.image, ViewPages(t, p))
  }

  function View(t: Table): (r: Private)
    requires Shaped(t)
    ensures PShaped(r)
    ensures forall p :: 0 <= p < MAX_PROCESSES ==> r.procs[p] == ViewProc(t, p)
  {
    Private(seq(MAX_PROCESSES, p requires 0 <= p < MAX_PROCESSES => ViewProc(t, p)), t.nextPid)
  }

  ghost predicate SameMeta<P, Q>(a: Process<P>, b: Process<Q>)
  {
    a.used == b.used && a.pid == b.pid && a.ppid == b.ppid && a.state == b.state
    && a.exitCode == b.exitCode && a.image == b.image
  }

  // ----- searches see the same slots on both sides

  lemma {:induction false} FindFromSame<P, Q>(a: seq<Process<P>>, b: seq<Process<Q>>, pid: nat, i: nat)
    requires |a| == |b| && i <= |a|
    requires forall p :: 0 <= p < |a| ==> SameMeta(a[p], b[p])
    ensures FindFrom(a, pid, i) == FindFrom(b, pid, i)
    decreases |a| - i
  {
    if i < |a| { FindFromSame(a, b, pid, i + 1); }
  }

  lemma {:induction false} FreeSlotSame<P, Q>(a: seq<Process<P>>, b: seq<Process<Q>>, i: nat)
    requires |a| == |b| && i <= |a|
    requires forall p :: 0 <= p < |a| ==> SameMeta(a[p], b[p])
    ensures FreeSlotFrom(a, i) == FreeSlotFrom(b, i)
    decreases |a| - i
  {
    if i < |a| { FreeSlotSame(a, b, i + 1); }
  }

  lemma {:induction false} ZombieSame<P, Q>(a: seq<Process<P>>, b: seq<Process<Q>>, parent: nat, i: nat)
    requires |a| == |b| && i <= |a|
    requires forall p :: 0 <= p < |a| ==> SameMeta(a[p], b[p])
    ensures ZombieChildFrom(a, parent, i) == ZombieChildFrom(b, parent, i)
    decreases |a| - i
  {
    if i < |a| { ZombieSame(a, b, parent, i + 1); }
  }

  lemma SearchesSame(t: Table, pid: nat)
    requires Shaped(t)
    ensures Find(View(t).procs, pid) == Find(t.procs, pid)
    ensures FreeSlotFrom(View(t).procs, 0) == FreeSlotFrom(t.procs, 0)
    ensures ZombieChildFrom(View(t).procs, pid, 0) == ZombieChildFrom(t.procs, pid, 0)
  {
    FindFromSame(View(t).procs, t.procs, pid, 0);
    FreeSlotSame(View(t).procs, t.procs, 0);
    ZombieSame(View(t).procs, t.procs, pid, 0);
  }

  // ----- what each primitive does to the view

  /** Two tables look alike at (q, j) when the reference and the page behind it do. */
  lemma ContentFrame(t: Table, u: Table, q: nat, j: nat)
    requires Shaped(t) && Shaped(u) && q < MAX_PROCESSES && j < MAX_USER_PAGES
    requires Accounted(t) && IdsOk(u)
    requires t.procs[q].pages[j].mapped == u.procs[q].pages[j].mapped
    requires t.procs[q].pages[j].mapped ==>
      && t.procs[q].pages[j].id == u.procs[q].pages[j].id
      && forall k :: FindPage(t.pages, t.procs[q].pages[j].id) == Some(k) && k < MAX_COW_PAGES ==>
           u.pages[k].used && u.pages[k].id == t.pages[k].id && u.pages[k].data == t.pages[k].data
    ensures ContentOf(t, q, j) == ContentOf(u, q, j)
  {
    if t.procs[q].pages[j].mapped {
      assert RefOk(t, q, j);
      FindPageUnique(u, FindPage(t.pages, t.procs[q].pages[j].id).value);
    }
  }

  lemma ShareContent(t: Table, parent: nat, child: nat, i: nat, q: nat, j: nat)
    requires Inv(t) && parent < MAX_PROCESSES && child < MAX_PROCESSES && parent != child && i < MAX_USER_PAGES
    requires t.procs[parent].used && t.procs[child].used && !t.procs[child].pages[i].mapped
    requires q < MAX_PROCESSES && j < MAX_USER_PAGES
    ensures Share(t, parent, child, i).Some?
    ensures ContentOf(Share(t, parent, child, i).value, q, j) ==
            if (q, j) == (child, i) then ContentOf(t, parent, i) else ContentOf(t, q, j)
  {
    ShareKeepsInv(t, parent, child, i);
    var u := Share(t, parent, child, i).value;
    assert RefOk(t, parent, i);
    if (q, j) == (child, i) {
      ContentFrame(t, u, parent, i);
    } else {
      ContentFrame(t, u, q, j);
    }
  }

  lemma DropContent(t: Table, p: nat, i: nat, q: nat, j: nat)
    requires Inv(t) && p < MAX_PROCESSES && i < MAX_USER_PAGES && q < MAX_PROCESSES && j < MAX_USER_PAGES
    ensures ContentOf(DropRef(t, p, i), q, j) == if (q, j) == (p, i) then None else ContentOf(t, q, j)
  {
    var u := DropRef(t, p, i);
    DropRefKeepsInv(t, p, i);
    if (q, j) != (p, i) && t.procs[q].pages[j].mapped && t.procs[p].pages[i].mapped {
      assert RefOk(t, p, i) && RefOk(t, q, j) && RefOk(u, q, j);
      var k := FindPage(t.pages, t.procs[p].pages[i].id).value;
      assert CountOk(t, k);
      DropRefPages(t, p, i, k);
      assert u.procs[q].pages[j] == t.procs[q].pages[j];
      ContentFrame(t, u, q, j);
    }
  }

  lemma AttachContent(t: Table, p: nat, i: nat, k: nat, data: seq<Byte>, q: nat, j: nat)
    requires Inv(t) && p < MAX_PROCESSES && i < MAX_USER_PAGES && k < MAX_COW_PAGES && |data| == PAGE_SIZE
    requires t.procs[p].used && !t.procs[p].pages[i].mapped && !t.pages[k].used && t.nextPageId != 0
    requires q < MAX_PROCESSES && j < MAX_USER_PAGES
    ensures ContentOf(Attach(t, p, i, k, data), q, j) == if (q, j) == (p, i) then Some(data) else ContentOf(t, q, j)
  {
    var u := Attach(t, p, i, k, data);
    AttachKeeps(t, p, i, k, data);
    if (q, j) == (p, i) {
      FindPageUnique(u, k);
    } else {
      assert u.procs[q].pages[j] == t.procs[q].pages[j];
      ContentFrame(t, u, q, j);
    }
  }

  // ----- the loops

  lemma {:induction false} DropFromContent(t: Table, p: nat, i: nat, q: nat, j: nat)
    requires Inv(t) && p < MAX_PROCESSES && i <= MAX_USER_PAGES && q < MAX_PROCESSES && j < MAX_USER_PAGES
    ensures ContentOf(DropFrom(t, p, i), q, j) == if q == p && j >= i then None else ContentOf(t, q, j)
    decreases MAX_USER_PAGES - i
  {
    if i < MAX_USER_PAGES {
      DropRefKeepsInv(t, p, i);
      DropContent(t, p, i, q, j);
      DropFromContent(DropRef(t, p, i), p, i + 1, q, j);
    }
  }

  lemma {:induction false} ShareFromContent(t: Table, parent: nat, child: nat, i: nat, q: nat, j: nat)
    requires Inv(t) && parent < MAX_PROCESSES && child < MAX_PROCESSES && parent != child && i <= MAX_USER_PAGES
    requires t.procs[parent].used && t.procs[child].used
    requires forall l :: i <= l < MAX_USER_PAGES ==> !t.procs[child].pages[l].mapped
    requires q < MAX_PROCESSES && j < MAX_USER_PAGES
    ensures ContentOf(ShareFrom(t, parent, child, i).0, q, j) ==
            if q == child && j >= i then ContentOf(t, parent, j) else ContentOf(t, q, j)
    decreases MAX_USER_PAGES - i
  {
    hide PidsOk, IdsOk, RefsOk, CountsOk, StatsOk, ContentOf;
    if i < MAX_USER_PAGES {
      ShareKeepsInv(t, parent, child, i);
      ShareContent(t, parent, child, i, q, j);
      ShareContent(t, parent, child, i, parent, j);
      var u := Share(t, parent, child, i).value;
      ShareFromContent(u, parent, child, i + 1, q, j);
    }
  }

  // ----- copy on write is invisible, and a store reaches one byte

  lemma CopyContent(t: Table, p: nat, i: nat, k: nat, n: nat, q: nat, j: nat)
    requires Inv(t) && p < MAX_PROCESSES && i < MAX_USER_PAGES && t.procs[p].used && t.procs[p].pages[i].mapped
    requires FindPage(t.pages, t.procs[p].pages[i].id) == Some(k) && FreePageFrom(t.pages, 0) == Some(n)
    requires !t.procs[p].pages[i].writable && t.pages[k].refcount > 1 && t.nextPageId != 0
    requires q < MAX_PROCESSES && j < MAX_USER_PAGES
    ensures ContentOf(Duplicate(t, p, i).0, q, j) == ContentOf(t, q, j)
  {
    hide Duplicate, DropRef, PidsOk, IdsOk, RefsOk, CountsOk, StatsOk;
    CopyIsDropThenAttach(t, p, i, k, n);
    DropRefKeepsInv(t, p, i);
    DropContent(t, p, i, q, j);
    AttachContent(DropRef(t, p, i), p, i, n, t.pages[k].data, q, j);
  }

  /** Making a page private changes what nobody sees. */
  lemma DuplicateContent(t: Table, p: nat, i: nat, q: nat, j: nat)
    requires Inv(t) && p < MAX_PROCESSES && i < MAX_USER_PAGES && t.procs[p].pages[i].mapped
    requires q < MAX_PROCESSES && j < MAX_USER_PAGES
    ensures ContentOf(Duplicate(t, p, i).0, q, j) == ContentOf(t, q, j)
  {
    assert RefOk(t, p, i);
    var ref := t.procs[p].pages[i];
    var k := FindPage(t.pages, ref.id).value;
    assert CountOk(t, k);
    if !ref.writable && t.pages[k].refcount > 1 && t.nextPageId != 0 && FreePageFrom(t.pages, 0).Some? {
      CopyContent(t, p, i, k, FreePageFrom(t.pages, 0).value, q, j);
    }
  }

  predicate PoolHasRoom(t: Table)
  {
    t.nextPageId != 0 && FreePageFrom(t.pages, 0).Some?
  }

  /** The pool must serve exactly a store to a page that counts more than one reference. */
  predicate StoreGranted(t: Table, p: nat, i: nat)
    requires Shaped(t) && p < MAX_PROCESSES && i < MAX_USER_PAGES
  {
    var k := FindPage(t.pages, t.procs[p].pages[i].id);
    k.None? || t.pages[k.value].refcount <= 1 || PoolHasRoom(t)
  }

  /** duplicate_cow_page succeeds exactly then, and leaves the reference as sole owner. */
  lemma DuplicateOutcome(t: Table, p: nat, i: nat)
    requires Inv(t) && p < MAX_PROCESSES && i < MAX_USER_PAGES && t.procs[p].pages[i].mapped
    ensures Duplicate(t, p, i).1 <==> StoreGranted(t, p, i)
    ensures !Duplicate(t, p, i).1 ==> Duplicate(t, p, i).0 == t
    ensures Duplicate(t, p, i).1 ==>
      var u := Duplicate(t, p, i).0;
      u.procs[p].pages[i].mapped && u.procs[p].pages[i].writable
  {
    assert RefOk(t, p, i);
    var ref := t.procs[p].pages[i];
    var k := FindPage(t.pages, ref.id).value;
    assert CountOk(t, k);
  }

  lemma StoreContent(t: Table, p: nat, i: nat, data: seq<Byte>, q: nat, j: nat)
    requires Inv(t) && p < MAX_PROCESSES && i < MAX_USER_PAGES && |data| == PAGE_SIZE
    requires t.procs[p].pages[i].mapped && t.procs[p].pages[i].writable
    requires q < MAX_PROCESSES && j < MAX_USER_PAGES
    ensures FindPage(t.pages, t.procs[p].pages[i].id).Some?
    ensures var k := FindPage(t.pages, t.procs[p].pages[i].id).value;
      ContentOf(SetPage(t, k, t.pages[k].(data := data)), q, j) ==
      if (q, j) == (p, i) then Some(data) else ContentOf(t, q, j)
  {
    assert RefOk(t, p, i) && RefOk(t, q, j);
    var id := t.procs[p].pages[i].id;
    var k := FindPage(t.pages, id).value;
    var u := SetPage(t, k, t.pages[k].(data := data));
    FindPageFrame(t.pages, u.pages, t.procs[q].pages[j].id);
    assert t.procs[q].pages[j].mapped && t.procs[q].pages[j].id == id ==> (q, j) in Refs(t.procs, id);
  }

  // ----- every step refines

  function Granted(t: Table, op: Op): (r: bool)
    requires Shaped(t)
  {
    match op
    case OpMap(_, _, _) => PoolHasRoom(t)
    case OpWrite(pid, i, _, _) =>
      var p := Find(t.procs, pid);
      p.None? || i >= MAX_USER_PAGES || StoreGranted(t, p.value, i)
    case OpStoreFault(pid, i, _) =>
      var p := Find(t.procs, pid);
      p.None? || i >= MAX_USER_PAGES || StoreGranted(t, p.value, i)
    case _ => true
  }

  /** A private table that agrees slot by slot and page by page is the view. */
  lemma ViewIs(t: Table, v: Private)
    requires Shaped(t) && PShaped(v) && v.nextPid == t.nextPid
    requires forall p :: 0 <= p < MAX_PROCESSES ==> SameMeta(t.procs[p], v.procs[p])
    requires forall p, i :: 0 <= p < MAX_PROCESSES && 0 <= i < MAX_USER_PAGES ==>
      ContentOf(t, p, i) == v.procs[p].pages[i]
    ensures View(t) == v
  {
    forall p | 0 <= p < MAX_PROCESSES ensures ViewProc(t, p) == v.procs[p] {
      assert ViewPages(t, p) == v.procs[p].pages;
    }
    assert View(t).procs == v.procs;
  }

  ghost predicate Refines(t: Table, op: Op)
    requires Shaped(t)
  {
    var (u, result) := Step(t, op);
    PStep(View(t), op, Granted(t, op)) == (View(u), result)
  }

  /** Only metadata of slot p moved. */
  lemma MetaView(t: Table, p: nat, process: Process<PageRef>)
    requires Shaped(t) && p < MAX_PROCESSES && process.pages == t.procs[p].pages
    ensures var u := t.(procs := t.procs[p := process]);
      && Shaped(u)
      && View(u) == With(View(t), p, Process(process.used, process.pid, process.ppid, process.state,
                                             process.exitCode, process.image, ViewPages(t, p)))
  {
    var u := t.(procs := t.procs[p := process]);
    ViewIs(u, With(View(t), p, Process(process.used, process.pid, process.ppid, process.state,
                                       process.exitCode, process.image, ViewPages(t, p))));
  }

  lemma DropAllView(t: Table, p: nat)
    requires Inv(t) && p < MAX_PROCESSES
    ensures View(DropAll(t, p)) == With(View(t), p, ViewProc(t, p).(pages := NoPages()))
  {
    hide PidsOk, IdsOk, RefsOk, CountsOk, StatsOk, ContentOf;
    DropFromKeepsInv(t, p, 0);
    var u := DropAll(t, p);
    forall q, j | 0 <= q < MAX_PROCESSES && 0 <= j < MAX_USER_PAGES
      ensures ContentOf(u, q, j) == if q == p then None else ContentOf(t, q, j)
    {
      DropFromContent(t, p, 0, q, j);
    }
    ViewIs(u, With(View(t), p, ViewProc(t, p).(pages := NoPages())));
  }

  /** Emptying a slot and then setting its image and state. */
  lemma EmptiedView(t: Table, p: nat, image: Image, state: State)
    requires Inv(t) && p < MAX_PROCESSES
    ensures var d := DropAll(t, p);
      View(d.(procs := d.procs[p := d.procs[p].(image := image, state := state)])) ==
      With(View(t), p, ViewProc(t, p).(pages := NoPages(), image := image, state := state))
  {
    var d := DropAll(t, p);
    DropFromKeepsInv(t, p, 0);
    DropAllView(t, p);
    MetaView(d, p, d.procs[p].(image := image, state := state));
    assert ViewPages(d, p) == View(d).procs[p].pages == NoPages();
  }

  lemma ReapRefines(t: Table, parent: nat, pid: nat, p: nat)
    requires Inv(t) && Find(t.procs, pid) == Some(p)
    ensures var (u, s) := WaitPid(t, parent, pid);
      Reap(View(t), parent, p) == (View(u), FromOption(s))
  {
    if t.procs[p].ppid == parent && t.procs[p].state == Zombie {
      DropFromKeepsInv(t, p, 0);
      EmptiedView(t, p, t.procs[p].image, Dead);
    }
  }

  lemma ExecRefines(t: Table, pid: nat, load: Option<Image>)
    requires Inv(t)
    ensures Refines(t, OpExec(pid, load))
  {
    SearchesSame(t, pid);
    if Find(t.procs, pid).Some? && load.Some? {
      EmptiedView(t, Find(t.procs, pid).value, load.value, Ready);
    }
  }

  lemma SpawnView(t: Table, ppid: nat, c: nat)
    requires Inv(t) && Spawn(t, ppid).1 == Some(c)
    ensures View(Spawn(t, ppid).0) ==
      With(View(t), c, Process(true, t.nextPid, ppid, Ready, 0, Image(0, 0), NoPages())).(nextPid := Next32(t.nextPid))
  {
    var u := Spawn(t, ppid).0;
    SpawnKeepsInv(t, ppid);
    forall q, j | 0 <= q < MAX_PROCESSES && 0 <= j < MAX_USER_PAGES
      ensures ContentOf(u, q, j) == if q == c then None else ContentOf(t, q, j)
    {
    }
    ViewIs(u, With(View(t), c, Process(true, t.nextPid, ppid, Ready, 0, Image(0, 0), NoPages()))
                .(nextPid := Next32(t.nextPid)));
  }

  lemma SpawnRefines(t: Table, ppid: nat)
    requires Inv(t)
    ensures Refines(t, OpSpawn(ppid))
  {
    SearchesSame(t, ppid);
    if Spawn(t, ppid).1.Some? {
      SpawnView(t, ppid, Spawn(t, ppid).1.value);
    }
  }

  /** Fork fails on both sides for the same reasons: no such parent, a finished parent, no slot, no pid. */
  lemma ForkDenied(t: Table, pid: nat)
    requires Shaped(t)
    requires var p := Find(t.procs, pid);
      p.None? || t.procs[p.value].state == Dead || t.procs[p.value].state == Zombie || Spawn(t, pid).1.None?
    ensures CourseProcessSpec.Fork(t, pid) == (t, None)
    ensures P.Fork(View(t), pid) == (View(t), Failed)
  {
    SearchesSame(t, pid);
  }

  lemma ForkRefines(t: Table, pid: nat)
    requires Inv(t)
    ensures Refines(t, OpFork(pid))
  {
    var p := Find(t.procs, pid);
    if p.None? || t.procs[p.value].state == Dead || t.procs[p.value].state == Zombie || Spawn(t, pid).1.None? {
      ForkDenied(t, pid);
    } else {
      ForkView(t, pid, p.value, Spawn(t, pid).1.value);
    }
  }

  lemma ForkSeedView(t: Table, pid: nat, p: nat, c: nat)
    requires Inv(t) && Spawn(t, pid).1 == Some(c)
    requires p < MAX_PROCESSES && p != c && t.procs[p].used
    ensures var s := ForkSeed(Spawn(t, pid).0, p, c);
      && Inv(s) && s.procs[c].used && s.procs[p].used && Clean(s.procs[c])
      && View(s) == With(View(t), c, Process(true, t.nextPid, pid, Ready, 0, t.procs[p].image, NoPages()))
                      .(nextPid := Next32(t.nextPid))
  {
    SpawnKeepsInv(t, pid);
    SpawnView(t, pid, c);
    var s := Spawn(t, pid).0;
    MetaKeepsInv(s, c, s.procs[c].(image := s.procs[p].image));
    MetaView(s, c, s.procs[c].(image := s.procs[p].image));
    assert ViewPages(s, c) == View(s).procs[c].pages == NoPages();
  }

  lemma ShareAllContent(s: Table, p: nat, c: nat, q: nat, j: nat)
    requires Inv(s) && p < MAX_PROCESSES && c < MAX_PROCESSES && p != c
    requires s.procs[p].used && s.procs[c].used && Clean(s.procs[c])
    requires q < MAX_PROCESSES && j < MAX_USER_PAGES
    ensures ContentOf(ShareFrom(s, p, c, 0).0, q, j) == View(s).procs[if q == c then p else q].pages[j]
  {
    hide PidsOk, IdsOk, RefsOk, CountsOk, StatsOk, ContentOf;
    ShareFromContent(s, p, c, 0, q, j);
  }

  /** Sharing all pages shows the child everything its parent shows, and nobody anything else. */
  lemma ShareAllView(s: Table, p: nat, c: nat)
    requires Inv(s) && p < MAX_PROCESSES && c < MAX_PROCESSES && p != c
    requires s.procs[p].used && s.procs[c].used && Clean(s.procs[c])
    ensures var (u, ok) := ShareFrom(s, p, c, 0);
      ok && View(u) == With(View(s), c, View(s).procs[c].(pages := View(s).procs[p].pages))
  {
    hide PidsOk, IdsOk, RefsOk, CountsOk, StatsOk, ContentOf;
    ShareFromKeepsInv(s, p, c, 0);
    var u := ShareFrom(s, p, c, 0).0;
    hide ShareFrom;
    forall q, j | 0 <= q < MAX_PROCESSES && 0 <= j < MAX_USER_PAGES
      ensures ContentOf(u, q, j) == View(s).procs[if q == c then p else q].pages[j]
    {
      ShareAllContent(s, p, c, q, j);
    }
    ViewIs(u, With(View(s), c, View(s).procs[c].(pages := View(s).procs[p].pages)));
  }

  lemma ForkSharedView(t: Table, pid: nat, p: nat, c: nat)
    requires Inv(t) && Spawn(t, pid).1 == Some(c)
    requires p < MAX_PROCESSES && p != c && t.procs[p].used
    ensures var (u, ok) := ShareFrom(ForkSeed(Spawn(t, pid).0, p, c), p, c, 0);
      && ok
      && View(u) == With(View(t), c, Process(true, t.nextPid, pid, Ready, 0, t.procs[p].image, ViewPages(t, p)))
                      .(nextPid := Next32(t.nextPid))
  {
    var s := ForkSeed(Spawn(t, pid).0, p, c);
    ForkSeedView(t, pid, p, c);
    ShareAllView(s, p, c);
  }

  lemma ForkView(t: Table, pid: nat, p: nat, c: nat)
    requires Inv(t) && Find(t.procs, pid) == Some(p) && Spawn(t, pid).1 == Some(c)
    requires t.procs[p].state != Dead && t.procs[p].state != Zombie
    ensures var (u, slot) := CourseProcessSpec.Fork(t, pid);
      P.Fork(View(t), pid) == (View(u), FromSlot(u.procs, slot))
  {
    SearchesSame(t, pid);
    ForkSharedView(t, pid, p, c);
    var u := ShareFrom(ForkSeed(Spawn(t, pid).0, p, c), p, c, 0).0;
    assert CourseProcessSpec.Fork(t, pid) == (u, Some(c));
    assert View(u).procs[c].pid == t.nextPid;
  }

  lemma MapRefines(t: Table, pid: nat, i: nat, fill: Byte)
    requires Inv(t)
    ensures Refines(t, OpMap(pid, i, fill))
  {
    SearchesSame(t, pid);
    var found := Find(t.procs, pid);
    if found.Some? && i < MAX_USER_PAGES {
      var p := found.value;
      assert RefOk(t, p, i);
      assert View(t).procs[p].pages[i] == ContentOf(t, p, i);
      if CourseProcessSpec.Map(t, pid, i, fill).1 {
        MapView(t, pid, i, fill, p);
      }
    }
  }

  lemma MapView(t: Table, pid: nat, i: nat, fill: Byte, p: nat)
    requires Inv(t) && Find(t.procs, pid) == Some(p) && CourseProcessSpec.Map(t, pid, i, fill).1
    ensures i < MAX_USER_PAGES
    ensures View(CourseProcessSpec.Map(t, pid, i, fill).0) == SetContent(View(t), p, i, Some(Filled(fill)))
  {
    MapIsAttach(t, pid, i, fill);
    var k := FreePageFrom(t.pages, 0).value;
    var u := CourseProcessSpec.Map(t, pid, i, fill).0;
    forall q, j | 0 <= q < MAX_PROCESSES && 0 <= j < MAX_USER_PAGES
      ensures ContentOf(u, q, j) == if (q, j) == (p, i) then Some(Filled(fill)) else ContentOf(t, q, j)
    {
      AttachContent(t, p, i, k, Filled(fill), q, j);
      assert ContentOf(u, q, j) == ContentOf(Attach(t, p, i, k, Filled(fill)), q, j);
    }
    ViewIs(u, SetContent(View(t), p, i, Some(Filled(fill))));
  }

  lemma DuplicateView(t: Table, p: nat, i: nat)
    requires Inv(t) && p < MAX_PROCESSES && i < MAX_USER_PAGES && t.procs[p].pages[i].mapped
    ensures View(Duplicate(t, p, i).0) == View(t)
  {
    var u := Duplicate(t, p, i).0;
    DuplicateFrame(t, p, i);
    forall q, j | 0 <= q < MAX_PROCESSES && 0 <= j < MAX_USER_PAGES
      ensures ContentOf(u, q, j) == ContentOf(t, q, j)
    {
      DuplicateContent(t, p, i, q, j);
    }
    ViewIs(u, View(t));
  }

  lemma StoreView(t: Table, p: nat, i: nat, data: seq<Byte>)
    requires Inv(t) && p < MAX_PROCESSES && i < MAX_USER_PAGES && |data| == PAGE_SIZE
    requires t.procs[p].pages[i].mapped && t.procs[p].pages[i].writable
    ensures FindPage(t.pages, t.procs[p].pages[i].id).Some?
    ensures var k := FindPage(t.pages, t.procs[p].pages[i].id).value;
      View(SetPage(t, k, t.pages[k].(data := data))) == SetContent(View(t), p, i, Some(data))
  {
    StoreContent(t, p, i, data, p, i);
    var k := FindPage(t.pages, t.procs[p].pages[i].id).value;
    var u := SetPage(t, k, t.pages[k].(data := data));
    forall q, j | 0 <= q < MAX_PROCESSES && 0 <= j < MAX_USER_PAGES
      ensures ContentOf(u, q, j) == if (q, j) == (p, i) then Some(data) else ContentOf(t, q, j)
    {
      StoreContent(t, p, i, data, q, j);
    }
    ViewIs(u, SetContent(View(t), p, i, Some(data)));
  }

  /** A store: fails changing nothing, or changes that byte of that process's page. */
  lemma WriteView(t: Table, pid: nat, i: nat, offset: nat, value: Byte, p: nat)
    requires Inv(t) && Find(t.procs, pid) == Some(p) && i < MAX_USER_PAGES && offset < PAGE_SIZE
    requires t.procs[p].pages[i].mapped
    ensures var (u, ok) := Write(t, pid, i, offset, value);
      && ContentOf(t, p, i).Some?
      && ok == StoreGranted(t, p, i)
      && (!ok ==> u == t)
      && (ok ==> View(u) == SetContent(View(t), p, i, Some(ContentOf(t, p, i).value[offset := value])))
  {
    assert RefOk(t, p, i);
    DuplicateOutcome(t, p, i);
    if StoreGranted(t, p, i) {
      DuplicateKeepsInv(t, p, i);
      DuplicateView(t, p, i);
      DuplicateFrame(t, p, i);
      var d := Duplicate(t, p, i).0;
      assert RefOk(d, p, i);
      var k := FindPage(d.pages, d.procs[p].pages[i].id).value;
      assert ContentOf(d, p, i) == View(d).procs[p].pages[i] == ContentOf(t, p, i);
      StoreView(d, p, i, d.pages[k].data[offset := value]);
    }
  }

  lemma WriteRefines(t: Table, pid: nat, i: nat, offset: nat, value: Byte)
    requires Inv(t)
    ensures Refines(t, OpWrite(pid, i, offset, value))
  {
    SearchesSame(t, pid);
    var found := Find(t.procs, pid);
    if found.Some? && i < MAX_USER_PAGES && offset < PAGE_SIZE {
      var p := found.value;
      assert RefOk(t, p, i);
      assert View(t).procs[p].pages[i] == ContentOf(t, p, i);
      if t.procs[p].pages[i].mapped {
        WriteView(t, pid, i, offset, value, p);
      }
    }
  }

  lemma StoreFaultRefines(t: Table, pid: nat, i: nat, offset: nat)
    requires Inv(t)
    ensures Refines(t, OpStoreFault(pid, i, offset))
  {
    SearchesSame(t, pid);
    var found := Find(t.procs, pid);
    if found.Some? && i < MAX_USER_PAGES && offset < PAGE_SIZE {
      var p := found.value;
      assert RefOk(t, p, i);
      assert View(t).procs[p].pages[i] == ContentOf(t, p, i);
      if t.procs[p].pages[i].mapped {
        DuplicateView(t, p, i);
        DuplicateOutcome(t, p, i);
      }
    }
  }

  lemma ReadRefines(t: Table, pid: nat, i: nat, offset: nat)
    requires Inv(t)
    ensures Refines(t, OpRead(pid, i, offset))
  {
    SearchesSame(t, pid);
    var found := Find(t.procs, pid);
    if found.Some? && i < MAX_USER_PAGES {
      assert RefOk(t, found.value, i);
      assert View(t).procs[found.value].pages[i] == ContentOf(t, found.value, i);
    }
  }

  lemma MetaRefines(t: Table, op: Op)
    requires Shaped(t) && (op.OpSetState? || op.OpExit? || op.OpKill?)
    ensures Refines(t, op)
  {
    SearchesSame(t, op.pid);
    var found := Find(t.procs, op.pid);
    if op.OpKill? {
      SearchesSame(t, op.caller);
    }
    if found.Some? {
      var p := found.value;
      match op
      case OpSetState(_, state) => MetaView(t, p, t.procs[p].(state := state));
      case OpExit(_, code) => MetaView(t, p, t.procs[p].(exitCode := code, state := Zombie));
      case OpKill(_, _) => MetaView(t, p, t.procs[p].(exitCode := EXIT_KILLED, state := Zombie));
    }
  }

  lemma WaitRefines(t: Table, op: Op)
    requires Inv(t) && (op.OpWait? || op.OpWaitPid?)
    ensures Refines(t, op)
  {
    hide IdsOk, RefsOk, CountsOk, StatsOk, ContentOf;
    SearchesSame(t, op.parent);
    match op
    case OpWaitPid(parent, pid) =>
      SearchesSame(t, pid);
      if Find(t.procs, pid).Some? {
        ReapRefines(t, parent, pid, Find(t.procs, pid).value);
      }
    case OpWait(parent) =>
      var c := ZombieChildFrom(t.procs, parent, 0);
      if c.Some? {
        FindUnique(t.procs, c.value);
        ReapRefines(t, parent, t.procs[c.value].pid, c.value);
      }
  }

  /** One step of the shared table is one step of the private one, with the same result. */
  lemma StepRefines(t: Table, op: Op)
    requires Inv(t)
    ensures Refines(t, op)
  {
    match op
    case OpSpawn(ppid) => SpawnRefines(t, ppid);
    case OpFork(pid) => ForkRefines(t, pid);
    case OpSetState(_, _) => MetaRefines(t, op);
    case OpExit(_, _) => MetaRefines(t, op);
    case OpKill(_, _) => MetaRefines(t, op);
    case OpWaitPid(_, _) => WaitRefines(t, op);
    case OpWait(_) => WaitRefines(t, op);
    case OpExec(pid, load) => ExecRefines(t, pid, load);
    case OpMap(pid, i, fill) => MapRefines(t, pid, i, fill);
    case OpRead(pid, i, offset) => ReadRefines(t, pid, i, offset);
    case OpWrite(pid, i, offset, value) => WriteRefines(t, pid, i, offset, value);
    case OpStoreFault(pid, i, offset) => StoreFaultRefines(t, pid, i, offset);
  }

  // ----- every run refines

  /** The results a run shows its callers. */
  function Results(t: Table, ops: seq<Op>): (r: seq<Result>)
    requires Shaped(t)
    decreases |ops|
  {
    if ops == [] then [] else
      var (u, result) := Step(t, ops[0]);
      [result] + Results(u, ops[1..])
  }

  /** The pool's answers along a run. */
  function Grants(t: Table, ops: seq<Op>): (r: seq<bool>)
    requires Shaped(t)
    ensures |r| == |ops|
    decreases |ops|
  {
    if ops == [] then [] else [Granted(t, ops[0])] + Grants(Step(t, ops[0]).0, ops[1..])
  }

  /** v runs to v' under these operations and pool answers, showing these results. */
  ghost predicate PrivateRun(v: Private, ops: seq<Op>, grants: seq<bool>, results: seq<Result>, v': Private)
    decreases |ops|
  {
    && PShaped(v)
    && |grants| == |ops| == |results|
    && (if ops == [] then v' == v else
          var (w, result) := PStep(v, ops[0], grants[0]);
          results[0] == result && PrivateRun(w, ops[1..], grants[1..], results[1..], v'))
  }

  /** COW isolation: every run shows exactly what private pages would show. */
  lemma {:induction false} RunRefines(t: Table, ops: seq<Op>)
    requires Inv(t)
    ensures PrivateRun(View(t), ops, Grants(t, ops), Results(t, ops), View(Run(t, ops)))
    decreases |ops|
  {
    if ops != [] {
      var u := Step(t, ops[0]).0;
      StepRefines(t, ops[0]);
      StepKeepsInv(t, ops[0]);
      RunRefines(u, ops[1..]);
      assert Grants(t, ops)[1..] == Grants(u, ops[1..]);
      assert Results(t, ops)[1..] == Results(u, ops[1..]);
    }
  }

  /** From boot on. */
  lemma BootRunRefines(ops: seq<Op>)
    ensures PrivateRun(View(Init()), ops, Grants(Init(), ops), Results(Init(), ops), View(Run(Init(), ops)))
  {
    InitInv();
    RunRefines(Init(), ops);
  }

  function Load(v: Private, pid: nat, i: nat, offset: nat): (r: Option<Byte>)
    requires PShaped(v)
  {
    match Find(v.procs, pid)
    case None => None
    case Some(p) => if Addressable(v, p, i, offset) then Some(v.procs[p].pages[i].value[offset]) else None
  }

  /** A load depends on the view alone. */
  lemma ReadIsLoad(t: Table, pid: nat, i: nat, offset: nat)
    requires Inv(t)
    ensures Read(t, pid, i, offset) == Load(View(t), pid, i, offset)
  {
    SearchesSame(t, pid);
    var found := Find(t.procs, pid);
    if found.Some? && i < MAX_USER_PAGES {
      assert RefOk(t, found.value, i);
      assert View(t).procs[found.value].pages[i] == ContentOf(t, found.value, i);
    }
  }

  lemma LoadAfterStore(v: Private, p: nat, i: nat, offset: nat, value: Byte, pid': nat, i': nat, offset': nat)
    requires PShaped(v) && p < MAX_PROCESSES && Addressable(v, p, i, offset)
    requires Find(v.procs, v.procs[p].pid) == Some(p)
    ensures var w := SetContent(v, p, i, Some(v.procs[p].pages[i].value[offset := value]));
      && PShaped(w)
      && Load(w, pid', i', offset') ==
         if (pid', i', offset') == (v.procs[p].pid, i, offset) then Some(value) else Load(v, pid', i', offset')
  {
    var w := SetContent(v, p, i, Some(v.procs[p].pages[i].value[offset := value]));
    FindFromSame(v.procs, w.procs, pid', 0);
  }

  /** A store through one process changes one byte of that process; every other load is as before. */
  lemma WriteIsolation(t: Table, pid: nat, i: nat, offset: nat, value: Byte, pid': nat, i': nat, offset': nat)
    requires Inv(t)
    ensures var (u, ok) := Write(t, pid, i, offset, value);
      && (!ok ==> u == t)
      && Read(u, pid', i', offset') ==
         if ok && (pid', i', offset') == (pid, i, offset) then Some(value) else Read(t, pid', i', offset')
  {
    var found := Find(t.procs, pid);
    if found.Some? && i < MAX_USER_PAGES && offset < PAGE_SIZE && t.procs[found.value].pages[i].mapped {
      var p := found.value;
      WriteView(t, pid, i, offset, value, p);
      WriteKeepsInv(t, pid, i, offset, value);
      SearchesSame(t, pid);
      assert View(t).procs[p].pages[i] == ContentOf(t, p, i);
      LoadAfterStore(View(t), p, i, offset, value, pid', i', offset');
      ReadIsLoad(t, pid', i', offset');
      ReadIsLoad(Write(t, pid, i, offset, value).0, pid', i', offset');
    }
  }
}
