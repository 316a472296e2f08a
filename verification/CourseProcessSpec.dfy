/** What each process-table operation does to the whole table. */
module CourseProcessSpec {
  import opened Common
  import opened CourseProcessTypes

  function SetRef(t: Table, p: nat, i: nat, ref: PageRef): (r: Table)
    requires Shaped(t) && p < MAX_PROCESSES && i < MAX_USER_PAGES
    ensures Shaped(r)
  {
    t.(procs := t.procs[p := t.procs[p].(pages := t.procs[p].pages[i := ref])])
  }

  function SetPage(t: Table, k: nat, page: CowPage): (r: Table)
    requires Shaped(t) && k < MAX_COW_PAGES && |page.data| == PAGE_SIZE
    ensures Shaped(r)
  {
    t.(pages := t.pages[k := page])
  }

  function RaisePeak(stats: CowStats, refcount: nat): (r: CowStats)
  {
    if stats.peak < refcount then stats.(peak := refcount) else stats
  }

  /** alloc_cow_page: a zeroed page with refcount 1 and the next id. */
  function AllocPage(t: Table): (r: (Table, Option<nat>))
    requires Shaped(t)
    ensures Shaped(r.0) && r.0.procs == t.procs
    ensures r.1.Some? ==> r.1.value < MAX_COW_PAGES
    ensures r.1.None? ==> r.0 == t
  {
    if t.nextPageId == 0 then (t, None)
    else match FreePageFrom(t.pages, 0)
      case None => (t, None)
      case Some(k) =>
        (SetPage(t, k, CowPage(true, t.nextPageId, 1, Filled(0)))
          .(nextPageId := Next32(t.nextPageId), stats := RaisePeak(t.stats, 1)), Some(k))
  }

  /** release_cow_page_ref: the page goes away with its last reference. */
  function ReleaseRef(t: Table, id: nat): (r: Table)
    requires Shaped(t)
    ensures Shaped(r) && r.procs == t.procs
  {
    match FindPage(t.pages, id)
    case None => t
    case Some(k) =>
      var page := t.pages[k];
      if page.refcount == 0 then t
      else if page.refcount == 1 then
        SetPage(t, k, NoPage()).(stats := t.stats.(released := t.stats.released + 1))
      else
        SetPage(t, k, page.(refcount := page.refcount - 1))
  }

  function DropRef(t: Table, p: nat, i: nat): (r: Table)
    requires Shaped(t) && p < MAX_PROCESSES && i < MAX_USER_PAGES
    ensures Shaped(r)
  {
    if t.procs[p].pages[i].mapped then
      SetRef(ReleaseRef(t, t.procs[p].pages[i].id), p, i, NO_REF)
    else t
  }

  /** release_process_user_pages from reference i on. */
  function DropFrom(t: Table, p: nat, i: nat): (r: Table)
    requires Shaped(t) && p < MAX_PROCESSES && i <= MAX_USER_PAGES
    ensures Shaped(r)
    decreases MAX_USER_PAGES - i
  {
    if i == MAX_USER_PAGES then t else DropFrom(DropRef(t, p, i), p, i + 1)
  }

  function DropAll(t: Table, p: nat): (r: Table)
    requires Shaped(t) && p < MAX_PROCESSES
    ensures Shaped(r)
  {
    DropFrom(t, p, 0)
  }

  /** duplicate_cow_page: make reference i of slot p privately writable. */
  function Duplicate(t: Table, p: nat, i: nat): (r: (Table, bool))
    requires Shaped(t) && p < MAX_PROCESSES && i < MAX_USER_PAGES
    ensures Shaped(r.0)
  {
    var ref := t.procs[p].pages[i];
    match FindPage(t.pages, ref.id)
    case None => (t, false)
    case Some(k) =>
      if t.pages[k].refcount == 0 then (t, false)
      else if !ref.cow && ref.writable then (t, true)
      else if t.pages[k].refcount == 1 then
        (SetRef(t, p, i, ref.(cow := false, writable := true)), true)
      else
        var (a, n) := AllocPage(t);
        if n.None? then (t, false)
        else
          var copied := SetPage(a, n.value, a.pages[n.value].(data := a.pages[k].data));
          var shared := SetPage(copied, k, copied.pages[k].(refcount := t.pages[k].refcount - 1));
          var moved := SetRef(shared, p, i, PageRef(ref.mapped, copied.pages[n.value].id, true, false));
          (moved.(stats := moved.stats.(
             faults := moved.stats.faults + 1, copied := moved.stats.copied + 1)), true)
  }

  function Spawn(t: Table, ppid: nat): (r: (Table, Option<nat>))
    requires Shaped(t)
    ensures Shaped(r.0)
    ensures r.1.Some? ==> r.1.value < MAX_PROCESSES
  {
    match FreeSlotFrom(t.procs, 0)
    case None => (t, None)
    case Some(c) =>
      if t.nextPid == 0 then (t, None)
      else
        (t.(procs := t.procs[c := NoProcess(NO_REF).(
              used := true, pid := t.nextPid, ppid := ppid, state := Ready)],
            nextPid := Next32(t.nextPid)), Some(c))
  }

  /** One turn of fork's sharing loop; None when the parent's page cannot be found. */
  function Share(t: Table, parent: nat, child: nat, i: nat): (r: Option<Table>)
    requires Shaped(t) && parent < MAX_PROCESSES && child < MAX_PROCESSES && i < MAX_USER_PAGES
    ensures r.Some? ==> Shaped(r.value)
  {
    var ref := t.procs[parent].pages[i];
    if !ref.mapped then Some(t)
    else match FindPage(t.pages, ref.id)
      case None => None
      case Some(k) =>
        var count := t.pages[k].refcount + 1;
        var shared := ref.(writable := false, cow := true);
        var u := SetRef(SetRef(SetPage(t, k, t.pages[k].(refcount := count)),
                               parent, i, shared), child, i, shared);
        var stats := RaisePeak(t.stats, count);
        Some(u.(stats := stats.(mapped := stats.mapped + 1, saved := stats.saved + 1)))
  }

  /** fork's sharing loop from reference i on; a page that cannot be found clears the child. */
  function ShareFrom(t: Table, parent: nat, child: nat, i: nat): (r: (Table, bool))
    requires Shaped(t) && parent < MAX_PROCESSES && child < MAX_PROCESSES && i <= MAX_USER_PAGES
    ensures Shaped(r.0)
    decreases MAX_USER_PAGES - i
  {
    if i == MAX_USER_PAGES then (t, true)
    else match Share(t, parent, child, i)
      case None => (t.(procs := t.procs[child := NoProcess(NO_REF)]), false)
      case Some(u) => ShareFrom(u, parent, child, i + 1)
  }

  /** The spawned child c takes over the parent's image. */
  function ForkSeed(t: Table, p: nat, c: nat): (r: Table)
    requires Shaped(t) && p < MAX_PROCESSES && c < MAX_PROCESSES
    ensures Shaped(r)
  {
    t.(procs := t.procs[c := t.procs[c].(image := t.procs[p].image)])
  }

  function Fork(t: Table, parentPid: nat): (r: (Table, Option<nat>))
    requires Shaped(t)
    ensures Shaped(r.0)
  {
    match Find(t.procs, parentPid)
    case None => (t, None)
    case Some(p) =>
      if t.procs[p].state == Dead || t.procs[p].state == Zombie then (t, None)
      else
        var (s, c) := Spawn(t, parentPid);
        if c.None? then (t, None)
        else
          var (u, ok) := ShareFrom(ForkSeed(s, p, c.value), p, c.value, 0);
          (u, if ok then c else None)
  }

  function SetState(t: Table, pid: nat, state: State): (r: (Table, bool))
    requires Shaped(t)
    ensures Shaped(r.0)
  {
    match Find(t.procs, pid)
    case None => (t, false)
    case Some(p) =>
      if state == Unused then (t, false)
      else (t.(procs := t.procs[p := t.procs[p].(state := state)]), true)
  }

  function Exit(t: Table, pid: nat, code: int): (r: (Table, bool))
    requires Shaped(t)
    ensures Shaped(r.0)
  {
    match Find(t.procs, pid)
    case None => (t, false)
    case Some(p) =>
      if t.procs[p].state == Dead then (t, false)
      else (t.(procs := t.procs[p := t.procs[p].(exitCode := code, state := Zombie)]), true)
  }

  function Kill(t: Table, caller: nat, target: nat): (r: (Table, bool))
    requires Shaped(t)
    ensures Shaped(r.0)
  {
    var c := Find(t.procs, caller);
    var v := Find(t.procs, target);
    if c.None? || t.procs[c.value].state == Unused || t.procs[c.value].state == Dead
       || v.None? || t.procs[v.value].state == Unused || t.procs[v.value].state == Dead
    then (t, false)
    else if target == 1 || target == caller then (t, false)
    else (t.(procs := t.procs[v.value := t.procs[v.value].(exitCode := EXIT_KILLED, state := Zombie)]), true)
  }

  function WaitPid(t: Table, parent: nat, child: nat): (r: (Table, Option<int>))
    requires Shaped(t)
    ensures Shaped(r.0)
  {
    match Find(t.procs, child)
    case None => (t, None)
    case Some(p) =>
      if t.procs[p].ppid != parent || t.procs[p].state != Zombie then (t, None)
      else
        var u := DropAll(t, p);
        (u.(procs := u.procs[p := u.procs[p].(state := Dead)]), Some(t.procs[p].exitCode))
  }

  function Wait(t: Table, parent: nat): (r: (Table, Option<int>))
    requires Shaped(t)
    ensures Shaped(r.0)
  {
    match ZombieChildFrom(t.procs, parent, 0)
    case None => (t, None)
    case Some(p) => WaitPid(t, parent, t.procs[p].pid)
  }

  /** exec_image; `load` is the ELF loader's verdict on the image. A DEAD slot is accepted too. */
  function Exec(t: Table, pid: nat, load: Option<Image>): (r: (Table, bool))
    requires Shaped(t)
    ensures Shaped(r.0)
  {
    match Find(t.procs, pid)
    case None => (t, false)
    case Some(p) =>
      if load.None? then (t, false)
      else
        var u := DropAll(t, p);
        (u.(procs := u.procs[p := u.procs[p].(image := load.value, state := Ready)]), true)
  }

  function Map(t: Table, pid: nat, i: nat, fill: Byte): (r: (Table, bool))
    requires Shaped(t)
    ensures Shaped(r.0)
  {
    match Find(t.procs, pid)
    case None => (t, false)
    case Some(p) =>
      if i >= MAX_USER_PAGES || t.procs[p].pages[i].mapped then (t, false)
      else
        var (a, k) := AllocPage(t);
        if k.None? then (t, false)
        else
          var filled := SetPage(a, k.value, a.pages[k.value].(data := Filled(fill)));
          var u := SetRef(filled, p, i, PageRef(true, filled.pages[k.value].id, true, false));
          (u.(stats := u.stats.(mapped := u.stats.mapped + 1)), true)
  }

  function Read(t: Table, pid: nat, i: nat, offset: nat): (r: Option<Byte>)
    requires Shaped(t)
  {
    match Find(t.procs, pid)
    case None => None
    case Some(p) =>
      if i >= MAX_USER_PAGES || offset >= PAGE_SIZE || !t.procs[p].pages[i].mapped then None
      else match FindPage(t.pages, t.procs[p].pages[i].id)
        case None => None
        case Some(k) => Some(t.pages[k].data[offset])
  }

  function Write(t: Table, pid: nat, i: nat, offset: nat, value: Byte): (r: (Table, bool))
    requires Shaped(t)
    ensures Shaped(r.0)
  {
    match Find(t.procs, pid)
    case None => (t, false)
    case Some(p) =>
      if i >= MAX_USER_PAGES || offset >= PAGE_SIZE || !t.procs[p].pages[i].mapped then (t, false)
      else
        var (u, ok) := Duplicate(t, p, i);
        if !ok then (u, false)
        else match FindPage(u.pages, u.procs[p].pages[i].id)
          case None => (u, false)
          case Some(k) =>
            (SetPage(u, k, u.pages[k].(data := u.pages[k].data[offset := value])), true)
  }

  /** handle_cow_store_fault. */
  function StoreFault(t: Table, pid: nat, i: nat, offset: nat): (r: (Table, bool))
    requires Shaped(t)
    ensures Shaped(r.0)
  {
    match Find(t.procs, pid)
    case None => (t, false)
    case Some(p) =>
      if i >= MAX_USER_PAGES || offset >= PAGE_SIZE || !t.procs[p].pages[i].mapped then (t, false)
      else Duplicate(t, p, i)
  }

  /** leak_free as cow_stats reports it: no used page has refcount 0. */
  predicate LeakFree(t: Table)
  {
    forall k :: 0 <= k < |t.pages| ==> t.pages[k].used ==> t.pages[k].refcount != 0
  }
}
