/** The process table of the course kernel as values: slots, page references,
    reference-counted pages, and the searches every operation starts with. */
module CourseProcessTypes {
  import opened Common

  const MAX_PROCESSES := 16
  const MAX_USER_PAGES := 8
  const PAGE_SIZE := 4096
  const MAX_COW_PAGES := 32
  const EXIT_KILLED := 9

  datatype State = Unused | Ready | Running | Blocked | Zombie | Dead

  /** What exec leaves in a process: the loader's entry point and stack pointer. */
  datatype Image = Image(entryPc: nat, userSp: nat)

  /** A process slot; P is what the slot holds for each user page. */
  datatype Process<+P> = Process(
    used: bool, pid: nat, ppid: nat, state: State, exitCode: int,
    image: Image, pages: seq<P>)

  datatype PageRef = PageRef(mapped: bool, id: nat, writable: bool, cow: bool)

  datatype CowPage = CowPage(used: bool, id: nat, refcount: nat, data: seq<Byte>)

  datatype CowStats = CowStats(
    mapped: nat, faults: nat, copied: nat, saved: nat, peak: nat, released: nat)

  datatype Table = Table(
    procs: seq<Process<PageRef>>, pages: seq<CowPage>, stats: CowStats,
    nextPid: nat, nextPageId: nat)

  const NO_REF := PageRef(false, 0, false, false)

  /** A page filled with one byte value. */
  function Filled(value: Byte): (r: seq<Byte>)
    ensures |r| == PAGE_SIZE && forall i :: 0 <= i < PAGE_SIZE ==> r[i] == value
  {
    seq(PAGE_SIZE, _ => value)
  }

  function NoPage(): (r: CowPage)
  {
    CowPage(false, 0, 0, Filled(0))
  }

  function NoProcess<P>(empty: P): (r: Process<P>)
  {
    Process(false, 0, 0, Unused, 0, Image(0, 0), seq(MAX_USER_PAGES, _ => empty))
  }

  /** Ids handed out so far lie in [1, Issued(next)): a counter that wrapped to 0 is exhausted. */
  function Issued(next: nat): (r: nat)
  {
    if next == 0 then UINT32_RANGE else next
  }

  /** First used slot with this pid; pid 0 is never found. */
  function FindFrom<P>(procs: seq<Process<P>>, pid: nat, i: nat): (r: Option<nat>)
    requires i <= |procs|
    ensures r.Some? ==>
      i <= r.value < |procs| && procs[r.value].used && procs[r.value].pid == pid
      && forall k :: i <= k < r.value ==> !(procs[k].used && procs[k].pid == pid)
    ensures r.None? ==> forall k :: i <= k < |procs| ==> !(procs[k].used && procs[k].pid == pid)
    decreases |procs| - i
  {
    if i == |procs| then None
    else if procs[i].used && procs[i].pid == pid then Some(i)
    else FindFrom(procs, pid, i + 1)
  }

  function Find<P>(procs: seq<Process<P>>, pid: nat): (r: Option<nat>)
    ensures r.Some? ==> r.value < |procs| && procs[r.value].used && procs[r.value].pid == pid != 0
    ensures r.None? ==> pid == 0 || forall k :: 0 <= k < |procs| ==> !(procs[k].used && procs[k].pid == pid)
  {
    if pid == 0 then None else FindFrom(procs, pid, 0)
  }

  /** First slot that is unused or DEAD. */
  function FreeSlotFrom<P>(procs: seq<Process<P>>, i: nat): (r: Option<nat>)
    requires i <= |procs|
    ensures r.Some? ==>
      i <= r.value < |procs| && (!procs[r.value].used || procs[r.value].state == Dead)
      && forall k :: i <= k < r.value ==> procs[k].used && procs[k].state != Dead
    ensures r.None? ==> forall k :: i <= k < |procs| ==> procs[k].used && procs[k].state != Dead
    decreases |procs| - i
  {
    if i == |procs| then None
    else if !procs[i].used || procs[i].state == Dead then Some(i)
    else FreeSlotFrom(procs, i + 1)
  }

  /** First zombie child of this parent. */
  function ZombieChildFrom<P>(procs: seq<Process<P>>, parent: nat, i: nat): (r: Option<nat>)
    requires i <= |procs|
    ensures r.Some? ==>
      i <= r.value < |procs| && procs[r.value].used && procs[r.value].ppid == parent
      && procs[r.value].state == Zombie
      && forall k :: i <= k < r.value ==>
           !(procs[k].used && procs[k].ppid == parent && procs[k].state == Zombie)
    ensures r.None? ==>
      forall k :: i <= k < |procs| ==>
        !(procs[k].used && procs[k].ppid == parent && procs[k].state == Zombie)
    decreases |procs| - i
  {
    if i == |procs| then None
    else if procs[i].used && procs[i].ppid == parent && procs[i].state == Zombie then Some(i)
    else ZombieChildFrom(procs, parent, i + 1)
  }

  /** First used page with this id; id 0 is never found. */
  function FindPageFrom(pages: seq<CowPage>, id: nat, i: nat): (r: Option<nat>)
    requires i <= |pages|
    ensures r.Some? ==>
      i <= r.value < |pages| && pages[r.value].used && pages[r.value].id == id
      && forall k :: i <= k < r.value ==> !(pages[k].used && pages[k].id == id)
    ensures r.None? ==> forall k :: i <= k < |pages| ==> !(pages[k].used && pages[k].id == id)
    decreases |pages| - i
  {
    if i == |pages| then None
    else if pages[i].used && pages[i].id == id then Some(i)
    else FindPageFrom(pages, id, i + 1)
  }

  function FindPage(pages: seq<CowPage>, id: nat): (r: Option<nat>)
    ensures r.Some? ==> r.value < |pages| && pages[r.value].used && pages[r.value].id == id != 0
    ensures r.None? ==> id == 0 || forall k :: 0 <= k < |pages| ==> !(pages[k].used && pages[k].id == id)
  {
    if id == 0 then None else FindPageFrom(pages, id, 0)
  }

  function FreePageFrom(pages: seq<CowPage>, i: nat): (r: Option<nat>)
    requires i <= |pages|
    ensures r.Some? ==>
      i <= r.value < |pages| && !pages[r.value].used
      && forall k :: i <= k < r.value ==> pages[k].used
    ensures r.None? ==> forall k :: i <= k < |pages| ==> pages[k].used
    decreases |pages| - i
  {
    if i == |pages| then None
    else if !pages[i].used then Some(i)
    else FreePageFrom(pages, i + 1)
  }

  /** Array bounds of the C structures. */
  ghost predicate Shaped(t: Table)
  {
    && |t.procs| == MAX_PROCESSES
    && |t.pages| == MAX_COW_PAGES
    && (forall p :: 0 <= p < |t.procs| ==> |t.procs[p].pages| == MAX_USER_PAGES)
    && (forall k :: 0 <= k < |t.pages| ==> |t.pages[k].data| == PAGE_SIZE)
  }
}
