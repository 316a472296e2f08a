/** The process table as the kernel keeps it: fixed arrays of slots and pages, updated in place. */
module CourseProcess {
  import opened Common
  import opened CourseProcessTypes
  import Spec = CourseProcessSpec

  class ProcessTable {
    const processes: array<Process<PageRef>>
    const cowPages: array<CowPage>
    var stats: CowStats
    var nextPid: nat
    var nextPageId: nat

    ghost predicate Valid()
      reads this, processes, cowPages
    {
      (processes as object) != cowPages && Shaped(Model())
    }

    ghost function Model(): (r: Table)
      reads this, processes, cowPages
    {
      Table(processes[..], cowPages[..], stats, nextPid, nextPageId)
    }

    constructor ()
      ensures Valid() && fresh(processes) && fresh(cowPages)
      ensures Model() == Table(seq(MAX_PROCESSES, _ => NoProcess(NO_REF)), seq(MAX_COW_PAGES, _ => NoPage()),
                               CowStats(0, 0, 0, 0, 0, 0), 1, 1)
    {
      processes := new Process<PageRef>[MAX_PROCESSES](_ => NoProcess(NO_REF));
      cowPages := new CowPage[MAX_COW_PAGES](_ => NoPage());
      stats := CowStats(0, 0, 0, 0, 0, 0);
      nextPid := 1;
      nextPageId := 1;
      new;
      assert processes[..] == seq(MAX_PROCESSES, _ => NoProcess(NO_REF));
      assert cowPages[..] == seq(MAX_COW_PAGES, _ => NoPage());
    }

    // ----- searches

    method FindProcess(pid: nat) returns (r: Option<nat>)
      requires Valid()
      ensures r == Find(Model().procs, pid)
    {
      if pid == 0 { return None; }
      var i := 0;
      while i < MAX_PROCESSES
        invariant i <= MAX_PROCESSES
        invariant FindFrom(processes[..], pid, i) == FindFrom(processes[..], pid, 0)
      {
        if processes[i].used && processes[i].pid == pid { return Some(i); }
        i := i + 1;
      }
      return None;
    }

    method FindCowPage(id: nat) returns (r: Option<nat>)
      requires Valid()
      ensures r == FindPage(Model().pages, id)
    {
      if id == 0 { return None; }
      var i := 0;
      while i < MAX_COW_PAGES
        invariant i <= MAX_COW_PAGES
        invariant FindPageFrom(cowPages[..], id, i) == FindPageFrom(cowPages[..], id, 0)
      {
        if cowPages[i].used && cowPages[i].id == id { return Some(i); }
        i := i + 1;
      }
      return None;
    }

    method AllocProcess() returns (r: Option<nat>)
      requires Valid()
      ensures r == FreeSlotFrom(Model().procs, 0)
    {
      var i := 0;
      while i < MAX_PROCESSES
        invariant i <= MAX_PROCESSES
        invariant FreeSlotFrom(processes[..], i) == FreeSlotFrom(processes[..], 0)
      {
        if !processes[i].used || processes[i].state == Dead { return Some(i); }
        i := i + 1;
      }
      return None;
    }

    // ----- pages

    method AllocCowPage() returns (r: Option<nat>)
      requires Valid()
      modifies this, cowPages
      ensures Valid()
      ensures (Model(), r) == Spec.AllocPage(old(Model()))
    {
      if nextPageId == 0 { return None; }
      var i := 0;
      while i < MAX_COW_PAGES
        invariant i <= MAX_COW_PAGES
        invariant FreePageFrom(cowPages[..], i) == FreePageFrom(cowPages[..], 0)
      {
        if !cowPages[i].used {
          ghost var pages := cowPages[..];
          cowPages[i] := CowPage(true, nextPageId, 1, Filled(0));
          assert cowPages[..] == pages[i := CowPage(true, nextPageId, 1, Filled(0))];
          nextPageId := Next32(nextPageId);
          stats := Spec.RaisePeak(stats, 1);
          return Some(i);
        }
        i := i + 1;
      }
      return None;
    }

    method ReleaseCowPageRef(id: nat)
      requires Valid()
      modifies this, cowPages
      ensures Valid()
      ensures Model() == Spec.ReleaseRef(old(Model()), id)
    {
      var k := FindCowPage(id);
      if k.None? || cowPages[k.value].refcount == 0 { return; }
      cowPages[k.value] := cowPages[k.value].(refcount := cowPages[k.value].refcount - 1);
      if cowPages[k.value].refcount == 0 {
        stats := stats.(released := stats.released + 1);
        cowPages[k.value] := NoPage();
      }
    }

    method SetUserPage(p: nat, i: nat, ref: PageRef)
      requires Valid() && p < MAX_PROCESSES && i < MAX_USER_PAGES
      modifies processes
      ensures Valid()
      ensures Model() == Spec.SetRef(old(Model()), p, i, ref)
    {
      processes[p] := processes[p].(pages := processes[p].pages[i := ref]);
    }

    method DropUserPage(p: nat, i: nat)
      requires Valid() && p < MAX_PROCESSES && i < MAX_USER_PAGES
      modifies this, processes, cowPages
      ensures Valid()
      ensures Model() == Spec.DropRef(old(Model()), p, i)
    {
      if processes[p].pages[i].mapped {
        ReleaseCowPageRef(processes[p].pages[i].id);
        SetUserPage(p, i, NO_REF);
      }
    }

    method ReleaseProcessUserPages(p: nat)
      requires Valid() && p < MAX_PROCESSES
      modifies this, processes, cowPages
      ensures Valid()
      ensures Model() == Spec.DropAll(old(Model()), p)
    {
      var i := 0;
      while i < MAX_USER_PAGES
        invariant i <= MAX_USER_PAGES && Valid()
        invariant Spec.DropFrom(Model(), p, i) == Spec.DropAll(old(Model()), p)
      {
        DropUserPage(p, i);
        i := i + 1;
      }
    }

    method FillPage(k: nat, value: Byte)
      requires Valid() && k < MAX_COW_PAGES
      modifies cowPages
      ensures Valid()
      ensures Model() == Spec.SetPage(old(Model()), k, old(cowPages[k]).(data := Filled(value)))
    {
      var i := 0;
      while i < PAGE_SIZE
        invariant i <= PAGE_SIZE && Valid()
        invariant cowPages[..] == old(cowPages[..])[k := old(cowPages[k]).(data := cowPages[k].data)]
        invariant forall j :: 0 <= j < i ==> cowPages[k].data[j] == value
      {
        cowPages[k] := cowPages[k].(data := cowPages[k].data[i := value]);
        i := i + 1;
      }
      assert cowPages[k].data == Filled(value);
    }

    method CopyPage(dest: nat, src: nat)
      requires Valid() && dest < MAX_COW_PAGES && src < MAX_COW_PAGES && dest != src
      modifies cowPages
      ensures Valid()
      ensures Model() == Spec.SetPage(old(Model()), dest, old(cowPages[dest]).(data := old(cowPages[src]).data))
    {
      var i := 0;
      while i < PAGE_SIZE
        invariant i <= PAGE_SIZE && Valid()
        invariant cowPages[..] == old(cowPages[..])[dest := old(cowPages[dest]).(data := cowPages[dest].data)]
        invariant forall j :: 0 <= j < i ==> cowPages[dest].data[j] == cowPages[src].data[j]
      {
        cowPages[dest] := cowPages[dest].(data := cowPages[dest].data[i := cowPages[src].data[i]]);
        i := i + 1;
      }
      assert cowPages[dest].data == old(cowPages[src]).data;
    }

    method DuplicateCowPage(p: nat, i: nat) returns (ok: bool)
      requires Valid() && p < MAX_PROCESSES && i < MAX_USER_PAGES
      modifies this, processes, cowPages
      ensures Valid()
      ensures (Model(), ok) == Spec.Duplicate(old(Model()), p, i)
    {
      var ref := processes[p].pages[i];
      var k := FindCowPage(ref.id);
      if k.None? || cowPages[k.value].refcount == 0 { return false; }
      if !ref.cow && ref.writable { return true; }
      if cowPages[k.value].refcount == 1 {
        SetUserPage(p, i, ref.(cow := false, writable := true));
        return true;
      }
      var n := AllocCowPage();
      if n.None? { return false; }
      CopyPage(n.value, k.value);
      cowPages[k.value] := cowPages[k.value].(refcount := cowPages[k.value].refcount - 1);
      SetUserPage(p, i, ref.(id := cowPages[n.value].id, cow := false, writable := true));
      stats := stats.(faults := stats.faults + 1, copied := stats.copied + 1);
      return true;
    }
  
    // ----- processes

    method SetSlot(p: nat, process: Process<PageRef>)
      requires Valid() && p < MAX_PROCESSES && |process.pages| == MAX_USER_PAGES
      modifies processes
      ensures Valid()
      ensures Model() == old(Model()).(procs := old(Model()).procs[p := process])
    {
      processes[p] := process;
    }

    method Spawn(ppid: nat) returns (r: Option<nat>)
      requires Valid()
      modifies this, processes
      ensures Valid()
      ensures (Model(), r) == Spec.Spawn(old(Model()), ppid)
    {
      var c := AllocProcess();
      if c.None? || nextPid == 0 { return None; }
      SetSlot(c.value, NoProcess(NO_REF).(used := true, pid := nextPid, ppid := ppid, state := Ready));
      nextPid := Next32(nextPid);
      return c;
    }

    /** One turn of fork's loop; the parent's reference turns read-only COW and the child gets a copy of it. */
    method ShareUserPage(parent: nat, child: nat, i: nat) returns (ok: bool)
      requires Valid() && parent < MAX_PROCESSES && child < MAX_PROCESSES && parent != child && i < MAX_USER_PAGES
      modifies this, processes, cowPages
      ensures Valid()
      ensures ok == Spec.Share(old(Model()), parent, child, i).Some?
      ensures Model() == if ok then Spec.Share(old(Model()), parent, child, i).value else old(Model())
    {
      var ref := processes[parent].pages[i];
      if !ref.mapped { return true; }
      var k := FindCowPage(ref.id);
      if k.None? { return false; }
      cowPages[k.value] := cowPages[k.value].(refcount := cowPages[k.value].refcount + 1);
      stats := Spec.RaisePeak(stats, cowPages[k.value].refcount);
      SetUserPage(parent, i, ref.(writable := false, cow := true));
      SetUserPage(child, i, processes[parent].pages[i]);
      stats := stats.(mapped := stats.mapped + 1, saved := stats.saved + 1);
      return true;
    }

    method Fork(parentPid: nat) returns (r: Option<nat>)
      requires Valid()
      modifies this, processes, cowPages
      ensures Valid()
      ensures (Model(), r) == Spec.Fork(old(Model()), parentPid)
    {
      hide Spec.Share;
      var p := FindProcess(parentPid);
      if p.None? || processes[p.value].state == Dead || processes[p.value].state == Zombie { return None; }
      var c := Spawn(parentPid);
      if c.None? { return None; }
      SetSlot(c.value, processes[c.value].(image := processes[p.value].image));
      ghost var seed := Model();
      var i := 0;
      while i < MAX_USER_PAGES
        invariant i <= MAX_USER_PAGES && Valid()
        invariant Spec.ShareFrom(Model(), p.value, c.value, i) == Spec.ShareFrom(seed, p.value, c.value, 0)
      {
        var ok := ShareUserPage(p.value, c.value, i);
        if !ok {
          SetSlot(c.value, NoProcess(NO_REF));
          return None;
        }
        i := i + 1;
      }
      return c;
    }

    method SetState(pid: nat, state: State) returns (ok: bool)
      requires Valid()
      modifies processes
      ensures Valid()
      ensures (Model(), ok) == Spec.SetState(old(Model()), pid, state)
    {
      var p := FindProcess(pid);
      if p.None? || state == Unused { return false; }
      SetSlot(p.value, processes[p.value].(state := state));
      return true;
    }

    method Exit(pid: nat, code: int) returns (ok: bool)
      requires Valid()
      modifies processes
      ensures Valid()
      ensures (Model(), ok) == Spec.Exit(old(Model()), pid, code)
    {
      var p := FindProcess(pid);
      if p.None? || processes[p.value].state == Dead { return false; }
      SetSlot(p.value, processes[p.value].(exitCode := code, state := Zombie));
      return true;
    }

    method Kill(caller: nat, target: nat) returns (ok: bool)
      requires Valid()
      modifies processes
      ensures Valid()
      ensures (Model(), ok) == Spec.Kill(old(Model()), caller, target)
    {
      var c := FindProcess(caller);
      var v := FindProcess(target);
      if c.None? || processes[c.value].state == Unused || processes[c.value].state == Dead
         || v.None? || processes[v.value].state == Unused || processes[v.value].state == Dead { return false; }
      if target == 1 || target == caller { return false; }
      SetSlot(v.value, processes[v.value].(exitCode := EXIT_KILLED, state := Zombie));
      return true;
    }

    method WaitPid(parent: nat, child: nat) returns (status: Option<int>)
      requires Valid()
      modifies this, processes, cowPages
      ensures Valid()
      ensures (Model(), status) == Spec.WaitPid(old(Model()), parent, child)
    {
      var p := FindProcess(child);
      if p.None? || processes[p.value].ppid != parent || processes[p.value].state == Dead { return None; }
      if processes[p.value].state != Zombie { return None; }
      status := Some(processes[p.value].exitCode);
      ReleaseProcessUserPages(p.value);
      SetSlot(p.value, processes[p.value].(state := Dead));
    }

    method Wait(parent: nat) returns (status: Option<int>)
      requires Valid()
      modifies this, processes, cowPages
      ensures Valid()
      ensures (Model(), status) == Spec.Wait(old(Model()), parent)
    {
      var i := 0;
      while i < MAX_PROCESSES
        invariant i <= MAX_PROCESSES && Valid() && Model() == old(Model())
        invariant ZombieChildFrom(processes[..], parent, i) == ZombieChildFrom(processes[..], parent, 0)
      {
        if processes[i].used && processes[i].ppid == parent && processes[i].state == Zombie {
          status := WaitPid(parent, processes[i].pid);
          return;
        }
        i := i + 1;
      }
      return None;
    }

    /** `load` is the ELF loader's result for the image. */
    method ExecImage(pid: nat, load: Option<Image>) returns (ok: bool)
      requires Valid()
      modifies this, processes, cowPages
      ensures Valid()
      ensures (Model(), ok) == Spec.Exec(old(Model()), pid, load)
    {
      var p := FindProcess(pid);
      if p.None? || load.None? { return false; }
      ReleaseProcessUserPages(p.value);
      SetSlot(p.value, processes[p.value].(image := load.value, state := Ready));
      return true;
    }

    // ----- user pages

    method MapUserPage(pid: nat, i: nat, fill: Byte) returns (ok: bool)
      requires Valid()
      modifies this, processes, cowPages
      ensures Valid()
      ensures (Model(), ok) == Spec.Map(old(Model()), pid, i, fill)
    {
      var p := FindProcess(pid);
      if p.None? || i >= MAX_USER_PAGES || processes[p.value].pages[i].mapped { return false; }
      var k := AllocCowPage();
      if k.None? { return false; }
      FillPage(k.value, fill);
      SetUserPage(p.value, i, PageRef(true, cowPages[k.value].id, true, false));
      stats := stats.(mapped := stats.mapped + 1);
      return true;
    }

    method ReadUserByte(pid: nat, i: nat, offset: nat) returns (value: Option<Byte>)
      requires Valid()
      ensures value == Spec.Read(Model(), pid, i, offset)
    {
      var p := FindProcess(pid);
      if p.None? || i >= MAX_USER_PAGES || offset >= PAGE_SIZE || !processes[p.value].pages[i].mapped { return None; }
      var k := FindCowPage(processes[p.value].pages[i].id);
      if k.None? { return None; }
      return Some(cowPages[k.value].data[offset]);
    }

    method WriteUserByte(pid: nat, i: nat, offset: nat, value: Byte) returns (ok: bool)
      requires Valid()
      modifies this, processes, cowPages
      ensures Valid()
      ensures (Model(), ok) == Spec.Write(old(Model()), pid, i, offset, value)
    {
      var p := FindProcess(pid);
      if p.None? || i >= MAX_USER_PAGES || offset >= PAGE_SIZE || !processes[p.value].pages[i].mapped { return false; }
      ok := DuplicateCowPage(p.value, i);
      if !ok { return; }
      var k := FindCowPage(processes[p.value].pages[i].id);
      if k.None? { return false; }
      cowPages[k.value] := cowPages[k.value].(data := cowPages[k.value].data[offset := value]);
    }

    method HandleCowStoreFault(pid: nat, i: nat, offset: nat) returns (ok: bool)
      requires Valid()
      modifies this, processes, cowPages
      ensures Valid()
      ensures (Model(), ok) == Spec.StoreFault(old(Model()), pid, i, offset)
    {
      var p := FindProcess(pid);
      if p.None? || i >= MAX_USER_PAGES || offset >= PAGE_SIZE || !processes[p.value].pages[i].mapped { return false; }
      ok := DuplicateCowPage(p.value, i);
    }

    /** cow_stats: how many pages are shared, and whether any used page has lost its last reference. */
    method CowStatsSnapshot() returns (shared: nat, leakFree: bool)
      requires Valid()
      ensures leakFree == Spec.LeakFree(Model())
      ensures shared == |set k: nat | k < MAX_COW_PAGES && cowPages[k].used && cowPages[k].refcount > 1|
    {
      shared, leakFree := 0, true;
      var i := 0;
      ghost var counted: set<nat> := {};
      while i < MAX_COW_PAGES
        invariant i <= MAX_COW_PAGES
        invariant leakFree == forall k :: 0 <= k < i ==> cowPages[k].used ==> cowPages[k].refcount != 0
        invariant counted == set k: nat | k < i && cowPages[k].used && cowPages[k].refcount > 1
        invariant shared == |counted|
      {
        if cowPages[i].used && cowPages[i].refcount > 1 {
          shared := shared + 1;
          counted := counted + {i};
        }
        if cowPages[i].used && cowPages[i].refcount == 0 {
          leakFree := false;
        }
        i := i + 1;
      }
    }
  }
}
