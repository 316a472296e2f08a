/** The simple process table: every process owns its pages outright, fork copies them,
    and there are no page ids, counts or flags. */
module CourseProcessPrivate {
  import opened Common
  import opened CourseProcessTypes
  import opened CourseProcessRuns

  type Content = Option<seq<Byte>>

  datatype Private = Private(procs: seq<Process<Content>>, nextPid: nat)

  ghost predicate PShaped(v: Private)
  {
    && |v.procs| == MAX_PROCESSES
    && (forall p :: 0 <= p < |v.procs| ==> |v.procs[p].pages| == MAX_USER_PAGES)
    && (forall p, i :: 0 <= p < |v.procs| && 0 <= i < |v.procs[p].pages| && v.procs[p].pages[i].Some? ==>
          |v.procs[p].pages[i].value| == PAGE_SIZE)
  }

  function NoPages(): (r: seq<Content>)
    ensures |r| == MAX_USER_PAGES
  {
    seq(MAX_USER_PAGES, _ => None)
  }

  function With(v: Private, p: nat, process: Process<Content>): (r: Private)
    requires p < |v.procs|
  {
    v.(procs := v.procs[p := process])
  }

  function SetContent(v: Private, p: nat, i: nat, c: Content): (r: Private)
    requires p < |v.procs| && i < |v.procs[p].pages|
  {
    With(v, p, v.procs[p].(pages := v.procs[p].pages[i := c]))
  }

  /** A new process in the first reusable slot, with these pages and this image. */
  function Create(v: Private, ppid: nat, image: Image, pages: seq<Content>): (r: (Private, Result))
  {
    match FreeSlotFrom(v.procs, 0)
    case None => (v, Failed)
    case Some(c) =>
      if v.nextPid == 0 then (v, Failed)
      else (With(v, c, Process(true, v.nextPid, ppid, Ready, 0, image, pages)).(nextPid := Next32(v.nextPid)),
            Done(v.nextPid))
  }

  function Fork(v: Private, pid: nat): (r: (Private, Result))
  {
    match Find(v.procs, pid)
    case None => (v, Failed)
    case Some(p) =>
      if v.procs[p].state == Dead || v.procs[p].state == Zombie then (v, Failed)
      else Create(v, pid, v.procs[p].image, v.procs[p].pages)
  }

  /** Reaping takes the pages away and leaves a DEAD slot. */
  function Reap(v: Private, parent: nat, p: nat): (r: (Private, Result))
    requires p < |v.procs|
  {
    if v.procs[p].ppid != parent || v.procs[p].state != Zombie then (v, Failed)
    else (With(v, p, v.procs[p].(pages := NoPages(), state := Dead)), Done(v.procs[p].exitCode))
  }

  /** The page index and offset denote a byte of a page the process has. */
  predicate Addressable(v: Private, p: nat, i: nat, offset: nat)
    requires PShaped(v) && p < MAX_PROCESSES
  {
    i < MAX_USER_PAGES && offset < PAGE_SIZE && v.procs[p].pages[i].Some?
  }

  /** One operation; `granted` says whether the page pool could serve it. */
  function PStep(v: Private, op: Op, granted: bool): (r: (Private, Result))
    requires PShaped(v)
  {
    match op
    case OpSpawn(ppid) => Create(v, ppid, Image(0, 0), NoPages())
    case OpFork(pid) => Fork(v, pid)
    case OpSetState(pid, state) =>
      var p := Find(v.procs, pid);
      if p.None? || state == Unused then (v, Failed)
      else (With(v, p.value, v.procs[p.value].(state := state)), Done(0))
    case OpExit(pid, code) =>
      var p := Find(v.procs, pid);
      if p.None? || v.procs[p.value].state == Dead then (v, Failed)
      else (With(v, p.value, v.procs[p.value].(exitCode := code, state := Zombie)), Done(0))
    case OpKill(caller, pid) =>
      var c := Find(v.procs, caller);
      var p := Find(v.procs, pid);
      if c.None? || v.procs[c.value].state in {Unused, Dead} || p.None? || v.procs[p.value].state in {Unused, Dead}
         || pid == 1 || pid == caller
      then (v, Failed)
      else (With(v, p.value, v.procs[p.value].(exitCode := EXIT_KILLED, state := Zombie)), Done(0))
    case OpWaitPid(parent, pid) =>
      var p := Find(v.procs, pid);
      if p.None? then (v, Failed) else Reap(v, parent, p.value)
    case OpWait(parent) =>
      var c := ZombieChildFrom(v.procs, parent, 0);
      if c.None? then (v, Failed) else Reap(v, parent, c.value)
    case OpExec(pid, load) =>
      var p := Find(v.procs, pid);
      if p.None? || load.None? then (v, Failed)
      else (With(v, p.value, v.procs[p.value].(pages := NoPages(), image := load.value, state := Ready)), Done(0))
    case OpMap(pid, i, fill) =>
      var p := Find(v.procs, pid);
      if p.None? || i >= MAX_USER_PAGES || v.procs[p.value].pages[i].Some? || !granted then (v, Failed)
      else (SetContent(v, p.value, i, Some(Filled(fill))), Done(0))
    case OpRead(pid, i, offset) =>
      var p := Find(v.procs, pid);
      if p.None? || !Addressable(v, p.value, i, offset) then (v, Failed)
      else (v, Done(v.procs[p.value].pages[i].value[offset]))
    case OpWrite(pid, i, offset, value) =>
      var p := Find(v.procs, pid);
      if p.None? || !Addressable(v, p.value, i, offset) || !granted then (v, Failed)
      else (SetContent(v, p.value, i, Some(v.procs[p.value].pages[i].value[offset := value])), Done(0))
    case OpStoreFault(pid, i, offset) =>
      var p := Find(v.procs, pid);
      if p.None? || !Addressable(v, p.value, i, offset) || !granted then (v, Failed) else (v, Done(0))
  }
}
