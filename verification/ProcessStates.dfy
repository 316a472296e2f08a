/** Process states by pid, the part of the process table that schedulers and locks see. */
module ProcessStates {
  import opened Common
  import opened CourseProcessTypes

  /** A state for each pid the process table knows. */
  type States = map<nat, State>

  function SetState(st: States, pid: nat, state: State): (r: States)
  {
    if pid in st then st[pid := state] else st
  }

  /** The process states as course_process_find reports them. */
  ghost function StatesOf(procs: seq<Process<PageRef>>): (r: States)
  {
    map pid: nat | pid in Pids(procs) && Find(procs, pid).Some? :: procs[Find(procs, pid).value].state
  }

  ghost function Pids(procs: seq<Process<PageRef>>): (r: set<nat>)
  {
    set p: nat | p < |procs| :: procs[p].pid
  }

  lemma StatesAreFound(procs: seq<Process<PageRef>>, pid: nat)
    ensures pid in StatesOf(procs) <==> Find(procs, pid).Some?
    ensures Find(procs, pid).Some? ==> StatesOf(procs)[pid] == procs[Find(procs, pid).value].state
  {
    if Find(procs, pid).Some? {
      assert procs[Find(procs, pid).value].pid in Pids(procs);
    }
  }

  /** Setting a state in the table sets it in the map, and moves no other pid. */
  lemma SetStateMaps(procs: seq<Process<PageRef>>, pid: nat, p: nat, state: State)
    requires Find(procs, pid) == Some(p)
    ensures StatesOf(procs[p := procs[p].(state := state)]) == SetState(StatesOf(procs), pid, state)
  {
    var after := procs[p := procs[p].(state := state)];
    forall q: nat ensures Find(after, q) == Find(procs, q) {
      if q != 0 { FindFromIgnoresState(procs, p, state, q, 0); }
    }
    StatesAreFound(procs, pid);
    forall q: nat
      ensures q in StatesOf(after) <==> q in SetState(StatesOf(procs), pid, state)
      ensures q in StatesOf(after) ==> StatesOf(after)[q] == SetState(StatesOf(procs), pid, state)[q]
    {
      StatesAreFound(procs, q);
      StatesAreFound(after, q);
    }
  }

  lemma {:induction false} FindFromIgnoresState(procs: seq<Process<PageRef>>, p: nat, state: State, pid: nat, i: nat)
    requires p < |procs| && i <= |procs|
    ensures FindFrom(procs[p := procs[p].(state := state)], pid, i) == FindFrom(procs, pid, i)
    decreases |procs| - i
  {
    if i < |procs| { FindFromIgnoresState(procs, p, state, pid, i + 1); }
  }
}
