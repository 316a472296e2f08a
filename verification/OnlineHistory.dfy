/** Whole histories of the online scheduler: ticks, reconfigurations and new processes in any order, with
    process states changed from outside at any time. */
module OnlineHistory {
  import opened Sums
  import SchedulerModel
  import opened ProcessStates
  import opened OnlineModel
  import opened OnlineRuns

  datatype Event = TimerTick | NewPolicy(policy: SchedulerModel.Policy, slice: nat) | NewProcess(pid: nat) | NewStates(st: States)

  /** Configuring moves no slot and no tick count. */
  lemma ConfigureKeeps(o: Online, policy: SchedulerModel.Policy, slice: nat)
    requires Sound(o) && Configured(o)
    ensures var (p, ok) := Configure(o, policy, slice);
      && Sound(p) && Configured(p) && p.slots == o.slots && p.ticks == o.ticks && p.idleTicks == o.idleTicks
      && (Conserved(o) ==> Conserved(p))
  {
  }

  lemma AddKeepsSound(o: Online, st: States, pid: nat)
    requires Sound(o) && Configured(o)
    ensures var p := AddProcess(o, st, pid).0; Sound(p) && Configured(p) && p.ticks == o.ticks
  {
    var p := AddProcess(o, st, pid).0;
    if AddProcess(o, st, pid).1 {
      assert o.current == NO_INDEX || o.current < |p.slots|;
    }
  }

  /** One event; the flag is what the scheduler's call returns. */
  ghost function Happen(o: Online, st: States, e: Event): (r: (Online, States, bool))
    requires Sound(o) && Configured(o)
    ensures Sound(r.0) && Configured(r.0)
  {
    match e
    case TimerTick => TickEffect(o, st); Tick(o, st)
    case NewPolicy(policy, slice) =>
      ConfigureKeeps(o, policy, slice);
      var (p, ok) := Configure(o, policy, slice); (p, st, ok)
    case NewProcess(pid) =>
      AddKeepsSound(o, st, pid);
      var (p, ok) := AddProcess(o, st, pid); (p, st, ok)
    case NewStates(now) => (o, now, true)
  }

  /** From initialization over a process table in these states. */
  ghost function Play(st: States, events: seq<Event>): (r: (Online, States))
    ensures Sound(r.0) && Configured(r.0)
    decreases |events|
  {
    if events == [] then (Init(), st)
    else
      var (o, now) := Play(st, events[..|events| - 1]);
      var (p, next, _) := Happen(o, now, events[|events| - 1]);
      (p, next)
  }

  function TicksIn(events: seq<Event>): (r: nat)
    decreases |events|
  {
    if events == [] then 0
    else TicksIn(events[..|events| - 1]) + if events[|events| - 1].TimerTick? then 1 else 0
  }

  lemma HappenConserves(o: Online, st: States, e: Event)
    requires Sound(o) && Configured(o) && Conserved(o)
    ensures var p := Happen(o, st, e).0;
      Conserved(p) && p.ticks == o.ticks + if e.TimerTick? then 1 else 0
  {
    hide Tick, Configure, AddProcess, Conserved;
    match e
    case TimerTick => TickEffect(o, st); TickConserves(o, st);
    case NewPolicy(policy, slice) => ConfigureKeeps(o, policy, slice);
    case NewProcess(pid) => AddKeeps(o, st, pid); AddKeepsSound(o, st, pid);
    case NewStates(_) =>
  }

  lemma InitConserves()
    ensures Sound(Init()) && Configured(Init()) && Conserved(Init()) && Init().ticks == 0
  {
    assert RunTicks(Init().slots) == [];
  }

  lemma {:induction false} PlayConserves(st: States, events: seq<Event>)
    ensures Conserved(Play(st, events).0) && Play(st, events).0.ticks == TicksIn(events)
    decreases |events|
  {
    hide Conserved, Happen, Sound, Configured, Play, TicksIn, Init;
    PlayUnfolds(st, events);
    if events == [] {
      InitConserves();
    } else {
      var n := |events| - 1;
      PlayConserves(st, events[..n]);
      HappenConserves(Play(st, events[..n]).0, Play(st, events[..n]).1, events[n]);
    }
  }

  lemma PlayUnfolds(st: States, events: seq<Event>)
    ensures events == [] ==> Play(st, events).0 == Init() && TicksIn(events) == 0
    ensures events != [] ==>
      var n := |events| - 1;
      && Play(st, events).0 == Happen(Play(st, events[..n]).0, Play(st, events[..n]).1, events[n]).0
      && TicksIn(events) == TicksIn(events[..n]) + if events[n].TimerTick? then 1 else 0
  {
    hide Happen, Sound, Configured;
  }

  /** Over every history: the ticks counted are the ticks there were, each was idle or credited to one slot,
      and vruntime is run ticks. */
  lemma HistoryConserves(st: States, events: seq<Event>)
    ensures var o := Play(st, events).0;
      && o.ticks == TicksIn(events) == o.idleTicks + Sum(RunTicks(o.slots))
      && (forall i :: 0 <= i < |o.slots| ==> o.slots[i].vruntime == o.slots[i].runTicks)
  {
    hide Play, TicksIn;
    PlayConserves(st, events);
  }

  /** In every history no tick fails; it is credited to the slot it leaves current, whose process is RUNNING,
      or is idle because no process was READY. */
  lemma HistoryTicks(st: States, events: seq<Event>)
    ensures var (o, now) := Play(st, events);
      var (p, next, ok) := Happen(o, now, TimerTick);
      && ok && Play(st, events + [TimerTick]) == (p, next)
      && (if CurrentRunning(p, next)
          then p.idleTicks == o.idleTicks && p.current < |o.slots|
            && p.slots == o.slots[p.current := Slot(o.slots[p.current].pid, o.slots[p.current].vruntime + 1,
                                                    o.slots[p.current].runTicks + 1)]
          else p.idleTicks == o.idleTicks + 1 && p.slots == o.slots && NoneReady(o, now))
  {
    hide Tick, Has, NoneReady;
    var (o, now) := Play(st, events);
    assert (events + [TimerTick])[..|events|] == events;
    TickEffect(o, now);
    var (p, next, _) := Tick(o, now);
    if CurrentRunning(p, next) { InRange(p, next); }
  }
}
