/** What the pump tells its surroundings: every answer of the current generation is delivered as it came, and
    the pending flag is announced exactly when it changes. */
module PumpEvents {
  import opened PumpModel

  ghost predicate NothingDelivered(events: seq<Event>)
  {
    forall k :: 0 <= k < |events| ==> !events[k].Delivered?
  }

  lemma {:induction false} ActsDeliverNothing(p: Pump, actions: seq<Action>)
    ensures NothingDelivered(ActAll(p, actions).1)
    decreases |actions|
  {
    if actions != [] {
      ActsDeliverNothing(p, actions[..|actions| - 1]);
    }
  }

  /** An answer of the current generation is delivered first, with its own outcome and batch, and once; a stale
      one is not delivered at all. */
  lemma AnswerDelivered(p: Pump, k: nat, ok: bool, inside: seq<Action>)
    requires k < |p.awaiting|
    ensures var events := Take(p, Answer(k, ok, inside)).1;
      if p.awaiting[k].generation == p.generation
      then events != [] && events[0] == Delivered(ok, p.awaiting[k].batch) && NothingDelivered(events[1..])
      else NothingDelivered(events)
  {
    var q := p.(awaiting := p.awaiting[..k] + p.awaiting[k + 1..]);
    ActsDeliverNothing(q, inside);
  }

  /** Nothing else delivers. */
  lemma OnlyAnswersDeliver(p: Pump, step: Step)
    requires Enabled(p, step) && !step.Answer?
    ensures NothingDelivered(Take(p, step).1)
  {
  }

  // ----- the pending flag

  /** The flag as the announcements have it, and whether each of them announced a change. */
  ghost function Announced(pending: bool, events: seq<Event>): (r: (bool, bool))
    decreases |events|
  {
    if events == [] then (pending, true)
    else
      var (before, sound) := Announced(pending, events[..|events| - 1]);
      match events[|events| - 1]
      case PendingChanged(now) => (now, sound && now != before)
      case _ => (before, sound)
  }

  lemma {:induction false} AnnouncedAppend(pending: bool, a: seq<Event>, b: seq<Event>)
    requires Announced(pending, a).1
    ensures Announced(pending, a + b) == Announced(Announced(pending, a).0, b)
    decreases |b|
  {
    if b == [] {
      assert a + b == a;
    } else {
      var n := |b| - 1;
      assert (a + b)[..|a + b| - 1] == a + b[..n];
      AnnouncedAppend(pending, a, b[..n]);
    }
  }

  /** The events of a step announce every change of the flag, in turn, and nothing else. */
  ghost predicate Told(p: Pump, q: Pump, events: seq<Event>)
  {
    Announced(p.pending, events) == (q.pending, true)
  }

  lemma ToldOne(pending: bool, e: Event)
    ensures Announced(pending, []) == (pending, true)
    ensures Announced(pending, [e]) == if e.PendingChanged? then (e.pending, e.pending != pending) else (pending, true)
  {
    assert [e][..0] == [];
  }

  lemma ToldThen(p: Pump, q: Pump, s: Pump, a: seq<Event>, b: seq<Event>)
    requires Told(p, q, a) && Told(q, s, b)
    ensures Told(p, s, a + b)
  {
    AnnouncedAppend(p.pending, a, b);
  }

  lemma SetTold(p: Pump, pending: bool)
    ensures var (q, events) := SetPending(p, pending); Told(p, q, events) && q == p.(pending := pending)
  {
    ToldOne(p.pending, PendingChanged(pending));
  }

  lemma ActTold(p: Pump, action: Action)
    ensures var (q, events) := Act(p, action); Told(p, q, events)
  {
    match action
    case Enqueue(text) =>
      ToldOne(p.pending, Typed(text));
      if text != "" {
        var u := p.(queued := p.queued + text);
        SetTold(u, true);
        ToldThen(p, u, SetPending(u, true).0, [Typed(text)], SetPending(u, true).1);
      }
    case Reset =>
      ToldOne(p.pending, WasReset);
      var u := p.(generation := p.generation + 1, queued := "");
      SetTold(u, false);
      ToldThen(p, u, SetPending(u, false).0, [WasReset], SetPending(u, false).1);
  }

  lemma {:induction false} ActAllTold(p: Pump, actions: seq<Action>)
    ensures var (q, events) := ActAll(p, actions); Told(p, q, events)
    decreases |actions|
  {
    ToldOne(p.pending, WasReset);
    if actions != [] {
      hide Told, Act;
      var n := |actions| - 1;
      ActAllTold(p, actions[..n]);
      var (q, events) := ActAll(p, actions[..n]);
      ActTold(q, actions[n]);
      ToldThen(p, q, Act(q, actions[n]).0, events, Act(q, actions[n]).1);
    }
  }

  lemma FlushTold(p: Pump)
    ensures var (q, events) := Flush(p); Told(p, q, events)
  {
    if p.queued == "" {
      SetTold(p, false);
    } else {
      var u := p.(queued := "", inFlight := true);
      SetTold(u, true);
      var (s, events) := SetPending(u, true);
      ToldOne(s.pending, Sent(p.queued));
      ToldThen(p, s, s, events, [Sent(p.queued)]);
    }
  }

  lemma SettleTold(p: Pump, k: nat, ok: bool, inside: seq<Action>)
    requires k < |p.awaiting|
    ensures var (q, events) := Settle(p, k, ok, inside); Told(p, q, events)
  {
    var flight := p.awaiting[k];
    var q := p.(awaiting := p.awaiting[..k] + p.awaiting[k + 1..]);
    var (u, inner) := ActAll(q, inside);
    ToldOne(p.pending, Delivered(ok, flight.batch));
    ActAllTold(q, inside);
    ToldThen(p, q, u, [Delivered(ok, flight.batch)], inner);
    var (s, events) := if flight.generation == p.generation then (u, [Delivered(ok, flight.batch)] + inner) else (q, []);
    FlushTold(s.(inFlight := false));
    ToldThen(p, s.(inFlight := false), Flush(s.(inFlight := false)).0, events, Flush(s.(inFlight := false)).1);
  }

  lemma StepTold(p: Pump, step: Step)
    requires Enabled(p, step)
    ensures var (q, events) := Take(p, step); Told(p, q, events)
  {
    match step
    case Call(action) => ActTold(p, action);
    case RunMicrotask =>
      ToldOne(p.pending, WasReset);
      FlushTold(p.(flushScheduled := false, microtasks := p.microtasks - 1));
    case Answer(k, ok, inside) => SettleTold(p, k, ok, inside);
  }

  /** Over every run the announcements take turns, each says something new, and the last is how things stand. */
  lemma {:induction false} RunTold(p: Pump, steps: seq<Step>)
    requires CanRun(p, steps)
    ensures var (q, events) := Run(p, steps); Told(p, q, events)
    decreases |steps|
  {
    ToldOne(p.pending, WasReset);
    if steps != [] {
      hide Told, Take, Enabled;
      StepTold(p, steps[0]);
      var (q, events) := Take(p, steps[0]);
      RunTold(q, steps[1..]);
      ToldThen(p, q, Run(q, steps[1..]).0, events, Run(q, steps[1..]).1);
    }
  }
}
