/** The terminal input pump: text is queued and sent in batches, one request at a time. Each step below is
    what runs between two awaits. */
module PumpModel {

  /** A request whose answer a flush is waiting for. */
  datatype Flight = Flight(batch: string, generation: nat)

  datatype Pump = Pump(
    queued: string, inFlight: bool, flushScheduled: bool, generation: nat, pending: bool,
    awaiting: seq<Flight>, microtasks: nat)

  const IDLE := Pump("", false, false, 0, false, [], 0)

  /** What the pump's surroundings do and see. */
  datatype Event =
    | Typed(text: string)
    | WasReset
    | Sent(batch: string)
    | Delivered(ok: bool, batch: string)
    | PendingChanged(pending: bool)

  /** Calls into the pump, also possible from inside a response callback. */
  datatype Action = Enqueue(text: string) | Reset

  function SetPending(p: Pump, pending: bool): (r: (Pump, seq<Event>))
  {
    if p.pending == pending then (p, []) else (p.(pending := pending), [PendingChanged(pending)])
  }

  function Act(p: Pump, action: Action): (r: (Pump, seq<Event>))
  {
    match action
    case Enqueue(text) =>
      if text == "" then (p, [])
      else
        var (q, events) := SetPending(p.(queued := p.queued + text), true);
        var s := if q.flushScheduled then q else q.(flushScheduled := true, microtasks := q.microtasks + 1);
        (s, [Typed(text)] + events)
    case Reset =>
      var (q, events) := SetPending(p.(generation := p.generation + 1, queued := ""), false);
      (q, [WasReset] + events)
  }

  function ActAll(p: Pump, actions: seq<Action>): (r: (Pump, seq<Event>))
  {
    if actions == [] then (p, [])
    else
      var n := |actions| - 1;
      var (q, events) := ActAll(p, actions[..n]);
      var (s, more) := Act(q, actions[n]);
      (s, events + more)
  }

  /** From the loop test of the flush to its next await, or to its end. */
  function Flush(p: Pump): (r: (Pump, seq<Event>))
  {
    if p.queued != "" then
      var (q, events) := SetPending(p.(queued := "", inFlight := true), true);
      (q.(awaiting := q.awaiting + [Flight(p.queued, p.generation)]), events + [Sent(p.queued)])
    else SetPending(p, false)
  }

  /** A scheduled flush starts; another one in flight makes it leave at once. */
  function Microtask(p: Pump): (r: (Pump, seq<Event>))
    requires p.microtasks > 0
  {
    var q := p.(flushScheduled := false, microtasks := p.microtasks - 1);
    if q.inFlight then (q, []) else Flush(q)
  }

  /** Request k is answered: delivered unless a reset has made it stale. The callback may act on the pump;
      then the flush goes on. */
  function Settle(p: Pump, k: nat, ok: bool, inside: seq<Action>): (r: (Pump, seq<Event>))
    requires k < |p.awaiting|
  {
    var flight := p.awaiting[k];
    var q := p.(awaiting := p.awaiting[..k] + p.awaiting[k + 1..]);
    var (s, events) :=
      if flight.generation == p.generation then
        var (u, inner) := ActAll(q, inside); (u, [Delivered(ok, flight.batch)] + inner)
      else (q, []);
    var (t, more) := Flush(s.(inFlight := false));
    (t, events + more)
  }

  datatype Step = Call(action: Action) | RunMicrotask | Answer(k: nat, ok: bool, inside: seq<Action>)

  predicate Enabled(p: Pump, step: Step)
  {
    match step
    case Call(_) => true
    case RunMicrotask => p.microtasks > 0
    case Answer(k, _, _) => k < |p.awaiting|
  }

  function Take(p: Pump, step: Step): (r: (Pump, seq<Event>))
    requires Enabled(p, step)
  {
    match step
    case Call(action) => Act(p, action)
    case RunMicrotask => Microtask(p)
    case Answer(k, ok, inside) => Settle(p, k, ok, inside)
  }

  // ----- what has been seen since the last reset

  datatype History = History(typed: string, sent: seq<string>, delivered: seq<string>)

  const NOTHING := History("", [], [])

  function Note(h: History, e: Event): (r: History)
  {
    match e
    case Typed(text) => h.(typed := h.typed + text)
    case WasReset => NOTHING
    case Sent(batch) => h.(sent := h.sent + [batch])
    case Delivered(_, batch) => h.(delivered := h.delivered + [batch])
    case PendingChanged(_) => h
  }

  function Noted(h: History, events: seq<Event>): (r: History)
  {
    if events == [] then h else Note(Noted(h, events[..|events| - 1]), events[|events| - 1])
  }

  function Joined(batches: seq<string>): (r: string)
  {
    if batches == [] then "" else Joined(batches[..|batches| - 1]) + batches[|batches| - 1]
  }

  // ----- the invariant

  /** Some request of the current generation is unanswered. */
  predicate Current(p: Pump)
  {
    |p.awaiting| == 1 && p.awaiting[0].generation == p.generation
  }

  /** One request at a time; what was sent, and then what is queued, is what was typed; every sent batch was
      delivered, in order, but the one in flight; pending says whether anything is left to do; and queued
      text has a flush to come. */
  predicate Inv(p: Pump, h: History)
  {
    && |p.awaiting| <= 1 && (p.inFlight <==> |p.awaiting| == 1)
    && p.microtasks == (if p.flushScheduled then 1 else 0)
    && (|p.awaiting| == 1 ==> p.awaiting[0].generation <= p.generation && p.awaiting[0].batch != "")
    && h.typed == Joined(h.sent) + p.queued
    && h.sent == h.delivered + (if Current(p) then [p.awaiting[0].batch] else [])
    && (p.pending <==> p.queued != "" || Current(p))
    && (p.queued != "" ==> p.inFlight || p.flushScheduled)
  }

  /** Inside a response callback: the request is settled, its flush has not gone on yet. */
  predicate Midway(p: Pump, h: History)
  {
    && p.awaiting == [] && p.inFlight
    && p.microtasks == (if p.flushScheduled then 1 else 0)
    && h.typed == Joined(h.sent) + p.queued && h.sent == h.delivered
    && (p.queued != "" ==> p.pending)
  }

  // ----- notes

  lemma {:induction false} NotedAppend(h: History, a: seq<Event>, b: seq<Event>)
    ensures Noted(h, a + b) == Noted(Noted(h, a), b)
    decreases |b|
  {
    if b == [] {
      assert a + b == a;
    } else {
      var n := |b| - 1;
      assert (a + b)[..|a + b| - 1] == a + b[..n];
      NotedAppend(h, a, b[..n]);
    }
  }

  lemma NotedOne(h: History, e: Event)
    ensures Noted(h, [e]) == Note(h, e) && Noted(h, []) == h
  {
    assert [e][..0] == [];
  }

  lemma PendingUnnoted(p: Pump, pending: bool, h: History)
    ensures Noted(h, SetPending(p, pending).1) == h
    ensures SetPending(p, pending).0 == p.(pending := pending)
  {
    NotedOne(h, PendingChanged(pending));
  }

  lemma ActNoted(p: Pump, action: Action, h: History)
    ensures Noted(h, Act(p, action).1) ==
      match action case Enqueue(text) => h.(typed := h.typed + text) case Reset => NOTHING
  {
    match action
    case Enqueue(text) =>
      if text != "" {
        var events := SetPending(p.(queued := p.queued + text), true).1;
        NotedAppend(h, [Typed(text)], events);
        NotedOne(h, Typed(text));
        PendingUnnoted(p.(queued := p.queued + text), true, Note(h, Typed(text)));
      } else {
        assert h.typed + text == h.typed;
      }
    case Reset =>
      var q := p.(generation := p.generation + 1, queued := "");
      NotedAppend(h, [WasReset], SetPending(q, false).1);
      NotedOne(h, WasReset);
      PendingUnnoted(q, false, NOTHING);
  }

  lemma FlushNoted(p: Pump, h: History)
    ensures Noted(h, Flush(p).1) == if p.queued == "" then h else h.(sent := h.sent + [p.queued])
    ensures Flush(p).0 ==
      if p.queued == "" then p.(pending := false)
      else p.(queued := "", inFlight := true, pending := true, awaiting := p.awaiting + [Flight(p.queued, p.generation)])
  {
    if p.queued == "" {
      PendingUnnoted(p, false, h);
    } else {
      var q := p.(queued := "", inFlight := true);
      PendingUnnoted(q, true, h);
      NotedAppend(h, SetPending(q, true).1, [Sent(p.queued)]);
      NotedOne(h, Sent(p.queued));
    }
  }

  // ----- every step keeps the invariant

  lemma JoinedMore(batches: seq<string>, batch: string)
    ensures Joined(batches + [batch]) == Joined(batches) + batch
  {
    assert (batches + [batch])[..|batches|] == batches;
  }

  lemma ActKeeps(p: Pump, action: Action, h: History)
    requires Inv(p, h)
    ensures var (q, events) := Act(p, action); Inv(q, Noted(h, events))
  {
    hide Joined, Noted;
    ActNoted(p, action, h);
    match action
    case Enqueue(text) =>
      if text != "" {
        PendingUnnoted(p.(queued := p.queued + text), true, h);
        assert h.typed + text == Joined(h.sent) + (p.queued + text);
      } else {
        assert h.typed + text == h.typed;
      }
    case Reset =>
      PendingUnnoted(p.(generation := p.generation + 1, queued := ""), false, h);
      NothingJoined();
  }

  lemma NothingJoined()
    ensures Joined([]) + "" == ""
  {
  }

  lemma ActMidway(p: Pump, action: Action, h: History)
    requires Midway(p, h)
    ensures var (q, events) := Act(p, action); Midway(q, Noted(h, events))
  {
    ActNoted(p, action, h);
    match action
    case Enqueue(text) =>
      PendingUnnoted(p.(queued := p.queued + text), true, h);
      assert h.typed + text == Joined(h.sent) + (p.queued + text);
    case Reset => PendingUnnoted(p.(generation := p.generation + 1, queued := ""), false, h);
  }

  lemma {:induction false} ActAllMidway(p: Pump, actions: seq<Action>, h: History)
    requires Midway(p, h)
    ensures var (q, events) := ActAll(p, actions); Midway(q, Noted(h, events))
    decreases |actions|
  {
    if actions != [] {
      hide Midway;
      var n := |actions| - 1;
      ActAllMidway(p, actions[..n], h);
      var (q, events) := ActAll(p, actions[..n]);
      ActMidway(q, actions[n], Noted(h, events));
      NotedAppend(h, events, Act(q, actions[n]).1);
    }
  }

  /** Going on after an answer. */
  lemma FlushAfterMidway(p: Pump, h: History)
    requires Midway(p, h)
    ensures var (q, events) := Flush(p.(inFlight := false)); Inv(q, Noted(h, events))
  {
    hide Flush, Joined, Noted;
    FlushNoted(p.(inFlight := false), h);
    if p.queued != "" {
      JoinedMore(h.sent, p.queued);
      assert [] + [Flight(p.queued, p.generation)] == [Flight(p.queued, p.generation)];
      assert Joined(h.sent) + p.queued + "" == Joined(h.sent) + p.queued;
    } else {
      assert h.delivered + [] == h.delivered;
    }
  }

  lemma MicrotaskKeeps(p: Pump, h: History)
    requires Inv(p, h) && p.microtasks > 0
    ensures var (q, events) := Microtask(p); Inv(q, Noted(h, events))
  {
    var q := p.(flushScheduled := false, microtasks := p.microtasks - 1);
    if q.inFlight {
      NotedOne(h, WasReset);
    } else {
      FlushNoted(q, h);
      JoinedMore(h.sent, q.queued);
      assert [] + [Flight(q.queued, q.generation)] == [Flight(q.queued, q.generation)];
      assert Joined(h.sent) + q.queued + "" == Joined(h.sent) + q.queued;
    }
  }

  lemma SettleKeeps(p: Pump, k: nat, ok: bool, inside: seq<Action>, h: History)
    requires Inv(p, h) && k < |p.awaiting|
    ensures var (q, events) := Settle(p, k, ok, inside); Inv(q, Noted(h, events))
  {
    var flight := p.awaiting[k];
    var q := p.(awaiting := p.awaiting[..k] + p.awaiting[k + 1..]);
    assert q.awaiting == [];
    if flight.generation == p.generation {
      var delivered := h.(delivered := h.delivered + [flight.batch]);
      NotedOne(h, Delivered(ok, flight.batch));
      ActAllMidway(q, inside, delivered);
      var (u, inner) := ActAll(q, inside);
      NotedAppend(h, [Delivered(ok, flight.batch)], inner);
      hide Midway, Inv;
      var events := [Delivered(ok, flight.batch)] + inner;
      FlushAfterMidway(u, Noted(h, events));
      NotedAppend(h, events, Flush(u.(inFlight := false)).1);
    } else {
      assert h.sent == h.delivered;
      assert Midway(q, h);
      hide Midway, Inv;
      FlushAfterMidway(q, h);
      var more := Flush(q.(inFlight := false)).1;
      assert [] + more == more;
    }
  }

  lemma StepKeeps(p: Pump, step: Step, h: History)
    requires Inv(p, h) && Enabled(p, step)
    ensures var (q, events) := Take(p, step); Inv(q, Noted(h, events))
  {
    match step
    case Call(action) => ActKeeps(p, action, h);
    case RunMicrotask => MicrotaskKeeps(p, h);
    case Answer(k, ok, inside) => SettleKeeps(p, k, ok, inside, h);
  }

  // ----- runs

  ghost predicate CanRun(p: Pump, steps: seq<Step>)
    decreases |steps|
  {
    steps != [] ==> Enabled(p, steps[0]) && CanRun(Take(p, steps[0]).0, steps[1..])
  }

  function Run(p: Pump, steps: seq<Step>): (r: (Pump, seq<Event>))
    requires CanRun(p, steps)
    decreases |steps|
  {
    if steps == [] then (p, [])
    else
      var (q, events) := Take(p, steps[0]);
      var (s, more) := Run(q, steps[1..]);
      (s, events + more)
  }

  lemma {:induction false} RunKeeps(p: Pump, steps: seq<Step>, h: History)
    requires CanRun(p, steps) && Inv(p, h)
    ensures var (q, events) := Run(p, steps); Inv(q, Noted(h, events))
    decreases |steps|
  {
    if steps != [] {
      hide Inv, Take, Enabled;
      StepKeeps(p, steps[0], h);
      var (q, events) := Take(p, steps[0]);
      RunKeeps(q, steps[1..], Noted(h, events));
      NotedAppend(h, events, Run(q, steps[1..]).1);
    }
  }

  /** The protocol over every run from the idle pump. */
  lemma Protocol(steps: seq<Step>)
    requires CanRun(IDLE, steps)
    ensures var (p, events) := Run(IDLE, steps);
      var h := Noted(NOTHING, events);
      && |p.awaiting| <= 1
      && Joined(h.sent) + p.queued == h.typed
      && h.sent == h.delivered + (if Current(p) then [p.awaiting[0].batch] else [])
      && (p.queued != "" ==> p.inFlight || p.microtasks > 0)
      && (p.pending <==> p.queued != "" || Current(p))
  {
    assert Joined([]) + "" == "";
    RunKeeps(IDLE, steps, NOTHING);
  }

  // ----- everything typed gets there

  /** Quiet steps that let the pump finish. */
  function Finish(p: Pump): (r: (Pump, seq<Event>))
    requires |p.awaiting| <= 1
  {
    var (q, a) := if p.microtasks > 0 then Microtask(p) else (p, []);
    var (s, b) := if |q.awaiting| > 0 then Settle(q, 0, true, []) else (q, []);
    var (t, c) := if |s.awaiting| > 0 then Settle(s, 0, true, []) else (s, []);
    (t, a + b + c)
  }

  lemma QuietSettle(p: Pump, h: History)
    requires Inv(p, h) && |p.awaiting| == 1
    ensures var (q, events) := Settle(p, 0, true, []);
      && Inv(q, Noted(h, events)) && Noted(h, events).typed == h.typed
      && (|q.awaiting| == 0 <==> p.queued == "") && q.queued == "" && q.microtasks == p.microtasks
  {
    SettleKeeps(p, 0, true, [], h);
    var flight := p.awaiting[0];
    var q := p.(awaiting := p.awaiting[..0] + p.awaiting[1..]);
    assert q.awaiting == [];
    FlushNoted(q.(inFlight := false), h);
    var delivered := Delivered(true, flight.batch);
    NotedOne(h, delivered);
    assert ActAll(q, []) == (q, []);
    assert [delivered] + [] == [delivered];
    var more := Flush(q.(inFlight := false)).1;
    if flight.generation == p.generation {
      NotedAppend(h, [delivered], more);
      FlushNoted(q.(inFlight := false), Note(h, delivered));
    } else {
      assert [] + more == more;
    }
  }

  lemma QuietMicrotask(p: Pump, h: History)
    requires Inv(p, h) && p.microtasks > 0
    ensures var (q, events) := Microtask(p);
      && Inv(q, Noted(h, events)) && Noted(h, events).typed == h.typed && q.microtasks == 0
      && (q.queued == "" || |q.awaiting| == 1)
  {
    MicrotaskKeeps(p, h);
    FlushNoted(p.(flushScheduled := false, microtasks := p.microtasks - 1), h);
  }

  /** No lost wake-up: once no more is typed and the scheduled flush and the answers come in, the pump is at
      rest and every character typed since the last reset has been sent and delivered, in order. */
  lemma Drains(p: Pump, h: History)
    requires Inv(p, h)
    ensures var (q, events) := Finish(p);
      var end := Noted(h, events);
      && q.queued == "" && !q.inFlight && !q.pending && q.microtasks == 0
      && Joined(end.delivered) == end.typed == h.typed
  {
    var (q, a) := if p.microtasks > 0 then Microtask(p) else (p, []);
    if p.microtasks > 0 { QuietMicrotask(p, h); }
    var h1 := Noted(h, a);
    var (s, b) := if |q.awaiting| > 0 then Settle(q, 0, true, []) else (q, []);
    if |q.awaiting| > 0 { QuietSettle(q, h1); }
    var h2 := Noted(h1, b);
    var (t, c) := if |s.awaiting| > 0 then Settle(s, 0, true, []) else (s, []);
    if |s.awaiting| > 0 { QuietSettle(s, h2); }
    NotedAppend(h, a, b);
    NotedAppend(h, a + b, c);
    var end := Noted(h2, c);
    assert Joined(end.sent) + "" == Joined(end.sent);
    assert end.delivered + [] == end.delivered;
  }
}
