/** The terminal input pump as it runs: its variables are updated in place by calls, microtasks and answers. */
module InputPump {
  import opened PumpModel

  class TerminalInputPump {
    var queuedText: string
    var inFlight: bool
    var flushScheduled: bool
    var generation: nat
    var pending: bool
    /** Flushes suspended at their await, and microtasks not run yet. */
    var awaiting: seq<Flight>
    var microtasks: nat

    function Model(): (r: Pump)
      reads this
    {
      Pump(queuedText, inFlight, flushScheduled, generation, pending, awaiting, microtasks)
    }

    constructor ()
      ensures Model() == IDLE
    {
      queuedText, inFlight, flushScheduled, generation, pending := "", false, false, 0, false;
      awaiting, microtasks := [], 0;
    }

    method ChangePending(next: bool) returns (events: seq<Event>)
      modifies this
      ensures (Model(), events) == SetPending(old(Model()), next)
    {
      if pending == next { return []; }
      pending := next;
      return [PendingChanged(next)];
    }

    /** The flush loop from its test to the next await. */
    method FlushQueue() returns (events: seq<Event>)
      modifies this
      ensures (Model(), events) == Flush(old(Model()))
    {
      if |queuedText| > 0 {
        var batch := queuedText;
        var requestGeneration := generation;
        queuedText := "";
        inFlight := true;
        events := ChangePending(true);
        awaiting := awaiting + [Flight(batch, requestGeneration)];
        return events + [Sent(batch)];
      }
      events := ChangePending(false);
    }

    method ScheduleFlush()
      modifies this
      ensures Model() == if old(flushScheduled) then old(Model())
        else old(Model()).(flushScheduled := true, microtasks := old(microtasks) + 1)
    {
      if flushScheduled { return; }
      flushScheduled := true;
      microtasks := microtasks + 1;
    }

    method EnqueueText(text: string) returns (events: seq<Event>)
      modifies this
      ensures (Model(), events) == Act(old(Model()), Enqueue(text))
    {
      if text == "" { return []; }
      queuedText := queuedText + text;
      events := ChangePending(true);
      ScheduleFlush();
      return [Typed(text)] + events;
    }

    method ResetPump() returns (events: seq<Event>)
      modifies this
      ensures (Model(), events) == Act(old(Model()), Reset)
    {
      generation := generation + 1;
      queuedText := "";
      events := ChangePending(false);
      return [WasReset] + events;
    }

    method RunMicrotask() returns (events: seq<Event>)
      requires microtasks > 0
      modifies this
      ensures (Model(), events) == Microtask(old(Model()))
    {
      microtasks := microtasks - 1;
      flushScheduled := false;
      if inFlight { return []; }
      events := FlushQueue();
    }

    /** What a response callback does to the pump. */
    method Callback(actions: seq<Action>) returns (events: seq<Event>)
      modifies this
      ensures (Model(), events) == ActAll(old(Model()), actions)
    {
      events := [];
      var i: nat := 0;
      assert actions[..0] == [];
      while i < |actions|
        invariant i <= |actions| && (Model(), events) == ActAll(old(Model()), actions[..i])
      {
        assert actions[..i + 1][..i] == actions[..i];
        var more: seq<Event>;
        match actions[i] {
          case Enqueue(text) => more := EnqueueText(text);
          case Reset => more := ResetPump();
        }
        events := events + more;
        i := i + 1;
      }
      assert actions[..|actions|] == actions;
    }

    /** The k-th suspended flush gets its answer and runs on. */
    method Answered(k: nat, ok: bool, inside: seq<Action>) returns (events: seq<Event>)
      requires k < |awaiting|
      modifies this
      ensures (Model(), events) == Settle(old(Model()), k, ok, inside)
    {
      var flight := awaiting[k];
      awaiting := awaiting[..k] + awaiting[k + 1..];
      events := [];
      if flight.generation == generation {
        events := Callback(inside);
        events := [Delivered(ok, flight.batch)] + events;
      }
      inFlight := false;
      var more := FlushQueue();
      return events + more;
    }
  }
}
