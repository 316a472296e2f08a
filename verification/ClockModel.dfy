/** Demand paging with clock replacement: frames, a hand that sweeps over them, and fault counters. */
module ClockModel {
  import opened Common

  const MAX_FRAMES := 16

  datatype Frame = Frame(resident: bool, page: nat, referenced: bool, dirty: bool)

  datatype Clock = Clock(frames: seq<Frame>, hand: nat, used: nat, faults: nat, reclaims: nat)

  const EMPTY := Frame(false, 0, false, false)

  function Next(hand: nat, n: nat): (r: nat)
    requires n > 0
    ensures r < n
  {
    (hand + 1) % n
  }

  /** The sweep after some probes: frames, hand, and the victim. */
  function Sweep(frames: seq<Frame>, hand: nat, probes: nat): (r: (seq<Frame>, nat, nat))
    requires hand < |frames| && probes <= 2 * |frames|
    ensures |r.0| == |frames| && r.1 < |frames| && r.2 < |frames|
    decreases 2 * |frames| - probes
  {
    if probes == 2 * |frames| then (frames, hand, hand)
    else if !frames[hand].referenced then (frames, Next(hand, |frames|), hand)
    else Sweep(frames[hand := frames[hand].(referenced := false)], Next(hand, |frames|), probes + 1)
  }

  /** How many frames the sweep looks at. */
  function Looked(frames: seq<Frame>, hand: nat, probes: nat): (r: nat)
    requires hand < |frames| && probes <= 2 * |frames|
    decreases 2 * |frames| - probes
  {
    if probes == 2 * |frames| then 0
    else if !frames[hand].referenced then 1
    else 1 + Looked(frames[hand := frames[hand].(referenced := false)], Next(hand, |frames|), probes + 1)
  }

  /** The sweep stops at an unreferenced frame, rather than running out of probes. */
  predicate Stops(frames: seq<Frame>, hand: nat, probes: nat)
    requires hand < |frames| && probes <= 2 * |frames|
    decreases 2 * |frames| - probes
  {
    probes < 2 * |frames|
    && (!frames[hand].referenced
        || Stops(frames[hand := frames[hand].(referenced := false)], Next(hand, |frames|), probes + 1))
  }

  function ResidentFrom(frames: seq<Frame>, page: nat, i: nat): (r: Option<nat>)
    requires i <= |frames|
    ensures r.Some? ==> i <= r.value < |frames| && frames[r.value].resident && frames[r.value].page == page
    ensures r.None? ==> forall k :: i <= k < |frames| ==> !(frames[k].resident && frames[k].page == page)
    decreases |frames| - i
  {
    if i == |frames| then None
    else if frames[i].resident && frames[i].page == page then Some(i) else ResidentFrom(frames, page, i + 1)
  }

  function FreeFrom(frames: seq<Frame>, i: nat): (r: Option<nat>)
    requires i <= |frames|
    ensures r.Some? ==>
      i <= r.value < |frames| && !frames[r.value].resident && forall k :: i <= k < r.value ==> frames[k].resident
    ensures r.None? ==> forall k :: i <= k < |frames| ==> frames[k].resident
    decreases |frames| - i
  {
    if i == |frames| then None else if !frames[i].resident then Some(i) else FreeFrom(frames, i + 1)
  }

  function CountResident(frames: seq<Frame>): (r: nat)
    ensures r <= |frames|
  {
    if frames == [] then 0 else CountResident(frames[..|frames| - 1]) + if frames[|frames| - 1].resident then 1 else 0
  }

  function Installed(page: nat, write: bool): (r: Frame)
  {
    Frame(true, page, true, write)
  }

  function Touch(c: Clock, page: nat, write: bool): (r: (Clock, bool))
    requires c.frames == [] || c.hand < |c.frames|
  {
    if |c.frames| == 0 then (c, false)
    else
      var hit := ResidentFrom(c.frames, page, 0);
      if hit.Some? then
        var f := c.frames[hit.value];
        (c.(frames := c.frames[hit.value := f.(referenced := true, dirty := f.dirty || write)]), true)
      else
        var free := FreeFrom(c.frames, 0);
        if free.Some? then (Loaded(c, free.value, page, write, 0), true)
        else
          var (frames, hand, victim) := Sweep(c.frames, c.hand, 0);
          (Loaded(c.(frames := frames, hand := hand), victim, page, write, 1), true)
  }

  /** After a fault: the page in frame i, counters brought up to date. */
  function Loaded(c: Clock, i: nat, page: nat, write: bool, reclaimed: nat): (r: Clock)
    requires i < |c.frames|
  {
    var frames := c.frames[i := Installed(page, write)];
    Clock(frames, c.hand, CountResident(frames), c.faults + 1, c.reclaims + reclaimed)
  }

  function Start(n: nat): (r: Clock)
  {
    Clock(seq(n, _ => EMPTY), 0, 0, 0, 0)
  }

  // ----- the sweep

  /** The frame k places on from the hand. */
  function At(hand: nat, k: nat, n: nat): (r: nat)
    requires n > 0
    ensures r < n
  {
    (hand + k) % n
  }

  lemma Wrap(a: nat, n: nat)
    requires a < 2 * n
    ensures a % n == if a < n then a else a - n
  {
    if a >= n { assert a == n + (a - n); }
  }

  lemma Turn(hand: nat, k: nat, n: nat)
    requires hand < n && k <= n
    ensures At(hand, k, n) == if hand + k < n then hand + k else hand + k - n
    ensures Next(hand, n) == if hand + 1 < n then hand + 1 else 0
  {
    Wrap(hand + k, n);
    Wrap(hand + 1, n);
  }

  /** The frames as the hand meets them. */
  function Around(frames: seq<Frame>, hand: nat): (r: seq<Frame>)
    requires hand < |frames|
  {
    frames[hand..] + frames[..hand]
  }

  lemma AroundAt(frames: seq<Frame>, hand: nat, k: nat)
    requires hand < |frames| && k < |frames|
    ensures Around(frames, hand)[k] == frames[At(hand, k, |frames|)]
  {
    Turn(hand, k, |frames|);
  }

  /** Putting a frame under the hand and moving on: the front of the ring goes to its back. */
  lemma AroundNext(frames: seq<Frame>, hand: nat, f: Frame)
    requires hand < |frames|
    ensures Around(frames[hand := f], Next(hand, |frames|)) == Around(frames, hand)[1..] + [f]
  {
    Turn(hand, 1, |frames|);
  }

  /** How many referenced frames come before the first unreferenced one. */
  function Streak(queue: seq<Frame>): (r: nat)
    ensures r <= |queue|
    ensures forall k :: 0 <= k < r ==> queue[k].referenced
    ensures r < |queue| ==> !queue[r].referenced
  {
    if queue == [] || !queue[0].referenced then 0 else 1 + Streak(queue[1..])
  }

  /** Second chance on a queue of frames: a referenced front is cleared and goes to the back; an unreferenced
      one leaves, and the new frame joins at the back. */
  function SecondChance(queue: seq<Frame>, newcomer: Frame): (r: seq<Frame>)
    requires queue != []
    decreases Streak(queue)
  {
    if !queue[0].referenced then queue[1..] + [newcomer]
    else
      var g := queue[0].(referenced := false);
      StreakTurns(queue, g);
      SecondChance(queue[1..] + [g], newcomer)
  }

  /** The whole sweep is second chance on the ring: same frames left, in the same order. */
  lemma {:induction false} SweepIsSecondChance(frames: seq<Frame>, hand: nat, probes: nat, f: Frame)
    requires hand < |frames| && probes < 2 * |frames|
    requires Streak(Around(frames, hand)) + probes < 2 * |frames|
    ensures var (after, next, victim) := Sweep(frames, hand, probes);
      && next == Next(victim, |frames|)
      && Around(after[victim := f], next) == SecondChance(Around(frames, hand), f)
    decreases 2 * |frames| - probes
  {
    var ring := Around(frames, hand);
    AroundAt(frames, hand, 0);
    Turn(hand, 0, |frames|);
    AroundNext(frames, hand, f);
    if frames[hand].referenced {
      var g := frames[hand].(referenced := false);
      AroundNext(frames, hand, g);
      StreakTurns(ring, g);
      SweepIsSecondChance(frames[hand := g], Next(hand, |frames|), probes + 1, f);
    }
  }

  /** Clearing the front and sending it back shortens the streak by one. */
  lemma StreakTurns(queue: seq<Frame>, g: Frame)
    requires queue != [] && queue[0].referenced && !g.referenced
    ensures Streak(queue[1..] + [g]) == Streak(queue) - 1
  {
    var turned := queue[1..] + [g];
    StreakUnique(turned, Streak(queue) - 1);
  }

  lemma {:induction false} StreakUnique(queue: seq<Frame>, k: nat)
    requires k < |queue| && !queue[k].referenced && forall j :: 0 <= j < k ==> queue[j].referenced
    ensures Streak(queue) == k
    decreases k
  {
    if k > 0 { StreakUnique(queue[1..], k - 1); }
  }

  lemma RingFront(frames: seq<Frame>, hand: nat)
    requires hand < |frames|
    ensures |Around(frames, hand)| == |frames| && Around(frames, hand)[0] == frames[hand]
    ensures Streak(Around(frames, hand)) == 0 <==> !frames[hand].referenced
  {
  }

  /** Where the sweep ends: at the first unreferenced frame from the hand on, after clearing those before it;
      when all are referenced, back at the frame it started from. So it ends within n + 1 probes. */
  lemma {:induction false} SweepEnds(frames: seq<Frame>, hand: nat, probes: nat)
    requires hand < |frames| && Streak(Around(frames, hand)) + probes < 2 * |frames|
    ensures var n := |frames|;
      var streak := Streak(Around(frames, hand));
      var (after, next, victim) := Sweep(frames, hand, probes);
      && victim == At(hand, streak, n)
      && !after[victim].referenced
      && forall j :: 0 <= j < n ==> after[j] == frames[j] || after[j] == frames[j].(referenced := false)
    decreases Streak(Around(frames, hand))
  {
    hide At, Next, Around, Streak;
    var n := |frames|;
    var ring := Around(frames, hand);
    RingFront(frames, hand);
    Turn(hand, 0, n);
    Turn(hand, 1, n);
    if frames[hand].referenced {
      var g := frames[hand].(referenced := false);
      AroundNext(frames, hand, g);
      StreakTurns(ring, g);
      Turn(hand, Streak(ring), n);
      Turn(Next(hand, n), Streak(ring) - 1, n);
      SweepEnds(frames[hand := g], Next(hand, n), probes + 1);
    }
  }

  /** The sweep looks at the referenced frames before the first unreferenced one and at that one, and stops. */
  lemma {:induction false} SweepLooks(frames: seq<Frame>, hand: nat, probes: nat)
    requires hand < |frames| && probes < 2 * |frames|
    requires Streak(Around(frames, hand)) + probes < 2 * |frames|
    ensures Looked(frames, hand, probes) == Streak(Around(frames, hand)) + 1
    ensures Stops(frames, hand, probes)
    decreases 2 * |frames| - probes
  {
    hide Around, Streak, Next;
    RingFront(frames, hand);
    if frames[hand].referenced {
      var g := frames[hand].(referenced := false);
      AroundNext(frames, hand, g);
      StreakTurns(Around(frames, hand), g);
      SweepLooks(frames[hand := g], Next(hand, |frames|), probes + 1);
    }
  }

  /** The sweep looks at n + 1 frames at most and stops at an unreferenced one, so the fallback after two
      rounds is never taken; when all were referenced, it stops where it started. */
  lemma SweepWithin(frames: seq<Frame>, hand: nat)
    requires hand < |frames|
    ensures var n := |frames|;
      var streak := Streak(Around(frames, hand));
      var victim := Sweep(frames, hand, 0).2;
      && Looked(frames, hand, 0) == streak + 1 <= n + 1
      && Stops(frames, hand, 0)
      && victim == At(hand, streak, n)
      && !Sweep(frames, hand, 0).0[victim].referenced
      && (streak == n ==> victim == hand)
  {
    SweepLooks(frames, hand, 0);
    SweepEnds(frames, hand, 0);
    Turn(hand, Streak(Around(frames, hand)), |frames|);
  }

  // ----- the invariant

  predicate Inv(c: Clock)
  {
    && (c.frames == [] || c.hand < |c.frames|)
    && (forall i, j :: 0 <= i < j < |c.frames| && c.frames[i].resident && c.frames[j].resident
          ==> c.frames[i].page != c.frames[j].page)
    && c.used == CountResident(c.frames)
    && c.used + c.reclaims == c.faults
  }

  function Resident(frames: seq<Frame>): (r: set<nat>)
  {
    set k | 0 <= k < |frames| && frames[k].resident :: frames[k].page
  }

  lemma {:induction false} CountSet(frames: seq<Frame>, i: nat, f: Frame)
    requires i < |frames|
    ensures CountResident(frames[i := f]) + (if frames[i].resident then 1 else 0)
      == CountResident(frames) + (if f.resident then 1 else 0)
    decreases |frames|
  {
    var n := |frames| - 1;
    if i == n {
      assert frames[i := f][..n] == frames[..n];
    } else {
      assert frames[i := f][..n] == frames[..n][i := f];
      CountSet(frames[..n], i, f);
    }
  }

  lemma {:induction false} CountSame(a: seq<Frame>, b: seq<Frame>)
    requires |a| == |b| && forall k :: 0 <= k < |a| ==> a[k].resident == b[k].resident
    ensures CountResident(a) == CountResident(b)
    decreases |a|
  {
    if a != [] { CountSame(a[..|a| - 1], b[..|b| - 1]); }
  }

  lemma ResidentSet(frames: seq<Frame>, i: nat, f: Frame)
    requires i < |frames| && f.resident && f.page !in Resident(frames)
    requires forall j, k :: 0 <= j < k < |frames| && frames[j].resident && frames[k].resident ==> frames[j].page != frames[k].page
    ensures Resident(frames[i := f]) ==
      (if frames[i].resident then Resident(frames) - {frames[i].page} else Resident(frames)) + {f.page}
  {
    var after := frames[i := f];
    var before := if frames[i].resident then Resident(frames) - {frames[i].page} else Resident(frames);
    assert after[i] == f;
    forall p | p in before ensures p in Resident(after) {
      var k :| 0 <= k < |frames| && frames[k].resident && frames[k].page == p;
      assert after[k] == frames[k];
    }
    forall p | p in Resident(after) ensures p in before + {f.page} {
      var k :| 0 <= k < |after| && after[k].resident && after[k].page == p;
      if k != i { assert after[k] == frames[k]; }
    }
  }

  /** What a touch does: the page is resident afterwards; at most one other leaves, only on a fault with no
      free frame, and it is the one the sweep ends at. */
  lemma TouchEffect(c: Clock, page: nat, write: bool)
    requires Inv(c) && c.frames != []
    ensures var (d, ok) := Touch(c, page, write);
      var hit := page in Resident(c.frames);
      var full := FreeFrom(c.frames, 0).None?;
      && ok && Inv(d) && |d.frames| == |c.frames|
      && d.faults == c.faults + (if hit then 0 else 1)
      && d.reclaims == c.reclaims + (if !hit && full then 1 else 0)
      && Resident(d.frames) ==
           (if !hit && full then Resident(c.frames) - {c.frames[At(c.hand, Streak(Around(c.frames, c.hand)), |c.frames|)].page}
            else Resident(c.frames)) + {page}
  {
    var hit := ResidentFrom(c.frames, page, 0);
    if hit.Some? {
      HitEffect(c, hit.value, write);
    } else {
      assert page !in Resident(c.frames);
      var free := FreeFrom(c.frames, 0);
      if free.Some? {
        LoadEffect(c, free.value, page, write, 0);
      } else {
        SweepEnds(c.frames, c.hand, 0);
        var (frames, hand, victim) := Sweep(c.frames, c.hand, 0);
        CountSame(frames, c.frames);
        assert Resident(frames) == Resident(c.frames) by { SameResident(frames, c.frames); }
        LoadEffect(c.(frames := frames, hand := hand), victim, page, write, 1);
      }
    }
  }

  /** Everything about the frames but frame i is as it was. */
  ghost predicate OnlyFrame(c: Clock, d: Clock, i: nat)
  {
    && i < |c.frames| == |d.frames| && d.hand == c.hand
    && forall j :: 0 <= j < |c.frames| && j != i ==> d.frames[j] == c.frames[j]
  }

  /** A touch that needs no replacement changes one frame: the one that holds the page, which is referenced from
      then on, and dirty if it was or if this is a write; or the first empty one, where the page now is. */
  lemma TouchOneFrame(c: Clock, page: nat, write: bool)
    requires Inv(c)
    ensures var d := Touch(c, page, write).0;
      && (forall i :: 0 <= i < |c.frames| && c.frames[i].resident && c.frames[i].page == page ==>
            OnlyFrame(c, d, i) && d.frames[i] == Frame(true, page, true, c.frames[i].dirty || write))
      && (page !in Resident(c.frames) ==>
            forall i :: 0 <= i < |c.frames| && !c.frames[i].resident && (forall j :: 0 <= j < i ==> c.frames[j].resident) ==>
              OnlyFrame(c, d, i) && d.frames[i] == Frame(true, page, true, write))
  {
  }

  lemma SameResident(a: seq<Frame>, b: seq<Frame>)
    requires |a| == |b| && forall k :: 0 <= k < |a| ==> a[k].resident == b[k].resident && a[k].page == b[k].page
    ensures Resident(a) == Resident(b)
  {
    forall p | p in Resident(a) ensures p in Resident(b) {
      var k :| 0 <= k < |a| && a[k].resident && a[k].page == p;
      assert b[k].page == p;
    }
    forall p | p in Resident(b) ensures p in Resident(a) {
      var k :| 0 <= k < |b| && b[k].resident && b[k].page == p;
      assert a[k].page == p;
    }
  }

  lemma HitEffect(c: Clock, i: nat, write: bool)
    requires Inv(c) && i < |c.frames| && c.frames[i].resident
    ensures var f := c.frames[i];
      var frames := c.frames[i := f.(referenced := true, dirty := f.dirty || write)];
      Inv(c.(frames := frames)) && Resident(frames) == Resident(c.frames) && f.page in Resident(c.frames)
  {
    var f := c.frames[i];
    var frames := c.frames[i := f.(referenced := true, dirty := f.dirty || write)];
    CountSame(frames, c.frames);
    SameResident(frames, c.frames);
  }

  lemma LoadEffect(c: Clock, i: nat, page: nat, write: bool, reclaimed: nat)
    requires Inv(c) && i < |c.frames| && page !in Resident(c.frames)
    requires reclaimed == if c.frames[i].resident then 1 else 0
    ensures var d := Loaded(c, i, page, write, reclaimed);
      && Inv(d)
      && Resident(d.frames) == (if c.frames[i].resident then Resident(c.frames) - {c.frames[i].page} else Resident(c.frames)) + {page}
  {
    CountSet(c.frames, i, Installed(page, write));
    ResidentSet(c.frames, i, Installed(page, write));
    forall k | 0 <= k < |c.frames| && c.frames[k].resident ensures c.frames[k].page != page {
    }
  }

  lemma StartOk(n: nat)
    ensures Inv(Start(n))
  {
    NoneResident(n);
  }

  lemma {:induction false} NoneResident(n: nat)
    ensures CountResident(seq(n, _ => EMPTY)) == 0
  {
    if n > 0 {
      assert seq(n, _ => EMPTY)[..n - 1] == seq(n - 1, _ => EMPTY);
      NoneResident(n - 1);
    }
  }

  /** A fault in full memory replaces by second chance: the ring of frames from the hand on is a queue. */
  lemma ReplacementIsSecondChance(c: Clock, page: nat, write: bool)
    requires Inv(c) && c.frames != [] && page !in Resident(c.frames) && FreeFrom(c.frames, 0).None?
    ensures var d := Touch(c, page, write).0;
      d.hand < |d.frames| && Around(d.frames, d.hand) == SecondChance(Around(c.frames, c.hand), Frame(true, page, true, write))
  {
    assert ResidentFrom(c.frames, page, 0).None?;
    assert Streak(Around(c.frames, c.hand)) < 2 * |c.frames|;
    SweepIsSecondChance(c.frames, c.hand, 0, Installed(page, write));
  }

  // ----- runs

  datatype Access = Access(page: nat, write: bool)

  function Run(c: Clock, accesses: seq<Access>): (r: Clock)
    requires c.frames == [] || c.hand < |c.frames|
    ensures |r.frames| == |c.frames| && (r.frames == [] || r.hand < |r.frames|)
    decreases |accesses|
  {
    if accesses == [] then c
    else
      var d := Run(c, accesses[..|accesses| - 1]);
      var a := accesses[|accesses| - 1];
      Touch(d, a.page, a.write).0
  }

  /** After every run: no page twice, the last page touched is resident, pages in use are faults less
      reclaims. */
  lemma {:induction false} RunKeeps(n: nat, accesses: seq<Access>)
    ensures var c := Run(Start(n), accesses);
      && Inv(c)
      && (n > 0 && accesses != [] ==> accesses[|accesses| - 1].page in Resident(c.frames))
      && c.used <= n
    decreases |accesses|
  {
    if accesses == [] {
      StartOk(n);
    } else {
      RunKeeps(n, accesses[..|accesses| - 1]);
      var c := Run(Start(n), accesses[..|accesses| - 1]);
      var a := accesses[|accesses| - 1];
      if n > 0 { TouchEffect(c, a.page, a.write); }
    }
  }
}
