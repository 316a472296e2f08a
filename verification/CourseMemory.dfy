/** The paging model as the kernel keeps it: frames, hand and counters updated in place. */
module CourseMemory {
  import opened Common
  import opened ClockModel

  class PagedMemory {
    const frames: array<Frame>
    var clockHand: nat
    var usedPages: nat
    var freePages: nat
    var pageFaults: nat
    var pageReclaims: nat

    function Model(): (r: Clock)
      reads this, frames
    {
      Clock(frames[..], clockHand, usedPages, pageFaults, pageReclaims)
    }

    ghost predicate Valid()
      reads this, frames
    {
      frames.Length <= MAX_FRAMES && Inv(Model()) && freePages + usedPages == frames.Length
    }

    constructor (frameCount: nat)
      ensures Valid() && fresh(frames)
      ensures Model() == Start(if frameCount > MAX_FRAMES then MAX_FRAMES else frameCount)
    {
      var n := if frameCount > MAX_FRAMES then MAX_FRAMES else frameCount;
      frames := new Frame[n](_ => EMPTY);
      clockHand, usedPages, freePages, pageFaults, pageReclaims := 0, 0, n, 0, 0;
      new;
      assert frames[..] == seq(n, _ => EMPTY);
      StartOk(n);
    }

    method CountUsedFrames() returns (used: nat)
      ensures used == CountResident(frames[..])
    {
      used := 0;
      var i: nat := 0;
      while i < frames.Length
        invariant i <= frames.Length && used == CountResident(frames[..i])
      {
        assert frames[..i + 1][..i] == frames[..i];
        if frames[i].resident { used := used + 1; }
        i := i + 1;
      }
      assert frames[..frames.Length] == frames[..];
    }

    method FindResidentFrame(page: nat) returns (r: Option<nat>)
      ensures r == ResidentFrom(frames[..], page, 0)
    {
      var i: nat := 0;
      while i < frames.Length
        invariant i <= frames.Length && ResidentFrom(frames[..], page, 0) == ResidentFrom(frames[..], page, i)
      {
        if frames[i].resident && frames[i].page == page { return Some(i); }
        i := i + 1;
      }
      return None;
    }

    method FindFreeFrame() returns (r: Option<nat>)
      ensures r == FreeFrom(frames[..], 0)
    {
      var i: nat := 0;
      while i < frames.Length
        invariant i <= frames.Length && FreeFrom(frames[..], 0) == FreeFrom(frames[..], i)
      {
        if !frames[i].resident { return Some(i); }
        i := i + 1;
      }
      return None;
    }

    /** clock_select_victim: the hand sweeps, looking at no more than one frame more than there are, and stops
        at one that is not referenced. */
    method ClockSelectVictim() returns (victim: nat, ghost looked: nat)
      requires clockHand < frames.Length
      modifies this`clockHand, frames
      ensures victim < frames.Length && clockHand < frames.Length
      ensures (frames[..], clockHand, victim) == Sweep(old(frames[..]), old(clockHand), 0)
      ensures looked <= frames.Length + 1 && !frames[victim].referenced
    {
      SweepWithin(frames[..], clockHand);
      hide Streak, Around;
      var probes: nat := 0;
      looked := 0;
      while probes < frames.Length * 2
        invariant probes <= frames.Length * 2 && clockHand < frames.Length && looked == probes
        invariant Sweep(old(frames[..]), old(clockHand), 0) == Sweep(frames[..], clockHand, probes)
        invariant Looked(old(frames[..]), old(clockHand), 0) == looked + Looked(frames[..], clockHand, probes)
        invariant Stops(frames[..], clockHand, probes)
      {
        var selected := clockHand;
        clockHand := (clockHand + 1) % frames.Length;
        looked := looked + 1;
        if !frames[selected].referenced { return selected, looked; }
        frames[selected] := frames[selected].(referenced := false);
        probes := probes + 1;
      }
      return clockHand, looked;
    }

    method InstallPage(i: nat, page: nat, write: bool)
      requires i < frames.Length
      modifies frames
      ensures frames[..] == old(frames[..])[i := Installed(page, write)]
    {
      frames[i] := Frame(true, page, true, write);
    }

    /** The fault path: a free frame or a victim takes the page. */
    method FaultIn(page: nat, write: bool)
      requires clockHand < frames.Length
      requires ResidentFrom(frames[..], page, 0).None?
      modifies this, frames
      ensures Model() == Touch(old(Model()), page, write).0
      ensures freePages == frames.Length - usedPages
    {
      hide Sweep, CountResident, FreeFrom, ResidentFrom;
      pageFaults := pageFaults + 1;
      var free := FindFreeFrame();
      if free.Some? {
        InstallPage(free.value, page, write);
      } else {
        var victim, _ := ClockSelectVictim();
        pageReclaims := pageReclaims + 1;
        InstallPage(victim, page, write);
      }
      usedPages := CountUsedFrames();
      freePages := frames.Length - usedPages;
    }

    /** course_memory_touch. */
    method TouchPage(page: nat, write: bool) returns (ok: bool)
      requires Valid()
      modifies this, frames
      ensures Valid()
      ensures (Model(), ok) == Touch(old(Model()), page, write)
    {
      if frames.Length == 0 { return false; }
      hide Sweep, Inv, CountResident, FreeFrom;
      NotEmpty();
      TouchEffect(Model(), page, write);
      HandInRange(Model());
      var hit := FindResidentFrame(page);
      if hit.Some? {
        var i := hit.value;
        frames[i] := frames[i].(referenced := true, dirty := frames[i].dirty || write);
      } else {
        FaultIn(page, write);
      }
      return true;
    }

    lemma NotEmpty()
      requires frames.Length > 0
      ensures Model().frames != []
    {
    }
  }

  lemma HandInRange(c: Clock)
    requires Inv(c) && c.frames != []
    ensures c.hand < |c.frames|
  {
  }
}
