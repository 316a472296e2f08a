/** Which images get a plan, and what an accepted plan says about its image. */
module ElfPlans {
  import opened Common
  import opened ElfModel

  // ----- an independent reading of the table

  /** The segments of the first k entries, in table order. */
  function Loads(image: Image, t: Table, bias: nat, k: nat): (r: seq<Segment>)
    requires TableInside(image, t) && k <= t.count
  {
    if k == 0 then []
    else
      var h := HeaderAt(image, t, k - 1);
      Loads(image, t, bias, k - 1) + if h.kind == PT_LOAD then [SegmentOf(h, bias)] else []
  }

  /** Where the first k entries say the program headers are; 0 while they do not say. */
  function PhdrAfter(image: Image, t: Table, bias: nat, k: nat): (r: nat)
    requires TableInside(image, t) && k <= t.count
  {
    if k == 0 then 0
    else
      var before := PhdrAfter(image, t, bias, k - 1);
      var h := HeaderAt(image, t, k - 1);
      if h.kind == PT_PHDR then h.vaddr + bias
      else if h.kind == PT_LOAD && before == 0 && HoldsTable(h, t) then h.vaddr + (t.offset - h.offset) + bias
      else before
  }

  function InterpBytes(image: Image, h: Header): (r: seq<Byte>)
    requires InImage(image, h.offset, h.filesz)
  {
    image[h.offset..h.offset + h.filesz]
  }

  /** The path in the last PT_INTERP of the first k entries. */
  function InterpAfter(image: Image, t: Table, k: nat): (r: Option<seq<Byte>>)
    requires TableInside(image, t) && k <= t.count
  {
    if k == 0 then None
    else
      var h := HeaderAt(image, t, k - 1);
      if h.kind == PT_INTERP && InImage(image, h.offset, h.filesz) then InterpPath(InterpBytes(image, h))
      else InterpAfter(image, t, k - 1)
  }

  /** What the loader demands of entry k. */
  predicate Sound(image: Image, t: Table, bias: nat, k: nat)
    requires TableInside(image, t) && k < t.count
  {
    var h := HeaderAt(image, t, k);
    && (h.kind == PT_PHDR ==> h.vaddr + bias < UINT64_RANGE)
    && (h.kind == PT_LOAD ==>
          h.filesz <= h.memsz && InImage(image, h.offset, h.filesz) && h.vaddr + bias < UINT64_RANGE
          && (PhdrAfter(image, t, bias, k) == 0 && HoldsTable(h, t) ==>
                h.vaddr + (t.offset - h.offset) + bias < UINT64_RANGE))
    && (h.kind == PT_INTERP ==>
          InImage(image, h.offset, h.filesz) && InterpPath(InterpBytes(image, h)).Some?)
  }

  predicate AllSound(image: Image, t: Table, bias: nat, k: nat)
    requires TableInside(image, t) && k <= t.count
  {
    forall j :: 0 <= j < k ==> Sound(image, t, bias, j)
  }

  function Described(image: Image, t: Table, start: Plan, k: nat): (r: Plan)
    requires TableInside(image, t) && k <= t.count
  {
    var path := InterpAfter(image, t, k);
    start.(segments := Loads(image, t, start.loadBias, k), phdrVaddr := PhdrAfter(image, t, start.loadBias, k),
           requiresInterp := path.Some?, interpPath := if path.Some? then path.value else [])
  }

  lemma TakeSound(image: Image, t: Table, start: Plan, k: nat)
    requires TableInside(image, t) && k < t.count
    ensures var (plan, verdict) := Take(image, t, Described(image, t, start, k), HeaderAt(image, t, k));
      && (verdict == Accepted <==>
            Sound(image, t, start.loadBias, k)
            && (HeaderAt(image, t, k).kind == PT_LOAD ==> |Loads(image, t, start.loadBias, k)| < MAX_SEGMENTS))
      && (verdict == Accepted ==> plan == Described(image, t, start, k + 1))
  {
    hide InterpPath, HeaderAt;
    var more := Loads(image, t, start.loadBias, k);
    assert more + [] == more;
  }

  lemma OneMore(image: Image, t: Table, bias: nat, k: nat)
    requires TableInside(image, t) && k < t.count
    ensures AllSound(image, t, bias, k + 1) <==> AllSound(image, t, bias, k) && Sound(image, t, bias, k)
    ensures |Loads(image, t, bias, k + 1)| ==
      |Loads(image, t, bias, k)| + if HeaderAt(image, t, k).kind == PT_LOAD then 1 else 0
  {
    hide Sound, HeaderAt;
  }

  /** Reading the table accepts exactly the tables whose entries are all sound and hold at most eight
      segments, and gives the plan they describe. */
  lemma {:induction false} TableAccepted(image: Image, t: Table, start: Plan, k: nat)
    requires TableInside(image, t) && k <= t.count
    requires start.segments == [] && start.phdrVaddr == 0 && !start.requiresInterp && start.interpPath == []
    ensures var (plan, verdict) := TakeUpTo(image, t, start, k);
      && (verdict == Accepted <==>
            AllSound(image, t, start.loadBias, k) && |Loads(image, t, start.loadBias, k)| <= MAX_SEGMENTS)
      && (verdict == Accepted ==> plan == Described(image, t, start, k))
  {
    hide HeaderAt, Take, Sound, Loads, AllSound, TableInside, InterpAfter, PhdrAfter;
    if k == 0 {
      NothingTaken(image, t, start);
    } else {
      hide Described;
      TableAccepted(image, t, start, k - 1);
      TakeSound(image, t, start, k - 1);
      OneMore(image, t, start.loadBias, k - 1);
    }
  }

  lemma NothingTaken(image: Image, t: Table, start: Plan)
    requires TableInside(image, t)
    requires start.segments == [] && start.phdrVaddr == 0 && !start.requiresInterp && start.interpPath == []
    ensures Described(image, t, start, 0) == start && Loads(image, t, start.loadBias, 0) == []
    ensures AllSound(image, t, start.loadBias, 0)
  {
  }

  /** An image gets a plan exactly when its header, every entry of its table and their number are in order. */
  lemma AcceptedIff(image: Image, argc: nat, envc: nat)
    ensures BuildPlan(image, argc, envc).1 == Accepted <==>
      && HeaderVerdict(image) == Accepted
      && var t := TableOf(image);
         var bias := Bias(U16(image, 16));
         AllSound(image, t, bias, t.count) && 1 <= |Loads(image, t, bias, t.count)| <= MAX_SEGMENTS
    ensures BuildPlan(image, argc, envc).1 == Accepted ==>
      BuildPlan(image, argc, envc).0 == Described(image, TableOf(image), Started(image, argc, envc), TableOf(image).count)
  {
    hide AllSound, Loads, PhdrAfter, TakeUpTo;
    if HeaderVerdict(image) == Accepted {
      var t := TableOf(image);
      TableAccepted(image, t, Started(image, argc, envc), t.count);
    }
  }

  // ----- what an accepted plan promises

  predicate SegmentInside(image: Image, s: Segment)
  {
    s.filesz <= s.memsz && s.offset + s.filesz <= |image| && s.vaddr < UINT64_RANGE
  }

  lemma {:induction false} LoadsInside(image: Image, t: Table, bias: nat, k: nat)
    requires TableInside(image, t) && k <= t.count && AllSound(image, t, bias, k)
    ensures forall i | 0 <= i < |Loads(image, t, bias, k)| :: SegmentInside(image, Loads(image, t, bias, k)[i])
  {
    if k > 0 {
      LoadsInside(image, t, bias, k - 1);
      assert Sound(image, t, bias, k - 1);
    }
  }

  /** The file bytes of segment s hold the table, and `vaddr` is where its first byte goes. */
  predicate Carries(s: Segment, t: Table, vaddr: nat)
  {
    && s.offset <= t.offset && t.offset + TableSize(t) <= s.offset + s.filesz
    && vaddr == s.vaddr + (t.offset - s.offset)
  }

  /** Entry j is a PT_PHDR that puts the table at `vaddr`. */
  predicate SaysPhdr(image: Image, t: Table, bias: nat, j: nat, vaddr: nat)
    requires TableInside(image, t) && j < t.count
  {
    HeaderAt(image, t, j).kind == PT_PHDR && vaddr == HeaderAt(image, t, j).vaddr + bias
  }

  predicate Said(image: Image, t: Table, bias: nat, k: nat, vaddr: nat)
    requires TableInside(image, t) && k <= t.count
  {
    exists j :: 0 <= j < k && SaysPhdr(image, t, bias, j, vaddr)
  }

  predicate Carried(loads: seq<Segment>, t: Table, vaddr: nat)
  {
    exists i :: 0 <= i < |loads| && Carries(loads[i], t, vaddr)
  }

  lemma CarriedMore(loads: seq<Segment>, more: seq<Segment>, t: Table, vaddr: nat)
    requires Carried(loads, t, vaddr)
    ensures Carried(loads + more, t, vaddr)
  {
    var i :| 0 <= i < |loads| && Carries(loads[i], t, vaddr);
    assert (loads + more)[i] == loads[i];
  }

  lemma CarriedLast(loads: seq<Segment>, s: Segment, t: Table, vaddr: nat)
    requires Carries(s, t, vaddr)
    ensures Carried(loads + [s], t, vaddr)
  {
    assert (loads + [s])[|loads|] == s;
  }

  /** A nonzero table address is what some PT_PHDR entry says, or points into a segment whose file bytes
      are the table. */
  lemma {:induction false} PhdrProvenance(image: Image, t: Table, bias: nat, k: nat)
    requires TableInside(image, t) && k <= t.count && PhdrAfter(image, t, bias, k) != 0
    ensures Said(image, t, bias, k, PhdrAfter(image, t, bias, k))
      || Carried(Loads(image, t, bias, k), t, PhdrAfter(image, t, bias, k))
  {
    hide HeaderAt, Carried;
    var before := Loads(image, t, bias, k - 1);
    var h := HeaderAt(image, t, k - 1);
    var now := PhdrAfter(image, t, bias, k);
    if h.kind == PT_PHDR {
      assert SaysPhdr(image, t, bias, k - 1, now);
    } else if h.kind == PT_LOAD && PhdrAfter(image, t, bias, k - 1) == 0 && HoldsTable(h, t) {
      CarriedLast(before, SegmentOf(h, bias), t, now);
    } else {
      PhdrProvenance(image, t, bias, k - 1);
      if Carried(before, t, now) {
        CarriedMore(before, if h.kind == PT_LOAD then [SegmentOf(h, bias)] else [], t, now);
      }
    }
  }

  /** An accepted plan: its segments are the PT_LOAD entries in order, each inside the image, and the
      program-header address either comes from a PT_PHDR entry or lies in a segment that carries the table. */
  lemma AcceptedPlan(image: Image, argc: nat, envc: nat)
    requires BuildPlan(image, argc, envc).1 == Accepted
    ensures HeaderVerdict(image) == Accepted
    ensures var plan := BuildPlan(image, argc, envc).0;
      var t := TableOf(image);
      && plan.segments == Loads(image, t, plan.loadBias, t.count) && 1 <= |plan.segments| <= MAX_SEGMENTS
      && (forall i | 0 <= i < |plan.segments| :: SegmentInside(image, plan.segments[i]))
      && plan.entry < UINT64_RANGE && plan.phnum == t.count
      && (plan.requiresInterp ==> 0 < |plan.interpPath| < MAX_INTERP && 0 !in plan.interpPath)
      && (plan.phdrVaddr != 0 ==>
           Said(image, t, plan.loadBias, t.count, plan.phdrVaddr) || Carried(plan.segments, t, plan.phdrVaddr))
  {
    hide Loads, PhdrAfter, AllSound, InterpAfter, BuildPlan, Said, Carried;
    AcceptedIff(image, argc, envc);
    var t := TableOf(image);
    var bias := Bias(U16(image, 16));
    LoadsInside(image, t, bias, t.count);
    InterpShape(image, t, t.count);
    if PhdrAfter(image, t, bias, t.count) != 0 { PhdrProvenance(image, t, bias, t.count); }
  }

  lemma {:induction false} InterpShape(image: Image, t: Table, k: nat)
    requires TableInside(image, t) && k <= t.count
    ensures var p := InterpAfter(image, t, k);
      p.Some? ==> 0 < |p.value| < MAX_INTERP && 0 !in p.value
  {
    if k > 0 { InterpShape(image, t, k - 1); }
  }
}
