/** Chunked loading is one flat copy of every segment. */
module ExecPlans {
  import opened Common
  import opened ElfModel
  import opened ElfPlans
  import opened ExecModel

  /** The pages mapped for segment s include address a. */
  predicate Covers(s: Segment, a: nat)
  {
    PageDown(s.vaddr) <= a < PageDown(s.vaddr) + MappedLength(s)
  }

  /** No wrap-around in the size computation. */
  predicate NoWrap(s: Segment)
  {
    Delta(s) + s.memsz + PAGE <= UINT64_RANGE
  }

  predicate Below(space: seq<Region>, limit: nat)
  {
    forall i :: 0 <= i < |space| ==> space[i].vaddr + |space[i].bytes| <= limit
  }

  // ----- lookups

  lemma {:induction false} LoadAppend(space: seq<Region>, r: Region, a: nat)
    ensures Load(space + [r], a) == if Load(space, a).Some? then Load(space, a) else Load([r], a)
  {
    if space == [] {
      assert [] + [r] == [r];
    } else {
      LoadAppend(space[1..], r, a);
      assert (space + [r])[1..] == space[1..] + [r];
    }
  }

  lemma {:induction false} LoadFree(space: seq<Region>, vaddr: nat, length: nat, a: nat)
    requires vaddr <= a < vaddr + length
    requires forall i :: 0 <= i < |space| ==> !Overlaps(space[i], vaddr, length)
    ensures Load(space, a) == None
  {
    if space != [] {
      assert !Overlaps(space[0], vaddr, length);
      LoadFree(space[1..], vaddr, length, a);
    }
  }

  lemma {:induction false} LoadBelow(space: seq<Region>, limit: nat, a: nat)
    requires Below(space, limit) && Load(space, a).Some?
    ensures a < limit
  {
    if !(space[0].vaddr <= a < space[0].vaddr + |space[0].bytes|) { LoadBelow(space[1..], limit, a); }
  }

  // ----- one segment

  /** A chunk is a flat piece of the segment: what one address shows after mapping it. */
  lemma ChunkFlat(limit: nat, space: seq<Region>, image: Image, s: Segment, at: nat, a: nat)
    requires SegmentOk(image, s) && at < MappedLength(s) && limit <= UINT64_RANGE
    requires PageDown(s.vaddr) + at < UINT64_RANGE
    requires var next := ChunkRegion(image, s, at); MayMap(limit, space, next.vaddr, ChunkLength(s, at), next.prot)
    ensures var from := PageDown(s.vaddr) + at;
      var inside := from <= a < from + ChunkLength(s, at);
      && from + ChunkLength(s, at) <= limit
      && (inside ==> Load(space, a) == None)
      && Load(space + [ChunkRegion(image, s, at)], a) ==
           if inside then Some(FileByte(image, s, a - s.vaddr)) else Load(space, a)
  {
    var next := ChunkRegion(image, s, at);
    LoadAppend(space, next, a);
    if next.vaddr <= a < next.vaddr + ChunkLength(s, at) {
      LoadFree(space, next.vaddr, ChunkLength(s, at), a);
    }
    assert [next][1..] == [];
    hide PageDown, MappedLength, ChunkLength;
  }

  /** The chunk loop leaves the flat image of the segment in its pages, and nothing else changes. */
  lemma {:induction false} ChunksFlat(limit: nat, space: seq<Region>, image: Image, s: Segment, at: nat, a: nat)
    requires SegmentOk(image, s) && at <= MappedLength(s) && limit <= UINT64_RANGE && s.vaddr < UINT64_RANGE
    requires at > 0 ==> PageDown(s.vaddr) + at <= limit
    requires LoadChunks(limit, space, image, s, at).1
    ensures var inside := PageDown(s.vaddr) + at <= a < PageDown(s.vaddr) + MappedLength(s);
      && (inside ==> Load(space, a) == None && a < limit)
      && Load(LoadChunks(limit, space, image, s, at).0, a) ==
           if inside then Some(FileByte(image, s, a - s.vaddr)) else Load(space, a)
    decreases MappedLength(s) - at
  {
    if at < MappedLength(s) {
      hide PageDown, MappedLength, ChunkLength, FileByte, Load;
      var next := ChunkRegion(image, s, at);
      assert PageDown(s.vaddr) + at < UINT64_RANGE by { FirstBelow(limit, space, image, s, at); }
      ChunkFlat(limit, space, image, s, at, a);
      ChunksFlat(limit, space + [next], image, s, at + ChunkLength(s, at), a);
    }
  }

  lemma FirstBelow(limit: nat, space: seq<Region>, image: Image, s: Segment, at: nat)
    requires SegmentOk(image, s) && at < MappedLength(s) && limit <= UINT64_RANGE && s.vaddr < UINT64_RANGE
    requires at > 0 ==> PageDown(s.vaddr) + at <= limit
    requires var next := ChunkRegion(image, s, at); MayMap(limit, space, next.vaddr, ChunkLength(s, at), next.prot)
    ensures PageDown(s.vaddr) + at < UINT64_RANGE
  {
  }

  // ----- all segments

  predicate Bounded(segments: seq<Segment>)
  {
    forall j :: 0 <= j < |segments| ==> segments[j].vaddr < UINT64_RANGE
  }

  /** What every address shows after loading: the flat image of the one segment whose pages cover it,
      or what it showed before. */
  lemma {:induction false} SegmentsFlat(limit: nat, space: seq<Region>, image: Image, segments: seq<Segment>, i: nat, a: nat)
    requires i <= |segments| && limit <= UINT64_RANGE && Bounded(segments)
    requires LoadSegments(limit, space, image, segments, i).1 == Loaded
    ensures var after := LoadSegments(limit, space, image, segments, i).0;
      && (forall j | i <= j < |segments| ::
            SegmentOk(image, segments[j])
            && (Covers(segments[j], a) ==>
                 a < limit && Load(space, a) == None
                 && Load(after, a) == Some(FileByte(image, segments[j], a - segments[j].vaddr))))
      && ((forall j :: i <= j < |segments| ==> !Covers(segments[j], a)) ==> Load(after, a) == Load(space, a))
      && (forall j, k :: i <= j < |segments| && i <= k < |segments| && Covers(segments[j], a) && Covers(segments[k], a)
            ==> j == k)
    decreases |segments| - i
  {
    if i < |segments| {
      hide Load, FileByte, LoadChunks, MappedLength, PageDown, SegmentOk;
      var s := segments[i];
      ChunksFlat(limit, space, image, s, 0, a);
      SegmentsFlat(limit, LoadChunks(limit, space, image, s, 0).0, image, segments, i + 1, a);
    }
  }

  /** Every byte of the segment shows what it is meant to. */
  ghost predicate FullyLoaded(after: seq<Region>, image: Image, s: Segment)
    requires SegmentOk(image, s)
  {
    forall a :: s.vaddr <= a < s.vaddr + s.memsz ==> Load(after, a) == Some(FileByte(image, s, a - s.vaddr))
  }

  /** After a successful load, a segment is entirely in memory - its file bytes, then zeros - exactly when
      its size does not wrap around on rounding up to pages. */
  lemma LoadedIff(limit: nat, space: seq<Region>, image: Image, plan: Plan, i: nat)
    requires i < |plan.segments| && limit + PAGE <= UINT64_RANGE && Below(space, limit) && Bounded(plan.segments)
    requires ExecLoad(limit, space, image, plan).1 == Loaded
    ensures SegmentOk(image, plan.segments[i])
    ensures FullyLoaded(ExecLoad(limit, space, image, plan).0, image, plan.segments[i]) <==> NoWrap(plan.segments[i])
  {
    var s := plan.segments[i];
    var after := ExecLoad(limit, space, image, plan).0;
    hide Load, FileByte, LoadSegments, MappedLength, SegmentOk;
    SegmentsFlat(limit, space, image, plan.segments, 0, s.vaddr);
    if NoWrap(s) {
      forall a | s.vaddr <= a < s.vaddr + s.memsz ensures Load(after, a) == Some(FileByte(image, s, a - s.vaddr)) {
        MappedExactly(s, a);
        SegmentsFlat(limit, space, image, plan.segments, 0, a);
      }
    } else {
      PastTheEnd(limit, space, image, plan, i);
    }
  }

  lemma MappedExactly(s: Segment, a: nat)
    requires NoWrap(s) && s.vaddr <= a < s.vaddr + s.memsz
    ensures Covers(s, a)
  {
  }

  lemma PastTheEnd(limit: nat, space: seq<Region>, image: Image, plan: Plan, i: nat)
    requires i < |plan.segments| && limit + PAGE <= UINT64_RANGE && Below(space, limit) && Bounded(plan.segments)
    requires ExecLoad(limit, space, image, plan).1 == Loaded && !NoWrap(plan.segments[i])
    requires SegmentOk(image, plan.segments[i])
    ensures !FullyLoaded(ExecLoad(limit, space, image, plan).0, image, plan.segments[i])
  {
    var s := plan.segments[i];
    var after := ExecLoad(limit, space, image, plan).0;
    var last := s.vaddr + (s.memsz - 1);
    assert last >= limit;
    hide Load, LoadSegments, MappedLength, PageDown, FileByte, Below;
    SegmentsFlat(limit, space, image, plan.segments, 0, last);
    if Load(space, last).Some? { LoadBelow(space, limit, last); }
    assert Load(after, last) == None;
    assert s.vaddr <= last < s.vaddr + s.memsz;
  }

  /** A segment of nearly 2^64 bytes loads "successfully" with nothing mapped at all. */
  lemma WrappedSegmentVanishes(limit: nat, image: Image)
    ensures LoadSegments(limit, [], image, [Segment(0x1001, UINT64_RANGE - 1, 0, 0, 7)], 0) == ([], Loaded)
  {
    var s := Segment(0x1001, UINT64_RANGE - 1, 0, 0, 7);
    assert MappedLength(s) == 0;
    assert LoadChunks(limit, [], image, s, 0) == ([], true);
    assert LoadSegments(limit, [], image, [s], 1) == ([], Loaded);
  }

  // ----- the program headers in memory

  /** The table bytes lie in memory from `vaddr` on. */
  ghost predicate TableVisible(after: seq<Region>, image: Image, t: Table, vaddr: nat)
    requires TableInside(image, t)
  {
    forall a :: vaddr <= a < vaddr + TableSize(t) ==> Load(after, a) == Some(image[t.offset + (a - vaddr)])
  }

  lemma CarriedVisible(after: seq<Region>, image: Image, s: Segment, t: Table, vaddr: nat)
    requires TableInside(image, t) && SegmentOk(image, s) && FullyLoaded(after, image, s) && Carries(s, t, vaddr)
    ensures TableVisible(after, image, t, vaddr)
  {
    hide Load;
    forall a | vaddr <= a < vaddr + TableSize(t) ensures Load(after, a) == Some(image[t.offset + (a - vaddr)]) {
      assert Load(after, a) == Some(FileByte(image, s, a - s.vaddr));
    }
  }

  /** For an image without a PT_PHDR entry that says so: after loading, the address the plan gives for the
      program headers shows the table's own bytes. */
  lemma PhdrVisible(limit: nat, space: seq<Region>, image: Image, argc: nat, envc: nat)
    requires BuildPlan(image, argc, envc).1 == Accepted && HeaderVerdict(image) == Accepted
    requires var plan := BuildPlan(image, argc, envc).0;
      && ExecLoad(limit, space, image, plan).1 == Loaded && limit + PAGE <= UINT64_RANGE && Below(space, limit)
      && plan.phdrVaddr != 0 && !Said(image, TableOf(image), plan.loadBias, TableOf(image).count, plan.phdrVaddr)
      && forall i :: 0 <= i < |plan.segments| ==> NoWrap(plan.segments[i])
    ensures var plan := BuildPlan(image, argc, envc).0;
      TableVisible(ExecLoad(limit, space, image, plan).0, image, TableOf(image), plan.phdrVaddr)
  {
    hide BuildPlan, ExecLoad, Said, Load, TableOf, HeaderVerdict, Loads, Below, FullyLoaded, TableVisible, SegmentOk, NoWrap;
    AcceptedPlan(image, argc, envc);
    var plan := BuildPlan(image, argc, envc).0;
    var t := TableOf(image);
    var i :| 0 <= i < |plan.segments| && Carries(plan.segments[i], t, plan.phdrVaddr);
    hide Carries;
    assert forall j | 0 <= j < |plan.segments| :: SegmentInside(image, plan.segments[j]);
    LoadedIff(limit, space, image, plan, i);
    CarriedVisible(ExecLoad(limit, space, image, plan).0, image, plan.segments[i], t, plan.phdrVaddr);
  }
}
