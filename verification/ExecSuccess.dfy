/** Exactly which plans load. */
module ExecSuccess {
  import opened Common
  import opened Sums
  import opened ElfModel
  import opened ExecModel
  import opened ExecPlans

  /** No region of the space meets the addresses from lo up to hi. */
  predicate Free(space: seq<Region>, lo: nat, hi: nat)
  {
    lo < hi ==> forall i :: 0 <= i < |space| ==> !Overlaps(space[i], lo, hi - lo)
  }

  function First(s: Segment): (r: nat)
  {
    PageDown(s.vaddr)
  }

  function End(s: Segment): (r: nat)
  {
    PageDown(s.vaddr) + MappedLength(s)
  }

  function ChunkCount(length: nat): (r: nat)
  {
    (length + MAX_CHUNK - 1) / MAX_CHUNK
  }

  /** The segment's pages are user pages, and it asks for some access. */
  predicate Placeable(limit: nat, s: Segment)
  {
    var p := SegmentProt(s.flags);
    MappedLength(s) > 0 ==> First(s) > 0 && End(s) <= limit && (p.read || p.write || p.exec)
  }

  predicate Solid(space: seq<Region>)
  {
    forall i :: 0 <= i < |space| ==> |space[i].bytes| > 0
  }

  predicate Apart(s: Segment, lo: nat, hi: nat)
  {
    MappedLength(s) > 0 && lo < hi ==> End(s) <= lo || hi <= First(s)
  }

  lemma FreeMore(space: seq<Region>, r: Region, lo: nat, hi: nat)
    ensures Free(space + [r], lo, hi) <==> Free(space, lo, hi) && (lo < hi ==> !Overlaps(r, lo, hi - lo))
  {
    hide Overlaps;
    var more := space + [r];
    if lo < hi && Free(more, lo, hi) {
      assert !Overlaps(more[|space|], lo, hi - lo);
      forall i | 0 <= i < |space| ensures !Overlaps(space[i], lo, hi - lo) { assert more[i] == space[i]; }
    }
  }

  lemma FreeSplit(space: seq<Region>, lo: nat, mid: nat, hi: nat)
    requires lo < mid < hi && Solid(space)
    ensures Free(space, lo, hi) <==> Free(space, lo, mid) && Free(space, mid, hi)
  {
    if Free(space, lo, mid) && Free(space, mid, hi) {
      forall i | 0 <= i < |space| ensures !Overlaps(space[i], lo, hi - lo) {
        assert !Overlaps(space[i], lo, mid - lo) && !Overlaps(space[i], mid, hi - mid);
      }
    }
    if Free(space, lo, hi) {
      forall i | 0 <= i < |space| ensures !Overlaps(space[i], lo, mid - lo) && !Overlaps(space[i], mid, hi - mid) {
        assert !Overlaps(space[i], lo, hi - lo);
      }
    }
  }

  /** The chunk loop goes through exactly when the rest of the segment's pages are free user pages and
      there are region slots for its chunks. */
  lemma {:induction false} ChunksLoadIff(limit: nat, space: seq<Region>, image: Image, s: Segment, at: nat)
    requires SegmentOk(image, s) && at <= MappedLength(s) && limit < UINT64_RANGE && s.vaddr < UINT64_RANGE
    requires at % PAGE == 0 && (at > 0 ==> First(s) + at <= limit && First(s) > 0)
    requires |space| <= MAX_REGIONS && Solid(space)
    ensures LoadChunks(limit, space, image, s, at).1 <==>
      at == MappedLength(s) ||
      (Placeable(limit, s) && Free(space, First(s) + at, End(s))
       && |space| + ChunkCount(MappedLength(s) - at) <= MAX_REGIONS)
    ensures LoadChunks(limit, space, image, s, at).1 ==>
      |LoadChunks(limit, space, image, s, at).0| == |space| + ChunkCount(MappedLength(s) - at)
    decreases MappedLength(s) - at
  {
    if at < MappedLength(s) {
      hide MappedLength, LoadChunks, Free, ChunkLength, Overlaps;
      OneChunk(limit, space, image, s, at);
      var to := at + ChunkLength(s, at);
      var next := ChunkRegion(image, s, at);
      if MayMap(limit, space, next.vaddr, ChunkLength(s, at), next.prot) {
        ChunksLoadIff(limit, space + [next], image, s, to);
      }
    }
  }

  /** One turn of the chunk loop, in terms of what is free. */
  lemma OneChunk(limit: nat, space: seq<Region>, image: Image, s: Segment, at: nat)
    requires SegmentOk(image, s) && at < MappedLength(s) && limit < UINT64_RANGE && s.vaddr < UINT64_RANGE
    requires at % PAGE == 0 && (at > 0 ==> First(s) + at <= limit && First(s) > 0)
    requires |space| <= MAX_REGIONS && Solid(space)
    ensures var next := ChunkRegion(image, s, at);
      var to := at + ChunkLength(s, at);
      var may := MayMap(limit, space, next.vaddr, ChunkLength(s, at), next.prot);
      && LoadChunks(limit, space, image, s, at) ==
           (if may then LoadChunks(limit, space + [next], image, s, to) else (space, false))
      && (may ==> First(s) > 0 && First(s) + to <= limit && |space + [next]| <= MAX_REGIONS && Solid(space + [next])) && to % PAGE == 0
      && ChunkCount(MappedLength(s) - at) == 1 + ChunkCount(MappedLength(s) - to)
      && (if to == MappedLength(s) then
            may <==> Placeable(limit, s) && Free(space, First(s) + at, End(s)) && |space| + 1 <= MAX_REGIONS
          else
            (Placeable(limit, s) && Free(space, First(s) + at, End(s)) && |space| < MAX_REGIONS <==>
             may && Placeable(limit, s) && Free(space + [next], First(s) + to, End(s))))
  {
    hide Free, PageDown, MappedLength, MayMap, Solid, ChunkLength, LoadChunks, Overlaps;
    var to := at + ChunkLength(s, at);
    var next := ChunkRegion(image, s, at);
    ChunkUnfolds(limit, space, image, s, at);
    ChunkMay(limit, space, image, s, at);
    CountStep(MappedLength(s) - at);
    ChunkEnds(s, at);
    if to < MappedLength(s) {
      FreeSplit(space, First(s) + at, First(s) + to, End(s));
      FreeMore(space, next, First(s) + to, End(s));
      assert !Overlaps(next, First(s) + to, End(s) - (First(s) + to)) by { ChunkBehind(limit, image, s, at); }
    }
  }

  lemma ChunkUnfolds(limit: nat, space: seq<Region>, image: Image, s: Segment, at: nat)
    requires SegmentOk(image, s) && at < MappedLength(s)
    ensures var next := ChunkRegion(image, s, at);
      LoadChunks(limit, space, image, s, at) ==
        if MayMap(limit, space, next.vaddr, ChunkLength(s, at), next.prot)
        then LoadChunks(limit, space + [next], image, s, at + ChunkLength(s, at)) else (space, false)
    ensures Solid(space) ==> Solid(space + [ChunkRegion(image, s, at)])
  {
    hide MayMap;
  }

  lemma ChunkEnds(s: Segment, at: nat)
    requires at < MappedLength(s) && at % PAGE == 0
    ensures (at + ChunkLength(s, at)) % PAGE == 0 && at + ChunkLength(s, at) <= MappedLength(s)
    ensures MappedLength(s) - (at + ChunkLength(s, at)) ==
      if MappedLength(s) - at < MAX_CHUNK then 0 else MappedLength(s) - at - MAX_CHUNK
    ensures ChunkLength(s, at) > 0
  {
    hide MappedLength;
  }

  lemma ChunkBehind(limit: nat, image: Image, s: Segment, at: nat)
    requires SegmentOk(image, s) && at < MappedLength(s)
    ensures var to := at + ChunkLength(s, at);
      to < MappedLength(s) ==> !Overlaps(ChunkRegion(image, s, at), First(s) + to, End(s) - (First(s) + to))
  {
    hide MappedLength, ChunkLength;
  }

  lemma CountStep(n: nat)
    requires n > 0
    ensures ChunkCount(n) == 1 + ChunkCount(if n < MAX_CHUNK then 0 else n - MAX_CHUNK)
  {
  }

  lemma ChunkMay(limit: nat, space: seq<Region>, image: Image, s: Segment, at: nat)
    requires SegmentOk(image, s) && at < MappedLength(s) && limit < UINT64_RANGE && s.vaddr < UINT64_RANGE
    requires at % PAGE == 0 && (at > 0 ==> First(s) + at <= limit && First(s) > 0)
    ensures var next := ChunkRegion(image, s, at);
      var to := at + ChunkLength(s, at);
      MayMap(limit, space, next.vaddr, ChunkLength(s, at), next.prot) <==>
        && |space| < MAX_REGIONS && First(s) > 0 && First(s) + to <= limit && (next.prot.read || next.prot.write || next.prot.exec)
        && Free(space, First(s) + at, First(s) + to)
  {
    assert First(s) % PAGE == 0 && MappedLength(s) % PAGE == 0;
    assert ChunkLength(s, at) % PAGE == 0;
    hide MappedLength, ChunkLength;
  }

  // ----- the whole plan

  lemma {:induction false} ChunksFree(limit: nat, space: seq<Region>, image: Image, s: Segment, at: nat, lo: nat, hi: nat)
    requires SegmentOk(image, s) && at <= MappedLength(s) && limit < UINT64_RANGE && s.vaddr < UINT64_RANGE
    requires at % PAGE == 0 && (at > 0 ==> First(s) + at <= limit && First(s) > 0)
    requires |space| <= MAX_REGIONS && Solid(space) && LoadChunks(limit, space, image, s, at).1
    ensures var after := LoadChunks(limit, space, image, s, at).0;
      && Solid(after)
      && (Free(after, lo, hi) <==>
            Free(space, lo, hi) && (at < MappedLength(s) && lo < hi ==> End(s) <= lo || hi <= First(s) + at))
    decreases MappedLength(s) - at
  {
    if at < MappedLength(s) {
      hide Free, PageDown, MappedLength, MayMap, Solid, ChunkLength, LoadChunks, Overlaps, ChunkCount;
      OneChunk(limit, space, image, s, at);
      ChunkEnds(s, at);
      var next := ChunkRegion(image, s, at);
      ChunksFree(limit, space + [next], image, s, at + ChunkLength(s, at), lo, hi);
      FreeMore(space, next, lo, hi);
      if lo < hi { ChunkMeets(limit, image, s, at, lo, hi); }
    }
  }

  lemma ChunkMeets(limit: nat, image: Image, s: Segment, at: nat, lo: nat, hi: nat)
    requires SegmentOk(image, s) && at < MappedLength(s) && limit < UINT64_RANGE && First(s) + at < UINT64_RANGE && lo < hi
    ensures Overlaps(ChunkRegion(image, s, at), lo, hi - lo) <==>
      lo < First(s) + at + ChunkLength(s, at) && First(s) + at < hi
  {
    hide MappedLength, ChunkLength;
  }

  function Chunks(segments: seq<Segment>): (r: seq<nat>)
  {
    seq(|segments|, j requires 0 <= j < |segments| => ChunkCount(MappedLength(segments[j])))
  }

  /** All segments from the i-th on are in order, fit between the regions there are, and keep apart. */
  ghost predicate Fits(limit: nat, space: seq<Region>, image: Image, segments: seq<Segment>, i: nat)
    requires i <= |segments|
  {
    && (forall j :: i <= j < |segments| ==> SegmentOk(image, segments[j]) && Placeable(limit, segments[j]))
    && (forall j :: i <= j < |segments| ==> Free(space, First(segments[j]), End(segments[j])))
    && (forall j, k :: i <= j < k < |segments| ==> Apart(segments[j], First(segments[k]), End(segments[k])))
    && |space| + Sum(Chunks(segments[i..])) <= MAX_REGIONS
  }

  lemma FirstChunks(segments: seq<Segment>, i: nat)
    requires i < |segments|
    ensures Sum(Chunks(segments[i..])) == ChunkCount(MappedLength(segments[i])) + Sum(Chunks(segments[i + 1..]))
  {
    hide MappedLength, ChunkCount;
    var all := Chunks(segments[i..]);
    assert segments[i..][1..] == segments[i + 1..];
    assert all[1..] == Chunks(segments[i + 1..]);
  }

  lemma NothingMapped(s: Segment)
    ensures ChunkCount(0) == 0 && Apart(s, 5, 5) && (MappedLength(s) == 0 <==> ChunkCount(MappedLength(s)) == 0)
  {
    hide MappedLength;
  }

  lemma FitsNext(limit: nat, space: seq<Region>, after: seq<Region>, image: Image, segments: seq<Segment>, i: nat)
    requires i < |segments| && SegmentOk(image, segments[i])
    requires MappedLength(segments[i]) == 0 || (Placeable(limit, segments[i]) && Free(space, First(segments[i]), End(segments[i])))
    requires |after| == |space| + ChunkCount(MappedLength(segments[i]))
    requires forall j :: i < j < |segments| ==>
      (Free(after, First(segments[j]), End(segments[j])) <==>
        Free(space, First(segments[j]), End(segments[j])) && Apart(segments[i], First(segments[j]), End(segments[j])))
    ensures Fits(limit, space, image, segments, i) <==> Fits(limit, after, image, segments, i + 1)
  {
    FirstChunks(segments, i);
    assert MappedLength(segments[i]) == 0 ==> Placeable(limit, segments[i]) && Free(space, First(segments[i]), End(segments[i]));
    hide MappedLength, ChunkCount, Free, SegmentOk, Placeable, Apart, First, End, Chunks;
  }

  /** A plan loads exactly when all its segments are in order, its pages are free user pages kept apart
      from one another, and the chunks fit the region table. */
  lemma {:induction false} LoadsIff(limit: nat, space: seq<Region>, image: Image, segments: seq<Segment>, i: nat)
    requires i <= |segments| && limit < UINT64_RANGE && Bounded(segments) && |space| <= MAX_REGIONS && Solid(space)
    ensures LoadSegments(limit, space, image, segments, i).1 == Loaded <==> Fits(limit, space, image, segments, i)
    decreases |segments| - i
  {
    hide MappedLength, ChunkCount, Free, SegmentOk, Placeable, Apart, First, End, Chunks, Solid, LoadChunks, Sum, Fits;
    if i == |segments| {
      AllFit(limit, space, image, segments);
    } else {
      var s := segments[i];
      if SegmentOk(image, s) {
        ChunksLoadIff(limit, space, image, s, 0);
        NothingMapped(s);
        if LoadChunks(limit, space, image, s, 0).1 {
          var after := LoadChunks(limit, space, image, s, 0).0;
          OneLoaded(limit, space, image, segments, i);
          LoadsIff(limit, after, image, segments, i + 1);
        } else {
          OneRefused(limit, space, image, segments, i);
        }
      } else {
        assert !Fits(limit, space, image, segments, i) by { OneBad(limit, space, image, segments, i); }
      }
    }
  }

  lemma AllFit(limit: nat, space: seq<Region>, image: Image, segments: seq<Segment>)
    requires |space| <= MAX_REGIONS
    ensures Fits(limit, space, image, segments, |segments|)
  {
    assert Chunks(segments[|segments|..]) == [];
  }

  lemma OneBad(limit: nat, space: seq<Region>, image: Image, segments: seq<Segment>, i: nat)
    requires i < |segments| && !SegmentOk(image, segments[i])
    ensures !Fits(limit, space, image, segments, i)
  {
  }

  lemma OneLoaded(limit: nat, space: seq<Region>, image: Image, segments: seq<Segment>, i: nat)
    requires i < |segments| && limit < UINT64_RANGE && Bounded(segments) && |space| <= MAX_REGIONS && Solid(space)
    requires SegmentOk(image, segments[i]) && LoadChunks(limit, space, image, segments[i], 0).1
    ensures var after := LoadChunks(limit, space, image, segments[i], 0).0;
      && Solid(after) && |after| <= MAX_REGIONS
      && (Fits(limit, space, image, segments, i) <==> Fits(limit, after, image, segments, i + 1))
  {
    hide MappedLength, ChunkCount, Free, Placeable, Solid, LoadChunks, Sum, Fits, SegmentOk, PageDown;
    var s := segments[i];
    var after := LoadChunks(limit, space, image, s, 0).0;
    ChunksLoadIff(limit, space, image, s, 0);
    NothingMapped(s);
    ChunksFree(limit, space, image, s, 0, 0, 0);
    forall j | i < j < |segments|
      ensures Free(after, First(segments[j]), End(segments[j])) <==>
        Free(space, First(segments[j]), End(segments[j])) && Apart(s, First(segments[j]), End(segments[j]))
    {
      ChunksFree(limit, space, image, s, 0, First(segments[j]), End(segments[j]));
    }
    FitsNext(limit, space, after, image, segments, i);
  }

  lemma OneRefused(limit: nat, space: seq<Region>, image: Image, segments: seq<Segment>, i: nat)
    requires i < |segments| && limit < UINT64_RANGE && Bounded(segments) && |space| <= MAX_REGIONS && Solid(space)
    requires SegmentOk(image, segments[i]) && !LoadChunks(limit, space, image, segments[i], 0).1
    ensures !Fits(limit, space, image, segments, i)
  {
    hide MappedLength, ChunkCount, Free, Placeable, Solid, LoadChunks, Sum, Apart, SegmentOk, PageDown, Chunks;
    ChunksLoadIff(limit, space, image, segments[i], 0);
    FirstChunks(segments, i);
  }

  // ----- what a failure means

  /** The segment says how much memory it wants, no less than it has file bytes, and those are in the image. */
  predicate WellFormed(image: Image, s: Segment)
  {
    s.memsz > 0 && s.filesz <= s.memsz && s.offset + s.filesz <= |image|
  }

  ghost predicate WellFormedUpTo(image: Image, segments: seq<Segment>, i: nat, j: nat)
  {
    j <= |segments| && forall k :: i <= k < j ==> WellFormed(image, segments[k])
  }

  /** Segment j is the first that is not well formed. */
  ghost predicate FirstIllFormed(image: Image, segments: seq<Segment>, i: nat, j: nat)
  {
    i <= j < |segments| && WellFormedUpTo(image, segments, i, j) && !WellFormed(image, segments[j])
  }

  /** Loading from segment i on blames a segment only when one is ill formed, the first of them, and a mapping
      only when the segments up to the one it was for are well formed; segments that all load are well formed. */
  lemma {:induction false} FailureSays(limit: nat, space: seq<Region>, image: Image, segments: seq<Segment>, i: nat)
    requires i <= |segments|
    ensures var verdict := LoadSegments(limit, space, image, segments, i).1;
      match verdict
      case BadSegment => exists j: nat :: FirstIllFormed(image, segments, i, j)
      case MapFailed => exists j: nat :: i < j <= |segments| && WellFormedUpTo(image, segments, i, j)
      case Loaded => WellFormedUpTo(image, segments, i, |segments|)
      case BadRequest => false
    decreases |segments| - i
  {
    hide LoadChunks, SegmentOk, WellFormed;
    if i < |segments| {
      OrderIsForm(image, segments[i]);
      if WellFormed(image, segments[i]) {
        var (more, ok) := LoadChunks(limit, space, image, segments[i], 0);
        var next := i + 1;
        FailureSays(limit, more, image, segments, next);
        if !ok { assert WellFormedUpTo(image, segments, i, i + 1); }
        else if j: nat :| FirstIllFormed(image, segments, next, j) { assert FirstIllFormed(image, segments, i, j); }
        else if j: nat :| next < j <= |segments| && WellFormedUpTo(image, segments, next, j) {
          assert WellFormedUpTo(image, segments, i, j);
        }
      } else {
        assert FirstIllFormed(image, segments, i, i);
      }
    }
  }

  lemma OrderIsForm(image: Image, s: Segment)
    ensures SegmentOk(image, s) <==> WellFormed(image, s)
  {
  }
}
