/** The access every loaded page allows is what its segment asks for. */
module ExecAccess {
  import opened Common
  import opened ElfModel
  import opened ExecModel
  import opened ExecPlans

  /** What may be done at a user address. */
  function Access(space: seq<Region>, a: nat): (r: Option<Prot>)
  {
    if space == [] then None
    else if space[0].vaddr <= a < space[0].vaddr + |space[0].bytes| then Some(space[0].prot)
    else Access(space[1..], a)
  }

  /** The access a segment's flags ask for: 4 is reading, 2 writing, 1 executing. */
  predicate Asked(flags: nat, prot: Prot)
  {
    && (prot.read <==> flags % 8 in {4, 5, 6, 7})
    && (prot.write <==> flags % 8 in {2, 3, 6, 7})
    && (prot.exec <==> flags % 8 in {1, 3, 5, 7})
  }

  lemma FlagsAsked(flags: nat)
    ensures Asked(flags, SegmentProt(flags))
  {
    var q, k := flags / 8, flags % 8;
    assert flags == 8 * q + k;
    assert flags / 4 == 2 * q + k / 4 && flags / 2 == 4 * q + k / 2;
  }

  /** Access is known exactly where there are bytes. */
  lemma {:induction false} AccessShown(space: seq<Region>, a: nat)
    ensures Access(space, a).Some? <==> Load(space, a).Some?
  {
    if space != [] { AccessShown(space[1..], a); }
  }

  lemma {:induction false} AccessAppend(space: seq<Region>, r: Region, a: nat)
    ensures Access(space + [r], a) ==
      if Access(space, a).Some? then Access(space, a)
      else if r.vaddr <= a < r.vaddr + |r.bytes| then Some(r.prot) else None
  {
    if space == [] {
      assert [] + [r] == [r];
    } else {
      AccessAppend(space[1..], r, a);
      assert (space + [r])[1..] == space[1..] + [r];
    }
  }

  lemma ChunkAccess(limit: nat, space: seq<Region>, image: Image, s: Segment, at: nat, a: nat)
    requires SegmentOk(image, s) && at < MappedLength(s) && limit <= UINT64_RANGE
    requires PageDown(s.vaddr) + at < UINT64_RANGE
    requires var next := ChunkRegion(image, s, at); MayMap(limit, space, next.vaddr, ChunkLength(s, at), next.prot)
    ensures var from := PageDown(s.vaddr) + at;
      Access(space + [ChunkRegion(image, s, at)], a) ==
        if from <= a < from + ChunkLength(s, at) then Some(SegmentProt(s.flags)) else Access(space, a)
  {
    hide Load, Access;
    ChunkFlat(limit, space, image, s, at, a);
    AccessShown(space, a);
    AccessAppend(space, ChunkRegion(image, s, at), a);
  }

  lemma {:induction false} ChunksAccess(limit: nat, space: seq<Region>, image: Image, s: Segment, at: nat, a: nat)
    requires SegmentOk(image, s) && at <= MappedLength(s) && limit <= UINT64_RANGE && s.vaddr < UINT64_RANGE
    requires at > 0 ==> PageDown(s.vaddr) + at <= limit
    requires LoadChunks(limit, space, image, s, at).1
    ensures Access(LoadChunks(limit, space, image, s, at).0, a) ==
      if PageDown(s.vaddr) + at <= a < PageDown(s.vaddr) + MappedLength(s) then Some(SegmentProt(s.flags))
      else Access(space, a)
    decreases MappedLength(s) - at
  {
    if at < MappedLength(s) {
      hide PageDown, MappedLength, ChunkLength, Load, Access, SegmentProt;
      var next := ChunkRegion(image, s, at);
      FirstBelow(limit, space, image, s, at);
      ChunkFlat(limit, space, image, s, at, a);
      ChunkAccess(limit, space, image, s, at, a);
      ChunksAccess(limit, space + [next], image, s, at + ChunkLength(s, at), a);
    }
  }

  /** After a load, the pages of each segment allow reading, writing and executing as its flags say, and the
      access elsewhere is as before. */
  lemma {:induction false} SegmentsAccess(limit: nat, space: seq<Region>, image: Image, segments: seq<Segment>, i: nat, a: nat)
    requires i <= |segments| && limit <= UINT64_RANGE && Bounded(segments)
    requires LoadSegments(limit, space, image, segments, i).1 == Loaded
    ensures var after := LoadSegments(limit, space, image, segments, i).0;
      && (forall j | i <= j < |segments| && Covers(segments[j], a) ::
            Access(after, a).Some? && Asked(segments[j].flags, Access(after, a).value))
      && ((forall j :: i <= j < |segments| ==> !Covers(segments[j], a)) ==> Access(after, a) == Access(space, a))
    decreases |segments| - i
  {
    if i < |segments| {
      hide Load, Access, FileByte, LoadChunks, MappedLength, PageDown, SegmentOk, SegmentProt, Asked;
      var s := segments[i];
      var mid := LoadChunks(limit, space, image, s, 0).0;
      ChunksAccess(limit, space, image, s, 0, a);
      FlagsAsked(s.flags);
      SegmentsFlat(limit, space, image, segments, i, a);
      SegmentsAccess(limit, mid, image, segments, i + 1, a);
    }
  }
}
