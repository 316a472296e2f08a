/** Mapping a plan's segments: a chunk loop per segment, filling each chunk's pages from the image. */
module ExecLoader {
  import opened Common
  import opened ElfModel
  import opened ExecModel
  import opened UserSpace

  /** The part of the file that falls into the chunk is copied; a fresh chunk then shows a flat piece of the
      segment. */
  method FillChunk(pages: array<Byte>, image: Image, s: Segment, at: nat)
    requires SegmentOk(image, s) && |image| + PAGE <= UINT64_RANGE
    requires forall k :: 0 <= k < pages.Length ==> pages[k] == 0
    modifies pages
    ensures pages[..] == ChunkBytes(image, s, at, pages.Length)
  {
    hide PageDown, Delta, Written, ChunkBytes, FileByte;
    DeltaSmall(s);
    var fileStart := Delta(s);
    var fileEnd := fileStart + s.filesz;
    assert fileEnd < UINT64_RANGE;
    var chunkEnd := at + pages.Length;
    if fileStart < chunkEnd && fileEnd > at {
      var copyStart := if fileStart > at then fileStart else at;
      var copyEnd := if fileEnd < chunkEnd then fileEnd else chunkEnd;
      var copyLength := copyEnd - copyStart;
      var imageOffset := s.offset + (copyStart - fileStart);
      FilledChunk(pages[..], image, s, at, copyStart, copyLength);
      WriteObjectBytes(pages, copyStart - at, image, imageOffset, copyLength);
    } else {
      EmptyChunk(pages[..], image, s, at);
    }
  }

  lemma DeltaSmall(s: Segment)
    ensures Delta(s) < PAGE
  {
  }

  /** A chunk the file does not reach shows zeros. */
  lemma EmptyChunk(zeros: seq<Byte>, image: Image, s: Segment, at: nat)
    requires SegmentOk(image, s) && (Delta(s) >= at + |zeros| || Delta(s) + s.filesz <= at)
    requires forall k :: 0 <= k < |zeros| ==> zeros[k] == 0
    ensures zeros == ChunkBytes(image, s, at, |zeros|)
  {
    hide Delta;
  }

  lemma FilledChunk(zeros: seq<Byte>, image: Image, s: Segment, at: nat, start: nat, length: nat)
    requires SegmentOk(image, s) && at <= start && Delta(s) <= start
    requires forall k :: 0 <= k < |zeros| ==> zeros[k] == 0
    requires start == (if Delta(s) > at then Delta(s) else at)
    requires start + length == (if Delta(s) + s.filesz < at + |zeros| then Delta(s) + s.filesz else at + |zeros|)
    ensures s.offset + (start - Delta(s)) + length <= |image| && (start - at) + length <= |zeros|
    ensures var from := s.offset + (start - Delta(s));
      Written(zeros, start - at, image[from..from + length]) == ChunkBytes(image, s, at, |zeros|)
  {
    hide Delta;
  }

  method LoadSegment(vm: AddressSpace, image: Image, s: Segment) returns (ok: bool)
    requires vm.Valid() && SegmentOk(image, s) && |image| + PAGE <= UINT64_RANGE
    modifies vm
    ensures vm.Valid()
    ensures (vm.Model(), ok) == LoadChunks(vm.limit, old(vm.Model()), image, s, 0)
  {
    var pageVaddr := PageDown(s.vaddr);
    var mappedLength := MappedLength(s);
    var chunkOffset: nat := 0;
    while chunkOffset < mappedLength
      invariant chunkOffset <= mappedLength && vm.Valid()
      invariant LoadChunks(vm.limit, old(vm.Model()), image, s, 0) == LoadChunks(vm.limit, vm.Model(), image, s, chunkOffset)
    {
      hide MappedLength, PageDown, MayMap;
      var chunkLength := ChunkLength(s, chunkOffset);
      ghost var before := vm.Model();
      var vaddr := (pageVaddr + chunkOffset) % UINT64_RANGE;
      var mapped, pages := vm.MapFixed(vaddr, chunkLength, SegmentProt(s.flags));
      if !mapped { return false; }
      FillChunk(pages, image, s, chunkOffset);
      assert vm.Model() == before + [ChunkRegion(image, s, chunkOffset)];
      chunkOffset := chunkOffset + chunkLength;
    }
    return true;
  }

  /** linux_compat_exec_load. */
  method Load(vm: AddressSpace, image: Image, plan: Plan) returns (verdict: LoadVerdict, entry: nat)
    requires vm.Valid() && |image| + PAGE <= UINT64_RANGE
    modifies vm
    ensures vm.Valid()
    ensures (vm.Model(), verdict) == ExecLoad(vm.limit, old(vm.Model()), image, plan)
    ensures entry == if verdict == Loaded then plan.entry else 0
  {
    if |plan.segments| == 0 { return BadRequest, 0; }
    var i: nat := 0;
    while i < |plan.segments|
      invariant i <= |plan.segments| && vm.Valid()
      invariant LoadSegments(vm.limit, old(vm.Model()), image, plan.segments, 0)
        == LoadSegments(vm.limit, vm.Model(), image, plan.segments, i)
    {
      var s := plan.segments[i];
      if s.memsz == 0 || s.filesz > s.memsz || s.offset + s.filesz > |image| { return BadSegment, 0; }
      var ok := LoadSegment(vm, image, s);
      if !ok { return MapFailed, 0; }
      i := i + 1;
    }
    return Loaded, plan.entry;
  }
}
