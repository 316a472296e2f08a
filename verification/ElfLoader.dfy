/** The loader: it reads an ELF image header by header and fills a load plan. */
module ElfLoader {
  import opened Common
  import opened LittleEndian
  import opened ElfModel

  /** 64-bit addition that reports a wrap-around. */
  method AddU64(a: nat, b: nat) returns (ok: bool, sum: nat)
    requires a < UINT64_RANGE && b < UINT64_RANGE
    ensures ok <==> a + b < UINT64_RANGE
    ensures ok ==> sum == a + b
  {
    sum := (a + b) % UINT64_RANGE;
    ok := sum >= a;
  }

  method RangeInImage(offset: nat, size: nat, imageSize: nat) returns (inside: bool)
    requires offset < UINT64_RANGE && size < UINT64_RANGE && imageSize < UINT64_RANGE
    ensures inside <==> offset + size <= imageSize
  {
    var ok, end := AddU64(offset, size);
    inside := ok && offset <= imageSize && end <= imageSize;
  }

  method RangeContains(outer: nat, outerSize: nat, inner: nat, innerSize: nat) returns (inside: bool)
    requires outer < UINT64_RANGE && outerSize < UINT64_RANGE && inner < UINT64_RANGE && innerSize < UINT64_RANGE
    ensures inside <==>
      && outer + outerSize < UINT64_RANGE && inner + innerSize < UINT64_RANGE
      && outer <= inner && inner + innerSize <= outer + outerSize
  {
    var ok, outerEnd := AddU64(outer, outerSize);
    var fits, innerEnd := AddU64(inner, innerSize);
    inside := ok && fits && inner >= outer && innerEnd <= outerEnd;
  }

  /** copy_interp_path: the NUL-terminated path, byte by byte into a buffer of 128. */
  method CopyInterpPath(image: Image, offset: nat, filesz: nat, previous: seq<Byte>) returns (ok: bool, path: seq<Byte>)
    requires InImage(image, offset, filesz)
    ensures var found := InterpPath(image[offset..offset + filesz]);
      ok == found.Some? && path == if found.Some? then found.value else if filesz == 0 then previous else []
  {
    if filesz == 0 { return false, previous; }
    ghost var bytes := image[offset..offset + filesz];
    path := [];
    var i: nat := 0;
    while i < filesz
      invariant i <= filesz && path == bytes[..i] && i < MAX_INTERP
      invariant NulAt(bytes, 0) == NulAt(bytes, i)
      invariant forall k :: 0 <= k < i ==> bytes[k] != 0
    {
      var ch := image[offset + i];
      assert ch == bytes[i];
      if ch == 0 { return i > 0, path; }
      if i + 1 >= MAX_INTERP { return false, []; }
      path := path + [ch];
      i := i + 1;
    }
    return false, [];
  }

  method TakeLoadEntry(image: Image, t: Table, plan: Plan, h: Header) returns (next: Plan, verdict: Verdict)
    requires TableInside(image, t) && plan.loadBias < UINT64_RANGE
    requires h.offset < UINT64_RANGE && h.vaddr < UINT64_RANGE && h.filesz < UINT64_RANGE && h.memsz < UINT64_RANGE
    ensures (next, verdict) == TakeLoad(image, t, plan, h)
  {
    if |plan.segments| >= MAX_SEGMENTS { return plan, TooManySegments; }
    var inside := RangeInImage(h.offset, h.filesz, |image|);
    if h.filesz > h.memsz || !inside { return plan, BadLoadSegment; }
    var ok, vaddr := AddU64(h.vaddr, plan.loadBias);
    if !ok { return plan, BadSegmentAddress; }
    next := plan.(segments := plan.segments + [Segment(vaddr, h.memsz, h.filesz, h.offset, h.flags)]);
    var holds := RangeContains(h.offset, h.filesz, t.offset, TableSize(t));
    if next.phdrVaddr == 0 && holds {
      var fits, raw := AddU64(h.vaddr, t.offset - h.offset);
      if !fits { return next, BadPhdrAddress; }
      var ok', derived := AddU64(raw, plan.loadBias);
      if !ok' { return next, BadPhdrAddress; }
      next := next.(phdrVaddr := derived);
    }
    return next, Accepted;
  }

  method TakeEntry(image: Image, t: Table, plan: Plan, h: Header) returns (next: Plan, verdict: Verdict)
    requires TableInside(image, t) && plan.loadBias < UINT64_RANGE
    requires h.offset < UINT64_RANGE && h.vaddr < UINT64_RANGE && h.filesz < UINT64_RANGE && h.memsz < UINT64_RANGE
    ensures (next, verdict) == Take(image, t, plan, h)
  {
    if h.kind == PT_PHDR {
      var ok, vaddr := AddU64(h.vaddr, plan.loadBias);
      if !ok { return plan, BadPhdrAddress; }
      return plan.(phdrVaddr := vaddr), Accepted;
    } else if h.kind == PT_LOAD {
      next, verdict := TakeLoadEntry(image, t, plan, h);
    } else if h.kind == PT_INTERP {
      var inside := RangeInImage(h.offset, h.filesz, |image|);
      if !inside { return plan, BadInterpSegment; }
      var ok, path := CopyInterpPath(image, h.offset, h.filesz, plan.interpPath);
      if !ok { return plan.(interpPath := path), InterpTooLong; }
      return plan.(interpPath := path, requiresInterp := true), Accepted;
    } else {
      return plan, Accepted;
    }
  }

  method ReadHeader(image: Image, t: Table, i: nat) returns (h: Header)
    requires TableInside(image, t) && i < t.count
    ensures h == HeaderAt(image, t, i)
    ensures h.offset < UINT64_RANGE && h.vaddr < UINT64_RANGE && h.filesz < UINT64_RANGE && h.memsz < UINT64_RANGE
  {
    ghost var start := EntryAt(image, t, i);
    var at := t.offset + i * t.entrySize;
    var kind := ReadU32(image, at);
    var flags := ReadU32(image, at + 4);
    var offset := ReadU64(image, at + 8);
    var vaddr := ReadU64(image, at + 16);
    var filesz := ReadU64(image, at + 32);
    var memsz := ReadU64(image, at + 40);
    return Header(kind, flags, offset, vaddr, filesz, memsz);
  }

  lemma {:induction false} BiasKept(image: Image, t: Table, start: Plan, k: nat)
    requires TableInside(image, t) && k <= t.count
    ensures TakeUpTo(image, t, start, k).0.loadBias == start.loadBias
  {
    if k > 0 { BiasKept(image, t, start, k - 1); }
  }

  /** Once reading has stopped, the rest of the table changes nothing. */
  lemma {:induction false} Stopped(image: Image, t: Table, start: Plan, i: nat, k: nat)
    requires TableInside(image, t) && i <= k <= t.count && TakeUpTo(image, t, start, i).1 != Accepted
    ensures TakeUpTo(image, t, start, k) == TakeUpTo(image, t, start, i)
    decreases k
  {
    if i < k { Stopped(image, t, start, i, k - 1); }
  }

  method ReadTable(image: Image, t: Table, start: Plan) returns (plan: Plan, verdict: Verdict)
    requires TableInside(image, t) && start.loadBias < UINT64_RANGE
    ensures (plan, verdict) == TakeUpTo(image, t, start, t.count)
  {
    hide Take, HeaderAt;
    plan, verdict := start, Accepted;
    var i: nat := 0;
    while i < t.count
      invariant i <= t.count && (plan, verdict) == TakeUpTo(image, t, start, i) && verdict == Accepted
    {
      BiasKept(image, t, start, i);
      var h := ReadHeader(image, t, i);
      plan, verdict := TakeEntry(image, t, plan, h);
      i := i + 1;
      if verdict != Accepted {
        Stopped(image, t, start, i, t.count);
        return;
      }
    }
  }

  /** linux_compat_build_load_plan. */
  method BuildLoadPlan(image: Image, argc: nat, envc: nat) returns (plan: Plan, verdict: Verdict)
    ensures (plan, verdict) == BuildPlan(image, argc, envc)
  {
    hide TakeUpTo, Le, EntryAt;
    plan := CLEARED;
    if |image| < HEADER_SIZE { return plan, BadHeader; }
    assert image[..4] == [image[0], image[1], image[2], image[3]];
    if image[0] != 0x7f || image[1] != 0x45 || image[2] != 0x4c || image[3] != 0x46 { return plan, BadMagic; }
    if image[4] != 2 || image[5] != 1 { return plan, UnsupportedClass; }
    var elfType := ReadU16(image, 16);
    var machine := ReadU16(image, 18);
    var rawEntry := ReadU64(image, 24);
    var phoff := ReadU64(image, 32);
    var phentsize := ReadU16(image, 54);
    var phnum := ReadU16(image, 56);
    plan := plan.(elfType := elfType);
    if machine != EM_RISCV { return plan, UnsupportedMachine; }
    if elfType != ET_EXEC && elfType != ET_DYN { return plan, UnsupportedType; }
    if phentsize < PHENTSIZE { return plan, BadPhentsize; }
    var t := Table(phoff, phentsize, phnum);
    SmallProduct(phentsize, phnum);
    var ok, end := AddU64(phoff, phentsize * phnum);
    if !ok || phoff > |image| || end > |image| { return plan, BadProgramHeaders; }
    var bias := if elfType == ET_DYN then DYN_LOAD_BIAS else 0;
    plan := plan.(loadBias := bias);
    var fits, entry := AddU64(rawEntry, bias);
    if !fits { return plan, BadEntry; }
    plan := plan.(entry := entry, phnum := phnum, stackTop := STACK_TOP, argvCount := argc, envpCount := envc,
                  auxvCount := AUXV_COUNT);
    plan, verdict := ReadTable(image, t, plan);
    if verdict == Accepted && |plan.segments| == 0 { return plan, NoLoadSegments; }
  }

  lemma SmallProduct(a: nat, b: nat)
    requires a < 0x1_0000 && b < 0x1_0000
    ensures 0 <= a * b < UINT64_RANGE
  {
    assert a * b <= 0x1_0000 * 0x1_0000 by { Product(a, 0x1_0000, b); Product(b, 0x1_0000, 0x1_0000); }
  }
}
