/** Program images: what the loader reads from an ELF file and the plan it makes of it. */
module ElfModel {
  import opened Common
  import opened LittleEndian

  const HEADER_SIZE := 64
  const PHENTSIZE := 56
  const EM_RISCV := 243
  const ET_EXEC := 2
  const ET_DYN := 3
  const PT_LOAD := 1
  const PT_INTERP := 3
  const PT_PHDR := 6
  const MAX_SEGMENTS := 8
  const MAX_INTERP := 128
  const DYN_LOAD_BIAS := 0x4000_0000
  const STACK_TOP := 0x7000_0000
  const AUXV_COUNT := 12

  type Image = s: seq<Byte> | |s| < UINT64_RANGE witness []

  datatype Segment = Segment(vaddr: nat, memsz: nat, filesz: nat, offset: nat, flags: nat)

  datatype Plan = Plan(
    elfType: nat, entry: nat, loadBias: nat, phdrVaddr: nat, phnum: nat, segments: seq<Segment>,
    requiresInterp: bool, interpPath: seq<Byte>, interpLoadBias: nat, interpEntry: nat,
    stackTop: nat, argvCount: nat, envpCount: nat, auxvCount: nat)

  const CLEARED := Plan(0, 0, 0, 0, 0, [], false, [], 0, 0, 0, 0, 0, 0)

  datatype Verdict = Accepted | BadHeader | BadMagic | UnsupportedClass | UnsupportedMachine | UnsupportedType
    | BadPhentsize | BadProgramHeaders | BadEntry | BadPhdrAddress | TooManySegments | BadLoadSegment
    | BadSegmentAddress | BadInterpSegment | InterpTooLong | NoLoadSegments

  /** A program header entry. */
  datatype Header = Header(kind: nat, flags: nat, offset: nat, vaddr: nat, filesz: nat, memsz: nat)

  /** Where the program header table lies in the image. */
  datatype Table = Table(offset: nat, entrySize: nat, count: nat)

  function U16(image: Image, at: nat): (r: nat)
    requires at + 2 <= |image|
  {
    Le(image[at..at + 2])
  }

  function U32(image: Image, at: nat): (r: nat)
    requires at + 4 <= |image|
  {
    Le(image[at..at + 4])
  }

  function U64(image: Image, at: nat): (r: nat)
    requires at + 8 <= |image|
  {
    Le(image[at..at + 8])
  }

  function TableSize(t: Table): (r: nat)
  {
    t.entrySize * t.count
  }

  predicate TableInside(image: Image, t: Table)
  {
    t.entrySize >= PHENTSIZE && t.offset + TableSize(t) <= |image|
  }

  /** Where the k-th entry starts. */
  function EntryAt(image: Image, t: Table, k: nat): (r: nat)
    requires TableInside(image, t) && k < t.count
    ensures t.offset <= r && r + PHENTSIZE <= t.offset + TableSize(t) <= |image|
  {
    EntryFits(t.entrySize, t.count, k);
    t.offset + k * t.entrySize
  }

  lemma EntryFits(size: nat, count: nat, k: nat)
    requires k < count
    ensures 0 <= k * size && k * size + size <= size * count
  {
    assert (k + 1) * size == k * size + size;
    Product(k + 1, count, size);
  }

  lemma Product(a: nat, b: nat, size: nat)
    requires a <= b
    ensures a * size <= b * size == size * b
  {
  }

  function HeaderAt(image: Image, t: Table, k: nat): (r: Header)
    requires TableInside(image, t) && k < t.count
  {
    var at := EntryAt(image, t, k);
    Header(U32(image, at), U32(image, at + 4), U64(image, at + 8), U64(image, at + 16), U64(image, at + 32), U64(image, at + 40))
  }

  predicate InImage(image: Image, offset: nat, size: nat)
  {
    offset + size <= |image|
  }

  /** The table lies inside the file part of this segment. */
  predicate HoldsTable(h: Header, t: Table)
  {
    h.offset <= t.offset && t.offset + TableSize(t) <= h.offset + h.filesz
  }

  /** A path of bytes up to the first NUL, nonempty and short enough for its buffer. */
  function InterpPath(bytes: seq<Byte>): (r: Option<seq<Byte>>)
  {
    var n := NulAt(bytes, 0);
    if n < |bytes| && 0 < n < MAX_INTERP then Some(bytes[..n]) else None
  }

  function NulAt(bytes: seq<Byte>, i: nat): (r: nat)
    requires i <= |bytes|
    ensures i <= r <= |bytes| && (forall k :: i <= k < r ==> bytes[k] != 0) && (r < |bytes| ==> bytes[r] == 0)
    decreases |bytes| - i
  {
    if i == |bytes| || bytes[i] == 0 then i else NulAt(bytes, i + 1)
  }

  // ----- reading one header after another

  function TakePhdr(plan: Plan, h: Header): (r: (Plan, Verdict))
  {
    if h.vaddr + plan.loadBias >= UINT64_RANGE then (plan, BadPhdrAddress)
    else (plan.(phdrVaddr := h.vaddr + plan.loadBias), Accepted)
  }

  function TakeLoad(image: Image, t: Table, plan: Plan, h: Header): (r: (Plan, Verdict))
  {
    if |plan.segments| >= MAX_SEGMENTS then (plan, TooManySegments)
    else if h.filesz > h.memsz || !InImage(image, h.offset, h.filesz) then (plan, BadLoadSegment)
    else if h.vaddr + plan.loadBias >= UINT64_RANGE then (plan, BadSegmentAddress)
    else
      var more := plan.(segments := plan.segments + [SegmentOf(h, plan.loadBias)]);
      if plan.phdrVaddr == 0 && HoldsTable(h, t) then
        var derived := h.vaddr + (t.offset - h.offset) + plan.loadBias;
        if derived >= UINT64_RANGE then (more, BadPhdrAddress) else (more.(phdrVaddr := derived), Accepted)
      else (more, Accepted)
  }

  function TakeInterp(image: Image, plan: Plan, h: Header): (r: (Plan, Verdict))
  {
    if !InImage(image, h.offset, h.filesz) then (plan, BadInterpSegment)
    else
      var path := InterpPath(image[h.offset..h.offset + h.filesz]);
      if path.None? then (if h.filesz == 0 then plan else plan.(interpPath := []), InterpTooLong)
      else (plan.(interpPath := path.value, requiresInterp := true), Accepted)
  }

  function Take(image: Image, t: Table, plan: Plan, h: Header): (r: (Plan, Verdict))
  {
    if h.kind == PT_PHDR then TakePhdr(plan, h)
    else if h.kind == PT_LOAD then TakeLoad(image, t, plan, h)
    else if h.kind == PT_INTERP then TakeInterp(image, plan, h)
    else (plan, Accepted)
  }

  function SegmentOf(h: Header, bias: nat): (r: Segment)
  {
    Segment(h.vaddr + bias, h.memsz, h.filesz, h.offset, h.flags)
  }

  /** The plan after the first k headers, or the error that ended the reading. */
  function TakeUpTo(image: Image, t: Table, start: Plan, k: nat): (r: (Plan, Verdict))
    requires TableInside(image, t) && k <= t.count
  {
    if k == 0 then (start, Accepted)
    else
      var (plan, verdict) := TakeUpTo(image, t, start, k - 1);
      if verdict != Accepted then (plan, verdict) else Take(image, t, plan, HeaderAt(image, t, k - 1))
  }

  function TableOf(image: Image): (r: Table)
    requires |image| >= HEADER_SIZE
  {
    Table(U64(image, 32), U16(image, 54), U16(image, 56))
  }

  function Bias(elfType: nat): (r: nat)
  {
    if elfType == ET_DYN then DYN_LOAD_BIAS else 0
  }

  /** The plan the header alone gives. */
  function Started(image: Image, argc: nat, envc: nat): (r: Plan)
    requires |image| >= HEADER_SIZE
  {
    var kind := U16(image, 16);
    CLEARED.(elfType := kind, loadBias := Bias(kind), entry := U64(image, 24) + Bias(kind), phnum := U16(image, 56),
             stackTop := STACK_TOP, argvCount := argc, envpCount := envc, auxvCount := AUXV_COUNT)
  }

  function HeaderVerdict(image: Image): (r: Verdict)
    ensures r == Accepted ==> |image| >= HEADER_SIZE && TableInside(image, TableOf(image))
  {
    if |image| < HEADER_SIZE then BadHeader
    else if image[..4] != [0x7f, 0x45, 0x4c, 0x46] then BadMagic
    else if image[4] != 2 || image[5] != 1 then UnsupportedClass
    else if U16(image, 18) != EM_RISCV then UnsupportedMachine
    else if U16(image, 16) != ET_EXEC && U16(image, 16) != ET_DYN then UnsupportedType
    else if U16(image, 54) < PHENTSIZE then BadPhentsize
    else if U64(image, 32) + TableSize(TableOf(image)) > |image| then BadProgramHeaders
    else if U64(image, 24) + Bias(U16(image, 16)) >= UINT64_RANGE then BadEntry
    else Accepted
  }

  function BuildPlan(image: Image, argc: nat, envc: nat): (r: (Plan, Verdict))
  {
    var verdict := HeaderVerdict(image);
    if verdict == BadHeader || verdict == BadMagic || verdict == UnsupportedClass then (CLEARED, verdict)
    else if verdict == BadEntry then
      (CLEARED.(elfType := U16(image, 16), loadBias := Bias(U16(image, 16))), verdict)
    else if verdict != Accepted then (CLEARED.(elfType := U16(image, 16)), verdict)
    else
      var t := TableOf(image);
      var (plan, end) := TakeUpTo(image, t, Started(image, argc, envc), t.count);
      if end == Accepted && plan.segments == [] then (plan, NoLoadSegments) else (plan, end)
  }
}
