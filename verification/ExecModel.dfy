/** Loading a plan's segments into a user address space, in chunks of at most 2 MiB. */
module ExecModel {
  import opened Common
  import opened ElfModel

  const PAGE := 4096
  const MAX_CHUNK := 512 * PAGE
  const MAX_REGIONS := 48

  datatype Prot = Prot(read: bool, write: bool, exec: bool)

  /** A mapped region and the bytes it shows. */
  datatype Region = Region(vaddr: nat, prot: Prot, bytes: seq<Byte>)

  function SegmentProt(flags: nat): (r: Prot)
  {
    Prot(flags / 4 % 2 == 1, flags / 2 % 2 == 1, flags % 2 == 1)
  }

  function PageDown(a: nat): (r: nat)
    ensures r <= a < r + PAGE && r % PAGE == 0
  {
    a - a % PAGE
  }

  /** Rounding a size_t up to pages; near 2^64 it wraps around. */
  function PageUp(n: nat): (r: nat)
    ensures r % PAGE == 0
    ensures n + PAGE <= UINT64_RANGE ==> n <= r < n + PAGE
  {
    PageDown((n + PAGE - 1) % UINT64_RANGE)
  }

  predicate Overlaps(r: Region, vaddr: nat, length: nat)
  {
    vaddr < r.vaddr + |r.bytes| && r.vaddr < vaddr + length
  }

  /** When map_fixed gives a region: a free slot, an aligned nonzero user range that meets no other, some access. */
  predicate MayMap(limit: nat, space: seq<Region>, vaddr: nat, length: nat, prot: Prot)
  {
    && |space| < MAX_REGIONS && vaddr != 0 && length != 0 && vaddr % PAGE == 0 && length % PAGE == 0
    && vaddr < limit && length <= limit - vaddr
    && (prot.read || prot.write || prot.exec)
    && forall i :: 0 <= i < |space| ==> !Overlaps(space[i], vaddr, length)
  }

  /** The byte at a user address. */
  function Load(space: seq<Region>, a: nat): (r: Option<Byte>)
  {
    if space == [] then None
    else if space[0].vaddr <= a < space[0].vaddr + |space[0].bytes| then Some(space[0].bytes[a - space[0].vaddr])
    else Load(space[1..], a)
  }

  // ----- one segment

  function Delta(s: Segment): (r: nat)
  {
    s.vaddr - PageDown(s.vaddr)
  }

  function MappedLength(s: Segment): (r: nat)
    ensures r % PAGE == 0
  {
    PageUp((Delta(s) + s.memsz) % UINT64_RANGE)
  }

  predicate SegmentOk(image: Image, s: Segment)
  {
    s.memsz != 0 && s.filesz <= s.memsz && s.offset + s.filesz <= |image|
  }

  /** What a byte k places into the segment is meant to be: file contents, then zeros. */
  function FileByte(image: Image, s: Segment, k: int): (r: Byte)
    requires SegmentOk(image, s)
  {
    if 0 <= k < s.filesz then image[s.offset + k] else 0
  }

  function ChunkLength(s: Segment, at: nat): (r: nat)
    requires at <= MappedLength(s)
    ensures r <= MAX_CHUNK && at + r <= MappedLength(s) && (at < MappedLength(s) ==> r > 0)
    ensures at % PAGE == 0 ==> r % PAGE == 0
  {
    if MappedLength(s) - at < MAX_CHUNK then MappedLength(s) - at else MAX_CHUNK
  }

  /** The bytes of the chunk that starts `at` places after the segment's first page. */
  function ChunkBytes(image: Image, s: Segment, at: nat, length: nat): (r: seq<Byte>)
    requires SegmentOk(image, s)
    ensures |r| == length && forall k :: 0 <= k < length ==> r[k] == FileByte(image, s, at + k - Delta(s))
  {
    seq<Byte>(length, k => FileByte(image, s, at + k - Delta(s)))
  }

  function ChunkRegion(image: Image, s: Segment, at: nat): (r: Region)
    requires SegmentOk(image, s) && at <= MappedLength(s)
  {
    Region((PageDown(s.vaddr) + at) % UINT64_RANGE, SegmentProt(s.flags), ChunkBytes(image, s, at, ChunkLength(s, at)))
  }

  /** Mapping and filling one chunk after another, until done or a mapping is refused. */
  function LoadChunks(limit: nat, space: seq<Region>, image: Image, s: Segment, at: nat): (r: (seq<Region>, bool))
    requires SegmentOk(image, s) && at <= MappedLength(s)
    decreases MappedLength(s) - at
  {
    if at == MappedLength(s) then (space, true)
    else
      var next := ChunkRegion(image, s, at);
      if !MayMap(limit, space, next.vaddr, ChunkLength(s, at), next.prot) then (space, false)
      else LoadChunks(limit, space + [next], image, s, at + ChunkLength(s, at))
  }

  datatype LoadVerdict = Loaded | BadRequest | BadSegment | MapFailed

  function LoadSegments(limit: nat, space: seq<Region>, image: Image, segments: seq<Segment>, i: nat): (r: (seq<Region>, LoadVerdict))
    requires i <= |segments|
    decreases |segments| - i
  {
    if i == |segments| then (space, Loaded)
    else if !SegmentOk(image, segments[i]) then (space, BadSegment)
    else
      var (more, ok) := LoadChunks(limit, space, image, segments[i], 0);
      if !ok then (more, MapFailed) else LoadSegments(limit, more, image, segments, i + 1)
  }

  function ExecLoad(limit: nat, space: seq<Region>, image: Image, plan: Plan): (r: (seq<Region>, LoadVerdict))
  {
    if plan.segments == [] then (space, BadRequest) else LoadSegments(limit, space, image, plan.segments, 0)
  }
}
