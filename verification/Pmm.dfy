/** Early memory: a bump allocator; after it, physical pages under a bitmap. */
module Pmm {
  import opened Common
  import opened PmmModel

  predicate PowerOfTwo(a: nat)
  {
    a == 1 || (a > 0 && a % 2 == 0 && PowerOfTwo(a / 2))
  }

  /** Rounding up, in 64-bit arithmetic. */
  function AlignUp(value: nat, alignment: nat): (r: nat)
    requires alignment > 0
    ensures r % alignment == 0
    ensures value + alignment <= UINT64_RANGE ==> value <= r < value + alignment
  {
    var raised := (value + (alignment - 1)) % UINT64_RANGE;
    Multiple(raised, alignment);
    raised - raised % alignment
  }

  lemma Multiple(a: nat, alignment: nat)
    requires alignment > 0
    ensures 0 <= a - a % alignment && (a - a % alignment) % alignment == 0
  {
    assert a - a % alignment == alignment * (a / alignment);
    RemainderUnique(a - a % alignment, a / alignment, alignment);
  }

  lemma RemainderUnique(x: nat, q: nat, d: nat)
    requires d > 0 && x == d * q
    ensures x % d == 0
  {
    var k := x / d;
    assert x == d * k + x % d;
    if q > k {
      Distribute(d, q, k);
      Times(d, q - k);
    } else {
      Distribute(d, k, q);
    }
  }

  lemma Distribute(d: nat, a: nat, b: nat)
    requires a >= b
    ensures d * a == d * b + d * (a - b) && d * (a - b) >= 0
  {
  }

  lemma Times(d: nat, m: nat)
    requires m > 0
    ensures d * m >= d
  {
  }

  class EarlyMemory {
    const heapLimit: nat
    var cursor: nat
    var allocLimit: nat

    predicate Valid()
      reads this
    {
      0 < cursor <= allocLimit <= heapLimit <= UINT64_RANGE / 2
    }

    constructor (heapStart: nat, limit: nat)
      requires 0 < heapStart <= limit <= UINT64_RANGE / 2
      ensures Valid() && cursor == heapStart && heapLimit == limit == allocLimit
    {
      heapLimit, cursor, allocLimit := limit, heapStart, limit;
    }

    /** A block above everything given out before, aligned and below the limit; refused only when the
        alignment is no power of two or the aligned block does not fit. */
    method Alloc(size: nat, alignment: nat) returns (block: Option<nat>)
      requires Valid() && alignment < UINT64_RANGE
      modifies this`cursor
      ensures Valid()
      ensures PowerOfTwo(alignment) ==> alignment > 0
      ensures block.Some? ==>
        && alignment > 0 && block.value % alignment == 0 && old(cursor) <= block.value < old(cursor) + alignment
        && cursor == block.value + size <= allocLimit
      ensures block.Some? ==> block.value == AlignUp(old(cursor), alignment)
      ensures block.None? ==> cursor == old(cursor)
      ensures block.Some? <==> PowerOfTwo(alignment) && AlignUp(old(cursor), alignment) + size <= allocLimit
    {
      if alignment == 0 || !PowerOfTwo(alignment) { return None; }
      assert alignment <= UINT64_RANGE / 2 by { PowerBelow(alignment); }
      var aligned := AlignUp(cursor, alignment);
      if aligned > allocLimit || size > allocLimit - aligned { return None; }
      cursor := aligned + size;
      return Some(aligned);
    }

    /** What is left, from the next page on; nothing more is given out below that. */
    method Finalize() returns (start: nat)
      requires Valid()
      modifies this
      ensures Valid()
      ensures var up := AlignUp(old(cursor), PAGE_SIZE);
        if up > old(allocLimit) then start == 0 && cursor == old(cursor) && allocLimit == old(allocLimit)
        else start == cursor == allocLimit == up
    {
      var aligned := AlignUp(cursor, PAGE_SIZE);
      if aligned > allocLimit { return 0; }
      cursor, allocLimit := aligned, aligned;
      return aligned;
    }
  }

  lemma PowerBelow(a: nat)
    requires PowerOfTwo(a) && a < UINT64_RANGE
    ensures a <= UINT64_RANGE / 2
  {
    PowersOf2();
    PowerHalves(a, 64);
  }

  lemma PowersOf2()
    ensures Pow2(64) == UINT64_RANGE
  {
    assert Pow2(8) == 256;
    assert Pow2(16) == 256 * Pow2(8) && Pow2(24) == 256 * Pow2(16) && Pow2(32) == 256 * Pow2(24);
    assert Pow2(40) == 256 * Pow2(32) && Pow2(48) == 256 * Pow2(40);
    assert Pow2(56) == 256 * Pow2(48) && Pow2(64) == 256 * Pow2(56);
  }

  function Pow2(n: nat): (r: nat)
    ensures r > 0
  {
    if n == 0 then 1 else 2 * Pow2(n - 1)
  }

  /** A power of two below 2^n is at most half of it. */
  lemma {:induction false} PowerHalves(a: nat, n: nat)
    requires PowerOfTwo(a) && n > 0 && a < Pow2(n)
    ensures 2 * a <= Pow2(n)
  {
    if a > 1 && n > 1 { PowerHalves(a / 2, n - 1); }
  }

  // ----- bits

  function Mask(k: nat): (r: bv8)
    requires k < 8
  {
    if k == 0 then 0x01 else if k == 1 then 0x02 else if k == 2 then 0x04 else if k == 3 then 0x08
    else if k == 4 then 0x10 else if k == 5 then 0x20 else if k == 6 then 0x40 else 0x80
  }

  predicate Bit(b: bv8, k: nat)
    requires k < 8
  {
    b & Mask(k) != 0
  }

  lemma SetOther(b: bv8, m: bv8, n: bv8)
    requires m & n == 0
    ensures (b | m) & n == b & n
  {
  }

  lemma ClearOther(b: bv8, m: bv8, n: bv8)
    requires m & n == 0
    ensures (b & !m) & n == b & n
  {
  }

  lemma SetSame(b: bv8, m: bv8)
    ensures (b | m) & m == m && (b & !m) & m == 0
  {
  }

  lemma MasksApart(j: nat, k: nat)
    requires j < 8 && k < 8
    ensures Mask(j) != 0
    ensures j != k ==> Mask(j) & Mask(k) == 0
  {
  }

  /** Setting one bit of a byte leaves the other seven. */
  lemma SetBit(b: bv8, j: nat, k: nat)
    requires j < 8 && k < 8
    ensures Bit(b | Mask(k), j) == if j == k then true else Bit(b, j)
  {
    hide Mask;
    var m, n := Mask(k), Mask(j);
    MasksApart(k, j);
    if j == k { SetSame(b, m); } else { SetOther(b, m, n); }
  }

  /** Clearing one bit of a byte leaves the other seven. */
  lemma ClearBit(b: bv8, j: nat, k: nat)
    requires j < 8 && k < 8
    ensures Bit(b & !Mask(k), j) == if j == k then false else Bit(b, j)
  {
    hide Mask;
    var m, n := Mask(k), Mask(j);
    MasksApart(k, j);
    if j == k { SetSame(b, m); } else { ClearOther(b, m, n); }
  }

  function BitmapBytes(pages: nat): (r: nat)
    ensures 8 * r >= pages && (r == 0 <==> pages == 0)
  {
    (pages + 7) / 8
  }

  /** The bits of a bitmap as a sequence. */
  ghost function Bits(bitmap: seq<bv8>, n: nat): (r: seq<bool>)
    requires n <= 8 * |bitmap|
    ensures |r| == n && forall i :: 0 <= i < n ==> r[i] == Bit(bitmap[i / 8], i % 8)
  {
    seq(n, i requires 0 <= i < n => Bit(bitmap[i / 8], i % 8))
  }

  /** Bits beyond the managed pages are clear. */
  ghost predicate PaddingClear(bitmap: seq<bv8>, n: nat)
  {
    forall i: nat :: n <= i < 8 * |bitmap| ==> !Bit(bitmap[i / 8], i % 8)
  }

  lemma BitAt(bitmap: seq<bv8>, n: nat, i: nat)
    requires i < n <= 8 * |bitmap|
    ensures Bits(bitmap, n)[i] == Bit(bitmap[i / 8], i % 8)
  {
  }

  lemma PaddingAt(bitmap: seq<bv8>, n: nat, i: nat)
    requires PaddingClear(bitmap, n) && n <= i < 8 * |bitmap|
    ensures !Bit(bitmap[i / 8], i % 8)
  {
    hide Bit;
  }

  /** Changing the bit of a managed page leaves the padding clear. */
  lemma PaddingKept(bitmap: seq<bv8>, n: nat, i: nat, b: bv8, v: bool)
    requires i < n <= 8 * |bitmap| && PaddingClear(bitmap, n)
    requires forall k: nat :: k < 8 ==> Bit(b, k) == if k == i % 8 then v else Bit(bitmap[i / 8], k)
    ensures PaddingClear(bitmap[i / 8 := b], n)
  {
    hide Bit;
    forall j: nat | n <= j < 8 * |bitmap| ensures !Bit(bitmap[i / 8 := b][j / 8], j % 8) {
      if j / 8 == i / 8 { assert Bit(b, j % 8) == if j % 8 == i % 8 then v else Bit(bitmap[i / 8], j % 8); }
    }
  }

  lemma BitsUpdate(bitmap: seq<bv8>, n: nat, i: nat, b: bv8, v: bool)
    requires i < n <= 8 * |bitmap|
    requires forall k: nat :: k < 8 ==> Bit(b, k) == if k == i % 8 then v else Bit(bitmap[i / 8], k)
    ensures Bits(bitmap[i / 8 := b], n) == Bits(bitmap, n)[i := v]
  {
    hide Bit;
    var updated := Bits(bitmap[i / 8 := b], n);
    forall j | 0 <= j < n ensures updated[j] == Bits(bitmap, n)[i := v][j] {
      if j / 8 == i / 8 { assert Bit(b, j % 8) == if j % 8 == i % 8 then v else Bit(bitmap[i / 8], j % 8); }
    }
  }

  lemma BitsSet(bitmap: seq<bv8>, n: nat, i: nat, b: bv8)
    requires i < n <= 8 * |bitmap| && b == bitmap[i / 8] | Mask(i % 8)
    ensures Bits(bitmap[i / 8 := b], n) == Bits(bitmap, n)[i := true]
    ensures PaddingClear(bitmap, n) ==> PaddingClear(bitmap[i / 8 := b], n)
  {
    hide Bit, Mask, Bits, PaddingClear;
    forall k: nat | k < 8 ensures Bit(b, k) == if k == i % 8 then true else Bit(bitmap[i / 8], k) {
      SetBit(bitmap[i / 8], k, i % 8);
    }
    BitsUpdate(bitmap, n, i, b, true);
    if PaddingClear(bitmap, n) { PaddingKept(bitmap, n, i, b, true); }
  }

  lemma BitsCleared(bitmap: seq<bv8>, n: nat, i: nat, b: bv8)
    requires i < n <= 8 * |bitmap| && b == bitmap[i / 8] & !Mask(i % 8)
    ensures Bits(bitmap[i / 8 := b], n) == Bits(bitmap, n)[i := false]
    ensures PaddingClear(bitmap, n) ==> PaddingClear(bitmap[i / 8 := b], n)
  {
    hide Bit, Mask, Bits, PaddingClear;
    forall k: nat | k < 8 ensures Bit(b, k) == if k == i % 8 then false else Bit(bitmap[i / 8], k) {
      ClearBit(bitmap[i / 8], k, i % 8);
    }
    BitsUpdate(bitmap, n, i, b, false);
    if PaddingClear(bitmap, n) { PaddingKept(bitmap, n, i, b, false); }
  }

  /** Memory for the bitmap, if there is to be one and it fits. */
  method TakeBitmap(memory: EarlyMemory, bytes: nat) returns (at: nat)
    requires memory.Valid()
    modifies memory`cursor
    ensures memory.Valid() && old(memory.cursor) <= memory.cursor
    ensures at != 0 ==> old(memory.cursor) <= at && memory.cursor == at + bytes
    ensures at != 0 <==> bytes != 0 && AlignUp(old(memory.cursor), 8) + bytes <= memory.allocLimit
    ensures at == if at != 0 then AlignUp(old(memory.cursor), 8) else 0
    ensures at == 0 ==> memory.cursor == old(memory.cursor)
  {
    hide PowerOfTwo, AlignUp;
    at := 0;
    if bytes != 0 {
      EightIsPower();
      var block := memory.Alloc(bytes, 8);
      if block.Some? { at := block.value; }
    }
  }

  /** The bitmap's memory, then the rest: how pmm_init divides what early memory has left. */
  method TakeMemory(memory: EarlyMemory) returns (at: nat, bytes: nat, first: nat, managed: nat)
    requires memory.Valid()
    modifies memory
    ensures memory.Valid()
    ensures bytes == BitmapBytes(PagesAbove(old(memory.cursor), memory.heapLimit)) && managed <= 8 * bytes
    ensures at != 0 ==> old(memory.cursor) <= at
    ensures managed > 0 ==>
      && at != 0 && at + bytes <= first && first == memory.cursor == memory.allocLimit
      && 0 < first < memory.heapLimit && first % PAGE_SIZE == 0 && managed == (memory.heapLimit - first) / PAGE_SIZE
    ensures old(memory.allocLimit) == memory.heapLimit ==> managed == PagesManaged(old(memory.cursor), memory.heapLimit)
  {
    hide PowerOfTwo, AlignUp, PagesManaged, BitmapBytes;
    var limit := memory.heapLimit;
    ghost var cursor := memory.cursor;
    InitFits(cursor, limit);
    ManagedBehind(cursor, limit);
    EightBelowPage(cursor);
    hide PagesAbove;
    var maxPages := PagesAbove(memory.cursor, limit);
    bytes := BitmapBytes(maxPages);
    at := TakeBitmap(memory, bytes);
    first := memory.Finalize();
    if first != 0 { FewerPages(cursor, first, limit); }
    managed := if first == 0 || first >= limit || at == 0 then 0 else (limit - first) / PAGE_SIZE;
  }

  class PageAllocator {
    const bitmap: array<bv8>
    const bitmapAt: nat
    const start: nat
    const end: nat
    const pageCount: nat
    var freeCount: nat
    var nextSearch: nat

    ghost predicate Valid()
      reads this, bitmap
    {
      && pageCount <= 8 * bitmap.Length
      && PoolOk(Model()) && PaddingClear(bitmap[..], pageCount)
      && (if pageCount == 0 then start == end
          else 0 < start < end && start % PAGE_SIZE == 0 && pageCount == (end - start) / PAGE_SIZE)
    }

    ghost function Model(): (r: Pool)
      requires pageCount <= 8 * bitmap.Length
      reads this, bitmap
    {
      Pool(Bits(bitmap[..], pageCount), freeCount, nextSearch)
    }

    method PageBitIsSet(i: nat) returns (r: bool)
      requires i < 8 * bitmap.Length && pageCount <= 8 * bitmap.Length
      ensures i < pageCount ==> r == Bits(bitmap[..], pageCount)[i]
      ensures i >= pageCount && PaddingClear(bitmap[..], pageCount) ==> !r
    {
      hide Mask, PaddingClear, Bits;
      var b := bitmap[i / 8];
      r := b & Mask(i % 8) != 0;
      assert r == Bit(b, i % 8);
      hide Bit;
      if i < pageCount { BitAt(bitmap[..], pageCount, i); }
      if i >= pageCount && PaddingClear(bitmap[..], pageCount) { PaddingAt(bitmap[..], pageCount, i); }
    }

    method PageBitSet(i: nat)
      requires i < pageCount <= 8 * bitmap.Length
      modifies bitmap
      ensures Bits(bitmap[..], pageCount) == old(Bits(bitmap[..], pageCount))[i := true]
      ensures old(PaddingClear(bitmap[..], pageCount)) ==> PaddingClear(bitmap[..], pageCount)
    {
      hide Mask, Bit, Bits, PaddingClear;
      var b := bitmap[i / 8] | Mask(i % 8);
      BitsSet(bitmap[..], pageCount, i, b);
      bitmap[i / 8] := b;
    }

    method PageBitClear(i: nat)
      requires i < pageCount <= 8 * bitmap.Length
      modifies bitmap
      ensures Bits(bitmap[..], pageCount) == old(Bits(bitmap[..], pageCount))[i := false]
      ensures old(PaddingClear(bitmap[..], pageCount)) ==> PaddingClear(bitmap[..], pageCount)
    {
      hide Mask, Bit, Bits, PaddingClear;
      var b := bitmap[i / 8] & !Mask(i % 8);
      BitsCleared(bitmap[..], pageCount, i, b);
      bitmap[i / 8] := b;
    }

    /** pmm_init: the bitmap is taken from early memory, sized for all the pages there could be; the pages
        that are left after it are managed. The bitmap lies below the managed range and has a bit for
        every managed page. When early memory may still use the whole heap, exactly the whole pages behind the
        bitmap are managed. */
    constructor (memory: EarlyMemory)
      requires memory.Valid()
      modifies memory
      ensures Valid() && memory.Valid() && fresh(bitmap)
      ensures Model() == FreshPool(pageCount)
      ensures end == memory.heapLimit
      ensures bitmapAt != 0 ==> old(memory.cursor) <= bitmapAt && (pageCount > 0 ==> bitmapAt + bitmap.Length <= start)
      ensures pageCount > 0 ==>
        && bitmapAt != 0 && pageCount <= 8 * bitmap.Length
        && memory.cursor == memory.allocLimit == start
      ensures old(memory.allocLimit) == memory.heapLimit ==>
        pageCount == PagesManaged(old(memory.cursor), memory.heapLimit)
    {
      hide PoolOk, Bits, Probe, AlignUp, PaddingClear, PagesManaged, PagesAbove, BitmapBytes;
      var limit := memory.heapLimit;
      var at, bytes, first, managed := TakeMemory(memory);
      bitmapAt := at;
      end := limit;
      bitmap := new bv8[bytes](_ => 0);
      start := if managed == 0 then limit else first;
      pageCount, freeCount := managed, managed;
      nextSearch := 0;
      new;
      NothingSet(bitmap[..], pageCount);
      FreshOk(pageCount);
    }

    /** The circular search from the hint. */
    method FindFree() returns (found: Option<nat>)
      requires pageCount <= 8 * bitmap.Length
      ensures found == Probe(Model(), 0)
    {
      hide Bits, Probe, Bit;
      ghost var p := Model();
      var probe: nat := 0;
      while probe < pageCount
        invariant probe <= pageCount && Probe(p, 0) == Probe(p, probe)
      {
        ProbeUnfolds(p, probe);
        var i := (nextSearch + probe) % pageCount;
        var isSet := PageBitIsSet(i);
        if !isSet { return Some(i); }
        probe := probe + 1;
      }
      ProbeUnfolds(p, pageCount);
      return None;
    }

    /** pmm_alloc_page. */
    method AllocPage() returns (page: Option<nat>)
      requires Valid()
      modifies this`freeCount, this`nextSearch, bitmap
      ensures Valid()
      ensures Model() == Alloc(old(Model())).0
      ensures var i := Alloc(old(Model())).1;
        page == if i.Some? then Some(start + i.value * PAGE_SIZE) else None
    {
      hide PoolOk, Bits, Alloc, Probe, AlignUp;
      AllocIsFirstFit(Model());
      AllocUnfolds(Model());
      if freeCount == 0 || pageCount == 0 { return None; }
      var i := FindFree();
      if i.None? { return None; }
      PageBitSet(i.value);
      freeCount := freeCount - 1;
      nextSearch := (i.value + 1) % pageCount;
      return Some(start + i.value * PAGE_SIZE);
    }

    /** The bit read for an address that passes the check lies in the bitmap: always when the managed range
        ends on a page boundary, and otherwise when the bitmap has a bit to spare. */
    ghost predicate ChecksInBitmap()
    {
      end % PAGE_SIZE == 0 || pageCount < 8 * bitmap.Length
    }

    /** pmm_free_page: exactly the start addresses of used pages are taken back; an address in a last partial
        page is refused. */
    method FreePage(address: nat) returns (ok: bool)
      requires Valid() && ChecksInBitmap()
      modifies this`freeCount, this`nextSearch, bitmap
      ensures Valid()
      ensures pageCount == 0 || !Freeable(start, end, address) ==> !ok && Model() == old(Model())
      ensures pageCount > 0 && Freeable(start, end, address) ==>
        var i := (address - start) / PAGE_SIZE;
        && address == start + i * PAGE_SIZE && i <= pageCount
        && (i == pageCount ==> !ok && Model() == old(Model()))
        && (i < pageCount ==> (Model(), ok) == Release(old(Model()), i))
    {
      hide Bits, Bit, PaddingClear;
      if address == 0 || pageCount == 0 || address < start || address >= end || address % PAGE_SIZE != 0 { return false; }
      var i := (address - start) / PAGE_SIZE;
      IndexOf(start, end, address);
      if i < pageCount { ReleaseKeeps(Model(), i); }
      hide PoolOk;
      var isSet := PageBitIsSet(i);
      if !isSet { return false; }
      PageBitClear(i);
      freeCount := freeCount + 1;
      if i < nextSearch { nextSearch := i; }
      return true;
    }

    /** The hypothesis is exact: some address that passes the check has its bit outside the bitmap if and only
        if the range ends in a partial page and the bitmap has no bit to spare. */
    lemma ChecksInBitmapIff()
      requires Valid() && pageCount > 0
      ensures ChecksInBitmap() <==>
        forall a: nat :: Freeable(start, end, a) ==> (a - start) / PAGE_SIZE < 8 * bitmap.Length
    {
      hide PoolOk, Bits, PaddingClear;
      CheckExact(start, end);
      forall a: nat | Freeable(start, end, a) ensures (a - start) / PAGE_SIZE <= pageCount {
        IndexOf(start, end, a);
      }
      if end % PAGE_SIZE != 0 {
        var tail := end - end % PAGE_SIZE;
        assert Freeable(start, end, tail) && (tail - start) / PAGE_SIZE == pageCount;
      }
    }
  }

  /** The page number of a freeable address; the last partial page counts as one more page. */
  lemma IndexOf(start: nat, end: nat, address: nat)
    requires Freeable(start, end, address) && start % PAGE_SIZE == 0
    ensures var i := (address - start) / PAGE_SIZE;
      && address == start + i * PAGE_SIZE && i <= (end - start) / PAGE_SIZE
      && (end % PAGE_SIZE == 0 ==> i < (end - start) / PAGE_SIZE)
  {
  }

  // ----- how many pages there are

  /** Whole pages from the next page boundary up to the limit. */
  function PagesAbove(cursor: nat, limit: nat): (r: nat)
  {
    var aligned := AlignUp(cursor, PAGE_SIZE);
    if aligned >= limit then 0 else (limit - aligned) / PAGE_SIZE
  }

  /** Whole pages behind a bitmap for all of them. */
  function PagesManaged(cursor: nat, limit: nat): (r: nat)
  {
    var pages := PagesAbove(cursor, limit);
    if pages == 0 then 0 else PagesAbove(AlignUp(cursor, 8) + BitmapBytes(pages), limit)
  }

  /** The bitmap always fits below the pages it is for. */
  lemma InitFits(cursor: nat, limit: nat)
    requires 0 < cursor <= limit <= UINT64_RANGE / 2
    ensures var pages := PagesAbove(cursor, limit);
      pages > 0 ==> AlignUp(cursor, 8) + BitmapBytes(pages) <= limit
  {
    EightBelowPage(cursor);
    var aligned := AlignUp(cursor, PAGE_SIZE);
    if aligned < limit { RoomBelow(aligned, limit); }
    hide AlignUp, BitmapBytes;
  }

  lemma RoomBelow(aligned: nat, limit: nat)
    requires aligned < limit
    ensures var pages := (limit - aligned) / PAGE_SIZE;
      aligned + PAGE_SIZE * pages <= limit && (pages > 0 ==> BitmapBytes(pages) <= pages)
  {
  }

  lemma ManagedBehind(cursor: nat, limit: nat)
    ensures var pages := PagesAbove(cursor, limit);
      var first := AlignUp(AlignUp(cursor, 8) + BitmapBytes(pages), PAGE_SIZE);
      PagesManaged(cursor, limit) == if pages == 0 || first >= limit then 0 else (limit - first) / PAGE_SIZE
  {
    hide AlignUp, BitmapBytes;
  }

  lemma FewerPages(cursor: nat, first: nat, limit: nat)
    requires cursor <= first && first % PAGE_SIZE == 0 && cursor <= UINT64_RANGE / 2
    ensures first < limit ==> (limit - first) / PAGE_SIZE <= PagesAbove(cursor, limit) <= 8 * BitmapBytes(PagesAbove(cursor, limit))
  {
    var aligned := AlignUp(cursor, PAGE_SIZE);
    hide AlignUp;
    assert aligned <= first;
  }

  lemma EightBelowPage(cursor: nat)
    requires cursor <= UINT64_RANGE / 2
    ensures AlignUp(cursor, 8) <= AlignUp(cursor, PAGE_SIZE)
  {
    var a := AlignUp(cursor, PAGE_SIZE);
    assert a % 8 == 0 by { assert a == 8 * (512 * (a / PAGE_SIZE)); }
  }

  /** The bitmap costs at most one page more than it fills, so two pages of room leave one to manage. */
  lemma PagesLeft(cursor: nat, limit: nat)
    requires 0 < cursor <= limit <= UINT64_RANGE / 2
    ensures var pages := PagesAbove(cursor, limit);
      && PagesManaged(cursor, limit) + BitmapBytes(pages) / PAGE_SIZE + 1 >= pages
      && (pages >= 2 ==> PagesManaged(cursor, limit) > 0)
  {
    var pages := PagesAbove(cursor, limit);
    EightBelowPage(cursor);
    if pages > 0 {
      var block, aligned := AlignUp(cursor, 8), AlignUp(cursor, PAGE_SIZE);
      var bytes := BitmapBytes(pages);
      var first := AlignUp(block + bytes, PAGE_SIZE);
      hide AlignUp;
      PagesCovered(aligned, block, bytes, first);
      assert aligned + PAGE_SIZE * pages <= limit;
    }
  }

  /** Eight pages and one byte above a bitmap of one byte, which lies in the gap below them: all its bits are
      taken, and the address of the byte left over passes the check with a bit outside the bitmap. */
  lemma NoBitToSpare()
    ensures PagesManaged(4097, 40961) == 8 && BitmapBytes(PagesAbove(4097, 40961)) == 1
    ensures Freeable(8192, 40961, 40960) && (40960 - 8192) / PAGE_SIZE == 8
  {
    assert AlignUp(4097, PAGE_SIZE) == 8192 && AlignUp(4097, 8) == 4104;
    assert AlignUp(4105, PAGE_SIZE) == 8192;
  }

  lemma PagesCovered(aligned: nat, block: nat, bytes: nat, first: nat)
    requires block <= aligned && aligned % PAGE_SIZE == 0 && first % PAGE_SIZE == 0 && first < block + bytes + PAGE_SIZE
    ensures first <= aligned + PAGE_SIZE * (bytes / PAGE_SIZE + 1)
  {
  }

  lemma EightIsPower()
    ensures PowerOfTwo(8)
  {
    assert PowerOfTwo(1) && PowerOfTwo(2) && PowerOfTwo(4);
  }

  lemma NothingSet(bitmap: seq<bv8>, n: nat)
    requires n <= 8 * |bitmap| && forall k :: 0 <= k < |bitmap| ==> bitmap[k] == 0
    ensures Bits(bitmap, n) == seq(n, _ => false) && PaddingClear(bitmap, n)
  {
    NoBits();
    hide Bit;
  }

  lemma NoBits()
    ensures forall k: nat :: k < 8 ==> !Bit(0, k)
  {
  }
}
