/** The user address space a program is loaded into: mapped regions, each showing a zero-filled object
    that is written page by page. */
module UserSpace {
  import opened Common
  import opened ExecModel

  datatype VmRegion = VmRegion(vaddr: nat, prot: Prot, pages: array<Byte>)

  /** The object's pages after writing: the bytes from `from` on replaced. */
  function Written(before: seq<Byte>, from: nat, bytes: seq<Byte>): (r: seq<Byte>)
    requires from + |bytes| <= |before|
    ensures |r| == |before|
  {
    before[..from] + bytes + before[from + |bytes|..]
  }

  /** write_object_bytes: page by page, byte by byte within a page. */
  method WriteObjectBytes(pages: array<Byte>, offset: nat, source: seq<Byte>, from: nat, length: nat)
    requires offset + length <= pages.Length && from + length <= |source|
    modifies pages
    ensures pages[..] == Written(old(pages[..]), offset, source[from..from + length])
  {
    hide Written, PageDown;
    var copied: nat := 0;
    WrittenNone(pages[..], offset);
    assert source[from..from] == [];
    while copied < length
      invariant copied <= length
      invariant pages[..] == Written(old(pages[..]), offset, source[from..from + copied])
    {
      var byteOffset := offset + copied;
      var pageOffset := PageDown(byteOffset);
      var remain := PAGE - (byteOffset - pageOffset);
      var chunk := if length - copied < remain then length - copied else remain;
      assert chunk > 0;
      var i: nat := 0;
      while i < chunk
        invariant i <= chunk && copied + chunk <= length && byteOffset == offset + copied
        invariant pages[..] == Written(old(pages[..]), offset, source[from..from + (copied + i)])
      {
        var at := copied + i;
        WrittenNext(old(pages[..]), offset, source, from, at);
        pages[byteOffset + i] := source[from + at];
        i := i + 1;
      }
      copied := copied + chunk;
    }
  }

  lemma WrittenNone(before: seq<Byte>, offset: nat)
    requires offset <= |before|
    ensures Written(before, offset, []) == before
  {
  }

  lemma WrittenNext(before: seq<Byte>, offset: nat, source: seq<Byte>, from: nat, at: nat)
    requires offset + at < |before| && from + at < |source|
    ensures Written(before, offset, source[from..from + (at + 1)]) ==
      Written(before, offset, source[from..from + at])[offset + at := source[from + at]]
  {
  }

  class AddressSpace {
    const limit: nat
    var regions: seq<VmRegion>

    ghost function Objects(): (r: set<object>)
      reads this
    {
      set k | 0 <= k < |regions| :: regions[k].pages
    }

    ghost function Shown(k: nat): (r: Region)
      requires k < |regions|
      reads this, regions[k].pages
    {
      Region(regions[k].vaddr, regions[k].prot, regions[k].pages[..])
    }

    ghost function Model(): (r: seq<Region>)
      reads this, Objects()
      ensures |r| == |regions| && forall k :: 0 <= k < |r| ==> r[k] == Shown(k)
    {
      seq(|regions|, k requires 0 <= k < |regions| reads this, Objects() => Shown(k))
    }

    ghost predicate Valid()
      reads this
    {
      && limit + PAGE <= UINT64_RANGE
      && forall j, k :: 0 <= j < k < |regions| ==> regions[j].pages != regions[k].pages
    }

    constructor (userLimit: nat)
      requires userLimit + PAGE <= UINT64_RANGE
      ensures Valid() && limit == userLimit && Model() == []
    {
      limit := userLimit;
      regions := [];
    }

    method MeetsNone(vaddr: nat, length: nat) returns (clear: bool)
      ensures clear <==> forall i :: 0 <= i < |Model()| ==> !Overlaps(Model()[i], vaddr, length)
    {
      var i: nat := 0;
      while i < |regions|
        invariant i <= |regions| && forall k :: 0 <= k < i ==> !Overlaps(Model()[k], vaddr, length)
      {
        var r := regions[i];
        if vaddr < r.vaddr + r.pages.Length && r.vaddr < vaddr + length {
          assert Overlaps(Model()[i], vaddr, length);
          return false;
        }
        i := i + 1;
      }
      return true;
    }

    /** map_fixed: a new zero-filled region, or refusal with nothing changed. */
    method MapFixed(vaddr: nat, length: nat, prot: Prot) returns (ok: bool, pages: array<Byte>)
      requires Valid()
      modifies this
      ensures Valid() && fresh(pages) && pages.Length == length
      ensures ok == MayMap(limit, old(Model()), vaddr, length, prot)
      ensures regions == if ok then old(regions) + [VmRegion(vaddr, prot, pages)] else old(regions)
      ensures Model() == if ok then old(Model()) + [Region(vaddr, prot, pages[..])] else old(Model())
      ensures forall k :: 0 <= k < length ==> pages[k] == 0
    {
      pages := new Byte[length](_ => 0);
      ghost var before := Model();
      assert before == old(Model());
      if |regions| >= MAX_REGIONS || vaddr == 0 || length == 0 || vaddr % PAGE != 0 || length % PAGE != 0
        || vaddr >= limit || length > limit - vaddr || !(prot.read || prot.write || prot.exec)
      {
        return false, pages;
      }
      var clear := MeetsNone(vaddr, length);
      if !clear { return false, pages; }
      assert Model() == before;
      assert MayMap(limit, before, vaddr, length, prot);
      regions := regions + [VmRegion(vaddr, prot, pages)];
      assert Model() == old(Model()) + [Region(vaddr, prot, pages[..])];
      return true, pages;
    }
  }
}
