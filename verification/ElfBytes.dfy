/** What an accepted plan says, told on the bytes of its image. */
module ElfBytes {
  import opened Common
  import opened LittleEndian
  import opened ElfModel
  import opened ElfPlans

  // ----- positions in the image

  function TableStart(image: Image): (r: nat)
    requires |image| >= 64
  {
    Le(image[32..40])
  }

  function EntrySize(image: Image): (r: nat)
    requires |image| >= 64
  {
    Le(image[54..56])
  }

  function EntryCount(image: Image): (r: nat)
    requires |image| >= 64
  {
    Le(image[56..58])
  }

  /** The position of the k-th program header. */
  function Place(image: Image, k: nat): (r: nat)
    requires |image| >= 64
  {
    TableStart(image) + k * EntrySize(image)
  }

  /** Entry k lies in the image and is of this kind. */
  predicate EntryOf(image: Image, kind: nat, k: nat)
    requires |image| >= 64
  {
    && k < EntryCount(image) && Place(image, k) + 56 <= |image|
    && Le(image[Place(image, k)..Place(image, k) + 4]) == kind
  }

  /** Segment s is what the program header at position a describes. */
  predicate SegmentAt(image: Image, a: nat, bias: nat, s: Segment)
    requires a + 56 <= |image|
  {
    && s.flags == Le(image[a + 4..a + 8])
    && s.offset == Le(image[a + 8..a + 16])
    && s.vaddr == Le(image[a + 16..a + 24]) + bias
    && s.filesz == Le(image[a + 32..a + 40])
    && s.memsz == Le(image[a + 40..a + 48])
  }

  // ----- the header

  /** What the loader demands of the first 64 bytes. */
  predicate HeaderInOrder(image: Image)
  {
    && |image| >= 64
    && image[0] == 0x7f && image[1] == 0x45 && image[2] == 0x4c && image[3] == 0x46
    && image[4] == 2 && image[5] == 1
    && Le(image[18..20]) == 243
    && (Le(image[16..18]) == 2 || Le(image[16..18]) == 3)
    && EntrySize(image) >= 56
    && TableStart(image) + EntrySize(image) * EntryCount(image) <= |image|
    && Le(image[24..32]) + (if Le(image[16..18]) == 3 then 0x4000_0000 else 0) < UINT64_RANGE
  }

  lemma HeaderAcceptedIff(image: Image)
    ensures HeaderVerdict(image) == Accepted <==> HeaderInOrder(image)
  {
    hide Le;
    if |image| >= 64 {
      assert image[..4] == [image[0], image[1], image[2], image[3]];
      assert TableOf(image).offset == TableStart(image);
    }
  }

  /** The scalar part of an accepted plan. */
  lemma PlanHeader(image: Image, argc: nat, envc: nat)
    requires BuildPlan(image, argc, envc).1 == Accepted
    ensures |image| >= 64
    ensures var plan := BuildPlan(image, argc, envc).0;
      && plan.elfType == Le(image[16..18])
      && plan.loadBias == (if plan.elfType == 3 then 0x4000_0000 else 0)
      && plan.entry == Le(image[24..32]) + plan.loadBias
      && plan.phnum == EntryCount(image)
      && plan.stackTop == 0x7000_0000 && plan.argvCount == argc && plan.envpCount == envc && plan.auxvCount == 12
      && plan.interpLoadBias == 0 && plan.interpEntry == 0
  {
    hide Loads, PhdrAfter, AllSound, InterpAfter, TakeUpTo, Le;
    AcceptedIff(image, argc, envc);
  }

  // ----- the segments

  ghost predicate Ascending(ks: seq<nat>)
  {
    forall i, j :: 0 <= i < j < |ks| ==> ks[i] < ks[j]
  }

  lemma EntryBytes(image: Image, k: nat)
    requires HeaderInOrder(image) && k < EntryCount(image)
    ensures TableInside(image, TableOf(image)) && k < TableOf(image).count
    ensures var a := Place(image, k);
      && a == EntryAt(image, TableOf(image), k) && a + 56 <= |image|
      && var h := HeaderAt(image, TableOf(image), k);
      && h.kind == Le(image[a..a + 4]) && h.flags == Le(image[a + 4..a + 8])
      && h.offset == Le(image[a + 8..a + 16]) && h.vaddr == Le(image[a + 16..a + 24])
      && h.filesz == Le(image[a + 32..a + 40]) && h.memsz == Le(image[a + 40..a + 48])
  {
    hide Le;
  }

  /** The first k entries' PT_LOADs, by their place in the table, and the segments they describe. */
  lemma {:induction false} LoadEntries(image: Image, bias: nat, k: nat) returns (ks: seq<nat>)
    requires HeaderInOrder(image) && k <= EntryCount(image)
    ensures TableInside(image, TableOf(image)) && k <= TableOf(image).count
    ensures Ascending(ks) && |ks| == |Loads(image, TableOf(image), bias, k)|
    ensures forall j: nat :: j in ks <==> j < k && EntryOf(image, 1, j)
    ensures forall i :: 0 <= i < |ks| ==>
      Place(image, ks[i]) + 56 <= |image|
      && SegmentAt(image, Place(image, ks[i]), bias, Loads(image, TableOf(image), bias, k)[i])
  {
    hide Le, Place, HeaderAt, HeaderInOrder, EntryCount;
    HeaderAcceptedIff(image);
    ks := [];
    if k > 0 {
      var before := LoadEntries(image, bias, k - 1);
      EntryBytes(image, k - 1);
      assert forall i :: 0 <= i < |before| ==> before[i] in before;
      ks := before + if HeaderAt(image, TableOf(image), k - 1).kind == PT_LOAD then [k - 1] else [];
    }
  }

  /** The segments are the PT_LOAD entries in table order: segment i is what the bytes of the i-th say. */
  ghost predicate SegmentsFrom(image: Image, bias: nat, segments: seq<Segment>, ks: seq<nat>)
    requires |image| >= 64
  {
    && Ascending(ks) && |ks| == |segments|
    && (forall j: nat :: j in ks <==> EntryOf(image, 1, j))
    && (forall i :: 0 <= i < |ks| ==>
          Place(image, ks[i]) + 56 <= |image| && SegmentAt(image, Place(image, ks[i]), bias, segments[i]))
  }

  lemma PlanSegments(image: Image, argc: nat, envc: nat)
    requires BuildPlan(image, argc, envc).1 == Accepted
    ensures |image| >= 64
    ensures var plan := BuildPlan(image, argc, envc).0;
      exists ks: seq<nat> :: SegmentsFrom(image, plan.loadBias, plan.segments, ks)
  {
    hide Le, HeaderInOrder, Loads, AllSound, TakeUpTo;
    HeaderAcceptedIff(image);
    AcceptedPlan(image, argc, envc);
    var plan := BuildPlan(image, argc, envc).0;
    var ks := LoadEntries(image, plan.loadBias, EntryCount(image));
    assert SegmentsFrom(image, plan.loadBias, plan.segments, ks);
  }

  // ----- the interpreter

  /** Entry k is a PT_INTERP whose file bytes begin with this path and a NUL. */
  predicate PathIn(image: Image, k: nat, path: seq<Byte>)
    requires |image| >= 64
  {
    && EntryOf(image, 3, k)
    && var a := Place(image, k);
       var at := Le(image[a + 8..a + 16]);
    && |path| < Le(image[a + 32..a + 40]) && at + |path| < |image|
    && image[at..at + |path|] == path && image[at + |path|] == 0 && 0 !in path
  }

  ghost predicate LastOf(image: Image, kind: nat, k: nat, count: nat)
    requires |image| >= 64
  {
    k < count && EntryOf(image, kind, k) && forall j :: k < j < count ==> !EntryOf(image, kind, j)
  }

  /** The entry at k as InterpAfter reads it. */
  lemma InterpNext(image: Image, bias: nat, k: nat)
    requires HeaderInOrder(image) && k < EntryCount(image)
    requires TableInside(image, TableOf(image)) && k < TableOf(image).count && Sound(image, TableOf(image), bias, k)
    ensures var path := InterpAfter(image, TableOf(image), k + 1);
      if EntryOf(image, 3, k) then path.Some? && PathIn(image, k, path.value)
      else path == InterpAfter(image, TableOf(image), k)
  {
    hide Le, HeaderInOrder;
    EntryBytes(image, k);
  }

  lemma {:induction false} InterpEntry(image: Image, bias: nat, k: nat)
    requires HeaderInOrder(image) && k <= EntryCount(image)
    requires TableInside(image, TableOf(image)) && k <= TableOf(image).count
    requires AllSound(image, TableOf(image), bias, k)
    ensures var path := InterpAfter(image, TableOf(image), k);
      if path.None? then forall j :: 0 <= j < k ==> !EntryOf(image, 3, j)
      else exists j: nat :: LastOf(image, 3, j, k) && PathIn(image, j, path.value)
  {
    hide Le, Place, EntryCount, EntrySize, TableStart, PathIn, EntryOf, Sound, HeaderAt, TableInside;
    if k > 0 {
      hide InterpAfter;
      InterpEntry(image, bias, k - 1);
      InterpNext(image, bias, k - 1);
      var path := InterpAfter(image, TableOf(image), k);
      if EntryOf(image, 3, k - 1) {
        assert LastOf(image, 3, k - 1, k);
      } else if path.Some? {
        var j: nat :| LastOf(image, 3, j, k - 1) && PathIn(image, j, path.value);
        assert LastOf(image, 3, j, k);
      }
    }
  }

  /** An accepted plan asks for the interpreter the last PT_INTERP names, and for none without one. */
  lemma PlanInterp(image: Image, argc: nat, envc: nat)
    requires BuildPlan(image, argc, envc).1 == Accepted
    ensures |image| >= 64
    ensures var plan := BuildPlan(image, argc, envc).0;
      if plan.requiresInterp then
        && 0 < |plan.interpPath| < 128
        && exists j: nat :: LastOf(image, 3, j, EntryCount(image)) && PathIn(image, j, plan.interpPath)
      else plan.interpPath == [] && forall j :: 0 <= j < EntryCount(image) ==> !EntryOf(image, 3, j)
  {
    hide Le, HeaderInOrder, Loads, AllSound, TakeUpTo, InterpAfter, LastOf, PathIn;
    HeaderAcceptedIff(image);
    AcceptedIff(image, argc, envc);
    InterpShape(image, TableOf(image), EntryCount(image));
    InterpEntry(image, BuildPlan(image, argc, envc).0.loadBias, EntryCount(image));
  }

  // ----- the program headers' own address

  /** Entry k is a PT_PHDR that puts the table at v. */
  predicate PhdrSays(image: Image, bias: nat, k: nat, v: nat)
    requires |image| >= 64
  {
    EntryOf(image, 6, k) && v == Le(image[Place(image, k) + 16..Place(image, k) + 24]) + bias
  }

  /** Entry k is a PT_LOAD whose file bytes hold the table, which then stands at v. */
  predicate LoadHolds(image: Image, bias: nat, k: nat, v: nat)
    requires |image| >= 64
  {
    && EntryOf(image, 1, k)
    && var a := Place(image, k);
       var at := Le(image[a + 8..a + 16]);
    && at <= TableStart(image)
    && TableStart(image) + EntrySize(image) * EntryCount(image) <= at + Le(image[a + 32..a + 40])
    && v == Le(image[a + 16..a + 24]) + (TableStart(image) - at) + bias
  }

  /** No PT_LOAD among the first k entries puts the table at a nonzero address. */
  ghost predicate NoneHolds(image: Image, bias: nat, k: nat)
    requires |image| >= 64
  {
    forall j, v :: 0 <= j < k && LoadHolds(image, bias, j, v) ==> v == 0
  }

  /** The entry at k as PhdrAfter reads it. */
  lemma PhdrNext(image: Image, bias: nat, k: nat)
    requires HeaderInOrder(image) && k < EntryCount(image)
    ensures TableInside(image, TableOf(image)) && k < TableOf(image).count
    ensures var before := PhdrAfter(image, TableOf(image), bias, k);
      var v := PhdrAfter(image, TableOf(image), bias, k + 1);
      && (EntryOf(image, 6, k) ==> PhdrSays(image, bias, k, v))
      && (!EntryOf(image, 6, k) && before != 0 ==> v == before)
      && (!EntryOf(image, 6, k) && before == 0 ==>
            (v != 0 ==> LoadHolds(image, bias, k, v)) && forall w :: LoadHolds(image, bias, k, w) ==> w == v)
  {
    hide Le;
    EntryBytes(image, k);
  }

  /** The last PT_PHDR decides, unless its address is 0. */
  lemma {:induction false} PhdrLast(image: Image, bias: nat, k: nat, j: nat, w: nat)
    requires HeaderInOrder(image) && k <= EntryCount(image)
    requires LastOf(image, 6, j, k) && PhdrSays(image, bias, j, w) && w != 0
    ensures TableInside(image, TableOf(image)) && PhdrAfter(image, TableOf(image), bias, k) == w
  {
    hide PhdrAfter, HeaderInOrder, EntryCount, Place;
    PhdrNext(image, bias, k - 1);
    if j < k - 1 { PhdrLast(image, bias, k - 1, j, w); }
  }

  /** Without a PT_PHDR the first PT_LOAD that holds the table decides; 0 if there is none. */
  lemma {:induction false} PhdrDerived(image: Image, bias: nat, k: nat)
    requires HeaderInOrder(image) && k <= EntryCount(image)
    requires forall j :: 0 <= j < k ==> !EntryOf(image, 6, j)
    ensures TableInside(image, TableOf(image)) && k <= TableOf(image).count
    ensures var v := PhdrAfter(image, TableOf(image), bias, k);
      if v == 0 then NoneHolds(image, bias, k)
      else exists j :: 0 <= j < k && LoadHolds(image, bias, j, v) && NoneHolds(image, bias, j)
  {
    hide Le, HeaderInOrder, EntryCount, Place, EntryOf, LoadHolds;
    HeaderAcceptedIff(image);
    if k > 0 {
      hide PhdrAfter;
      PhdrDerived(image, bias, k - 1);
      PhdrNext(image, bias, k - 1);
    }
  }

  /** The table's address in an accepted plan, from the bytes of the entries; an address of 0 counts as
      not given. */
  lemma PlanPhdr(image: Image, argc: nat, envc: nat)
    requires BuildPlan(image, argc, envc).1 == Accepted
    ensures |image| >= 64
    ensures var plan := BuildPlan(image, argc, envc).0;
      var n := EntryCount(image);
      && (forall j: nat, w :: LastOf(image, 6, j, n) && PhdrSays(image, plan.loadBias, j, w) && w != 0 ==>
            plan.phdrVaddr == w)
      && ((forall j :: 0 <= j < n ==> !EntryOf(image, 6, j)) ==>
            if plan.phdrVaddr == 0 then NoneHolds(image, plan.loadBias, n)
            else exists j :: 0 <= j < n && LoadHolds(image, plan.loadBias, j, plan.phdrVaddr)
                             && NoneHolds(image, plan.loadBias, j))
  {
    hide Le, HeaderInOrder, Loads, AllSound, TakeUpTo, InterpAfter, PhdrAfter, LastOf, PhdrSays, NoneHolds;
    HeaderAcceptedIff(image);
    AcceptedIff(image, argc, envc);
    var bias := BuildPlan(image, argc, envc).0.loadBias;
    var n := EntryCount(image);
    forall j: nat, w | LastOf(image, 6, j, n) && PhdrSays(image, bias, j, w) && w != 0
      ensures PhdrAfter(image, TableOf(image), bias, n) == w
    {
      PhdrLast(image, bias, n, j, w);
    }
    if forall j :: 0 <= j < n ==> !EntryOf(image, 6, j) { PhdrDerived(image, bias, n); }
  }

  // ----- refusals

  /** A path of n bytes and its terminator stand at `at`. */
  predicate PathEnds(image: Image, at: nat, n: nat)
  {
    at + n < |image| && image[at + n] == 0 && 0 !in image[at..at + n]
  }

  /** No path of 1 to 127 bytes and its terminator begin these file bytes. */
  ghost predicate NoPath(image: Image, at: nat, size: nat)
  {
    forall n: nat :: 0 < n < 128 && n < size ==> !PathEnds(image, at, n)
  }

  /** What is wrong with entry k when `loads` PT_LOADs came before it and the table's address is `before`. */
  ghost predicate Faulty(image: Image, bias: nat, loads: nat, before: nat, k: nat, v: Verdict)
    requires |image| >= 64 && Place(image, k) + 56 <= |image|
  {
    var a := Place(image, k);
    var offset, vaddr := Le(image[a + 8..a + 16]), Le(image[a + 16..a + 24]);
    var filesz, memsz := Le(image[a + 32..a + 40]), Le(image[a + 40..a + 48]);
    match v
    case TooManySegments => EntryOf(image, 1, k) && loads >= 8
    case BadLoadSegment => EntryOf(image, 1, k) && loads < 8 && (filesz > memsz || offset + filesz > |image|)
    case BadSegmentAddress => EntryOf(image, 1, k) && loads < 8 && filesz <= memsz && vaddr + bias >= UINT64_RANGE
    case BadPhdrAddress =>
      (EntryOf(image, 6, k) && vaddr + bias >= UINT64_RANGE)
      || (vaddr + bias < UINT64_RANGE && before == 0 && exists w :: w >= UINT64_RANGE && LoadHolds(image, bias, k, w))
    case BadInterpSegment => EntryOf(image, 3, k) && offset + filesz > |image|
    case InterpTooLong => EntryOf(image, 3, k) && offset + filesz <= |image| && NoPath(image, offset, filesz)
    case _ => false
  }

  lemma PathMissing(image: Image, at: nat, size: nat)
    requires at + size <= |image| && InterpPath(image[at..at + size]).None?
    ensures NoPath(image, at, size)
  {
    var bytes := image[at..at + size];
    forall n: nat | 0 < n < 128 && n < size ensures !PathEnds(image, at, n) {
      var m := NulAt(bytes, 0);
      assert bytes[n] == image[at + n];
      if m < n { assert image[at..at + n][m] == bytes[m]; }
    }
  }

  /** An entry that is not taken is at fault. */
  lemma TakeFaults(image: Image, plan: Plan, k: nat)
    requires HeaderInOrder(image) && k < EntryCount(image)
    ensures TableInside(image, TableOf(image)) && k < TableOf(image).count && Place(image, k) + 56 <= |image|
    ensures var v := Take(image, TableOf(image), plan, HeaderAt(image, TableOf(image), k)).1;
      v != Accepted ==> Faulty(image, plan.loadBias, |plan.segments|, plan.phdrVaddr, k, v)
  {
    hide Le, Place, EntryCount, EntrySize, TableStart, InterpPath;
    EntryBytes(image, k);
    var t := TableOf(image);
    var h := HeaderAt(image, t, k);
    assert EntryOf(image, h.kind, k);
    var v := Take(image, t, plan, h).1;
    if v == InterpTooLong { PathMissing(image, h.offset, h.filesz); }
    if v == BadPhdrAddress && h.kind == PT_LOAD { HoldsAt(image, plan.loadBias, k); }
  }

  lemma HoldsAt(image: Image, bias: nat, k: nat)
    requires HeaderInOrder(image) && k < EntryCount(image)
    ensures TableInside(image, TableOf(image)) && k < TableOf(image).count
    ensures var h := HeaderAt(image, TableOf(image), k);
      h.kind == PT_LOAD && HoldsTable(h, TableOf(image)) ==>
        LoadHolds(image, bias, k, h.vaddr + (TableOf(image).offset - h.offset) + bias)
  {
    hide Le;
    EntryBytes(image, k);
  }

  /** Entry k is the first that is not in order, and v says what is wrong with it. */
  ghost predicate FirstFault(image: Image, bias: nat, k: nat, v: Verdict)
    requires HeaderInOrder(image) && TableInside(image, TableOf(image))
  {
    && k < EntryCount(image) == TableOf(image).count && Place(image, k) + 56 <= |image|
    && AllSound(image, TableOf(image), bias, k) && |Loads(image, TableOf(image), bias, k)| <= 8
    && Faulty(image, bias, |Loads(image, TableOf(image), bias, k)|, PhdrAfter(image, TableOf(image), bias, k), k, v)
  }

  lemma {:induction false} TableFault(image: Image, start: Plan, k: nat)
    requires HeaderInOrder(image) && k <= EntryCount(image)
    requires TableInside(image, TableOf(image)) && EntryCount(image) == TableOf(image).count
    requires start.segments == [] && start.phdrVaddr == 0 && !start.requiresInterp && start.interpPath == []
    ensures var v := TakeUpTo(image, TableOf(image), start, k).1;
      v != Accepted ==> exists j: nat :: FirstFault(image, start.loadBias, j, v)
    decreases k
  {
    hide Le, Place, EntryCount, EntrySize, TableStart, HeaderAt, Take, Faulty, Sound, Loads, AllSound, TableInside, InterpAfter, PhdrAfter;
    if k > 0 {
      var t := TableOf(image);
      var (plan, before) := TakeUpTo(image, t, start, k - 1);
      TableFault(image, start, k - 1);
      if before == Accepted {
        TableAccepted(image, t, start, k - 1);
        TakeFaults(image, plan, k - 1);
        var v := TakeUpTo(image, t, start, k).1;
        if v != Accepted { assert FirstFault(image, start.loadBias, k - 1, v); }
      }
    }
  }

  /** With a header in order, an image is refused for its first entry that is not, or for having no PT_LOAD. */
  lemma RefusedFor(image: Image, argc: nat, envc: nat)
    requires HeaderInOrder(image)
    ensures TableInside(image, TableOf(image))
    ensures var (plan, v) := BuildPlan(image, argc, envc);
      v != Accepted ==>
        (exists j: nat :: FirstFault(image, plan.loadBias, j, v))
        || (v == NoLoadSegments && forall j :: 0 <= j < EntryCount(image) ==> !EntryOf(image, 1, j))
  {
    hide Le, TakeUpTo, FirstFault, EntryOf, Loads;
    HeaderAcceptedIff(image);
    var start := Started(image, argc, envc);
    var t := TableOf(image);
    TableFault(image, start, t.count);
    TableAccepted(image, t, start, t.count);
    var ks := LoadEntries(image, start.loadBias, t.count);
    BiasStays(image, t, start, t.count);
  }

  lemma {:induction false} BiasStays(image: Image, t: Table, start: Plan, k: nat)
    requires TableInside(image, t) && k <= t.count
    ensures TakeUpTo(image, t, start, k).0.loadBias == start.loadBias
    decreases k
  {
    if k > 0 {
      hide HeaderAt, InterpPath;
      BiasStays(image, t, start, k - 1);
    }
  }

  /** Which error a bad header is refused for: the first check that fails. */
  lemma HeaderFault(image: Image)
    ensures var v := HeaderVerdict(image);
      && (v == BadHeader <==> |image| < 64)
      && (|image| >= 64 ==>
            var magic := image[0] == 0x7f && image[1] == 0x45 && image[2] == 0x4c && image[3] == 0x46;
            var form := image[4] == 2 && image[5] == 1;
            var machine := Le(image[18..20]) == 243;
            var kind := Le(image[16..18]) == 2 || Le(image[16..18]) == 3;
            var entries := EntrySize(image) >= 56;
            var inside := TableStart(image) + EntrySize(image) * EntryCount(image) <= |image|;
            && (v == BadMagic <==> !magic)
            && (v == UnsupportedClass <==> magic && !form)
            && (v == UnsupportedMachine <==> magic && form && !machine)
            && (v == UnsupportedType <==> magic && form && machine && !kind)
            && (v == BadPhentsize <==> magic && form && machine && kind && !entries)
            && (v == BadProgramHeaders <==> magic && form && machine && kind && entries && !inside)
            && (v == BadEntry <==> magic && form && machine && kind && entries && inside && !HeaderInOrder(image)))
  {
    hide Le;
    if |image| >= 64 {
      assert image[..4] == [image[0], image[1], image[2], image[3]];
    }
  }
}
