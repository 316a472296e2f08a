/** Building the initial stack: a cursor moves down from the top, writing strings, random bytes and words. */
module StackBuilder {
  import opened Common
  import LittleEndian
  import opened ElfModel
  import opened ExecModel
  import opened UserSpace
  import opened StackModel
  import opened StackReader

  /** A stack written down to some height: nothing but zeros below it. */
  function Tower(low: nat, high: seq<Byte>): (r: seq<Byte>)
    ensures |r| == low + |high|
  {
    Zeros(low) + high
  }

  lemma TowerGrows(low: nat, high: seq<Byte>, bytes: seq<Byte>)
    requires |bytes| <= low
    ensures Written(Tower(low, high), low - |bytes|, bytes) == Tower(low - |bytes|, bytes + high)
  {
  }

  /** Writing `bytes` just below what is written already. */
  method WriteBelow(pages: array<Byte>, low: nat, bytes: seq<Byte>, ghost high: seq<Byte>)
    requires |bytes| <= low && pages[..] == Tower(low, high)
    modifies pages
    ensures pages[..] == Tower(low - |bytes|, bytes + high)
  {
    hide Tower, Written;
    WriteObjectBytes(pages, low - |bytes|, bytes, 0, |bytes|);
    assert bytes[0..0 + |bytes|] == bytes;
    TowerGrows(low, high, bytes);
  }

  /** push_u64: one word below the cursor. */
  method PushU64(pages: array<Byte>, low: nat, value: nat, ghost high: seq<Byte>) returns (ok: bool, cursor: nat)
    requires pages[..] == Tower(low, high)
    modifies pages
    ensures ok == (low >= 8)
    ensures cursor == if ok then low - 8 else low
    ensures pages[..] == if ok then Tower(low - 8, LittleEndian.ToLe(value, 8) + high) else old(pages[..])
  {
    if low < 8 { return false, low; }
    var word := LittleEndian.WordBytes(value);
    WriteBelow(pages, low, word, high);
    return true, low - 8;
  }

  /** Pushing words from the last to the first leaves them in order. */
  method PushWords(pages: array<Byte>, start: nat, words: seq<nat>, ghost high: seq<Byte>) returns (cursor: nat)
    requires pages[..] == Tower(start, high) && 8 * |words| <= start
    modifies pages
    ensures cursor == start - 8 * |words|
    ensures pages[..] == Tower(cursor, FrameBytes(words) + high)
  {
    hide Tower;
    cursor := start;
    var i: nat := |words|;
    ghost var written := high;
    assert FrameBytes([]) + high == high;
    while i > 0
      invariant i <= |words| && cursor == start - 8 * (|words| - i)
      invariant written == FrameBytes(words[i..]) + high && pages[..] == Tower(cursor, written)
    {
      var ok, lower := PushU64(pages, cursor, words[i - 1], written);
      FrameStep(words, i - 1, high);
      written := LittleEndian.ToLe(words[i - 1], 8) + written;
      i, cursor := i - 1, lower;
    }
    assert words[0..] == words;
  }

  lemma FrameStep(words: seq<nat>, i: nat, high: seq<Byte>)
    requires i < |words|
    ensures LittleEndian.ToLe(words[i], 8) + (FrameBytes(words[i + 1..]) + high) == FrameBytes(words[i..]) + high
  {
    assert words[i..][1..] == words[i + 1..] && words[i..][0] == words[i];
  }

  lemma StringsStep(argv: seq<CString>, i: nat)
    requires i < |argv|
    ensures Strings(argv[i..]) == argv[i] + [0] + Strings(argv[i + 1..])
    ensures |Strings(argv[i..])| <= |Strings(argv)|
  {
    assert argv[i..][1..] == argv[i + 1..] && argv[i..][0] == argv[i];
    SuffixSize(argv, i);
  }

  /** The strings, last argument first; stops when one does not fit. */
  method PushStrings(pages: array<Byte>, base: nat, argv: seq<CString>) returns (ok: bool, cursor: nat, addrs: seq<nat>)
    requires pages.Length == STACK_SIZE && pages[..] == Zeros(STACK_SIZE)
    modifies pages
    ensures ok == (|Strings(argv)| <= STACK_SIZE)
    ensures ok ==>
      && cursor == STACK_SIZE - |Strings(argv)| && addrs == Pointers(argv, base + STACK_SIZE)
      && pages[..] == Tower(cursor, Strings(argv))
  {
    hide Strings;
    cursor, addrs := STACK_SIZE, [];
    var i: nat := |argv|;
    assert argv[i..] == [];
    assert Strings([]) == [] by { NoStrings(); }
    assert Tower(STACK_SIZE, []) == Zeros(STACK_SIZE);
    hide Tower;
    while i > 0
      invariant i <= |argv| && |Strings(argv[i..])| <= STACK_SIZE && cursor == STACK_SIZE - |Strings(argv[i..])|
      invariant |addrs| == |argv| - i
      invariant forall k :: 0 <= k < |addrs| ==> addrs[k] == StringAt(argv, base + STACK_SIZE, i + k)
      invariant pages[..] == Tower(cursor, Strings(argv[i..]))
    {
      var length := |argv[i - 1]| + 1;
      StringsStep(argv, i - 1);
      if length > cursor { return false, cursor, addrs; }
      WriteBelow(pages, cursor, argv[i - 1] + [0], Strings(argv[i..]));
      cursor := cursor - length;
      addrs := [base + cursor] + addrs;
      i := i - 1;
    }
    assert argv[0..] == argv;
    return true, cursor, addrs;
  }

  lemma NoStrings()
    ensures Strings([]) == []
  {
  }

  method RandomBytes() returns (bytes: seq<Byte>)
    ensures bytes == Random()
  {
    bytes := [];
    var i: nat := 0;
    while i < 16
      invariant i <= 16 && bytes == Random()[..i]
    {
      bytes := bytes + [(0x5a + i * 17 % 256) % 256];
      i := i + 1;
    }
  }

  method AuxValues(plan: Plan, random: nat) returns (values: seq<nat>)
    ensures values == AuxWords(plan, random)
  {
    values := [AT_PHDR, plan.phdrVaddr, AT_PHENT, PHENTSIZE, AT_PHNUM, plan.phnum, AT_PAGESZ, PAGE];
    if plan.requiresInterp { values := values + [AT_BASE, plan.interpLoadBias]; }
    values := values + [AT_ENTRY, plan.entry, AT_UID, 0, AT_EUID, 0, AT_GID, 0, AT_EGID, 0, AT_SECURE, 0,
                        AT_RANDOM, random, AT_NULL, 0];
    hide AuxWords;
    FlatAux(plan, random);
  }

  lemma {:induction false} FlatAppend(a: seq<(nat, nat)>, b: seq<(nat, nat)>)
    ensures Flat(a + b) == Flat(a) + Flat(b)
    decreases |a|
  {
    if a == [] {
      assert [] + b == b;
    } else {
      assert (a + b)[1..] == a[1..] + b;
      FlatAppend(a[1..], b);
    }
  }

  lemma FlatOne(p: (nat, nat), rest: seq<(nat, nat)>)
    ensures Flat([p] + rest) == [p.0, p.1] + Flat(rest)
  {
    assert ([p] + rest)[1..] == rest;
  }

  lemma FlatThree(p: (nat, nat), q: (nat, nat), r: (nat, nat))
    ensures Flat([p, q, r]) == [p.0, p.1, q.0, q.1, r.0, r.1]
  {
    assert [p, q, r] == [p] + ([q] + ([r] + []));
    FlatOne(p, [q] + ([r] + []));
    FlatOne(q, [r] + []);
    FlatOne(r, []);
  }

  lemma FlatFour(p: (nat, nat), q: (nat, nat), r: (nat, nat), s: (nat, nat))
    ensures Flat([p, q, r, s]) == [p.0, p.1, q.0, q.1, r.0, r.1, s.0, s.1]
  {
    hide Flat;
    assert [p, q, r, s] == [p] + [q, r, s];
    FlatOne(p, [q, r, s]);
    FlatThree(q, r, s);
  }

  lemma FlatAux(plan: Plan, random: nat)
    ensures AuxWords(plan, random) ==
      [AT_PHDR, plan.phdrVaddr, AT_PHENT, PHENTSIZE, AT_PHNUM, plan.phnum, AT_PAGESZ, PAGE]
      + (if plan.requiresInterp then [AT_BASE, plan.interpLoadBias] else [])
      + [AT_ENTRY, plan.entry, AT_UID, 0, AT_EUID, 0, AT_GID, 0, AT_EGID, 0, AT_SECURE, 0, AT_RANDOM, random, AT_NULL, 0]
  {
    var first := [(AT_PHDR, plan.phdrVaddr), (AT_PHENT, PHENTSIZE), (AT_PHNUM, plan.phnum), (AT_PAGESZ, PAGE)];
    var interp := if plan.requiresInterp then [(AT_BASE, plan.interpLoadBias)] else [];
    var ids := [(AT_ENTRY, plan.entry), (AT_UID, 0), (AT_EUID, 0), (AT_GID, 0)];
    var last := [(AT_EGID, 0), (AT_SECURE, 0), (AT_RANDOM, random)];
    assert AuxPairs(plan, random) == (first + interp) + (ids + last);
    assert Flat(interp) == (if plan.requiresInterp then [AT_BASE, plan.interpLoadBias] else []) by {
      if plan.requiresInterp { FlatOne((AT_BASE, plan.interpLoadBias), []); assert interp == interp + []; }
    }
    hide Flat;
    FlatFour((AT_PHDR, plan.phdrVaddr), (AT_PHENT, PHENTSIZE), (AT_PHNUM, plan.phnum), (AT_PAGESZ, PAGE));
    FlatFour((AT_ENTRY, plan.entry), (AT_UID, 0), (AT_EUID, 0), (AT_GID, 0));
    FlatThree((AT_EGID, 0), (AT_SECURE, 0), (AT_RANDOM, random));
    FlatAppend(first + interp, ids + last);
    FlatAppend(first, interp);
    FlatAppend(ids, last);
  }

  /** The frame's words, last first: auxiliary vector, the two NULLs, the argv pointers, argc. */
  method PushFrame(pages: array<Byte>, start: nat, argc: nat, addrs: seq<nat>, aux: seq<nat>, ghost high: seq<Byte>)
    returns (cursor: nat)
    requires pages[..] == Tower(start, high) && 8 * (3 + |addrs| + |aux|) <= start
    modifies pages
    ensures cursor == start - 8 * (3 + |addrs| + |aux|)
    ensures pages[..] == Tower(cursor, FrameBytes([argc] + addrs + [0, 0] + aux) + high)
  {
    hide Tower, FrameBytes;
    cursor := PushWords(pages, start, aux, high);
    cursor := PushWords(pages, cursor, [0, 0], FrameBytes(aux) + high);
    cursor := PushWords(pages, cursor, addrs, FrameBytes([0, 0]) + (FrameBytes(aux) + high));
    cursor := PushWords(pages, cursor, [argc], FrameBytes(addrs) + (FrameBytes([0, 0]) + (FrameBytes(aux) + high)));
    FramesJoin(argc, addrs, aux, high);
  }

  /** Filling the mapped stack from the top down; `cursor` is where its stack pointer ends up. */
  method FillStack(pages: array<Byte>, plan: Plan, argv: seq<CString>, base: nat) returns (verdict: StackVerdict, cursor: nat)
    requires pages.Length == STACK_SIZE && pages[..] == Zeros(STACK_SIZE) && base % 16 == 0 && |argv| <= MAX_ARGS
    modifies pages
    ensures verdict == FillOutcome(plan, argv)
    ensures verdict == StackOk ==>
      Roomy(plan, argv) && base + cursor == LayoutOf(plan, argv, base).sp && pages[..] == StackBytes(plan, argv, base)
  {
    hide Strings, FrameBytes, Pointers, AuxWords, Random, Tower;
    var ok, low, addrs := PushStrings(pages, base, argv);
    if !ok { return ArgvTooLarge, 0; }
    if low < RANDOM_SIZE { return StackTooSmall, 0; }
    var random := RandomBytes();
    WriteBelow(pages, low, random, Strings(argv));
    cursor := low - RANDOM_SIZE;
    var randomAddr := base + cursor;
    ghost var high := random + Strings(argv);
    cursor := Align16(cursor);
    if plan.requiresInterp && (plan.interpLoadBias == 0 || plan.interpEntry == 0) { return MissingInterp, 0; }
    var aux := AuxValues(plan, randomAddr);
    var frameSize := 8 * (1 + |argv| + 1 + 1 + |aux|);
    if frameSize > cursor { return FrameTooLarge, 0; }
    cursor := Align16(cursor - frameSize) + frameSize;
    ghost var pad := Zeros(low - RANDOM_SIZE - cursor);
    TowerPad(cursor, low - RANDOM_SIZE, high);
    ghost var l := LayoutOf(plan, argv, base);
    assert l.words == [|argv|] + addrs + [0, 0] + aux && l.random == randomAddr && l.sp == base + cursor - frameSize;
    cursor := PushFrame(pages, cursor, |argv|, addrs, aux, pad + high);
    TowerStack(plan, argv, base, pad, high);
    return StackOk, cursor;
  }

  /** linux_compat_exec_build_stack. The stack pointer is given only on success; on failure after mapping
      the region stays, with whatever was written. */
  method BuildStack(vm: AddressSpace, plan: Plan, argv: seq<CString>) returns (verdict: StackVerdict, sp: nat)
    requires vm.Valid() && PlanInRange(plan)
    modifies vm
    ensures vm.Valid()
    ensures verdict == StackOutcome(vm.limit, old(vm.Model()), plan, argv)
    ensures verdict == StackOk ==>
      && Roomy(plan, argv) && sp == LayoutOf(plan, argv, StackBase(plan)).sp
      && vm.Model() == old(vm.Model()) + [Region(StackBase(plan), STACK_PROT, StackBytes(plan, argv, StackBase(plan)))]
    ensures verdict != StackOk ==> sp == 0
    ensures verdict == BadStackRequest || verdict == StackMapFailed ==> vm.Model() == old(vm.Model())
    ensures |vm.Model()| >= |old(vm.Model())| && vm.Model()[..|old(vm.Model())|] == old(vm.Model())
  {
    hide MayMap, FillOutcome, StackBytes, LayoutOf, Roomy, StackBase;
    if |argv| > MAX_ARGS { return BadStackRequest, 0; }
    var base := StackBase(plan);
    ghost var before := vm.Model();
    var mapped, pages := vm.MapFixed(base, STACK_SIZE, STACK_PROT);
    if !mapped { return StackMapFailed, 0; }
    MapFacts(vm.limit, before, base);
    assert pages[..] == Zeros(STACK_SIZE);
    var filled, low := FillStack(pages, plan, argv, base);
    assert vm.Model() == before + [Region(base, STACK_PROT, pages[..])];
    if filled != StackOk { return filled, 0; }
    return StackOk, base + low;
  }

  lemma TowerPad(low: nat, bottom: nat, high: seq<Byte>)
    requires low <= bottom
    ensures Tower(bottom, high) == Tower(low, Zeros(bottom - low) + high)
  {
  }

  lemma {:induction false} FrameAppend(a: seq<nat>, b: seq<nat>)
    ensures FrameBytes(a + b) == FrameBytes(a) + FrameBytes(b)
    decreases |a|
  {
    if a == [] {
      assert [] + b == b;
    } else {
      assert (a + b)[1..] == a[1..] + b;
      FrameAppend(a[1..], b);
    }
  }

  lemma FramesJoin(argc: nat, addrs: seq<nat>, aux: seq<nat>, high: seq<Byte>)
    ensures FrameBytes([argc]) + (FrameBytes(addrs) + (FrameBytes([0, 0]) + (FrameBytes(aux) + high))) ==
      FrameBytes([argc] + addrs + [0, 0] + aux) + high
  {
    hide FrameBytes;
    FrameAppend([argc], addrs);
    FrameAppend([argc] + addrs, [0, 0]);
    FrameAppend([argc] + addrs + [0, 0], aux);
  }

  lemma TowerStack(plan: Plan, argv: seq<CString>, base: nat, pad: seq<Byte>, high: seq<Byte>)
    requires Roomy(plan, argv)
    requires var l := LayoutOf(plan, argv, base);
      pad == Zeros(l.random - (l.sp + 8 * |l.words|)) && high == Random() + Strings(argv)
    ensures var l := LayoutOf(plan, argv, base);
      Tower(l.sp - base, FrameBytes(l.words) + (pad + high)) == StackBytes(plan, argv, base)
  {
    hide FrameBytes, Random, Strings;
  }
}
