/** A program's view of its initial stack: reading it by the calling convention gives back what was put there. */
module StackReader {
  import opened Common
  import opened LittleEndian
  import opened ElfModel
  import opened ExecModel
  import opened ExecPlans
  import opened StackModel

  // ----- the reader

  function ReadBytes(space: seq<Region>, a: nat, n: nat): (r: Option<seq<Byte>>)
    decreases n
  {
    if n == 0 then Some([])
    else
      var first := Load(space, a);
      var rest := ReadBytes(space, a + 1, n - 1);
      if first.None? || rest.None? then None else Some([first.value] + rest.value)
  }

  function ReadWord(space: seq<Region>, a: nat): (r: Option<nat>)
  {
    var bytes := ReadBytes(space, a, 8);
    if bytes.None? then None else Some(Le(bytes.value))
  }

  /** The string at a, up to its terminator; None past the end of user memory. */
  function ReadCString(space: seq<Region>, a: nat, limit: nat): (r: Option<seq<Byte>>)
    decreases limit - a
  {
    if a >= limit then None
    else match Load(space, a)
      case None => None
      case Some(b) =>
        if b == 0 then Some([])
        else
          var rest := ReadCString(space, a + 1, limit);
          if rest.None? then None else Some([b] + rest.value)
  }

  /** The words at a, up to a NULL. */
  function ReadPointers(space: seq<Region>, a: nat, limit: nat): (r: Option<seq<nat>>)
    decreases limit - a
  {
    if a >= limit then None
    else match ReadWord(space, a)
      case None => None
      case Some(p) =>
        if p == 0 then Some([])
        else
          var rest := ReadPointers(space, a + 8, limit);
          if rest.None? then None else Some([p] + rest.value)
  }

  /** The type and value pairs at a, up to AT_NULL. */
  function ReadAux(space: seq<Region>, a: nat, limit: nat): (r: Option<seq<(nat, nat)>>)
    decreases limit - a
  {
    if a >= limit then None
    else
      var kind := ReadWord(space, a);
      var value := ReadWord(space, a + 8);
      if kind.None? || value.None? then None
      else if kind.value == AT_NULL then Some([])
      else
        var rest := ReadAux(space, a + 16, limit);
        if rest.None? then None else Some([(kind.value, value.value)] + rest.value)
  }

  function ReadStrings(space: seq<Region>, pointers: seq<nat>, limit: nat): (r: Option<seq<seq<Byte>>>)
  {
    if pointers == [] then Some([])
    else
      var first := ReadCString(space, pointers[0], limit);
      var rest := ReadStrings(space, pointers[1..], limit);
      if first.None? || rest.None? then None else Some([first.value] + rest.value)
  }

  datatype Start = Start(argv: seq<seq<Byte>>, envp: seq<nat>, auxv: seq<(nat, nat)>)

  /** What a program finds at its stack pointer. */
  function ReadStart(space: seq<Region>, sp: nat, limit: nat): (r: Option<Start>)
  {
    var argc := ReadWord(space, sp);
    if argc.None? then None
    else
      var pointers := ReadPointers(space, sp + 8, limit);
      if pointers.None? || |pointers.value| != argc.value then None
      else
        var env := ReadPointers(space, sp + 8 + 8 * (argc.value + 1), limit);
        if env.None? then None
        else
          var aux := ReadAux(space, sp + 8 + 8 * (argc.value + 1) + 8 * (|env.value| + 1), limit);
          var argv := ReadStrings(space, pointers.value, limit);
          if aux.None? || argv.None? then None else Some(Start(argv.value, env.value, aux.value))
  }

  // ----- what is shown

  /** The bytes from a on. */
  ghost predicate Shows(space: seq<Region>, a: nat, bytes: seq<Byte>)
  {
    forall b :: a <= b < a + |bytes| ==> Load(space, b) == Some(bytes[b - a])
  }

  lemma ShowsParts(space: seq<Region>, a: nat, x: seq<Byte>, y: seq<Byte>)
    requires Shows(space, a, x + y)
    ensures Shows(space, a, x) && Shows(space, a + |x|, y)
  {
    forall b | a <= b < a + |x| ensures Load(space, b) == Some(x[b - a]) { assert (x + y)[b - a] == x[b - a]; }
    forall b | a + |x| <= b < a + |x| + |y| ensures Load(space, b) == Some(y[b - (a + |x|)]) {
      assert (x + y)[b - a] == y[b - a - |x|];
    }
  }

  lemma {:induction false} ReadShown(space: seq<Region>, a: nat, bytes: seq<Byte>)
    requires Shows(space, a, bytes)
    ensures ReadBytes(space, a, |bytes|) == Some(bytes)
    decreases |bytes|
  {
    if bytes != [] {
      assert bytes == [bytes[0]] + bytes[1..];
      ShowsParts(space, a, [bytes[0]], bytes[1..]);
      ReadShown(space, a + 1, bytes[1..]);
    }
  }

  lemma {:induction false} StringShown(space: seq<Region>, a: nat, s: CString, limit: nat)
    requires Shows(space, a, s + [0]) && a + |s| < limit
    ensures ReadCString(space, a, limit) == Some(s)
    decreases |s|
  {
    assert Load(space, a) == Some((s + [0])[0]);
    if s != [] {
      var rest: CString := s[1..];
      assert s + [0] == [s[0]] + (rest + [0]);
      ShowsParts(space, a, [s[0]], rest + [0]);
      assert s == [s[0]] + rest && s[0] in s;
      StringShown(space, a + 1, rest, limit);
    }
  }

  /** The words from a on. */
  ghost predicate WordsShown(space: seq<Region>, a: nat, words: seq<nat>)
    decreases |words|
  {
    words != [] ==> ReadWord(space, a) == Some(words[0]) && WordsShown(space, a + 8, words[1..])
  }

  lemma {:induction false} FrameShown(space: seq<Region>, a: nat, words: seq<nat>)
    requires Shows(space, a, FrameBytes(words)) && forall k :: 0 <= k < |words| ==> words[k] < UINT64_RANGE
    ensures WordsShown(space, a, words)
    decreases |words|
  {
    if words != [] {
      ShowsParts(space, a, ToLe(words[0], 8), FrameBytes(words[1..]));
      ReadShown(space, a, ToLe(words[0], 8));
      Widths();
      LeToLe(words[0], 8);
      FrameShown(space, a + 8, words[1..]);
    }
  }

  lemma {:induction false} WordsFrom(space: seq<Region>, a: nat, x: seq<nat>, y: seq<nat>)
    requires WordsShown(space, a, x + y)
    ensures WordsShown(space, a + 8 * |x|, y)
    decreases |x|
  {
    if x == [] {
      assert [] + y == y;
    } else {
      assert (x + y)[1..] == x[1..] + y;
      WordsFrom(space, a + 8, x[1..], y);
    }
  }

  lemma {:induction false} PointersShown(space: seq<Region>, a: nat, x: seq<nat>, y: seq<nat>, limit: nat)
    requires WordsShown(space, a, x + ([0] + y)) && 0 !in x && a + 8 * |x| < limit
    ensures ReadPointers(space, a, limit) == Some(x)
    decreases |x|
  {
    var all := x + ([0] + y);
    if x == [] {
      assert all[0] == 0;
    } else {
      assert all[1..] == x[1..] + ([0] + y) && all[0] == x[0];
      assert x == [x[0]] + x[1..] && x[0] in x;
      PointersShown(space, a + 8, x[1..], y, limit);
    }
  }

  lemma {:induction false} AuxShown(space: seq<Region>, a: nat, pairs: seq<(nat, nat)>, limit: nat)
    requires WordsShown(space, a, Flat(pairs) + [AT_NULL, 0]) && a + 16 * |pairs| < limit
    requires forall k :: 0 <= k < |pairs| ==> pairs[k].0 != AT_NULL
    ensures ReadAux(space, a, limit) == Some(pairs)
    decreases |pairs|
  {
    var all := Flat(pairs) + [AT_NULL, 0];
    var second := all[1..];
    assert WordsShown(space, a + 8, second);
    if pairs == [] {
      assert all[0] == AT_NULL && second[0] == 0;
    } else {
      assert all[0] == pairs[0].0 && second[0] == pairs[0].1;
      assert second[1..] == Flat(pairs[1..]) + [AT_NULL, 0];
      assert pairs == [(pairs[0].0, pairs[0].1)] + pairs[1..];
      AuxShown(space, a + 16, pairs[1..], limit);
    }
  }

  lemma {:induction false} StringsShown(space: seq<Region>, argv: seq<CString>, top: nat, limit: nat)
    requires |Strings(argv)| <= top <= limit && Shows(space, top - |Strings(argv)|, Strings(argv))
    ensures ReadStrings(space, Pointers(argv, top), limit) == Some(argv)
    decreases |argv|
  {
    var pointers := Pointers(argv, top);
    if argv != [] {
      var a := top - |Strings(argv)|;
      ShowsParts(space, a, argv[0] + [0], Strings(argv[1..]));
      StringShown(space, a, argv[0], limit);
      assert argv[0..] == argv;
      StringsShown(space, argv[1..], top, limit);
      PointersTail(argv, top);
      assert pointers[0] == a;
      assert argv == [argv[0]] + argv[1..];
    }
  }

  lemma PointersTail(argv: seq<CString>, top: nat)
    requires argv != [] && |Strings(argv)| <= top
    ensures Pointers(argv, top)[1..] == Pointers(argv[1..], top)
  {
    var rest := Pointers(argv, top)[1..];
    forall i | 0 <= i < |rest| ensures rest[i] == Pointers(argv[1..], top)[i] {
      assert argv[i + 1..] == argv[1..][i..];
    }
  }

  // ----- the round trip

  lemma AuxKinds(plan: Plan, random: nat)
    requires PlanInRange(plan) && random < UINT64_RANGE
    ensures var pairs := AuxPairs(plan, random);
      forall k | 0 <= k < |pairs| :: pairs[k].0 != AT_NULL && pairs[k].0 < UINT64_RANGE && pairs[k].1 < UINT64_RANGE
  {
  }

  lemma {:induction false} FlatInRange(pairs: seq<(nat, nat)>)
    requires forall k | 0 <= k < |pairs| :: pairs[k].0 < UINT64_RANGE && pairs[k].1 < UINT64_RANGE
    ensures forall k :: 0 <= k < |Flat(pairs)| ==> Flat(pairs)[k] < UINT64_RANGE
    decreases |pairs|
  {
    if pairs != [] { FlatInRange(pairs[1..]); }
  }

  lemma PointersInRange(argv: seq<CString>, top: nat, base: nat)
    requires base + |Strings(argv)| <= top < UINT64_RANGE
    ensures forall i :: 0 <= i < |argv| ==> base <= Pointers(argv, top)[i] < UINT64_RANGE
  {
    forall i | 0 <= i < |argv| ensures base <= Pointers(argv, top)[i] < UINT64_RANGE { SuffixSize(argv, i); }
  }

  lemma FrameInRange(plan: Plan, argv: seq<CString>, top: nat, random: nat)
    requires PlanInRange(plan) && |argv| <= MAX_ARGS && |Strings(argv)| <= top < UINT64_RANGE && random < UINT64_RANGE
    ensures forall k :: 0 <= k < |FrameWords(plan, argv, top, random)| ==> FrameWords(plan, argv, top, random)[k] < UINT64_RANGE
  {
    hide AuxPairs, Flat, Pointers;
    PointersInRange(argv, top, 0);
    AuxKinds(plan, random);
    FlatInRange(AuxPairs(plan, random));
  }

  /** The four parts of the stack, each where its address says, one above the other. */
  lemma PartsShown(space: seq<Region>, plan: Plan, argv: seq<CString>, base: nat)
    requires Roomy(plan, argv) && Shows(space, base, StackBytes(plan, argv, base))
    ensures var l := LayoutOf(plan, argv, base);
      && Shows(space, l.sp, FrameBytes(l.words)) && Shows(space, l.random, Random())
      && Shows(space, l.random + RANDOM_SIZE, Strings(argv))
  {
    hide FrameBytes, Random, Strings, Shows;
    var l := LayoutOf(plan, argv, base);
    var high := Random() + Strings(argv);
    var pad := Zeros(l.random - (l.sp + 8 * |l.words|));
    ShowsParts(space, base, Zeros(l.sp - base), FrameBytes(l.words) + (pad + high));
    ShowsParts(space, l.sp, FrameBytes(l.words), pad + high);
    ShowsParts(space, l.sp + 8 * |l.words|, pad, high);
    ShowsParts(space, l.random, Random(), Strings(argv));
  }

  /** A program that reads its stack by the calling convention finds the arguments it was given, an empty
      environment and the auxiliary vector, whose AT_RANDOM address shows the random bytes. */
  lemma StackRoundTrip(space: seq<Region>, plan: Plan, argv: seq<CString>, base: nat, limit: nat)
    requires Roomy(plan, argv) && PlanInRange(plan) && |argv| <= MAX_ARGS
    requires 0 < base && base % 16 == 0 && base + STACK_SIZE <= limit < UINT64_RANGE
    requires Shows(space, base, StackBytes(plan, argv, base))
    ensures var l := LayoutOf(plan, argv, base);
      && l.sp % 16 == 0
      && ReadStart(space, l.sp, limit) == Some(Start(argv, [], AuxPairs(plan, l.random)))
      && ReadBytes(space, l.random, RANDOM_SIZE) == Some(Random())
  {
    hide FrameBytes, Random, Strings, Shows, AuxPairs, Flat, Pointers, StackBytes, WordsShown, ReadWord, ReadBytes,
      ReadPointers, ReadStrings, ReadAux, AuxWords, FrameWords, Roomy, PlanInRange, Align16, Load;
    var l := LayoutOf(plan, argv, base);
    var top := base + STACK_SIZE;
    PartsShown(space, plan, argv, base);
    ReadShown(space, l.random, Random());
    FrameInRange(plan, argv, top, l.random);
    FrameShown(space, l.sp, l.words);
    FrameRead(space, plan, argv, base, limit);
    StringsShown(space, argv, top, limit);
  }

  lemma FrameRead(space: seq<Region>, plan: Plan, argv: seq<CString>, base: nat, limit: nat)
    requires Roomy(plan, argv) && PlanInRange(plan)
    requires 0 < base && base + STACK_SIZE <= limit < UINT64_RANGE
    requires var l := LayoutOf(plan, argv, base); WordsShown(space, l.sp, l.words)
    ensures var l := LayoutOf(plan, argv, base);
      var pointers := Pointers(argv, base + STACK_SIZE);
      var env := l.sp + 8 + 8 * (|argv| + 1);
      && ReadWord(space, l.sp) == Some(|argv|)
      && ReadPointers(space, l.sp + 8, limit) == Some(pointers)
      && ReadPointers(space, env, limit) == Some([])
      && ReadAux(space, env + 8, limit) == Some(AuxPairs(plan, l.random))
  {
    hide Strings, AuxPairs, Flat, Pointers, ReadWord, ReadPointers, ReadAux, WordsShown;
    var l := LayoutOf(plan, argv, base);
    var pointers := Pointers(argv, base + STACK_SIZE);
    var aux := AuxWords(plan, l.random);
    PointersInRange(argv, base + STACK_SIZE, base);
    AuxKinds(plan, l.random);
    assert l.words == [|argv|] + (pointers + ([0] + ([0] + aux)));
    FirstWord(space, l.sp, l.words);
    WordsFrom(space, l.sp, [|argv|], pointers + ([0] + ([0] + aux)));
    PointersShown(space, l.sp + 8, pointers, [0] + aux, limit);
    assert pointers + ([0] + ([0] + aux)) == (pointers + [0]) + ([0] + aux);
    WordsFrom(space, l.sp + 8, pointers + [0], [0] + aux);
    assert [] + ([0] + aux) == [0] + aux;
    PointersShown(space, l.sp + 8 + 8 * (|argv| + 1), [], aux, limit);
    WordsFrom(space, l.sp + 8 + 8 * (|argv| + 1), [0], aux);
    AuxShown(space, l.sp + 16 + 8 * (|argv| + 1), AuxPairs(plan, l.random), limit);
  }

  lemma FirstWord(space: seq<Region>, a: nat, words: seq<nat>)
    requires WordsShown(space, a, words) && words != []
    ensures ReadWord(space, a) == Some(words[0])
  {
  }

  lemma RegionShown(space: seq<Region>, r: Region)
    requires forall i :: 0 <= i < |space| ==> !Overlaps(space[i], r.vaddr, |r.bytes|)
    ensures Shows(space + [r], r.vaddr, r.bytes)
  {
    forall b | r.vaddr <= b < r.vaddr + |r.bytes| ensures Load(space + [r], b) == Some(r.bytes[b - r.vaddr]) {
      LoadFree(space, r.vaddr, |r.bytes|, b);
      LoadAppend(space, r, b);
      assert [r][0] == r;
    }
  }

  /** Whenever the stack builder succeeds, the program can read its start. */
  lemma StartReadable(limit: nat, space: seq<Region>, plan: Plan, argv: seq<CString>)
    requires StackOutcome(limit, space, plan, argv) == StackOk && PlanInRange(plan) && limit < UINT64_RANGE
    ensures Roomy(plan, argv)
    ensures var base := StackBase(plan);
      var l := LayoutOf(plan, argv, base);
      var after := space + [Region(base, STACK_PROT, StackBytes(plan, argv, base))];
      && base + 8 * 4096 == (if plan.stackTop != 0 then plan.stackTop else 0x7000_0000)
      && l.sp % 16 == 0 && base <= l.sp && l.random + 16 + |Strings(argv)| == base + 8 * 4096
      && ReadStart(after, l.sp, limit) == Some(Start(argv, [],
           [(3, plan.phdrVaddr), (4, 56), (5, plan.phnum), (6, 4096)]
           + (if plan.requiresInterp then [(7, plan.interpLoadBias)] else [])
           + [(9, plan.entry), (11, 0), (12, 0), (13, 0), (14, 0), (23, 0), (25, l.random)]))
      && forall i :: 0 <= i < 16 ==> Load(after, l.random + i) == Some((0x5a + 17 * i) % 256)
  {
    hide Strings, StackBytes, ReadStart, ReadBytes, AuxPairs, Random, LayoutOf, Roomy, Align16, StackOutcome, MayMap, StackBase;
    OutcomeRoomy(limit, space, plan, argv);
    BaseFits(limit, space, plan);
    var base := StackBase(plan);
    var r := Region(base, STACK_PROT, StackBytes(plan, argv, base));
    RegionShown(space, r);
    StackRoundTrip(space + [r], plan, argv, base, limit);
    PartsShown(space + [r], plan, argv, base);
    RandomLoaded(space + [r], LayoutOf(plan, argv, base).random);
    AuxWritten(plan, LayoutOf(plan, argv, base).random);
  }

  lemma RandomLoaded(space: seq<Region>, a: nat)
    requires Shows(space, a, Random())
    ensures forall i :: 0 <= i < 16 ==> Load(space, a + i) == Some((0x5a + 17 * i) % 256)
  {
    forall i: nat | i < 16 ensures Load(space, a + i) == Some((0x5a + 17 * i) % 256) {
      assert Load(space, a + i) == Some(Random()[(a + i) - a]);
      assert i * 17 < 256 && i * 17 % 256 == i * 17;
    }
  }

  /** The auxiliary vector in the numbers of the Linux ABI. */
  lemma AuxWritten(plan: Plan, random: nat)
    ensures AuxPairs(plan, random) ==
      [(3, plan.phdrVaddr), (4, 56), (5, plan.phnum), (6, 4096)]
      + (if plan.requiresInterp then [(7, plan.interpLoadBias)] else [])
      + [(9, plan.entry), (11, 0), (12, 0), (13, 0), (14, 0), (23, 0), (25, random)]
  {
  }

  /** The stack is built exactly when at most 16 arguments are given, its 32 KiB can be mapped, an interpreter
      that is asked for has an address and an entry, and strings, random bytes and frame fit. */
  lemma StackOkIff(limit: nat, space: seq<Region>, plan: Plan, argv: seq<CString>)
    ensures StackOutcome(limit, space, plan, argv) == StackOk <==>
      && |argv| <= 16
      && MayMap(limit, space, StackBase(plan), 32768, Prot(true, true, false))
      && (plan.requiresInterp ==> plan.interpLoadBias != 0 && plan.interpEntry != 0)
      && |Strings(argv)| + 16 <= 32768
      && 8 * (1 + |argv| + 2 + 2 * (if plan.requiresInterp then 13 else 12)) <= (32768 - |Strings(argv)| - 16) / 16 * 16
  {
    hide Strings, StackBase, MayMap;
    var room := 32768 - |Strings(argv)| - 16;
    if room >= 0 { assert room - room % 16 == room / 16 * 16; }
  }

  /** Which error a refusal gives: the first of the steps that fails. */
  lemma StackRefusals(limit: nat, space: seq<Region>, plan: Plan, argv: seq<CString>)
    ensures var v := StackOutcome(limit, space, plan, argv);
      var mapped := |argv| <= 16 && MayMap(limit, space, StackBase(plan), 32768, Prot(true, true, false));
      var interp := plan.requiresInterp ==> plan.interpLoadBias != 0 && plan.interpEntry != 0;
      && (v == BadStackRequest <==> |argv| > 16)
      && (v == StackMapFailed <==> |argv| <= 16 && !mapped)
      && (v == ArgvTooLarge <==> mapped && |Strings(argv)| > 32768)
      && (v == StackTooSmall <==> mapped && 32768 - 16 < |Strings(argv)| <= 32768)
      && (v == MissingInterp <==> mapped && |Strings(argv)| <= 32768 - 16 && !interp)
      && (v == FrameTooLarge ==> mapped && |Strings(argv)| <= 32768 - 16 && interp)
  {
    hide Strings, StackBase, MayMap, FrameSize, Align16;
  }

  lemma OutcomeRoomy(limit: nat, space: seq<Region>, plan: Plan, argv: seq<CString>)
    requires StackOutcome(limit, space, plan, argv) == StackOk
    ensures Roomy(plan, argv) && MayMap(limit, space, StackBase(plan), STACK_SIZE, STACK_PROT) && |argv| <= MAX_ARGS
  {
    hide Strings, StackBase, MayMap, Align16;
  }

  lemma PageAligned16(a: nat)
    requires a % PAGE == 0
    ensures a % 16 == 0
  {
    assert a == 16 * (256 * (a / PAGE));
  }

  lemma MapFacts(limit: nat, space: seq<Region>, base: nat)
    requires MayMap(limit, space, base, STACK_SIZE, STACK_PROT)
    ensures 0 < base && base + STACK_SIZE <= limit && base % 16 == 0
    ensures forall i :: 0 <= i < |space| ==> !Overlaps(space[i], base, STACK_SIZE)
  {
    PageAligned16(base);
  }

  lemma BaseFits(limit: nat, space: seq<Region>, plan: Plan)
    requires MayMap(limit, space, StackBase(plan), STACK_SIZE, STACK_PROT) && PlanInRange(plan) && limit < UINT64_RANGE
    ensures var base := StackBase(plan);
      && base + STACK_SIZE == StackTop(plan) <= limit && base > 0 && base % 16 == 0
      && forall i :: 0 <= i < |space| ==> !Overlaps(space[i], base, STACK_SIZE)
  {
    MapFacts(limit, space, StackBase(plan));
    hide MayMap, Overlaps;
  }
}
