/** The initial stack of a program: argument strings, random bytes and the argc/argv/envp/auxv frame. */
module StackModel {
  import opened Common
  import opened LittleEndian
  import opened ElfModel
  import opened ExecModel

  const STACK_SIZE := 8 * PAGE
  const MAX_ARGS := 16
  const RANDOM_SIZE := 16

  const AT_NULL := 0
  const AT_PHDR := 3
  const AT_PHENT := 4
  const AT_PHNUM := 5
  const AT_PAGESZ := 6
  const AT_BASE := 7
  const AT_ENTRY := 9
  const AT_UID := 11
  const AT_EUID := 12
  const AT_GID := 13
  const AT_EGID := 14
  const AT_SECURE := 23
  const AT_RANDOM := 25

  /** The bytes of a C string, without its terminator. */
  type CString = s: seq<Byte> | 0 !in s witness []

  predicate PlanInRange(plan: Plan)
  {
    && plan.entry < UINT64_RANGE && plan.phdrVaddr < UINT64_RANGE && plan.phnum < UINT64_RANGE
    && plan.interpLoadBias < UINT64_RANGE && plan.stackTop < UINT64_RANGE
  }

  function Zeros(n: nat): (r: seq<Byte>)
    ensures |r| == n && forall k :: 0 <= k < n ==> r[k] == 0
  {
    seq<Byte>(n, _ => 0)
  }

  /** The argument strings one after another, each with its terminator. */
  function Strings(argv: seq<CString>): (r: seq<Byte>)
    ensures |r| >= |argv|
  {
    if argv == [] then [] else argv[0] + [0] + Strings(argv[1..])
  }

  function Random(): (r: seq<Byte>)
    ensures |r| == RANDOM_SIZE
  {
    seq<Byte>(RANDOM_SIZE, i requires 0 <= i => (0x5a + i * 17 % 256) % 256)
  }

  function Align16(a: nat): (r: nat)
    ensures r <= a < r + 16 && r % 16 == 0
  {
    a - a % 16
  }

  /** The auxiliary vector as type and value pairs, without the final AT_NULL pair. */
  function AuxPairs(plan: Plan, random: nat): (r: seq<(nat, nat)>)
  {
    [(AT_PHDR, plan.phdrVaddr), (AT_PHENT, PHENTSIZE), (AT_PHNUM, plan.phnum), (AT_PAGESZ, PAGE)]
    + (if plan.requiresInterp then [(AT_BASE, plan.interpLoadBias)] else [])
    + [(AT_ENTRY, plan.entry), (AT_UID, 0), (AT_EUID, 0), (AT_GID, 0), (AT_EGID, 0), (AT_SECURE, 0), (AT_RANDOM, random)]
  }

  function Flat(pairs: seq<(nat, nat)>): (r: seq<nat>)
    ensures |r| == 2 * |pairs|
  {
    if pairs == [] then [] else [pairs[0].0, pairs[0].1] + Flat(pairs[1..])
  }

  function AuxWords(plan: Plan, random: nat): (r: seq<nat>)
    ensures |r| == if plan.requiresInterp then 26 else 24
  {
    Flat(AuxPairs(plan, random)) + [AT_NULL, 0]
  }

  /** Where the i-th argument string starts below `top`. */
  function StringAt(argv: seq<CString>, top: int, i: nat): (r: int)
    requires i <= |argv|
  {
    top - |Strings(argv[i..])|
  }

  function Pointers(argv: seq<CString>, top: nat): (r: seq<nat>)
    requires |Strings(argv)| <= top
    ensures |r| == |argv|
  {
    seq(|argv|, i requires 0 <= i < |argv| => Pointer(argv, top, i))
  }

  function Pointer(argv: seq<CString>, top: nat, i: nat): (r: nat)
    requires |Strings(argv)| <= top && i < |argv|
  {
    SuffixSize(argv, i);
    StringAt(argv, top, i)
  }

  lemma {:induction false} SuffixSize(argv: seq<CString>, i: nat)
    requires i <= |argv|
    ensures |Strings(argv[i..])| <= |Strings(argv)|
  {
    if i > 0 {
      SuffixSize(argv[1..], i - 1);
      assert argv[1..][i - 1..] == argv[i..];
    } else {
      assert argv[0..] == argv;
    }
  }

  function FrameBytes(words: seq<nat>): (r: seq<Byte>)
    ensures |r| == 8 * |words|
  {
    if words == [] then [] else ToLe(words[0], 8) + FrameBytes(words[1..])
  }

  // ----- the layout, from the top down

  datatype Layout = Layout(base: nat, random: nat, sp: nat, words: seq<nat>)

  function StackTop(plan: Plan): (r: nat)
  {
    if plan.stackTop != 0 then plan.stackTop else STACK_TOP
  }

  function StackBase(plan: Plan): (r: nat)
  {
    (StackTop(plan) - STACK_SIZE) % UINT64_RANGE
  }

  function FrameSize(plan: Plan, argc: nat): (r: nat)
  {
    8 * (argc + 3 + if plan.requiresInterp then 26 else 24)
  }

  datatype StackVerdict = StackOk | BadStackRequest | StackMapFailed | ArgvTooLarge | StackTooSmall
    | MissingInterp | FrameTooLarge

  const STACK_PROT := Prot(true, true, false)

  function StackOutcome(limit: nat, space: seq<Region>, plan: Plan, argv: seq<CString>): (r: StackVerdict)
  {
    if |argv| > MAX_ARGS then BadStackRequest
    else if !MayMap(limit, space, StackBase(plan), STACK_SIZE, STACK_PROT) then StackMapFailed
    else FillOutcome(plan, argv)
  }

  /** What filling the mapped stack comes to. */
  function FillOutcome(plan: Plan, argv: seq<CString>): (r: StackVerdict)
    ensures r != BadStackRequest && r != StackMapFailed
  {
    if |Strings(argv)| > STACK_SIZE then ArgvTooLarge
    else if |Strings(argv)| + RANDOM_SIZE > STACK_SIZE then StackTooSmall
    else if plan.requiresInterp && (plan.interpLoadBias == 0 || plan.interpEntry == 0) then MissingInterp
    else if FrameSize(plan, |argv|) > Align16(STACK_SIZE - |Strings(argv)| - RANDOM_SIZE) then FrameTooLarge
    else StackOk
  }

  /** The argc word, the argv pointers, two NULLs for the ends of argv and envp, the auxiliary vector. */
  function FrameWords(plan: Plan, argv: seq<CString>, top: nat, random: nat): (r: seq<nat>)
    requires |Strings(argv)| <= top
    ensures 8 * |r| == FrameSize(plan, |argv|)
  {
    [|argv|] + Pointers(argv, top) + [0, 0] + AuxWords(plan, random)
  }

  predicate Roomy(plan: Plan, argv: seq<CString>)
  {
    && |Strings(argv)| + RANDOM_SIZE <= STACK_SIZE
    && FrameSize(plan, |argv|) <= Align16(STACK_SIZE - |Strings(argv)| - RANDOM_SIZE)
  }

  function LayoutOf(plan: Plan, argv: seq<CString>, base: nat): (r: Layout)
    requires Roomy(plan, argv)
    ensures r.base == base <= r.sp && r.sp + 8 * |r.words| <= r.random
    ensures r.random + RANDOM_SIZE + |Strings(argv)| == base + STACK_SIZE
  {
    var random := STACK_SIZE - |Strings(argv)| - RANDOM_SIZE;
    var sp := Align16(Align16(random) - FrameSize(plan, |argv|));
    Layout(base, base + random, base + sp, FrameWords(plan, argv, base + STACK_SIZE, base + random))
  }

  /** The bytes of the whole stack. */
  function StackBytes(plan: Plan, argv: seq<CString>, base: nat): (r: seq<Byte>)
    requires Roomy(plan, argv)
    ensures |r| == STACK_SIZE
  {
    var l := LayoutOf(plan, argv, base);
    Zeros(l.sp - base)
    + (FrameBytes(l.words) + (Zeros(l.random - (l.sp + 8 * |l.words|)) + (Random() + Strings(argv))))
  }
}
