/** The physical page allocator as values: which pages are used, how many are free, where to look next. */
module PmmModel {
  import opened Common

  const PAGE_SIZE := 4096

  datatype Pool = Pool(used: seq<bool>, free: nat, hint: nat)

  function Clear(used: seq<bool>): (r: nat)
  {
    if used == [] then 0 else (if used[0] then 0 else 1) + Clear(used[1..])
  }

  /** Everything below the hint is used, and the count is right. */
  predicate PoolOk(p: Pool)
  {
    && p.free == Clear(p.used)
    && (if p.used == [] then p.hint == 0 else p.hint < |p.used|)
    && forall i :: 0 <= i < p.hint ==> p.used[i]
  }

  /** The k-th and later probes of the circular search from the hint. */
  function Probe(p: Pool, k: nat): (r: Option<nat>)
    requires k <= |p.used|
    ensures r.Some? ==> r.value < |p.used| && !p.used[r.value]
    decreases |p.used| - k
  {
    if k == |p.used| then None
    else if !p.used[(p.hint + k) % |p.used|] then Some((p.hint + k) % |p.used|)
    else Probe(p, k + 1)
  }

  function Alloc(p: Pool): (r: (Pool, Option<nat>))
  {
    if p.free == 0 || |p.used| == 0 then (p, None)
    else
      var i := Probe(p, 0);
      if i.None? then (p, None)
      else (Pool(p.used[i.value := true], p.free - 1, (i.value + 1) % |p.used|), i)
  }

  function Release(p: Pool, i: nat): (r: (Pool, bool))
    requires i < |p.used|
  {
    if !p.used[i] then (p, false)
    else (Pool(p.used[i := false], p.free + 1, if i < p.hint then i else p.hint), true)
  }

  function FreshPool(n: nat): (r: Pool)
  {
    Pool(seq(n, _ => false), n, 0)
  }

  lemma ProbeUnfolds(p: Pool, k: nat)
    requires k <= |p.used|
    ensures Probe(p, k) ==
      if k == |p.used| then None
      else if !p.used[(p.hint + k) % |p.used|] then Some((p.hint + k) % |p.used|) else Probe(p, k + 1)
  {
  }

  lemma AllocUnfolds(p: Pool)
    ensures Alloc(p) ==
      if p.free == 0 || |p.used| == 0 || Probe(p, 0).None? then (p, None)
      else (Pool(p.used[Probe(p, 0).value := true], p.free - 1, (Probe(p, 0).value + 1) % |p.used|), Probe(p, 0))
  {
  }

  // ----- counting

  lemma {:induction false} ClearUpdate(used: seq<bool>, i: nat, b: bool)
    requires i < |used|
    ensures Clear(used[i := b]) + (if used[i] then 0 else 1) == Clear(used) + (if b then 0 else 1)
  {
    if i == 0 {
      assert used[0 := b][1..] == used[1..];
    } else {
      ClearUpdate(used[1..], i - 1, b);
      assert used[i := b][1..] == used[1..][i - 1 := b];
    }
  }

  lemma {:induction false} ClearZero(used: seq<bool>)
    ensures Clear(used) == 0 <==> forall i :: 0 <= i < |used| ==> used[i]
  {
    if used != [] {
      ClearZero(used[1..]);
      assert (forall i :: 0 <= i < |used| ==> used[i]) <==> used[0] && (forall i :: 0 <= i < |used[1..]| ==> used[1..][i]);
    }
  }

  lemma {:induction false} ClearFresh(n: nat)
    ensures Clear(seq(n, _ => false)) == n
  {
    if n > 0 {
      ClearFresh(n - 1);
      var s := seq(n, _ => false);
      assert s[1..] == seq(n - 1, _ => false);
    }
  }

  // ----- the hint is exact

  lemma Wrap(a: nat, n: nat)
    requires a < 2 * n
    ensures a % n == if a < n then a else a - n
  {
    if a >= n { assert a == n + (a - n); }
  }

  lemma {:induction false} ProbeAllUsed(p: Pool, k: nat)
    requires k <= |p.used| && forall i :: 0 <= i < |p.used| ==> p.used[i]
    ensures Probe(p, k) == None
    decreases |p.used| - k
  {
    if k < |p.used| { ProbeAllUsed(p, k + 1); }
  }

  /** The circular search finds the lowest free page, or there is none. */
  lemma {:induction false} ProbeLowest(p: Pool, k: nat)
    requires PoolOk(p) && k <= |p.used|
    requires forall i :: 0 <= i < |p.used| && i < p.hint + k ==> p.used[i]
    ensures Probe(p, k).Some? ==> forall i :: 0 <= i < Probe(p, k).value ==> p.used[i]
    ensures Probe(p, k).None? ==> forall i :: 0 <= i < |p.used| ==> p.used[i]
    decreases |p.used| - k
  {
    hide PoolOk;
    if p.hint + k >= |p.used| {
      ProbeAllUsed(p, k);
    } else {
      Wrap(p.hint + k, |p.used|);
      if p.used[p.hint + k] { ProbeLowest(p, k + 1); }
    }
  }

  /** First fit: the lowest page that is not used, and none only when all are. */
  lemma AllocIsFirstFit(p: Pool)
    requires PoolOk(p)
    ensures var (q, page) := Alloc(p);
      && PoolOk(q)
      && (page.None? <==> forall i :: 0 <= i < |p.used| ==> p.used[i])
      && (page.None? ==> q == p)
      && (page.Some? ==>
            && page.value < |p.used| && !p.used[page.value]
            && (forall i :: 0 <= i < page.value ==> p.used[i])
            && q.used == p.used[page.value := true] && q.free == p.free - 1)
  {
    ClearZero(p.used);
    if p.free != 0 {
      ProbeLowest(p, 0);
      hide Probe, Clear;
      var i := Probe(p, 0).value;
      ClearUpdate(p.used, i, true);
      Wrap(i + 1, |p.used|);
    }
  }

  lemma ReleaseKeeps(p: Pool, i: nat)
    requires PoolOk(p) && i < |p.used|
    ensures PoolOk(Release(p, i).0) && Release(p, i).1 == p.used[i]
  {
    if p.used[i] { ClearUpdate(p.used, i, false); }
  }

  lemma FreshOk(n: nat)
    ensures PoolOk(FreshPool(n))
  {
    ClearFresh(n);
  }

  // ----- runs

  datatype Request = Take | Return(page: nat)

  datatype Reply = Page(page: nat) | NoPage | Returned | Refused

  function Step(p: Pool, request: Request): (r: (Pool, Reply))
    ensures |r.0.used| == |p.used|
  {
    match request
    case Take => var (q, page) := Alloc(p); (q, if page.Some? then Page(page.value) else NoPage)
    case Return(i) =>
      if i >= |p.used| then (p, Refused)
      else var (q, ok) := Release(p, i); (q, if ok then Returned else Refused)
  }

  /** The simple allocator: a set of pages on loan out of n, always lending the lowest. */
  ghost predicate SimpleStep(n: nat, held: set<nat>, request: Request, reply: Reply, held': set<nat>)
  {
    match request
    case Take =>
      if forall i :: 0 <= i < n ==> i in held then reply == NoPage && held' == held
      else
        && reply.Page? && reply.page < n && reply.page !in held && (forall i :: 0 <= i < reply.page ==> i in held)
        && held' == held + {reply.page}
    case Return(i) =>
      if i in held then reply == Returned && held' == held - {i} else reply == Refused && held' == held
  }

  function Held(used: seq<bool>): (r: set<nat>)
  {
    set i: nat | i < |used| && used[i]
  }

  lemma {:induction false} HeldSize(used: seq<bool>)
    ensures |Held(used)| + Clear(used) == |used|
    decreases |used|
  {
    if used != [] {
      var m := |used| - 1;
      var front := used[..m];
      HeldSize(front);
      ClearUpdateLast(used);
      assert Held(used) == if used[m] then Held(front) + {m} else Held(front);
    } else {
      assert Held(used) == {};
    }
  }

  lemma {:induction false} ClearUpdateLast(used: seq<bool>)
    requires used != []
    ensures Clear(used) == Clear(used[..|used| - 1]) + if used[|used| - 1] then 0 else 1
  {
    if |used| > 1 {
      ClearUpdateLast(used[1..]);
      assert used[..|used| - 1][1..] == used[1..][..|used| - 2];
    }
  }

  lemma StepRefines(p: Pool, request: Request)
    requires PoolOk(p)
    ensures var (q, reply) := Step(p, request);
      PoolOk(q) && SimpleStep(|p.used|, Held(p.used), request, reply, Held(q.used))
  {
    match request
    case Take =>
      AllocIsFirstFit(p);
      var (q, page) := Alloc(p);
      if page.Some? { assert Held(q.used) == Held(p.used) + {page.value}; }
    case Return(i) =>
      if i < |p.used| {
        ReleaseKeeps(p, i);
        if p.used[i] { assert Held(p.used[i := false]) == Held(p.used) - {i}; }
      }
  }

  function Run(p: Pool, requests: seq<Request>): (r: (Pool, seq<Reply>))
    ensures |r.1| == |requests| && |r.0.used| == |p.used|
    decreases |requests|
  {
    if requests == [] then (p, [])
    else
      var n := |requests| - 1;
      var (q, replies) := Run(p, requests[..n]);
      var (u, reply) := Step(q, requests[n]);
      (u, replies + [reply])
  }

  /** The same replies, and the pages held, by the simple allocator. */
  ghost predicate SimpleRun(n: nat, requests: seq<Request>, replies: seq<Reply>, held: set<nat>)
    requires |replies| == |requests|
    decreases |requests|
  {
    if requests == [] then held == {}
    else
      var m := |requests| - 1;
      exists before :: SimpleRun(n, requests[..m], replies[..m], before)
        && SimpleStep(n, before, requests[m], replies[m], held)
  }

  /** Over every run from the initial pool, the hinted bitmap allocator answers as the simple one: a page is
      lent to one holder at a time, always the lowest free one, and free pages plus held pages are all. */
  lemma {:induction false} RunRefines(n: nat, requests: seq<Request>)
    ensures var (p, replies) := Run(FreshPool(n), requests);
      && PoolOk(p) && SimpleRun(n, requests, replies, Held(p.used)) && |Held(p.used)| + p.free == n
    decreases |requests|
  {
    FreshOk(n);
    var (p, replies) := Run(FreshPool(n), requests);
    HeldSize(p.used);
    if requests == [] {
      assert Held(p.used) == {};
    } else {
      var m := |requests| - 1;
      RunRefines(n, requests[..m]);
      var (q, before) := Run(FreshPool(n), requests[..m]);
      StepRefines(q, requests[m]);
      assert replies[..m] == before;
    }
  }

  // ----- addresses

  /** The address check of a page to be freed. */
  predicate Freeable(start: nat, end: nat, address: nat)
  {
    address != 0 && start <= address < end && address % PAGE_SIZE == 0
  }

  /** Two bytes past one page: the second page's address passes the check, and is no managed page. */
  lemma TailPasses()
    ensures Freeable(4096, 8194, 8192) && (8192 - 4096) / PAGE_SIZE == (8194 - 4096) / PAGE_SIZE == 1
  {
  }

  /** Every address that passes the check belongs to a managed page exactly when the managed range ends on
      a page boundary. */
  lemma CheckExact(start: nat, end: nat)
    requires 0 < start < end && start % PAGE_SIZE == 0
    ensures (forall a: nat :: Freeable(start, end, a) ==> (a - start) / PAGE_SIZE < (end - start) / PAGE_SIZE)
      <==> end % PAGE_SIZE == 0
  {
    if end % PAGE_SIZE != 0 {
      var a := end - end % PAGE_SIZE;
      assert Freeable(start, end, a);
      assert (a - start) / PAGE_SIZE == (end - start) / PAGE_SIZE;
    }
  }
}
