/** What the asset worklist computes: the least set of required paths closed under what they need. */
module AssetClosure {
  import opened Common
  import opened Sets
  import opened AssetModel

  /** A set of paths that holds the roots and, with each path that is served, the paths it needs. */
  predicate Closed(source: Source, roots: set<string>, late: set<string>, d: set<string>)
  {
    && roots <= d
    && forall p :: p in d && p in source.files && p !in late ==> Needs(source, source.files[p]) <= d
  }

  /** The smallest such set. */
  ghost predicate Least(source: Source, roots: set<string>, late: set<string>, d: set<string>)
  {
    Closed(source, roots, late, d)
    && forall e: set<string> :: Closed(source, roots, late, e) ==> d <= e
  }

  predicate Complete(source: Source, late: set<string>, d: set<string>)
  {
    forall p :: p in d && p !in late ==> p in source.files && AllFound(source, source.files[p])
  }

  predicate NeededBy(source: Source, served: set<string>, path: string)
  {
    exists q :: q in served && q in source.files && path in Needs(source, source.files[q])
  }

  /** Of the first j listed records, those whose needs the worklist adds: required from the start, or needed
      by one listed before. */
  function Served(source: Source, listed: seq<Record>, j: nat): (r: set<string>)
    requires j <= |listed|
  {
    if j == 0 then {}
    else
      var before := Served(source, listed, j - 1);
      var r := listed[j - 1];
      if r.present && (r.required || NeededBy(source, before, r.path)) then before + {r.path} else before
  }

  /** Readable optional paths that no served path listed before them needs: should one be needed later, the
      worklist has already gone past it. */
  function Late(source: Source, listed: seq<Record>): (r: set<string>)
  {
    (set k | 0 <= k < |listed| && listed[k].present :: listed[k].path) - Served(source, listed, |listed|)
  }

  lemma {:induction false} ServedGrows(source: Source, listed: seq<Record>, i: nat, j: nat)
    requires i <= j <= |listed|
    ensures Served(source, listed, i) <= Served(source, listed, j)
    decreases j
  {
    if i < j { ServedGrows(source, listed, i, j - 1); }
  }

  /** The path of a listed record is served when the cursor is at it, or never. */
  lemma {:induction false} ServedInTime(source: Source, listed: seq<Record>, k: nat, j: nat)
    requires Ok(source, listed) && k < j <= |listed| && listed[k].path in Served(source, listed, j)
    ensures listed[k].path in Served(source, listed, k + 1)
    decreases j
  {
    if k + 1 < j {
      assert listed[j - 1].path != listed[k].path;
      ServedInTime(source, listed, k, j - 1);
    }
  }

  // ----- the loop invariant

  ghost predicate Expanded(source: Source, listed: seq<Record>, records: seq<Record>, p: string)
  {
    p in source.files && p in Required(records) && p !in Late(source, listed) && AllFound(source, source.files[p])
  }

  /** Before the cursor, every required record that is not late has been expanded; what is required is
      what the roots and the expanded paths ask for. */
  ghost predicate WorkInv(source: Source, listed: seq<Record>, records: seq<Record>, index: nat, expanded: set<string>)
  {
    && Ok(source, listed) && Ok(source, records) && Extends(listed, records) && index <= |records|
    && (forall k :: |listed| <= k < |records| ==> records[k].required)
    && Paths(records) <= Paths(listed) + source.files.Keys
    && (forall p :: p in expanded ==> Expanded(source, listed, records, p))
    && (forall p :: p in Required(records) <==> p in Required(listed) || NeededBy(source, expanded, p))
    && (forall k :: 0 <= k < index && records[k].required && records[k].path !in Late(source, listed)
          ==> records[k].path in expanded)
    && (index <= |listed| ==> expanded == Served(source, listed, index))
    && (index >= |listed| ==> Served(source, listed, |listed|) <= expanded)
  }

  lemma RequiredAt(source: Source, records: seq<Record>, k: nat)
    requires Ok(source, records) && k < |records|
    ensures records[k].path in Required(records) <==> records[k].required
  {
  }

  lemma WorkStart(source: Source, listed: seq<Record>)
    requires Ok(source, listed)
    ensures WorkInv(source, listed, listed, 0, {})
  {
  }

  /** At the cursor, a record is required exactly when it is to be served. */
  lemma AtCursor(source: Source, listed: seq<Record>, records: seq<Record>, index: nat, expanded: set<string>)
    requires WorkInv(source, listed, records, index, expanded) && index < |records|
    ensures var r := records[index];
      && (index < |listed| ==>
           Served(source, listed, index + 1) == expanded + (if r.present && r.required then {r.path} else {}))
      && (r.present && r.required ==> r.path !in Late(source, listed))
  {
    var r := records[index];
    RequiredAt(source, records, index);
    if index < |listed| {
      RequiredAt(source, listed, index);
      assert r.path == listed[index].path && r.present == listed[index].present;
      ServedGrows(source, listed, index + 1, |listed|);
    } else {
      forall k | 0 <= k < |listed| ensures listed[k].path != r.path {
        assert records[k].path == listed[k].path;
      }
    }
  }

  lemma NeededMore(source: Source, expanded: set<string>, q: string, p: string)
    requires q in source.files
    ensures NeededBy(source, expanded + {q}, p) <==> NeededBy(source, expanded, p) || p in Needs(source, source.files[q])
  {
  }

  lemma SkipKeeps(source: Source, listed: seq<Record>, records: seq<Record>, index: nat, expanded: set<string>)
    requires WorkInv(source, listed, records, index, expanded) && index < |records|
    requires !records[index].present || !records[index].required
    ensures WorkInv(source, listed, records, index + 1, expanded)
  {
    AtCursor(source, listed, records, index, expanded);
    assert RecordOk(source, records[index]);
  }

  lemma ExpandKeeps(source: Source, listed: seq<Record>, records: seq<Record>, index: nat, expanded: set<string>,
                    more: seq<Record>)
    requires WorkInv(source, listed, records, index, expanded) && index < |records|
    requires records[index].present && records[index].required
    requires AddNeeded(source, records, records[index].needed) == Some(more)
    ensures WorkInv(source, listed, more, index + 1, expanded + {records[index].path})
  {
    hide Served, AddNeeded, Late, Needs, NeededBy, Required, AllFound, Paths, Ok;
    var r := records[index];
    assert RecordOk(source, r) by { OkAt(source, records, index); }
    AtCursor(source, listed, records, index, expanded);
    AddNeededEffect(source, records, r.needed);
    RequiredAt(source, records, index);
    StillRequired(listed, records, Some(more));
    NeedsFound(source, r.needed);
    forall p ensures p in Required(more) <==> p in Required(listed) || NeededBy(source, expanded + {r.path}, p) {
      NeededMore(source, expanded, r.path, p);
    }
    forall k | |listed| <= k < |more| ensures more[k].required {
      if k < |records| { assert records[k].required; RequiredStays(source, records, more, k); }
    }
    forall k | 0 <= k < index + 1 && more[k].required && more[k].path !in Late(source, listed)
      ensures more[k].path in expanded + {r.path}
    {
      OkAt(source, more, k);
      if k < index && !records[k].required { NotLateSkipped(source, listed, records, index, expanded, more, k); }
    }
  }

  lemma OkAt(source: Source, records: seq<Record>, k: nat)
    requires Ok(source, records) && k < |records|
    ensures RecordOk(source, records[k])
  {
  }

  lemma NeedsFound(source: Source, names: seq<string>)
    requires AllFound(source, names)
    ensures Needs(source, names) <= source.files.Keys
  {
  }

  lemma RequiredStays(source: Source, records: seq<Record>, more: seq<Record>, k: nat)
    requires Ok(source, records) && Ok(source, more) && Extends(records, more) && Required(records) <= Required(more)
    requires k < |records| && records[k].required
    ensures more[k].required
  {
    RequiredAt(source, records, k);
    assert more[k].path == records[k].path;
    RequiredAt(source, more, k);
  }

  /** A record the cursor has passed unserved, and that becomes required now, is late. */
  lemma NotLateSkipped(source: Source, listed: seq<Record>, records: seq<Record>, index: nat, expanded: set<string>,
                       more: seq<Record>, k: nat)
    requires WorkInv(source, listed, records, index, expanded) && k < index && !records[k].required
    requires Extends(records, more) && more[k].required && RecordOk(source, more[k])
    ensures more[k].path in Late(source, listed)
  {
    assert k < |listed|;
    assert listed[k].path == records[k].path == more[k].path;
    assert RecordOk(source, listed[k]);
    RequiredAt(source, records, k);
    if listed[k].path in Served(source, listed, |listed|) {
      ServedInTime(source, listed, k, |listed|);
      ServedBeforeCursor(source, listed, records, index, expanded, k);
    }
  }

  lemma ServedBeforeCursor(source: Source, listed: seq<Record>, records: seq<Record>, index: nat, expanded: set<string>, k: nat)
    requires WorkInv(source, listed, records, index, expanded) && k < index && k < |listed|
    requires listed[k].path in Served(source, listed, k + 1)
    ensures listed[k].path in Required(records)
  {
    ServedWanted(source, listed, k + 1, listed[k].path);
    if NeededBy(source, Served(source, listed, k + 1), listed[k].path) {
      ServedExpanded(source, listed, records, index, expanded, k + 1);
    }
  }

  lemma {:induction false} ServedWanted(source: Source, listed: seq<Record>, j: nat, p: string)
    requires j <= |listed| && p in Served(source, listed, j)
    ensures p in Required(listed) || NeededBy(source, Served(source, listed, j), p)
  {
    if p in Served(source, listed, j - 1) { ServedWanted(source, listed, j - 1, p); }
  }

  /** What is served up to the cursor has been expanded. */
  lemma ServedExpanded(source: Source, listed: seq<Record>, records: seq<Record>, index: nat, expanded: set<string>, j: nat)
    requires WorkInv(source, listed, records, index, expanded) && j <= index && j <= |listed|
    ensures Served(source, listed, j) <= expanded
  {
    if index <= |listed| {
      ServedGrows(source, listed, j, index);
    } else {
      ServedGrows(source, listed, j, |listed|);
      AllServedExpanded(source, listed, records, index, expanded);
    }
  }

  lemma AllServedExpanded(source: Source, listed: seq<Record>, records: seq<Record>, index: nat, expanded: set<string>)
    requires WorkInv(source, listed, records, index, expanded) && index >= |listed|
    ensures Served(source, listed, |listed|) <= expanded
  {
  }

  /** Nothing is required that a closed set could do without. */
  ghost predicate Within(source: Source, listed: seq<Record>, records: seq<Record>)
  {
    forall e: set<string> :: Closed(source, Required(listed), Late(source, listed), e) ==> Required(records) <= e
  }

  lemma ExpandWithin(source: Source, listed: seq<Record>, records: seq<Record>, index: nat, expanded: set<string>,
                     more: seq<Record>)
    requires WorkInv(source, listed, records, index, expanded) && index < |records| && Within(source, listed, records)
    requires records[index].present && records[index].required
    requires AddNeeded(source, records, records[index].needed) == Some(more)
    ensures Within(source, listed, more)
  {
    hide Needs, Paths, AddNeeded, Late, Required, AllFound, NeededBy, Served;
    RequiredAt(source, records, index);
    assert RecordOk(source, records[index]);
    AtCursor(source, listed, records, index, expanded);
    AddNeededEffect(source, records, records[index].needed);
  }

  /** A required record whose libraries are not all there is in every closed set. */
  lemma ExpandFails(source: Source, listed: seq<Record>, records: seq<Record>, index: nat, expanded: set<string>)
    requires WorkInv(source, listed, records, index, expanded) && index < |records| && Within(source, listed, records)
    requires records[index].present && records[index].required
    requires AddNeeded(source, records, records[index].needed) == None
    ensures forall e: set<string> :: Closed(source, Required(listed), Late(source, listed), e) ==>
      !Complete(source, Late(source, listed), e)
  {
    hide Needs, Paths, AddNeeded, Late, Required, AllFound, NeededBy, Served;
    RequiredAt(source, records, index);
    assert RecordOk(source, records[index]);
    AtCursor(source, listed, records, index, expanded);
    AddNeededEffect(source, records, records[index].needed);
  }

  lemma WorkDone(source: Source, listed: seq<Record>, records: seq<Record>, expanded: set<string>)
    requires WorkInv(source, listed, records, |records|, expanded) && Within(source, listed, records)
    ensures Least(source, Required(listed), Late(source, listed), Required(records))
    ensures Complete(source, Late(source, listed), Required(records))
    ensures Paths(records) == Paths(listed) + Required(records)
  {
    hide Needs, Late, AllFound, Served;
    forall p | p in Required(records) && p !in Late(source, listed) ensures Expanded(source, listed, records, p) {
      var k :| 0 <= k < |records| && records[k].required && records[k].path == p;
    }
    forall p | p in Paths(listed) ensures p in Paths(records) {
      var k :| 0 <= k < |listed| && listed[k].path == p;
      assert records[k].path == p;
    }
    forall p | p in Paths(records) ensures p in Paths(listed) + Required(records) {
      var k :| 0 <= k < |records| && records[k].path == p;
      if k < |listed| { assert listed[k].path == p; }
    }
  }

  lemma LastIsNew(source: Source, records: seq<Record>)
    requires Ok(source, records) && records != []
    ensures var n := |records| - 1;
      Ok(source, records[..n]) && records[n].path !in Paths(records[..n])
  {
  }

  lemma NoPaths()
    ensures Paths([]) == {}
  {
  }

  /** A record list holds each path once. */
  lemma {:induction false} PathsSize(source: Source, records: seq<Record>)
    requires Ok(source, records)
    ensures |Paths(records)| == |records|
    decreases |records|
  {
    hide Ok, Paths;
    if records == [] {
      NoPaths();
    } else {
      var n := |records| - 1;
      var front, last := records[..n], records[n];
      LastIsNew(source, records);
      PathsSize(source, front);
      AppendedSets(front, last);
      assert records == front + [last];
      assert |Paths(front) + {last.path}| == |Paths(front)| + 1;
    }
  }

  lemma WorkBounded(source: Source, listed: seq<Record>, records: seq<Record>, index: nat, expanded: set<string>)
    requires WorkInv(source, listed, records, index, expanded)
    ensures |records| <= |Paths(listed) + source.files.Keys|
  {
    PathsSize(source, records);
    SubsetSize(Paths(records), Paths(listed) + source.files.Keys);
  }

  // ----- the listed records

  function EntryPaths(entries: seq<Entry>): (r: set<string>)
  {
    set k | 0 <= k < |entries| :: entries[k].path
  }

  function RequiredPaths(entries: seq<Entry>): (r: set<string>)
  {
    set k | 0 <= k < |entries| && entries[k].required :: entries[k].path
  }

  /** The lists become records unless a required path cannot be read. */
  lemma {:induction false} ListedEffect(source: Source, entries: seq<Entry>)
    ensures var r := AddAll(source, [], entries);
      && (r.Some? <==> RequiredPaths(entries) <= source.files.Keys)
      && (r.Some? ==>
            && Ok(source, r.value) && Paths(r.value) == EntryPaths(entries) && Required(r.value) == RequiredPaths(entries))
    decreases |entries|
  {
    if entries != [] {
      hide Ok, Paths, Required;
      var n := |entries| - 1;
      ListedEffect(source, entries[..n]);
      var before := AddAll(source, [], entries[..n]);
      if before.Some? { AddEffect(source, before.value, entries[n]); }
      assert EntryPaths(entries) == EntryPaths(entries[..n]) + {entries[n].path};
      assert RequiredPaths(entries) == RequiredPaths(entries[..n]) + (if entries[n].required then {entries[n].path} else {}) by {
        assert entries[..n] + [entries[n]] == entries;
      }
    }
  }

  // ----- what it comes to

  /** Without optional paths nothing is late: the collection is the full closure. */
  lemma {:induction false} AllServed(source: Source, listed: seq<Record>, j: nat)
    requires j <= |listed| && forall k :: 0 <= k < |listed| ==> listed[k].required && listed[k].present
    ensures forall k :: 0 <= k < j ==> listed[k].path in Served(source, listed, j)
  {
    if j > 0 { AllServed(source, listed, j - 1); }
  }

  lemma NothingLate(source: Source, entries: seq<Entry>)
    requires forall k :: 0 <= k < |entries| ==> entries[k].required
    ensures var r := AddAll(source, [], entries);
      r.Some? ==> Late(source, r.value) == {}
  {
    var r := AddAll(source, [], entries);
    ListedEffect(source, entries);
    if r.Some? {
      assert RequiredPaths(entries) == EntryPaths(entries);
      forall k | 0 <= k < |r.value| ensures r.value[k].required && r.value[k].present {
        assert r.value[k].path in Paths(r.value);
        RequiredAt(source, r.value, k);
        assert RecordOk(source, r.value[k]);
      }
      AllServed(source, r.value, |r.value|);
    }
  }

  // ----- reached through the lists and the source tree

  /** q is a path p asks for: p is readable and not late, and one of its names is found at q. */
  predicate Asks(source: Source, late: set<string>, p: string, q: string)
  {
    p in source.files && p !in late && q in Needs(source, source.files[p])
  }

  predicate Chain(source: Source, roots: set<string>, late: set<string>, chain: seq<string>)
  {
    && chain != [] && chain[0] in roots
    && forall k :: 0 <= k < |chain| - 1 ==> Asks(source, late, chain[k], chain[k + 1])
  }

  /** Some chain of needs leads from a root to p without going through a late path. */
  ghost predicate Reached(source: Source, roots: set<string>, late: set<string>, p: string)
  {
    exists chain :: Chain(source, roots, late, chain) && chain[|chain| - 1] == p
  }

  lemma ReachedNext(source: Source, roots: set<string>, late: set<string>, p: string, q: string)
    requires Reached(source, roots, late, p) && Asks(source, late, p, q)
    ensures Reached(source, roots, late, q)
  {
    var chain :| Chain(source, roots, late, chain) && chain[|chain| - 1] == p;
    var longer := chain + [q];
    forall k | 0 <= k < |longer| - 1 ensures Asks(source, late, longer[k], longer[k + 1]) {
      if k < |chain| - 1 { assert longer[k] == chain[k] && longer[k + 1] == chain[k + 1]; }
    }
    assert Chain(source, roots, late, longer) && longer[|longer| - 1] == q;
  }

  lemma {:induction false} ChainInClosed(source: Source, roots: set<string>, late: set<string>, d: set<string>, chain: seq<string>)
    requires Closed(source, roots, late, d) && Chain(source, roots, late, chain)
    ensures chain[|chain| - 1] in d
    decreases |chain|
  {
    var n := |chain| - 1;
    if n > 0 {
      var front := chain[..n];
      assert Chain(source, roots, late, front);
      ChainInClosed(source, roots, late, d, front);
      assert Asks(source, late, chain[n - 1], chain[n]);
    }
  }

  /** The least closed set is what is reached. */
  lemma LeastIsReached(source: Source, roots: set<string>, late: set<string>, d: set<string>)
    requires Least(source, roots, late, d)
    ensures forall p :: p in d <==> Reached(source, roots, late, p)
  {
    forall p | Reached(source, roots, late, p) ensures p in d {
      var chain :| Chain(source, roots, late, chain) && chain[|chain| - 1] == p;
      ChainInClosed(source, roots, late, d, chain);
    }
    var e := ReachedIn(source, roots, late, d);
    forall r | r in roots ensures r in e {
      assert Chain(source, roots, late, [r]);
    }
    forall p | p in e && p in source.files && p !in late ensures Needs(source, source.files[p]) <= e {
      forall q | q in Needs(source, source.files[p]) ensures q in e {
        assert Asks(source, late, p, q);
        ReachedNext(source, roots, late, p, q);
      }
    }
    assert Closed(source, roots, late, e);
  }

  /** Every path that is reached and served is readable, with all its libraries. */
  ghost predicate ReachedFound(source: Source, roots: set<string>, late: set<string>)
  {
    forall p :: Reached(source, roots, late, p) && p !in late ==> p in source.files && AllFound(source, source.files[p])
  }

  lemma {:induction false} ChainAmong(source: Source, roots: set<string>, late: set<string>, chain: seq<string>)
    requires Chain(source, roots, late, chain)
    ensures chain[|chain| - 1] in roots + source.libraries.Values
  {
    var n := |chain| - 1;
    if n > 0 { assert Asks(source, late, chain[n - 1], chain[n]); }
  }

  /** Some closed set has all its libraries exactly when everything reached has. */
  lemma CompleteIff(source: Source, roots: set<string>, late: set<string>)
    ensures (exists d: set<string> :: Closed(source, roots, late, d) && Complete(source, late, d))
      <==> ReachedFound(source, roots, late)
  {
    var e := ReachedIn(source, roots, late, roots + source.libraries.Values);
    assert Closed(source, roots, late, e) by { ReachedClosed(source, roots, late, e); }
    if ReachedFound(source, roots, late) { assert Complete(source, late, e); }
    forall d: set<string>, p | Closed(source, roots, late, d) && Reached(source, roots, late, p) ensures p in d {
      var chain :| Chain(source, roots, late, chain) && chain[|chain| - 1] == p;
      ChainInClosed(source, roots, late, d, chain);
    }
  }

  lemma ReachedClosed(source: Source, roots: set<string>, late: set<string>, e: set<string>)
    requires e == ReachedIn(source, roots, late, roots + source.libraries.Values)
    ensures Closed(source, roots, late, e)
  {
    forall r | r in roots ensures r in e {
      assert Chain(source, roots, late, [r]);
    }
    forall p | p in e && p in source.files && p !in late ensures Needs(source, source.files[p]) <= e {
      forall q | q in Needs(source, source.files[p]) ensures q in e {
        assert Asks(source, late, p, q);
        ReachedNext(source, roots, late, p, q);
        var chain :| Chain(source, roots, late, chain) && chain[|chain| - 1] == q;
        ChainAmong(source, roots, late, chain);
      }
    }
  }

  ghost function ReachedIn(source: Source, roots: set<string>, late: set<string>, d: set<string>): (r: set<string>)
    ensures forall p :: p in r <==> p in d && Reached(source, roots, late, p)
  {
    set p | p in d && Reached(source, roots, late, p)
  }

  /** Whatever a late path that is reached asks for is reached without it: a condition on the lists and the
      source tree alone. */
  ghost predicate LateHarmless(source: Source, roots: set<string>, late: set<string>)
  {
    forall p, q | p in late && p in source.files && q in Needs(source, source.files[p]) && Reached(source, roots, late, p) ::
      Reached(source, roots, late, q)
  }

  /** What is collected is the full closure under all needs, those of late paths included, exactly when the
      late paths are harmless. */
  lemma FullClosureIff(source: Source, roots: set<string>, late: set<string>, d: set<string>)
    requires Least(source, roots, late, d)
    ensures Least(source, roots, {}, d) <==> LateHarmless(source, roots, late)
    ensures Closed(source, roots, {}, d) <==> LateHarmless(source, roots, late)
  {
    LeastIsReached(source, roots, late, d);
    hide Reached, Needs;
    forall e: set<string> | Closed(source, roots, {}, e) ensures Closed(source, roots, late, e) {
    }
    if LateHarmless(source, roots, late) {
      forall p | p in d && p in source.files ensures Needs(source, source.files[p]) <= d {
        if p in late {
          forall q | q in Needs(source, source.files[p]) ensures q in d {
            assert Reached(source, roots, late, q);
          }
        }
      }
    }
  }

  lemma ListTwo(source: Source, e: Entry, f: Entry)
    requires e.path in source.files && f.path in source.files && e.path != f.path
    ensures AddAll(source, [], [e, f]) ==
      Some([Record(e.path, e.kind, e.required, true, source.files[e.path]),
            Record(f.path, f.kind, f.required, true, source.files[f.path])])
  {
    var a := Record(e.path, e.kind, e.required, true, source.files[e.path]);
    assert [e, f][..1] == [e] && [e][..0] == [];
    var none: seq<Record> := [];
    assert AddAll(source, none, [e][..0]) == Some(none);
    assert none + [a] == [a];
    assert Add(source, none, e) == Some([a]);
    assert AddAll(source, [], [e]) == Some([a]);
    assert Find([a], f.path, 1) == None;
    assert Find([a], f.path, 0) == None;
    var b := Record(f.path, f.kind, f.required, true, source.files[f.path]);
    assert [a] + [b] == [a, b] && [e, f][1] == f;
    assert Add(source, [a], f) == Some([a, b]);
  }

  /** An optional library that is found to be required only after the cursor has passed it: what it needs
      itself is not collected. */
  lemma UpgradeLost(source: Source, entries: seq<Entry>, d: set<string>)
    requires source == Source(
      map["/bin/a" := ["c"], "/lib/b" := ["d"], "/lib/c" := ["b"], "/lib/d" := []],
      map["b" := "/lib/b", "c" := "/lib/c", "d" := "/lib/d"])
    requires entries == [Entry(true, Tool, "/bin/a"), Entry(false, Shared, "/lib/b")]
    requires var listed := AddAll(source, [], entries);
      listed.Some? && Least(source, Required(listed.value), Late(source, listed.value), d)
    ensures d == {"/bin/a", "/lib/b", "/lib/c"} && !Closed(source, {"/bin/a"}, {}, d)
  {
    var a := Record("/bin/a", Tool, true, true, ["c"]);
    var b := Record("/lib/b", Shared, false, true, ["d"]);
    var listed := [a, b];
    ListTwo(source, entries[0], entries[1]);
    assert entries == [entries[0], entries[1]];
    assert Needs(source, ["c"]) == {"/lib/c"} by { assert ["c"][0] == "c"; }
    assert Needs(source, ["b"]) == {"/lib/b"} by { assert ["b"][0] == "b"; }
    assert Needs(source, ["d"]) == {"/lib/d"} by { assert ["d"][0] == "d"; }
    hide Needs;
    assert Served(source, listed, 1) == {"/bin/a"};
    assert Served(source, listed, 2) == {"/bin/a"};
    assert listed[1].path == "/lib/b";
    assert Late(source, listed) == {"/lib/b"} by { assert listed[0].path == "/bin/a"; }
    assert Required(listed) == {"/bin/a"} by { assert listed[0].required; }
    var e := {"/bin/a", "/lib/b", "/lib/c"};
    assert Closed(source, {"/bin/a"}, {"/lib/b"}, e);
    assert d <= e;
    assert "/bin/a" in d;
    assert "/lib/c" in d;
    assert "/lib/b" in d;
  }
}
