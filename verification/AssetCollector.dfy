/** collect_asset_records: lists become records, then a growing worklist adds what required records need. */
module AssetCollector {
  import opened Common
  import opened AssetModel
  import opened AssetClosure

  /** The dictionary finds each record by its path. */
  predicate Indexed(records: seq<Record>, byPath: map<string, nat>)
  {
    && (forall p :: p in byPath ==> byPath[p] < |records| && records[byPath[p]].path == p)
    && (forall k :: 0 <= k < |records| ==> records[k].path in byPath)
  }

  lemma FindByPath(source: Source, records: seq<Record>, byPath: map<string, nat>, path: string)
    requires Indexed(records, byPath) && Ok(source, records)
    ensures Find(records, path, 0) == if path in byPath then Some(byPath[path]) else None
  {
  }

  method AddRecord(source: Source, records: seq<Record>, byPath: map<string, nat>, e: Entry)
    returns (ok: bool, grown: seq<Record>, index: map<string, nat>)
    requires Ok(source, records) && Indexed(records, byPath)
    ensures Add(source, records, e) == if ok then Some(grown) else None
    ensures ok ==> Indexed(grown, index)
  {
    FindByPath(source, records, byPath, e.path);
    if e.path in byPath {
      var i := byPath[e.path];
      if e.required && !records[i].present { return false, records, byPath; }
      grown := records;
      if e.required { grown := grown[i := grown[i].(required := true)]; }
      assert grown == records[i := records[i].(required := records[i].required || e.required)];
      return true, grown, byPath;
    }
    if e.path !in source.files {
      if e.required { return false, records, byPath; }
      return true, records + [Record(e.path, e.kind, false, false, [])], byPath[e.path := |records|];
    }
    return true, records + [Record(e.path, e.kind, e.required, true, source.files[e.path])], byPath[e.path := |records|];
  }

  /** One record of the worklist: its names are resolved and added in turn. */
  method AddLibraries(source: Source, records: seq<Record>, byPath: map<string, nat>, names: seq<string>)
    returns (ok: bool, grown: seq<Record>, index: map<string, nat>)
    requires Ok(source, records) && Indexed(records, byPath)
    ensures AddNeeded(source, records, names) == if ok then Some(grown) else None
    ensures ok ==> Indexed(grown, index)
  {
    grown, index := records, byPath;
    var i: nat := 0;
    assert names[..0] == [];
    while i < |names|
      invariant i <= |names| && AddNeeded(source, records, names[..i]) == Some(grown)
      invariant Ok(source, grown) && Indexed(grown, index)
    {
      AddNeededEffect(source, records, names[..i + 1]);
      assert names[..i + 1][..i] == names[..i];
      hide Ok, Indexed;
      if names[i] !in source.libraries {
        NeverFound(source, records, names, i);
        return false, grown, index;
      }
      ok, grown, index := AddRecord(source, grown, index, Entry(true, Shared, source.libraries[names[i]]));
      if !ok {
        NeverFound(source, records, names, i);
        return;
      }
      i := i + 1;
    }
    assert names[..|names|] == names;
    return true, grown, index;
  }

  /** A name that cannot be added ends it for the whole list. */
  lemma {:induction false} NeverFound(source: Source, records: seq<Record>, names: seq<string>, i: nat)
    requires i < |names| && AddNeeded(source, records, names[..i + 1]) == None
    ensures AddNeeded(source, records, names) == None
    decreases |names|
  {
    if i + 1 < |names| {
      assert names[..|names| - 1][..i + 1] == names[..i + 1];
      NeverFound(source, records, names[..|names| - 1], i);
    } else {
      assert names[..i + 1] == names;
    }
  }

  method AddEntries(source: Source, entries: seq<Entry>) returns (ok: bool, records: seq<Record>, index: map<string, nat>)
    ensures AddAll(source, [], entries) == if ok then Some(records) else None
    ensures ok ==> Ok(source, records) && Indexed(records, index)
  {
    records, index := [], map[];
    var i: nat := 0;
    assert entries[..0] == [];
    while i < |entries|
      invariant i <= |entries| && AddAll(source, [], entries[..i]) == Some(records)
      invariant Ok(source, records) && Indexed(records, index)
    {
      assert entries[..i + 1][..i] == entries[..i];
      ListedEffect(source, entries[..i + 1]);
      hide Ok, Indexed;
      ok, records, index := AddRecord(source, records, index, entries[i]);
      if !ok {
        NeverListed(source, entries, i);
        return;
      }
      i := i + 1;
    }
    assert entries[..|entries|] == entries;
    return true, records, index;
  }

  lemma {:induction false} NeverListed(source: Source, entries: seq<Entry>, i: nat)
    requires i < |entries| && AddAll(source, [], entries[..i + 1]) == None
    ensures AddAll(source, [], entries) == None
    decreases |entries|
  {
    if i + 1 < |entries| {
      assert entries[..|entries| - 1][..i + 1] == entries[..i + 1];
      NeverListed(source, entries[..|entries| - 1], i);
    } else {
      assert entries[..i + 1] == entries;
    }
  }

  /** The worklist: the cursor moves over the records while it makes them more. It fails exactly when no closed
      set has all its libraries. */
  method Work(source: Source, listed: seq<Record>, listedIndex: map<string, nat>) returns (result: Option<seq<Record>>)
    requires Ok(source, listed) && Indexed(listed, listedIndex)
    ensures result.None? ==>
      forall e: set<string> :: Closed(source, Required(listed), Late(source, listed), e) ==>
        !Complete(source, Late(source, listed), e)
    ensures result.Some? ==>
      && Ok(source, result.value)
      && Least(source, Required(listed), Late(source, listed), Required(result.value))
      && Complete(source, Late(source, listed), Required(result.value))
      && Paths(result.value) == Paths(listed) + Required(result.value)
  {
    hide Closed, Complete, Required, Paths, Ok, Late, Served, Least, WorkInv, Within, Indexed;
    var records, byPath := listed, listedIndex;
    ghost var expanded: set<string> := {};
    WorkStart(source, listed);
    StartWithin(source, listed);
    var index: nat := 0;
    while index < |records|
      invariant index <= |records|
      invariant WorkInv(source, listed, records, index, expanded) && Within(source, listed, records)
      invariant Ok(source, records) && Indexed(records, byPath)
      decreases |Paths(listed) + source.files.Keys| - index
    {
      WorkBounded(source, listed, records, index, expanded);
      var record := records[index];
      if !record.present || !record.required {
        SkipKeeps(source, listed, records, index, expanded);
      } else {
        ghost var before := records;
        var ok: bool;
        AddNeededEffect(source, records, record.needed);
        ok, records, byPath := AddLibraries(source, records, byPath, record.needed);
        if !ok {
          ExpandFails(source, listed, before, index, expanded);
          return None;
        }
        ExpandKeeps(source, listed, before, index, expanded, records);
        ExpandWithin(source, listed, before, index, expanded, records);
        expanded := expanded + {record.path};
      }
      index := index + 1;
    }
    WorkDone(source, listed, records, expanded);
    return Some(records);
  }

  /** The records collected hold each path once: the listed paths and the least set of required paths that
      holds the required listed ones and is closed under the needs of all but the late ones. It fails exactly
      when a required listed path cannot be read, or a path that is reached and not late lacks a library. The set is the
      full closure, the needs of late paths included, exactly when the late paths are harmless. */
  method Collect(source: Source, entries: seq<Entry>) returns (result: Option<seq<Record>>)
    ensures result.Some? <==>
      && RequiredPaths(entries) <= source.files.Keys
      && ReachedFound(source, RequiredPaths(entries), LateOf(source, entries))
    ensures result.Some? ==>
      && Ok(source, result.value)
      && Least(source, RequiredPaths(entries), LateOf(source, entries), Required(result.value))
      && Complete(source, LateOf(source, entries), Required(result.value))
      && Paths(result.value) == EntryPaths(entries) + Required(result.value)
      && (forall p :: p in Required(result.value) <==> Reached(source, RequiredPaths(entries), LateOf(source, entries), p))
      && (Least(source, RequiredPaths(entries), {}, Required(result.value)) <==>
            LateHarmless(source, RequiredPaths(entries), LateOf(source, entries)))
  {
    hide Closed, Complete, Required, Paths, Ok, Late, Served, RequiredPaths, EntryPaths, Indexed;
    hide Reached, LateHarmless, ReachedFound;
    ListedEffect(source, entries);
    CompleteIff(source, RequiredPaths(entries), LateOf(source, entries));
    var ok, listed, byPath := AddEntries(source, entries);
    if !ok { return None; }
    result := Work(source, listed, byPath);
    if result.Some? {
      ghost var d := Required(result.value);
      assert Closed(source, RequiredPaths(entries), LateOf(source, entries), d) && Complete(source, LateOf(source, entries), d);
      LeastIsReached(source, RequiredPaths(entries), LateOf(source, entries), d);
      FullClosureIff(source, RequiredPaths(entries), LateOf(source, entries), d);
    }
  }

  lemma StartWithin(source: Source, listed: seq<Record>)
    ensures Within(source, listed, listed)
  {
  }

  /** The late paths of these lists. */
  function LateOf(source: Source, entries: seq<Entry>): (r: set<string>)
  {
    var listed := AddAll(source, [], entries);
    if listed.None? then {} else Late(source, listed.value)
  }
}
