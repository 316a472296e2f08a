/** Collecting rootfs assets: the listed files and, for the required ones, the shared libraries they need. */
module AssetModel {
  import opened Common

  /** The readable programs and libraries with the names each needs, and where each name is found. */
  datatype Source = Source(files: map<string, seq<string>>, libraries: map<string, string>)

  datatype Kind = Tool | Toolchain | Interpreter | Shared

  datatype Entry = Entry(required: bool, kind: Kind, path: string)

  datatype Record = Record(path: string, kind: Kind, required: bool, present: bool, needed: seq<string>)

  function Find(records: seq<Record>, path: string, i: nat): (r: Option<nat>)
    requires i <= |records|
    ensures r.Some? ==> i <= r.value < |records| && records[r.value].path == path
    ensures r.None? ==> forall k :: i <= k < |records| ==> records[k].path != path
    decreases |records| - i
  {
    if i == |records| then None else if records[i].path == path then Some(i) else Find(records, path, i + 1)
  }

  /** add_record: one record a path; a required path must be readable, and makes its record required. */
  function Add(source: Source, records: seq<Record>, e: Entry): (r: Option<seq<Record>>)
  {
    var i := Find(records, e.path, 0);
    if i.Some? then
      if e.required && !records[i.value].present then None
      else Some(records[i.value := records[i.value].(required := records[i.value].required || e.required)])
    else if e.path in source.files then
      Some(records + [Record(e.path, e.kind, e.required, true, source.files[e.path])])
    else if e.required then None
    else Some(records + [Record(e.path, e.kind, false, false, [])])
  }

  function AddAll(source: Source, records: seq<Record>, entries: seq<Entry>): (r: Option<seq<Record>>)
  {
    if entries == [] then Some(records)
    else
      var n := |entries| - 1;
      var before := AddAll(source, records, entries[..n]);
      if before.None? then None else Add(source, before.value, entries[n])
  }

  /** The libraries one record needs, as required records. */
  function AddNeeded(source: Source, records: seq<Record>, names: seq<string>): (r: Option<seq<Record>>)
  {
    if names == [] then Some(records)
    else
      var n := |names| - 1;
      var before := AddNeeded(source, records, names[..n]);
      if before.None? || names[n] !in source.libraries then None
      else Add(source, before.value, Entry(true, Shared, source.libraries[names[n]]))
  }

  // ----- records in order

  predicate RecordOk(source: Source, r: Record)
  {
    && (r.present <==> r.path in source.files)
    && r.needed == (if r.present then source.files[r.path] else [])
    && (r.required ==> r.present)
  }

  predicate Ok(source: Source, records: seq<Record>)
  {
    && (forall k :: 0 <= k < |records| ==> RecordOk(source, records[k]))
    && (forall j, k :: 0 <= j < k < |records| ==> records[j].path != records[k].path)
  }

  function Required(records: seq<Record>): (r: set<string>)
  {
    set k | 0 <= k < |records| && records[k].required :: records[k].path
  }

  function Paths(records: seq<Record>): (r: set<string>)
  {
    set k | 0 <= k < |records| :: records[k].path
  }

  /** The new records keep the old ones in place, with at most the required mark added. */
  predicate Extends(before: seq<Record>, after: seq<Record>)
  {
    && |before| <= |after|
    && forall k :: 0 <= k < |before| ==> after[k] == before[k].(required := after[k].required)
  }

  lemma AddEffect(source: Source, records: seq<Record>, e: Entry)
    requires Ok(source, records)
    ensures var r := Add(source, records, e);
      && (r.None? <==> e.required && e.path !in source.files)
      && (r.Some? ==>
            && Ok(source, r.value) && Extends(records, r.value)
            && Paths(r.value) == Paths(records) + {e.path}
            && Required(r.value) == Required(records) + (if e.required then {e.path} else {})
            && |r.value| == |records| + (if e.path in Paths(records) then 0 else 1)
            && forall k :: |records| <= k < |r.value| ==>
                 r.value[k].path == e.path && r.value[k].kind == e.kind && r.value[k].required == e.required)
  {
    var i := Find(records, e.path, 0);
    var r := Add(source, records, e);
    if i.Some? {
      assert RecordOk(source, records[i.value]);
      if r.Some? { MarkedSets(records, i.value, e.required); }
    } else if r.Some? {
      AppendedSets(records, r.value[|records|]);
    }
  }

  lemma MarkedSets(records: seq<Record>, i: nat, required: bool)
    requires i < |records|
    requires forall j, k :: 0 <= j < k < |records| ==> records[j].path != records[k].path
    ensures var r := records[i := records[i].(required := records[i].required || required)];
      && Paths(r) == Paths(records) + {records[i].path}
      && Required(r) == Required(records) + (if required then {records[i].path} else {})
  {
    var r := records[i := records[i].(required := records[i].required || required)];
    assert forall k | 0 <= k < |r| :: r[k].path == records[k].path;
    assert Paths(r) == Paths(records) + {records[i].path} by {
      assert records[i].path == r[i].path;
      forall p | p in Paths(records) ensures p in Paths(r) {
        var k :| 0 <= k < |records| && records[k].path == p;
        assert r[k].path == p;
      }
    }
    forall p | p in Required(records) + (if required then {records[i].path} else {}) ensures p in Required(r) {
      if p in Required(records) {
        var k :| 0 <= k < |records| && records[k].required && records[k].path == p;
        assert r[k].required && r[k].path == p;
      } else {
        assert r[i].required && r[i].path == p;
      }
    }
  }

  lemma AppendedSets(records: seq<Record>, e: Record)
    ensures Paths(records + [e]) == Paths(records) + {e.path}
    ensures Required(records + [e]) == Required(records) + (if e.required then {e.path} else {})
  {
    var r := records + [e];
    assert r[|records|] == e;
    forall p | p in Paths(records) ensures p in Paths(r) {
      var k :| 0 <= k < |records| && records[k].path == p;
      assert r[k].path == p;
    }
    forall p | p in Required(records) ensures p in Required(r) {
      var k :| 0 <= k < |records| && records[k].required && records[k].path == p;
      assert r[k].required && r[k].path == p;
    }
  }

  // ----- what a record's names resolve to

  /** All these names are found, as readable files. */
  predicate AllFound(source: Source, names: seq<string>)
  {
    forall k :: 0 <= k < |names| ==> names[k] in source.libraries && source.libraries[names[k]] in source.files
  }

  function Needs(source: Source, names: seq<string>): (r: set<string>)
  {
    set k | 0 <= k < |names| && names[k] in source.libraries :: source.libraries[names[k]]
  }

  lemma NeedsMore(source: Source, names: seq<string>, name: string)
    requires name in source.libraries
    ensures Needs(source, names + [name]) == Needs(source, names) + {source.libraries[name]}
  {
    var r := names + [name];
    assert r[|names|] == name;
    forall p | p in Needs(source, names) ensures p in Needs(source, r) {
      var k :| 0 <= k < |names| && names[k] in source.libraries && source.libraries[names[k]] == p;
      assert r[k] == names[k];
    }
  }

  lemma {:induction false} AddNeededEffect(source: Source, records: seq<Record>, names: seq<string>)
    requires Ok(source, records)
    ensures var r := AddNeeded(source, records, names);
      && (r.Some? <==> AllFound(source, names))
      && (r.Some? ==>
            && Ok(source, r.value) && Extends(records, r.value)
            && Paths(r.value) == Paths(records) + Needs(source, names)
            && Required(r.value) == Required(records) + Needs(source, names)
            && forall k :: |records| <= k < |r.value| ==> r.value[k].required)
    decreases |names|
  {
    if names == [] {
      assert Needs(source, []) == {};
    } else {
      hide Ok, Paths, Required, AllFound, Needs, Extends, Find;
      var n := |names| - 1;
      AddNeededEffect(source, records, names[..n]);
      var before := AddNeeded(source, records, names[..n]);
      assert names == names[..n] + [names[n]];
      FoundMore(source, names[..n], names[n]);
      if before.Some? && names[n] in source.libraries {
        AddEffect(source, before.value, Entry(true, Shared, source.libraries[names[n]]));
        NeedsMore(source, names[..n], names[n]);
        StillRequired(records, before.value, AddNeeded(source, records, names));
        if AddNeeded(source, records, names).Some? { AllRequired(records, before.value, AddNeeded(source, records, names).value); }
      }
    }
  }

  /** New records stay required while more are added. */
  lemma AllRequired(records: seq<Record>, mid: seq<Record>, end: seq<Record>)
    requires Extends(records, mid) && Extends(mid, end)
    requires forall k :: |records| <= k < |mid| ==> mid[k].required
    requires forall k :: |mid| <= k < |end| ==> end[k].required
    requires Required(mid) <= Required(end)
    requires forall j, k :: 0 <= j < k < |end| ==> end[j].path != end[k].path
    ensures forall k :: |records| <= k < |end| ==> end[k].required
  {
    forall k | |records| <= k < |end| ensures end[k].required {
      if k < |mid| {
        assert mid[k].path in Required(mid);
      }
    }
  }

  lemma FoundMore(source: Source, names: seq<string>, name: string)
    ensures AllFound(source, names + [name]) <==>
      AllFound(source, names) && name in source.libraries && source.libraries[name] in source.files
  {
    var r := names + [name];
    assert r[|names|] == name;
    if AllFound(source, r) {
      forall k | 0 <= k < |names| ensures names[k] in source.libraries && source.libraries[names[k]] in source.files {
        assert r[k] == names[k];
      }
    }
  }

  lemma StillRequired(records: seq<Record>, mid: seq<Record>, end: Option<seq<Record>>)
    requires Extends(records, mid) && (end.Some? ==> Extends(mid, end.value))
    ensures end.Some? ==> Extends(records, end.value)
  {
  }
}
