/** Resolving a path string walks exactly the path of its components. */
module FsPaths {
  import opened Common
  import opened FsNames
  import opened FsModel
  import opened FsTree

  /** Nothing lies below a missing node or a file. */
  lemma {:induction false} NothingBelow(nodes: seq<Node>, base: seq<string>, more: seq<string>)
    requires more != []
    requires Lookup(nodes, base).None? || !IsDir(nodes, Lookup(nodes, base).value)
    ensures Lookup(nodes, base + more) == None
    decreases |more|
  {
    var whole := base + more;
    var front := more[..|more| - 1];
    assert whole[..|whole| - 1] == base + front;
    if front != [] {
      NothingBelow(nodes, base, front);
    } else {
      assert base + front == base;
    }
  }

  /** What resolving a path from a directory must report about its components. */
  ghost predicate Reports(nodes: seq<Node>, comps: seq<string>, none: bool, trailing: bool, r: Resolved)
  {
    var target := Lookup(nodes, comps);
    if none then r == Resolved(target, None, "")
    else if trailing then
      && r.parent == None
      && r.node == if target.Some? && IsDir(nodes, target.value) then target else None
    else
      && comps != []
      && r.node == target
      && var d := Lookup(nodes, comps[..|comps| - 1]);
         if d.Some? && IsDir(nodes, d.value) then r.parent == d && r.leaf == comps[|comps| - 1]
         else r.parent == None
  }

  lemma NoComponents(p: string)
    ensures Split(p) == [] <==> SkipSlashes(p) == []
    ensures Split(p) == [] ==> !Trailing(p)
  {
  }

  /** The last component: its directory is the current one. */
  lemma ReportsLast(nodes: seq<Node>, current: nat, base: seq<string>, name: string)
    requires Lookup(nodes, base) == Some(current) && IsDir(nodes, current)
    ensures Reports(nodes, base + [name], false, false, Resolved(Scan(nodes, current, name), Some(current), name))
  {
    hide Scan;
    LookupChild(nodes, base, current, name);
    assert (base + [name])[..|base|] == base;
  }

  /** A component in the middle that is missing or a file. */
  lemma ReportsBlocked(nodes: seq<Node>, current: nat, base: seq<string>, name: string, rest: seq<string>, trailing: bool)
    requires Lookup(nodes, base) == Some(current) && IsDir(nodes, current)
    requires var child := Scan(nodes, current, name); child.None? || !IsDir(nodes, child.value)
    requires rest == [] ==> trailing
    ensures Reports(nodes, base + ([name] + rest), false, trailing, NOT_FOUND)
  {
    hide Scan, Lookup;
    LookupChild(nodes, base, current, name);
    var whole := base + ([name] + rest);
    assert whole == (base + [name]) + rest;
    if rest != [] {
      NothingBelow(nodes, base + [name], rest);
      var front := rest[..|rest| - 1];
      assert whole[..|whole| - 1] == (base + [name]) + front;
      if front != [] { NothingBelow(nodes, base + [name], front); }
      else { assert (base + [name]) + front == base + [name]; }
    } else {
      assert (base + [name]) + rest == base + [name];
    }
  }

  lemma {:induction false} ResolveFromReports(nodes: seq<Node>, current: nat, base: seq<string>, p: string)
    requires Lookup(nodes, base) == Some(current) && IsDir(nodes, current)
    ensures Reports(nodes, base + Split(p), Split(p) == [], Trailing(p), ResolveFrom(nodes, current, p))
    decreases |p|
  {
    hide Split, Trailing, Scan, NameLength, Lookup, Reports;
    if SkipSlashes(p) == [] {
      NoComponents(p);
      assert base + [] == base;
      ReportsHere(nodes, current, base);
    } else {
      TrailingStep(p);
      var name := FirstName(p);
      var rest := Split(Rest(p));
      var child := Scan(nodes, current, name);
      if Rest(p) == [] {
        ReportsLast(nodes, current, base, name);
      } else if child.None? || !IsDir(nodes, child.value) {
        ReportsBlocked(nodes, current, base, name, rest, Trailing(p));
      } else {
        LookupChild(nodes, base, current, name);
        ResolveFromReports(nodes, child.value, base + [name], Rest(p));
        assert base + Split(p) == (base + [name]) + rest;
        NoComponents(Rest(p));
        if rest == [] { ReportsSlash(nodes, child.value, base + [name]); }
      }
    }
  }

  lemma ReportsHere(nodes: seq<Node>, current: nat, path: seq<string>)
    requires Lookup(nodes, path) == Some(current)
    ensures Reports(nodes, path, true, false, Resolved(Some(current), None, ""))
  {
  }

  /** Nothing but slashes behind a directory. */
  lemma ReportsSlash(nodes: seq<Node>, child: nat, path: seq<string>)
    requires Lookup(nodes, path) == Some(child) && IsDir(nodes, child)
    ensures Reports(nodes, path, false, true, Resolved(Some(child), None, ""))
    ensures path + [] == path
  {
  }

  /** resolve_path, for every absolute path. */
  lemma ResolveReports(nodes: seq<Node>, p: string)
    requires Inv(nodes) && p != [] && p[0] == '/'
    ensures Reports(nodes, Split(p), Split(p) == [], Trailing(p), Resolve(nodes, p))
  {
    ResolveFromReports(nodes, 0, [], p);
    assert [] + Split(p) == Split(p);
    if |p| == 1 {
      assert SkipSlashes(p) == [] by { assert p[1..] == []; }
    }
  }
}
