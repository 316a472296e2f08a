/** The directory tree: its index agrees with a scan, its paths are unique, and inserting or removing
    a node changes what exactly one path denotes. */
module FsTree {
  import opened Common
  import opened FsNames
  import opened FsModel

  // ----- names and scans

  /** A directory never has two children of one name. */
  lemma NamesUnique(nodes: seq<Node>, d: nat, name: string, i: nat, j: nat)
    requires Inv(nodes) && IsDir(nodes, d) && IsChild(nodes, d, name, i) && IsChild(nodes, d, name, j)
    ensures i == j
  {
    assert IndexOk(nodes, d);
    var index := nodes[d].dirIndex;
    var k :| 0 <= k < |index| && index[k] == i;
    var l :| 0 <= l < |index| && index[l] == j;
    CompareZero(name, name);
    assert k < l ==> Less(nodes[index[k]].name, nodes[index[l]].name);
    assert l < k ==> Less(nodes[index[l]].name, nodes[index[k]].name);
  }

  lemma ScanIs(nodes: seq<Node>, d: nat, name: string, i: nat)
    requires Inv(nodes) && IsDir(nodes, d) && IsChild(nodes, d, name, i)
    ensures Scan(nodes, d, name) == Some(i)
  {
    NamesUnique(nodes, d, name, i, Scan(nodes, d, name).value);
  }

  // ----- paths are unique

  lemma {:induction false} LookupUsed(nodes: seq<Node>, path: seq<string>)
    requires Inv(nodes) && Lookup(nodes, path).Some?
    ensures Lookup(nodes, path).value < |nodes| && nodes[Lookup(nodes, path).value].used
    ensures path != [] ==> Lookup(nodes, path).value != 0
  {
    if path != [] {
      assert nodes[0].parent == NO_PARENT;
    }
  }

  /** No two paths lead to the same node: the parent links form a tree rooted at node 0. */
  lemma {:induction false} PathsUnique(nodes: seq<Node>, p: seq<string>, q: seq<string>)
    requires Inv(nodes) && Lookup(nodes, p).Some? && Lookup(nodes, p) == Lookup(nodes, q)
    ensures p == q
    decreases |p|
  {
    LookupUsed(nodes, p);
    LookupUsed(nodes, q);
    if p != [] && q != [] {
      PathsUnique(nodes, p[..|p| - 1], q[..|q| - 1]);
      assert p == p[..|p| - 1] + [p[|p| - 1]] && q == q[..|q| - 1] + [q[|q| - 1]];
    }
  }

  /** One step down from a directory. */
  lemma LookupChild(nodes: seq<Node>, p: seq<string>, d: nat, name: string)
    requires Lookup(nodes, p) == Some(d) && IsDir(nodes, d)
    ensures Lookup(nodes, p + [name]) == Scan(nodes, d, name)
  {
    assert (p + [name])[..|p + [name]| - 1] == p;
  }

  /** The linear search for children agrees with the index being nonempty. */
  lemma HasChildrenIff(nodes: seq<Node>, d: nat)
    requires Inv(nodes) && IsDir(nodes, d)
    ensures (exists i :: 0 <= i < |nodes| && nodes[i].used && nodes[i].parent == d) <==> |nodes[d].dirIndex| > 0
  {
    assert IndexOk(nodes, d);
    var index := nodes[d].dirIndex;
    if |index| > 0 {
      assert index[0] in index;
      assert nodes[index[0]].used && nodes[index[0]].parent == d;
    }
  }

  // ----- inserting a node

  ghost predicate Insertable(nodes: seq<Node>, parent: nat, name: string, n: nat)
  {
    && Inv(nodes) && IsDir(nodes, parent) && n < |nodes| && !nodes[n].used
    && 0 < |name| < MAX_NAME && Scan(nodes, parent, name).None?
  }

  lemma InsertSafe(nodes: seq<Node>, parent: nat, name: string, n: nat)
    requires Insertable(nodes, parent, name, n)
    ensures parent != n && n != 0
    ensures forall j :: 0 <= j < |nodes[parent].dirIndex| ==> nodes[parent].dirIndex[j] < |nodes|
  {
    assert IndexOk(nodes, parent);
  }

  /** Outside the new node, only the parent's index and tables moved. */
  lemma InsertFrame(nodes: seq<Node>, parent: nat, name: string, directory: bool, n: nat)
    requires Insertable(nodes, parent, name, n)
    ensures parent != n && n != 0
    ensures forall j :: 0 <= j < |nodes[parent].dirIndex| ==> nodes[parent].dirIndex[j] < |nodes|
    ensures var u := InsertNode(nodes, parent, name, directory, n);
      && (forall i :: 0 <= i < |nodes| && i != n && i != parent ==> u[i] == nodes[i])
      && u[parent] == nodes[parent].(dirIndex := u[parent].dirIndex, leafStarts := u[parent].leafStarts,
                                     leafCounts := u[parent].leafCounts)
      && u[n] == NewNode(nodes[n], directory, parent, name)
  {
    InsertSafe(nodes, parent, name, n);
  }

  lemma InsertedSorted(nodes: seq<Node>, index: seq<nat>, n: nat, pos: nat)
    requires n < |nodes| && SortedIndex(nodes, index) && pos == InsertPos(nodes, index, nodes[n].name, 0)
    requires forall k :: 0 <= k < |index| ==> nodes[index[k]].name != nodes[n].name
    ensures SortedIndex(nodes, index[..pos] + [n] + index[pos..])
  {
    hide Compare, InsertPos;
    var wider := index[..pos] + [n] + index[pos..];
    var name := nodes[n].name;
    forall k | pos <= k < |index| ensures Less(name, nodes[index[k]].name) {
      CompareZero(nodes[index[pos]].name, name);
      CompareFlips(nodes[index[pos]].name, name);
      if pos < k {
        LessTransitive(name, nodes[index[pos]].name, nodes[index[k]].name);
      }
    }
    forall k, l | 0 <= k < l < |wider| ensures Less(nodes[wider[k]].name, nodes[wider[l]].name) {
      if k < pos {
        assert wider[k] == index[k];
      } else if k > pos {
        assert wider[k] == index[k - 1];
      }
      if l < pos {
        assert wider[l] == index[l];
      } else if l > pos {
        assert wider[l] == index[l - 1];
      }
    }
  }

  lemma SortedFrame(nodes: seq<Node>, nodes': seq<Node>, index: seq<nat>)
    requires SortedIndex(nodes, index) && |nodes'| == |nodes|
    requires forall k :: 0 <= k < |index| ==> nodes'[index[k]].name == nodes[index[k]].name
    ensures SortedIndex(nodes', index)
  {
  }

  lemma {:induction false} ScanSame(nodes: seq<Node>, nodes': seq<Node>, d: nat, name: string, d': nat, i: nat)
    requires |nodes| == |nodes'| && i <= |nodes|
    requires forall k :: 0 <= k < |nodes| ==> IsChild(nodes, d, name, k) == IsChild(nodes', d', name, k)
    ensures ScanFrom(nodes, d, name, i) == ScanFrom(nodes', d', name, i)
    decreases |nodes| - i
  {
    if i < |nodes| { ScanSame(nodes, nodes', d, name, d', i + 1); }
  }

  lemma NewNodeChildless(nodes: seq<Node>, parent: nat, name: string, directory: bool, n: nat, i: nat)
    requires Insertable(nodes, parent, name, n) && i < |nodes|
    ensures parent != n && n != 0
    ensures forall j :: 0 <= j < |nodes[parent].dirIndex| ==> nodes[parent].dirIndex[j] < |nodes|
    ensures var u := InsertNode(nodes, parent, name, directory, n); !(u[i].used && u[i].parent == n)
  {
    InsertFrame(nodes, parent, name, directory, n);
    assert LinkOk(nodes, i);
  }

  lemma InsertIndexParent(nodes: seq<Node>, parent: nat, name: string, directory: bool, n: nat)
    requires Insertable(nodes, parent, name, n)
    ensures parent != n && n != 0
    ensures forall j :: 0 <= j < |nodes[parent].dirIndex| ==> nodes[parent].dirIndex[j] < |nodes|
    ensures IndexExact(InsertNode(nodes, parent, name, directory, n), parent)
  {
    hide Less, InsertPos, Lookup, LeafStarts, LeafCounts;
    InsertFrame(nodes, parent, name, directory, n);
    assert IndexOk(nodes, parent);
    var index := nodes[parent].dirIndex;
    var added := nodes[n := NewNode(nodes[n], directory, parent, name)];
    var u := InsertNode(nodes, parent, name, directory, n);
    var pos := InsertPos(added, index, name, 0);
    forall k | 0 <= k < |index| ensures added[index[k]].name != name {
      assert index[k] in index;
      assert nodes[index[k]].used && nodes[index[k]].parent == parent;
      assert !IsChild(nodes, parent, name, index[k]);
    }
    assert n !in index;
    SortedFrame(nodes, added, index);
    InsertedSorted(added, index, n, pos);
    var wider := index[..pos] + [n] + index[pos..];
    SortedFrame(added, u, wider);
    assert u[parent].dirIndex == wider;
    forall i | 0 <= i < |u| ensures i in wider <==> u[i].used && u[i].parent == parent {
      assert index == index[..pos] + index[pos..];
      assert i in wider <==> i == n || i in index;
    }
  }

  lemma InsertIndexOther(nodes: seq<Node>, parent: nat, name: string, directory: bool, n: nat, d: nat)
    requires Insertable(nodes, parent, name, n) && d < |nodes| && d != parent
    ensures parent != n && n != 0
    ensures forall j :: 0 <= j < |nodes[parent].dirIndex| ==> nodes[parent].dirIndex[j] < |nodes|
    ensures IndexOk(InsertNode(nodes, parent, name, directory, n), d)
  {
    InsertFrame(nodes, parent, name, directory, n);
    assert IndexOk(nodes, d);
    var u := InsertNode(nodes, parent, name, directory, n);
    if d == n {
      forall i | 0 <= i < |u| ensures !(u[i].used && u[i].parent == n) {
        NewNodeChildless(nodes, parent, name, directory, n, i);
      }
    } else if IsDir(u, d) {
      var index := nodes[d].dirIndex;
      assert n !in index;
      SortedFrame(nodes, u, index);
    }
  }

  /** The scan finds the new node under its name, and everything else as before. */
  lemma InsertScan(nodes: seq<Node>, parent: nat, name: string, directory: bool, n: nat, d: nat, x: string)
    requires Insertable(nodes, parent, name, n)
    ensures parent != n && n != 0
    ensures forall j :: 0 <= j < |nodes[parent].dirIndex| ==> nodes[parent].dirIndex[j] < |nodes|
    ensures var u := InsertNode(nodes, parent, name, directory, n);
      Scan(u, d, x) == if d == parent && x == name then Some(n) else if d == n then None else Scan(nodes, d, x)
  {
    InsertFrame(nodes, parent, name, directory, n);
    var u := InsertNode(nodes, parent, name, directory, n);
    if d == parent && x == name {
      assert IsChild(u, d, x, n);
      assert !IsChild(nodes, d, x, Scan(u, d, x).value);
    } else if d == n {
      forall i | 0 <= i < |u| ensures !IsChild(u, n, x, i) {
        NewNodeChildless(nodes, parent, name, directory, n, i);
      }
    } else {
      assert forall k :: 0 <= k < |nodes| ==> IsChild(nodes, d, x, k) == IsChild(u, d, x, k);
      ScanSame(nodes, u, d, x, d, 0);
    }
  }

  /** After the insertion exactly one more path leads somewhere. */
  lemma {:induction false} InsertLookup(nodes: seq<Node>, parent: nat, name: string, directory: bool, n: nat,
                                        p: seq<string>, q: seq<string>)
    requires Insertable(nodes, parent, name, n) && Lookup(nodes, p) == Some(parent)
    ensures parent != n && n != 0
    ensures forall j :: 0 <= j < |nodes[parent].dirIndex| ==> nodes[parent].dirIndex[j] < |nodes|
    ensures Lookup(nodes, p + [name]) == None
    ensures Lookup(InsertNode(nodes, parent, name, directory, n), q) ==
            if q == p + [name] then Some(n) else Lookup(nodes, q)
    decreases |q|
  {
    InsertFrame(nodes, parent, name, directory, n);
    LookupChild(nodes, p, parent, name);
    var u := InsertNode(nodes, parent, name, directory, n);
    if q != [] {
      var f, x := q[..|q| - 1], q[|q| - 1];
      assert q == f + [x];
      InsertLookup(nodes, parent, name, directory, n, p, f);
      if Lookup(nodes, f).Some? { LookupUsed(nodes, f); }
      if Lookup(u, f).Some? {
        InsertScan(nodes, parent, name, directory, n, Lookup(u, f).value, x);
      }
      if Lookup(nodes, f) == Some(parent) {
        PathsUnique(nodes, f, p);
      }
    }
  }

  lemma InsertKeepsInv(nodes: seq<Node>, parent: nat, name: string, directory: bool, n: nat, p: seq<string>)
    requires Insertable(nodes, parent, name, n) && Lookup(nodes, p) == Some(parent)
    ensures parent != n && n != 0
    ensures forall j :: 0 <= j < |nodes[parent].dirIndex| ==> nodes[parent].dirIndex[j] < |nodes|
    ensures Inv(InsertNode(nodes, parent, name, directory, n))
  {
    InsertFrame(nodes, parent, name, directory, n);
    var u := InsertNode(nodes, parent, name, directory, n);
    forall i | 0 <= i < |u| ensures TablesOk(u, i) && LinkOk(u, i) {
      assert TablesOk(nodes, i) && LinkOk(nodes, i);
      if i == n { assert IndexOk(nodes, n); }
    }
    forall i | 0 <= i < |u| ensures IndexOk(u, i) {
      if i == parent {
        InsertIndexParent(nodes, parent, name, directory, n);
      } else {
        InsertIndexOther(nodes, parent, name, directory, n, i);
      }
    }
    forall i | 0 <= i < |u| && u[i].used ensures Reachable(u, i) {
      if i == n {
        InsertLookup(nodes, parent, name, directory, n, p, p + [name]);
      } else {
        assert Reachable(nodes, i);
        var q :| Lookup(nodes, q) == Some(i);
        InsertLookup(nodes, parent, name, directory, n, p, q);
      }
    }
  }

  // ----- removing a node

  ghost predicate Removable(nodes: seq<Node>, n: nat)
  {
    && Inv(nodes) && 0 < n < |nodes| && nodes[n].used
    && forall i :: 0 <= i < |nodes| ==> !(nodes[i].used && nodes[i].parent == n)
  }

  lemma RemoveFrame(nodes: seq<Node>, n: nat)
    requires Removable(nodes, n)
    ensures 0 <= nodes[n].parent < |nodes| && nodes[n].parent != n && IsDir(nodes, nodes[n].parent)
    ensures var u := RemoveNode(nodes, n);
      var d := nodes[n].parent;
      && (forall i :: 0 <= i < |nodes| && i != n && i != d ==> u[i] == nodes[i])
      && u[d] == nodes[d].(dirIndex := u[d].dirIndex, leafStarts := u[d].leafStarts, leafCounts := u[d].leafCounts)
      && u[n] == nodes[n].(used := false)
  {
    assert LinkOk(nodes, n);
  }

  lemma CutMembers(index: seq<nat>, pos: nat)
    requires pos < |index| && forall k, l :: 0 <= k < l < |index| ==> index[k] != index[l]
    ensures forall i :: i in index[..pos] + index[pos + 1..] <==> i in index && i != index[pos]
  {
    var cut := index[..pos] + index[pos + 1..];
    assert index == index[..pos] + [index[pos]] + index[pos + 1..];
    assert forall k :: 0 <= k < |cut| ==> cut[k] == if k < pos then index[k] else index[k + 1];
  }

  lemma CutSorted(nodes: seq<Node>, index: seq<nat>, pos: nat)
    requires SortedIndex(nodes, index) && pos < |index|
    ensures SortedIndex(nodes, index[..pos] + index[pos + 1..])
    ensures forall k, l :: 0 <= k < l < |index| ==> index[k] != index[l]
  {
    forall k, l | 0 <= k < l < |index| ensures index[k] != index[l] {
      CompareZero(nodes[index[k]].name, nodes[index[l]].name);
      assert Less(nodes[index[k]].name, nodes[index[l]].name);
    }
    var cut := index[..pos] + index[pos + 1..];
    assert forall k :: 0 <= k < |cut| ==> cut[k] == if k < pos then index[k] else index[k + 1];
  }

  lemma RemovedIndex(nodes: seq<Node>, n: nat)
    requires Removable(nodes, n)
    ensures 0 <= nodes[n].parent < |nodes| && nodes[n].parent != n
    ensures IndexOk(RemoveNode(nodes, n), nodes[n].parent) && TablesOk(RemoveNode(nodes, n), nodes[n].parent)
  {
    RemoveFrame(nodes, n);
    var d := nodes[n].parent;
    var u := RemoveNode(nodes, n);
    assert IndexOk(nodes, d);
    var index := nodes[d].dirIndex;
    assert n in index;
    var pos := Position(index, n, 0);
    assert pos < |index|;
    var cut := index[..pos] + index[pos + 1..];
    assert u[d] == Reindexed(nodes[d], cut);
    CutSorted(nodes, index, pos);
    CutMembers(index, pos);
    hide RemoveNode, Position;
    SortedFrame(nodes, u, cut);
    assert forall i :: 0 <= i < |u| ==> (i in cut <==> u[i].used && u[i].parent == d);
  }

  lemma RemoveScan(nodes: seq<Node>, n: nat, d: nat, x: string)
    requires Removable(nodes, n) && IsDir(nodes, d) && d != n
    ensures 0 <= nodes[n].parent < |nodes| && nodes[n].parent != n
    ensures Scan(RemoveNode(nodes, n), d, x) == if Scan(nodes, d, x) == Some(n) then None else Scan(nodes, d, x)
  {
    RemoveFrame(nodes, n);
    var u := RemoveNode(nodes, n);
    if Scan(nodes, d, x) == Some(n) {
      forall i | 0 <= i < |u| ensures !IsChild(u, d, x, i) {
        if IsChild(nodes, d, x, i) {
          NamesUnique(nodes, d, x, i, n);
        }
      }
    } else {
      forall k | 0 <= k < |nodes| ensures IsChild(nodes, d, x, k) == IsChild(u, d, x, k) {
        if IsChild(nodes, d, x, k) { ScanIs(nodes, d, x, k); }
      }
      ScanSame(nodes, u, d, x, d, 0);
    }
  }

  /** After the removal exactly one path fewer leads somewhere. */
  lemma {:induction false} RemoveLookup(nodes: seq<Node>, n: nat, p: seq<string>, q: seq<string>)
    requires Removable(nodes, n) && Lookup(nodes, p) == Some(n)
    ensures 0 <= nodes[n].parent < |nodes| && nodes[n].parent != n
    ensures Lookup(RemoveNode(nodes, n), q) == if q == p then None else Lookup(nodes, q)
    decreases |q|
  {
    RemoveFrame(nodes, n);
    LookupUsed(nodes, p);
    var u := RemoveNode(nodes, n);
    if q != [] {
      var f, x := q[..|q| - 1], q[|q| - 1];
      RemoveLookup(nodes, n, p, f);
      if Lookup(nodes, q) == Some(n) { PathsUnique(nodes, p, q); }
      if Lookup(nodes, f).Some? {
        LookupUsed(nodes, f);
        var d := Lookup(nodes, f).value;
        if f == p {
          assert Scan(nodes, n, x).None?;
        } else if d == n {
          PathsUnique(nodes, f, p);
        } else if IsDir(nodes, d) {
          RemoveScan(nodes, n, d, x);
        }
      }
    }
  }

  lemma RemoveKeepsInv(nodes: seq<Node>, n: nat)
    requires Removable(nodes, n)
    ensures 0 <= nodes[n].parent < |nodes| && nodes[n].parent != n
    ensures Inv(RemoveNode(nodes, n))
  {
    RemoveFrame(nodes, n);
    var u := RemoveNode(nodes, n);
    assert Reachable(nodes, n);
    var p :| Lookup(nodes, p) == Some(n);
    forall i | 0 <= i < |u| ensures IndexOk(u, i) && TablesOk(u, i) && LinkOk(u, i) {
      assert IndexOk(nodes, i) && TablesOk(nodes, i) && LinkOk(nodes, i);
      if i == nodes[n].parent {
        RemovedIndex(nodes, n);
      } else {
        RemoveIndexOther(nodes, n, i);
      }
    }
    forall i | 0 <= i < |u| && u[i].used ensures Reachable(u, i) {
      assert Reachable(nodes, i);
      var q :| Lookup(nodes, q) == Some(i);
      RemoveLookup(nodes, n, p, q);
    }
  }

  lemma RemoveIndexOther(nodes: seq<Node>, n: nat, d: nat)
    requires Removable(nodes, n) && d < |nodes| && d != nodes[n].parent
    ensures 0 <= nodes[n].parent < |nodes| && nodes[n].parent != n
    ensures IndexOk(RemoveNode(nodes, n), d)
  {
    RemoveFrame(nodes, n);
    assert IndexOk(nodes, d);
    var u := RemoveNode(nodes, n);
    if d == n {
      if IsDir(nodes, n) { HasChildrenIff(nodes, n); }
    } else if IsDir(u, d) {
      SortedFrame(nodes, u, nodes[d].dirIndex);
    }
  }

  // ----- an empty file system

  function EmptyNodes(): (r: seq<Node>)
    ensures |r| == MAX_NODES
    ensures forall i :: 0 <= i < MAX_NODES ==>
      r[i] == if i == 0 then Node(true, true, NO_PARENT, "/", 0, [], [], [])
              else Node(false, false, NO_PARENT, "", 0, [], [], [])
  {
    seq(MAX_NODES, i => if i == 0 then Node(true, true, NO_PARENT, "/", 0, [], [], [])
                        else Node(false, false, NO_PARENT, "", 0, [], [], []))
  }

  lemma EmptyInv()
    ensures Inv(EmptyNodes())
    ensures forall q: seq<string> :: Lookup(EmptyNodes(), q).Some? <==> q == []
  {
    var nodes := EmptyNodes();
    assert LeafStarts(0) == [] && LeafCounts(0) == [];
    assert Lookup(nodes, []) == Some(0);
    forall i | 0 <= i < |nodes| ensures IndexOk(nodes, i) {
    }
    forall q: seq<string> ensures Lookup(nodes, q).Some? <==> q == [] {
      EmptyLookup(q);
    }
  }

  lemma EmptyLookup(q: seq<string>)
    ensures Lookup(EmptyNodes(), q).Some? <==> q == []
  {
    if q != [] && Lookup(EmptyNodes(), q).Some? {
      assert EmptyNodes()[Lookup(EmptyNodes(), q).value].parent == NO_PARENT;
    }
  }
}
