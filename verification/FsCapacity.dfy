/** How many paths there can be: one for each node of the table. */
module FsCapacity {
  import opened Common
  import opened Sets
  import opened FsModel
  import opened FsTree
  import opened FsOperations
  import opened FsRefinement

  /** Every path of the tree is in s. */
  ghost predicate AllIn(v: Tree, s: set<seq<string>>)
  {
    forall q :: q in v ==> q in s
  }

  /** The tree holds fewer paths than the table has nodes. */
  ghost predicate Room(v: Tree)
  {
    exists s: set<seq<string>> :: AllIn(v, s) && |s| < MAX_NODES
  }

  predicate HasRoom(fs: Fs)
  {
    FreeNodeFrom(fs.nodes, 0).Some?
  }

  ghost function PathOf(nodes: seq<Node>, i: nat): (r: seq<string>)
    requires Inv(nodes) && i < |nodes| && nodes[i].used
    ensures Lookup(nodes, r) == Some(i)
  {
    assert Reachable(nodes, i);
    var p :| Lookup(nodes, p) == Some(i);
    p
  }

  function UsedBelow(nodes: seq<Node>, n: nat): (r: nat)
    requires n <= |nodes|
    ensures r <= n
    ensures r == n <==> forall i :: 0 <= i < n ==> nodes[i].used
  {
    if n == 0 then 0 else UsedBelow(nodes, n - 1) + if nodes[n - 1].used then 1 else 0
  }

  /** One path for each used node below n. */
  ghost function PathsOf(nodes: seq<Node>, n: nat): (r: set<seq<string>>)
    requires Inv(nodes) && n <= |nodes|
  {
    if n == 0 then {}
    else if nodes[n - 1].used then PathsOf(nodes, n - 1) + {PathOf(nodes, n - 1)}
    else PathsOf(nodes, n - 1)
  }

  lemma {:induction false} PathsCounted(nodes: seq<Node>, n: nat)
    requires Inv(nodes) && n <= |nodes|
    ensures forall q :: q in PathsOf(nodes, n) ==> Lookup(nodes, q).Some? && Lookup(nodes, q).value < n
    ensures |PathsOf(nodes, n)| == UsedBelow(nodes, n)
  {
    hide Lookup, IndexOk, TablesOk, LinkOk, Reachable;
    if n > 0 {
      PathsCounted(nodes, n - 1);
      if nodes[n - 1].used {
        var p := PathOf(nodes, n - 1);
        assert p !in PathsOf(nodes, n - 1);
      }
    }
  }

  lemma {:induction false} PathCounted(nodes: seq<Node>, n: nat, i: nat)
    requires Inv(nodes) && i < n <= |nodes| && nodes[i].used
    ensures PathOf(nodes, i) in PathsOf(nodes, n)
  {
    if i < n - 1 { PathCounted(nodes, n - 1, i); }
  }

  lemma EveryPath(fs: Fs, q: seq<string>)
    requires Valid(fs) && q in View(fs)
    ensures q in PathsOf(fs.nodes, MAX_NODES)
  {
    LookupUsed(fs.nodes, q);
    var i := Lookup(fs.nodes, q).value;
    PathsUnique(fs.nodes, q, PathOf(fs.nodes, i));
    PathCounted(fs.nodes, MAX_NODES, i);
  }

  lemma EveryNodesPath(fs: Fs, q: seq<string>)
    requires Valid(fs) && q in PathsOf(fs.nodes, MAX_NODES)
    ensures q in View(fs)
  {
    PathsCounted(fs.nodes, MAX_NODES);
    AtLookup(fs, q);
  }

  /** A node is free exactly when the tree holds fewer paths than the table has nodes: paths and used nodes
      correspond one to one. */
  lemma RoomIff(fs: Fs)
    requires Valid(fs)
    ensures HasRoom(fs) <==> Room(View(fs))
  {
    hide View, Lookup, PathsOf;
    PathsCounted(fs.nodes, MAX_NODES);
    var s := PathsOf(fs.nodes, MAX_NODES);
    forall q | q in View(fs) ensures q in s { EveryPath(fs, q); }
    if HasRoom(fs) {
      assert AllIn(View(fs), s) && |s| < MAX_NODES;
    }
    if Room(View(fs)) && !HasRoom(fs) {
      var t: set<seq<string>> :| AllIn(View(fs), t) && |t| < MAX_NODES;
      forall q | q in s ensures q in t { EveryNodesPath(fs, q); }
      SubsetSize(s, t);
    }
  }
}
