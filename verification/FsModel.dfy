/** The RAM file system as values: a fixed node table with a sorted index per directory, and one
    storage row per node. */
module FsModel {
  import opened Common
  import opened FsNames

  const MAX_NODES := 160
  const MAX_NAME := 32
  const MAX_DATA := 65536
  const LEAF_CAPACITY := 4
  const MAX_LEAVES := 40

  datatype Node = Node(
    used: bool, isDir: bool, parent: int, name: string, size: nat,
    dirIndex: seq<nat>, leafStarts: seq<nat>, leafCounts: seq<nat>)

  datatype Fs = Fs(nodes: seq<Node>, data: seq<seq<Byte>>)

  /** What a path denotes. */
  datatype Entry = Dir | File(contents: seq<Byte>)

  const NO_PARENT: int := -1

  ghost predicate Shaped(fs: Fs)
  {
    && |fs.nodes| == MAX_NODES && |fs.data| == MAX_NODES
    && (forall i :: 0 <= i < MAX_NODES ==> |fs.data[i]| == MAX_DATA)
    && (forall i :: 0 <= i < MAX_NODES ==> fs.nodes[i].size <= MAX_DATA)
  }

  predicate IsDir(nodes: seq<Node>, i: nat)
  {
    i < |nodes| && nodes[i].used && nodes[i].isDir
  }

  predicate IsChild(nodes: seq<Node>, parent: nat, name: string, i: nat)
  {
    i < |nodes| && nodes[i].used && nodes[i].parent == parent && nodes[i].name == name
  }

  /** The linear scan the directory index stands for: first used node with this parent and name. */
  function ScanFrom(nodes: seq<Node>, parent: nat, name: string, i: nat): (r: Option<nat>)
    requires i <= |nodes|
    ensures r.Some? ==> i <= r.value < |nodes| && IsChild(nodes, parent, name, r.value)
    ensures r.None? ==> forall k :: i <= k < |nodes| ==> !IsChild(nodes, parent, name, k)
    decreases |nodes| - i
  {
    if i == |nodes| then None
    else if IsChild(nodes, parent, name, i) then Some(i)
    else ScanFrom(nodes, parent, name, i + 1)
  }

  function Scan(nodes: seq<Node>, parent: nat, name: string): (r: Option<nat>)
    ensures r.Some? ==> r.value < |nodes| && IsChild(nodes, parent, name, r.value)
    ensures r.None? ==> forall k :: 0 <= k < |nodes| ==> !IsChild(nodes, parent, name, k)
  {
    ScanFrom(nodes, parent, name, 0)
  }

  /** The node a component path leads to from the root. */
  function Lookup(nodes: seq<Node>, path: seq<string>): (r: Option<nat>)
    decreases |path|
  {
    if path == [] then Some(0)
    else
      var d := Lookup(nodes, path[..|path| - 1]);
      if d.Some? && IsDir(nodes, d.value) then Scan(nodes, d.value, path[|path| - 1]) else None
  }

  /** The file system as its users see it: what each component path denotes. */
  function At(fs: Fs, path: seq<string>): (r: Option<Entry>)
    requires Shaped(fs)
  {
    match Lookup(fs.nodes, path)
    case None => None
    case Some(i) =>
      if i >= MAX_NODES then None
      else if fs.nodes[i].isDir then Some(Dir)
      else Some(File(fs.data[i][..fs.nodes[i].size]))
  }

  // ----- leaf tables

  function LeafTotal(n: nat): (r: nat)
  {
    (n + LEAF_CAPACITY - 1) / LEAF_CAPACITY
  }

  function LeafStarts(n: nat): (r: seq<nat>)
    ensures |r| == LeafTotal(n) && forall k :: 0 <= k < |r| ==> r[k] == LEAF_CAPACITY * k
  {
    seq(LeafTotal(n), k requires 0 <= k => LEAF_CAPACITY * k)
  }

  function LeafCount(n: nat, k: nat): (r: nat)
    requires LEAF_CAPACITY * k <= n
  {
    if n - LEAF_CAPACITY * k > LEAF_CAPACITY then LEAF_CAPACITY else n - LEAF_CAPACITY * k
  }

  function LeafCounts(n: nat): (r: seq<nat>)
    ensures |r| == LeafTotal(n) && forall k :: 0 <= k < |r| ==> LEAF_CAPACITY * k < n && r[k] == LeafCount(n, k)
  {
    seq(LeafTotal(n), k requires 0 <= k < LeafTotal(n) => LeafCount(n, k))
  }

  // ----- the invariant

  ghost predicate SortedIndex(nodes: seq<Node>, index: seq<nat>)
  {
    && (forall k :: 0 <= k < |index| ==> index[k] < |nodes|)
    && (forall k, l :: 0 <= k < l < |index| ==> Less(nodes[index[k]].name, nodes[index[l]].name))
  }

  /** The index of directory d holds exactly d's children, in strict name order. */
  ghost predicate IndexExact(nodes: seq<Node>, d: nat)
    requires d < |nodes|
  {
    && SortedIndex(nodes, nodes[d].dirIndex)
    && (forall i :: 0 <= i < |nodes| ==> (i in nodes[d].dirIndex <==> nodes[i].used && nodes[i].parent == d))
  }

  ghost predicate TablesOk(nodes: seq<Node>, i: nat)
    requires i < |nodes|
  {
    && nodes[i].leafStarts == LeafStarts(|nodes[i].dirIndex|)
    && nodes[i].leafCounts == LeafCounts(|nodes[i].dirIndex|)
  }

  ghost predicate IndexOk(nodes: seq<Node>, i: nat)
    requires i < |nodes|
  {
    if IsDir(nodes, i) then IndexExact(nodes, i) else nodes[i].dirIndex == []
  }

  /** Every used node but the root hangs, under a proper name, from a directory. */
  ghost predicate LinkOk(nodes: seq<Node>, i: nat)
    requires i < |nodes|
  {
    nodes[i].used && i != 0 ==>
      0 <= nodes[i].parent < |nodes| && IsDir(nodes, nodes[i].parent) && 0 < |nodes[i].name| < MAX_NAME
  }

  ghost predicate Reachable(nodes: seq<Node>, i: nat)
  {
    exists path :: Lookup(nodes, path) == Some(i)
  }

  /** The tree: the root is a directory without parent, links lead to directories, every used node is
      reachable, and every directory's index is exact. */
  ghost predicate Inv(nodes: seq<Node>)
  {
    && |nodes| == MAX_NODES
    && IsDir(nodes, 0) && nodes[0].parent == NO_PARENT
    && (forall i :: 0 <= i < |nodes| ==> TablesOk(nodes, i))
    && (forall i :: 0 <= i < |nodes| ==> IndexOk(nodes, i))
    && (forall i :: 0 <= i < |nodes| ==> LinkOk(nodes, i))
    && (forall i :: 0 <= i < |nodes| && nodes[i].used ==> Reachable(nodes, i))
  }

  // ----- paths

  /** What resolve_path reports: the node, and for a path without trailing slash also parent and leaf. */
  datatype Resolved = Resolved(node: Option<nat>, parent: Option<nat>, leaf: string)

  const NOT_FOUND := Resolved(None, None, "")

  function ResolveFrom(nodes: seq<Node>, current: nat, p: string): (r: Resolved)
    decreases |p|
  {
    if SkipSlashes(p) == [] then Resolved(Some(current), None, "")
    else
      var child := if IsDir(nodes, current) then Scan(nodes, current, FirstName(p)) else None;
      if Rest(p) == [] then Resolved(child, Some(current), FirstName(p))
      else if child.None? || !IsDir(nodes, child.value) then NOT_FOUND
      else ResolveFrom(nodes, child.value, Rest(p))
  }

  /** resolve_path: absolute paths only, from node 0; "/" is the root itself. */
  function Resolve(nodes: seq<Node>, p: string): (r: Resolved)
  {
    if p == [] || p[0] != '/' then NOT_FOUND
    else if |p| == 1 then Resolved(Some(0), None, "")
    else ResolveFrom(nodes, 0, p)
  }

  // ----- what the operations do

  function FreeNodeFrom(nodes: seq<Node>, i: nat): (r: Option<nat>)
    requires i <= |nodes|
    ensures r.Some? ==> i <= r.value < |nodes| && !nodes[r.value].used
    ensures r.None? ==> forall k :: i <= k < |nodes| ==> nodes[k].used
    decreases |nodes| - i
  {
    if i == |nodes| then None else if !nodes[i].used then Some(i) else FreeNodeFrom(nodes, i + 1)
  }

  /** First index position whose name is not less than this one. */
  function InsertPos(nodes: seq<Node>, index: seq<nat>, name: string, k: nat): (r: nat)
    requires k <= |index| && forall j :: 0 <= j < |index| ==> index[j] < |nodes|
    ensures k <= r <= |index|
    ensures forall j :: k <= j < r ==> Less(nodes[index[j]].name, name)
    ensures r < |index| ==> !Less(nodes[index[r]].name, name)
    decreases |index| - k
  {
    if k < |index| && Less(nodes[index[k]].name, name) then InsertPos(nodes, index, name, k + 1) else k
  }

  function Position(index: seq<nat>, child: nat, k: nat): (r: nat)
    requires k <= |index|
    ensures k <= r <= |index|
    ensures r < |index| ==> index[r] == child
    ensures forall j :: k <= j < r ==> index[j] != child
    decreases |index| - k
  {
    if k < |index| && index[k] != child then Position(index, child, k + 1) else k
  }

  /** A directory with this index and the leaf tables rebuilt from it. */
  function Reindexed(node: Node, index: seq<nat>): (r: Node)
  {
    node.(dirIndex := index, leafStarts := LeafStarts(|index|), leafCounts := LeafCounts(|index|))
  }

  function NewNode(slot: Node, directory: bool, parent: nat, name: string): (r: Node)
  {
    Node(true, directory, parent, name, 0, [], slot.leafStarts, slot.leafCounts)
  }

  function InsertNode(nodes: seq<Node>, parent: nat, name: string, directory: bool, n: nat): (r: seq<Node>)
    requires parent < |nodes| && n < |nodes| && forall j :: 0 <= j < |nodes[parent].dirIndex| ==>
      nodes[parent].dirIndex[j] < |nodes|
    requires parent != n
    ensures |r| == |nodes|
  {
    var added := nodes[n := NewNode(nodes[n], directory, parent, name)];
    var index := nodes[parent].dirIndex;
    var pos := InsertPos(added, index, name, 0);
    added[parent := Reindexed(added[parent], index[..pos] + [n] + index[pos..])]
  }

  function RemoveNode(nodes: seq<Node>, n: nat): (r: seq<Node>)
    requires n < |nodes| && 0 <= nodes[n].parent < |nodes| && nodes[n].parent != n
    ensures |r| == |nodes|
  {
    var parent := nodes[n].parent;
    var index := nodes[parent].dirIndex;
    var pos := Position(index, n, 0);
    var cut := if pos < |index| then nodes[parent := Reindexed(nodes[parent], index[..pos] + index[pos + 1..])] else nodes;
    cut[n := cut[n].(used := false)]
  }

  /** Bytes after a write at `offset`: a gap past the old end reads as zeros. */
  function Overlay(contents: seq<Byte>, offset: nat, bytes: seq<Byte>): (r: seq<Byte>)
    ensures |r| == if offset + |bytes| > |contents| then offset + |bytes| else |contents|
    ensures forall k | 0 <= k < |r| ::
      r[k] == if offset <= k < offset + |bytes| then bytes[k - offset] else if k < |contents| then contents[k] else 0
  {
    seq(if offset + |bytes| > |contents| then offset + |bytes| else |contents|,
        k requires 0 <= k =>
          if offset <= k < offset + |bytes| then bytes[k - offset] else if k < |contents| then contents[k] else 0)
  }
}
