/** What each file-system call does to the node table and the storage. */
module FsOperations {
  import opened Common
  import opened FsNames
  import opened FsModel
  import opened FsTree
  import opened FsPaths

  ghost predicate Valid(fs: Fs)
  {
    Shaped(fs) && Inv(fs.nodes)
  }

  function HasChildrenFrom(nodes: seq<Node>, d: nat, i: nat): (r: bool)
    requires i <= |nodes|
    ensures r <==> exists k :: i <= k < |nodes| && nodes[k].used && nodes[k].parent == d
    decreases |nodes| - i
  {
    i < |nodes| && ((nodes[i].used && nodes[i].parent == d) || HasChildrenFrom(nodes, d, i + 1))
  }

  /** The node a path resolves to is in use, and it is the root exactly for the empty path. */
  lemma ResolvedUsed(nodes: seq<Node>, path: string)
    requires Inv(nodes)
    ensures var n := Resolve(nodes, path).node;
      n.Some? ==> n.value < |nodes| && nodes[n.value].used && Lookup(nodes, Split(path)) == n
    ensures Resolve(nodes, path).node.Some? ==> path != [] && path[0] == '/'
  {
    if path != [] && path[0] == '/' {
      ResolveReports(nodes, path);
      if Lookup(nodes, Split(path)).Some? { LookupUsed(nodes, Split(path)); }
    }
  }

  /** Past create's checks the free slot can be inserted under the resolved parent. */
  lemma CreateReady(nodes: seq<Node>, path: string)
    requires Inv(nodes)
    requires var at := Resolve(nodes, path);
      at.node.None? && at.parent.Some? && 0 < |at.leaf| < MAX_NAME && FreeNodeFrom(nodes, 0).Some?
    ensures var at := Resolve(nodes, path);
      Insertable(nodes, at.parent.value, at.leaf, FreeNodeFrom(nodes, 0).value)
  {
    ResolveReports(nodes, path);
    var comps := Split(path);
    LookupUsed(nodes, comps[..|comps| - 1]);
  }

  /** Every used node but the root has a parent other than itself. */
  lemma LinkOfUsed(nodes: seq<Node>, n: nat)
    requires Inv(nodes) && n < |nodes| && nodes[n].used && n != 0
    ensures 0 <= nodes[n].parent < |nodes| && nodes[n].parent != n && IsDir(nodes, nodes[n].parent)
  {
    assert LinkOk(nodes, n) && Reachable(nodes, n);
    var p :| Lookup(nodes, p) == Some(n);
    if nodes[n].parent == n {
      PathsUnique(nodes, p, p[..|p| - 1]);
    }
  }

  function Create(fs: Fs, path: string, directory: bool): (r: (Fs, bool))
    requires Valid(fs)
  {
    var at := Resolve(fs.nodes, path);
    if at.node.Some? || at.parent.None? || |at.leaf| == 0 || |at.leaf| >= MAX_NAME then (fs, false)
    else
      var n := FreeNodeFrom(fs.nodes, 0);
      if n.None? then (fs, false)
      else
        CreateReady(fs.nodes, path);
        InsertSafe(fs.nodes, at.parent.value, at.leaf, n.value);
        (fs.(nodes := InsertNode(fs.nodes, at.parent.value, at.leaf, directory, n.value)), true)
  }

  function Remove(fs: Fs, n: nat): (r: Fs)
    requires n < |fs.nodes| && 0 <= fs.nodes[n].parent < |fs.nodes| && fs.nodes[n].parent != n
  {
    fs.(nodes := RemoveNode(fs.nodes, n))
  }

  function Rmdir(fs: Fs, path: string): (r: (Fs, bool))
    requires Valid(fs)
  {
    ResolvedUsed(fs.nodes, path);
    var n := Resolve(fs.nodes, path).node;
    if n.None? || n.value == 0 || !fs.nodes[n.value].isDir || HasChildrenFrom(fs.nodes, n.value, 0) then (fs, false)
    else
      LinkOfUsed(fs.nodes, n.value);
      (Remove(fs, n.value), true)
  }

  function Unlink(fs: Fs, path: string): (r: (Fs, bool))
    requires Valid(fs)
  {
    ResolvedUsed(fs.nodes, path);
    var n := Resolve(fs.nodes, path).node;
    if n.None? || n.value == 0 || fs.nodes[n.value].isDir then (fs, false)
    else
      LinkOfUsed(fs.nodes, n.value);
      (Remove(fs, n.value), true)
  }

  /** A storage row after the gap up to `offset` is zeroed and the bytes are copied in. */
  function StoreRow(row: seq<Byte>, size: nat, offset: nat, bytes: seq<Byte>): (r: seq<Byte>)
    requires offset + |bytes| <= |row|
    ensures |r| == |row|
    ensures forall k | 0 <= k < |row| ::
      r[k] == if offset <= k < offset + |bytes| then bytes[k - offset] else if size <= k < offset then 0 else row[k]
  {
    seq(|row|, k requires 0 <= k < |row| =>
      if offset <= k < offset + |bytes| then bytes[k - offset] else if size <= k < offset then 0 else row[k])
  }

  function Write(fs: Fs, path: string, offset: nat, bytes: seq<Byte>): (r: (Fs, bool))
    requires Valid(fs)
  {
    ResolvedUsed(fs.nodes, path);
    var n := Resolve(fs.nodes, path).node;
    if n.None? || fs.nodes[n.value].isDir || offset > MAX_DATA || |bytes| > MAX_DATA - offset then (fs, false)
    else
      var node := fs.nodes[n.value];
      var size := if offset + |bytes| > node.size then offset + |bytes| else node.size;
      (Fs(fs.nodes[n.value := node.(size := size)],
          fs.data[n.value := StoreRow(fs.data[n.value], node.size, offset, bytes)]), true)
  }

  function Read(fs: Fs, path: string, offset: nat, size: nat): (r: Option<seq<Byte>>)
    requires Valid(fs)
  {
    ResolvedUsed(fs.nodes, path);
    var n := Resolve(fs.nodes, path).node;
    if n.None? || fs.nodes[n.value].isDir then None
    else if offset > fs.nodes[n.value].size || size > fs.nodes[n.value].size - offset then None
    else Some(fs.data[n.value][offset..offset + size])
  }

  function Size(fs: Fs, path: string): (r: Option<nat>)
    requires Valid(fs)
  {
    ResolvedUsed(fs.nodes, path);
    var n := Resolve(fs.nodes, path).node;
    if n.None? || fs.nodes[n.value].isDir then None else Some(fs.nodes[n.value].size)
  }

  predicate Exists(fs: Fs, path: string)
  {
    Resolve(fs.nodes, path).node.Some?
  }
}
