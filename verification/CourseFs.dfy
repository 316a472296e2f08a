/** The RAM file system as the kernel keeps it: a node array and a storage matrix, updated in place. */
module CourseFs {
  import opened Common
  import opened FsNames
  import opened FsModel
  import opened FsTree
  import opened FsIndex
  import Ops = FsOperations
  import Ref = FsRefinement

  /** cmp_cstr_len. */
  method CompareNames(a: string, b: string) returns (r: int)
    ensures r == Compare(a, b)
  {
    var i := 0;
    while i < |a| && i < |b|
      invariant i <= |a| && i <= |b|
      invariant Compare(a[i..], b[i..]) == Compare(a, b)
    {
      if a[i] < b[i] { return -1; }
      if a[i] > b[i] { return 1; }
      assert a[i..][1..] == a[i + 1..] && b[i..][1..] == b[i + 1..];
      i := i + 1;
    }
    if i == |a| && i == |b| { return 0; }
    return if i == |a| then -1 else 1;
  }

  /** Moves the entries from pos on one place up and puts the child at pos. */
  method ShiftIn(index: seq<nat>, pos: nat, child: nat) returns (wider: seq<nat>)
    requires pos <= |index|
    ensures wider == index[..pos] + [child] + index[pos..]
  {
    wider := index + [child];
    var i := |index|;
    while i > pos
      invariant pos <= i <= |index| && |wider| == |index| + 1
      invariant wider[..i] == index[..i]
      invariant forall j :: i < j < |wider| ==> wider[j] == index[j - 1]
    {
      wider := wider[i := wider[i - 1]];
      i := i - 1;
    }
    wider := wider[pos := child];
  }

  /** Moves the entries behind pos one place down over it. */
  method ShiftOut(index: seq<nat>, pos: nat) returns (cut: seq<nat>)
    requires pos < |index|
    ensures cut == index[..pos] + index[pos + 1..]
  {
    var shifted := index;
    var j := pos + 1;
    while j < |index|
      invariant pos < j <= |index| && |shifted| == |index|
      invariant forall k :: 0 <= k < pos ==> shifted[k] == index[k]
      invariant forall k :: pos <= k < j - 1 ==> shifted[k] == index[k + 1]
      invariant forall k :: j <= k < |index| ==> shifted[k] == index[k]
    {
      shifted := shifted[j - 1 := shifted[j]];
      j := j + 1;
    }
    cut := shifted[..|index| - 1];
  }

  /** Where the slashes at the cursor end. */
  method SkipFrom(path: string, cursor: nat) returns (p: nat)
    requires cursor <= |path|
    ensures cursor <= p <= |path| && path[p..] == SkipSlashes(path[cursor..])
  {
    p := cursor;
    while p < |path| && path[p] == '/'
      invariant cursor <= p <= |path| && SkipSlashes(path[p..]) == SkipSlashes(path[cursor..])
    {
      assert path[p..][1..] == path[p + 1..];
      p := p + 1;
    }
  }

  method NameFrom(path: string, p: nat) returns (len: nat)
    requires p <= |path|
    ensures p + len <= |path| && len == NameLength(path[p..])
  {
    len := 0;
    while p + len < |path| && path[p + len] != '/'
      invariant p + len <= |path| && len + NameLength(path[p + len..]) == NameLength(path[p..])
    {
      assert path[p + len..][1..] == path[p + len + 1..];
      len := len + 1;
    }
  }

  /** next_component: skip slashes, then take the name up to the next slash or the end. */
  method NextComponent(path: string, cursor: nat) returns (more: bool, name: string, next: nat)
    requires cursor <= |path|
    ensures more == (SkipSlashes(path[cursor..]) != [])
    ensures cursor <= next <= |path|
    ensures more ==> name == FirstName(path[cursor..]) && path[next..] == Rest(path[cursor..])
  {
    hide SkipSlashes, NameLength;
    var p := SkipFrom(path, cursor);
    if p == |path| { return false, [], p; }
    var len := NameFrom(path, p);
    assert path[p..][..len] == path[p..p + len] && path[p..][len..] == path[p + len..];
    return true, path[p..p + len], p + len;
  }

  class FileSystem {
    const nodes: array<Node>
    const data: array2<Byte>
    var lookups: nat
    var compareSteps: nat

    ghost predicate Bounds()
    {
      nodes.Length == MAX_NODES && data.Length0 == MAX_NODES && data.Length1 == MAX_DATA
      && (nodes as object) != data
    }

    ghost function Row(i: nat): (r: seq<Byte>)
      requires Bounds() && i < MAX_NODES
      reads data
      ensures |r| == MAX_DATA && forall j :: 0 <= j < MAX_DATA ==> r[j] == data[i, j]
    {
      seq(MAX_DATA, j requires 0 <= j < MAX_DATA reads data => data[i, j])
    }

    ghost function Data(): (r: seq<seq<Byte>>)
      requires Bounds()
      reads data
      ensures |r| == MAX_NODES && forall i :: 0 <= i < MAX_NODES ==> r[i] == Row(i)
    {
      seq(MAX_NODES, i requires 0 <= i < MAX_NODES reads data => Row(i))
    }

    ghost function Model(): (r: Fs)
      requires Bounds()
      reads nodes, data
    {
      Fs(nodes[..], Data())
    }

    ghost predicate Valid()
      reads nodes, data
    {
      Bounds() && Ops.Valid(Model())
    }

    /** mkfs over given storage; its bytes are left as they are. */
    constructor (storage: array2<Byte>)
      requires storage.Length0 == MAX_NODES && storage.Length1 == MAX_DATA
      ensures Valid() && fresh(nodes) && data == storage
      ensures Model().nodes == EmptyNodes()
    {
      nodes := new Node[MAX_NODES](i => if i == 0 then Node(true, true, NO_PARENT, "/", 0, [], [], [])
                                        else Node(false, false, NO_PARENT, "", 0, [], [], []));
      data := storage;
      lookups, compareSteps := 0, 0;
      new;
      assert nodes[..] == EmptyNodes();
      EmptyInv();
    }

    // ----- the directory index

    /** The last name of leaf `leaf` against the key. */
    method CompareLeaf(parent: nat, leaf: nat, name: string) returns (cmp: int)
      requires parent < nodes.Length && SortedIndex(nodes[..], nodes[parent].dirIndex) && TablesOk(nodes[..], parent)
      requires leaf < LeafTotal(|nodes[parent].dirIndex|)
      ensures cmp == Compare(NameAt(nodes[..], nodes[parent].dirIndex,
                                    LeafEnd(|nodes[parent].dirIndex|, leaf) - 1), name)
    {
      LeavesPartition(|nodes[parent].dirIndex|, leaf);
      var last := nodes[parent].dirIndex[nodes[parent].leafStarts[leaf] + nodes[parent].leafCounts[leaf] - 1];
      cmp := CompareNames(nodes[last].name, name);
    }

    /** First half of a lookup: the first leaf whose last name is not below the key. */
    method FindLeaf(parent: nat, name: string) returns (leaf: nat, steps: nat)
      requires parent < nodes.Length && SortedIndex(nodes[..], nodes[parent].dirIndex) && TablesOk(nodes[..], parent)
      ensures LeavesWithin(nodes[..], nodes[parent].dirIndex, name, leaf, leaf)
      ensures steps <= Bits(|nodes[parent].leafStarts|)
    {
      hide Bits, LeavesWithin;
      var low: nat, high: nat := 0, |nodes[parent].leafStarts|;
      steps := 0;
      LeavesAtStart(nodes[..], nodes[parent].dirIndex, name);
      while low < high
        invariant low <= high && steps + Bits(high - low) <= Bits(|nodes[parent].leafStarts|)
        invariant LeavesWithin(nodes[..], nodes[parent].dirIndex, name, low, high)
      {
        var mid := low + (high - low) / 2;
        HalvesShrink(low, high);
        var cmp := CompareLeaf(parent, mid, name);
        LeafCompared(nodes[..], nodes[parent].dirIndex, name, low, mid, high, cmp);
        steps := steps + 1;
        if cmp < 0 { low := mid + 1; } else { high := mid; }
      }
      leaf := low;
    }

    /** Second half: binary search inside one leaf, at most three comparisons. */
    method FindInLeaf(parent: nat, name: string, start: nat, count: nat) returns (child: Option<nat>, steps: nat)
      requires Valid() && IsDir(nodes[..], parent) && SortedIndex(nodes[..], nodes[parent].dirIndex)
      requires count <= LEAF_CAPACITY && start + count <= |nodes[parent].dirIndex|
      requires Within(nodes[..], nodes[parent].dirIndex, name, start, start + count)
      ensures child == Scan(nodes[..], parent, name)
      ensures steps <= 3
    {
      ghost var index := nodes[parent].dirIndex;
      var low: nat, high: nat := start, start + count;
      steps := 0;
      assert Bits(4) == 3;
      BitsMonotone(count, 4);
      while low < high
        invariant low <= high <= |index| && steps + Bits(high - low) <= 3
        invariant Within(nodes[..], index, name, low, high)
      {
        var mid := low + (high - low) / 2;
        HalvesShrink(low, high);
        var i := nodes[parent].dirIndex[mid];
        var cmp := CompareNames(nodes[i].name, name);
        steps := steps + 1;
        if cmp == 0 {
          HitIsScan(nodes[..], parent, name, mid);
          return Some(i), steps;
        }
        if cmp < 0 {
          SmallerBefore(nodes[..], index, mid, name);
          low := mid + 1;
        } else {
          LargerAfter(nodes[..], index, mid, name);
          high := mid;
        }
      }
      NothingLeft(nodes[..], parent, name, low);
      return None, steps;
    }

    /** find_child: through the index it finds exactly what a linear scan finds, in at most
        floor(log2 leaves) + 1 + 3 comparisons. */
    method FindChild(parent: nat, name: string) returns (child: Option<nat>)
      requires Valid()
      modifies this
      ensures child == if IsDir(nodes[..], parent) && name != [] then Scan(nodes[..], parent, name) else None
      ensures compareSteps <= old(compareSteps) +
        if IsDir(nodes[..], parent) then Bits(|nodes[parent].leafStarts|) + 3 else 0
    {
      if parent >= MAX_NODES || name == [] || !nodes[parent].used || !nodes[parent].isDir { return None; }
      lookups := lookups + 1;
      assert IndexOk(nodes[..], parent) && TablesOk(nodes[..], parent);
      if |nodes[parent].dirIndex| == 0 {
        NothingLeft(nodes[..], parent, name, 0);
        return None;
      }
      var leaf, steps := FindLeaf(parent, name);
      compareSteps := compareSteps + steps;
      LeafFound(nodes[..], nodes[parent].dirIndex, name, leaf);
      if leaf >= |nodes[parent].leafStarts| {
        NothingLeft(nodes[..], parent, name, |nodes[parent].dirIndex|);
        return None;
      }
      LeavesPartition(|nodes[parent].dirIndex|, leaf);
      var more;
      child, more := FindInLeaf(parent, name, nodes[parent].leafStarts[leaf], nodes[parent].leafCounts[leaf]);
      compareSteps := compareSteps + more;
    }
  
    // ----- keeping the index

    /** rebuild_child_btree: cut the sorted index into leaves of four. */
    method RebuildChildBtree(parent: nat)
      requires parent < nodes.Length && |nodes[parent].dirIndex| <= MAX_NODES
      modifies nodes
      ensures nodes[..] == old(nodes[..])[parent := Reindexed(old(nodes[parent]), old(nodes[parent]).dirIndex)]
    {
      var n := |nodes[parent].dirIndex|;
      var starts, counts: seq<nat>, entry, leaf := [], [], 0, 0;
      while entry < n && leaf < MAX_LEAVES
        invariant 0 <= leaf <= LeafTotal(n) && entry == if LEAF_CAPACITY * leaf < n then LEAF_CAPACITY * leaf else n
        invariant starts == LeafStarts(n)[..leaf] && counts == LeafCounts(n)[..leaf]
      {
        var count := n - entry;
        if count > LEAF_CAPACITY { count := LEAF_CAPACITY; }
        starts := starts + [entry];
        counts := counts + [count];
        leaf := leaf + 1;
        entry := entry + count;
      }
      assert leaf == LeafTotal(n) && starts == LeafStarts(n) && counts == LeafCounts(n);
      nodes[parent] := nodes[parent].(leafStarts := starts, leafCounts := counts);
    }

    /** insert_child_index: find the position by name, shift the tail, put the child in, rebuild. */
    method InsertChildIndex(parent: nat, child: nat)
      requires parent < nodes.Length && child < nodes.Length && |nodes[parent].dirIndex| < MAX_NODES
      requires forall k :: 0 <= k < |nodes[parent].dirIndex| ==> nodes[parent].dirIndex[k] < nodes.Length
      modifies nodes
      ensures var index := old(nodes[parent]).dirIndex;
        var pos := InsertPos(old(nodes[..]), index, old(nodes[child]).name, 0);
        nodes[..] == old(nodes[..])[parent := Reindexed(old(nodes[parent]), index[..pos] + [child] + index[pos..])]
    {
      var index := nodes[parent].dirIndex;
      var pos := 0;
      while pos < |index|
        invariant 0 <= pos <= |index| && nodes[..] == old(nodes[..])
        invariant InsertPos(nodes[..], index, nodes[child].name, pos) ==
                  InsertPos(nodes[..], index, nodes[child].name, 0)
      {
        var cmp := CompareNames(nodes[index[pos]].name, nodes[child].name);
        if cmp >= 0 { break; }
        pos := pos + 1;
      }
      assert pos == InsertPos(nodes[..], index, nodes[child].name, 0);
      var wider := ShiftIn(index, pos, child);
      ghost var before := nodes[..];
      nodes[parent] := nodes[parent].(dirIndex := wider);
      assert nodes[..] == before[parent := before[parent].(dirIndex := wider)];
      RebuildChildBtree(parent);
      assert nodes[..] == before[parent := Reindexed(before[parent], wider)];
    }

    /** remove_child_index: shift the tail over the child, rebuild. */
    method RemoveChildIndex(parent: nat, child: nat)
      requires parent < nodes.Length && |nodes[parent].dirIndex| <= MAX_NODES
      modifies nodes
      ensures var index := old(nodes[parent]).dirIndex;
        var pos := Position(index, child, 0);
        nodes[..] == if pos < |index|
          then old(nodes[..])[parent := Reindexed(old(nodes[parent]), index[..pos] + index[pos + 1..])]
          else old(nodes[..])
    {
      var index := nodes[parent].dirIndex;
      var i := 0;
      while i < |index|
        invariant 0 <= i <= |index| && Position(index, child, i) == Position(index, child, 0)
        invariant nodes[..] == old(nodes[..])
      {
        if index[i] == child {
          assert i == Position(index, child, 0);
          var cut := ShiftOut(index, i);
          nodes[parent] := nodes[parent].(dirIndex := cut);
          RebuildChildBtree(parent);
          return;
        }
        i := i + 1;
      }
    }

    method AllocNode() returns (n: Option<nat>)
      requires nodes.Length == MAX_NODES
      ensures n == FreeNodeFrom(nodes[..], 0)
    {
      var i := 0;
      while i < MAX_NODES
        invariant i <= MAX_NODES && FreeNodeFrom(nodes[..], i) == FreeNodeFrom(nodes[..], 0)
      {
        if !nodes[i].used { return Some(i); }
        i := i + 1;
      }
      return None;
    }

    method NodeHasChildren(n: nat) returns (r: bool)
      requires nodes.Length == MAX_NODES
      ensures r == Ops.HasChildrenFrom(nodes[..], n, 0)
    {
      var i := 0;
      while i < MAX_NODES
        invariant i <= MAX_NODES && Ops.HasChildrenFrom(nodes[..], n, i) == Ops.HasChildrenFrom(nodes[..], n, 0)
      {
        if nodes[i].used && nodes[i].parent == n { return true; }
        i := i + 1;
      }
      return false;
    }

    // ----- paths

    method ResolvePath(path: string) returns (r: Resolved)
      requires Valid()
      modifies this
      ensures r == Resolve(nodes[..], path)
    {
      if |path| == 0 || path[0] != '/' { return NOT_FOUND; }
      if |path| == 1 { return Resolved(Some(0), None, ""); }
      var cursor, current := 0, 0;
      assert path[0..] == path;
      while true
        invariant 0 <= cursor <= |path| && IsDir(nodes[..], current)
        invariant ResolveFrom(nodes[..], current, path[cursor..]) == ResolveFrom(nodes[..], 0, path)
        decreases |path| - cursor
      {
        var more, name, next := NextComponent(path, cursor);
        if !more { return Resolved(Some(current), None, ""); }
        var child := FindChild(current, name);
        if next == |path| { return Resolved(child, Some(current), name); }
        if child.None? || !nodes[child.value].isDir { return NOT_FOUND; }
        current := child.value;
        cursor := next;
      }
    }
  
    // ----- the calls

    /** course_fs_create. The index always has room for a new child (IndexFits). */
    method Create(path: string, directory: bool) returns (ok: bool)
      requires Valid()
      modifies this, nodes
      ensures Valid()
      ensures (Model(), ok) == Ops.Create(old(Model()), path, directory)
    {
      Ref.CreateRefines(Model(), path, directory);
      var at := ResolvePath(path);
      if at.node.Some? || at.parent.None? || |at.leaf| == 0 || |at.leaf| >= MAX_NAME { return false; }
      var n := AllocNode();
      if n.None? { return false; }
      Ops.CreateReady(nodes[..], path);
      AddNode(at.parent.value, at.leaf, directory, n.value);
      return true;
    }

    /** Fills the free slot, then indexes it. */
    method AddNode(parent: nat, name: string, directory: bool, n: nat)
      requires nodes.Length == MAX_NODES && Insertable(nodes[..], parent, name, n)
      modifies nodes
      ensures parent != n && forall j :: 0 <= j < |old(nodes[parent]).dirIndex| ==>
        old(nodes[parent]).dirIndex[j] < MAX_NODES
      ensures nodes[..] == InsertNode(old(nodes[..]), parent, name, directory, n)
    {
      InsertSafe(nodes[..], parent, name, n);
      IndexFits(nodes[..], parent, n);
      hide Insertable, InsertPos;
      nodes[n] := NewNode(nodes[n], directory, parent, name);
      InsertChildIndex(parent, n);
    }

    method DropNode(n: nat)
      requires nodes.Length == MAX_NODES && Inv(nodes[..]) && n < MAX_NODES
      requires nodes[n].parent >= 0 && nodes[n].parent != n && IsDir(nodes[..], nodes[n].parent)
      modifies nodes
      ensures nodes[..] == RemoveNode(old(nodes[..]), n)
    {
      IndexAtMost(nodes[..], nodes[n].parent);
      RemoveChildIndex(nodes[n].parent, n);
      nodes[n] := nodes[n].(used := false);
    }

    method Rmdir(path: string) returns (ok: bool)
      requires Valid()
      modifies this, nodes
      ensures Valid()
      ensures (Model(), ok) == Ops.Rmdir(old(Model()), path)
    {
      Ref.RmdirRefines(Model(), path);
      Ops.ResolvedUsed(nodes[..], path);
      var at := ResolvePath(path);
      var n := at.node;
      if n.None? || n.value == 0 { return false; }
      var occupied := NodeHasChildren(n.value);
      if !nodes[n.value].isDir || occupied { return false; }
      Ops.LinkOfUsed(nodes[..], n.value);
      DropNode(n.value);
      return true;
    }

    method Unlink(path: string) returns (ok: bool)
      requires Valid()
      modifies this, nodes
      ensures Valid()
      ensures (Model(), ok) == Ops.Unlink(old(Model()), path)
    {
      Ref.UnlinkRefines(Model(), path);
      Ops.ResolvedUsed(nodes[..], path);
      var at := ResolvePath(path);
      var n := at.node;
      if n.None? || n.value == 0 || nodes[n.value].isDir { return false; }
      Ops.LinkOfUsed(nodes[..], n.value);
      DropNode(n.value);
      return true;
    }
  
    method ZeroBytes(n: nat, from: nat, to: nat)
      requires Bounds() && n < MAX_NODES && from <= to <= MAX_DATA
      modifies data
      ensures forall j :: 0 <= j < MAX_DATA ==> data[n, j] == if from <= j < to then 0 else old(data[n, j])
      ensures forall i, j :: 0 <= i < MAX_NODES && 0 <= j < MAX_DATA && i != n ==> data[i, j] == old(data[i, j])
    {
      var k := from;
      while k < to
        invariant from <= k <= to
        invariant forall j :: 0 <= j < MAX_DATA ==> data[n, j] == if from <= j < k then 0 else old(data[n, j])
        invariant forall i, j :: 0 <= i < MAX_NODES && 0 <= j < MAX_DATA && i != n ==> data[i, j] == old(data[i, j])
      {
        data[n, k] := 0;
        k := k + 1;
      }
    }

    method CopyBytes(n: nat, offset: nat, bytes: seq<Byte>)
      requires Bounds() && n < MAX_NODES && offset + |bytes| <= MAX_DATA
      modifies data
      ensures forall j | 0 <= j < MAX_DATA ::
        data[n, j] == if offset <= j < offset + |bytes| then bytes[j - offset] else old(data[n, j])
      ensures forall i, j :: 0 <= i < MAX_NODES && 0 <= j < MAX_DATA && i != n ==> data[i, j] == old(data[i, j])
    {
      var k := 0;
      while k < |bytes|
        invariant 0 <= k <= |bytes|
        invariant forall j | 0 <= j < MAX_DATA ::
          data[n, j] == if offset <= j < offset + k then bytes[j - offset] else old(data[n, j])
        invariant forall i, j :: 0 <= i < MAX_NODES && 0 <= j < MAX_DATA && i != n ==> data[i, j] == old(data[i, j])
      {
        data[n, offset + k] := bytes[k];
        k := k + 1;
      }
    }

    /** Zeroes the gap behind the old end, then copies: the node's storage row becomes StoreRow. */
    method StoreBytes(n: nat, size: nat, offset: nat, bytes: seq<Byte>)
      requires Bounds() && n < MAX_NODES && size <= MAX_DATA && offset + |bytes| <= MAX_DATA
      modifies data
      ensures Data() == old(Data())[n := Ops.StoreRow(old(Row(n)), size, offset, bytes)]
    {
      if offset > size {
        ZeroBytes(n, size, offset);
      }
      CopyBytes(n, offset, bytes);
      assert Row(n) == Ops.StoreRow(old(Row(n)), size, offset, bytes);
      forall i | 0 <= i < MAX_NODES && i != n ensures Row(i) == old(Row(i)) {
      }
    }

    /** course_fs_write. */
    method Write(path: string, offset: nat, bytes: seq<Byte>) returns (ok: bool)
      requires Valid()
      modifies this, nodes, data
      ensures Valid()
      ensures (Model(), ok) == Ops.Write(old(Model()), path, offset, bytes)
    {
      Ref.WriteRefines(Model(), path, offset, bytes);
      Ops.ResolvedUsed(nodes[..], path);
      var at := ResolvePath(path);
      var n := at.node;
      if n.None? || nodes[n.value].isDir || offset > MAX_DATA || |bytes| > MAX_DATA - offset { return false; }
      var size := nodes[n.value].size;
      hide Ref.View, Inv, At, Resolve;
      assert size <= MAX_DATA;
      StoreBytes(n.value, size, offset, bytes);
      if offset + |bytes| > size {
        nodes[n.value] := nodes[n.value].(size := offset + |bytes|);
      } else {
        assert nodes[..] == nodes[..][n.value := nodes[n.value].(size := size)];
      }
      return true;
    }

    /** course_fs_read: exactly the requested bytes, or failure. */
    method Read(path: string, offset: nat, size: nat) returns (r: Option<seq<Byte>>)
      requires Valid()
      modifies this
      ensures r == Ops.Read(Model(), path, offset, size)
    {
      hide Resolve, Inv;
      Ops.ResolvedUsed(nodes[..], path);
      var at := ResolvePath(path);
      var n := at.node;
      if n.None? || nodes[n.value].isDir { return None; }
      if offset > nodes[n.value].size || size > nodes[n.value].size - offset { return None; }
      assert Model().nodes[n.value].size <= MAX_DATA;
      var bytes: seq<Byte>, k := [], 0;
      while k < size
        invariant 0 <= k <= size && bytes == Row(n.value)[offset..offset + k]
      {
        bytes := bytes + [data[n.value, offset + k]];
        k := k + 1;
      }
      return Some(bytes);
    }

    method Size(path: string) returns (r: Option<nat>)
      requires Valid()
      modifies this
      ensures r == Ops.Size(Model(), path)
    {
      Ops.ResolvedUsed(nodes[..], path);
      var at := ResolvePath(path);
      if at.node.None? || nodes[at.node.value].isDir { return None; }
      return Some(nodes[at.node.value].size);
    }

    method Lookup(path: string) returns (found: bool)
      requires Valid()
      modifies this
      ensures found == Ops.Exists(Model(), path)
    {
      var at := ResolvePath(path);
      return at.node.Some?;
    }
  }
}
