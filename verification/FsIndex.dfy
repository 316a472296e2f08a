/** Searching a sorted directory index through its leaf table. */
module FsIndex {
  import opened Common
  import opened Sets
  import opened FsNames
  import opened FsModel
  import opened FsTree

  /** floor(log2 n) + 1, and 0 for 0. */
  function Bits(n: nat): (r: nat)
  {
    if n == 0 then 0 else 1 + Bits(n / 2)
  }

  lemma {:induction false} BitsMonotone(m: nat, n: nat)
    requires m <= n
    ensures Bits(m) <= Bits(n)
  {
    if m > 0 { BitsMonotone(m / 2, n / 2); }
  }

  function Pow2(n: nat): (r: nat)
  {
    if n == 0 then 1 else 2 * Pow2(n - 1)
  }

  /** Bits(n) - 1 is the floor of the binary logarithm. */
  lemma {:induction false} BitsIsLog(n: nat)
    requires n > 0
    ensures Bits(n) > 0 && Pow2(Bits(n) - 1) <= n < Pow2(Bits(n))
  {
    if n > 1 { BitsIsLog(n / 2); }
  }

  /** The half of a range a binary search keeps needs one comparison fewer. */
  lemma HalvesShrink(low: nat, high: nat)
    requires low < high
    ensures var mid := low + (high - low) / 2;
      && low <= mid < high
      && Bits(mid - low) + 1 <= Bits(high - low) && Bits(high - (mid + 1)) + 1 <= Bits(high - low)
  {
    var n := high - low;
    BitsMonotone(n - n / 2 - 1, n / 2);
  }

  /** The name at position k of an index. */
  function NameAt(nodes: seq<Node>, index: seq<nat>, k: nat): (r: string)
    requires k < |index| && index[k] < |nodes|
  {
    nodes[index[k]].name
  }

  /** Names up to a smaller one are smaller. */
  lemma SmallerBefore(nodes: seq<Node>, index: seq<nat>, m: nat, key: string)
    requires SortedIndex(nodes, index) && m < |index| && Compare(NameAt(nodes, index, m), key) < 0
    ensures forall k :: 0 <= k <= m ==> Compare(NameAt(nodes, index, k), key) < 0
  {
    forall k | 0 <= k <= m ensures Compare(NameAt(nodes, index, k), key) < 0 {
      if k < m { LessTransitive(NameAt(nodes, index, k), NameAt(nodes, index, m), key); }
    }
  }

  /** Names after one that is not smaller are larger. */
  lemma LargerAfter(nodes: seq<Node>, index: seq<nat>, m: nat, key: string)
    requires SortedIndex(nodes, index) && m < |index| && Compare(NameAt(nodes, index, m), key) >= 0
    ensures forall k :: m < k < |index| ==> Compare(NameAt(nodes, index, k), key) > 0
  {
    forall k | m < k < |index| ensures Compare(NameAt(nodes, index, k), key) > 0 {
      CompareFlips(NameAt(nodes, index, m), key);
      LessTransitive(key, NameAt(nodes, index, m), NameAt(nodes, index, k));
      CompareFlips(key, NameAt(nodes, index, k));
    }
  }

  /** The search has ruled out everything outside [low, high). */
  ghost predicate Within(nodes: seq<Node>, index: seq<nat>, key: string, low: nat, high: nat)
    requires SortedIndex(nodes, index)
  {
    && low <= high <= |index|
    && (forall k :: 0 <= k < low ==> Compare(NameAt(nodes, index, k), key) < 0)
    && (forall k :: high <= k < |index| ==> Compare(NameAt(nodes, index, k), key) > 0)
  }

  /** With nothing left to look at, the scan finds nothing either. */
  lemma NothingLeft(nodes: seq<Node>, d: nat, key: string, low: nat)
    requires Inv(nodes) && IsDir(nodes, d) && SortedIndex(nodes, nodes[d].dirIndex)
    requires Within(nodes, nodes[d].dirIndex, key, low, low)
    ensures Scan(nodes, d, key) == None
  {
    assert IndexOk(nodes, d);
    var index := nodes[d].dirIndex;
    if Scan(nodes, d, key).Some? {
      var i := Scan(nodes, d, key).value;
      assert i in index;
      var k :| 0 <= k < |index| && index[k] == i;
      CompareZero(NameAt(nodes, index, k), key);
    }
  }

  /** A hit is what the scan finds. */
  lemma HitIsScan(nodes: seq<Node>, d: nat, key: string, k: nat)
    requires Inv(nodes) && IsDir(nodes, d) && k < |nodes[d].dirIndex| && nodes[d].dirIndex[k] < |nodes|
    requires Compare(NameAt(nodes, nodes[d].dirIndex, k), key) == 0
    ensures Scan(nodes, d, key) == Some(nodes[d].dirIndex[k])
  {
    assert IndexOk(nodes, d);
    var index := nodes[d].dirIndex;
    assert index[k] in index;
    CompareZero(NameAt(nodes, index, k), key);
    ScanIs(nodes, d, key, index[k]);
  }

  /** The leaves cut the index into consecutive runs; leaf l ends where the next one starts. */
  lemma LeavesPartition(n: nat, l: nat)
    requires l < LeafTotal(n)
    ensures LEAF_CAPACITY * l < n && 0 < LeafCounts(n)[l] <= LEAF_CAPACITY
    ensures LeafStarts(n)[l] + LeafCounts(n)[l] <= n
    ensures LeafStarts(n)[l] + LeafCounts(n)[l] == if l + 1 < LeafTotal(n) then LeafStarts(n)[l + 1] else n
  {
  }

  /** Where leaf l of an index of n entries ends. */
  ghost function LeafEnd(n: nat, l: nat): (r: nat)
    requires l < LeafTotal(n)
    ensures 0 < r <= n
  {
    LeavesPartition(n, l);
    LeafStarts(n)[l] + LeafCounts(n)[l]
  }

  /** The leaves below `low` end below the key; the leaf at `high`, if any, does not. */
  ghost predicate LeavesWithin(nodes: seq<Node>, index: seq<nat>, key: string, low: nat, high: nat): (r: bool)
    requires SortedIndex(nodes, index)
    ensures r ==> high <= LeafTotal(|index|)
  {
    && low <= high <= LeafTotal(|index|)
    && (low > 0 ==> Compare(NameAt(nodes, index, LeafEnd(|index|, low - 1) - 1), key) < 0)
    && (high < LeafTotal(|index|) ==> Compare(NameAt(nodes, index, LeafEnd(|index|, high) - 1), key) >= 0)
  }

  lemma LeavesAtStart(nodes: seq<Node>, index: seq<nat>, key: string)
    requires SortedIndex(nodes, index)
    ensures LeavesWithin(nodes, index, key, 0, LeafTotal(|index|))
  {
  }

  /** One comparison with the last name of leaf mid. */
  lemma LeafCompared(nodes: seq<Node>, index: seq<nat>, key: string, low: nat, mid: nat, high: nat, cmp: int)
    requires SortedIndex(nodes, index) && LeavesWithin(nodes, index, key, low, high) && low <= mid < high
    requires cmp == Compare(NameAt(nodes, index, LeafEnd(|index|, mid) - 1), key)
    ensures if cmp < 0 then LeavesWithin(nodes, index, key, mid + 1, high) else LeavesWithin(nodes, index, key, low, mid)
  {
  }

  /** The leaf search ends at the one leaf that can hold the key, or past them all. */
  lemma LeafFound(nodes: seq<Node>, index: seq<nat>, key: string, leaf: nat)
    requires SortedIndex(nodes, index) && LeavesWithin(nodes, index, key, leaf, leaf) && index != []
    ensures leaf <= |LeafStarts(|index|)| == |LeafCounts(|index|)|
    ensures leaf == |LeafStarts(|index|)| ==> Within(nodes, index, key, |index|, |index|)
    ensures leaf < |LeafStarts(|index|)| ==>
      Within(nodes, index, key, LeafStarts(|index|)[leaf], LeafStarts(|index|)[leaf] + LeafCounts(|index|)[leaf])
  {
    if leaf > 0 {
      LeavesPartition(|index|, leaf - 1);
      SmallerBefore(nodes, index, LeafEnd(|index|, leaf - 1) - 1, key);
    }
    if leaf < LeafTotal(|index|) {
      LeavesPartition(|index|, leaf);
      LargerAfter(nodes, index, LeafEnd(|index|, leaf) - 1, key);
    }
  }

  /** An exact index has room as long as some node is unused. */
  lemma IndexFits(nodes: seq<Node>, d: nat, n: nat)
    requires Inv(nodes) && IsDir(nodes, d) && n < |nodes| && !nodes[n].used
    ensures |nodes[d].dirIndex| < MAX_NODES
  {
    assert IndexOk(nodes, d);
    var index := nodes[d].dirIndex;
    forall k, l | 0 <= k < l < |index| ensures index[k] != index[l] {
      CompareZero(nodes[index[k]].name, nodes[index[l]].name);
      assert Less(nodes[index[k]].name, nodes[index[l]].name);
    }
    DistinctSize(index);
    assert n !in Elements(index);
    SubsetSize(Elements(index), Below(MAX_NODES) - {n});
  }

  lemma IndexAtMost(nodes: seq<Node>, d: nat)
    requires Inv(nodes) && IsDir(nodes, d)
    ensures |nodes[d].dirIndex| <= MAX_NODES
  {
    assert IndexOk(nodes, d);
    var index := nodes[d].dirIndex;
    forall k, l | 0 <= k < l < |index| ensures index[k] != index[l] {
      CompareZero(nodes[index[k]].name, nodes[index[l]].name);
      assert Less(nodes[index[k]].name, nodes[index[l]].name);
    }
    DistinctSize(index);
    SubsetSize(Elements(index), Below(MAX_NODES));
  }
}
