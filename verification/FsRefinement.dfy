/** The file system refines a map from component paths to directories and byte sequences. */
module FsRefinement {
  import opened Common
  import opened FsNames
  import opened FsModel
  import opened FsTree
  import opened FsOperations
  import opened FsPaths

  // ----- the simple file system

  /** A tree of names: what each path denotes, and nothing about slots, indexes or storage. */
  type Tree = imap<seq<string>, Entry>

  ghost predicate IsTreeDir(v: Tree, path: seq<string>)
  {
    path in v && v[path] == Dir
  }

  /** Absolute paths only. */
  predicate Absolute(p: string)
  {
    p != [] && p[0] == '/'
  }

  /** The entry a path string denotes; behind a trailing slash only a directory counts. */
  ghost function Denotes(v: Tree, p: string): (r: Option<Entry>)
  {
    if !Absolute(p) || Split(p) !in v || (Trailing(p) && v[Split(p)] != Dir) then None else Some(v[Split(p)])
  }

  ghost predicate MayCreate(v: Tree, p: string)
  {
    && Absolute(p) && Split(p) != [] && !Trailing(p)
    && Split(p) !in v && IsTreeDir(v, Split(p)[..|Split(p)| - 1])
    && |Split(p)[|Split(p)| - 1]| < MAX_NAME
  }

  ghost predicate MayRmdir(v: Tree, p: string)
  {
    Denotes(v, p) == Some(Dir) && Split(p) != [] && forall name :: Split(p) + [name] !in v
  }

  ghost predicate MayUnlink(v: Tree, p: string)
  {
    Denotes(v, p).Some? && Denotes(v, p).value.File?
  }

  ghost function Without(v: Tree, path: seq<string>): (r: Tree)
  {
    imap q | q in v && q != path :: v[q]
  }

  // ----- the view

  ghost function View(fs: Fs): (r: Tree)
    requires Shaped(fs)
  {
    imap q | At(fs, q).Some? :: At(fs, q).value
  }

  lemma AtLookup(fs: Fs, q: seq<string>)
    requires Valid(fs)
    ensures At(fs, q).Some? <==> Lookup(fs.nodes, q).Some?
    ensures Lookup(fs.nodes, q).Some? ==>
      var i := Lookup(fs.nodes, q).value;
      && i < MAX_NODES && fs.nodes[i].used
      && At(fs, q) == Some(if fs.nodes[i].isDir then Dir else File(fs.data[i][..fs.nodes[i].size]))
      && (IsDir(fs.nodes, i) <==> At(fs, q) == Some(Dir))
  {
    if Lookup(fs.nodes, q).Some? { LookupUsed(fs.nodes, q); }
  }

  /** A resolved path and the view agree. */
  lemma ResolveDenotes(fs: Fs, p: string)
    requires Valid(fs)
    ensures var n := Resolve(fs.nodes, p).node;
      && (n.Some? <==> Denotes(View(fs), p).Some?)
      && (n.Some? ==> n.value < MAX_NODES && fs.nodes[n.value].used)
      && (n.Some? ==> Lookup(fs.nodes, Split(p)) == n && Denotes(View(fs), p) == At(fs, Split(p)))
  {
    if Absolute(p) {
      ResolveReports(fs.nodes, p);
      AtLookup(fs, Split(p));
    }
  }

  // ----- create

  lemma CreateRefines(fs: Fs, path: string, directory: bool)
    requires Valid(fs)
    ensures var (u, ok) := Create(fs, path, directory);
      && Valid(u)
      && (ok <==> MayCreate(View(fs), path) && FreeNodeFrom(fs.nodes, 0).Some?)
      && View(u) == if ok then View(fs)[Split(path) := if directory then Dir else File([])] else View(fs)
  {
    if Absolute(path) {
      CreatePoint(fs, path, directory);
      if Create(fs, path, directory).1 {
        CreateView(fs, path, directory);
      }
    }
  }

  /** When create succeeds, and at which point of the tree. */
  lemma CreatePoint(fs: Fs, path: string, directory: bool)
    requires Valid(fs) && Absolute(path)
    ensures Create(fs, path, directory).1 <==> MayCreate(View(fs), path) && FreeNodeFrom(fs.nodes, 0).Some?
    ensures Create(fs, path, directory).1 ==>
      var at := Resolve(fs.nodes, path);
      && Split(path) != [] && at.leaf == Split(path)[|Split(path)| - 1] && at.parent.Some?
      && Lookup(fs.nodes, Split(path)[..|Split(path)| - 1]) == at.parent
      && Insertable(fs.nodes, at.parent.value, at.leaf, FreeNodeFrom(fs.nodes, 0).value)
  {
    hide Resolve, Split, At, Shaped, FreeNodeFrom;
    var comps := Split(path);
    ResolveReports(fs.nodes, path);
    AtLookup(fs, comps);
    if comps != [] {
      var front, leaf := comps[..|comps| - 1], comps[|comps| - 1];
      assert comps == front + [leaf];
      AtLookup(fs, front);
      SplitNonempty(path, |comps| - 1);
    }
  }

  lemma {:induction false} SplitNonempty(p: string, i: nat)
    requires i < |Split(p)|
    ensures Split(p)[i] != []
    decreases |p|
  {
    if i > 0 {
      TrailingStep(p);
      SplitNonempty(Rest(p), i - 1);
    }
  }

  lemma InsertAt(fs: Fs, parent: nat, name: string, directory: bool, n: nat, front: seq<string>, q: seq<string>)
    requires Valid(fs) && Insertable(fs.nodes, parent, name, n) && Lookup(fs.nodes, front) == Some(parent)
    ensures parent != n && n != 0
    ensures forall j :: 0 <= j < |fs.nodes[parent].dirIndex| ==> fs.nodes[parent].dirIndex[j] < |fs.nodes|
    ensures var u := fs.(nodes := InsertNode(fs.nodes, parent, name, directory, n));
      && Valid(u)
      && At(u, q) == if q == front + [name] then Some(if directory then Dir else File([])) else At(fs, q)
  {
    InsertKeepsInv(fs.nodes, parent, name, directory, n, front);
    InsertFrame(fs.nodes, parent, name, directory, n);
    InsertLookup(fs.nodes, parent, name, directory, n, front, q);
    hide InsertNode, Insertable, Inv;
    var u := fs.(nodes := InsertNode(fs.nodes, parent, name, directory, n));
    AtLookup(fs, q);
    AtLookup(u, q);
    if q != front + [name] && Lookup(fs.nodes, q).Some? {
      assert Lookup(fs.nodes, q).value != n by { FreeNotFound(fs.nodes, n, q); }
    }
  }

  lemma FreeNotFound(nodes: seq<Node>, n: nat, q: seq<string>)
    requires Inv(nodes) && n < |nodes| && !nodes[n].used
    ensures Lookup(nodes, q) != Some(n)
  {
    if Lookup(nodes, q).Some? { LookupUsed(nodes, q); }
  }

  /** One path changes what it denotes. */
  lemma ViewUpdated(fs: Fs, u: Fs, p: seq<string>, e: Entry)
    requires Shaped(fs) && Shaped(u)
    requires forall q: seq<string> :: At(u, q) == if q == p then Some(e) else At(fs, q)
    ensures View(u) == View(fs)[p := e]
  {
  }

  lemma InsertView(fs: Fs, parent: nat, name: string, directory: bool, n: nat, front: seq<string>)
    requires Valid(fs) && Insertable(fs.nodes, parent, name, n) && Lookup(fs.nodes, front) == Some(parent)
    ensures parent != n && n != 0
    ensures forall j :: 0 <= j < |fs.nodes[parent].dirIndex| ==> fs.nodes[parent].dirIndex[j] < |fs.nodes|
    ensures var u := fs.(nodes := InsertNode(fs.nodes, parent, name, directory, n));
      Valid(u) && View(u) == View(fs)[front + [name] := if directory then Dir else File([])]
  {
    hide InsertNode, Lookup, At;
    InsertAt(fs, parent, name, directory, n, front, []);
    var u := fs.(nodes := InsertNode(fs.nodes, parent, name, directory, n));
    forall q: seq<string>
      ensures At(u, q) == if q == front + [name] then Some(if directory then Dir else File([])) else At(fs, q)
    {
      InsertAt(fs, parent, name, directory, n, front, q);
    }
    ViewUpdated(fs, u, front + [name], if directory then Dir else File([]));
  }

  lemma CreateView(fs: Fs, path: string, directory: bool)
    requires Valid(fs) && Absolute(path) && Create(fs, path, directory).1
    ensures var u := Create(fs, path, directory).0;
      Valid(u) && View(u) == View(fs)[Split(path) := if directory then Dir else File([])]
  {
    CreatePoint(fs, path, directory);
    var at := Resolve(fs.nodes, path);
    var comps := Split(path);
    assert comps == comps[..|comps| - 1] + [at.leaf];
    hide Insertable, InsertNode, Lookup, View, Valid, Resolve;
    InsertView(fs, at.parent.value, at.leaf, directory, FreeNodeFrom(fs.nodes, 0).value, comps[..|comps| - 1]);
  }

  // ----- rmdir and unlink

  lemma RemoveAt(fs: Fs, n: nat, p: seq<string>, q: seq<string>)
    requires Valid(fs) && Removable(fs.nodes, n) && Lookup(fs.nodes, p) == Some(n)
    ensures n < |fs.nodes| && 0 <= fs.nodes[n].parent < |fs.nodes| && fs.nodes[n].parent != n
    ensures Valid(Remove(fs, n)) && At(Remove(fs, n), q) == if q == p then None else At(fs, q)
  {
    RemoveFrame(fs.nodes, n);
    RemoveKeepsInv(fs.nodes, n);
    RemoveLookup(fs.nodes, n, p, q);
    hide Inv, Removable, RemoveNode;
    var u := Remove(fs, n);
    AtLookup(fs, q);
    AtLookup(u, q);
    if Lookup(fs.nodes, q) == Some(n) { PathsUnique(fs.nodes, p, q); }
  }

  lemma RemoveView(fs: Fs, n: nat, p: seq<string>)
    requires Valid(fs) && Removable(fs.nodes, n) && Lookup(fs.nodes, p) == Some(n)
    ensures n < |fs.nodes| && 0 <= fs.nodes[n].parent < |fs.nodes| && fs.nodes[n].parent != n
    ensures Valid(Remove(fs, n)) && View(Remove(fs, n)) == Without(View(fs), p)
  {
    hide Inv, Removable, RemoveNode, Lookup, At;
    RemoveAt(fs, n, p, []);
    var u := Remove(fs, n);
    forall q: seq<string> ensures At(u, q) == if q == p then None else At(fs, q) {
      RemoveAt(fs, n, p, q);
    }
  }

  /** A directory has children exactly when some longer path leads somewhere. */
  lemma ChildrenInView(fs: Fs, n: nat, p: seq<string>)
    requires Valid(fs) && Lookup(fs.nodes, p) == Some(n) && IsDir(fs.nodes, n)
    ensures HasChildrenFrom(fs.nodes, n, 0) <==> exists name :: p + [name] in View(fs)
  {
    if HasChildrenFrom(fs.nodes, n, 0) {
      var k :| 0 <= k < |fs.nodes| && fs.nodes[k].used && fs.nodes[k].parent == n;
      ScanIs(fs.nodes, n, fs.nodes[k].name, k);
      LookupChild(fs.nodes, p, n, fs.nodes[k].name);
      AtLookup(fs, p + [fs.nodes[k].name]);
      assert p + [fs.nodes[k].name] in View(fs);
    }
    forall name | p + [name] in View(fs) ensures HasChildrenFrom(fs.nodes, n, 0) {
      LookupChild(fs.nodes, p, n, name);
      AtLookup(fs, p + [name]);
    }
  }

  lemma RmdirRefines(fs: Fs, path: string)
    requires Valid(fs)
    ensures var (u, ok) := Rmdir(fs, path);
      && Valid(u)
      && (ok <==> MayRmdir(View(fs), path))
      && View(u) == if ok then Without(View(fs), Split(path)) else View(fs)
  {
    ResolveDenotes(fs, path);
    var n := Resolve(fs.nodes, path).node;
    if n.Some? {
      AtLookup(fs, Split(path));
      assert n.value == 0 <==> Split(path) == [] by {
        LookupUsed(fs.nodes, Split(path));
      }
      if n.value != 0 {
        LinkOfUsed(fs.nodes, n.value);
        if fs.nodes[n.value].isDir {
          ChildrenInView(fs, n.value, Split(path));
          if !HasChildrenFrom(fs.nodes, n.value, 0) {
            RemoveView(fs, n.value, Split(path));
          }
        }
      }
    }
  }

  lemma UnlinkRefines(fs: Fs, path: string)
    requires Valid(fs)
    ensures var (u, ok) := Unlink(fs, path);
      && Valid(u)
      && (ok <==> MayUnlink(View(fs), path))
      && View(u) == if ok then Without(View(fs), Split(path)) else View(fs)
  {
    ResolveDenotes(fs, path);
    var n := Resolve(fs.nodes, path).node;
    if n.Some? {
      AtLookup(fs, Split(path));
      if !fs.nodes[n.value].isDir {
        LinkOfUsed(fs.nodes, n.value);
        FileHasNoChildren(fs.nodes, n.value);
        RemoveView(fs, n.value, Split(path));
      }
    }
  }

  lemma FileHasNoChildren(nodes: seq<Node>, n: nat)
    requires Inv(nodes) && 0 < n < |nodes| && nodes[n].used && !nodes[n].isDir
    ensures Removable(nodes, n)
  {
    forall i | 0 <= i < |nodes| ensures !(nodes[i].used && nodes[i].parent == n) {
      assert LinkOk(nodes, i);
    }
  }

  // ----- reading and writing

  /** After the store, the bytes below the new size are the overlay: holes are zeros, whatever an
      earlier file left in the row. */
  lemma StoreRowOverlays(row: seq<Byte>, size: nat, offset: nat, bytes: seq<Byte>)
    requires size <= |row| && offset + |bytes| <= |row|
    ensures var size' := if offset + |bytes| > size then offset + |bytes| else size;
      StoreRow(row, size, offset, bytes)[..size'] == Overlay(row[..size], offset, bytes)
  {
  }

  lemma WriteRefines(fs: Fs, path: string, offset: nat, bytes: seq<Byte>)
    requires Valid(fs)
    ensures var (u, ok) := Write(fs, path, offset, bytes);
      && Valid(u)
      && (ok <==> MayUnlink(View(fs), path) && offset + |bytes| <= MAX_DATA)
      && View(u) == if ok then View(fs)[Split(path) := File(Overlay(Denotes(View(fs), path).value.contents, offset, bytes))]
                    else View(fs)
  {
    ResolveDenotes(fs, path);
    if Write(fs, path, offset, bytes).1 {
      WriteView(fs, path, offset, bytes);
    }
  }

  lemma StoreAt(fs: Fs, n: nat, p: seq<string>, size: nat, row: seq<Byte>, q: seq<string>)
    requires Valid(fs) && n < MAX_NODES && Lookup(fs.nodes, p) == Some(n) && !fs.nodes[n].isDir
    requires size <= MAX_DATA && |row| == MAX_DATA
    ensures var u := Fs(fs.nodes[n := fs.nodes[n].(size := size)], fs.data[n := row]);
      Valid(u) && At(u, q) == if q == p then Some(File(row[..size])) else At(fs, q)
  {
    var u := Fs(fs.nodes[n := fs.nodes[n].(size := size)], fs.data[n := row]);
    ResizeKeepsInv(fs.nodes, n, size);
    ResizeLookup(fs.nodes, n, size, q);
    hide Inv;
    if Lookup(fs.nodes, q) == Some(n) { PathsUnique(fs.nodes, q, p); }
    AtLookup(fs, q);
    AtLookup(u, q);
  }

  lemma StoreView(fs: Fs, n: nat, p: seq<string>, size: nat, row: seq<Byte>)
    requires Valid(fs) && n < MAX_NODES && Lookup(fs.nodes, p) == Some(n) && !fs.nodes[n].isDir
    requires size <= MAX_DATA && |row| == MAX_DATA
    ensures var u := Fs(fs.nodes[n := fs.nodes[n].(size := size)], fs.data[n := row]);
      Valid(u) && View(u) == View(fs)[p := File(row[..size])]
  {
    hide Lookup, At, Inv;
    StoreAt(fs, n, p, size, row, []);
    var u := Fs(fs.nodes[n := fs.nodes[n].(size := size)], fs.data[n := row]);
    forall q: seq<string> ensures At(u, q) == if q == p then Some(File(row[..size])) else At(fs, q) {
      StoreAt(fs, n, p, size, row, q);
    }
    ViewUpdated(fs, u, p, File(row[..size]));
  }

  lemma WriteView(fs: Fs, path: string, offset: nat, bytes: seq<Byte>)
    requires Valid(fs) && Write(fs, path, offset, bytes).1
    ensures var u := Write(fs, path, offset, bytes).0;
      && Valid(u) && MayUnlink(View(fs), path)
      && View(u) == View(fs)[Split(path) := File(Overlay(Denotes(View(fs), path).value.contents, offset, bytes))]
  {
    ResolveDenotes(fs, path);
    AtLookup(fs, Split(path));
    hide Resolve, Inv, View, Denotes, Lookup, At, Split;
    var n := Resolve(fs.nodes, path).node.value;
    var u := Write(fs, path, offset, bytes).0;
    StoreRowOverlays(fs.data[n], fs.nodes[n].size, offset, bytes);
    StoreView(fs, n, Split(path), u.nodes[n].size, u.data[n]);
  }

  /** The tree does not depend on sizes. */
  lemma {:induction false} ResizeLookup(nodes: seq<Node>, n: nat, size: nat, q: seq<string>)
    requires n < |nodes|
    ensures Lookup(nodes[n := nodes[n].(size := size)], q) == Lookup(nodes, q)
    decreases |q|
  {
    if q != [] {
      var u := nodes[n := nodes[n].(size := size)];
      ResizeLookup(nodes, n, size, q[..|q| - 1]);
      var d := Lookup(nodes, q[..|q| - 1]);
      if d.Some? {
        ScanSame(nodes, u, d.value, q[|q| - 1], d.value, 0);
      }
    }
  }

  lemma ResizeKeepsInv(nodes: seq<Node>, n: nat, size: nat)
    requires Inv(nodes) && n < |nodes|
    ensures Inv(nodes[n := nodes[n].(size := size)])
  {
    var u := nodes[n := nodes[n].(size := size)];
    forall i | 0 <= i < |u| ensures IndexOk(u, i) && TablesOk(u, i) && LinkOk(u, i) {
      assert IndexOk(nodes, i) && TablesOk(nodes, i) && LinkOk(nodes, i);
      if IsDir(nodes, i) { SortedFrame(nodes, u, nodes[i].dirIndex); }
    }
    forall i | 0 <= i < |u| && u[i].used ensures Reachable(u, i) {
      assert Reachable(nodes, i);
      var q :| Lookup(nodes, q) == Some(i);
      ResizeLookup(nodes, n, size, q);
    }
  }

  lemma SliceOfPrefix(row: seq<Byte>, m: nat, offset: nat, size: nat)
    requires offset + size <= m <= |row|
    ensures row[..m][offset..offset + size] == row[offset..offset + size]
  {
  }

  /** A read shows the requested bytes of the file's contents, or fails when they are not all there. */
  lemma ReadRefines(fs: Fs, path: string, offset: nat, size: nat)
    requires Valid(fs)
    ensures Read(fs, path, offset, size) ==
      if MayUnlink(View(fs), path) && offset + size <= |Denotes(View(fs), path).value.contents|
      then Some(Denotes(View(fs), path).value.contents[offset..offset + size]) else None
    ensures Size(fs, path) ==
      if MayUnlink(View(fs), path) then Some(|Denotes(View(fs), path).value.contents|) else None
    ensures Exists(fs, path) <==> Denotes(View(fs), path).Some?
  {
    ResolveDenotes(fs, path);
    if MayUnlink(View(fs), path) {
      var n := Resolve(fs.nodes, path).node.value;
      AtLookup(fs, Split(path));
      if offset + size <= fs.nodes[n].size {
        SliceOfPrefix(fs.data[n], fs.nodes[n].size, offset, size);
      }
    }
  }
}
