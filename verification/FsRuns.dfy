/** Runs of file-system calls, from an empty file system over storage with any contents. */
module FsRuns {
  import opened Common
  import opened FsNames
  import opened FsModel
  import opened FsTree
  import opened FsOperations
  import opened FsRefinement
  import opened FsCapacity

  datatype Call =
    | CallCreate(path: string, directory: bool)
    | CallRmdir(path: string)
    | CallUnlink(path: string)
    | CallWrite(path: string, offset: nat, bytes: seq<Byte>)
    | CallRead(path: string, offset: nat, size: nat)
    | CallSize(path: string)
    | CallLookup(path: string)

  datatype Answer = Refused | Ok | Bytes(bytes: seq<Byte>) | Count(n: nat)

  function YesNo(ok: bool): (r: Answer)
  {
    if ok then Ok else Refused
  }

  ghost function Step(fs: Fs, call: Call): (r: (Fs, Answer))
    requires Valid(fs)
    ensures Valid(r.0)
  {
    match call
    case CallCreate(path, directory) =>
      CreateRefines(fs, path, directory);
      var (u, ok) := Create(fs, path, directory); (u, YesNo(ok))
    case CallRmdir(path) =>
      RmdirRefines(fs, path);
      var (u, ok) := Rmdir(fs, path); (u, YesNo(ok))
    case CallUnlink(path) =>
      UnlinkRefines(fs, path);
      var (u, ok) := Unlink(fs, path); (u, YesNo(ok))
    case CallWrite(path, offset, bytes) =>
      WriteRefines(fs, path, offset, bytes);
      var (u, ok) := Write(fs, path, offset, bytes); (u, YesNo(ok))
    case CallRead(path, offset, size) =>
      var b := Read(fs, path, offset, size); (fs, if b.None? then Refused else Bytes(b.value))
    case CallSize(path) =>
      var n := Size(fs, path); (fs, if n.None? then Refused else Count(n.value))
    case CallLookup(path) => (fs, YesNo(Exists(fs, path)))
  }

  /** Contents of the file a path denotes; empty when it denotes none. */
  ghost function ContentsOf(v: Tree, path: string): (r: seq<Byte>)
  {
    if MayUnlink(v, path) then Denotes(v, path).value.contents else []
  }

  /** The same call on a tree of names. */
  ghost function TreeStep(v: Tree, call: Call): (r: (Tree, Answer))
  {
    match call
    case CallCreate(path, directory) =>
      if MayCreate(v, path) && Room(v) then (v[Split(path) := if directory then Dir else File([])], Ok) else (v, Refused)
    case CallRmdir(path) => if MayRmdir(v, path) then (Without(v, Split(path)), Ok) else (v, Refused)
    case CallUnlink(path) => if MayUnlink(v, path) then (Without(v, Split(path)), Ok) else (v, Refused)
    case CallWrite(path, offset, bytes) =>
      if MayUnlink(v, path) && offset + |bytes| <= MAX_DATA
      then (v[Split(path) := File(Overlay(ContentsOf(v, path), offset, bytes))], Ok) else (v, Refused)
    case CallRead(path, offset, size) =>
      if MayUnlink(v, path) && offset + size <= |ContentsOf(v, path)|
      then (v, Bytes(ContentsOf(v, path)[offset..offset + size])) else (v, Refused)
    case CallSize(path) => if MayUnlink(v, path) then (v, Count(|ContentsOf(v, path)|)) else (v, Refused)
    case CallLookup(path) => (v, YesNo(Denotes(v, path).Some?))
  }

  /** One call on the table is that call on the tree of names, with the same answer. */
  lemma StepRefines(fs: Fs, call: Call)
    requires Valid(fs)
    ensures TreeStep(View(fs), call) == (View(Step(fs, call).0), Step(fs, call).1)
  {
    RoomIff(fs);
    hide Valid, View, Room, Denotes, MayCreate, MayRmdir, Create, Rmdir, Unlink, Write, Read, Size, Exists;
    match call
    case CallCreate(path, directory) => CreateRefines(fs, path, directory);
    case CallRmdir(path) => RmdirRefines(fs, path);
    case CallUnlink(path) => UnlinkRefines(fs, path);
    case CallWrite(path, offset, bytes) => WriteRefines(fs, path, offset, bytes);
    case CallRead(path, offset, size) => ReadRefines(fs, path, offset, size);
    case CallSize(path) => ReadRefines(fs, path, 0, 0);
    case CallLookup(path) => ReadRefines(fs, path, 0, 0);
  }

  ghost predicate Stepped(run: seq<Fs>, calls: seq<Call>, answers: seq<Answer>, k: nat)
    requires k + 1 < |run| && k < |calls| && k < |answers|
  {
    Valid(run[k]) && Step(run[k], calls[k]) == (run[k + 1], answers[k])
  }

  /** A run of calls on the table, with the answers it gave. */
  ghost predicate FsRun(run: seq<Fs>, calls: seq<Call>, answers: seq<Answer>)
  {
    && |run| == |calls| + 1 == |answers| + 1
    && Valid(run[0])
    && forall k :: 0 <= k < |calls| ==> Stepped(run, calls, answers, k)
  }

  ghost predicate TreeStepped(run: seq<Tree>, calls: seq<Call>, answers: seq<Answer>, k: nat)
    requires k + 1 < |run| && k < |calls| && k < |answers|
  {
    TreeStep(run[k], calls[k]) == (run[k + 1], answers[k])
  }

  /** The file system refines the tree of names: every run of calls shows, call by call, the answers
      and the views of a run on the tree. */
  lemma RunRefines(run: seq<Fs>, calls: seq<Call>, answers: seq<Answer>)
    requires FsRun(run, calls, answers)
    ensures forall k :: 0 <= k < |run| ==> Valid(run[k])
    ensures
      var views := seq(|run|, k requires 0 <= k < |run| => if Valid(run[k]) then View(run[k]) else imap[]);
      forall k :: 0 <= k < |calls| ==> TreeStepped(views, calls, answers, k)
  {
    forall k | 0 <= k < |run| ensures Valid(run[k]) {
      if k > 0 { assert Stepped(run, calls, answers, k - 1); }
    }
    forall k | 0 <= k < |calls|
      ensures TreeStep(View(run[k]), calls[k]) == (View(run[k + 1]), answers[k])
    {
      assert Stepped(run, calls, answers, k);
      StepRefines(run[k], calls[k]);
    }
  }

  /** mkfs over any storage: only the root exists, whatever bytes the storage holds. */
  lemma EmptyView(data: seq<seq<Byte>>)
    requires |data| == MAX_NODES && forall i :: 0 <= i < MAX_NODES ==> |data[i]| == MAX_DATA
    ensures Valid(Fs(EmptyNodes(), data)) && View(Fs(EmptyNodes(), data)) == imap[[] := Dir]
  {
    EmptyInv();
    var fs := Fs(EmptyNodes(), data);
    forall q: seq<string> ensures At(fs, q) == if q == [] then Some(Dir) else None {
      EmptyLookup(q);
    }
  }
}
