/** The file-descriptor table over the RAM file system: open files with an offset of their own. */
module FdModel {
  import opened Common
  import opened FsNames
  import opened FsModel
  import Ops = FsOperations
  import opened FsRefinement
  import opened FsRuns

  const MAX_OPEN := 16
  const MAX_PATH := 96
  const FIRST_FD := 3

  datatype Kind = Unused | Stdio | OpenFile | ProcNode

  datatype Mode = Mode(read: bool, write: bool, create: bool)

  datatype Descriptor = Descriptor(kind: Kind, mode: Mode, offset: nat, path: string)

  const CLOSED := Descriptor(Unused, Mode(false, false, false), 0, "")
  const STDIN := Descriptor(Stdio, Mode(true, false, false), 0, "")
  const STDOUT := Descriptor(Stdio, Mode(false, true, false), 0, "")

  datatype Fds = Fds(entries: seq<Descriptor>, cwd: string)

  datatype FdError = BadFd | NoSlot | NoSuchFile | PermissionDenied | InvalidPath

  datatype Reply = Failed(error: FdError) | Done | Opened(fd: nat) | Data(bytes: seq<Byte>) | Wrote(n: nat)

  /** The table after init: descriptors 0, 1, 2 are stdio, the rest are closed, the directory is the root. */
  const INITIAL := Fds([STDIN, STDOUT, STDOUT] + seq(MAX_OPEN - 3, _ => CLOSED), "/")

  predicate ValidFds(t: Fds)
  {
    && |t.entries| == MAX_OPEN
    && (forall k :: 0 <= k < FIRST_FD ==> t.entries[k].kind == Stdio)
    && (forall k :: FIRST_FD <= k < MAX_OPEN ==> t.entries[k].kind != Stdio)
    && (forall k :: 0 <= k < MAX_OPEN ==> |t.entries[k].path| < MAX_PATH)
    && 0 < |t.cwd| < MAX_PATH && t.cwd[0] == '/'
  }

  /** What fits a path buffer with its terminator. */
  function Clipped(s: string): (r: string)
  {
    if |s| < MAX_PATH then s else s[..MAX_PATH - 1]
  }

  /** An absolute path is taken as far as it fits; a relative one is appended to the directory, or refused. */
  function FullPath(cwd: string, path: string): (r: Option<string>)
  {
    if Absolute(path) then Some(Clipped(path))
    else if !Absolute(cwd) then None
    else
      var base := if |cwd| > 1 && |cwd| + 1 < MAX_PATH then cwd + "/" else cwd;
      if |base| + |path| < MAX_PATH then Some(base + path) else None
  }

  predicate IsProc(path: string)
  {
    "/proc/" <= path
  }

  function FreeFdFrom(entries: seq<Descriptor>, i: nat): (r: Option<nat>)
    requires i <= |entries|
    ensures r.Some? ==> i <= r.value < |entries| && entries[r.value].kind == Unused
    ensures r.Some? ==> forall k :: i <= k < r.value ==> entries[k].kind != Unused
    ensures r.None? ==> forall k :: i <= k < |entries| ==> entries[k].kind != Unused
    decreases |entries| - i
  {
    if i == |entries| then None else if entries[i].kind == Unused then Some(i) else FreeFdFrom(entries, i + 1)
  }

  predicate InUse(t: Fds, fd: int)
  {
    0 <= fd < |t.entries| && t.entries[fd].kind != Unused
  }

  function Installed(t: Fds, fd: nat, e: Descriptor): (r: Fds)
    requires fd < |t.entries|
  {
    t.(entries := t.entries[fd := e])
  }

  function Moved(t: Fds, fd: nat, offset: nat): (r: Fds)
    requires fd < |t.entries|
  {
    Installed(t, fd, t.entries[fd].(offset := offset))
  }

  datatype FdCall =
    | Open(path: string, mode: Mode)
    | Close(fd: int)
    | ReadFd(fd: int, size: nat, text: Option<seq<Byte>>)
    | WriteFd(fd: int, bytes: seq<Byte>)
    | Seek(fd: int, offset: nat)
    | Chdir(path: string)
    | Direct(call: Call)

  datatype Kernel = Kernel(fs: Fs, fds: Fds)

  ghost predicate ValidKernel(k: Kernel)
  {
    Ops.Valid(k.fs) && ValidFds(k.fds)
  }

  function OpenAt(k: Kernel, path: string, mode: Mode): (r: (Kernel, Reply))
    requires ValidKernel(k)
  {
    var p := FullPath(k.fds.cwd, path);
    if p.None? then (k, Failed(InvalidPath))
    else
      var fd := FreeFdFrom(k.fds.entries, FIRST_FD);
      if fd.None? then (k, Failed(NoSlot))
      else if IsProc(p.value) then
        if mode.write then (k, Failed(PermissionDenied))
        else (k.(fds := Installed(k.fds, fd.value, Descriptor(ProcNode, Mode(true, false, false), 0, p.value))), Opened(fd.value))
      else
        var (u, ok) := if Ops.Exists(k.fs, p.value) then (k.fs, true)
                       else if mode.create then Ops.Create(k.fs, p.value, false) else (k.fs, false);
        if !ok then (k.(fs := u), Failed(NoSuchFile))
        else (Kernel(u, Installed(k.fds, fd.value, Descriptor(OpenFile, mode, 0, p.value))), Opened(fd.value))
  }

  function CloseFd(t: Fds, fd: int): (r: (Fds, Reply))
    requires ValidFds(t)
  {
    if !InUse(t, fd) || fd < FIRST_FD then (t, Failed(BadFd)) else (Installed(t, fd, CLOSED), Done)
  }

  /** Reading from a snapshot of a proc node's text. */
  function ReadText(t: Fds, fd: nat, size: nat, text: Option<seq<Byte>>): (r: (Fds, Reply))
    requires fd < |t.entries|
  {
    var o := t.entries[fd].offset;
    if text.None? then (t, Failed(NoSuchFile))
    else if o > |text.value| then (t, Data([]))
    else
      var n := if size > |text.value| - o then |text.value| - o else size;
      (Moved(t, fd, o + n), Data(text.value[o..o + n]))
  }

  function ReadAt(k: Kernel, fd: int, size: nat, text: Option<seq<Byte>>): (r: (Fds, Reply))
    requires ValidKernel(k)
  {
    var t := k.fds;
    if !InUse(t, fd) then (t, Failed(BadFd))
    else
      var e := t.entries[fd];
      if !e.mode.read then (t, Failed(PermissionDenied))
      else match e.kind
        case OpenFile =>
          var total := Ops.Size(k.fs, e.path);
          if total.None? then (t, Failed(NoSuchFile))
          else if e.offset >= total.value then (t, Data([]))
          else
            var n := if size > total.value - e.offset then total.value - e.offset else size;
            var b := Ops.Read(k.fs, e.path, e.offset, n);
            if b.None? then (t, Failed(NoSuchFile)) else (Moved(t, fd, e.offset + n), Data(b.value))
        case ProcNode => ReadText(t, fd, size, text)
        case _ => (t, Failed(BadFd))
  }

  function WriteAt(k: Kernel, fd: int, bytes: seq<Byte>): (r: (Kernel, Reply))
    requires ValidKernel(k)
  {
    if !InUse(k.fds, fd) then (k, Failed(BadFd))
    else
      var e := k.fds.entries[fd];
      if !e.mode.write || e.kind == ProcNode then (k, Failed(PermissionDenied))
      else if e.kind != OpenFile then (k, Failed(NoSuchFile))
      else
        var (u, ok) := Ops.Write(k.fs, e.path, e.offset, bytes);
        if !ok then (k.(fs := u), Failed(NoSuchFile))
        else (Kernel(u, Moved(k.fds, fd, e.offset + |bytes|)), Wrote(|bytes|))
  }

  function SeekFd(t: Fds, fd: int, offset: nat): (r: (Fds, Reply))
  {
    if !InUse(t, fd) then (t, Failed(BadFd))
    else if t.entries[fd].kind != OpenFile then (t, Failed(PermissionDenied))
    else (Moved(t, fd, offset), Done)
  }

  function ChdirTo(k: Kernel, path: string): (r: (Fds, Reply))
  {
    var p := FullPath(k.fds.cwd, path);
    if p.None? || !Ops.Exists(k.fs, p.value) then (k.fds, Failed(InvalidPath))
    else (k.fds.(cwd := Clipped(p.value)), Done)
  }

  ghost function KernelStep(k: Kernel, call: FdCall): (r: (Kernel, Reply))
    requires ValidKernel(k)
  {
    match call
    case Open(path, mode) => OpenAt(k, path, mode)
    case Close(fd) => var (t, reply) := CloseFd(k.fds, fd); (k.(fds := t), reply)
    case ReadFd(fd, size, text) => var (t, reply) := ReadAt(k, fd, size, text); (k.(fds := t), reply)
    case WriteFd(fd, bytes) => WriteAt(k, fd, bytes)
    case Seek(fd, offset) => var (t, reply) := SeekFd(k.fds, fd, offset); (k.(fds := t), reply)
    case Chdir(path) => var (t, reply) := ChdirTo(k, path); (k.(fds := t), reply)
    case Direct(c) => (k.(fs := Step(k.fs, c).0), Done)
  }

  // ----- paths

  /** An open names the file it was asked for exactly when an absolute path fits the 96-byte buffer;
      a longer one is cut to its first 95 characters without an error. */
  lemma ResolvedAbsolute(cwd: string, path: string)
    requires Absolute(path)
    ensures FullPath(cwd, path).Some? && FullPath(cwd, path).value <= path
    ensures FullPath(cwd, path) == Some(path) <==> |path| < MAX_PATH
    ensures |path| >= MAX_PATH ==> |FullPath(cwd, path).value| == MAX_PATH - 1
  {
  }

  /** A relative path is never cut: it stands below the directory or is refused. */
  lemma ResolvedRelative(t: Fds, path: string)
    requires ValidFds(t) && !Absolute(path) && path != []
    ensures var full := (if |t.cwd| > 1 then t.cwd + "/" else t.cwd) + path;
      FullPath(t.cwd, path) == if |full| < MAX_PATH then Some(full) else None
  {
    if |t.cwd| == MAX_PATH - 1 { assert FullPath(t.cwd, path) == None; }
  }

  /** Two different names that agree on 95 characters are one file to open. */
  lemma LongNamesCollide(cwd: string, a: string, b: string)
    requires Absolute(a) && Absolute(b) && |a| >= MAX_PATH && |b| >= MAX_PATH
    ensures FullPath(cwd, a) == FullPath(cwd, b) <==> a[..MAX_PATH - 1] == b[..MAX_PATH - 1]
  {
  }

  lemma ResolvedFits(t: Fds, path: string)
    requires ValidFds(t)
    ensures FullPath(t.cwd, path).Some? ==>
      Absolute(FullPath(t.cwd, path).value) && |FullPath(t.cwd, path).value| < MAX_PATH
  {
  }

  // ----- every call keeps the kernel valid

  lemma InitialValid()
    ensures ValidFds(INITIAL)
  {
  }

  lemma OpenKeeps(k: Kernel, path: string, mode: Mode)
    requires ValidKernel(k)
    ensures ValidKernel(OpenAt(k, path, mode).0)
  {
    hide Ops.Valid, Ops.Create, Ops.Exists, FullPath, View, Denotes, MayCreate;
    ResolvedFits(k.fds, path);
    var p := FullPath(k.fds.cwd, path);
    if p.Some? {
      CreateRefines(k.fs, p.value, false);
    }
  }

  lemma WriteKeeps(k: Kernel, fd: int, bytes: seq<Byte>)
    requires ValidKernel(k)
    ensures ValidKernel(WriteAt(k, fd, bytes).0)
  {
    if InUse(k.fds, fd) {
      WriteRefines(k.fs, k.fds.entries[fd].path, k.fds.entries[fd].offset, bytes);
    }
    hide Ops.Valid, Ops.Write, View;
  }

  lemma StepKeepsValid(k: Kernel, call: FdCall)
    requires ValidKernel(k)
    ensures ValidKernel(KernelStep(k, call).0)
  {
    match call
    case Open(path, mode) => OpenKeeps(k, path, mode);
    case WriteFd(fd, bytes) => WriteKeeps(k, fd, bytes);
    case Chdir(path) => ResolvedFits(k.fds, path);
    case _ =>
  }

  // ----- one descriptor among the others

  /** The file behind a descriptor, as its holder sees it. */
  datatype Cursor = Cursor(contents: seq<Byte>, offset: nat, mode: Mode)

  ghost predicate IsOpen(k: Kernel, fd: nat)
    requires ValidKernel(k)
  {
    fd < MAX_OPEN && k.fds.entries[fd].kind == OpenFile && MayUnlink(View(k.fs), k.fds.entries[fd].path)
  }

  ghost function CursorOf(k: Kernel, fd: nat): (r: Cursor)
    requires ValidKernel(k) && IsOpen(k, fd)
  {
    var e := k.fds.entries[fd];
    Cursor(Denotes(View(k.fs), e.path).value.contents, e.offset, e.mode)
  }

  predicate Own(fd: nat, call: FdCall)
  {
    (call.ReadFd? || call.WriteFd? || call.Seek?) && call.fd == fd
  }

  /** The descriptor's own calls on the file alone. */
  function CursorStep(c: Cursor, call: FdCall): (r: (Cursor, Reply))
  {
    match call
    case ReadFd(_, size, _) =>
      if !c.mode.read then (c, Failed(PermissionDenied))
      else if c.offset >= |c.contents| then (c, Data([]))
      else
        var n := if size > |c.contents| - c.offset then |c.contents| - c.offset else size;
        (c.(offset := c.offset + n), Data(c.contents[c.offset..c.offset + n]))
    case WriteFd(_, bytes) =>
      if !c.mode.write then (c, Failed(PermissionDenied))
      else if c.offset + |bytes| > MAX_DATA then (c, Failed(NoSuchFile))
      else (c.(contents := Overlay(c.contents, c.offset, bytes), offset := c.offset + |bytes|), Wrote(|bytes|))
    case Seek(_, offset) => (c.(offset := offset), Done)
    case _ => (c, Done)
  }

  /** Calls that neither use this descriptor nor write or remove its file. */
  predicate Foreign(t: Fds, fd: nat, call: FdCall)
    requires fd < |t.entries|
  {
    match call
    case Open(_, _) => true
    case Chdir(_) => true
    case Close(g) => g != fd
    case ReadFd(g, _, _) => g != fd
    case Seek(g, _) => g != fd
    case WriteFd(g, _) => g != fd && (InUse(t, g) ==> Split(t.entries[g].path) != Split(t.entries[fd].path))
    case Direct(CallWrite(p, _, _)) => Split(p) != Split(t.entries[fd].path)
    case Direct(CallUnlink(p)) => Split(p) != Split(t.entries[fd].path)
    case Direct(_) => true
  }

  /** A read from where a file's contents reach to. */
  lemma ReadFits(fs: Fs, path: string, offset: nat, size: nat)
    requires Ops.Valid(fs) && MayUnlink(View(fs), path)
    ensures var contents := Denotes(View(fs), path).value.contents;
      && Ops.Size(fs, path) == Some(|contents|)
      && (offset + size <= |contents| ==> Ops.Read(fs, path, offset, size) == Some(contents[offset..offset + size]))
  {
    ReadRefines(fs, path, offset, size);
  }

  lemma ReadAtOpen(k: Kernel, fd: nat, size: nat, text: Option<seq<Byte>>)
    requires ValidKernel(k) && fd < MAX_OPEN && k.fds.entries[fd].kind == OpenFile
    ensures var e := k.fds.entries[fd];
      var total := Ops.Size(k.fs, e.path);
      ReadAt(k, fd, size, text) ==
        if !e.mode.read then (k.fds, Failed(PermissionDenied))
        else if total.None? then (k.fds, Failed(NoSuchFile))
        else if e.offset >= total.value then (k.fds, Data([]))
        else
          var n := if size > total.value - e.offset then total.value - e.offset else size;
          var b := Ops.Read(k.fs, e.path, e.offset, n);
          if b.None? then (k.fds, Failed(NoSuchFile)) else (Moved(k.fds, fd, e.offset + n), Data(b.value))
    ensures Moved(k.fds, fd, k.fds.entries[fd].offset) == k.fds
  {
    hide Ops.Read, Ops.Size, Ops.Valid, View;
  }

  lemma OwnRead(k: Kernel, fd: nat, size: nat, text: Option<seq<Byte>>)
    requires ValidKernel(k) && IsOpen(k, fd)
    ensures var (t, reply) := ReadAt(k, fd, size, text);
      var (c, reply') := CursorStep(CursorOf(k, fd), ReadFd(fd, size, text));
      t == Moved(k.fds, fd, c.offset) && reply == reply' && c == CursorOf(k, fd).(offset := c.offset)
  {
    hide ReadAt, Moved, View, Ops.Valid, Ops.Read, Ops.Size, Denotes;
    var e := k.fds.entries[fd];
    var total := |CursorOf(k, fd).contents|;
    ReadAtOpen(k, fd, size, text);
    var n := if e.offset >= total then 0 else if size > total - e.offset then total - e.offset else size;
    ReadFits(k.fs, e.path, e.offset, n);
  }

  lemma DenotesUpdated(v: Tree, p: string, contents: seq<Byte>)
    requires MayUnlink(v, p)
    ensures Denotes(v[Split(p) := File(contents)], p) == Some(File(contents))
  {
  }

  lemma WriteFits(fs: Fs, path: string, offset: nat, bytes: seq<Byte>)
    requires Ops.Valid(fs) && MayUnlink(View(fs), path)
    ensures var (u, ok) := Ops.Write(fs, path, offset, bytes);
      var contents := Denotes(View(fs), path).value.contents;
      && Ops.Valid(u) && (ok <==> offset + |bytes| <= MAX_DATA)
      && Denotes(View(u), path) == Some(File(if ok then Overlay(contents, offset, bytes) else contents))
  {
    WriteRefines(fs, path, offset, bytes);
    hide Ops.Valid, Ops.Write, View, Denotes, Overlay, Split;
    DenotesUpdated(View(fs), path, Overlay(Denotes(View(fs), path).value.contents, offset, bytes));
  }

  lemma WriteAtOpen(k: Kernel, fd: nat, bytes: seq<Byte>)
    requires ValidKernel(k) && fd < MAX_OPEN && k.fds.entries[fd].kind == OpenFile
    ensures var e := k.fds.entries[fd];
      var w := Ops.Write(k.fs, e.path, e.offset, bytes);
      WriteAt(k, fd, bytes) ==
        if !e.mode.write then (k, Failed(PermissionDenied))
        else if !w.1 then (k.(fs := w.0), Failed(NoSuchFile))
        else (Kernel(w.0, Moved(k.fds, fd, e.offset + |bytes|)), Wrote(|bytes|))
    ensures Moved(k.fds, fd, k.fds.entries[fd].offset) == k.fds
  {
    hide Ops.Write, Ops.Valid, View;
  }

  lemma OwnWrite(k: Kernel, fd: nat, bytes: seq<Byte>)
    requires ValidKernel(k) && IsOpen(k, fd)
    ensures var (u, reply) := WriteAt(k, fd, bytes);
      var (c, reply') := CursorStep(CursorOf(k, fd), WriteFd(fd, bytes));
      && Ops.Valid(u.fs) && reply == reply' && u.fds == Moved(k.fds, fd, c.offset)
      && Denotes(View(u.fs), k.fds.entries[fd].path) == Some(File(c.contents)) && c.mode == k.fds.entries[fd].mode
  {
    hide WriteAt, Ops.Valid, Ops.Write, View, Denotes, Moved, Overlay;
    var e := k.fds.entries[fd];
    WriteFits(k.fs, e.path, e.offset, bytes);
    WriteAtOpen(k, fd, bytes);
  }

  /** One of the descriptor's own calls, seen through the descriptor, is that call on its file alone. */
  lemma OwnStep(k: Kernel, fd: nat, call: FdCall)
    requires ValidKernel(k) && IsOpen(k, fd) && Own(fd, call)
    ensures var (u, reply) := KernelStep(k, call);
      ValidKernel(u) && IsOpen(u, fd) && (CursorOf(u, fd), reply) == CursorStep(CursorOf(k, fd), call)
  {
    StepKeepsValid(k, call);
    match call
    case ReadFd(_, size, text) =>
      OwnRead(k, fd, size, text);
      hide View, Ops.Valid, ReadAt, CursorStep, Denotes;
    case WriteFd(_, bytes) =>
      OwnWrite(k, fd, bytes);
      hide View, Ops.Valid, WriteAt, CursorStep, Denotes;
    case Seek(_, _) =>
      hide View, Ops.Valid, Denotes;
  }

  /** A file stays what it is while the tree changes elsewhere. */
  lemma ElsewhereKeeps(v: Tree, call: Call, p: string)
    requires MayUnlink(v, p)
    requires call.CallWrite? || call.CallUnlink? ==> Split(call.path) != Split(p)
    ensures Denotes(TreeStep(v, call).0, p) == Denotes(v, p)
  {
  }

  /** An open leaves descriptors in use alone, and the file system alone but for one creation. */
  lemma OpenEffect(k: Kernel, fd: nat, path: string, mode: Mode)
    requires ValidKernel(k) && InUse(k.fds, fd)
    ensures var u := OpenAt(k, path, mode).0;
      var p := FullPath(k.fds.cwd, path);
      && fd < |u.fds.entries| && u.fds.entries[fd] == k.fds.entries[fd]
      && (u.fs == k.fs || (p.Some? && u.fs == Ops.Create(k.fs, p.value, false).0))
  {
    hide Ops.Create, Ops.Exists, Ops.Valid, FullPath;
  }

  lemma ForeignOpen(k: Kernel, fd: nat, path: string, mode: Mode)
    requires ValidKernel(k) && IsOpen(k, fd)
    ensures var u := OpenAt(k, path, mode).0;
      u.fds.entries[fd] == k.fds.entries[fd] && Ops.Valid(u.fs)
      && Denotes(View(u.fs), k.fds.entries[fd].path) == Denotes(View(k.fs), k.fds.entries[fd].path)
  {
    var v, q := View(k.fs), k.fds.entries[fd].path;
    hide OpenAt, Ops.Create, View, Ops.Valid, Denotes, MayCreate, FullPath;
    OpenEffect(k, fd, path, mode);
    var p := FullPath(k.fds.cwd, path);
    if p.Some? {
      CreateRefines(k.fs, p.value, false);
      ElsewhereKeeps(v, CallCreate(p.value, false), q);
    }
  }

  lemma ForeignWrite(k: Kernel, fd: nat, g: int, bytes: seq<Byte>)
    requires ValidKernel(k) && IsOpen(k, fd) && Foreign(k.fds, fd, WriteFd(g, bytes))
    ensures var u := WriteAt(k, g, bytes).0;
      u.fds.entries[fd] == k.fds.entries[fd] && Ops.Valid(u.fs)
      && Denotes(View(u.fs), k.fds.entries[fd].path) == Denotes(View(k.fs), k.fds.entries[fd].path)
  {
    if InUse(k.fds, g) {
      var e := k.fds.entries[g];
      WriteRefines(k.fs, e.path, e.offset, bytes);
      hide Ops.Valid, View, Ops.Write;
      ElsewhereKeeps(View(k.fs), CallWrite(e.path, e.offset, bytes), k.fds.entries[fd].path);
    }
  }

  /** A direct call on other paths leaves a file what it is. */
  lemma DirectElsewhere(fs: Fs, c: Call, p: string)
    requires Ops.Valid(fs) && MayUnlink(View(fs), p)
    requires c.CallWrite? || c.CallUnlink? ==> Split(c.path) != Split(p)
    ensures Ops.Valid(Step(fs, c).0) && Denotes(View(Step(fs, c).0), p) == Denotes(View(fs), p)
  {
    hide View, Step, TreeStep, Denotes, Split;
    StepRefines(fs, c);
    ElsewhereKeeps(View(fs), c, p);
  }

  lemma ForeignDirect(k: Kernel, fd: nat, c: Call)
    requires ValidKernel(k) && IsOpen(k, fd) && Foreign(k.fds, fd, Direct(c))
    ensures Ops.Valid(Step(k.fs, c).0)
    ensures Denotes(View(Step(k.fs, c).0), k.fds.entries[fd].path) == Denotes(View(k.fs), k.fds.entries[fd].path)
  {
    hide View, Step, TreeStep, Denotes, Split, Ops.Valid, MayUnlink;
    DirectElsewhere(k.fs, c, k.fds.entries[fd].path);
  }

  lemma ForeignLeaves(k: Kernel, fd: nat, call: FdCall)
    requires ValidKernel(k) && IsOpen(k, fd) && Foreign(k.fds, fd, call)
    ensures var u := KernelStep(k, call).0;
      && Ops.Valid(u.fs) && ValidFds(u.fds) && u.fds.entries[fd] == k.fds.entries[fd]
      && Denotes(View(u.fs), k.fds.entries[fd].path) == Denotes(View(k.fs), k.fds.entries[fd].path)
  {
    hide View, Ops.Valid, Denotes, OpenAt, WriteAt, Step, MayUnlink;
    StepKeepsValid(k, call);
    match call
    case Open(path, mode) => ForeignOpen(k, fd, path, mode);
    case WriteFd(g, bytes) => ForeignWrite(k, fd, g, bytes);
    case Direct(c) => ForeignDirect(k, fd, c);
    case _ =>
  }

  /** Calls on other descriptors and other files leave a descriptor's file and offset alone. */
  lemma ForeignStep(k: Kernel, fd: nat, call: FdCall)
    requires ValidKernel(k) && IsOpen(k, fd) && Foreign(k.fds, fd, call)
    ensures var u := KernelStep(k, call).0;
      ValidKernel(u) && IsOpen(u, fd) && CursorOf(u, fd) == CursorOf(k, fd)
  {
    hide View, Ops.Valid, Denotes, OpenAt, WriteAt, ReadAt, Step, ValidFds;
    StepKeepsValid(k, call);
    ForeignLeaves(k, fd, call);
  }
}
