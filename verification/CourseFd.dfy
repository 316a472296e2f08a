/** The descriptor table as the kernel keeps it: fixed entries updated in place, over a shared file system. */
module CourseFd {
  import opened Common
  import opened FdModel
  import opened CourseFs

  class FdTable {
    const fs: FileSystem
    const entries: array<Descriptor>
    var cwd: string

    ghost predicate Separate()
      reads this
    {
      fs.Bounds() && entries.Length == MAX_OPEN
      && (entries as object) != fs.nodes && (entries as object) != fs.data
      && (this as object) != fs && (this as object) != entries && (fs as object) != entries
    }

    ghost function Model(): (r: Kernel)
      requires Separate()
      reads this, entries, fs.nodes, fs.data
    {
      Kernel(fs.Model(), Fds(entries[..], cwd))
    }

    ghost predicate Valid()
      reads this, entries, fs.nodes, fs.data
    {
      Separate() && ValidKernel(Model())
    }

    constructor (files: FileSystem)
      requires files.Valid()
      ensures Valid() && fs == files && fresh(entries) && Model().fds == INITIAL && Model().fs == old(files.Model())
    {
      fs := files;
      entries := new Descriptor[MAX_OPEN](i => if i == 0 then STDIN else if i < FIRST_FD then STDOUT else CLOSED);
      cwd := "/";
      new;
      assert entries[..] == INITIAL.entries;
    }

    /** Copying into a path buffer stops one short of its size. */
    method CopyPath(path: string) returns (copied: string)
      ensures copied == Clipped(path)
    {
      copied := "";
      while |copied| < |path| && |copied| + 1 < MAX_PATH
        invariant |copied| <= |path| && copied == path[..|copied|] && |copied| < MAX_PATH
      {
        copied := copied + [path[|copied|]];
      }
    }

    method ResolvePath(path: string) returns (r: Option<string>)
      requires Valid()
      ensures r == FullPath(cwd, path)
    {
      if path != "" && path[0] == '/' {
        var copied := CopyPath(path);
        return Some(copied);
      }
      var out := CopyPath(cwd);
      if out == "" || out[0] != '/' { return None; }
      if |out| > 1 && |out| + 1 < MAX_PATH { out := out + "/"; }
      ghost var base := out;
      var i: nat := 0;
      while i < |path| && |out| + 1 < MAX_PATH
        invariant i <= |path| && out == base + path[..i]
        invariant |out| < MAX_PATH
      {
        out := out + [path[i]];
        i := i + 1;
      }
      if i < |path| { return None; }
      assert path[..i] == path;
      return Some(out);
    }

    method FindFreeFd() returns (fd: Option<nat>)
      requires Valid()
      ensures fd == FreeFdFrom(entries[..], FIRST_FD)
    {
      var i: nat := FIRST_FD;
      while i < MAX_OPEN
        invariant FIRST_FD <= i <= MAX_OPEN
        invariant FreeFdFrom(entries[..], FIRST_FD) == FreeFdFrom(entries[..], i)
      {
        if entries[i].kind == Unused { return Some(i); }
        i := i + 1;
      }
      return None;
    }

    method Open(path: string, mode: Mode) returns (reply: Reply)
      requires Valid()
      modifies this, entries, fs, fs.nodes
      ensures Valid()
      ensures (Model(), reply) == OpenAt(old(Model()), path, mode)
    {
      hide Ops.Valid, Ops.Create, Ops.Exists, FullPath;
      OpenKeeps(Model(), path, mode);
      var p := ResolvePath(path);
      if p.None? { return Failed(InvalidPath); }
      var fd := FindFreeFd();
      if fd.None? { return Failed(NoSlot); }
      if "/proc/" <= p.value {
        if mode.write { return Failed(PermissionDenied); }
        entries[fd.value] := Descriptor(ProcNode, Mode(true, false, false), 0, p.value);
        return Opened(fd.value);
      }
      var found := fs.Lookup(p.value);
      if !found {
        if !mode.create { return Failed(NoSuchFile); }
        var made := fs.Create(p.value, false);
        if !made { return Failed(NoSuchFile); }
      }
      entries[fd.value] := Descriptor(OpenFile, mode, 0, p.value);
      return Opened(fd.value);
    }

    method Close(fd: int) returns (reply: Reply)
      requires Valid()
      modifies entries
      ensures Valid()
      ensures (Model().fds, reply) == CloseFd(old(Model().fds), fd) && Model().fs == old(Model().fs)
    {
      if fd < 0 || fd >= MAX_OPEN || entries[fd].kind == Unused || fd < FIRST_FD { return Failed(BadFd); }
      entries[fd] := CLOSED;
      return Done;
    }

    /** `text` is what the proc node reads as at this moment. */
    method Read(fd: int, size: nat, text: Option<seq<Byte>>) returns (reply: Reply)
      requires Valid()
      modifies entries, fs
      ensures Valid()
      ensures (Model().fds, reply) == ReadAt(old(Model()), fd, size, text) && Model().fs == old(Model().fs)
    {
      hide Ops.Valid, Ops.Read, Ops.Size;
      if fd < 0 || fd >= MAX_OPEN || entries[fd].kind == Unused { return Failed(BadFd); }
      var e := entries[fd];
      if !e.mode.read { return Failed(PermissionDenied); }
      if e.kind == OpenFile {
        var total := fs.Size(e.path);
        if total.None? { return Failed(NoSuchFile); }
        if e.offset >= total.value { return Data([]); }
        var n := if size > total.value - e.offset then total.value - e.offset else size;
        var bytes := fs.Read(e.path, e.offset, n);
        if bytes.None? { return Failed(NoSuchFile); }
        entries[fd] := e.(offset := e.offset + n);
        return Data(bytes.value);
      }
      if e.kind == ProcNode {
        if text.None? { return Failed(NoSuchFile); }
        if e.offset > |text.value| { return Data([]); }
        var n := if size > |text.value| - e.offset then |text.value| - e.offset else size;
        entries[fd] := e.(offset := e.offset + n);
        return Data(text.value[e.offset..e.offset + n]);
      }
      return Failed(BadFd);
    }

    method Write(fd: int, bytes: seq<Byte>) returns (reply: Reply)
      requires Valid()
      modifies entries, fs, fs.nodes, fs.data
      ensures Valid()
      ensures (Model(), reply) == WriteAt(old(Model()), fd, bytes)
    {
      hide Ops.Valid, Ops.Write;
      WriteKeeps(Model(), fd, bytes);
      if fd < 0 || fd >= MAX_OPEN || entries[fd].kind == Unused { return Failed(BadFd); }
      var e := entries[fd];
      if !e.mode.write || e.kind == ProcNode { return Failed(PermissionDenied); }
      if e.kind != OpenFile { return Failed(NoSuchFile); }
      var ok := fs.Write(e.path, e.offset, bytes);
      if !ok { return Failed(NoSuchFile); }
      entries[fd] := e.(offset := e.offset + |bytes|);
      return Wrote(|bytes|);
    }

    method Seek(fd: int, offset: nat) returns (reply: Reply)
      requires Valid()
      modifies entries
      ensures Valid()
      ensures (Model().fds, reply) == SeekFd(old(Model().fds), fd, offset) && Model().fs == old(Model().fs)
    {
      if fd < 0 || fd >= MAX_OPEN || entries[fd].kind == Unused { return Failed(BadFd); }
      if entries[fd].kind != OpenFile { return Failed(PermissionDenied); }
      entries[fd] := entries[fd].(offset := offset);
      return Done;
    }

    method SetCwd(path: string) returns (reply: Reply)
      requires Valid()
      modifies this, fs
      ensures Valid()
      ensures (Model().fds, reply) == ChdirTo(old(Model()), path) && Model().fs == old(Model().fs)
    {
      hide Ops.Valid, Ops.Exists;
      ResolvedFits(Model().fds, path);
      var p := ResolvePath(path);
      if p.None? { return Failed(InvalidPath); }
      var found := fs.Lookup(p.value);
      if !found { return Failed(InvalidPath); }
      cwd := CopyPath(p.value);
      return Done;
    }
  }
}
