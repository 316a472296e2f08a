/** The life of a descriptor and of the current directory, told on calls and runs: what close and chdir do to
    the calls that follow, what the standard streams answer, and how proc nodes are read. */
module FdLifetime {
  import opened Common
  import Ops = FsOperations
  import opened FsRefinement
  import opened FsRuns
  import opened FdModel
  import opened FdRuns

  // ----- close

  ghost predicate OthersKept(t: Fds, u: Fds, fd: int)
  {
    |t.entries| == |u.entries| && u.cwd == t.cwd
    && forall g :: 0 <= g < |t.entries| && g != fd ==> u.entries[g] == t.entries[g]
  }

  /** Close answers Done exactly for an open descriptor other than the standard streams; it touches no other
      descriptor and no file. */
  lemma CloseEffect(k: Kernel, fd: int)
    requires ValidKernel(k)
    ensures var (u, reply) := KernelStep(k, Close(fd));
      && u.fs == k.fs && OthersKept(k.fds, u.fds, fd)
      && (if 3 <= fd < 16 && k.fds.entries[fd].kind != Unused
          then reply == Done && u.fds.entries[fd].kind == Unused
          else reply == Failed(BadFd) && u == k)
  {
    hide Ops.Valid;
  }

  /** No reply of the run hands out this descriptor. */
  ghost predicate NotHandedOut(replies: seq<Reply>, fd: nat)
  {
    forall i :: 0 <= i < |replies| ==> replies[i] != Opened(fd)
  }

  ghost predicate Refused(calls: seq<FdCall>, replies: seq<Reply>, fd: nat)
    requires |calls| == |replies|
  {
    forall i :: 0 <= i < |calls| && (Own(fd, calls[i]) || calls[i] == Close(fd)) ==> replies[i] == Failed(BadFd)
  }

  lemma ClosedStep(k: Kernel, fd: nat, call: FdCall)
    requires ValidKernel(k) && 3 <= fd < 16 && k.fds.entries[fd].kind == Unused
    ensures var (u, reply) := KernelStep(k, call);
      && (Own(fd, call) || call == Close(fd) ==> reply == Failed(BadFd))
      && |u.fds.entries| == 16 && (reply != Opened(fd) ==> u.fds.entries[fd].kind == Unused)
  {
    hide View, Ops.Valid, Ops.Create, Ops.Exists, Ops.Write, Ops.Read, Ops.Size, Step, FullPath;
  }

  /** A closed descriptor refuses every call until an open hands it out again. */
  lemma {:induction false} ClosedRefuses(k: Kernel, fd: nat, calls: seq<FdCall>)
    requires ValidKernel(k) && 3 <= fd < 16 && k.fds.entries[fd].kind == Unused
    requires NotHandedOut(Run(k, calls).1, fd)
    ensures Refused(calls, Run(k, calls).1, fd)
    decreases |calls|
  {
    hide KernelStep, Ops.Valid, ValidFds, Own;
    if calls != [] {
      StepKeepsValid(k, calls[0]);
      ClosedStep(k, fd, calls[0]);
      var (u, reply) := KernelStep(k, calls[0]);
      var replies := Run(u, calls[1..]).1;
      var all := Run(k, calls).1;
      assert all == [reply] + replies;
      assert all[0] == reply;
      forall i | 0 <= i < |replies| ensures replies[i] != Opened(fd) {
        assert replies[i] == all[i + 1];
      }
      ClosedRefuses(u, fd, calls[1..]);
      forall i | 0 <= i < |calls| && (Own(fd, calls[i]) || calls[i] == Close(fd)) ensures all[i] == Failed(BadFd) {
        if i > 0 { assert calls[1..][i - 1] == calls[i] && replies[i - 1] == all[i]; }
      }
    }
  }

  /** After a close, reads, writes, seeks and closes of the descriptor fail through every run that does not
      open it again. */
  lemma AfterClose(k: Kernel, fd: nat, calls: seq<FdCall>)
    requires ValidKernel(k) && KernelStep(k, Close(fd)).1 == Done
    ensures ValidKernel(KernelStep(k, Close(fd)).0)
    ensures var replies := Run(KernelStep(k, Close(fd)).0, calls).1;
      NotHandedOut(replies, fd) ==> Refused(calls, replies, fd)
  {
    hide KernelStep, Ops.Valid, Run, NotHandedOut, Refused;
    CloseEffect(k, fd);
    StepKeepsValid(k, Close(fd));
    var u := KernelStep(k, Close(fd)).0;
    if NotHandedOut(Run(u, calls).1, fd) { ClosedRefuses(u, fd, calls); }
  }

  /** Right after a close there is a descriptor to hand out: the lowest free one, at most the one closed. */
  lemma ReopenAfterClose(k: Kernel, fd: nat, path: string, mode: Mode)
    requires ValidKernel(k) && KernelStep(k, Close(fd)).1 == Done
    ensures var u := KernelStep(k, Close(fd)).0;
      && ValidKernel(u)
      && var reply := KernelStep(u, Open(path, mode)).1;
      && reply != Failed(NoSlot)
      && (reply.Opened? ==>
            && 3 <= reply.fd <= fd
            && (reply.fd < fd ==> k.fds.entries[reply.fd].kind == Unused)
            && forall g :: 3 <= g < reply.fd ==> k.fds.entries[g].kind != Unused)
  {
    hide Ops.Valid, Ops.Create, Ops.Exists, FullPath, CloseFd;
    CloseEffect(k, fd);
    StepKeepsValid(k, Close(fd));
  }

  // ----- the current directory

  /** chdir succeeds exactly when the path resolves to a node of the tree, and the directory then is that path;
      nothing else changes. */
  lemma ChdirEffect(k: Kernel, path: string)
    requires ValidKernel(k)
    ensures var (u, reply) := KernelStep(k, Chdir(path));
      var p := FullPath(k.fds.cwd, path);
      && u.fs == k.fs && u.fds.entries == k.fds.entries
      && (if p.Some? && Denotes(View(k.fs), p.value).Some? then reply == Done && u.fds.cwd == p.value
          else reply == Failed(InvalidPath) && u.fds.cwd == k.fds.cwd)
  {
    hide View, Ops.Valid, Ops.Exists, Ops.Size, Ops.Read, FullPath, Denotes;
    ResolvedFits(k.fds, path);
    var p := FullPath(k.fds.cwd, path);
    if p.Some? { ReadRefines(k.fs, p.value, 0, 0); }
  }

  /** After a chdir to an absolute directory, a relative name stands for the name below that directory. */
  lemma RelativeAfterChdir(k: Kernel, dir: string, name: string)
    requires ValidKernel(k) && Absolute(dir) && |dir| < MAX_PATH && KernelStep(k, Chdir(dir)).1 == Done
    requires !Absolute(name) && name != []
    ensures var full := (if |dir| > 1 then dir + "/" else dir) + name;
      FullPath(KernelStep(k, Chdir(dir)).0.fds.cwd, name) == if |full| < MAX_PATH then Some(full) else None
  {
    hide KernelStep, Ops.Valid, FullPath, View, Denotes;
    ChdirEffect(k, dir);
    StepKeepsValid(k, Chdir(dir));
    ResolvedAbsolute(k.fds.cwd, dir);
    ResolvedRelative(KernelStep(k, Chdir(dir)).0.fds, name);
  }

  // ----- the standard streams

  /** Before anything is opened over them, the streams refuse every call, each in its own way. */
  lemma StdioRefuses(k: Kernel, fd: nat, size: nat, text: Option<seq<Byte>>, bytes: seq<Byte>, offset: nat)
    requires ValidKernel(k) && fd < 3
    requires k.fds.entries[fd] == if fd == 0 then STDIN else STDOUT
    ensures KernelStep(k, ReadFd(fd, size, text)) == (k, Failed(if fd == 0 then BadFd else PermissionDenied))
    ensures KernelStep(k, WriteFd(fd, bytes)) == (k, Failed(if fd == 0 then PermissionDenied else NoSuchFile))
    ensures KernelStep(k, Seek(fd, offset)) == (k, Failed(PermissionDenied))
    ensures KernelStep(k, Close(fd)) == (k, Failed(BadFd))
  {
    hide Ops.Valid, Ops.Read, Ops.Size, Ops.Write;
  }

  // ----- proc nodes

  /** All calls read through fd, and find this text. */
  predicate ReadingText(calls: seq<FdCall>, fd: nat, text: seq<Byte>)
  {
    forall i :: 0 <= i < |calls| ==> calls[i].ReadFd? && calls[i].fd == fd && calls[i].text == Some(text)
  }

  /** A read through a proc descriptor reads the node's text as a file of its own. */
  lemma ProcStep(k: Kernel, fd: nat, call: FdCall, text: seq<Byte>)
    requires ValidKernel(k) && fd < MAX_OPEN && ReadingText([call], fd, text)
    requires k.fds.entries[fd].kind == ProcNode && k.fds.entries[fd].mode.read
    ensures var (u, reply) := KernelStep(k, call);
      var e := k.fds.entries[fd];
      var (c, reply') := CursorStep(Cursor(text, e.offset, e.mode), call);
      && reply == reply' && c.contents == text && c.mode == e.mode
      && |u.fds.entries| == MAX_OPEN && u.fds.entries[fd] == e.(offset := c.offset)
  {
    hide Ops.Valid, Ops.Read, Ops.Size;
    assert [call][0] == call;
    var o := k.fds.entries[fd].offset;
    if o == |text| { assert text[o..o] == []; }
  }

  /** Reads of any sizes through a proc descriptor deliver one stretch of its text, to its end if they ask
      for enough. */
  lemma {:induction false} ProcReads(k: Kernel, fd: nat, calls: seq<FdCall>, text: seq<Byte>)
    requires ValidKernel(k) && fd < MAX_OPEN && ReadingText(calls, fd, text)
    requires k.fds.entries[fd].kind == ProcNode && k.fds.entries[fd].mode.read
    ensures var e := k.fds.entries[fd];
      Run(k, calls).1 == Alone(Cursor(text, e.offset, e.mode), calls).1
    decreases |calls|
  {
    hide KernelStep, CursorStep, Ops.Valid, ValidFds;
    if calls != [] {
      assert ReadingText([calls[0]], fd, text);
      ProcStep(k, fd, calls[0], text);
      StepKeepsValid(k, calls[0]);
      ProcReads(KernelStep(k, calls[0]).0, fd, calls[1..], text);
    }
  }

  lemma ProcStretch(k: Kernel, fd: nat, calls: seq<FdCall>, text: seq<Byte>)
    requires ValidKernel(k) && fd < MAX_OPEN && ReadingText(calls, fd, text)
    requires k.fds.entries[fd].kind == ProcNode && k.fds.entries[fd].mode.read
    ensures var o := k.fds.entries[fd].offset;
      Delivered(Run(k, calls).1) == Stretch(text, o, o + Wanted(calls))
  {
    hide Ops.Valid, Run, Alone, Delivered, Stretch, Wanted;
    ProcReads(k, fd, calls, text);
    ReadsConcatenate(Cursor(text, k.fds.entries[fd].offset, k.fds.entries[fd].mode), calls);
  }

  // ----- errors

  /** Which error an open answers, and for what. */
  lemma OpenErrors(k: Kernel, path: string, mode: Mode)
    requires ValidKernel(k)
    ensures var reply := KernelStep(k, Open(path, mode)).1;
      var p := FullPath(k.fds.cwd, path);
      && (reply == Failed(InvalidPath) <==> p.None?)
      && (reply == Failed(NoSlot) <==> p.Some? && forall g :: 3 <= g < 16 ==> k.fds.entries[g].kind != Unused)
      && (reply == Failed(PermissionDenied) ==> "/proc/" <= p.value && mode.write)
      && (reply == Failed(NoSuchFile) ==> !("/proc/" <= p.value) && Denotes(View(k.fs), p.value).None?)
      && reply != Failed(BadFd)
  {
    hide Ops.Valid, Ops.Create, Ops.Exists, FullPath, View, Denotes;
    var p := FullPath(k.fds.cwd, path);
    if p.Some? { ReadRefines(k.fs, p.value, 0, 0); }
  }

  /** A number that is no descriptor, or none in use, answers BAD_FD and changes nothing. */
  lemma UnknownRefused(k: Kernel, call: FdCall)
    requires ValidKernel(k) && (call.Close? || call.ReadFd? || call.WriteFd? || call.Seek?)
    requires call.fd < 0 || call.fd >= 16 || k.fds.entries[call.fd].kind == Unused
    ensures KernelStep(k, call) == (k, Failed(BadFd))
  {
    hide Ops.Valid, Ops.Read, Ops.Size, Ops.Write;
  }

  /** A descriptor whose file is gone answers as its mode says, finds no file, and may still be moved. */
  lemma FileGone(k: Kernel, fd: nat, size: nat, text: Option<seq<Byte>>, bytes: seq<Byte>, offset: nat)
    requires ValidKernel(k) && fd < MAX_OPEN && k.fds.entries[fd].kind == OpenFile
    requires !MayUnlink(View(k.fs), k.fds.entries[fd].path)
    ensures var mode := k.fds.entries[fd].mode;
      && KernelStep(k, ReadFd(fd, size, text)) == (k, Failed(if mode.read then NoSuchFile else PermissionDenied))
      && KernelStep(k, WriteFd(fd, bytes)).1 == Failed(if mode.write then NoSuchFile else PermissionDenied)
      && View(KernelStep(k, WriteFd(fd, bytes)).0.fs) == View(k.fs) && KernelStep(k, WriteFd(fd, bytes)).0.fds == k.fds
      && KernelStep(k, Seek(fd, offset)).1 == Done
  {
    hide Ops.Valid, Ops.Read, Ops.Size, Ops.Write, View, MayUnlink, Denotes;
    var e := k.fds.entries[fd];
    ReadRefines(k.fs, e.path, 0, 0);
    WriteRefines(k.fs, e.path, e.offset, bytes);
    WriteAtOpen(k, fd, bytes);
  }
}
