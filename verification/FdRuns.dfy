/** Runs of descriptor calls: what one descriptor's holder sees while others work beside it. */
module FdRuns {
  import opened Common
  import opened FsNames
  import opened FsModel
  import Ops = FsOperations
  import opened FsRefinement
  import opened FsTree
  import opened FsRuns
  import opened FsCapacity
  import opened FdModel

  // ----- open

  /** When an open succeeds, which descriptor it gives, and what it does to the tree. */
  lemma OpenOutcome(k: Kernel, path: string, mode: Mode)
    requires ValidKernel(k)
    ensures var p := FullPath(k.fds.cwd, path);
      var slot := FreeFdFrom(k.fds.entries, FIRST_FD);
      var v := View(k.fs);
      var (u, reply) := OpenAt(k, path, mode);
      var proc := p.Some? && IsProc(p.value);
      var made := p.Some? && !proc && slot.Some? && Denotes(v, p.value).None? && mode.create && MayCreate(v, p.value) && Room(v);
      && Ops.Valid(u.fs)
      && (reply.Opened? <==> p.Some? && slot.Some? && if proc then !mode.write else Denotes(v, p.value).Some? || made)
      && (reply.Opened? ==> reply.fd == slot.value)
      && View(u.fs) == (if made then v[Split(p.value) := File([])] else v)
      && u.fds == (if !reply.Opened? then k.fds
                   else Installed(k.fds, slot.value,
                     if proc then Descriptor(ProcNode, Mode(true, false, false), 0, p.value)
                     else Descriptor(OpenFile, mode, 0, p.value)))
  {
    hide Ops.Valid, View, Room, Ops.Create, Ops.Exists, FullPath, ValidFds, Split;
    RoomIff(k.fs);
    var p := FullPath(k.fds.cwd, path);
    if p.Some? {
      CreateRefines(k.fs, p.value, false);
      ReadRefines(k.fs, p.value, 0, 0);
    }
  }

  /** A newly created file is open, empty, at its start. */
  lemma OpenFresh(k: Kernel, path: string, mode: Mode)
    requires ValidKernel(k) && OpenAt(k, path, mode).1.Opened?
    requires var p := FullPath(k.fds.cwd, path); p.Some? && !IsProc(p.value) && Denotes(View(k.fs), p.value).None?
    ensures var (u, reply) := OpenAt(k, path, mode);
      ValidKernel(u) && IsOpen(u, reply.fd) && CursorOf(u, reply.fd) == Cursor([], 0, mode)
  {
    hide View, OpenAt, FullPath, IsProc, Split, Ops.Valid;
    OpenKeeps(k, path, mode);
    OpenOutcome(k, path, mode);
  }

  // ----- long names

  /** An opened descriptor stands for the file it was asked for exactly when an absolute path fits the 96-byte
      buffer; for a longer one it stands for the file named by the first 95 characters. */
  lemma OpenedPath(k: Kernel, path: string, mode: Mode)
    requires ValidKernel(k) && Absolute(path) && OpenAt(k, path, mode).1.Opened?
    ensures var (u, reply) := OpenAt(k, path, mode);
      && reply.fd < |u.fds.entries|
      && (u.fds.entries[reply.fd].path == path <==> |path| < MAX_PATH)
      && (|path| >= MAX_PATH ==> u.fds.entries[reply.fd].path == path[..MAX_PATH - 1])
      && u.fds.cwd == k.fds.cwd
  {
    hide OpenAt, View, Ops.Valid, IsProc, Denotes, MayCreate, Room, Split;
    OpenOutcome(k, path, mode);
  }

  /** Two long absolute names give descriptors on one path exactly when they agree on 95 characters. */
  lemma LongNamesOnePath(k: Kernel, a: string, b: string, mode: Mode, mode': Mode)
    requires ValidKernel(k) && Absolute(a) && Absolute(b) && |a| >= MAX_PATH && |b| >= MAX_PATH
    requires OpenAt(k, a, mode).1.Opened? && ValidKernel(OpenAt(k, a, mode).0)
    requires OpenAt(OpenAt(k, a, mode).0, b, mode').1.Opened?
    ensures var (u, first) := OpenAt(k, a, mode);
      var (w, second) := OpenAt(u, b, mode');
      && first.fd < |w.fds.entries| && second.fd < |w.fds.entries| && first.fd != second.fd
      && (w.fds.entries[first.fd].path == w.fds.entries[second.fd].path <==> a[..MAX_PATH - 1] == b[..MAX_PATH - 1])
  {
    hide OpenAt, View, Ops.Valid, IsProc, Denotes, MayCreate, Room, Split, ValidFds;
    var (u, first) := OpenAt(k, a, mode);
    OpenedPath(k, a, mode);
    OpenedPath(u, b, mode');
    OpenOutcome(k, a, mode);
    OpenOutcome(u, b, mode');
  }

  /** Descriptors on one path share one file: what is written through one is there for the other. */
  lemma OnePathOneFile(k: Kernel, f: nat, g: nat, bytes: seq<Byte>)
    requires ValidKernel(k) && IsOpen(k, f) && f != g && g < MAX_OPEN && k.fds.entries[g].kind == OpenFile
    requires k.fds.entries[f].path == k.fds.entries[g].path
    requires WriteAt(k, f, bytes).1.Wrote?
    ensures IsOpen(k, g) && CursorOf(k, f).contents == CursorOf(k, g).contents
    ensures var u := WriteAt(k, f, bytes).0;
      && ValidKernel(u) && IsOpen(u, g)
      && CursorOf(u, g) == CursorOf(k, g).(contents := Overlay(CursorOf(k, g).contents, k.fds.entries[f].offset, bytes))
  {
    hide View, Ops.Valid, Denotes, WriteAt, Overlay;
    WriteKeeps(k, f, bytes);
    OwnWrite(k, f, bytes);
  }

  // ----- a long name that opens another file

  /** The name is 94 slashes and "x": one component. */
  lemma OneLetterName()
    ensures Split(Slashes(94) + "x") == [['x']] && !Trailing(Slashes(94) + "x")
  {
    SlashesSkipped(94, "x");
    assert NameLength("x") == 1 by { assert NameLength("x"[1..]) == 0; }
    assert "x"[..1] == "x" && Split("x"[1..]) == [];
  }

  lemma NothingButSlashesAndX()
    ensures !IsProc(Slashes(94) + "x")
  {
    assert (Slashes(94) + "x")[1] == '/' && "/proc/"[1] == 'p';
  }

  /** Opening 94 slashes and "x1" on an empty file system, creating the file, makes a file named "x"; and the
      name with "x2" then opens that same file. */
  lemma LongNamesMeet(data: seq<seq<Byte>>)
    requires |data| == MAX_NODES && forall i :: 0 <= i < MAX_NODES ==> |data[i]| == MAX_DATA
    ensures var k := Kernel(Fs(EmptyNodes(), data), INITIAL);
      var all := Mode(true, true, true);
      ValidKernel(k)
      && var (u, first) := OpenAt(k, Slashes(94) + "x1", all);
         first == Opened(3) && ValidKernel(u) && View(u.fs) == imap[[] := Dir, [['x']] := File([])]
         && var (w, second) := OpenAt(u, Slashes(94) + "x2", all);
            second == Opened(4) && w.fds.entries[3].path == w.fds.entries[4].path == Slashes(94) + "x"
  {
    var k := Kernel(Fs(EmptyNodes(), data), INITIAL);
    var all := Mode(true, true, true);
    var a, b, name := Slashes(94) + "x1", Slashes(94) + "x2", Slashes(94) + "x";
    EmptyView(data);
    InitialValid();
    EmptyRoom();
    OneLetterName();
    NothingButSlashesAndX();
    assert a[..95] == name && b[..95] == name;
    hide OpenAt, View, Ops.Valid, Room, Split, IsProc, Slashes, Trailing;
    FirstSlots(k.fds);
    assert [['x']][..0] == [] && |['x']| < MAX_NAME;
    assert MayCreate(View(k.fs), name);
    OpenOutcome(k, a, all);
    OpenKeeps(k, a, all);
    var u := OpenAt(k, a, all).0;
    assert u.fds == Installed(INITIAL, 3, Descriptor(OpenFile, all, 0, name));
    SecondSlots(u.fds, Descriptor(OpenFile, all, 0, name));
    assert Denotes(View(u.fs), name) == Some(File([]));
    OpenOutcome(u, b, all);
  }

  lemma EmptyRoom()
    ensures Room(imap[[] := Dir])
  {
    assert AllIn(imap[[] := Dir], {[]});
  }

  lemma FirstSlots(t: Fds)
    requires t == INITIAL
    ensures FreeFdFrom(t.entries, FIRST_FD) == Some(3) && t.cwd == "/"
  {
    assert t.entries[3] == CLOSED;
  }

  lemma SecondSlots(t: Fds, e: Descriptor)
    requires e.kind == OpenFile && t == Installed(INITIAL, 3, e)
    ensures FreeFdFrom(t.entries, FIRST_FD) == Some(4)
  {
    assert t.entries[3] == e && t.entries[4] == CLOSED;
    assert FreeFdFrom(t.entries, 4) == Some(4);
  }

  // ----- runs

  ghost function Run(k: Kernel, calls: seq<FdCall>): (r: (Kernel, seq<Reply>))
    requires ValidKernel(k)
    ensures ValidKernel(r.0) && |r.1| == |calls|
    decreases |calls|
  {
    if calls == [] then (k, [])
    else
      StepKeepsValid(k, calls[0]);
      var (u, reply) := KernelStep(k, calls[0]);
      var (w, replies) := Run(u, calls[1..]);
      (w, [reply] + replies)
  }

  lemma StdioUntouched(k: Kernel, call: FdCall, g: nat)
    requires ValidKernel(k) && g < FIRST_FD
    ensures KernelStep(k, call).0.fds.entries[g] == k.fds.entries[g]
  {
    hide View, Ops.Valid, Ops.Create, Ops.Exists, Ops.Write, Ops.Read, Ops.Size, Step;
  }

  lemma {:induction false} StdioKept(k: Kernel, calls: seq<FdCall>, g: nat)
    requires ValidKernel(k) && g < FIRST_FD
    ensures g < |Run(k, calls).0.fds.entries| && Run(k, calls).0.fds.entries[g] == k.fds.entries[g]
    decreases |calls|
  {
    if calls != [] {
      hide KernelStep, Ops.Valid;
      StepKeepsValid(k, calls[0]);
      StdioUntouched(k, calls[0], g);
      StdioKept(KernelStep(k, calls[0]).0, calls[1..], g);
    }
  }

  /** From the initial table, over every run of calls, descriptors 0, 1 and 2 are the standard streams. */
  lemma StdioStays(fs: Fs, calls: seq<FdCall>)
    requires Ops.Valid(fs)
    ensures var k := Kernel(fs, INITIAL);
      ValidKernel(k)
      && var t := Run(k, calls).0.fds;
         ValidFds(t) && t.entries[0] == STDIN && t.entries[1] == STDOUT && t.entries[2] == STDOUT
  {
    InitialValid();
    hide Ops.Valid, Run;
    var k := Kernel(fs, INITIAL);
    StdioKept(k, calls, 0);
    StdioKept(k, calls, 1);
    StdioKept(k, calls, 2);
  }

  /** Through the run, every call is the descriptor's own or keeps away from it and its file. */
  ghost predicate Undisturbed(k: Kernel, fd: nat, calls: seq<FdCall>)
    requires ValidKernel(k)
    decreases |calls|
  {
    calls != [] && fd < MAX_OPEN ==>
      (Own(fd, calls[0]) || Foreign(k.fds, fd, calls[0]))
      && (StepKeepsValid(k, calls[0]); Undisturbed(KernelStep(k, calls[0]).0, fd, calls[1..]))
  }

  function OwnCalls(fd: nat, calls: seq<FdCall>): (r: seq<FdCall>)
  {
    if calls == [] then []
    else (if Own(fd, calls[0]) then [calls[0]] else []) + OwnCalls(fd, calls[1..])
  }

  function OwnReplies(fd: nat, calls: seq<FdCall>, replies: seq<Reply>): (r: seq<Reply>)
    requires |calls| == |replies|
  {
    if calls == [] then []
    else (if Own(fd, calls[0]) then [replies[0]] else []) + OwnReplies(fd, calls[1..], replies[1..])
  }

  /** The same calls on the file alone. */
  function Alone(c: Cursor, calls: seq<FdCall>): (r: (Cursor, seq<Reply>))
    ensures |r.1| == |calls|
    decreases |calls|
  {
    if calls == [] then (c, [])
    else
      var (d, reply) := CursorStep(c, calls[0]);
      var (e, replies) := Alone(d, calls[1..]);
      (e, [reply] + replies)
  }

  /** Everything else that goes on is invisible: the holder of a descriptor gets the replies, and leaves
      the contents and offset, that its own calls give on the file alone. */
  lemma {:induction false} Isolation(k: Kernel, fd: nat, calls: seq<FdCall>)
    requires ValidKernel(k) && IsOpen(k, fd) && Undisturbed(k, fd, calls)
    ensures var (u, replies) := Run(k, calls);
      IsOpen(u, fd) && Alone(CursorOf(k, fd), OwnCalls(fd, calls)) == (CursorOf(u, fd), OwnReplies(fd, calls, replies))
    decreases |calls|
  {
    hide KernelStep, View, Ops.Valid, ValidFds, Foreign, Denotes, MayUnlink, CursorStep, CursorOf, IsOpen;
    if calls != [] {
      var call, rest := calls[0], calls[1..];
      assert fd < MAX_OPEN by { OpenInTable(k, fd); }
      StepKeepsValid(k, call);
      var (u, reply) := KernelStep(k, call);
      if Own(fd, call) { OwnStep(k, fd, call); } else { ForeignStep(k, fd, call); }
      Isolation(u, fd, rest);
      Assemble(CursorOf(k, fd), CursorOf(u, fd), fd, call, rest, reply, Run(u, rest).1);
      assert calls == [call] + rest;
    }
  }

  lemma OpenInTable(k: Kernel, fd: nat)
    requires ValidKernel(k) && IsOpen(k, fd)
    ensures fd < MAX_OPEN
  {
  }

  lemma Assemble(c: Cursor, d: Cursor, fd: nat, call: FdCall, rest: seq<FdCall>, reply: Reply, replies: seq<Reply>)
    requires |replies| == |rest|
    requires if Own(fd, call) then CursorStep(c, call) == (d, reply) else d == c
    requires Alone(d, OwnCalls(fd, rest)).1 == OwnReplies(fd, rest, replies)
    ensures Alone(c, OwnCalls(fd, [call] + rest)) ==
      (Alone(d, OwnCalls(fd, rest)).0, OwnReplies(fd, [call] + rest, [reply] + replies))
  {
    hide CursorStep;
    var calls, all := [call] + rest, [reply] + replies;
    assert calls[1..] == rest && all[1..] == replies;
    var mine := OwnCalls(fd, rest);
    if Own(fd, call) { assert ([call] + mine)[1..] == mine; } else {
      var own := OwnReplies(fd, rest, replies);
      assert [] + mine == mine && [] + own == own;
    }
  }

  // ----- chunks through one descriptor

  function Delivered(replies: seq<Reply>): (r: seq<Byte>)
  {
    if replies == [] then [] else (if replies[0].Data? then replies[0].bytes else []) + Delivered(replies[1..])
  }

  function Sent(calls: seq<FdCall>): (r: seq<Byte>)
  {
    if calls == [] then [] else (if calls[0].WriteFd? then calls[0].bytes else []) + Sent(calls[1..])
  }

  function Wanted(calls: seq<FdCall>): (r: nat)
  {
    if calls == [] then 0 else (if calls[0].ReadFd? then calls[0].size else 0) + Wanted(calls[1..])
  }

  function Min(a: nat, b: nat): (r: nat)
  {
    if a < b then a else b
  }

  /** The bytes from a to b of a sequence, as far as it goes. */
  function Stretch(s: seq<Byte>, a: nat, b: nat): (r: seq<Byte>)
    requires a <= b
  {
    s[Min(a, |s|)..Min(b, |s|)]
  }

  /** Where reading n bytes from a leaves the offset. */
  function Advance(s: seq<Byte>, a: nat, n: nat): (r: nat)
    ensures r <= a + n
  {
    if a >= |s| then a else Min(a + n, |s|)
  }

  lemma ReadStep(c: Cursor, size: nat, call: FdCall)
    requires c.mode.read && call.ReadFd? && call.size == size
    ensures CursorStep(c, call) ==
      (c.(offset := Advance(c.contents, c.offset, size)), Data(Stretch(c.contents, c.offset, c.offset + size)))
  {
    if c.offset >= |c.contents| { assert Stretch(c.contents, c.offset, c.offset + size) == []; }
  }

  lemma StretchJoin(s: seq<Byte>, a: nat, m: nat, n: nat)
    ensures var b := Advance(s, a, m);
      Stretch(s, a, a + m) + Stretch(s, b, b + n) == Stretch(s, a, a + m + n) && Advance(s, b, n) == Advance(s, a, m + n)
  {
  }

  /** Reads of any sizes deliver, put together, one stretch of the file, to its end if they ask for enough. */
  lemma {:induction false} ReadsConcatenate(c: Cursor, calls: seq<FdCall>)
    requires c.mode.read && forall k :: 0 <= k < |calls| ==> calls[k].ReadFd?
    ensures Delivered(Alone(c, calls).1) == Stretch(c.contents, c.offset, c.offset + Wanted(calls))
    ensures Alone(c, calls).0 == c.(offset := Advance(c.contents, c.offset, Wanted(calls)))
    decreases |calls|
  {
    hide CursorStep, Stretch, Advance;
    if calls != [] {
      ReadStep(c, calls[0].size, calls[0]);
      var (d, reply) := CursorStep(c, calls[0]);
      ReadsConcatenate(d, calls[1..]);
      var replies := Alone(d, calls[1..]).1;
      assert ([reply] + replies)[1..] == replies;
      StretchJoin(c.contents, c.offset, calls[0].size, Wanted(calls[1..]));
    } else {
      NothingRead(c);
    }
  }

  lemma NothingRead(c: Cursor)
    ensures Stretch(c.contents, c.offset, c.offset) == [] && Advance(c.contents, c.offset, 0) == c.offset
  {
  }

  lemma OverlayTwice(contents: seq<Byte>, offset: nat, a: seq<Byte>, b: seq<Byte>)
    ensures Overlay(Overlay(contents, offset, a), offset + |a|, b) == Overlay(contents, offset, a + b)
  {
  }

  /** Writes of any sizes leave what one write of all their bytes leaves, as long as the file can hold it. */
  lemma {:induction false} WritesConcatenate(c: Cursor, calls: seq<FdCall>)
    requires c.mode.write && calls != [] && forall k :: 0 <= k < |calls| ==> calls[k].WriteFd?
    requires c.offset + |Sent(calls)| <= MAX_DATA
    ensures var (d, replies) := Alone(c, calls);
      && d == c.(contents := Overlay(c.contents, c.offset, Sent(calls)), offset := c.offset + |Sent(calls)|)
      && forall k :: 0 <= k < |calls| ==> replies[k] == Wrote(|calls[k].bytes|)
    decreases |calls|
  {
    var (d, reply) := CursorStep(c, calls[0]);
    var rest := calls[1..];
    if rest == [] {
      assert Sent(calls) == calls[0].bytes + [] == calls[0].bytes;
    } else {
      WritesConcatenate(d, rest);
      OverlayTwice(c.contents, c.offset, calls[0].bytes, Sent(rest));
    }
  }

  lemma {:induction false} AloneAppend(c: Cursor, a: seq<FdCall>, b: seq<FdCall>)
    ensures var (d, first) := Alone(c, a);
      var (e, second) := Alone(d, b);
      Alone(c, a + b) == (e, first + second)
    decreases |a|
  {
    if a == [] {
      assert [] + b == b;
      var second := Alone(c, b).1;
      assert [] + second == second;
    } else {
      var (d, reply) := CursorStep(c, a[0]);
      AloneAppend(d, a[1..], b);
      assert (a + b)[0] == a[0] && (a + b)[1..] == a[1..] + b;
      var first := Alone(d, a[1..]).1;
      var second := Alone(Alone(d, a[1..]).0, b).1;
      assert ([reply] + first) + second == [reply] + (first + second);
    }
  }

  lemma {:induction false} DeliveredAppend(a: seq<Reply>, b: seq<Reply>)
    ensures Delivered(a + b) == Delivered(a) + Delivered(b)
    decreases |a|
  {
    if a == [] {
      assert [] + b == b;
    } else {
      assert (a + b)[1..] == a[1..] + b;
      DeliveredAppend(a[1..], b);
    }
  }

  lemma {:induction false} NothingDelivered(replies: seq<Reply>)
    requires forall k :: 0 <= k < |replies| ==> !replies[k].Data?
    ensures Delivered(replies) == []
  {
    if replies != [] { NothingDelivered(replies[1..]); }
  }

  /** On the file alone: write in chunks, go back to the start, read in chunks. */
  lemma CopyAlone(mode: Mode, writes: seq<FdCall>, back: FdCall, readings: seq<FdCall>)
    requires mode.read && mode.write && writes != []
    requires forall k :: 0 <= k < |writes| ==> writes[k].WriteFd?
    requires forall k :: 0 <= k < |readings| ==> readings[k].ReadFd?
    requires back.Seek? && back.offset == 0 && |Sent(writes)| <= MAX_DATA && Wanted(readings) >= |Sent(writes)|
    ensures var (d, replies) := Alone(Cursor([], 0, mode), writes + ([back] + readings));
      d.contents == Sent(writes) && Delivered(replies) == Sent(writes)
  {
    var start := Cursor([], 0, mode);
    hide CursorStep, Alone, Delivered;
    WritesConcatenate(start, writes);
    assert Overlay([], 0, Sent(writes)) == Sent(writes);
    var (full, first) := Alone(start, writes);
    AloneAppend(start, writes, [back] + readings);
    BackThenRead(full, back, readings);
    DeliveredAppend(first, Alone(full, [back] + readings).1);
    NothingDelivered(first);
    assert [] + Sent(writes) == Sent(writes);
  }

  lemma BackThenRead(c: Cursor, back: FdCall, readings: seq<FdCall>)
    requires c.mode.read && back.Seek? && back.offset == 0 && Wanted(readings) >= |c.contents|
    requires forall k :: 0 <= k < |readings| ==> readings[k].ReadFd?
    ensures var (d, replies) := Alone(c, [back] + readings);
      d.contents == c.contents && Delivered(replies) == c.contents
  {
    var rewound := c.(offset := 0);
    assert ([back] + readings)[1..] == readings;
    ReadsConcatenate(rewound, readings);
    var replies := Alone(rewound, readings).1;
    assert ([Done] + replies)[1..] == replies;
    assert Stretch(c.contents, 0, Wanted(readings)) == c.contents;
    assert [] + c.contents == c.contents;
  }

  /** Copying through a new file: whatever else happens on other files meanwhile, the bytes written in
      chunks through one descriptor come back, after seeking to 0, from reads in chunks of any sizes. */
  lemma CopyRoundTrip(k: Kernel, path: string, mode: Mode, calls: seq<FdCall>,
                      writes: seq<FdCall>, back: FdCall, readings: seq<FdCall>)
    requires ValidKernel(k) && OpenAt(k, path, mode).1.Opened? && mode.read && mode.write
    requires var p := FullPath(k.fds.cwd, path); p.Some? && !IsProc(p.value) && Denotes(View(k.fs), p.value).None?
    requires var (u, reply) := OpenAt(k, path, mode);
      && ValidKernel(u) && Undisturbed(u, reply.fd, calls)
      && OwnCalls(reply.fd, calls) == writes + ([back] + readings)
    requires writes != [] && forall k :: 0 <= k < |writes| ==> writes[k].WriteFd?
    requires forall k :: 0 <= k < |readings| ==> readings[k].ReadFd?
    requires back.Seek? && back.offset == 0 && |Sent(writes)| <= MAX_DATA && Wanted(readings) >= |Sent(writes)|
    ensures var (u, reply) := OpenAt(k, path, mode);
      Delivered(OwnReplies(reply.fd, calls, Run(u, calls).1)) == Sent(writes)
  {
    hide View, OpenAt, FullPath, IsProc, Run, Undisturbed, Ops.Valid, Alone;
    OpenFresh(k, path, mode);
    var (u, reply) := OpenAt(k, path, mode);
    Isolation(u, reply.fd, calls);
    CopyAlone(mode, writes, back, readings);
  }

  /** Descriptors 0, 1 and 2 are stdio in every reachable state, and a descriptor in use changes only by
      its own calls. */
  lemma DescriptorIndependent(k: Kernel, call: FdCall, g: nat)
    requires ValidKernel(k) && g < MAX_OPEN && k.fds.entries[g].kind != Unused
    requires (call.Close? || call.ReadFd? || call.WriteFd? || call.Seek?) ==> call.fd != g
    ensures KernelStep(k, call).0.fds.entries[g] == k.fds.entries[g]
  {
    hide View, Ops.Valid, Ops.Create, Ops.Exists, Ops.Write, Ops.Read, Ops.Size, Step;
  }
}
