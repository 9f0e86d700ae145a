/**
 What callers of the descriptor calls see: what a pipe delivers and accepts,
 when a call succeeds, and which descriptors it gives out and takes back.
 */
module VfsEffects {
  import opened Words
  import opened Ramfs
  import opened RamfsPaths
  import opened Vfs

  // ------------------------------------------------------------------ pipes

  /** A read delivers the oldest of what waits, as much as is asked for and there, and leaves the rest waiting. */
  lemma ReadPipeEffect(p: Pipe, count: nat)
    requires SoundPipe(p)
    ensures var (q, data) := ReadPipe(p, count); var n := Min(count, |Waiting(p)|);
      && data == Waiting(p)[..n] && Waiting(q) == Waiting(p)[n..]
      && q.readOpen == p.readOpen && q.writeOpen == p.writeOpen
  {
    var (q, data) := ReadPipe(p, count);
    assert |Waiting(p)| == p.count;
    PopAllTakesOldest(p, |data|);
    hide Waiting, PopAll, Popped, SoundPipe;
    assert (data + Waiting(q))[..|data|] == data && (data + Waiting(q))[|data|..] == Waiting(q);
  }

  /** A write to a pipe whose read end is open accepts the first characters, as many as there is room for, behind what waits. */
  lemma WritePipeEffect(p: Pipe, data: string)
    requires SoundPipe(p)
    ensures var (q, r) := WritePipe(p, data);
      if p.readOpen then
        && r == Min(|data|, PIPE_BUF - |Waiting(p)|) && r >= 0 && Waiting(q) == Waiting(p) + data[..r]
        && q.readOpen && q.writeOpen == p.writeOpen
      else r == -1 && q == p
  {
    assert |Waiting(p)| == p.count;
    if p.readOpen { PushAllAppends(p, data[..Min(|data|, PIPE_BUF - p.count)]); }
    hide Waiting, PushAll, SoundPipe;
  }

  /** Everything else is the same in u as in v. */
  predicate OnlyPipe(v: Sys, u: Sys, i: nat) {
    && u.fs == v.fs && u.tables == v.tables && u.pipeCount == v.pipeCount
    && |u.pipes| == |v.pipes| && forall j :: 0 <= j < |v.pipes| && j != i ==> u.pipes[j] == v.pipes[j]
  }

  /** The same through a descriptor: any read end of the pipe will do. */
  lemma ReadThroughDescriptor(v: Sys, t: int, f: int, count: uint32)
    requires Sound(v) && FdAt(v, t, f).PipeRead? && FdAt(v, t, f).pipe < MAX_PIPES
    ensures var i := FdAt(v, t, f).pipe; var (u, data, r) := Read(v, t, f, count);
      && OnlyPipe(v, u, i) && i < |v.pipes| && SoundPipe(v.pipes[i]) && SoundPipe(u.pipes[i])
      && var n := Min(count, |Waiting(v.pipes[i])|);
         r == n && data == Waiting(v.pipes[i])[..n] && Waiting(u.pipes[i]) == Waiting(v.pipes[i])[n..]
  {
    assert SoundPipe(v.pipes[FdAt(v, t, f).pipe]);
    ReadPipeEffect(v.pipes[FdAt(v, t, f).pipe], count);
    hide Waiting, PopAll, Popped, SoundPipe, ContentsFit;
  }

  lemma WriteThroughDescriptor(v: Sys, t: int, f: int, data: string)
    requires Sound(v) && FdAt(v, t, f).PipeWrite? && FdAt(v, t, f).pipe < MAX_PIPES
    ensures var i := FdAt(v, t, f).pipe; var (u, r) := Vfs.Write(v, t, f, data);
      && OnlyPipe(v, u, i) && i < |v.pipes| && SoundPipe(v.pipes[i]) && SoundPipe(u.pipes[i])
      && (if v.pipes[i].readOpen then
            r == Min(|data|, PIPE_BUF - |Waiting(v.pipes[i])|) && r >= 0 && Waiting(u.pipes[i]) == Waiting(v.pipes[i]) + data[..r]
          else r == -1 && u.pipes[i] == v.pipes[i])
  {
    assert SoundPipe(v.pipes[FdAt(v, t, f).pipe]);
    WritePipeEffect(v.pipes[FdAt(v, t, f).pipe], data);
    hide Waiting, PushAll, SoundPipe, ContentsFit;
  }

  /** The descriptor stands at the write, or the read, end of that pipe. */
  predicate Writes(v: Sys, t: int, f: int, i: nat) { i < MAX_PIPES && FdAt(v, t, f) == PipeWrite(i) }

  predicate Reads(v: Sys, t: int, f: int, i: nat) { i < MAX_PIPES && FdAt(v, t, f) == PipeRead(i) }

  /**
   A write through any descriptor of a pipe, and then a read of the ring's size
   through any other: back come what waited before, then what was accepted.
   */
  lemma WriteThenRead(v: Sys, i: nat, t: int, f: int, data: string, t': int, f': int, count: uint32)
    requires Sound(v) && Writes(v, t, f, i) && Reads(v, t', f', i) && count >= PIPE_BUF
    ensures var (u, r) := Vfs.Write(v, t, f, data);
      && Sound(u) && i < |v.pipes| && SoundPipe(v.pipes[i])
      && Read(u, t', f', count).1 == Waiting(v.pipes[i]) + if r < 0 then "" else data[..Min(r, |data|)]
  {
    var u := Vfs.Write(v, t, f, data).0;
    Vfs.StepKeepsSound(World(v, [], []), WriteE(t, f, data));
    WriteThroughDescriptor(v, t, f, data);
    assert FdAt(u, t', f') == FdAt(v, t', f');
    ReadThroughDescriptor(u, t', f', count);
    WaitingFits(u.pipes[i]);
    hide Waiting, SoundPipe, Sound, Vfs.Write, Read;
    var w := Waiting(u.pipes[i]);
    assert w[..|w|] == w;
  }

  lemma WaitingFits(p: Pipe)
    requires SoundPipe(p)
    ensures |Waiting(p)| <= PIPE_BUF
  {
  }

  /**
   Nothing accepted is lost: after any run, one read of the ring's size through
   any read end makes what was delivered in all equal to what was accepted.
   */
  lemma AllAcceptedCanBeRead(w: World, events: seq<Event>, x: World, i: nat, t: int, f: int, count: uint32)
    requires Sound(w.v) && Fifo(w.v.pipes, w.accepted, w.delivered) && Vfs.Run(w, events, x)
    requires Reads(x.v, t, f, i) && count >= PIPE_BUF
    ensures Sound(x.v) && Enabled(x.v, ReadE(t, f, count)) && |x.accepted| == |x.delivered| == MAX_PIPES
    ensures var y := Step(x, ReadE(t, f, count)); |y.delivered| == MAX_PIPES && y.delivered[i] == y.accepted[i] == x.accepted[i]
  {
    RunKeepsFifo(w, events, x);
    ReadThroughDescriptor(x.v, t, f, count);
    WaitingFits(x.v.pipes[i]);
    hide Waiting, SoundPipe, Sound, Read, Vfs.Run;
    var rest := Waiting(x.v.pipes[i]);
    assert rest[..|rest|] == rest;
  }

  // ------------------------------------------------------ giving out descriptors

  /** Only descriptor f of table t differs, and is d now. */
  predicate OnlyFd(v: Sys, u: Sys, t: int, f: int, d: Fd) {
    && InTable(v, t, f) && |u.tables| == |v.tables|
    && (forall s :: 0 <= s < |v.tables| && s != t ==> u.tables[s] == v.tables[s])
    && u.tables[t] == v.tables[t].(fds := v.tables[t].fds[f := d])
  }

  /** f is the lowest descriptor of the table that is free. */
  predicate LowestFree(v: Sys, t: int, f: int) {
    InTable(v, t, f) && v.tables[t].fds[f] == NoFd && forall j :: 0 <= j < f ==> v.tables[t].fds[j] != NoFd
  }

  ghost predicate HasFree(v: Sys, t: int) {
    exists f :: InTable(v, t, f) && v.tables[t].fds[f] == NoFd
  }

  lemma FreeIff(v: Sys, t: int)
    requires 0 <= t < |v.tables|
    ensures HasFree(v, t) <==> FirstFree(v.tables[t].fds, 0) < |v.tables[t].fds|
    ensures FirstFree(v.tables[t].fds, 0) < |v.tables[t].fds| ==> LowestFree(v, t, FirstFree(v.tables[t].fds, 0))
  {
    var g := FirstFree(v.tables[t].fds, 0);
    if g < |v.tables[t].fds| { assert InTable(v, t, g) && v.tables[t].fds[g] == NoFd; }
  }

  /** What an open finds or makes under a path, -1 if nothing. */
  function Opens(v: Sys, t: int, path: string, flags: Flags): int
    requires 0 <= t < |v.tables|
  {
    var found := Resolve(v.fs, path);
    if found >= 0 then (if IsDir(v.fs, found) then -1 else found)
    else if flags.creat then CreatePath(v.fs, v.tables[t].cwd, path).1
    else -1
  }

  lemma CreatedIsFile(fs: Fs, cwd: int, path: string)
    ensures var (g, i) := CreatePath(fs, cwd, path); i >= 0 ==> IsFile(g, i)
  {
    hide Resolve, FindIn;
  }

  /**
   An open succeeds exactly if the table is in use and has a free descriptor and
   the path is the null device's, leads to something that is no directory, or
   could be made. It gives out the lowest free descriptor.
   */
  lemma OpenSucceedsIff(v: Sys, t: int, path: string, flags: Flags)
    ensures Open(v, t, path, flags).1 >= 0 <==>
      && 0 <= t < |v.tables| && v.tables[t].inUse && HasFree(v, t) && (path == "/dev/null" || Opens(v, t, path, flags) >= 0)
    ensures var (u, r) := Open(v, t, path, flags);
      r >= 0 ==>
        && LowestFree(v, t, r) && OnlyFd(v, u, t, r, FdAt(u, t, r)) && u.pipes == v.pipes
        && (if path == "/dev/null" then FdAt(u, t, r) == NullFd && u.fs == v.fs
            else FdAt(u, t, r).FileFd? && FdAt(u, t, r).node == Opens(v, t, path, flags) && FdAt(u, t, r).append == flags.append)
  {
    if 0 <= t < |v.tables| {
      FreeIff(v, t);
      CreatedIsFile(v.fs, v.tables[t].cwd, path);
    }
    hide HasFree, Resolve, CreatePath, Ramfs.Write;
  }

  /** A close succeeds exactly for an open descriptor, frees it, and touches no other. */
  lemma CloseSucceedsIff(v: Sys, t: int, f: int)
    ensures Close(v, t, f).1 == 0 <==> FdAt(v, t, f) != NoFd
    ensures var (u, r) := Close(v, t, f);
      if r == 0 then OnlyFd(v, u, t, f, NoFd) && u.fs == v.fs else u == v && r == -1
  {
  }

  /** A dup succeeds exactly for an open descriptor in a table with a free one, and makes the lowest free one a copy. */
  lemma DupSucceedsIff(v: Sys, t: int, f: int)
    ensures Dup(v, t, f).1 >= 0 <==> FdAt(v, t, f) != NoFd && HasFree(v, t)
    ensures var (u, g) := Dup(v, t, f);
      if g >= 0 then LowestFree(v, t, g) && OnlyFd(v, u, t, g, FdAt(v, t, f)) && u.fs == v.fs else u == v
  {
    if 0 <= t < |v.tables| { FreeIff(v, t); }
    hide HasFree;
  }

  /** Two different descriptors of the table are free. */
  ghost predicate HasTwoFree(v: Sys, t: int) {
    exists f, g :: f < g && InTable(v, t, f) && InTable(v, t, g) && v.tables[t].fds[f] == NoFd && v.tables[t].fds[g] == NoFd
  }

  /**
   A pipe is made exactly if a ring never used is left and two descriptors are
   free. The two given out were free, stand at its ends, both open, and nothing
   waits in it.
   */
  lemma PipeSucceedsIff(v: Sys, t: int)
    requires Sound(v)
    ensures MakePipe(v, t).1 >= 0 <==> 0 <= t < |v.tables| && v.pipeCount < MAX_PIPES && HasTwoFree(v, t)
    ensures var (u, r, w) := MakePipe(v, t);
      if r >= 0 then
        && r != w && FdAt(v, t, r) == NoFd && FdAt(v, t, w) == NoFd
        && FdAt(u, t, r) == PipeRead(v.pipeCount) && FdAt(u, t, w) == PipeWrite(v.pipeCount)
        && (forall s, f :: (s, f) != (t, r) && (s, f) != (t, w) ==> FdAt(u, s, f) == FdAt(v, s, f))
        && v.pipeCount < |u.pipes| && SoundPipe(u.pipes[v.pipeCount]) && Waiting(u.pipes[v.pipeCount]) == ""
        && u.pipes[v.pipeCount].readOpen && u.pipes[v.pipeCount].writeOpen && u.fs == v.fs
      else u == v
  {
    if 0 <= t < |v.tables| {
      var fds := v.tables[t].fds;
      var r := FirstFree(fds, 0);
      if r < |fds| {
        var w := FirstFree(fds[r := PipeRead(v.pipeCount)], 0);
        if w < |fds| {
          assert InTable(v, t, r) && InTable(v, t, w) && fds[r] == NoFd && fds[w] == NoFd && r < w;
        } else {
          assert forall j :: 0 <= j < |fds| && j != r ==> fds[j] != NoFd by {
            forall j | 0 <= j < |fds| && j != r ensures fds[j] != NoFd { assert fds[r := PipeRead(v.pipeCount)][j] != NoFd; }
          }
        }
      }
    }
    if v.pipeCount < MAX_PIPES { assert SoundPipe(v.pipes[v.pipeCount]); }
    hide ContentsFit;
  }

  /**
   Reading and writing what is not open, or the wrong end of a pipe, is refused;
   console and null device take everything and give nothing.
   */
  lemma OtherDescriptors(v: Sys, t: int, f: int, data: string, count: uint32)
    requires Sound(v) && !FdAt(v, t, f).FileFd?
    ensures var d := FdAt(v, t, f);
      && (d.NoFd? || d.PipeWrite? ==> Read(v, t, f, count) == (v, "", -1))
      && (d.NoFd? || d.PipeRead? ==> Vfs.Write(v, t, f, data) == (v, -1))
      && (d.ConsoleFd? || d.NullFd? ==> Read(v, t, f, count) == (v, "", 0) && Vfs.Write(v, t, f, data) == (v, |data|))
  {
  }
}
