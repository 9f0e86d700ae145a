/**
 File descriptors over the RAM filesystem, and pipes: what every call does, and
 that a pipe is the queue of the characters accepted and not yet delivered.
 */
module Vfs {
  import opened Words
  import opened Ramfs
  import opened RamfsPaths
  import Rings

  const MAX_FD: nat := 32
  const MAX_TASKS: nat := 32
  const PIPE_BUF: nat := 512
  const MAX_PIPES: nat := 16

  datatype Flags = Flags(creat: bool, trunc: bool, append: bool)

  datatype Fd =
    | NoFd
    | FileFd(node: int, offset: uint32, append: bool)
    | ConsoleFd
    | PipeRead(pipe: nat)
    | PipeWrite(pipe: nat)
    | NullFd

  datatype Table = Table(fds: seq<Fd>, cwd: int, inUse: bool)

  datatype Pipe = Pipe(buf: seq<char>, readPos: nat, writePos: nat, count: nat, readOpen: bool, writeOpen: bool)

  datatype Sys = Sys(fs: Fs, tables: seq<Table>, pipes: seq<Pipe>, pipeCount: nat)

  predicate SoundPipe(p: Pipe) {
    && |p.buf| == PIPE_BUF && p.readPos < PIPE_BUF && p.count <= PIPE_BUF
    && p.writePos == Rings.Slot(p.readPos, p.count, PIPE_BUF)
  }

  ghost predicate Sound(v: Sys) {
    && |v.tables| == MAX_TASKS && |v.pipes| == MAX_PIPES && v.pipeCount <= MAX_PIPES
    && (forall t :: 0 <= t < MAX_TASKS ==> |v.tables[t].fds| == MAX_FD)
    && (forall p :: 0 <= p < MAX_PIPES ==> SoundPipe(v.pipes[p]))
    && |v.fs.nodes| == MAX_NODES && ContentsFit(v.fs)
  }

  // -------------------------------------------------------------- descriptors

  predicate InTable(v: Sys, t: int, f: int) {
    0 <= t < |v.tables| && 0 <= f < |v.tables[t].fds|
  }

  function FdAt(v: Sys, t: int, f: int): Fd {
    if InTable(v, t, f) then v.tables[t].fds[f] else NoFd
  }

  function SetFd(v: Sys, t: int, f: int, d: Fd): Sys
    requires InTable(v, t, f)
  {
    v.(tables := v.tables[t := v.tables[t].(fds := v.tables[t].fds[f := d])])
  }

  function FirstFree(fds: seq<Fd>, i: nat): (r: nat)
    requires i <= |fds|
    ensures i <= r <= |fds|
    ensures r < |fds| ==> fds[r] == NoFd
    ensures forall j :: i <= j < r ==> fds[j] != NoFd
    decreases |fds| - i
  {
    if i == |fds| || fds[i] == NoFd then i else FirstFree(fds, i + 1)
  }

  // -------------------------------------------------------------------- files

  /** What ramfs_read puts in a buffer of the maximal size; a node that is not a file reads as nothing. */
  function Existing(fs: Fs, i: int): string {
    if IsFile(fs, i) then fs.nodes[i].content else ""
  }

  /** The bytes from position at on, as many as there are up to count. */
  function Piece(content: string, at: nat, count: nat): string {
    if at >= |content| then "" else content[at..at + Min(count, |content| - at)]
  }

  function ReadFile(v: Sys, t: int, f: int, count: uint32): (Sys, string, int)
    requires InTable(v, t, f) && v.tables[t].fds[f].FileFd?
  {
    var d := v.tables[t].fds[f];
    if !IsFile(v.fs, d.node) then (v, "", -1) else
    var data := Piece(v.fs.nodes[d.node].content, d.offset, count);
    if data == "" then (v, data, 0) else
    (SetFd(v, t, f, d.(offset := Add32(d.offset, |data|))), data, |data|)
  }

  /** The content with data over it from position at on, zeros filling a gap before it. */
  function Splice(content: string, at: nat, data: string): string {
    Padded(content, at)[..at] + data + if at + |data| < |content| then content[at + |data|..] else ""
  }

  /** The content made at least n long. */
  function Padded(content: string, n: nat): (r: string)
    ensures |r| == if n > |content| then n else |content|
  {
    if n > |content| then content + seq(n - |content|, _ => '\0') else content
  }

  /** How many of count bytes the write path takes up from that offset. */
  function Taken(offset: nat, count: nat): int {
    if offset + count > MAX_CONTENT then MAX_CONTENT - offset else count
  }

  /** A splice at the descriptor's offset stays in the buffer that file writes work in. */
  predicate InReach(d: Fd) {
    d.FileFd? && !d.append ==> d.offset <= MAX_CONTENT
  }

  /** vfs_write on a file, for offsets within the buffer it works in. */
  function WriteFile(v: Sys, t: int, f: int, data: string): (Sys, int)
    requires Sound(v) && InTable(v, t, f) && v.tables[t].fds[f].FileFd? && InReach(v.tables[t].fds[f])
  {
    var d := v.tables[t].fds[f];
    var was := Existing(v.fs, d.node);
    if d.append then
      var count := if |was| + |data| > MAX_CONTENT then MAX_CONTENT - |was| else |data|;
      AppendResult(v, d.node, data[..count])
    else
      var count := Taken(d.offset, |data|);
      var whole := Splice(was, d.offset, data[..count]);
      (SetFd(v.(fs := Ramfs.Write(v.fs, d.node, whole).0), t, f, d.(offset := Add32(d.offset, count))), count)
  }

  function AppendResult(v: Sys, node: int, data: string): (Sys, int)
    requires ContentsFit(v.fs)
  {
    assert IsFile(v.fs, node) ==> v.fs.nodes[node] in v.fs.nodes;
    var (fs, r) := Ramfs.Append(v.fs, node, data);
    (v.(fs := fs), r)
  }

  datatype Whence = Set | Cur | End

  function Seek(v: Sys, t: int, f: int, offset: int, whence: Whence): (Sys, int) {
    if !InTable(v, t, f) || !v.tables[t].fds[f].FileFd? then (v, -1) else
    var d := v.tables[t].fds[f];
    var size := if InPool(v.fs, d.node) then |v.fs.nodes[d.node].content| else 0;
    var to := match whence case Set => offset case Cur => d.offset + offset case End => size + offset;
    var pos := if to < 0 then 0 else to;
    (SetFd(v, t, f, d.(offset := pos % 0x1_0000_0000)), pos)
  }

  // ---------------------------------------- the plain bytes behind descriptors

  /** Where the bytes written would end. */
  function WriteEnd(v: Sys, t: int, f: int, data: string): nat
    requires InTable(v, t, f) && v.tables[t].fds[f].FileFd?
  {
    var d := v.tables[t].fds[f];
    |data| + if d.append then |Existing(v.fs, d.node)| else d.offset
  }

  predicate OnFile(v: Sys, t: int, f: int) {
    && InTable(v, t, f) && v.tables[t].fds[f].FileFd?
    && IsFile(v.fs, v.tables[t].fds[f].node)
  }

  lemma SpliceLength(content: string, at: nat, data: string)
    ensures |Splice(content, at, data)| == if at + |data| < |content| then |content| else at + |data|
  {
  }

  lemma WriteStaysSmall(v: Sys, t: int, f: int, data: string)
    requires Sound(v) && OnFile(v, t, f) && InReach(v.tables[t].fds[f])
    ensures var i := v.tables[t].fds[f].node;
      InPool(WriteFile(v, t, f, data).0.fs, i) && |WriteFile(v, t, f, data).0.fs.nodes[i].content| <= MAX_CONTENT - 1
  {
    assert v.fs.nodes[v.tables[t].fds[f].node] in v.fs.nodes;
  }

  /** Past that, a write still reports as many bytes as its work buffer took, one more than the file keeps. */
  lemma LongWriteLosesLastByte(v: Sys, t: int, f: int, data: string)
    requires Sound(v) && OnFile(v, t, f) && !v.tables[t].fds[f].append && v.tables[t].fds[f].offset < MAX_CONTENT
    requires WriteEnd(v, t, f, data) >= MAX_CONTENT
    ensures
      var d := v.tables[t].fds[f];
      var (after, r) := WriteFile(v, t, f, data);
      var kept := MAX_CONTENT - 1 - d.offset;
      && r == kept + 1 && InPool(after.fs, d.node)
      && after.fs.nodes[d.node].content == Splice(v.fs.nodes[d.node].content, d.offset, data[..kept])
  {
    var d := v.tables[t].fds[f];
    var content := v.fs.nodes[d.node].content;
    assert v.fs.nodes[d.node] in v.fs.nodes;
    var kept: nat := MAX_CONTENT - 1 - d.offset;
    SpliceOneMore(content, d.offset, data, kept);
  }

  lemma SpliceOneMore(content: string, at: nat, data: string, kept: nat)
    requires |content| <= at + kept && kept + 1 <= |data|
    ensures Splice(content, at, data[..kept + 1])[..at + kept] == Splice(content, at, data[..kept])
    ensures |Splice(content, at, data[..kept + 1])| == at + kept + 1
  {
    assert data[..kept + 1][..kept] == data[..kept];
  }

  /** What was spliced in is what a read there returns, and the bytes before and after are as they were. */
  lemma SpliceThenRead(content: string, at: nat, data: string)
    ensures Piece(Splice(content, at, data), at, |data|) == data
    ensures forall k :: 0 <= k < at && k < |content| ==> Splice(content, at, data)[k] == content[k]
    ensures forall k :: |content| <= k < at ==> Splice(content, at, data)[k] == '\0'
    ensures forall k :: at + |data| <= k < |content| ==> Splice(content, at, data)[k] == content[k]
  {
    var whole := Splice(content, at, data);
    assert whole[at..at + |data|] == data;
  }

  // ------------------------------------------------------------------ opening

  function LastSlash(path: string): (i: int)
    ensures -1 <= i < |path| && (i >= 0 ==> path[i] == '/')
    ensures forall k :: i < k < |path| ==> path[k] != '/'
  {
    if path == "" then -1
    else if path[|path| - 1] == '/' then |path| - 1
    else LastSlash(path[..|path| - 1])
  }

  /** Makes the file that an open with O_CREAT did not find: in the directory before the last slash, or in cwd. */
  function CreatePath(fs: Fs, cwd: int, path: string): (Fs, int) {
    if path != "" && path[0] == '/' then
      var slash := LastSlash(path);
      var parent := if slash > 0 then Resolve(fs, path[..Min(slash, 127)]) else 0;
      if parent < 0 || slash < 0 then (fs, -1) else Create(fs, parent, path[slash + 1..], File)
    else Create(fs, cwd, path, File)
  }

  function Open(v: Sys, t: int, path: string, flags: Flags): (Sys, int) {
    if !(0 <= t < |v.tables|) || !v.tables[t].inUse then (v, -1) else
    var f: int := FirstFree(v.tables[t].fds, 0);
    var full := f == |v.tables[t].fds|;
    if path == "/dev/null" then (if full then (v, -1) else (SetFd(v, t, f, NullFd), f)) else
    var found := Resolve(v.fs, path);
    var (fs, node) := if found < 0 && flags.creat then CreatePath(v.fs, v.tables[t].cwd, path) else (v.fs, found);
    var made := v.(fs := fs);
    if node < 0 || IsDir(fs, node) || full then (made, -1)
    else if flags.trunc then
      (SetFd(made.(fs := Ramfs.Write(fs, node, "").0), t, f, FileFd(node, 0, flags.append)), f)
    else
      var size: uint32 := if InPool(fs, node) && |fs.nodes[node].content| < MAX_CONTENT then |fs.nodes[node].content| else 0;
      (SetFd(made, t, f, FileFd(node, if flags.append then size else 0, flags.append)), f)
  }

  /** What was found in a directory is still found after a file has been listed last in some directory. */
  lemma FindSurvives(fs: Fs, depth: seq<nat>, parent: int, name: string, p: int, other: string)
    requires Tree(fs, depth) && Create(fs, parent, name, File).1 >= 0 && Find(fs, p, other) >= 0
    ensures Find(Create(fs, parent, name, File).0, p, other) == Find(fs, p, other)
  {
    var (g, i) := Create(fs, parent, name, File);
    UnusedIsUnlinked(fs.nodes, depth, i);
    assert Lists(fs.nodes, p);
    var list := fs.nodes[p].children;
    assert forall c <- list :: 0 <= c < |fs.nodes| && c != i;
    assert forall c <- list :: g.nodes[c].inUse == fs.nodes[c].inUse && g.nodes[c].name == fs.nodes[c].name;
    FindInSurvives(fs.nodes, g.nodes, list, if p == parent then [i] else [], other);
    assert g.nodes[p].children == list + if p == parent then [i] else [];
  }

  lemma {:induction false} FindInSurvives(nodes: seq<Node>, nodes': seq<Node>, list: seq<int>, more: seq<int>, name: string)
    requires |nodes| == |nodes'| && FindIn(nodes, list, name) >= 0
    requires forall c <- list :: 0 <= c < |nodes| && nodes'[c].inUse == nodes[c].inUse && nodes'[c].name == nodes[c].name
    ensures FindIn(nodes', list + more, name) == FindIn(nodes, list, name)
  {
    var c := list[0];
    assert c in list;
    assert (list + more)[0] == c && (list + more)[1..] == list[1..] + more;
    if !(nodes[c].inUse && nodes[c].name == name) {
      assert forall e :: e in list[1..] ==> e in list;
      FindInSurvives(nodes, nodes', list[1..], more, name);
    }
  }

  lemma {:induction false} WalkSurvives(fs: Fs, depth: seq<nat>, parent: int, name: string, parts: seq<string>)
    requires Tree(fs, depth) && Create(fs, parent, name, File).1 >= 0 && Walk(fs, parts) >= 0
    ensures Walk(Create(fs, parent, name, File).0, parts) == Walk(fs, parts)
  {
    if parts != [] {
      var init, last := parts[..|parts| - 1], parts[|parts| - 1];
      WalkSurvives(fs, depth, parent, name, init);
      WalkIsNoDeeper(fs, depth, init);
      var m := Walk(fs, init);
      ParentSurvives(fs, depth, parent, name, m);
      if last != "" && last != "." && last != ".." { FindSurvives(fs, depth, parent, name, m, Short(last)); }
      hide Tree, Create, Find;
    }
  }

  lemma ParentSurvives(fs: Fs, depth: seq<nat>, parent: int, name: string, m: int)
    requires Tree(fs, depth) && Create(fs, parent, name, File).1 >= 0 && InPool(fs, m)
    ensures var g := Create(fs, parent, name, File).0;
      |g.nodes| == |fs.nodes| && g.nodes[m].parent == fs.nodes[m].parent
  {
  }

  /** A name the directory did not have is found there once it has been created, if it fits. */
  lemma FoundWhenCreated(fs: Fs, depth: seq<nat>, parent: int, name: string)
    requires Tree(fs, depth) && Create(fs, parent, name, File).1 >= 0 && |name| <= MAX_NAME - 1
    ensures var (g, i) := Create(fs, parent, name, File); Find(g, parent, name) == i
  {
    var (g, i) := Create(fs, parent, name, File);
    UnusedIsUnlinked(fs.nodes, depth, i);
    assert Lists(fs.nodes, parent);
    assert Short(name) == name;
    var list := fs.nodes[parent].children;
    FindInFails(fs.nodes, list, name);
    FoundLast(g.nodes, list, i, name);
    assert g.nodes[parent].children == list + [i];
  }

  lemma {:induction false} FoundLast(nodes: seq<Node>, list: seq<int>, i: int, name: string)
    requires 0 <= i < |nodes| && nodes[i].inUse && nodes[i].name == name
    requires forall c <- list :: 0 <= c < |nodes| && nodes[c].name != name
    ensures FindIn(nodes, list + [i], name) == i
  {
    if list == [] {
      assert [i][0] == i && list + [i] == [i];
    } else {
      assert list[0] in list && forall c :: c in list[1..] ==> c in list;
      assert (list + [i])[1..] == list[1..] + [i];
      FoundLast(nodes, list[1..], i, name);
    }
  }

  /**
   What an open with O_CREAT makes under an absolute path is what the same path
   then leads to, if the last name can be looked up and is not cut, and the
   directory part is shorter than its 127-character buffer.
   */
  lemma CreatedPathResolves(fs: Fs, depth: seq<nat>, cwd: int, path: string)
    requires Tree(fs, depth) && path != "" && path[0] == '/' && LastSlash(path) < 127
    requires Good(path[LastSlash(path) + 1..]) && |path[LastSlash(path) + 1..]| <= MAX_NAME - 1
    requires CreatePath(fs, cwd, path).1 >= 0
    ensures var (g, i) := CreatePath(fs, cwd, path); Resolve(g, path) == i
  {
    hide Tree, Create, Split, Walk, Good;
    PathParts(path);
    var slash := LastSlash(path);
    var name := path[slash + 1..];
    var (g, i) := CreatePath(fs, cwd, path);
    ResolveIsWalk(g, path);
    if slash == 0 {
      CreatedInRoot(fs, depth, name);
    } else {
      var dir := path[..slash];
      ResolveIsWalk(fs, dir);
      CreatedUnder(fs, depth, dir[1..], name);
    }
  }

  lemma PathParts(path: string)
    requires path != "" && path[0] == '/'
    ensures var slash := LastSlash(path);
      && slash >= 0 && '/' !in path[slash + 1..]
      && (slash > 0 ==> path[..slash][0] == '/' && path[1..] == path[..slash][1..] + "/" + path[slash + 1..])
  {
  }

  lemma CreatedInRoot(fs: Fs, depth: seq<nat>, name: string)
    requires Tree(fs, depth) && Good(name) && |name| <= MAX_NAME - 1 && Create(fs, 0, name, File).1 >= 0
    ensures var (g, i) := Create(fs, 0, name, File); Walk(g, Split(name)) == i
  {
    hide Tree, Create;
    FoundWhenCreated(fs, depth, 0, name);
    SplitPlain(name);
    WalkOne(Create(fs, 0, name, File).0, name);
    assert Short(name) == name;
  }

  lemma ResolveIsWalk(fs: Fs, path: string)
    requires path != "" && path[0] == '/'
    ensures Resolve(fs, path) == Walk(fs, Split(path[1..]))
  {
  }

  lemma CreatedUnder(fs: Fs, depth: seq<nat>, dir: string, name: string)
    requires Tree(fs, depth) && Good(name) && |name| <= MAX_NAME - 1
    requires Walk(fs, Split(dir)) >= 0 && Create(fs, Walk(fs, Split(dir)), name, File).1 >= 0
    ensures var (g, i) := Create(fs, Walk(fs, Split(dir)), name, File); Walk(g, Split(dir + "/" + name)) == i
  {
    var parts := Split(dir);
    var parent := Walk(fs, parts);
    FoundWhenCreated(fs, depth, parent, name);
    WalkSurvives(fs, depth, parent, name, parts);
    SplitAtSlash(dir, name);
    hide Split, Tree, Create, Find;
    assert (parts + [name])[|parts|] == name && Short(name) == name;
    assert (parts + [name])[..|parts|] == parts;
  }

  lemma WalkOne(fs: Fs, name: string)
    requires Good(name)
    ensures Walk(fs, [name]) == Find(fs, 0, Short(name))
  {
    assert [name][..0] == [];
  }

  // -------------------------------------------------------------------- pipes

  ghost function Waiting(p: Pipe): seq<char>
    requires SoundPipe(p)
  {
    Rings.View(p.buf, p.readPos, p.count)
  }

  function PushOne(p: Pipe, c: char): Pipe
    requires SoundPipe(p)
  {
    p.(buf := p.buf[p.writePos := c], writePos := Rings.Slot(p.writePos, 1, PIPE_BUF), count := p.count + 1)
  }

  function PushAll(p: Pipe, data: string): (q: Pipe)
    requires SoundPipe(p) && p.count + |data| <= PIPE_BUF
    ensures SoundPipe(q) && q.count == p.count + |data| && q.readOpen == p.readOpen && q.writeOpen == p.writeOpen
    decreases |data|
  {
    if data == "" then p else
    PushKeepsSound(p, data[0]);
    PushAll(PushOne(p, data[0]), data[1..])
  }

  lemma PushKeepsSound(p: Pipe, c: char)
    requires SoundPipe(p) && p.count < PIPE_BUF
    ensures SoundPipe(PushOne(p, c)) && Waiting(PushOne(p, c)) == Waiting(p) + [c]
  {
    Rings.Push(p.buf, p.readPos, p.count, c);
  }

  /** The first n characters leave the pipe. */
  function PopAll(p: Pipe, n: nat): (q: Pipe)
    requires SoundPipe(p) && n <= p.count
    ensures SoundPipe(q) && q.count == p.count - n && q.readOpen == p.readOpen && q.writeOpen == p.writeOpen
    decreases n
  {
    if n == 0 then p else
    PopKeepsSound(p);
    PopAll(PopOne(p), n - 1)
  }

  function PopOne(p: Pipe): Pipe
    requires SoundPipe(p) && p.count > 0
  {
    p.(readPos := Rings.Slot(p.readPos, 1, PIPE_BUF), count := p.count - 1)
  }

  lemma PopKeepsSound(p: Pipe)
    requires SoundPipe(p) && p.count > 0
    ensures SoundPipe(PopOne(p)) && Waiting(p) == [p.buf[p.readPos]] + Waiting(PopOne(p))
  {
    Rings.Pop(p.buf, p.readPos, p.count);
  }

  /** The characters that leave the pipe, in order. */
  function Popped(p: Pipe, n: nat): (r: string)
    requires SoundPipe(p) && n <= p.count
    ensures |r| == n
    decreases n
  {
    if n == 0 then "" else
    PopKeepsSound(p);
    [p.buf[p.readPos]] + Popped(PopOne(p), n - 1)
  }

  lemma {:induction false} PushAllAppends(p: Pipe, data: string)
    requires SoundPipe(p) && p.count + |data| <= PIPE_BUF
    ensures Waiting(PushAll(p, data)) == Waiting(p) + data
    decreases |data|
  {
    if data == "" {
      assert Waiting(p) + "" == Waiting(p);
    } else {
      PushKeepsSound(p, data[0]);
      PushAllAppends(PushOne(p, data[0]), data[1..]);
      hide Waiting, PushOne;
      assert data == [data[0]] + data[1..];
      assert (Waiting(p) + [data[0]]) + data[1..] == Waiting(p) + data;
    }
  }

  lemma {:induction false} PopAllTakesOldest(p: Pipe, n: nat)
    requires SoundPipe(p) && n <= p.count
    ensures Waiting(p) == Popped(p, n) + Waiting(PopAll(p, n))
    decreases n
  {
    if n == 0 {
      assert "" + Waiting(p) == Waiting(p);
    } else {
      PopKeepsSound(p);
      PopAllTakesOldest(PopOne(p), n - 1);
      hide Waiting, PopOne;
    }
  }

  function WritePipe(p: Pipe, data: string): (r: (Pipe, int))
    requires SoundPipe(p)
    ensures SoundPipe(r.0)
  {
    if !p.readOpen then (p, -1) else
    var n := Min(|data|, PIPE_BUF - p.count);
    (PushAll(p, data[..n]), n)
  }

  function ReadPipe(p: Pipe, count: nat): (r: (Pipe, string))
    requires SoundPipe(p)
    ensures SoundPipe(r.0)
  {
    var n := Min(count, p.count);
    (PopAll(p, n), Popped(p, n))
  }

  // ------------------------------------------------------------- the calls

  function Write(v: Sys, t: int, f: int, data: string): (Sys, int)
    requires Sound(v) && InReach(FdAt(v, t, f))
  {
    var d := FdAt(v, t, f);
    match d
    case NoFd => (v, -1)
    case FileFd(_, _, _) => assert InTable(v, t, f); WriteFile(v, t, f, data)
    case ConsoleFd => (v, |data|)
    case PipeRead(_) => (v, -1)
    case PipeWrite(i) =>
      if i >= |v.pipes| then (v, -1) else
      var (p, r) := WritePipe(v.pipes[i], data);
      (v.(pipes := v.pipes[i := p]), r)
    case NullFd => (v, |data|)
  }

  function Read(v: Sys, t: int, f: int, count: uint32): (Sys, string, int)
    requires Sound(v)
  {
    var d := FdAt(v, t, f);
    match d
    case NoFd => (v, "", -1)
    case FileFd(_, _, _) => ReadFile(v, t, f, count)
    case ConsoleFd => (v, "", 0)
    case PipeRead(i) =>
      if i >= |v.pipes| then (v, "", -1) else
      var (p, data) := ReadPipe(v.pipes[i], count);
      (v.(pipes := v.pipes[i := p]), data, |data|)
    case PipeWrite(_) => (v, "", -1)
    case NullFd => (v, "", 0)
  }

  /** No descriptor has been moved past the buffer that file writes work in. */
  ghost predicate OffsetsFit(v: Sys) {
    forall t, f :: InTable(v, t, f) && v.tables[t].fds[f].FileFd? ==> v.tables[t].fds[f].offset <= MAX_CONTENT
  }

  /** The pipe ends a closed descriptor stood for are marked closed. */
  function EndClosed(v: Sys, d: Fd): Sys {
    if d.PipeRead? && d.pipe < |v.pipes| then
      v.(pipes := v.pipes[d.pipe := v.pipes[d.pipe].(readOpen := false)])
    else if d.PipeWrite? && d.pipe < |v.pipes| then
      v.(pipes := v.pipes[d.pipe := v.pipes[d.pipe].(writeOpen := false)])
    else v
  }

  function Close(v: Sys, t: int, f: int): (Sys, int) {
    var d := FdAt(v, t, f);
    if d == NoFd then (v, -1) else (SetFd(EndClosed(v, d), t, f, NoFd), 0)
  }

  function Dup(v: Sys, t: int, f: int): (Sys, int) {
    var d := FdAt(v, t, f);
    if d == NoFd then (v, -1) else
    var g: int := FirstFree(v.tables[t].fds, 0);
    if g == |v.tables[t].fds| then (v, -1) else
    var copied := SetFd(v, t, g, d);
    var marked := if d.PipeRead? && d.pipe < |v.pipes| then
        copied.(pipes := v.pipes[d.pipe := v.pipes[d.pipe].(readOpen := true)])
      else if d.PipeWrite? && d.pipe < |v.pipes| then
        copied.(pipes := v.pipes[d.pipe := v.pipes[d.pipe].(writeOpen := true)])
      else copied;
    (marked, g)
  }

  function Dup2(v: Sys, t: int, f: int, g: int): (Sys, int) {
    if !InTable(v, t, f) || !InTable(v, t, g) || FdAt(v, t, f) == NoFd then (v, -1) else
    var closed := if FdAt(v, t, g) != NoFd then Close(v, t, g).0 else v;
    (SetFd(closed, t, g, FdAt(closed, t, f)), g)
  }

  /** Two descriptors for the ends of a pipe that has never been used before; pipes are not used again. */
  function MakePipe(v: Sys, t: int): (Sys, int, int) {
    if !(0 <= t < |v.tables|) || v.pipeCount >= MAX_PIPES || |v.pipes| != MAX_PIPES then (v, -1, -1) else
    var fds := v.tables[t].fds;
    var r: int := FirstFree(fds, 0);
    if r == |fds| then (v, -1, -1) else
    var w: int := FirstFree(fds[r := PipeRead(v.pipeCount)], 0);
    if w == |fds| then (v, -1, -1) else
    (v.(tables := v.tables[t := v.tables[t].(fds := fds[r := PipeRead(v.pipeCount)][w := PipeWrite(v.pipeCount)])],
        pipes := v.pipes[v.pipeCount := Pipe(v.pipes[v.pipeCount].buf, 0, 0, 0, true, true)],
        pipeCount := v.pipeCount + 1),
     r, w)
  }

  // ------------------------------------------------------- pipes over whole runs

  datatype Event =
    | OpenE(t: int, path: string, flags: Flags)
    | WriteE(t: int, f: int, data: string)
    | ReadE(t: int, f: int, count: uint32)
    | SeekE(t: int, f: int, offset: int, whence: Whence)
    | DupE(t: int, f: int)
    | Dup2E(t: int, f: int, g: int)
    | CloseE(t: int, f: int)
    | PipeE(t: int)

  /** For each pipe what was accepted by writes and what was delivered by reads. */
  datatype World = World(v: Sys, accepted: seq<string>, delivered: seq<string>)

  function Logged(logs: seq<string>, i: nat, data: string): seq<string> {
    if i < |logs| then logs[i := logs[i] + data] else logs
  }

  /** A splice is only asked for within reach; other descriptors may stand anywhere. */
  predicate Enabled(v: Sys, e: Event) {
    e.WriteE? ==> InReach(FdAt(v, e.t, e.f))
  }

  function Step(w: World, e: Event): World
    requires Sound(w.v) && Enabled(w.v, e)
  {
    match e
    case OpenE(t, path, flags) => w.(v := Open(w.v, t, path, flags).0)
    case WriteE(t, f, data) =>
      var (v, r) := Write(w.v, t, f, data);
      var d := FdAt(w.v, t, f);
      if d.PipeWrite? && 0 <= r <= |data| then w.(v := v, accepted := Logged(w.accepted, d.pipe, data[..r])) else w.(v := v)
    case ReadE(t, f, count) =>
      var (v, data, r) := Read(w.v, t, f, count);
      var d := FdAt(w.v, t, f);
      if d.PipeRead? then w.(v := v, delivered := Logged(w.delivered, d.pipe, data)) else w.(v := v)
    case SeekE(t, f, offset, whence) => w.(v := Seek(w.v, t, f, offset, whence).0)
    case DupE(t, f) => w.(v := Dup(w.v, t, f).0)
    case Dup2E(t, f, g) => w.(v := Dup2(w.v, t, f, g).0)
    case CloseE(t, f) => w.(v := Close(w.v, t, f).0)
    case PipeE(t) =>
      var (v, r, _) := MakePipe(w.v, t);
      if r < 0 then w.(v := v)
      else
        w.(v := v, accepted := if w.v.pipeCount < |w.accepted| then w.accepted[w.v.pipeCount := ""] else w.accepted,
           delivered := if w.v.pipeCount < |w.delivered| then w.delivered[w.v.pipeCount := ""] else w.delivered)
  }

  /** Every pipe holds, in order, what it accepted and has not delivered. */
  ghost predicate Fifo(pipes: seq<Pipe>, accepted: seq<string>, delivered: seq<string>) {
    && |pipes| == |accepted| == |delivered| == MAX_PIPES
    && forall i :: 0 <= i < MAX_PIPES ==> SoundPipe(pipes[i]) && accepted[i] == delivered[i] + Waiting(pipes[i])
  }

  lemma WriteKeepsFifo(pipes: seq<Pipe>, accepted: seq<string>, delivered: seq<string>, i: nat, data: string)
    requires Fifo(pipes, accepted, delivered) && i < MAX_PIPES
    ensures var (p, r) := WritePipe(pipes[i], data);
      r <= |data| && Fifo(pipes[i := p], if r >= 0 then Logged(accepted, i, data[..r]) else accepted, delivered)
  {
    var (p, r) := WritePipe(pipes[i], data);
    if r >= 0 {
      PushAllAppends(pipes[i], data[..r]);
      hide Waiting, PushAll;
      assert delivered[i] + (Waiting(pipes[i]) + data[..r]) == accepted[i] + data[..r];
    }
  }

  lemma Regroup(a: string, b: string, c: string)
    ensures (a + b) + c == a + (b + c)
  {
  }

  lemma ReadKeepsFifo(pipes: seq<Pipe>, accepted: seq<string>, delivered: seq<string>, i: nat, count: nat)
    requires Fifo(pipes, accepted, delivered) && i < MAX_PIPES
    ensures var (p, data) := ReadPipe(pipes[i], count);
      Fifo(pipes[i := p], accepted, Logged(delivered, i, data))
  {
    var (p, data) := ReadPipe(pipes[i], count);
    PopAllTakesOldest(pipes[i], |data|);
    hide Waiting, PopAll, Popped, SoundPipe;
    Regroup(delivered[i], data, Waiting(p));
  }

  // ------------------------------------------------------------- shape is kept

  lemma ContentKeepsFit(fs: Fs, i: int, content: string)
    requires ContentsFit(fs) && 0 <= i < |fs.nodes| && |content| <= MAX_CONTENT - 1
    ensures ContentsFit(fs.(nodes := fs.nodes[i := fs.nodes[i].(content := content)]))
  {
    var nodes := fs.nodes[i := fs.nodes[i].(content := content)];
    forall n | n in nodes ensures |n.content| <= MAX_CONTENT - 1 && |n.name| <= MAX_NAME - 1 {
      var j :| 0 <= j < |nodes| && nodes[j] == n;
      assert fs.nodes[j] in fs.nodes;
    }
  }

  lemma WriteFileKeepsSound(v: Sys, t: int, f: int, data: string)
    requires Sound(v) && InTable(v, t, f) && v.tables[t].fds[f].FileFd? && InReach(v.tables[t].fds[f])
    ensures Sound(WriteFile(v, t, f, data).0)
  {
    var d := v.tables[t].fds[f];
    if IsFile(v.fs, d.node) {
      assert v.fs.nodes[d.node] in v.fs.nodes;
      ContentKeepsFit(v.fs, d.node, WriteFile(v, t, f, data).0.fs.nodes[d.node].content);
    }
    hide ContentsFit;
  }

  lemma CreatePathKeepsFit(fs: Fs, cwd: int, path: string)
    requires ContentsFit(fs) && |fs.nodes| == MAX_NODES
    ensures var g := CreatePath(fs, cwd, path).0; ContentsFit(g) && |g.nodes| == MAX_NODES
  {
    var parent := if path != "" && path[0] == '/' then
      (if LastSlash(path) > 0 then Resolve(fs, path[..Min(LastSlash(path), 127)]) else 0) else cwd;
    var name := if path != "" && path[0] == '/' then path[LastSlash(path) + 1..] else path;
    ApplyKeepsFit(fs, CreateOp(parent, name, File));
    hide Resolve, ContentsFit;
  }

  lemma OpenKeepsSound(v: Sys, t: int, path: string, flags: Flags)
    requires Sound(v)
    ensures Sound(Open(v, t, path, flags).0)
  {
    hide SoundPipe, Resolve, ContentsFit, CreatePath;
    if 0 <= t < |v.tables| {
      CreatePathKeepsFit(v.fs, v.tables[t].cwd, path);
      var found := Resolve(v.fs, path);
      var (fs, node) := if found < 0 && flags.creat then CreatePath(v.fs, v.tables[t].cwd, path) else (v.fs, found);
      ApplyKeepsFit(fs, WriteOp(node, ""));
    }
  }

  /** Every call keeps tables, pipes and contents in shape. */
  lemma StepKeepsSound(w: World, e: Event)
    requires Sound(w.v) && Enabled(w.v, e)
    ensures Sound(Step(w, e).v)
  {
    if e.WriteE? {
      if FdAt(w.v, e.t, e.f).FileFd? { WriteFileKeepsSound(w.v, e.t, e.f, e.data); }
      hide ContentsFit, PushAll, PopAll, Popped, WriteFile, InReach;
    } else if e.OpenE? {
      OpenKeepsSound(w.v, e.t, e.path, e.flags);
      hide Sound, Open;
    } else {
      hide ContentsFit, PopAll, Popped, WriteFile, WritePipe, Open;
      if e.DupE? || e.Dup2E? { DupKeepsSound(w, e); hide Step; }
    }
  }

  lemma DupKeepsSound(w: World, e: Event)
    requires Sound(w.v) && (e.DupE? || e.Dup2E?)
    ensures Sound(Step(w, e).v)
  {
    hide ContentsFit;
  }

  /** Only seeking can take an offset out of reach. */
  lemma StepKeepsOffsets(w: World, e: Event)
    requires Sound(w.v) && OffsetsFit(w.v) && !e.SeekE?
    ensures Enabled(w.v, e) && OffsetsFit(Step(w, e).v)
  {
    if e.ReadE? || e.WriteE? {
      if FdAt(w.v, e.t, e.f).FileFd? { FileStepKeepsOffsets(w, e); }
      hide OffsetsFit, PushAll, PopAll, Popped, SoundPipe, ReadFile, WriteFile;
    } else if e.OpenE? {
      OpenKeepsOffsets(w.v, e.t, e.path, e.flags);
      hide OffsetsFit, Sound, Open;
    } else {
      TableStepKeepsOffsets(w, e);
      hide OffsetsFit, Sound, Step;
    }
  }

  lemma SetFdKeepsOffsets(v: Sys, t: int, f: int, d: Fd)
    requires OffsetsFit(v) && InTable(v, t, f) && (d.FileFd? ==> d.offset <= MAX_CONTENT)
    ensures OffsetsFit(SetFd(v, t, f, d))
  {
  }

  lemma OpenKeepsOffsets(v: Sys, t: int, path: string, flags: Flags)
    requires Sound(v) && OffsetsFit(v)
    ensures OffsetsFit(Open(v, t, path, flags).0)
  {
    hide Sound, Resolve, CreatePath, Ramfs.Write;
  }

  lemma TableStepKeepsOffsets(w: World, e: Event)
    requires Sound(w.v) && OffsetsFit(w.v) && (e.DupE? || e.Dup2E? || e.CloseE? || e.PipeE?)
    ensures OffsetsFit(Step(w, e).v)
  {
    hide Sound, SoundPipe;
  }

  lemma FileStepKeepsOffsets(w: World, e: Event)
    requires Sound(w.v) && OffsetsFit(w.v) && (e.ReadE? || e.WriteE?) && FdAt(w.v, e.t, e.f).FileFd?
    ensures OffsetsFit(Step(w, e).v)
  {
    var d := FdAt(w.v, e.t, e.f);
    if IsFile(w.v.fs, d.node) { assert w.v.fs.nodes[d.node] in w.v.fs.nodes; }
    hide ContentsFit, SoundPipe, Splice, Ramfs.Write, Append;
  }

  // ------------------------------------------------------------- pipe contents

  /** Marking ends open or closed does not touch what is in the pipes. */
  lemma MarksKeepFifo(pipes: seq<Pipe>, accepted: seq<string>, delivered: seq<string>, i: nat, r: bool, w: bool)
    requires Fifo(pipes, accepted, delivered) && i < MAX_PIPES
    ensures Fifo(pipes[i := pipes[i].(readOpen := r, writeOpen := w)], accepted, delivered)
  {
    assert Waiting(pipes[i].(readOpen := r, writeOpen := w)) == Waiting(pipes[i]);
  }

  lemma EndClosedKeepsFifo(v: Sys, d: Fd, accepted: seq<string>, delivered: seq<string>)
    requires Fifo(v.pipes, accepted, delivered)
    ensures Fifo(EndClosed(v, d).pipes, accepted, delivered)
  {
    if d.PipeRead? && d.pipe < MAX_PIPES {
      MarksKeepFifo(v.pipes, accepted, delivered, d.pipe, false, v.pipes[d.pipe].writeOpen);
    } else if d.PipeWrite? && d.pipe < MAX_PIPES {
      MarksKeepFifo(v.pipes, accepted, delivered, d.pipe, v.pipes[d.pipe].readOpen, false);
    }
  }

  lemma DupKeepsFifo(v: Sys, t: int, f: int, accepted: seq<string>, delivered: seq<string>)
    requires Fifo(v.pipes, accepted, delivered)
    ensures Fifo(Dup(v, t, f).0.pipes, accepted, delivered)
  {
    var d := FdAt(v, t, f);
    if d.PipeRead? && d.pipe < MAX_PIPES {
      MarksKeepFifo(v.pipes, accepted, delivered, d.pipe, true, v.pipes[d.pipe].writeOpen);
    } else if d.PipeWrite? && d.pipe < MAX_PIPES {
      MarksKeepFifo(v.pipes, accepted, delivered, d.pipe, v.pipes[d.pipe].readOpen, true);
    }
  }

  lemma MakePipeKeepsFifo(v: Sys, t: int, accepted: seq<string>, delivered: seq<string>)
    requires Fifo(v.pipes, accepted, delivered) && MakePipe(v, t).1 >= 0
    ensures Fifo(MakePipe(v, t).0.pipes, accepted[v.pipeCount := ""], delivered[v.pipeCount := ""])
  {
    assert Waiting(MakePipe(v, t).0.pipes[v.pipeCount]) == "";
  }

  lemma StepKeepsFifo(w: World, e: Event)
    requires Sound(w.v) && Enabled(w.v, e) && Fifo(w.v.pipes, w.accepted, w.delivered)
    ensures var x := Step(w, e); Fifo(x.v.pipes, x.accepted, x.delivered)
  {
    hide Fifo, Waiting, Sound, InReach;
    FifoShape(w.v.pipes, w.accepted, w.delivered);
    match e
    case OpenE(t, path, flags) => OpenKeepsPipes(w.v, t, path, flags); hide Open;
    case WriteE(t, f, data) =>
      var d := FdAt(w.v, t, f);
      if d.PipeWrite? && d.pipe < MAX_PIPES { WriteKeepsFifo(w.v.pipes, w.accepted, w.delivered, d.pipe, data); }
    case ReadE(t, f, count) =>
      var d := FdAt(w.v, t, f);
      if d.PipeRead? && d.pipe < MAX_PIPES { ReadKeepsFifo(w.v.pipes, w.accepted, w.delivered, d.pipe, count); }
    case SeekE(t, f, offset, whence) =>
    case DupE(t, f) => DupKeepsFifo(w.v, t, f, w.accepted, w.delivered);
    case Dup2E(t, f, g) => EndClosedKeepsFifo(w.v, FdAt(w.v, t, g), w.accepted, w.delivered);
    case CloseE(t, f) => EndClosedKeepsFifo(w.v, FdAt(w.v, t, f), w.accepted, w.delivered);
    case PipeE(t) => if MakePipe(w.v, t).1 >= 0 { MakePipeKeepsFifo(w.v, t, w.accepted, w.delivered); }
  }

  lemma OpenKeepsPipes(v: Sys, t: int, path: string, flags: Flags)
    ensures Open(v, t, path, flags).0.pipes == v.pipes
  {
    hide Resolve, CreatePath, Ramfs.Write;
  }

  lemma FifoShape(pipes: seq<Pipe>, accepted: seq<string>, delivered: seq<string>)
    requires Fifo(pipes, accepted, delivered)
    ensures |pipes| == |accepted| == |delivered| == MAX_PIPES
  {
  }

  ghost predicate Run(w: World, events: seq<Event>, x: World)
    decreases |events|
  {
    if events == [] then x == w
    else Sound(w.v) && Enabled(w.v, events[0]) && Run(Step(w, events[0]), events[1..], x)
  }

  /**
   Pipes over any interleaving of reads and writes through any number of
   duplicated descriptors: what was accepted is what was delivered followed by
   what waits in the ring.
   */
  lemma {:induction false} RunKeepsFifo(w: World, events: seq<Event>, x: World)
    requires Sound(w.v) && Fifo(w.v.pipes, w.accepted, w.delivered) && Run(w, events, x)
    ensures Sound(x.v) && Fifo(x.v.pipes, x.accepted, x.delivered)
    decreases |events|
  {
    hide Fifo, Sound, Enabled, Step;
    if events != [] {
      StepKeepsFifo(w, events[0]);
      StepKeepsSound(w, events[0]);
      RunKeepsFifo(Step(w, events[0]), events[1..], x);
    }
  }
}
