/**
 Files behind descriptors as plain bytes: a machine that knows for every file
 its bytes and for every descriptor a file, an offset and an append flag, and
 nothing of inodes, buffers or limits. As long as writes end within the 2047
 bytes a file can hold, every run of open, read, write, seek, dup and close is a
 run of that machine.
 */
module VfsPlain {
  import opened Words
  import opened Ramfs
  import opened RamfsPaths
  import opened Vfs

  // ------------------------------------------------------- the plain machine

  datatype Key = Key(t: int, f: int)

  datatype Handle = Handle(file: int, offset: nat, append: bool)

  datatype Plain = Plain(files: imap<int, string>, handles: imap<Key, Handle>)

  /** What a call did, as its caller can tell. */
  datatype Call =
    | Nothing
    | Made(file: int)                       // a file was created, but not opened
    | Opened(k: Key, file: int, flags: Flags)
    | ReadOut(k: Key, count: nat, data: string)
    | Written(k: Key, data: string, done: int)
    | Sought(k: Key, offset: int, whence: Whence, pos: int)
    | Copied(from: Key, to: Key)
    | Closed(k: Key)

  function Files(p: Plain, i: int): imap<int, string> {
    if i in p.files then p.files else p.files[i := ""]
  }

  /** k is open, on a file that is there. */
  predicate On(p: Plain, k: Key) {
    k in p.handles && p.handles[k].file in p.files
  }

  function At(p: Plain, k: Key): string
    requires On(p, k)
  {
    p.files[p.handles[k].file]
  }

  /** Handle k moved to pos. */
  function Moved(p: Plain, k: Key, pos: nat): Plain
    requires k in p.handles
  {
    p.(handles := p.handles[k := p.handles[k].(offset := pos)])
  }

  /** Data written through handle k: appended without moving it, or spliced in where it stands, and it moves on. */
  function Put(p: Plain, k: Key, data: string): Plain
    requires On(p, k)
  {
    var h := p.handles[k];
    if h.append then p.(files := p.files[h.file := p.files[h.file] + data])
    else Moved(p.(files := p.files[h.file := Splice(p.files[h.file], h.offset, data)]), k, h.offset + |data|)
  }

  function Copy(p: Plain, k: Key, l: Key): Plain {
    p.(handles := if k in p.handles && k != l then p.handles[l := p.handles[k]] else p.handles - {l})
  }

  /** File i, made if it is not there, opened as k. */
  function Enter(p: Plain, k: Key, i: int, flags: Flags): Plain {
    var files := if flags.trunc then p.files[i := ""] else Files(p, i);
    Plain(files, p.handles[k := Handle(i, if flags.append then |files[i]| else 0, flags.append)])
  }

  /** The machine makes this call and becomes q. */
  ghost predicate PlainStep(p: Plain, c: Call, q: Plain)
  {
    match c
    case Nothing => q == p
    case Made(i) => i !in p.files && q == p.(files := p.files[i := ""])
    case Opened(k, i, flags) => k !in p.handles && q == Enter(p, k, i, flags)
    case ReadOut(k, count, data) =>
      On(p, k) && data == Piece(At(p, k), p.handles[k].offset, count) && q == Moved(p, k, p.handles[k].offset + |data|)
    case Written(k, data, done) => On(p, k) && done == |data| && q == Put(p, k, data)
    case Sought(k, offset, whence, pos) =>
      && On(p, k)
      && (var to := offset + match whence case Set => 0 case Cur => p.handles[k].offset case End => |At(p, k)|;
          pos == (if to < 0 then 0 else to) && q == Moved(p, k, pos))
    case Copied(k, l) => q == Copy(p, k, l)
    case Closed(k) => q == p.(handles := p.handles - {k})
  }

  // ------------------------------------------------------------- abstraction

  predicate IsHandle(v: Sys, k: Key) { FdAt(v, k.t, k.f).FileFd? }

  ghost function Contents(fs: Fs): imap<int, string> {
    imap i | IsFile(fs, i) :: fs.nodes[i].content
  }

  ghost function Handles(v: Sys): imap<Key, Handle> {
    imap k | IsHandle(v, k) :: HandleOf(FdAt(v, k.t, k.f))
  }

  function HandleOf(d: Fd): Handle
    requires d.FileFd?
  {
    Handle(d.node, d.offset, d.append)
  }

  ghost function Abs(v: Sys): Plain { Plain(Contents(v.fs), Handles(v)) }

  /** Every descriptor of a file is of one that is there. */
  ghost predicate FilesLive(v: Sys) {
    forall t, f :: FdAt(v, t, f).FileFd? ==> IsFile(v.fs, FdAt(v, t, f).node)
  }

  /** One descriptor changed. */
  lemma SetFdHandles(v: Sys, t: int, f: int, d: Fd)
    requires InTable(v, t, f)
    ensures Contents(SetFd(v, t, f, d).fs) == Contents(v.fs)
    ensures Handles(SetFd(v, t, f, d)) ==
      if d.FileFd? then Handles(v)[Key(t, f) := HandleOf(d)] else Handles(v) - {Key(t, f)}
  {
  }

  /** One file's content changed. */
  lemma WriteContents(fs: Fs, i: int, content: string)
    requires IsFile(fs, i)
    ensures var g := fs.(nodes := fs.nodes[i := fs.nodes[i].(content := content)]);
      Contents(g) == Contents(fs)[i := content]
  {
  }

  lemma SameHandles(v: Sys, fs: Fs)
    ensures Handles(v.(fs := fs)) == Handles(v)
  {
  }

  lemma SetFdLive(v: Sys, t: int, f: int, d: Fd)
    requires FilesLive(v) && InTable(v, t, f) && (d.FileFd? ==> IsFile(v.fs, d.node))
    ensures FilesLive(SetFd(v, t, f, d))
  {
    var u := SetFd(v, t, f, d);
    forall t', f' | FdAt(u, t', f').FileFd? ensures IsFile(u.fs, FdAt(u, t', f').node) {
      if t' != t || f' != f { assert FdAt(u, t', f') == FdAt(v, t', f'); }
    }
  }

  /** What the machine knows of a descriptor of a file. */
  lemma HandleAt(v: Sys, t: int, f: int)
    requires FilesLive(v) && FdAt(v, t, f).FileFd?
    ensures var d := FdAt(v, t, f);
      && InTable(v, t, f) && IsFile(v.fs, d.node)
      && Key(t, f) in Handles(v) && Handles(v)[Key(t, f)] == HandleOf(d)
      && d.node in Contents(v.fs) && Contents(v.fs)[d.node] == v.fs.nodes[d.node].content
  {
  }

  lemma PutBack<A, B>(m: imap<A, B>, k: A, b: B)
    requires k in m && m[k] == b
    ensures m[k := b] == m
  {
  }

  // -------------------------------------------------------- reading and writing

  lemma ReadIsPlain(v: Sys, t: int, f: int, count: uint32)
    requires Sound(v) && FilesLive(v) && FdAt(v, t, f).FileFd?
    ensures var (u, data, r) := ReadFile(v, t, f, count);
      r == |data| && PlainStep(Abs(v), ReadOut(Key(t, f), count, data), Abs(u)) && FilesLive(u)
  {
    hide Sound, SetFd, FilesLive, Handles, Contents, ReadFile, Piece, Splice, Enter, Put, Copy;
    HandleAt(v, t, f);
    ReadIs(v, t, f, count);
    var d := FdAt(v, t, f);
    var data := Piece(v.fs.nodes[d.node].content, d.offset, count);
    if data == "" { PutBack(Handles(v), Key(t, f), HandleOf(d)); } else { MovedIs(v, t, f, d.offset + |data|); }
  }

  lemma ReadIs(v: Sys, t: int, f: int, count: uint32)
    requires Sound(v) && OnFile(v, t, f)
    ensures var d := FdAt(v, t, f);
      var data := Piece(v.fs.nodes[d.node].content, d.offset, count);
      && (data != "" ==> d.offset + |data| < MAX_CONTENT)
      && ReadFile(v, t, f, count) ==
           (if data == "" then v else SetFd(v, t, f, d.(offset := Add32(d.offset, |data|))), data, |data|)
  {
    var d := FdAt(v, t, f);
    assert v.fs.nodes[d.node] in v.fs.nodes;
    PieceLength(v.fs.nodes[d.node].content, d.offset, count);
    hide Piece, SetFd, SoundPipe;
  }

  /** A descriptor moved. */
  lemma MovedIs(v: Sys, t: int, f: int, pos: uint32)
    requires FilesLive(v) && FdAt(v, t, f).FileFd?
    ensures Key(t, f) in Handles(v)
    ensures var u := SetFd(v, t, f, FdAt(v, t, f).(offset := pos));
      FilesLive(u) && Abs(u) == Moved(Abs(v), Key(t, f), pos)
  {
    HandleAt(v, t, f);
    var d := FdAt(v, t, f);
    SetFdHandles(v, t, f, d.(offset := pos));
    SetFdLive(v, t, f, d.(offset := pos));
    hide Contents, Handles, FilesLive, SetFd;
  }

  lemma PieceLength(content: string, at: nat, count: nat)
    ensures Piece(content, at, count) != "" ==> at + |Piece(content, at, count)| <= |content|
  {
  }

  /**
   A write does on the plain machine what it should, and reports every byte
   written, exactly if it ends within the 2047 bytes a file can hold.
   */
  lemma WriteIsPlainIff(v: Sys, t: int, f: int, data: string)
    requires Sound(v) && FilesLive(v) && FdAt(v, t, f).FileFd? && InReach(FdAt(v, t, f)) && data != ""
    ensures var (u, r) := WriteFile(v, t, f, data);
      PlainStep(Abs(v), Written(Key(t, f), data, r), Abs(u)) <==> WriteEnd(v, t, f, data) <= MAX_CONTENT - 1
  {
    if WriteEnd(v, t, f, data) <= MAX_CONTENT - 1 {
      ShortWriteIsPlain(v, t, f, data);
    } else {
      LongWriteIsNot(v, t, f, data);
    }
  }

  lemma ShortWriteIsPlain(v: Sys, t: int, f: int, data: string)
    requires Sound(v) && FilesLive(v) && FdAt(v, t, f).FileFd? && InReach(FdAt(v, t, f))
    requires WriteEnd(v, t, f, data) <= MAX_CONTENT - 1
    ensures var (u, r) := WriteFile(v, t, f, data);
      PlainStep(Abs(v), Written(Key(t, f), data, r), Abs(u)) && FilesLive(u)
  {
    hide Contents, Handles, Sound, FilesLive, WriteFile, WriteEnd, InReach, Splice, SetFd, Rewritten, Enter, Copy, Piece;
    HandleAt(v, t, f);
    ShortWriteIs(v, t, f, data);
    RewrittenIs(v, FdAt(v, t, f).node, After(v, t, f, data));
    if !FdAt(v, t, f).append { SplicedIs(v, t, f, data); }
  }

  lemma RewrittenIs(v: Sys, i: int, content: string)
    requires FilesLive(v) && IsFile(v.fs, i)
    ensures var u := Rewritten(v, i, content);
      FilesLive(u) && Abs(u) == Abs(v).(files := Contents(v.fs)[i := content])
  {
    WriteContents(v.fs, i, content);
    SameHandles(v, Rewritten(v, i, content).fs);
    ContentLive(v, i, content);
    hide Contents, Handles, FilesLive;
  }

  lemma SplicedIs(v: Sys, t: int, f: int, data: string)
    requires FilesLive(v) && OnFile(v, t, f) && FdAt(v, t, f).offset + |data| < MAX_CONTENT && !FdAt(v, t, f).append
    ensures Key(t, f) in Handles(v) && FdAt(v, t, f).node in Contents(v.fs)
    ensures var d := FdAt(v, t, f);
      var u := SetFd(Rewritten(v, d.node, After(v, t, f, data)), t, f, d.(offset := Add32(d.offset, |data|)));
      FilesLive(u) && Abs(u) == Put(Abs(v), Key(t, f), data)
  {
    hide Contents, Handles, FilesLive, SetFd, Splice, Rewritten;
    HandleAt(v, t, f);
    var d := FdAt(v, t, f);
    var u := Rewritten(v, d.node, After(v, t, f, data));
    SameFd(v, d.node, After(v, t, f, data), t, f);
    RewrittenIs(v, d.node, After(v, t, f, data));
    MovedIs(u, t, f, d.offset + |data|);
    hide FdAt;
  }

  lemma SameFd(v: Sys, i: int, content: string, t: int, f: int)
    requires IsFile(v.fs, i)
    ensures FdAt(Rewritten(v, i, content), t, f) == FdAt(v, t, f)
  {
  }

  /** The content after the write. */
  function After(v: Sys, t: int, f: int, data: string): string
    requires OnFile(v, t, f)
  {
    var d := FdAt(v, t, f);
    var was := v.fs.nodes[d.node].content;
    if d.append then was + data else Splice(was, d.offset, data)
  }

  function Rewritten(v: Sys, i: int, content: string): Sys
    requires IsFile(v.fs, i)
  {
    v.(fs := v.fs.(nodes := v.fs.nodes[i := v.fs.nodes[i].(content := content)]))
  }

  lemma ShortWriteIs(v: Sys, t: int, f: int, data: string)
    requires Sound(v) && OnFile(v, t, f) && InReach(FdAt(v, t, f))
    requires WriteEnd(v, t, f, data) <= MAX_CONTENT - 1
    ensures var d := FdAt(v, t, f);
      var u := Rewritten(v, d.node, After(v, t, f, data));
      WriteFile(v, t, f, data) == (if d.append then u else SetFd(u, t, f, d.(offset := Add32(d.offset, |data|))), |data|)
    ensures var d := FdAt(v, t, f); !d.append ==> d.offset + |data| < MAX_CONTENT
  {
    var d := FdAt(v, t, f);
    var n := v.fs.nodes[d.node];
    assert n in v.fs.nodes && |n.content| <= MAX_CONTENT - 1;
    SpliceLength(n.content, d.offset, data);
    Whole(data, |data|);
    Whole(After(v, t, f, data), |After(v, t, f, data)|);
    hide Splice, SoundPipe, ContentsFit;
  }

  lemma Whole(s: string, n: nat)
    requires n == |s|
    ensures s[..n] == s
  {
  }

  lemma ContentLive(v: Sys, i: int, content: string)
    requires FilesLive(v) && IsFile(v.fs, i)
    ensures FilesLive(Rewritten(v, i, content))
  {
    var u := Rewritten(v, i, content);
    forall t, f | FdAt(u, t, f).FileFd? ensures IsFile(u.fs, FdAt(u, t, f).node) {
      assert FdAt(u, t, f) == FdAt(v, t, f);
    }
  }

  lemma LongWriteIsNot(v: Sys, t: int, f: int, data: string)
    requires Sound(v) && FilesLive(v) && FdAt(v, t, f).FileFd? && InReach(FdAt(v, t, f)) && data != ""
    requires WriteEnd(v, t, f, data) >= MAX_CONTENT
    ensures var (u, r) := WriteFile(v, t, f, data);
      !PlainStep(Abs(v), Written(Key(t, f), data, r), Abs(u))
  {
    hide SoundPipe, ContentsFit, Splice, WriteFile, Enter, Copy, Piece, SetFd, Handles;
    HandleAt(v, t, f);
    var d := FdAt(v, t, f);
    SpliceLength(v.fs.nodes[d.node].content, d.offset, data);
    WriteStaysSmall(v, t, f, data);
    var u := WriteFile(v, t, f, data).0;
    StillFile(v, t, f, data);
    assert |Contents(u.fs)[d.node]| <= MAX_CONTENT - 1;
    hide Contents;
  }

  lemma StillFile(v: Sys, t: int, f: int, data: string)
    requires Sound(v) && OnFile(v, t, f) && InReach(FdAt(v, t, f))
    ensures IsFile(WriteFile(v, t, f, data).0.fs, FdAt(v, t, f).node)
  {
    hide Splice, SoundPipe, ContentsFit;
  }

  // ------------------------------------------------------------------ seeking

  /** Where a seek goes before it is kept from going below zero. */
  function Target(v: Sys, t: int, f: int, offset: int, whence: Whence): int
    requires FdAt(v, t, f).FileFd?
  {
    var d := FdAt(v, t, f);
    offset + match whence
             case Set => 0
             case Cur => d.offset
             case End => if InPool(v.fs, d.node) then |v.fs.nodes[d.node].content| else 0
  }

  lemma SeekIsPlain(v: Sys, t: int, f: int, offset: int, whence: Whence)
    requires FilesLive(v) && FdAt(v, t, f).FileFd? && Target(v, t, f, offset, whence) < 0x8000_0000
    ensures var (u, pos) := Seek(v, t, f, offset, whence);
      PlainStep(Abs(v), Sought(Key(t, f), offset, whence, pos), Abs(u)) && FilesLive(u)
  {
    HandleAt(v, t, f);
    var d := FdAt(v, t, f);
    var to := Target(v, t, f, offset, whence);
    var pos: uint32 := if to < 0 then 0 else to;
    SeekIs(v, t, f, offset, whence);
    hide Contents, Handles, FilesLive, Seek, SetFd;
    MovedIs(v, t, f, pos);
  }

  lemma SeekIs(v: Sys, t: int, f: int, offset: int, whence: Whence)
    requires FdAt(v, t, f).FileFd? && Target(v, t, f, offset, whence) < 0x8000_0000
    ensures var to := Target(v, t, f, offset, whence);
      var pos: uint32 := if to < 0 then 0 else to;
      Seek(v, t, f, offset, whence) == (SetFd(v, t, f, FdAt(v, t, f).(offset := pos)), pos)
  {
    hide SetFd;
  }

  // ---------------------------------------------------- copying and closing

  lemma EndClosedSame(v: Sys, d: Fd)
    ensures EndClosed(v, d).fs == v.fs && EndClosed(v, d).tables == v.tables
  {
  }

  lemma SamePlain(v: Sys, u: Sys)
    requires v.fs == u.fs && v.tables == u.tables
    ensures Abs(v) == Abs(u) && (FilesLive(v) ==> FilesLive(u))
  {
    assert forall k :: IsHandle(v, k) == IsHandle(u, k) && FdAt(v, k.t, k.f) == FdAt(u, k.t, k.f);
    if FilesLive(v) {
      forall t, f | FdAt(u, t, f).FileFd? ensures IsFile(u.fs, FdAt(u, t, f).node) { assert FdAt(v, t, f).FileFd?; }
    }
  }

  lemma CloseAbs(v: Sys, t: int, f: int)
    requires FilesLive(v)
    ensures var u := Close(v, t, f).0;
      FilesLive(u) && Contents(u.fs) == Contents(v.fs) && Handles(u) == Handles(v) - {Key(t, f)}
  {
    var d := FdAt(v, t, f);
    if d == NoFd {
      FreeKey(v, t, f);
    } else {
      var e := EndClosed(v, d);
      EndClosedSame(v, d);
      SamePlain(v, e);
      SetFdHandles(e, t, f, NoFd);
      SetFdLive(e, t, f, NoFd);
      hide SetFd, EndClosed;
    }
    hide Contents, Handles, FilesLive;
  }

  lemma CloseIsPlain(v: Sys, t: int, f: int)
    requires FilesLive(v)
    ensures var u := Close(v, t, f).0;
      PlainStep(Abs(v), Closed(Key(t, f)), Abs(u)) && FilesLive(u)
  {
    hide Contents, Handles, FilesLive, Close, Splice, Piece, Enter, Put, Copy, Moved;
    CloseAbs(v, t, f);
  }

  lemma DupAbs(v: Sys, t: int, f: int)
    requires FilesLive(v) && Dup(v, t, f).1 >= 0
    ensures var (u, g) := Dup(v, t, f); FilesLive(u) && Abs(u) == Copy(Abs(v), Key(t, f), Key(t, g))
  {
    hide Contents, Handles, FilesLive, SetFd;
    var d := FdAt(v, t, f);
    var (u, g) := Dup(v, t, f);
    if d.FileFd? { HandleAt(v, t, f); }
    SetFdHandles(v, t, g, d);
    SetFdLive(v, t, g, d);
    SamePlain(SetFd(v, t, g, d), u);
    CopiedHandles(v, t, f, g);
    FreeKey(v, t, g);
  }

  lemma DupIsPlain(v: Sys, t: int, f: int)
    requires FilesLive(v)
    ensures var (u, g) := Dup(v, t, f);
      PlainStep(Abs(v), if g < 0 then Nothing else Copied(Key(t, f), Key(t, g)), Abs(u)) && FilesLive(u)
  {
    hide Contents, Handles, FilesLive, Splice, Piece, Enter, Put, Copy, Moved, SetFd;
    if Dup(v, t, f).1 >= 0 {
      hide Dup;
      DupAbs(v, t, f);
    }
  }

  lemma Dup2IsPlain(v: Sys, t: int, f: int, g: int)
    requires FilesLive(v)
    ensures var (u, r) := Dup2(v, t, f, g);
      PlainStep(Abs(v), if r < 0 then Nothing else Copied(Key(t, f), Key(t, g)), Abs(u)) && FilesLive(u)
  {
    hide Contents, Handles, FilesLive, Splice, Piece, Enter, Put, Copy, Moved, SetFd, Close;
    if Dup2(v, t, f, g).1 >= 0 {
      hide Dup2;
      Dup2Abs(v, t, f, g);
    }
  }

  lemma Dup2Abs(v: Sys, t: int, f: int, g: int)
    requires FilesLive(v) && Dup2(v, t, f, g).1 >= 0
    ensures var u := Dup2(v, t, f, g).0; FilesLive(u) && Abs(u) == Copy(Abs(v), Key(t, f), Key(t, g))
  {
    var closed := if FdAt(v, t, g) != NoFd then Close(v, t, g).0 else v;
    ClosedOne(v, t, g);
    CopiedHandles(v, t, f, g);
    OthersStay(v, t, g);
    var d := FdAt(closed, t, f);
    SetFdHandles(closed, t, g, d);
    SetFdLive(closed, t, g, d);
    hide Contents, Handles, FilesLive, Close, SetFd;
  }

  /** Closing what may be open. */
  lemma ClosedOne(v: Sys, t: int, g: int)
    requires FilesLive(v) && InTable(v, t, g)
    ensures var u := if FdAt(v, t, g) != NoFd then Close(v, t, g).0 else v;
      FilesLive(u) && Contents(u.fs) == Contents(v.fs) && Handles(u) == Handles(v) - {Key(t, g)}
  {
    CloseAbs(v, t, g);
    if FdAt(v, t, g) == NoFd { FreeKey(v, t, g); }
    hide FilesLive, Contents, Handles, Close;
  }

  lemma OthersStay(v: Sys, t: int, g: int)
    requires InTable(v, t, g)
    ensures var u := if FdAt(v, t, g) != NoFd then Close(v, t, g).0 else v;
      InTable(u, t, g) && forall f :: FdAt(u, t, f) == if f == g then NoFd else FdAt(v, t, f)
  {
  }

  lemma CopiedHandles(v: Sys, t: int, f: int, g: int)
    ensures FdAt(v, t, f).FileFd? <==> Key(t, f) in Handles(v)
    ensures Key(t, f) in Handles(v) ==> Handles(v)[Key(t, f)] == HandleOf(FdAt(v, t, f))
    ensures Key(t, f) in Handles(v) ==>
      (Handles(v) - {Key(t, g)})[Key(t, g) := Handles(v)[Key(t, f)]] == Handles(v)[Key(t, g) := Handles(v)[Key(t, f)]]
    ensures (Handles(v) - {Key(t, g)}) - {Key(t, g)} == Handles(v) - {Key(t, g)}
  {
  }

  // ------------------------------------------------------------------ opening

  lemma CreateMakes(fs: Fs, parent: int, name: string)
    ensures var (g, i) := Create(fs, parent, name, File);
      if i < 0 then g == fs
      else
        && !IsFile(fs, i) && IsFile(g, i) && g.nodes[i].content == ""
        && Contents(g) == Contents(fs)[i := ""]
        && forall j :: IsFile(fs, j) ==> IsFile(g, j)
  {
    hide FindIn;
  }

  lemma CreatePathMakes(fs: Fs, cwd: int, path: string)
    ensures var (g, i) := CreatePath(fs, cwd, path);
      if i < 0 then g == fs
      else
        && !IsFile(fs, i) && IsFile(g, i) && g.nodes[i].content == ""
        && Contents(g) == Contents(fs)[i := ""]
        && forall j :: IsFile(fs, j) ==> IsFile(g, j)
  {
    var slash := LastSlash(path);
    var absolute := path != "" && path[0] == '/';
    var parent := if absolute then (if slash > 0 then Resolve(fs, path[..Min(slash, 127)]) else 0) else cwd;
    CreateMakes(fs, parent, if absolute then path[slash + 1..] else path);
    hide Resolve, Create, Contents;
  }

  /** The file system after the look-up and creation of an open, and the node it arrived at. */
  function Looked(v: Sys, t: int, path: string, flags: Flags): (Fs, int)
    requires 0 <= t < |v.tables|
  {
    var found := Resolve(v.fs, path);
    if found < 0 && flags.creat then CreatePath(v.fs, v.tables[t].cwd, path) else (v.fs, found)
  }

  function OpenCall(v: Sys, t: int, path: string, flags: Flags): Call {
    var (u, r) := Open(v, t, path, flags);
    if r >= 0 then (if FdAt(u, t, r).FileFd? then Opened(Key(t, r), FdAt(u, t, r).node, flags) else Nothing)
    else if !(0 <= t < |v.tables|) || u == v then Nothing
    else Made(Looked(v, t, path, flags).1)
  }

  /** What is opened is the file the path leads to, or if it leads nowhere and O_CREAT is set, a file that was not there. */
  predicate Enters(v: Sys, path: string, flags: Flags, c: Call) {
    c.Opened? ==>
      if Resolve(v.fs, path) >= 0 then c.file == Resolve(v.fs, path) else flags.creat && !IsFile(v.fs, c.file)
  }

  lemma OpenIsPlain(v: Sys, t: int, path: string, flags: Flags)
    requires Sound(v) && FilesLive(v) && OneTree(v.fs)
    ensures PlainStep(Abs(v), OpenCall(v, t, path, flags), Abs(Open(v, t, path, flags).0))
    ensures Enters(v, path, flags, OpenCall(v, t, path, flags))
    ensures FilesLive(Open(v, t, path, flags).0)
  {
    if !(0 <= t < |v.tables|) || !v.tables[t].inUse { return; }
    var g: int := FirstFree(v.tables[t].fds, 0);
    if path == "/dev/null" {
      if g < |v.tables[t].fds| {
        SetFdHandles(v, t, g, NullFd);
        SetFdLive(v, t, g, NullFd);
        FreeKey(v, t, g);
      }
      hide Contents, Handles, FilesLive, Resolve, CreatePath, SetFd, Ramfs.Write;
      assert OpenCall(v, t, path, flags) == Nothing || !InTable(v, t, g) by { NullCall(v, t, flags); }
      return;
    }
    OpenFile(v, t, path, flags);
    hide Contents, Handles, FilesLive, Open, OpenCall, Enters;
  }

  lemma NullCall(v: Sys, t: int, flags: Flags)
    ensures OpenCall(v, t, "/dev/null", flags) == Nothing
  {
    hide Resolve, CreatePath, Ramfs.Write;
  }

  lemma FreeKey(v: Sys, t: int, g: int)
    requires FdAt(v, t, g) == NoFd
    ensures Key(t, g) !in Handles(v) && Handles(v) - {Key(t, g)} == Handles(v)
  {
  }

  lemma OpenFile(v: Sys, t: int, path: string, flags: Flags)
    requires Sound(v) && FilesLive(v) && OneTree(v.fs) && 0 <= t < |v.tables| && v.tables[t].inUse && path != "/dev/null"
    ensures PlainStep(Abs(v), OpenCall(v, t, path, flags), Abs(Open(v, t, path, flags).0))
    ensures Enters(v, path, flags, OpenCall(v, t, path, flags))
    ensures FilesLive(Open(v, t, path, flags).0)
  {
    hide Contents, Handles, FilesLive, Open, Looked, SetFd, Ramfs.Write, Opening, OneTree, Resolve, Splice, Piece, Put, Copy, Moved, Enter;
    OpenSplits(v, t, path, flags);
    LookedAt(v, t, path, flags);
    var g: int := FirstFree(v.tables[t].fds, 0);
    var (fs, i) := Looked(v, t, path, flags);
    SameHandles(v, fs);
    hide Sound;
    if i >= 0 && !IsDir(fs, i) && g < |v.tables[t].fds| { Entered(v, fs, t, g, i, flags); }
  }

  lemma FdSet(v: Sys, t: int, f: int, d: Fd)
    requires InTable(v, t, f)
    ensures FdAt(SetFd(v, t, f, d), t, f) == d
  {
  }

  lemma Entered(v: Sys, fs: Fs, t: int, g: int, i: int, flags: Flags)
    requires FilesLive(v.(fs := fs)) && IsFile(fs, i) && InTable(v, t, g) && FdAt(v, t, g) == NoFd && ContentsFit(fs)
    requires Contents(fs) == Files(Abs(v), i)
    ensures var u := Opening(v.(fs := fs), t, g, i, flags);
      && FilesLive(u) && FdAt(u, t, g).FileFd? && FdAt(u, t, g).node == i
      && Key(t, g) !in Handles(v) && Abs(u) == Enter(Abs(v), Key(t, g), i, flags)
  {
    var made := v.(fs := fs);
    assert fs.nodes[i] in fs.nodes;
    SameHandles(v, fs);
    FreeKey(v, t, g);
    assert Contents(fs)[i] == fs.nodes[i].content;
    if flags.trunc {
      var w := made.(fs := Ramfs.Write(fs, i, "").0);
      WriteContents(fs, i, "");
      ContentLive(made, i, "");
      assert w == Rewritten(made, i, "") by { assert ""[..0] == ""; }
      SameHandles(made, w.fs);
      SetFdHandles(w, t, g, FileFd(i, 0, flags.append));
      SetFdLive(w, t, g, FileFd(i, 0, flags.append));
      FdSet(w, t, g, FileFd(i, 0, flags.append));
      TwiceEmpty(Abs(v).files, i);
    } else {
      var size: uint32 := |fs.nodes[i].content|;
      SetFdHandles(made, t, g, FileFd(i, if flags.append then size else 0, flags.append));
      SetFdLive(made, t, g, FileFd(i, if flags.append then size else 0, flags.append));
      FdSet(made, t, g, FileFd(i, if flags.append then size else 0, flags.append));
    }
    hide Contents, Handles, FilesLive, SetFd;
  }

  lemma TwiceEmpty(m: imap<int, string>, i: int)
    ensures m[i := ""][i := ""] == m[i := ""]
  {
  }

  /** The descriptor an open enters, and the file truncated if asked. */
  function Opening(v: Sys, t: int, g: int, i: int, flags: Flags): Sys
    requires InTable(v, t, g)
  {
    if flags.trunc then SetFd(v.(fs := Ramfs.Write(v.fs, i, "").0), t, g, FileFd(i, 0, flags.append))
    else
      var size: uint32 := if InPool(v.fs, i) && |v.fs.nodes[i].content| < MAX_CONTENT then |v.fs.nodes[i].content| else 0;
      SetFd(v, t, g, FileFd(i, if flags.append then size else 0, flags.append))
  }

  lemma OpenSplits(v: Sys, t: int, path: string, flags: Flags)
    requires 0 <= t < |v.tables| && v.tables[t].inUse && path != "/dev/null"
    ensures var g: int := FirstFree(v.tables[t].fds, 0);
      var (fs, i) := Looked(v, t, path, flags);
      Open(v, t, path, flags) ==
        if i < 0 || IsDir(fs, i) || g == |v.tables[t].fds| then (v.(fs := fs), -1)
        else (Opening(v.(fs := fs), t, g, i, flags), g)
  {
    hide Resolve, CreatePath, SetFd, Ramfs.Write;
  }

  ghost predicate OneTree(fs: Fs) {
    exists depth :: Tree(fs, depth)
  }

  /** What the look-up of an open comes to: a file found, or one new empty file. */
  lemma LookedAt(v: Sys, t: int, path: string, flags: Flags)
    requires FilesLive(v) && OneTree(v.fs) && ContentsFit(v.fs) && |v.fs.nodes| == MAX_NODES && 0 <= t < |v.tables|
    ensures var (fs, i) := Looked(v, t, path, flags);
      && FilesLive(v.(fs := fs)) && ContentsFit(fs)
      && (i >= 0 && !IsDir(fs, i) ==> IsFile(fs, i) && Contents(fs) == Files(Abs(v), i))
      && (if Resolve(v.fs, path) >= 0 then i == Resolve(v.fs, path) else i >= 0 ==> flags.creat && !IsFile(v.fs, i))
      && (fs != v.fs ==> i >= 0 && i !in Contents(v.fs) && Contents(fs) == Contents(v.fs)[i := ""])
  {
    CreatePathMakes(v.fs, v.tables[t].cwd, path);
    CreatePathKeepsFit(v.fs, v.tables[t].cwd, path);
    FoundIsThere(v.fs, path);
    var (fs, i) := Looked(v, t, path, flags);
    forall t', f | FdAt(v.(fs := fs), t', f).FileFd? ensures IsFile(fs, FdAt(v.(fs := fs), t', f).node) {
      assert FdAt(v.(fs := fs), t', f) == FdAt(v, t', f);
    }
    hide Resolve, CreatePath, OneTree, ContentsFit;
  }

  lemma FoundIsThere(fs: Fs, path: string)
    requires OneTree(fs)
    ensures Resolve(fs, path) >= 0 ==> InPool(fs, Resolve(fs, path))
  {
    var depth :| Tree(fs, depth);
    if Resolve(fs, path) > 0 { WalkIsNoDeeper(fs, depth, Split(path[1..])); }
    hide AllPlaced, AllList, Walk;
  }

  // --------------------------------------------------------- any call, any run

  /** Files are in one tree and in shape, and descriptors of files are of files that are there. */
  ghost predicate Ready(v: Sys) {
    Sound(v) && FilesLive(v) && OneTree(v.fs)
  }

  /** A write to a file ends within what a file can hold, a seek within 31 bits. */
  predicate Fits(v: Sys, e: Event) {
    match e
    case WriteE(t, f, data) => FdAt(v, t, f).FileFd? ==> WriteEnd(v, t, f, data) <= MAX_CONTENT - 1
    case SeekE(t, f, offset, whence) => FdAt(v, t, f).FileFd? ==> Target(v, t, f, offset, whence) < 0x8000_0000
    case _ => true
  }

  lemma FitsIsEnabled(v: Sys, e: Event)
    requires Fits(v, e)
    ensures Enabled(v, e)
  {
  }

  /** What the kernel's call was for the files. */
  function CallOf(v: Sys, e: Event): Call
    requires Sound(v) && Enabled(v, e)
  {
    match e
    case OpenE(t, path, flags) => OpenCall(v, t, path, flags)
    case WriteE(t, f, data) =>
      if FdAt(v, t, f).FileFd? then Written(Key(t, f), data, Vfs.Write(v, t, f, data).1) else Nothing
    case ReadE(t, f, count) =>
      if FdAt(v, t, f).FileFd? then ReadOut(Key(t, f), count, Read(v, t, f, count).1) else Nothing
    case SeekE(t, f, offset, whence) =>
      if FdAt(v, t, f).FileFd? then Sought(Key(t, f), offset, whence, Seek(v, t, f, offset, whence).1) else Nothing
    case DupE(t, f) => if Dup(v, t, f).1 < 0 then Nothing else Copied(Key(t, f), Key(t, Dup(v, t, f).1))
    case Dup2E(t, f, g) => if Dup2(v, t, f, g).1 < 0 then Nothing else Copied(Key(t, f), Key(t, g))
    case CloseE(t, f) => Closed(Key(t, f))
    case PipeE(_) => Nothing
  }

  lemma PipeIsPlain(v: Sys, t: int)
    requires FilesLive(v)
    ensures var u := MakePipe(v, t).0; Abs(u) == Abs(v) && FilesLive(u)
  {
    if MakePipe(v, t).1 >= 0 {
      var (u, r, w) := MakePipe(v, t);
      var one := SetFd(v, t, r, PipeRead(v.pipeCount));
      var two := SetFd(one, t, w, PipeWrite(v.pipeCount));
      assert two.tables == u.tables;
      hide Contents, Handles, FilesLive;
      FreeKey(v, t, r);
      SetFdHandles(v, t, r, PipeRead(v.pipeCount));
      SetFdLive(v, t, r, PipeRead(v.pipeCount));
      FreeKey(one, t, w);
      SetFdHandles(one, t, w, PipeWrite(v.pipeCount));
      SetFdLive(one, t, w, PipeWrite(v.pipeCount));
      SamePlain(two, u);
    }
  }

  lemma OtherSeek(v: Sys, t: int, f: int, offset: int, whence: Whence)
    requires !FdAt(v, t, f).FileFd?
    ensures Seek(v, t, f, offset, whence).0 == v
  {
  }

  lemma OtherWrite(v: Sys, t: int, f: int, data: string)
    requires Sound(v) && FilesLive(v) && !FdAt(v, t, f).FileFd?
    ensures var u := Vfs.Write(v, t, f, data).0; Abs(u) == Abs(v) && FilesLive(u)
  {
    SamePlain(v, Vfs.Write(v, t, f, data).0);
    hide Contents, Handles, FilesLive, Sound, WritePipe;
  }

  lemma OtherRead(v: Sys, t: int, f: int, count: uint32)
    requires Sound(v) && FilesLive(v) && !FdAt(v, t, f).FileFd?
    ensures var u := Read(v, t, f, count).0; Abs(u) == Abs(v) && FilesLive(u)
  {
    SamePlain(v, Read(v, t, f, count).0);
    hide Contents, Handles, FilesLive, Sound, ReadPipe;
  }

  /** Every call that fits is the plain machine's call, result included. */
  lemma StepIsPlain(w: World, e: Event)
    requires Ready(w.v) && Fits(w.v, e)
    ensures Enabled(w.v, e)
    ensures PlainStep(Abs(w.v), CallOf(w.v, e), Abs(Step(w, e).v)) && FilesLive(Step(w, e).v)
  {
    FitsIsEnabled(w.v, e);
    hide Contents, Handles, FilesLive, Sound, OneTree, Splice, Piece, Enter, Put, Copy, Moved, WriteEnd, Target, InReach;
    hide Open, OpenCall, Vfs.Write, Read, Seek, Dup, Dup2, Close, MakePipe, SetFd;
    var v := w.v;
    match e
    case OpenE(t, path, flags) => OpenIsPlain(v, t, path, flags);
    case WriteE(t, f, data) => FileWrite(v, t, f, data);
    case ReadE(t, f, count) => FileRead(v, t, f, count);
    case SeekE(t, f, offset, whence) =>
      if FdAt(v, t, f).FileFd? { SeekIsPlain(v, t, f, offset, whence); } else { OtherSeek(v, t, f, offset, whence); }
    case DupE(t, f) => DupIsPlain(v, t, f);
    case Dup2E(t, f, g) => Dup2IsPlain(v, t, f, g);
    case CloseE(t, f) => CloseIsPlain(v, t, f);
    case PipeE(t) => PipeIsPlain(v, t);
  }

  lemma FileWrite(v: Sys, t: int, f: int, data: string)
    requires Sound(v) && FilesLive(v) && Fits(v, WriteE(t, f, data)) && InReach(FdAt(v, t, f))
    ensures var u := Vfs.Write(v, t, f, data).0;
      FilesLive(u) && PlainStep(Abs(v), CallOf(v, WriteE(t, f, data)), Abs(u))
  {
    hide Contents, Handles, FilesLive, Sound, Splice, Piece, Enter, Put, Copy, Moved, WriteEnd, InReach, SetFd, WriteFile, WritePipe;
    if FdAt(v, t, f).FileFd? { ShortWriteIsPlain(v, t, f, data); } else { OtherWrite(v, t, f, data); hide Vfs.Write; }
  }

  lemma FileRead(v: Sys, t: int, f: int, count: uint32)
    requires Sound(v) && FilesLive(v)
    ensures var u := Read(v, t, f, count).0;
      FilesLive(u) && PlainStep(Abs(v), CallOf(v, ReadE(t, f, count)), Abs(u))
  {
    hide Contents, Handles, FilesLive, Sound, Splice, Piece, Enter, Put, Copy, Moved, SetFd, ReadFile, ReadPipe;
    if FdAt(v, t, f).FileFd? { ReadIsPlain(v, t, f, count); } else { OtherRead(v, t, f, count); hide Read; }
  }

  // ------------------------------------------------------ paths over any run

  /** The pools have the same tree and names, and any contents. */
  predicate SameShape(fs: Fs, g: Fs) {
    && |fs.nodes| == |g.nodes| && fs.count == g.count
    && forall i :: 0 <= i < |fs.nodes| ==> g.nodes[i] == fs.nodes[i].(content := g.nodes[i].content)
  }

  lemma {:induction false} FindInSameShape(fs: Fs, g: Fs, list: seq<int>, name: string)
    requires SameShape(fs, g)
    ensures FindIn(g.nodes, list, name) == FindIn(fs.nodes, list, name)
  {
    if list != [] { FindInSameShape(fs, g, list[1..], name); }
  }

  lemma {:induction false} WalkSameShape(fs: Fs, g: Fs, parts: seq<string>)
    requires SameShape(fs, g)
    ensures Walk(g, parts) == Walk(fs, parts)
  {
    if parts != [] {
      var init, last := parts[..|parts| - 1], parts[|parts| - 1];
      WalkSameShape(fs, g, init);
      var m := Walk(fs, init);
      if 0 <= m < |fs.nodes| { FindInSameShape(fs, g, fs.nodes[m].children, Short(last)); }
      hide FindIn, Short;
    }
  }

  /** What a call may do to the tree of files: nothing, or one file more. */
  ghost predicate Grows(fs: Fs, g: Fs) {
    || SameShape(fs, g)
    || exists parent, name :: Create(fs, parent, name, File).1 >= 0 && SameShape(Create(fs, parent, name, File).0, g)
  }

  lemma SameShapeKeepsTree(fs: Fs, depth: seq<nat>, g: Fs)
    requires Tree(fs, depth) && SameShape(fs, g)
    ensures Tree(g, depth)
  {
    CountSameShape(fs.nodes, g.nodes);
    forall c | 0 < c < MAX_NODES && g.nodes[c].inUse ensures Placed(g.nodes, depth, c) {
      assert Placed(fs.nodes, depth, c);
    }
    forall q | 0 <= q < MAX_NODES && g.nodes[q].inUse ensures Lists(g.nodes, q) {
      assert Lists(fs.nodes, q);
    }
  }

  lemma {:induction false} CountSameShape(nodes: seq<Node>, nodes': seq<Node>)
    requires |nodes| == |nodes'| && forall i :: 0 <= i < |nodes| ==> nodes'[i].inUse == nodes[i].inUse
    ensures CountLive(nodes') == CountLive(nodes)
  {
    if nodes != [] { CountSameShape(nodes[1..], nodes'[1..]); }
  }

  lemma GrowsKeepsTree(fs: Fs, g: Fs)
    requires OneTree(fs) && Grows(fs, g)
    ensures OneTree(g)
  {
    var depth :| Tree(fs, depth);
    hide Tree, SameShape, Create;
    if SameShape(fs, g) {
      SameShapeKeepsTree(fs, depth, g);
    } else {
      var parent, name :| Create(fs, parent, name, File).1 >= 0 && SameShape(Create(fs, parent, name, File).0, g);
      var d := CreateKeepsTree(fs, depth, parent, name, File);
      SameShapeKeepsTree(Create(fs, parent, name, File).0, d, g);
    }
  }

  lemma GrowsKeepsPath(fs: Fs, g: Fs, path: string)
    requires OneTree(fs) && Grows(fs, g) && Resolve(fs, path) >= 0
    ensures Resolve(g, path) == Resolve(fs, path)
  {
    var depth :| Tree(fs, depth);
    hide Tree, SameShape, Create, Walk, Split;
    var parts := if path == "" then [] else Split(path[1..]);
    if SameShape(fs, g) {
      WalkSameShape(fs, g, parts);
    } else {
      var parent, name :| Create(fs, parent, name, File).1 >= 0 && SameShape(Create(fs, parent, name, File).0, g);
      if path != "/" {
        WalkSurvives(fs, depth, parent, name, parts);
        WalkSameShape(Create(fs, parent, name, File).0, g, parts);
      }
    }
  }

  lemma CreateGrows(fs: Fs, parent: int, name: string)
    ensures Grows(fs, Create(fs, parent, name, File).0)
  {
    var g := Create(fs, parent, name, File).0;
    assert SameShape(fs, fs) && SameShape(g, g);
    if Create(fs, parent, name, File).1 < 0 { assert g == fs; }
    hide FindIn;
  }

  lemma CreatePathGrows(fs: Fs, cwd: int, path: string)
    ensures Grows(fs, CreatePath(fs, cwd, path).0)
  {
    hide Resolve, Create, Grows;
    var slash := LastSlash(path);
    var absolute := path != "" && path[0] == '/';
    CreateGrows(fs, if absolute then (if slash > 0 then Resolve(fs, path[..Min(slash, 127)]) else 0) else cwd,
                if absolute then path[slash + 1..] else path);
    SelfGrows(fs);
  }

  lemma EmptiedGrows(fs: Fs, g: Fs, i: int)
    requires Grows(fs, g)
    ensures Grows(fs, Ramfs.Write(g, i, "").0)
  {
    hide Create;
    if !SameShape(fs, g) {
      var parent, name :| Create(fs, parent, name, File).1 >= 0 && SameShape(Create(fs, parent, name, File).0, g);
      assert SameShape(Create(fs, parent, name, File).0, Ramfs.Write(g, i, "").0);
    }
  }

  lemma OpenGrows(v: Sys, t: int, path: string, flags: Flags)
    ensures Grows(v.fs, Open(v, t, path, flags).0.fs)
  {
    hide Grows, Resolve, CreatePath, Ramfs.Write, IsDir;
    assert Grows(v.fs, v.fs) by { SelfGrows(v.fs); }
    if 0 <= t < |v.tables| {
      CreatePathGrows(v.fs, v.tables[t].cwd, path);
      var found := Resolve(v.fs, path);
      var (fs, node) := if found < 0 && flags.creat then CreatePath(v.fs, v.tables[t].cwd, path) else (v.fs, found);
      EmptiedGrows(v.fs, fs, node);
    }
  }

  lemma SelfGrows(fs: Fs)
    ensures Grows(fs, fs)
  {
    assert SameShape(fs, fs);
  }

  lemma WriteGrows(v: Sys, t: int, f: int, data: string)
    requires Sound(v) && InReach(FdAt(v, t, f))
    ensures Grows(v.fs, Vfs.Write(v, t, f, data).0.fs)
  {
    hide Splice, WritePipe, SoundPipe;
    assert SameShape(v.fs, Vfs.Write(v, t, f, data).0.fs);
  }

  lemma StepGrows(w: World, e: Event)
    requires Sound(w.v) && Enabled(w.v, e)
    ensures Grows(w.v.fs, Step(w, e).v.fs)
  {
    SelfGrows(w.v.fs);
    hide Grows, Sound, Open, Vfs.Write, ReadPipe;
    if e.OpenE? { OpenGrows(w.v, e.t, e.path, e.flags); }
    else if e.WriteE? { WriteGrows(w.v, e.t, e.f, e.data); }
  }

  // ----------------------------------------------------------- main results

  /** The calls lead from w to x, and every one of them fits. */
  ghost predicate FittingRun(w: World, events: seq<Event>, x: World)
    decreases |events|
  {
    if events == [] then x == w
    else Sound(w.v) && Fits(w.v, events[0]) && Enabled(w.v, events[0]) && FittingRun(Step(w, events[0]), events[1..], x)
  }

  /** What those calls were for the files, results included. */
  ghost function Calls(w: World, events: seq<Event>): seq<Call>
    decreases |events|
  {
    if events == [] || !Sound(w.v) || !Enabled(w.v, events[0]) then []
    else [CallOf(w.v, events[0])] + Calls(Step(w, events[0]), events[1..])
  }

  /** The plain machine makes these calls one after the other. */
  ghost predicate PlainRun(p: Plain, calls: seq<Call>, q: Plain)
    decreases |calls|
  {
    if calls == [] then q == p
    else exists m :: PlainStep(p, calls[0], m) && PlainRun(m, calls[1..], q)
  }

  /** The kernel starts ready: an empty file system and no descriptor of a file. */
  lemma StartIsReady(v: Sys)
    requires Sound(v) && v.fs == Empty() && forall t, f :: !FdAt(v, t, f).FileFd?
    ensures Ready(v)
  {
    EmptyIsTree();
    hide Sound, Tree;
  }

  lemma StepKeepsReady(w: World, e: Event)
    requires Ready(w.v) && Fits(w.v, e) && Enabled(w.v, e)
    ensures Ready(Step(w, e).v)
  {
    hide Sound, FilesLive, OneTree, Grows, Step, Fits, Enabled, CallOf;
    StepIsPlain(w, e);
    Vfs.StepKeepsSound(w, e);
    StepGrows(w, e);
    GrowsKeepsTree(w.v.fs, Step(w, e).v.fs);
  }

  /**
   Any run of open, read, write, seek, dup and close through any number of
   descriptors is, bytes read and results included, a run of the plain machine:
   files are byte sequences, every descriptor has its own offset, writes splice
   or append, gaps read as zeros. All that is asked is that every write ends
   within the 2047 bytes of a file.
   */
  lemma {:induction false} RunIsPlain(w: World, events: seq<Event>, x: World)
    requires Ready(w.v) && FittingRun(w, events, x)
    ensures Ready(x.v) && PlainRun(Abs(w.v), Calls(w, events), Abs(x.v))
    decreases |events|
  {
    if events != [] {
      var e := events[0];
      var m := Step(w, e);
      StepIsPlain(w, e);
      StepKeepsReady(w, e);
      hide Sound, Step, Fits, Enabled, CallOf, PlainStep, Abs, FilesLive, OneTree, Ready;
      RunIsPlain(m, events[1..], x);
      var calls := Calls(w, events);
      assert calls[0] == CallOf(w.v, e) && calls[1..] == Calls(m, events[1..]);
    }
  }

  /** Over such a run a path keeps leading to the file it led to, so opening it again opens the same bytes. */
  lemma {:induction false} RunKeepsPaths(w: World, events: seq<Event>, x: World, path: string)
    requires Ready(w.v) && FittingRun(w, events, x) && Resolve(w.v.fs, path) >= 0
    ensures Resolve(x.v.fs, path) == Resolve(w.v.fs, path)
    decreases |events|
  {
    if events != [] {
      var e := events[0];
      StepKeepsReady(w, e);
      StepGrows(w, e);
      GrowsKeepsPath(w.v.fs, Step(w, e).v.fs, path);
      hide Sound, Step, Fits, Enabled, FilesLive, OneTree, Ready, Grows, Resolve;
      RunKeepsPaths(Step(w, e), events[1..], x, path);
    }
  }

  /** A file made under this path can be found under it. */
  predicate Findable(path: string) {
    && path != "" && path[0] == '/' && LastSlash(path) < 127
    && Good(path[LastSlash(path) + 1..]) && |path[LastSlash(path) + 1..]| <= MAX_NAME - 1
  }

  lemma LookedLeadsThere(v: Sys, t: int, path: string, flags: Flags)
    requires OneTree(v.fs) && 0 <= t < |v.tables| && (Resolve(v.fs, path) >= 0 || Findable(path))
    requires Looked(v, t, path, flags).1 >= 0
    ensures var (fs, i) := Looked(v, t, path, flags); OneTree(fs) && Resolve(fs, path) == i
  {
    if Resolve(v.fs, path) < 0 {
      var depth :| Tree(v.fs, depth);
      CreatedPathResolves(v.fs, depth, v.tables[t].cwd, path);
      CreatePathGrows(v.fs, v.tables[t].cwd, path);
      GrowsKeepsTree(v.fs, CreatePath(v.fs, v.tables[t].cwd, path).0);
    }
    hide Tree, Resolve, CreatePath, Grows;
  }

  lemma OpeningFs(v: Sys, t: int, g: int, i: int, flags: Flags)
    requires InTable(v, t, g)
    ensures Grows(v.fs, Opening(v, t, g, i, flags).fs)
  {
    SelfGrows(v.fs);
    EmptiedGrows(v.fs, v.fs, i);
    hide Grows, Ramfs.Write;
  }

  /** After an open the path leads to the file opened, if it led to it before or can be found. */
  lemma OpenedPathLeadsThere(v: Sys, t: int, path: string, flags: Flags)
    requires Ready(v) && OpenCall(v, t, path, flags).Opened? && (Resolve(v.fs, path) >= 0 || Findable(path))
    ensures Resolve(Open(v, t, path, flags).0.fs, path) == OpenCall(v, t, path, flags).file
  {
    hide Sound, FilesLive, OneTree, Resolve, Findable, SetFd, Opening, Grows, Looked, Ramfs.Write;
    if path == "/dev/null" { NullCall(v, t, flags); return; }
    OpenSplits(v, t, path, flags);
    hide Open;
    var g: int := FirstFree(v.tables[t].fds, 0);
    var (fs, i) := Looked(v, t, path, flags);
    LookedLeadsThere(v, t, path, flags);
    OpeningFs(v.(fs := fs), t, g, i, flags);
    GrowsKeepsPath(fs, Opening(v.(fs := fs), t, g, i, flags).fs, path);
    OpenedNode(v.(fs := fs), t, g, i, flags);
  }

  lemma OpenedNode(v: Sys, t: int, g: int, i: int, flags: Flags)
    requires InTable(v, t, g)
    ensures var d := FdAt(Opening(v, t, g, i, flags), t, g); d.FileFd? && d.node == i
  {
    hide Ramfs.Write;
  }

  /**
   A file once opened under a path is what opens under it ever after: any run
   later, through whatever table, opening the path enters the same file.
   */
  lemma ReopenOpensSameFile(w: World, t: int, path: string, flags: Flags, events: seq<Event>, x: World, t': int, flags': Flags)
    requires Ready(w.v) && OpenCall(w.v, t, path, flags).Opened? && (Resolve(w.v.fs, path) >= 0 || Findable(path))
    requires FittingRun(Step(w, OpenE(t, path, flags)), events, x) && OpenCall(x.v, t', path, flags').Opened?
    ensures OpenCall(x.v, t', path, flags').file == OpenCall(w.v, t, path, flags).file
  {
    var m := Step(w, OpenE(t, path, flags));
    OpenedPathLeadsThere(w.v, t, path, flags);
    StepKeepsReady(w, OpenE(t, path, flags));
    FileIndex(w.v, t, path, flags);
    hide FittingRun, OpenCall, Open, Resolve, Findable, Ready;
    RunKeepsPaths(m, events, x, path);
    RunIsPlain(m, events, x);
    Reentered(x.v, t', path, flags');
  }

  lemma FileIndex(v: Sys, t: int, path: string, flags: Flags)
    requires Ready(v) && OpenCall(v, t, path, flags).Opened?
    ensures OpenCall(v, t, path, flags).file >= 0
  {
    hide Sound, OneTree, Resolve, SetFd, Opening, Looked, Ramfs.Write, FilesLive;
    if path == "/dev/null" { NullCall(v, t, flags); return; }
    OpenSplits(v, t, path, flags);
    hide Open;
    var (fs, i) := Looked(v, t, path, flags);
    OpenedNode(v.(fs := fs), t, FirstFree(v.tables[t].fds, 0), i, flags);
  }

  lemma Reentered(v: Sys, t: int, path: string, flags: Flags)
    requires Ready(v) && OpenCall(v, t, path, flags).Opened? && Resolve(v.fs, path) >= 0
    ensures OpenCall(v, t, path, flags).file == Resolve(v.fs, path)
  {
    OpenIsPlain(v, t, path, flags);
    hide Sound, FilesLive, OneTree, OpenCall, Abs, PlainStep, Resolve;
  }
}
