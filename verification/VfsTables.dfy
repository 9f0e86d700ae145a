/**
 The descriptor tables and pipes as the kernel keeps them, over the inode pool.
 Every method is proved equal to the call of module Vfs that it implements.
 */
module VfsTables {
  import opened Words
  import opened Ramfs
  import opened RamfsPaths
  import opened RamfsPool
  import Rings
  import V = Vfs

  class Tables {
    const pool: Pool
    const tables: array<V.Table>
    const pipes: array<V.Pipe>
    var pipeCount: nat

    ghost const Repr: set<object> := {this, tables, pipes, pool, pool.nodes}

    ghost predicate Valid() reads this, tables, pipes, pool, pool.nodes {
      pool.Valid() && V.Sound(Abs())
    }

    ghost function Abs(): V.Sys
      requires pool.Valid()
      reads this, tables, pipes, pool, pool.nodes
    {
      V.Sys(pool.Abs(), tables[..], pipes[..], pipeCount)
    }

    /** After vfs_init: no table in use, no pipe made. */
    constructor (pool: Pool)
      requires pool.Valid()
      ensures Valid() && this.pool == pool && fresh(tables) && fresh(pipes)
      ensures pipeCount == 0 && forall t, f :: V.FdAt(Abs(), t, f) == V.NoFd
    {
      this.pool := pool;
      tables := new V.Table[V.MAX_TASKS](_ => V.Table(seq(V.MAX_FD, _ => V.NoFd), 0, false));
      pipes := new V.Pipe[V.MAX_PIPES](_ => V.Pipe(seq(V.PIPE_BUF, _ => '\0'), 0, 0, 0, false, false));
      pipeCount := 0;
      new;
      pool.NamesAndContentsFit();
    }

    predicate InTable(t: int, f: int) reads tables {
      0 <= t < tables.Length && 0 <= f < |tables[t].fds|
    }

    /** Puts a descriptor into its slot. */
    method Put(t: int, f: int, d: V.Fd)
      requires pool.Valid() && InTable(t, f)
      modifies tables
      ensures pool.Valid() && Abs() == V.SetFd(old(Abs()), t, f, d)
    {
      ghost var was := tables[..];
      tables[t] := tables[t].(fds := tables[t].fds[f := d]);
      assert tables[..] == was[t := was[t].(fds := was[t].fds[f := d])];
    }

    method FindFreeFd(t: nat) returns (f: int)
      requires t < tables.Length
      ensures var free := V.FirstFree(tables[t].fds, 0);
        f == if free == |tables[t].fds| then -1 else free
    {
      f := 0;
      while f < |tables[t].fds|
        invariant 0 <= f <= |tables[t].fds| && V.FirstFree(tables[t].fds, 0) == V.FirstFree(tables[t].fds, f)
      {
        if tables[t].fds[f] == V.NoFd { return; }
        f := f + 1;
      }
      f := -1;
    }

    /** The work buffer of a file write: the existing bytes, zeros up to the offset, and the data over them. */
    method Spliced(existing: string, at: nat, data: string) returns (whole: string)
      requires |existing| <= MAX_CONTENT - 1 && at + |data| <= MAX_CONTENT
      ensures whole == V.Splice(existing, at, data)
    {
      var buffer := new char[MAX_CONTENT](i => if 0 <= i < |existing| then existing[i] else '?');
      var i := |existing|;
      while i < at
        invariant |existing| <= i && (i <= at || i == |existing|)
        invariant forall k :: 0 <= k < |existing| ==> buffer[k] == existing[k]
        invariant forall k :: |existing| <= k < i ==> buffer[k] == '\0'
      {
        buffer[i] := '\0';
        i := i + 1;
      }
      i := 0;
      while i < |data|
        invariant 0 <= i <= |data|
        invariant forall k :: 0 <= k < i ==> buffer[at + k] == data[k]
        invariant forall k :: 0 <= k < at && k < |existing| ==> buffer[k] == existing[k]
        invariant forall k :: at + i <= k < |existing| ==> buffer[k] == existing[k]
        invariant forall k :: |existing| <= k < at ==> buffer[k] == '\0'
      {
        buffer[at + i] := data[i];
        i := i + 1;
      }
      var size := if at + |data| > |existing| then at + |data| else |existing|;
      whole := buffer[..size];
      assert whole == V.Splice(existing, at, data);
    }

    method WriteFile(t: int, f: int, data: string) returns (r: int)
      requires Valid() && InTable(t, f) && tables[t].fds[f].FileFd? && V.InReach(tables[t].fds[f])
      modifies this, tables, pool.nodes
      ensures pool.Valid() && (Abs(), r) == V.WriteFile(old(Abs()), t, f, data)
    {
      hide V.Splice, ContentsFit;
      ghost var v := Abs();
      var d := tables[t].fds[f];
      var existing, got := pool.Read(d.node, MAX_CONTENT);
      ExistingIsShort(v, d.node);
      if d.append {
        var count := if |existing| + |data| > MAX_CONTENT then MAX_CONTENT - |existing| else |data|;
        r := pool.Append(d.node, data[..count]);
      } else {
        var count := V.Taken(d.offset, |data|);
        var whole := Spliced(existing, d.offset, data[..count]);
        var _ := pool.Write(d.node, whole);
        Put(t, f, d.(offset := Add32(d.offset, count)));
        r := count;
      }
    }

    lemma ExistingIsShort(v: V.Sys, i: int)
      requires V.Sound(v)
      ensures |V.Existing(v.fs, i)| <= MAX_CONTENT - 1
      ensures Clip(V.Existing(v.fs, i), MAX_CONTENT) == V.Existing(v.fs, i)
    {
      if IsFile(v.fs, i) { assert v.fs.nodes[i] in v.fs.nodes; }
    }

    method ReadFile(t: int, f: int, count: uint32) returns (data: string, r: int)
      requires Valid() && InTable(t, f) && tables[t].fds[f].FileFd?
      modifies tables
      ensures pool.Valid() && (Abs(), data, r) == V.ReadFile(old(Abs()), t, f, count)
    {
      var d := tables[t].fds[f];
      var content, len := pool.Read(d.node, MAX_CONTENT);
      ExistingIsShort(Abs(), d.node);
      if len < 0 { return "", -1; }
      if d.offset >= len { return "", 0; }
      var n := Min(count, len - d.offset);
      data := "";
      while |data| < n
        invariant |data| <= n && data == content[d.offset..d.offset + |data|]
      {
        data := data + [content[d.offset + |data|]];
      }
      if n > 0 { Put(t, f, d.(offset := Add32(d.offset, n))); }
      r := n;
    }

    /** The scan for the last slash. */
    static method FindLastSlash(path: string) returns (slash: int)
      ensures slash == V.LastSlash(path)
    {
      slash := -1;
      var p := 0;
      while p < |path|
        invariant 0 <= p <= |path| && slash == V.LastSlash(path[..p])
      {
        assert path[..p + 1][..p] == path[..p];
        if path[p] == '/' { slash := p; }
        p := p + 1;
      }
      assert path[..p] == path;
    }

    method CreatePath(cwd: int, path: string) returns (node: int)
      requires pool.Valid()
      modifies pool, pool.nodes
      ensures pool.Valid() && (pool.Abs(), node) == V.CreatePath(old(pool.Abs()), cwd, path)
    {
      hide Resolve, Ramfs.Create;
      if path != "" && path[0] == '/' {
        var slash := FindLastSlash(path);
        var parent := 0;
        if slash > 0 { parent := pool.ResolvePath(path[..Min(slash, 127)]); }
        if parent < 0 || slash < 0 { return -1; }
        node := pool.Create(parent, path[slash + 1..]);
      } else {
        node := pool.Create(cwd, path);
      }
    }

    method Open(t: int, path: string, flags: V.Flags) returns (f: int)
      requires Valid()
      modifies this, tables, pool, pool.nodes
      ensures pool.Valid() && (Abs(), f) == V.Open(old(Abs()), t, path, flags)
    {
      hide Resolve, V.CreatePath, Ramfs.Write;
      if t < 0 || t >= tables.Length || !tables[t].inUse { return -1; }
      if path == "/dev/null" {
        f := FindFreeFd(t);
        if f < 0 { return -1; }
        Put(t, f, V.NullFd);
        return;
      }
      var node := pool.ResolvePath(path);
      if node < 0 && flags.creat { node := CreatePath(tables[t].cwd, path); }
      if node < 0 { return -1; }
      var isDir := pool.IsDirNode(node);
      if isDir { return -1; }
      f := FindFreeFd(t);
      if f < 0 { return -1; }
      if flags.trunc {
        var _ := pool.Write(node, "");
        Put(t, f, V.FileFd(node, 0, flags.append));
      } else {
        pool.NamesAndContentsFit();
        assert InPool(pool.Abs(), node) ==> pool.Abs().nodes[node] in pool.Abs().nodes;
        var size := pool.SizeOf(node);
        Put(t, f, V.FileFd(node, if flags.append then size else 0, flags.append));
      }
    }

    /** Fills the ring from its write position on. */
    static method FillPipe(was: V.Pipe, data: string) returns (p: V.Pipe, r: int)
      requires V.SoundPipe(was)
      ensures (p, r) == V.WritePipe(was, data)
    {
      if !was.readOpen { return was, -1; }
      var n := Min(|data|, V.PIPE_BUF - was.count);
      p := was;
      var j := 0;
      assert data[0..n] == data[..n];
      while j < n
        invariant 0 <= j <= n && V.SoundPipe(p) && p.count + (n - j) <= V.PIPE_BUF
        invariant V.PushAll(p, data[j..n]) == V.PushAll(was, data[..n])
      {
        V.PushKeepsSound(p, data[j]);
        assert data[j..n][0] == data[j] && data[j..n][1..] == data[j + 1..n];
        p := V.PushOne(p, data[j]);
        j := j + 1;
      }
      r := n;
    }

    static method DrainPipe(was: V.Pipe, count: uint32) returns (p: V.Pipe, data: string)
      requires V.SoundPipe(was)
      ensures (p, data) == V.ReadPipe(was, count)
    {
      var n := Min(count, was.count);
      p, data := was, "";
      var j := 0;
      while j < n
        invariant 0 <= j <= n && V.SoundPipe(p) && n - j <= p.count
        invariant V.PopAll(p, n - j) == V.PopAll(was, n)
        invariant data + V.Popped(p, n - j) == V.Popped(was, n)
      {
        V.PopKeepsSound(p);
        data := data + [p.buf[p.readPos]];
        p := V.PopOne(p);
        j := j + 1;
      }
      assert data + "" == data;
    }

    method Write(t: int, f: int, data: string) returns (r: int)
      requires Valid() && V.InReach(V.FdAt(Abs(), t, f))
      modifies this, tables, pipes, pool.nodes
      ensures pool.Valid() && (Abs(), r) == V.Write(old(Abs()), t, f, data)
    {
      if t < 0 || t >= tables.Length || f < 0 || f >= |tables[t].fds| { return -1; }
      var d := tables[t].fds[f];
      hide V.WriteFile, V.WritePipe, ContentsFit;
      if d.FileFd? {
        r := WriteFile(t, f, data);
      } else if d.PipeWrite? {
        if d.pipe >= pipes.Length { return -1; }
        var p;
        p, r := FillPipe(pipes[d.pipe], data);
        pipes[d.pipe] := p;
        assert pipes[..] == old(pipes[..])[d.pipe := p];
      } else if d.ConsoleFd? || d.NullFd? {
        r := |data|;
      } else {
        r := -1;
      }
    }

    method Read(t: int, f: int, count: uint32) returns (data: string, r: int)
      requires Valid()
      modifies this, tables, pipes
      ensures pool.Valid() && (Abs(), data, r) == V.Read(old(Abs()), t, f, count)
    {
      if t < 0 || t >= tables.Length || f < 0 || f >= |tables[t].fds| { return "", -1; }
      var d := tables[t].fds[f];
      hide V.ReadFile, V.ReadPipe, ContentsFit;
      if d.FileFd? {
        data, r := ReadFile(t, f, count);
      } else if d.PipeRead? {
        if d.pipe >= pipes.Length { return "", -1; }
        var p;
        p, data := DrainPipe(pipes[d.pipe], count);
        r := |data|;
        pipes[d.pipe] := p;
        assert pipes[..] == old(pipes[..])[d.pipe := p];
      } else if d.ConsoleFd? || d.NullFd? {
        return "", 0;
      } else {
        return "", -1;
      }
    }

    method Close(t: int, f: int) returns (r: int)
      requires Valid()
      modifies this, tables, pipes
      ensures pool.Valid() && (Abs(), r) == V.Close(old(Abs()), t, f)
    {
      if t < 0 || t >= tables.Length || f < 0 || f >= |tables[t].fds| { return -1; }
      var d := tables[t].fds[f];
      if d == V.NoFd { return -1; }
      if d.PipeRead? && d.pipe < pipes.Length {
        pipes[d.pipe] := pipes[d.pipe].(readOpen := false);
      } else if d.PipeWrite? && d.pipe < pipes.Length {
        pipes[d.pipe] := pipes[d.pipe].(writeOpen := false);
      }
      assert pipes[..] == V.EndClosed(old(Abs()), d).pipes;
      Put(t, f, V.NoFd);
      r := 0;
    }

    method Seek(t: int, f: int, offset: int, whence: V.Whence) returns (pos: int)
      requires Valid()
      modifies tables
      ensures pool.Valid() && (Abs(), pos) == V.Seek(old(Abs()), t, f, offset, whence)
    {
      if t < 0 || t >= tables.Length || f < 0 || f >= |tables[t].fds| || !tables[t].fds[f].FileFd? { return -1; }
      var d := tables[t].fds[f];
      var size := pool.SizeOf(d.node);
      pos := match whence case Set => offset case Cur => d.offset + offset case End => size + offset;
      if pos < 0 { pos := 0; }
      Put(t, f, d.(offset := pos % 0x1_0000_0000));
    }

    method Dup(t: int, f: int) returns (g: int)
      requires Valid()
      modifies this, tables, pipes
      ensures pool.Valid() && (Abs(), g) == V.Dup(old(Abs()), t, f)
    {
      if t < 0 || t >= tables.Length || f < 0 || f >= |tables[t].fds| { return -1; }
      var d := tables[t].fds[f];
      if d == V.NoFd { return -1; }
      g := FindFreeFd(t);
      if g < 0 { return -1; }
      Put(t, g, d);
      if d.PipeRead? && d.pipe < pipes.Length {
        pipes[d.pipe] := pipes[d.pipe].(readOpen := true);
        assert pipes[..] == old(pipes[..])[d.pipe := old(pipes[d.pipe]).(readOpen := true)];
      } else if d.PipeWrite? && d.pipe < pipes.Length {
        pipes[d.pipe] := pipes[d.pipe].(writeOpen := true);
        assert pipes[..] == old(pipes[..])[d.pipe := old(pipes[d.pipe]).(writeOpen := true)];
      }
    }

    method Dup2(t: int, f: int, g: int) returns (r: int)
      requires Valid()
      modifies this, tables, pipes
      ensures pool.Valid() && (Abs(), r) == V.Dup2(old(Abs()), t, f, g)
    {
      if t < 0 || t >= tables.Length || f < 0 || f >= |tables[t].fds| || g < 0 || g >= |tables[t].fds| { return -1; }
      if tables[t].fds[f] == V.NoFd { return -1; }
      if tables[t].fds[g] != V.NoFd { var _ := Close(t, g); }
      Put(t, g, tables[t].fds[f]);
      r := g;
    }

    method MakePipe(t: int) returns (rfd: int, wfd: int)
      requires Valid()
      modifies this, tables, pipes
      ensures pool.Valid() && (Abs(), rfd, wfd) == V.MakePipe(old(Abs()), t)
    {
      if t < 0 || t >= tables.Length || pipeCount >= V.MAX_PIPES { return -1, -1; }
      ghost var v := Abs();
      rfd := FindFreeFd(t);
      if rfd < 0 { return -1, -1; }
      Put(t, rfd, V.PipeRead(pipeCount));
      wfd := FindFreeFd(t);
      if wfd < 0 {
        Put(t, rfd, V.NoFd);
        assert tables[t].fds == v.tables[t].fds;
        assert tables[..] == v.tables;
        return -1, -1;
      }
      Put(t, wfd, V.PipeWrite(pipeCount));
      var empty := V.Pipe(pipes[pipeCount].buf, 0, 0, 0, true, true);
      pipes[pipeCount] := empty;
      assert pipes[..] == v.pipes[pipeCount := empty];
      ghost var fds := v.tables[t].fds[rfd := V.PipeRead(pipeCount)][wfd := V.PipeWrite(pipeCount)];
      assert tables[..] == v.tables[t := v.tables[t].(fds := fds)];
      pipeCount := pipeCount + 1;
    }
  }
}
