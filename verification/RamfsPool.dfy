/**
 The RAM filesystem as the kernel keeps it: an array of fixed-size inode
 records whose child slots and content buffers are changed in place. Every
 method is proved equal to the call of module Ramfs or RamfsPaths that it
 implements.
 */
module RamfsPool {
  import opened Words
  import opened Ramfs
  import opened RamfsPaths

  /** One record: sixteen child slots of which childCount count, a buffer of which size characters count. */
  datatype Inode = Inode(name: string, kind: Kind, inUse: bool, content: seq<char>, size: nat,
                         children: seq<int>, childCount: nat, parent: int)

  predicate Sized(n: Inode) {
    && |n.content| == MAX_CONTENT && n.size <= MAX_CONTENT - 1
    && |n.children| == MAX_CHILDREN && n.childCount <= MAX_CHILDREN
    && n.parent < MAX_NODES && |n.name| <= MAX_NAME - 1
    && forall k :: 0 <= k < n.childCount ==> 0 <= n.children[k] < MAX_NODES
  }

  function View(n: Inode): Node
    requires Sized(n)
  {
    Node(n.name, n.kind, n.inUse, n.content[..n.size], n.children[..n.childCount], n.parent)
  }

  ghost predicate AllSized(s: seq<Inode>) {
    forall n <- s :: Sized(n)
  }

  function Views(s: seq<Inode>): (r: seq<Node>)
    requires AllSized(s)
    ensures |r| == |s|
  {
    seq(|s|, i requires 0 <= i < |s| => View(s[i]))
  }

  lemma ViewAt(s: seq<Inode>, i: nat)
    requires AllSized(s) && i < |s|
    ensures Sized(s[i]) && Views(s)[i] == View(s[i])
  {
  }

  lemma UpdateViews(s: seq<Inode>, i: nat, n: Inode)
    requires AllSized(s) && i < |s| && Sized(n)
    ensures AllSized(s[i := n]) && Views(s[i := n]) == Views(s)[i := View(n)]
  {
    hide Sized, View;
    forall m | m in s[i := n] ensures Sized(m) {
      var j :| 0 <= j < |s| && s[i := n][j] == m;
      assert s[j] in s;
    }
  }

  class Pool {
    const nodes: array<Inode>
    var count: int

    ghost predicate Valid() reads this, nodes {
      nodes.Length == MAX_NODES && AllSized(nodes[..])
    }

    ghost function Abs(): Fs
      requires Valid()
      reads this, nodes
    {
      Fs(Views(nodes[..]), count)
    }

    constructor ()
      ensures Valid() && Abs() == Empty()
    {
      var blank := Inode("", File, false, seq(MAX_CONTENT, _ => '\0'), 0, seq(MAX_CHILDREN, _ => 0), 0, 0);
      nodes := new Inode[MAX_NODES](_ => blank);
      count := 0;
      new;
      nodes[0] := blank.(name := "/", kind := Dir, inUse := true, parent := -1);
      count := 1;
      assert Views(nodes[..]) == Empty().nodes;
    }

    lemma Slot(i: nat)
      requires Valid() && i < MAX_NODES
      ensures Sized(nodes[i]) && Abs().nodes[i] == View(nodes[i])
    {
      ViewAt(nodes[..], i);
    }

    lemma NamesAndContentsFit()
      requires Valid()
      ensures ContentsFit(Abs())
    {
      forall n | n in Abs().nodes ensures |n.content| <= MAX_CONTENT - 1 && |n.name| <= MAX_NAME - 1 {
        var i :| 0 <= i < MAX_NODES && Abs().nodes[i] == n;
        Slot(i);
      }
    }

    /** Stores a record and keeps the rest. */
    method Store(i: nat, n: Inode)
      requires Valid() && i < MAX_NODES && Sized(n)
      modifies nodes
      ensures Valid() && count == old(count)
      ensures nodes[..] == old(nodes[..])[i := n]
      ensures Abs() == old(Abs()).(nodes := old(Abs()).nodes[i := View(n)])
    {
      hide Sized, View;
      UpdateViews(nodes[..], i, n);
      ghost var was := nodes[..];
      nodes[i] := n;
      assert nodes[..] == was[i := n];
    }

    method AllocNode() returns (i: int)
      requires Valid()
      modifies this, nodes
      ensures Valid() && -1 <= i < MAX_NODES
      ensures i == -1 ==> FirstUnused(old(Abs()).nodes) == MAX_NODES && Abs() == old(Abs())
      ensures i >= 0 ==> i == FirstUnused(old(Abs()).nodes)
      ensures i >= 0 ==>
        Abs() == Fs(old(Abs()).nodes[i := Node("", old(nodes[i].kind), true, "", [], -1)], old(count) + 1)
    {
      hide AllSized, Views;
      i := 0;
      while i < MAX_NODES
        invariant 0 <= i <= MAX_NODES && Valid() && Abs() == old(Abs()) && nodes[..] == old(nodes[..])
        invariant forall j :: 0 <= j < i ==> Abs().nodes[j].inUse
      {
        Slot(i);
        if !nodes[i].inUse {
          FirstIs(Abs().nodes, i);
          hide FirstUnused;
          Store(i, nodes[i].(inUse := true, size := 0, childCount := 0, parent := -1, name := ""));
          count := count + 1;
          return;
        }
        i := i + 1;
      }
      i := -1;
    }

    method Find(parent: int, name: string) returns (c: int)
      requires Valid()
      ensures c == Ramfs.Find(Abs(), parent, name)
    {
      hide AllSized, Views, FindIn;
      if parent < 0 || parent >= MAX_NODES { return -1; }
      Slot(parent);
      if !nodes[parent].inUse || nodes[parent].kind != Dir { return -1; }
      ghost var list := Abs().nodes[parent].children;
      assert list[0..] == list;
      var i := 0;
      while i < nodes[parent].childCount
        invariant 0 <= i <= |list|
        invariant FindIn(Abs().nodes, list, name) == FindIn(Abs().nodes, list[i..], name)
      {
        c := nodes[parent].children[i];
        assert c == list[i];
        Slot(c);
        FindInStep(Abs().nodes, list, i, name);
        if nodes[c].inUse && nodes[c].name == name { return; }
        i := i + 1;
      }
      FindInNothing(Abs().nodes, list[i..], name);
      c := -1;
    }

    /** Names a node fresh from AllocNode and lists it in its parent. */
    method Link(parent: nat, i: nat, name: string, kind: Kind)
      requires Valid() && parent < MAX_NODES && i < MAX_NODES && parent != i
      requires |Abs().nodes[parent].children| < MAX_CHILDREN
      requires
        var n := Abs().nodes[i];
        n.inUse && n.content == "" && n.children == []
      modifies nodes
      ensures Valid() && count == old(count)
      ensures Abs().nodes == Linked(old(Abs()).nodes, parent, i, Short(name), kind)
    {
      hide AllSized, Views;
      Slot(i);
      Slot(parent);
      ghost var was := Abs().nodes;
      Store(i, nodes[i].(name := Short(name), kind := kind, parent := parent));
      Slot(parent);
      var n := nodes[parent];
      assert View(n) == was[parent];
      var slots := n.children[n.childCount := i];
      assert slots[..n.childCount + 1] == n.children[..n.childCount] + [i];
      Store(parent, n.(children := slots, childCount := n.childCount + 1));
    }

    /** Shared by Create and Mkdir, whose bodies differ in the kind alone. */
    method Make(parent: int, name: string, kind: Kind) returns (i: int)
      requires Valid()
      modifies this, nodes
      ensures Valid() && (Abs(), i) == Ramfs.Create(old(Abs()), parent, name, kind)
    {
      hide AllSized, Views, FirstUnused, Linked;
      if parent < 0 || parent >= MAX_NODES { return -1; }
      Slot(parent);
      if !nodes[parent].inUse || nodes[parent].kind != Dir { return -1; }
      if nodes[parent].childCount >= MAX_CHILDREN { return -1; }
      var twin := Find(parent, name);
      hide Ramfs.Find;
      if twin >= 0 { return -1; }
      i := AllocNode();
      if i < 0 { return -1; }
      LinkedOverwrites(old(Abs()).nodes, parent, i, Abs().nodes[i], Short(name), kind);
      Link(parent, i, name, kind);
    }

    method Create(parent: int, name: string) returns (i: int)
      requires Valid()
      modifies this, nodes
      ensures Valid() && (Abs(), i) == Ramfs.Create(old(Abs()), parent, name, File)
    {
      i := Make(parent, name, File);
    }

    method Mkdir(parent: int, name: string) returns (i: int)
      requires Valid()
      modifies this, nodes
      ensures Valid() && (Abs(), i) == Ramfs.Create(old(Abs()), parent, name, Dir)
    {
      i := Make(parent, name, Dir);
    }

    /** Takes x out of a child list. */
    method Drop(p: nat, x: int)
      requires Valid() && p < MAX_NODES
      modifies nodes
      ensures Valid() && count == old(count)
      ensures
        var was := old(Abs()).nodes;
        Abs().nodes == was[p := was[p].(children := Without(was[p].children, x))]
    {
      hide AllSized, Views, Without;
      Slot(p);
      var n := nodes[p];
      var slots, left := TakenOut(n.children, n.childCount, x);
      assert forall c <- n.children[..n.childCount] :: 0 <= c < MAX_NODES;
      assert forall k :: 0 <= k < left ==> slots[k] == slots[..left][k] && slots[..left][k] in slots[..left];
      Store(p, n.(children := slots, childCount := left));
    }

    method Remove(i: int) returns (r: int)
      requires Valid()
      modifies this, nodes
      ensures Valid() && (Abs(), r) == Ramfs.Remove(old(Abs()), i)
    {
      hide AllSized, Views, Without;
      if i <= 0 || i >= MAX_NODES { return -1; }
      Slot(i);
      if !nodes[i].inUse { return -1; }
      if nodes[i].kind == Dir && nodes[i].childCount > 0 { return -1; }
      var parent := nodes[i].parent;
      if parent >= 0 && parent < MAX_NODES {
        Slot(parent);
        if nodes[parent].inUse { Drop(parent, i); }
      }
      Slot(i);
      Store(i, nodes[i].(inUse := false));
      count := count - 1;
      r := 0;
    }

    /** Copies data into the content buffer from position cur on and ends the content there. */
    method Fill(i: nat, cur: nat, data: string)
      requires Valid() && i < MAX_NODES && cur + |data| <= MAX_CONTENT - 1
      requires cur <= |Abs().nodes[i].content|
      modifies nodes
      ensures Valid() && count == old(count)
      ensures
        var was := old(Abs()).nodes;
        Abs().nodes == was[i := was[i].(content := was[i].content[..cur] + data)]
    {
      hide AllSized, Views;
      Slot(i);
      var n := nodes[i];
      var buffer := CopiedIn(n.content, cur, data);
      assert n.content[..n.size][..cur] == n.content[..cur];
      Store(i, n.(content := buffer, size := cur + |data|));
    }

    method Write(i: int, data: string) returns (r: int)
      requires Valid()
      modifies nodes
      ensures Valid() && (Abs(), r) == Ramfs.Write(old(Abs()), i, data)
    {
      hide AllSized, Views;
      if i < 0 || i >= MAX_NODES { return -1; }
      Slot(i);
      if !nodes[i].inUse || nodes[i].kind != File { return -1; }
      var len := Min(|data|, MAX_CONTENT - 1);
      assert Abs().nodes[i].content[..0] + data[..len] == data[..len];
      Fill(i, 0, data[..len]);
      r := len;
    }

    method Append(i: int, data: string) returns (r: int)
      requires Valid()
      modifies nodes
      ensures Valid() && old(IsFile(Abs(), i) ==> |Abs().nodes[i].content| <= MAX_CONTENT - 1)
      ensures (Abs(), r) == Ramfs.Append(old(Abs()), i, data)
    {
      hide AllSized, Views;
      if i < 0 || i >= MAX_NODES { return -1; }
      Slot(i);
      if !nodes[i].inUse || nodes[i].kind != File { return -1; }
      var cur := nodes[i].size;
      var len := Min(|data|, MAX_CONTENT - 1 - cur);
      ghost var content := Abs().nodes[i].content;
      assert content[..cur] == content;
      Fill(i, cur, data[..len]);
      r := len;
    }

    /** The bytes put into a buffer of that size, and their number; nothing for anything but a file. */
    method Read(i: int, buflen: nat) returns (buf: string, r: int)
      requires Valid() && buflen >= 1
      ensures if IsFile(Abs(), i) then buf == Clip(Abs().nodes[i].content, buflen) && r == |buf| else buf == "" && r == -1
    {
      hide AllSized, Views;
      if i < 0 || i >= MAX_NODES { return "", -1; }
      Slot(i);
      if !nodes[i].inUse || nodes[i].kind != File { return "", -1; }
      var len := Min(nodes[i].size, buflen - 1);
      buf := "";
      while |buf| < len
        invariant |buf| <= len
        invariant buf == nodes[i].content[..|buf|]
      {
        buf := buf + [nodes[i].content[|buf|]];
      }
      r := len;
    }

    method SizeOf(i: int) returns (size: nat)
      requires Valid()
      ensures size == if InPool(Abs(), i) then |Abs().nodes[i].content| else 0
    {
      if i < 0 || i >= MAX_NODES { return 0; }
      Slot(i);
      if !nodes[i].inUse { return 0; }
      size := nodes[i].size;
    }

    method IsDirNode(i: int) returns (r: bool)
      requires Valid()
      ensures r == IsDir(Abs(), i)
    {
      if i < 0 || i >= MAX_NODES { return false; }
      Slot(i);
      r := nodes[i].inUse && nodes[i].kind == Dir;
    }

    /** What the resolver does with a completed component. */
    method Enter(current: int, component: string) returns (next: int)
      requires Valid() && 0 <= current < MAX_NODES && |component| <= MAX_NAME - 1
      ensures next == StepTo(Abs(), current, component) && -1 <= next < MAX_NODES
    {
      hide AllSized, Views;
      next := current;
      if component != "" {
        if component == ".." {
          Slot(current);
          if nodes[current].parent >= 0 { next := nodes[current].parent; }
        } else if component != "." {
          assert Short(component) == component;
          next := Find(current, component);
        }
      }
    }

    /** The resolver's loop over characters is the walk over the components between slashes. */
    method ResolvePath(path: string) returns (current: int)
      requires Valid()
      ensures current == Resolve(Abs(), path)
    {
      hide AllSized, Views, StepTo, Short, Scanned, Walk, Split;
      if path == "" || path[0] != '/' { return -1; }
      if path == "/" { return 0; }
      current := 0;
      var component := "";
      var p := 1;
      ghost var text := path[1..];
      ReadNothing(Abs(), text);
      while true
        invariant 1 <= p <= |path| && 0 <= current < MAX_NODES
        invariant Scanned(Abs(), text, p - 1, component, current)
        decreases |path| - p
      {
        if p == |path| || path[p] == '/' {
          ReadComponent(Abs(), text, p - 1, component, current);
          var next := Enter(current, component);
          if next < 0 {
            ReadFails(Abs(), text, p - 1);
            return -1;
          }
          current := next;
          if p == |path| {
            assert text[..p - 1] == text;
            return;
          }
          ReadSlash(Abs(), text, p - 1);
          component := "";
        } else {
          ReadCharacter(Abs(), text, p - 1, component, current);
          if |component| < MAX_NAME - 1 { component := component + [path[p]]; }
        }
        p := p + 1;
      }
    }

    /** The names from i upward, at most eight of them, lowest first. */
    method Collect(i: nat) returns (parts: seq<string>)
      requires Valid() && i < MAX_NODES
      ensures |parts| == 1 + Levels(Abs(), i, MAX_LEVELS)
      ensures Backwards(parts[..|parts| - 1]) == NamesTo(Abs(), i, |parts| - 1)
    {
      hide AllSized, Views, Collected;
      parts := [];
      var cur: int := i;
      CollectedStart(Abs(), i);
      while cur >= 0 && |parts| < MAX_LEVELS + 1
        invariant |parts| <= MAX_LEVELS + 1 && cur < MAX_NODES
        invariant Collected(Abs(), i, cur, parts)
        decreases MAX_LEVELS + 1 - |parts|
      {
        Slot(cur);
        var name := Short(nodes[cur].name);
        assert name == nodes[cur].name;
        CollectedStep(Abs(), i, cur, parts);
        parts := parts + [name];
        cur := nodes[cur].parent;
      }
      CollectedEnd(Abs(), i, cur, parts);
    }

    method PathOf(i: int, buflen: nat) returns (buf: string)
      requires Valid() && buflen >= 2
      ensures buf == GetPath(Abs(), i, buflen)
    {
      hide AllSized, Views;
      if i < 0 || i >= MAX_NODES { return "/"; }
      Slot(i);
      if !nodes[i].inUse { return "/"; }
      var parts := Collect(i);
      if |parts| <= 1 { return "/"; }
      hide Backwards, Slashed, NamesTo;
      buf := Assembled(parts, buflen);
    }
  }

  /** Prints the collected names except the last, in reverse order, each after a slash. */
  method Assembled(parts: seq<string>, buflen: nat) returns (buf: string)
    requires |parts| > 1 && buflen >= 1
    ensures buf == Clip(Slashed(Backwards(parts[..|parts| - 1])), buflen)
  {
    hide Backwards, Clip, Slashed, Printed;
    ghost var shown := parts[..|parts| - 1];
    ghost var names := Backwards(shown);
    buf := "";
    PrintedStart(names, buflen);
    var t := |parts| - 2;
    while t >= 0
      invariant -1 <= t < |shown|
      invariant buf == Printed(names, |shown| - 1 - t, buflen)
    {
      BackwardsAt(shown, |shown| - 1 - t);
      PrintedStep(names, |shown| - 1 - t, buflen);
      buf := Clip(buf + "/", buflen);
      buf := Clip(buf + parts[t], buflen);
      t := t - 1;
    }
    PrintedEnd(names, buflen);
  }

  /** The buffer after the first k names have been printed. */
  ghost function Printed(names: seq<string>, k: nat, buflen: nat): string
    requires k <= |names| && buflen >= 1
  {
    Clip(Slashed(names[..k]), buflen)
  }

  lemma PrintedStart(names: seq<string>, buflen: nat)
    requires buflen >= 1
    ensures Printed(names, 0, buflen) == ""
  {
    assert names[..0] == [];
  }

  lemma PrintedStep(names: seq<string>, n: nat, buflen: nat)
    requires n < |names| && buflen >= 1
    ensures Printed(names, n + 1, buflen) == Clip(Clip(Printed(names, n, buflen) + "/", buflen) + names[n], buflen)
  {
    SlashedTake(names, n);
    hide Clip, Slashed;
    ClipTwice(Slashed(names[..n]), names[n], buflen);
  }

  lemma SlashedTake(names: seq<string>, n: nat)
    requires n < |names|
    ensures Slashed(names[..n + 1]) == Slashed(names[..n]) + "/" + names[n]
  {
    assert names[..n + 1][..n] == names[..n];
  }

  lemma PrintedEnd(names: seq<string>, buflen: nat)
    requires buflen >= 1
    ensures Printed(names, |names|, buflen) == Clip(Slashed(names), buflen)
  {
    assert names[..|names|] == names;
  }

  lemma FindInNothing(nodes: seq<Node>, list: seq<int>, name: string)
    requires list == []
    ensures FindIn(nodes, list, name) == -1
  {
  }

  lemma FindInStep(nodes: seq<Node>, list: seq<int>, i: nat, name: string)
    requires i < |list| && 0 <= list[i] < |nodes|
    ensures FindIn(nodes, list[i..], name) ==
      if nodes[list[i]].inUse && nodes[list[i]].name == name then list[i] else FindIn(nodes, list[i + 1..], name)
  {
    assert list[i..][0] == list[i] && list[i..][1..] == list[i + 1..];
  }

  /** The resolver's loop has read k characters of text, the last of them into component, and stands at current. */
  ghost predicate Scanned(fs: Fs, text: string, k: nat, component: string, current: int)
    requires k <= |text|
  {
    var parts := Split(text[..k]);
    component == Short(Last(parts)) && current == Walk(fs, Front(parts))
  }

  lemma ReadNothing(fs: Fs, text: string)
    ensures Scanned(fs, text, 0, "", 0)
  {
    assert text[..0] == "" && Front([""]) == [];
  }

  lemma ReadCharacter(fs: Fs, text: string, k: nat, component: string, current: int)
    requires k < |text| && Scanned(fs, text, k, component, current) && text[k] != '/'
    ensures Scanned(fs, text, k + 1, if |component| < MAX_NAME - 1 then component + [text[k]] else component, current)
  {
    assert text[..k + 1][..k] == text[..k];
    var parts := Split(text[..k]);
    hide Split, Short, Walk;
    ShortGrows(Last(parts), text[k]);
    assert Front(Front(parts) + [Last(parts) + [text[k]]]) == Front(parts);
  }

  /** A completed component leads from current to where the walk so far leads. */
  lemma ReadComponent(fs: Fs, text: string, k: nat, component: string, current: int)
    requires k <= |text| && Scanned(fs, text, k, component, current) && current >= 0
    ensures Walk(fs, Split(text[..k])) == StepTo(fs, current, component) && |component| <= MAX_NAME - 1
  {
    var parts := Split(text[..k]);
    ShortStep(fs, current, Last(parts));
  }

  lemma ReadSlash(fs: Fs, text: string, k: nat)
    requires k < |text| && text[k] == '/'
    ensures Scanned(fs, text, k + 1, "", Walk(fs, Split(text[..k])))
  {
    assert text[..k + 1][..k] == text[..k];
    var parts := Split(text[..k]);
    assert Front(parts + [""]) == parts && Last(parts + [""]) == "";
  }

  lemma ReadFails(fs: Fs, text: string, k: nat)
    requires k <= |text| && (k < |text| ==> text[k] == '/') && Walk(fs, Split(text[..k])) < 0
    ensures Walk(fs, Split(text)) == -1
  {
    if k < |text| {
      LostStaysLost(fs, text[..k], text[k..]);
      assert text[..k] + text[k..] == text;
    } else {
      assert text[..k] == text;
    }
    FindIsNoLess(fs);
  }

  lemma FindIsNoLess(fs: Fs)
    ensures forall p, name :: Ramfs.Find(fs, p, name) >= -1
  {
  }

  /** What the collecting loop still has to take after j names. */
  function Ahead(fs: Fs, cur: int, j: nat): nat {
    if cur >= 0 && j <= MAX_LEVELS then 1 + Levels(fs, cur, MAX_LEVELS - j) else 0
  }

  /** The collecting loop for node i has taken parts and stands at cur. */
  ghost predicate Collected(fs: Fs, i: int, cur: int, parts: seq<string>) {
    var levels := Levels(fs, i, MAX_LEVELS);
    var names := NamesTo(fs, i, levels);
    && 1 + levels == |parts| + Ahead(fs, cur, |parts|)
    && (|parts| <= levels ==> names == NamesTo(fs, cur, levels - |parts|) + Backwards(parts))
    && (|parts| > levels ==> names == Backwards(parts[..levels]))
  }

  lemma CollectedStart(fs: Fs, i: nat)
    ensures Collected(fs, i, i, [])
  {
  }

  lemma CollectedStep(fs: Fs, i: int, cur: int, parts: seq<string>)
    requires Collected(fs, i, cur, parts) && 0 <= cur < |fs.nodes| && |parts| <= MAX_LEVELS
    ensures Collected(fs, i, fs.nodes[cur].parent, parts + [fs.nodes[cur].name])
  {
    var n := fs.nodes[cur];
    AheadStep(fs, cur, |parts|);
    hide Backwards, Ahead, Levels;
    BackwardsSnoc(parts, n.name);
    var levels := Levels(fs, i, MAX_LEVELS);
    if |parts| < levels {
      var above := NamesTo(fs, n.parent, levels - |parts| - 1);
      Regroup(above, [n.name], Backwards(parts));
    } else {
      assert NamesTo(fs, cur, 0) + Backwards(parts) == Backwards(parts);
      assert (parts + [n.name])[..levels] == parts;
    }
  }

  lemma Regroup(a: seq<string>, b: seq<string>, c: seq<string>)
    ensures (a + b) + c == a + (b + c)
  {
  }

  lemma CollectedEnd(fs: Fs, i: int, cur: int, parts: seq<string>)
    requires Collected(fs, i, cur, parts) && (cur < 0 || |parts| == MAX_LEVELS + 1)
    ensures |parts| == 1 + Levels(fs, i, MAX_LEVELS)
    ensures Backwards(parts[..|parts| - 1]) == NamesTo(fs, i, |parts| - 1)
  {
  }

  lemma AheadStep(fs: Fs, cur: int, j: nat)
    requires 0 <= cur < |fs.nodes| && j <= MAX_LEVELS
    ensures Ahead(fs, cur, j) == 1 + Ahead(fs, fs.nodes[cur].parent, j + 1)
  {
  }

  lemma BackwardsSnoc(parts: seq<string>, name: string)
    ensures Backwards(parts + [name]) == [name] + Backwards(parts)
  {
    assert Front(parts + [name]) == parts;
  }

  lemma ClipTwice(a: string, b: string, buflen: nat)
    requires buflen >= 1
    ensures Clip(Clip(Clip(a, buflen) + "/", buflen) + b, buflen) == Clip(a + "/" + b, buflen)
  {
    ClipOnce(a, "/", buflen);
    ClipOnce(a + "/", b, buflen);
  }

  lemma ShortGrows(s: string, c: char)
    ensures Short("") == ""
    ensures |Short(s)| <= MAX_NAME - 1
    ensures Short(s + [c]) == if |Short(s)| < MAX_NAME - 1 then Short(s) + [c] else Short(s)
  {
  }

  /** Cutting a component to 31 characters first does not change where it leads. */
  lemma ShortStep(fs: Fs, cur: int, component: string)
    ensures StepTo(fs, cur, Short(component)) == StepTo(fs, cur, component)
    ensures |Short(component)| <= MAX_NAME - 1
  {
    if |component| <= MAX_NAME - 1 { assert Short(component) == component; }
    assert Short(Short(component)) == Short(component);
  }

  lemma LinkedOverwrites(nodes: seq<Node>, parent: nat, i: nat, n: Node, name: string, kind: Kind)
    requires parent < |nodes| && i < |nodes| && parent != i
    ensures Linked(nodes[i := n], parent, i, name, kind) == Linked(nodes, parent, i, name, kind)
  {
  }

  /** Finds x among the first count slots and moves those after it down by one. */
  method TakenOut(children: seq<int>, count: nat, x: int) returns (slots: seq<int>, left: nat)
    requires count <= |children|
    ensures |slots| == |children| && left <= count
    ensures slots[..left] == Without(children[..count], x)
    ensures forall c <- slots[..left] :: c in children[..count]
  {
    hide Without;
    var i := 0;
    while i < count && children[i] != x
      invariant 0 <= i <= count
      invariant x !in children[..i]
    {
      i := i + 1;
    }
    ghost var after := children[i..count];
    assert children[..count] == children[..i] + after;
    WithoutAt(children[..i], after, x);
    slots, left := children, count;
    if i < count {
      slots := ShiftDown(children, count, i);
      left := count - 1;
      assert after[1..] == children[i + 1..count];
    }
    WithoutIsWithin(children[..count], x);
  }

  /** Moves the slots after i down by one. */
  method ShiftDown(children: seq<int>, count: nat, i: nat) returns (slots: seq<int>)
    requires i < count <= |children|
    ensures |slots| == |children|
    ensures slots[..count - 1] == children[..i] + children[i + 1..count]
  {
    slots := children;
    var j := i;
    while j < count - 1
      invariant i <= j <= count - 1 && |slots| == |children|
      invariant forall k :: 0 <= k < i ==> slots[k] == children[k]
      invariant forall k :: i <= k < j ==> slots[k] == children[k + 1]
      invariant forall k :: j <= k < |slots| ==> slots[k] == children[k]
    {
      slots := slots[j := slots[j + 1]];
      j := j + 1;
    }
  }

  /** Copies data into a buffer from position cur on, a terminator after it. */
  method CopiedIn(was: seq<char>, cur: nat, data: string) returns (buffer: seq<char>)
    requires cur + |data| < |was|
    ensures |buffer| == |was| && buffer[..cur + |data|] == was[..cur] + data
  {
    buffer := was;
    var k := 0;
    while k < |data|
      invariant 0 <= k <= |data| && |buffer| == |was|
      invariant buffer[..cur + k] == was[..cur] + data[..k]
    {
      ghost var before := buffer;
      buffer := buffer[cur + k := data[k]];
      assert buffer[..cur + k + 1] == before[..cur + k] + [data[k]];
      k := k + 1;
    }
    ghost var before := buffer;
    buffer := buffer[cur + |data| := '\0'];
    assert buffer[..cur + |data|] == before[..cur + |data|];
  }

  // ----------------------------------------------------------- about sequences

  function Last(parts: seq<string>): string
    requires parts != []
  {
    parts[|parts| - 1]
  }

  function Front(parts: seq<string>): seq<string>
    requires parts != []
  {
    parts[..|parts| - 1]
  }

  function Backwards(parts: seq<string>): (r: seq<string>)
    ensures |r| == |parts|
  {
    if parts == [] then [] else [Last(parts)] + Backwards(Front(parts))
  }

  lemma {:induction false} BackwardsAt(parts: seq<string>, k: nat)
    requires k < |parts|
    ensures Backwards(parts)[k] == parts[|parts| - 1 - k]
  {
    if k > 0 { BackwardsAt(Front(parts), k - 1); }
  }

  /** Once a component is not found, what follows its slash does not matter. */
  lemma {:induction false} LostStaysLost(fs: Fs, a: string, b: string)
    requires Walk(fs, Split(a)) < 0 && b != "" && b[0] == '/'
    ensures Walk(fs, Front(Split(a + b))) < 0
  {
    var b' := b[..|b| - 1];
    assert (a + b)[..|a + b| - 1] == a + b';
    if b' == "" {
      assert a + b' == a;
      assert Front(Split(a) + [""]) == Split(a);
    } else {
      LostStaysLost(fs, a, b');
      var r := Split(a + b');
      assert Front(r + [""]) == r;
      assert Front(Front(r) + [Last(r) + [b[|b| - 1]]]) == Front(r);
    }
  }
}
