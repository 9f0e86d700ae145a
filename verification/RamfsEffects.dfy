/**
 What creation, removal and writing do to the pool, told from the outside: which
 look-ups and paths succeed after a call, and what stays as it was.
 */
module RamfsEffects {
  import opened Words
  import opened Ramfs
  import opened RamfsPaths

  // --------------------------------------------------------------- creation

  lemma {:induction false} AllUsedIff(nodes: seq<Node>)
    ensures FirstUnused(nodes) == |nodes| <==> forall n <- nodes :: n.inUse
  {
    var i := FirstUnused(nodes);
    if i < |nodes| { assert nodes[i] in nodes; }
  }

  /**
   A creation succeeds exactly if the parent is a directory with room that has
   nothing of that name, and some slot is unused; a refused one changes nothing.
   */
  lemma CreateSucceedsIff(fs: Fs, parent: int, name: string, kind: Kind)
    ensures Create(fs, parent, name, kind).1 >= 0 <==>
      && IsDir(fs, parent) && |fs.nodes[parent].children| < MAX_CHILDREN && Find(fs, parent, name) == -1
      && exists n <- fs.nodes :: !n.inUse
    ensures Create(fs, parent, name, kind).1 < 0 ==> Create(fs, parent, name, kind).0 == fs
  {
    AllUsedIff(fs.nodes);
    FindRange(fs, parent, name);
    hide FindIn;
  }

  lemma {:induction false} FindInLast(nodes: seq<Node>, list: seq<int>, i: int, name: string)
    requires 0 <= i < |nodes| && nodes[i].inUse && nodes[i].name == name
    requires forall c <- list :: !(0 <= c < |nodes| && nodes[c].inUse && nodes[c].name == name)
    ensures FindIn(nodes, list + [i], name) == i
  {
    if list == [] {
      assert list + [i] == [i];
    } else {
      assert list[0] in list && forall c :: c in list[1..] ==> c in list;
      assert (list + [i])[0] == list[0] && (list + [i])[1..] == list[1..] + [i];
      FindInLast(nodes, list[1..], i, name);
    }
  }

  /**
   What was created is a live node of the kind asked for, empty and without
   children, that its parent lists last; looking its name up in the parent finds
   it, if nothing there had the name as stored. All other nodes are as before.
   */
  lemma CreateEffect(fs: Fs, depth: seq<nat>, parent: int, name: string, kind: Kind)
    requires Tree(fs, depth) && Create(fs, parent, name, kind).1 >= 0
    ensures var (g, i) := Create(fs, parent, name, kind);
      && |g.nodes| == |fs.nodes| && !InPool(fs, i) && InPool(g, i) && g.count == fs.count + 1
      && (if kind == Dir then IsDir(g, i) else IsFile(g, i))
      && g.nodes[i].name == Short(name) && g.nodes[i].content == "" && g.nodes[i].children == [] && g.nodes[i].parent == parent
      && g.nodes[parent] == fs.nodes[parent].(children := fs.nodes[parent].children + [i])
      && (forall j :: 0 <= j < |fs.nodes| && j != i && j != parent ==> g.nodes[j] == fs.nodes[j])
    ensures var (g, i) := Create(fs, parent, name, kind);
      Find(fs, parent, Short(name)) == -1 ==> Find(g, parent, Short(name)) == i
  {
    var (g, i) := Create(fs, parent, name, kind);
    UnusedIsUnlinked(fs.nodes, depth, i);
    assert Lists(fs.nodes, parent);
    var list := fs.nodes[parent].children;
    FindInFails(fs.nodes, list, Short(name));
    if Find(fs, parent, Short(name)) == -1 { FindInLast(g.nodes, list, i, Short(name)); }
    hide FindIn, AllPlaced, CountLive;
  }

  // ---------------------------------------------------------------- removal

  /**
   A removal succeeds exactly for a live node other than the root that is not a
   directory with children; a refused one changes nothing.
   */
  lemma RemoveSucceedsIff(fs: Fs, i: int)
    ensures Remove(fs, i).1 == 0 <==> i != 0 && InPool(fs, i) && !(IsDir(fs, i) && fs.nodes[i].children != [])
    ensures Remove(fs, i).1 != 0 ==> Remove(fs, i).0 == fs
  {
  }

  /** The list less the one element, which stood in it once, in the same order. */
  ghost predicate LessOne(list: seq<int>, x: int, rest: seq<int>) {
    exists k :: 0 <= k < |list| && list[k] == x && rest == list[..k] + list[k + 1..]
  }

  lemma WithoutIsLessOne(list: seq<int>, x: int)
    requires Distinct(list) && x in list
    ensures LessOne(list, x, Without(list, x)) && x !in Without(list, x)
    ensures forall y :: y in Without(list, x) <==> y in list && y != x
  {
    var k :| 0 <= k < |list| && list[k] == x;
    WithoutIndex(list, k, x);
    WithoutIsRest(list, x);
    hide Without;
    assert Without(list, x) == list[..k] + list[k + 1..];
  }

  lemma {:induction false} FindInNone(nodes: seq<Node>, list: seq<int>, name: string)
    requires forall c <- list :: !(0 <= c < |nodes| && nodes[c].inUse && nodes[c].name == name)
    ensures FindIn(nodes, list, name) == -1
  {
    if list != [] {
      assert list[0] in list && forall c :: c in list[1..] ==> c in list;
      FindInNone(nodes, list[1..], name);
    }
  }

  /**
   What was removed is gone: it is not in the pool, no live node lists it, its
   name is not found in its parent, and there is one node less. Its parent keeps
   its other children in their order; every other node is as it was.
   */
  lemma RemoveEffect(fs: Fs, depth: seq<nat>, i: int)
    requires Tree(fs, depth) && NamesDiffer(fs.nodes) && Remove(fs, i).1 == 0
    ensures var g := Remove(fs, i).0; var p := fs.nodes[i].parent;
      && |g.nodes| == |fs.nodes| && !InPool(g, i) && g.count == fs.count - 1
      && InPool(g, p) && p != i && LessOne(fs.nodes[p].children, i, g.nodes[p].children)
      && g.nodes[p] == fs.nodes[p].(children := g.nodes[p].children)
      && (forall j :: 0 <= j < |fs.nodes| && j != i && j != p ==> g.nodes[j] == fs.nodes[j])
      && (forall q :: InPool(g, q) ==> i !in g.nodes[q].children)
      && Find(g, p, fs.nodes[i].name) == -1
  {
    var g := Remove(fs, i).0;
    var p := fs.nodes[i].parent;
    assert Placed(fs.nodes, depth, i) && Lists(fs.nodes, p) && Lists(fs.nodes, i);
    WithoutIsLessOne(fs.nodes[p].children, i);
    assert p != i;
    hide Without, FindIn, CountLive, AllPlaced;
    forall q | InPool(g, q) ensures i !in g.nodes[q].children {
      if q != p { assert Lists(fs.nodes, q); }
    }
    assert Apart(fs.nodes, fs.nodes[p].children);
    FindInNone(g.nodes, g.nodes[p].children, fs.nodes[i].name);
  }

  lemma {:induction false} FindInLessOne(nodes: seq<Node>, nodes': seq<Node>, list: seq<int>, i: int, name: string)
    requires |nodes| == |nodes'| && 0 <= i < |nodes| && !nodes'[i].inUse
    requires forall j :: 0 <= j < |nodes| && j != i ==> nodes'[j].inUse == nodes[j].inUse && nodes'[j].name == nodes[j].name
    ensures FindIn(nodes', list, name) == FindIn(nodes, list, name) || FindIn(nodes, list, name) == i
  {
    if list != [] { FindInLessOne(nodes, nodes', list[1..], i, name); }
  }

  lemma {:induction false} FindInWithout(nodes: seq<Node>, list: seq<int>, i: int, name: string)
    requires 0 <= i < |nodes| && !nodes[i].inUse
    ensures FindIn(nodes, Without(list, i), name) == FindIn(nodes, list, name)
    decreases |list|
  {
    if list != [] && list[0] != i {
      var rest := Without(list[1..], i);
      assert Without(list, i) == [list[0]] + rest && ([list[0]] + rest)[1..] == rest;
      FindInWithout(nodes, list[1..], i, name);
    }
  }

  /** A look-up in a live directory other than the removed one finds what it found, or, if that was removed, nothing. */
  lemma FindAfterRemove(fs: Fs, depth: seq<nat>, i: int, m: int, name: string)
    requires Tree(fs, depth) && NamesDiffer(fs.nodes) && Remove(fs, i).1 == 0 && InPool(fs, m) && m != i
    ensures InPool(Remove(fs, i).0, m)
    ensures Find(Remove(fs, i).0, m, name) == if Find(fs, m, name) == i then -1 else Find(fs, m, name)
  {
    var g := Remove(fs, i).0;
    var p := fs.nodes[i].parent;
    RemoveEffect(fs, depth, i);
    assert Lists(fs.nodes, m);
    var list := fs.nodes[m].children;
    if Find(fs, m, name) == i {
      assert m == p;
    } else {
      FindInLessOne(fs.nodes, g.nodes, list, i, name);
      FindInWithout(g.nodes, list, i, name);
    }
    hide FindIn, Without, AllPlaced, AllList, CountLive, NamesDiffer, Placed;
  }

  lemma {:induction false} WalkAfterRemove(fs: Fs, depth: seq<nat>, i: int, parts: seq<string>)
    requires Tree(fs, depth) && NamesDiffer(fs.nodes) && Remove(fs, i).1 == 0
    ensures Walk(Remove(fs, i).0, parts) == Walk(fs, parts) || Walk(Remove(fs, i).0, parts) == -1
    ensures Walk(fs, parts) == i ==> Walk(Remove(fs, i).0, parts) == -1
  {
    var g := Remove(fs, i).0;
    if parts == [] { return; }
    var init, last := parts[..|parts| - 1], parts[|parts| - 1];
    WalkAfterRemove(fs, depth, i, init);
    var m := Walk(fs, init);
    if Walk(g, init) != -1 && m >= 0 {
      WalkIsNoDeeper(fs, depth, init);
      StepAfterRemove(fs, depth, i, m, last);
    }
    hide Tree, NamesDiffer, Remove, StepTo;
  }

  lemma StepAfterRemove(fs: Fs, depth: seq<nat>, i: int, m: int, component: string)
    requires Tree(fs, depth) && NamesDiffer(fs.nodes) && Remove(fs, i).1 == 0 && InPool(fs, m) && m != i
    ensures StepTo(Remove(fs, i).0, m, component) == if StepTo(fs, m, component) == i then -1 else StepTo(fs, m, component)
  {
    RemoveEffect(fs, depth, i);
    var g := Remove(fs, i).0;
    if component == "" || component == "." {
    } else if component == ".." {
      if m != 0 {
        assert Placed(fs.nodes, depth, m) && Lists(fs.nodes, i);
        assert fs.nodes[m].parent != i;
      }
      assert g.nodes[m].parent == fs.nodes[m].parent;
    } else {
      FindAfterRemove(fs, depth, i, m, Short(component));
    }
    hide Find, Remove, NamesDiffer, CountLive, AllPlaced, AllList;
  }

  /**
   No path leads to what was removed any more: each that did now leads nowhere,
   and every other leads where it led, or nowhere.
   */
  lemma RemovedPathsFail(fs: Fs, depth: seq<nat>, i: int, path: string)
    requires Tree(fs, depth) && NamesDiffer(fs.nodes) && Remove(fs, i).1 == 0
    ensures var g := Remove(fs, i).0;
      && (Resolve(g, path) == Resolve(fs, path) || Resolve(g, path) == -1)
      && (Resolve(fs, path) == i ==> Resolve(g, path) == -1)
  {
    if path != "" { WalkAfterRemove(fs, depth, i, Split(path[1..])); }
    hide Tree, NamesDiffer, Walk, Split;
  }

  // ---------------------------------------------------------------- contents

  /**
   A write to a file replaces its content by the first 2047 characters, an append
   adds as many as still fit in them; both report how many were taken, and leave
   every other node as it was. On anything but a file they are refused.
   */
  lemma ContentEffect(fs: Fs, i: int, data: string)
    requires ContentsFit(fs)
    ensures var (g, r) := Write(fs, i, data);
      if IsFile(fs, i) then
        && g == fs.(nodes := fs.nodes[i := fs.nodes[i].(content := g.nodes[i].content)]) && 0 <= r <= |data|
        && g.nodes[i].content == data[..r] && (r == |data| || r == MAX_CONTENT - 1)
      else g == fs && r == -1
    ensures IsFile(fs, i) ==> fs.nodes[i] in fs.nodes
    ensures var (g, r) := Append(fs, i, data);
      if IsFile(fs, i) then
        && g == fs.(nodes := fs.nodes[i := fs.nodes[i].(content := g.nodes[i].content)]) && 0 <= r <= |data|
        && g.nodes[i].content == fs.nodes[i].content + data[..r] && (r == |data| || |g.nodes[i].content| == MAX_CONTENT - 1)
      else g == fs && r == -1
  {
    if IsFile(fs, i) { assert fs.nodes[i] in fs.nodes; }
  }

  // ------------------------------------------------------------ dots in paths

  /** The components without empty ones and dots, a double dot taking back the one before it, if any. */
  function Normal(parts: seq<string>): seq<string> {
    if parts == [] then []
    else
      var before, last := Normal(parts[..|parts| - 1]), parts[|parts| - 1];
      if last == "" || last == "." then before
      else if last == ".." then (if before == [] then [] else before[..|before| - 1])
      else before + [last]
  }

  predicate Plain(component: string) {
    component != "" && component != "." && component != ".."
  }

  lemma {:induction false} NormalIsPlain(parts: seq<string>)
    ensures forall c <- Normal(parts) :: Plain(c) && c in parts
  {
    if parts != [] { NormalIsPlain(parts[..|parts| - 1]); }
  }

  /** One plain component less leads to the parent, none to the root. */
  lemma WalkBack(fs: Fs, depth: seq<nat>, parts: seq<string>)
    requires Tree(fs, depth) && Walk(fs, parts) >= 0 && forall c <- parts :: Plain(c)
    ensures var back := if parts == [] then [] else parts[..|parts| - 1];
      Walk(fs, back) == StepTo(fs, Walk(fs, parts), "..")
  {
    if parts != [] {
      var m, last := Walk(fs, parts[..|parts| - 1]), parts[|parts| - 1];
      assert Plain(last) by { assert last in parts; }
      FoundBelow(fs, depth, m, Short(last));
    }
  }

  /** Where a walk arrives, the plain components alone lead to as well. */
  lemma {:induction false} WalkIsNormal(fs: Fs, depth: seq<nat>, parts: seq<string>)
    requires Tree(fs, depth) && Walk(fs, parts) >= 0
    ensures Walk(fs, Normal(parts)) == Walk(fs, parts)
  {
    hide Tree, StepTo;
    if parts != [] {
      var init, last := parts[..|parts| - 1], parts[|parts| - 1];
      var before := Normal(init);
      WalkIsNormal(fs, depth, init);
      NormalIsPlain(init);
      if last == ".." {
        WalkBack(fs, depth, before);
      } else if last == "" || last == "." {
        assert StepTo(fs, Walk(fs, init), last) == Walk(fs, init) by { StandsStill(fs, Walk(fs, init), last); }
      } else {
        assert (before + [last])[..|before|] == before;
      }
    }
  }

  lemma StandsStill(fs: Fs, i: int, component: string)
    requires component == "" || component == "."
    ensures StepTo(fs, i, component) == i
  {
  }

  /**
   Only absolute paths resolve. One that does leads to the same node as the
   path without empty components and dots in which every double dot has taken
   back the component before it, or nothing at the root.
   */
  lemma PathIsNormal(fs: Fs, depth: seq<nat>, path: string)
    requires Tree(fs, depth) && Resolve(fs, path) >= 0
    ensures path != "" && path[0] == '/'
    ensures var parts := Normal(Split(path[1..]));
      Resolve(fs, if parts == [] then "/" else Slashed(parts)) == Resolve(fs, path)
  {
    var parts := Split(path[1..]);
    if path == "/" {
      assert path[1..] == "" && Normal([""][..0]) == [];
      assert Normal([""]) == [];
    } else {
      WalkIsNormal(fs, depth, parts);
      NormalIsPlain(parts);
      SplitHasNoSlash(path[1..]);
      var normal := Normal(parts);
      hide Walk, Tree, Split, Normal;
      if normal != [] {
        SplitSlashed(normal);
        if Slashed(normal) == "/" { OnlySlash(normal); }
      }
    }
  }

  lemma OnlySlash(parts: seq<string>)
    requires parts != [] && Slashed(parts) == "/"
    ensures parts[|parts| - 1] == ""
  {
    assert |Slashed(parts)| == |Slashed(parts[..|parts| - 1])| + 1 + |parts[|parts| - 1]|;
  }
}
