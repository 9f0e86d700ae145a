/**
 The RAM filesystem as a pool of 64 inodes linked by parent indices and child
 lists. The functions say what each call does to the pool; the lemmas say that
 the pool stays one tree with its root at slot 0.
 */
module Ramfs {
  import opened Words

  const MAX_NODES: nat := 64
  const MAX_NAME: nat := 32
  const MAX_CONTENT: nat := 2048
  const MAX_CHILDREN: nat := 16

  datatype Kind = File | Dir

  /** One inode: a name is a C string without its terminator, children are slot numbers in list order. */
  datatype Node = Node(name: string, kind: Kind, inUse: bool, content: string, children: seq<int>, parent: int)

  datatype Fs = Fs(nodes: seq<Node>, count: int)

  // -------------------------------------------------------------- the calls

  /** What a bounded string copy keeps of a name. */
  function Short(name: string): string {
    name[..Min(|name|, MAX_NAME - 1)]
  }

  predicate InPool(fs: Fs, i: int) {
    0 <= i < |fs.nodes| && fs.nodes[i].inUse
  }

  predicate IsDir(fs: Fs, i: int) {
    InPool(fs, i) && fs.nodes[i].kind == Dir
  }

  predicate IsFile(fs: Fs, i: int) {
    InPool(fs, i) && fs.nodes[i].kind == File
  }

  /** The first of the listed slots that is in use and has the name, or -1. */
  function FindIn(nodes: seq<Node>, list: seq<int>, name: string): (c: int)
    ensures c == -1 || (c in list && 0 <= c < |nodes| && nodes[c].inUse && nodes[c].name == name)
  {
    if list == [] then -1
    else if 0 <= list[0] < |nodes| && nodes[list[0]].inUse && nodes[list[0]].name == name then list[0]
    else FindIn(nodes, list[1..], name)
  }

  function Find(fs: Fs, parent: int, name: string): int {
    if IsDir(fs, parent) then FindIn(fs.nodes, fs.nodes[parent].children, name) else -1
  }

  function FirstUnused(nodes: seq<Node>): (i: nat)
    ensures i <= |nodes|
    ensures i < |nodes| ==> !nodes[i].inUse
    ensures forall j :: 0 <= j < i ==> nodes[j].inUse
  {
    if nodes == [] || !nodes[0].inUse then 0
    else
      var i := FirstUnused(nodes[1..]);
      assert forall j :: 1 <= j <= i ==> nodes[j] == nodes[1..][j - 1];
      i + 1
  }

  /** ramfs_create and ramfs_mkdir. */
  function Create(fs: Fs, parent: int, name: string, kind: Kind): (r: (Fs, int)) {
    if !IsDir(fs, parent) || |fs.nodes[parent].children| >= MAX_CHILDREN then (fs, -1)
    else if Find(fs, parent, name) >= 0 then (fs, -1)
    else
      var i: int := FirstUnused(fs.nodes);
      if i == |fs.nodes| then (fs, -1)
      else (Fs(Linked(fs.nodes, parent, i, Short(name), kind), fs.count + 1), i)
  }

  /** The pool with an empty node of that name and kind at slot i, listed last in parent. */
  function Linked(nodes: seq<Node>, parent: nat, i: nat, name: string, kind: Kind): seq<Node>
    requires parent < |nodes| && i < |nodes|
  {
    var added := nodes[i := Node(name, kind, true, [], [], parent)];
    added[parent := added[parent].(children := added[parent].children + [i])]
  }

  function Without(list: seq<int>, x: int): (r: seq<int>)
    ensures x !in list ==> r == list
    ensures |r| == if x in list then |list| - 1 else |list|
  {
    if list == [] then []
    else if list[0] == x then list[1..]
    else [list[0]] + Without(list[1..], x)
  }

  function Remove(fs: Fs, i: int): (r: (Fs, int)) {
    if i == 0 || !InPool(fs, i) then (fs, -1)
    else if fs.nodes[i].kind == Dir && fs.nodes[i].children != [] then (fs, -1)
    else
      var p := fs.nodes[i].parent;
      var unlinked := if InPool(fs, p)
        then fs.nodes[p := fs.nodes[p].(children := Without(fs.nodes[p].children, i))]
        else fs.nodes;
      (Fs(unlinked[i := unlinked[i].(inUse := false)], fs.count - 1), 0)
  }

  function Write(fs: Fs, i: int, data: string): (Fs, int) {
    if !IsFile(fs, i) then (fs, -1) else
    var kept := data[..Min(|data|, MAX_CONTENT - 1)];
    (fs.(nodes := fs.nodes[i := fs.nodes[i].(content := kept)]), |kept|)
  }

  function Append(fs: Fs, i: int, data: string): (Fs, int)
    requires IsFile(fs, i) ==> |fs.nodes[i].content| <= MAX_CONTENT - 1
  {
    if !IsFile(fs, i) then (fs, -1) else
    var kept := data[..Min(|data|, MAX_CONTENT - 1 - |fs.nodes[i].content|)];
    (fs.(nodes := fs.nodes[i := fs.nodes[i].(content := fs.nodes[i].content + kept)]), |kept|)
  }

  // --------------------------------------------------------------- the tree

  ghost predicate Distinct(s: seq<int>) {
    forall j, k :: 0 <= j < k < |s| ==> s[j] != s[k]
  }

  /** Node i of the pool knows its place: its parent is a live directory that lists it, one level up. */
  ghost predicate Placed(nodes: seq<Node>, depth: seq<nat>, i: int)
    requires |depth| == |nodes| && 0 <= i < |nodes|
  {
    var p := nodes[i].parent;
    && 0 <= p < |nodes| && nodes[p].inUse && nodes[p].kind == Dir
    && i in nodes[p].children
    && depth[i] == depth[p] + 1
  }

  /** Everything p lists is live and names p as its parent; nothing is listed twice. */
  ghost predicate Lists(nodes: seq<Node>, p: int)
    requires 0 <= p < |nodes|
  {
    && Distinct(nodes[p].children)
    && |nodes[p].children| <= MAX_CHILDREN
    && (nodes[p].kind == File ==> nodes[p].children == [])
    && forall c <- nodes[p].children :: 0 < c < |nodes| && nodes[c].inUse && nodes[c].parent == p
  }

  function CountLive(nodes: seq<Node>): nat {
    if nodes == [] then 0 else (if nodes[0].inUse then 1 else 0) + CountLive(nodes[1..])
  }

  ghost predicate AllPlaced(nodes: seq<Node>, depth: seq<nat>) {
    && |nodes| == |depth|
    && forall i {:trigger Placed(nodes, depth, i)} :: 0 < i < |nodes| && nodes[i].inUse ==> Placed(nodes, depth, i)
  }

  ghost predicate AllList(nodes: seq<Node>) {
    forall p {:trigger Lists(nodes, p)} :: 0 <= p < |nodes| && nodes[p].inUse ==> Lists(nodes, p)
  }

  predicate Rooted(nodes: seq<Node>) {
    |nodes| == MAX_NODES && nodes[0].inUse && nodes[0].kind == Dir && nodes[0].parent == -1
  }

  /** One tree rooted at slot 0, depth[i] steps below it for a live node i. */
  ghost predicate Tree(fs: Fs, depth: seq<nat>) {
    && Rooted(fs.nodes)
    && AllPlaced(fs.nodes, depth) && depth[0] == 0
    && AllList(fs.nodes)
    && fs.count == CountLive(fs.nodes)
  }

  /** The pool when ramfs_init has made the root: all other slots are still zero. */
  function Empty(): Fs {
    Fs(seq(MAX_NODES, i => if i == 0 then Node("/", Dir, true, "", [], -1) else Node("", File, false, "", [], 0)), 1)
  }

  lemma {:induction false} CountUpdate(nodes: seq<Node>, i: nat, n: Node)
    requires i < |nodes|
    ensures CountLive(nodes[i := n]) ==
      CountLive(nodes) - (if nodes[i].inUse then 1 else 0) + (if n.inUse then 1 else 0)
  {
    if i == 0 {
      assert nodes[i := n][1..] == nodes[1..];
    } else {
      assert nodes[i := n][1..] == nodes[1..][i - 1 := n];
      CountUpdate(nodes[1..], i - 1, n);
    }
  }

  lemma {:induction false} CountNone(nodes: seq<Node>)
    requires forall n <- nodes :: !n.inUse
    ensures CountLive(nodes) == 0
  {
    if nodes != [] { CountNone(nodes[1..]); }
  }

  lemma EmptyIsTree()
    ensures Tree(Empty(), seq(MAX_NODES, _ => 0))
  {
    CountNone(Empty().nodes[1..]);
  }

  // ------------------------------------------------ every call keeps a tree

  /** Nothing live points at a slot that is not in use. */
  lemma UnusedIsUnlinked(nodes: seq<Node>, depth: seq<nat>, i: nat)
    requires AllPlaced(nodes, depth) && AllList(nodes) && i < |nodes| && !nodes[i].inUse
    ensures forall p :: 0 <= p < |nodes| && nodes[p].inUse ==> i !in nodes[p].children
    ensures forall c :: 0 < c < |nodes| && nodes[c].inUse ==> nodes[c].parent != i
  {
    forall p | 0 <= p < |nodes| && nodes[p].inUse ensures i !in nodes[p].children {
      assert Lists(nodes, p);
    }
    forall c | 0 < c < |nodes| && nodes[c].inUse ensures nodes[c].parent != i {
      assert Placed(nodes, depth, c);
    }
  }

  lemma LinkedPlaces(nodes: seq<Node>, depth: seq<nat>, parent: nat, i: nat, name: string, kind: Kind)
    requires AllPlaced(nodes, depth) && AllList(nodes)
    requires parent < |nodes| && nodes[parent].inUse && nodes[parent].kind == Dir
    requires i < |nodes| && !nodes[i].inUse
    ensures AllPlaced(Linked(nodes, parent, i, name, kind), depth[i := depth[parent] + 1])
  {
    UnusedIsUnlinked(nodes, depth, i);
    hide AllList;
    var linked := Linked(nodes, parent, i, name, kind);
    var d := depth[i := depth[parent] + 1];
    forall c | 0 < c < |nodes| && linked[c].inUse ensures Placed(linked, d, c) {
      if c != i { assert Placed(nodes, depth, c); }
    }
  }

  lemma LinkedListsAll(nodes: seq<Node>, depth: seq<nat>, parent: nat, i: nat, name: string, kind: Kind)
    requires AllPlaced(nodes, depth) && AllList(nodes)
    requires parent < |nodes| && nodes[parent].inUse && nodes[parent].kind == Dir
    requires 0 < i < |nodes| && !nodes[i].inUse && |nodes[parent].children| < MAX_CHILDREN
    ensures AllList(Linked(nodes, parent, i, name, kind))
  {
    UnusedIsUnlinked(nodes, depth, i);
    hide AllPlaced;
    var linked := Linked(nodes, parent, i, name, kind);
    forall p | 0 <= p < |nodes| && linked[p].inUse ensures Lists(linked, p) {
      if p != i { assert Lists(nodes, p); }
    }
  }

  lemma LinkedCounts(nodes: seq<Node>, parent: nat, i: nat, name: string, kind: Kind)
    requires parent < |nodes| && i < |nodes| && nodes[parent].inUse && !nodes[i].inUse
    ensures CountLive(Linked(nodes, parent, i, name, kind)) == CountLive(nodes) + 1
  {
    var node := Node(name, kind, true, [], [], parent);
    var added := nodes[i := node];
    CountUpdate(nodes, i, node);
    CountUpdate(added, parent, added[parent].(children := added[parent].children + [i]));
  }

  lemma CreateKeepsTree(fs: Fs, depth: seq<nat>, parent: int, name: string, kind: Kind) returns (d: seq<nat>)
    requires Tree(fs, depth)
    ensures Tree(Create(fs, parent, name, kind).0, d)
  {
    assert |depth| == |fs.nodes|;
    hide AllPlaced, AllList, CountLive, Find;
    var (g, i) := Create(fs, parent, name, kind);
    if i < 0 { return depth; }
    d := depth[i := depth[parent] + 1];
    LinkedPlaces(fs.nodes, depth, parent, i, Short(name), kind);
    LinkedListsAll(fs.nodes, depth, parent, i, Short(name), kind);
    LinkedCounts(fs.nodes, parent, i, Short(name), kind);
  }

  lemma {:induction false} WithoutAt(a: seq<int>, b: seq<int>, x: int)
    requires x !in a && (b == [] || b[0] == x)
    ensures Without(a + b, x) == a + if b == [] then [] else b[1..]
  {
    if a == [] {
      assert a + b == b;
    } else {
      assert (a + b)[1..] == a[1..] + b;
      WithoutAt(a[1..], b, x);
    }
  }

  lemma {:induction false} WithoutIsWithin(list: seq<int>, x: int)
    ensures forall y <- Without(list, x) :: y in list
  {
    if list != [] && list[0] != x { WithoutIsWithin(list[1..], x); }
  }

  lemma WithoutIndex(list: seq<int>, i: nat, x: int)
    requires i < |list| && list[i] == x && x !in list[..i]
    ensures |Without(list, x)| == |list| - 1
    ensures forall k :: 0 <= k < i ==> Without(list, x)[k] == list[k]
    ensures forall k :: i <= k < |list| - 1 ==> Without(list, x)[k] == list[k + 1]
  {
    assert list == list[..i] + list[i..];
    WithoutAt(list[..i], list[i..], x);
  }

  lemma WithoutIsRest(list: seq<int>, x: int)
    requires Distinct(list)
    ensures Distinct(Without(list, x))
    ensures forall y :: y in Without(list, x) <==> y in list && y != x
  {
    hide Without;
    if x in list {
      var i :| 0 <= i < |list| && list[i] == x;
      WithoutIndex(list, i, x);
      WithoutIsWithin(list, x);
      var r := Without(list, x);
      forall y | y in list && y != x ensures y in r {
        var j :| 0 <= j < |list| && list[j] == y;
        assert r[if j < i then j else j - 1] == y;
      }
    }
  }

  /** The pool with the listed live node i taken out of its parent p and released. */
  function Unlinked(nodes: seq<Node>, p: nat, i: nat): seq<Node>
    requires p < |nodes| && i < |nodes|
  {
    var cut := nodes[p := nodes[p].(children := Without(nodes[p].children, i))];
    cut[i := cut[i].(inUse := false)]
  }

  lemma UnlinkedPlaces(nodes: seq<Node>, depth: seq<nat>, i: nat)
    requires AllPlaced(nodes, depth) && AllList(nodes)
    requires 0 < i < |nodes| && nodes[i].inUse && nodes[i].children == []
    ensures 0 <= nodes[i].parent < |nodes| && nodes[nodes[i].parent].inUse && nodes[i].parent != i
    ensures AllPlaced(Unlinked(nodes, nodes[i].parent, i), depth)
  {
    assert Placed(nodes, depth, i);
    var p := nodes[i].parent;
    assert Lists(nodes, p);
    WithoutIsRest(nodes[p].children, i);
    hide AllList, Lists, Distinct, Without;
    var cut := Unlinked(nodes, p, i);
    forall c | 0 < c < |nodes| && cut[c].inUse ensures Placed(cut, depth, c) {
      assert Placed(nodes, depth, c);
      assert nodes[c].parent != i;
    }
  }

  lemma UnlinkedListsAll(nodes: seq<Node>, i: nat)
    requires AllList(nodes)
    requires i < |nodes| && nodes[i].inUse
    requires 0 <= nodes[i].parent < |nodes| && nodes[nodes[i].parent].inUse && nodes[i].parent != i
    ensures AllList(Unlinked(nodes, nodes[i].parent, i))
  {
    var p := nodes[i].parent;
    assert Lists(nodes, p);
    WithoutIsRest(nodes[p].children, i);
    hide Without, Distinct;
    var cut := Unlinked(nodes, p, i);
    forall q | 0 <= q < |nodes| && cut[q].inUse ensures Lists(cut, q) {
      assert Lists(nodes, q);
    }
  }

  lemma RemoveKeepsTree(fs: Fs, depth: seq<nat>, i: int)
    requires Tree(fs, depth)
    ensures Tree(Remove(fs, i).0, depth)
  {
    var (g, r) := Remove(fs, i);
    if r < 0 { return; }
    if fs.nodes[i].kind == File { assert Lists(fs.nodes, i); }
    UnlinkedPlaces(fs.nodes, depth, i);
    UnlinkedListsAll(fs.nodes, i);
    var p := fs.nodes[i].parent;
    CountUpdate(fs.nodes, p, fs.nodes[p].(children := Without(fs.nodes[p].children, i)));
    var cut := fs.nodes[p := fs.nodes[p].(children := Without(fs.nodes[p].children, i))];
    hide AllPlaced, AllList, CountLive, Without;
    CountUpdate(cut, i, cut[i].(inUse := false));
    assert g.nodes == Unlinked(fs.nodes, p, i);
  }

  lemma ContentKeepsTree(fs: Fs, depth: seq<nat>, i: int, content: string)
    requires Tree(fs, depth) && InPool(fs, i)
    ensures Tree(fs.(nodes := fs.nodes[i := fs.nodes[i].(content := content)]), depth)
  {
    var n := fs.nodes[i].(content := content);
    var nodes := fs.nodes[i := n];
    CountUpdate(fs.nodes, i, n);
    forall c | 0 < c < MAX_NODES && nodes[c].inUse ensures Placed(nodes, depth, c) {
      assert Placed(fs.nodes, depth, c);
    }
    forall q | 0 <= q < MAX_NODES && nodes[q].inUse ensures Lists(nodes, q) {
      assert Lists(fs.nodes, q);
    }
  }

  // ------------------------------------------------------------------- runs

  datatype Op =
    | CreateOp(parent: int, name: string, kind: Kind)
    | RemoveOp(node: int)
    | WriteOp(node: int, data: string)
    | AppendOp(node: int, data: string)

  function Apply(fs: Fs, op: Op): Fs
    requires ContentsFit(fs)
  {
    match op
    case CreateOp(parent, name, kind) => Create(fs, parent, name, kind).0
    case RemoveOp(i) => Remove(fs, i).0
    case WriteOp(i, data) => Write(fs, i, data).0
    case AppendOp(i, data) => Append(fs, i, data).0
  }

  /** Every file keeps room for its terminator, every name for its own. */
  predicate ContentsFit(fs: Fs) {
    forall n <- fs.nodes :: |n.content| <= MAX_CONTENT - 1 && |n.name| <= MAX_NAME - 1
  }

  lemma ApplyKeepsFit(fs: Fs, op: Op)
    requires ContentsFit(fs) && fs.nodes != []
    ensures ContentsFit(Apply(fs, op))
  {
    var g := Apply(fs, op);
    forall n | n in g.nodes ensures |n.content| <= MAX_CONTENT - 1 && |n.name| <= MAX_NAME - 1 {
      var j :| 0 <= j < |g.nodes| && g.nodes[j] == n;
      if j < |fs.nodes| { assert fs.nodes[j] in fs.nodes; }
    }
  }

  /** The calls ops, made in this order, lead from fs to g. */
  ghost predicate Run(fs: Fs, ops: seq<Op>, g: Fs)
    requires ContentsFit(fs)
    decreases |ops|
  {
    if ops == [] then g == fs
    else ContentsFit(Apply(fs, ops[0])) && Run(Apply(fs, ops[0]), ops[1..], g)
  }

  lemma ApplyKeepsTree(fs: Fs, depth: seq<nat>, op: Op) returns (d: seq<nat>)
    requires Tree(fs, depth) && ContentsFit(fs)
    ensures Tree(Apply(fs, op), d)
  {
    d := depth;
    match op
    case CreateOp(parent, name, kind) => d := CreateKeepsTree(fs, depth, parent, name, kind);
    case RemoveOp(i) => RemoveKeepsTree(fs, depth, i);
    case WriteOp(i, data) =>
      if IsFile(fs, i) { ContentKeepsTree(fs, depth, i, Apply(fs, op).nodes[i].content); }
    case AppendOp(i, data) =>
      if IsFile(fs, i) { ContentKeepsTree(fs, depth, i, Apply(fs, op).nodes[i].content); }
  }

  /** Any run of calls, slots being reused at will, keeps the pool one tree. */
  lemma {:induction false} RunKeepsTree(fs: Fs, depth: seq<nat>, ops: seq<Op>, g: Fs) returns (d: seq<nat>)
    requires Tree(fs, depth) && ContentsFit(fs) && Run(fs, ops, g)
    ensures Tree(g, d)
    decreases |ops|
  {
    if ops == [] { return depth; }
    var d1 := ApplyKeepsTree(fs, depth, ops[0]);
    d := RunKeepsTree(Apply(fs, ops[0]), d1, ops[1..], g);
  }

  // ------------------------------------------- what being one tree amounts to

  /** The node k parents up from i, -1 above the root. */
  function Up(fs: Fs, i: int, k: nat): int
    decreases k
  {
    if k == 0 then i
    else if 0 <= i < |fs.nodes| then Up(fs, fs.nodes[i].parent, k - 1)
    else -1
  }

  /** From every live node the parents lead to the root, after depth[i] steps and no earlier. */
  lemma {:induction false} ParentsReachRoot(fs: Fs, depth: seq<nat>, i: int, k: nat)
    requires Tree(fs, depth) && InPool(fs, i) && k <= depth[i]
    ensures InPool(fs, Up(fs, i, k)) && depth[Up(fs, i, k)] == depth[i] - k
    ensures Up(fs, i, k) == 0 <==> k == depth[i]
    decreases k
  {
    if i != 0 { assert Placed(fs.nodes, depth, i); }
    if k > 0 { ParentsReachRoot(fs, depth, fs.nodes[i].parent, k - 1); }
  }

  /** A live node other than the root stands in its parent's child list, once, and in no other live node's. */
  lemma ListedOnce(fs: Fs, depth: seq<nat>, i: int)
    requires Tree(fs, depth) && InPool(fs, i) && i != 0
    ensures IsDir(fs, fs.nodes[i].parent)
    ensures multiset(fs.nodes[fs.nodes[i].parent].children)[i] == 1
    ensures forall p :: InPool(fs, p) && i in fs.nodes[p].children ==> p == fs.nodes[i].parent
  {
    var q := fs.nodes[i].parent;
    assert Placed(fs.nodes, depth, i) && Lists(fs.nodes, q);
    var list := fs.nodes[q].children;
    var k :| 0 <= k < |list| && list[k] == i;
    assert list == list[..k] + [i] + list[k + 1..];
    assert i !in list[..k] && i !in list[k + 1..];
    forall p | InPool(fs, p) && i in fs.nodes[p].children ensures p == q {
      assert Lists(fs.nodes, p);
    }
  }

  // ---------------------------------------------------------- sibling names

  /** No two of the listed nodes have the same name. */
  ghost predicate Apart(nodes: seq<Node>, list: seq<int>) {
    forall c, e :: c in list && e in list && c != e && 0 <= c < |nodes| && 0 <= e < |nodes| ==>
      nodes[c].name != nodes[e].name
  }

  /** No two children of a directory have the same name. */
  ghost predicate NamesDiffer(nodes: seq<Node>) {
    forall p :: 0 <= p < |nodes| && nodes[p].inUse ==> Apart(nodes, nodes[p].children)
  }

  lemma {:induction false} FindInFails(nodes: seq<Node>, list: seq<int>, name: string)
    requires forall c <- list :: 0 <= c < |nodes| && nodes[c].inUse
    ensures FindIn(nodes, list, name) == -1 <==> forall c <- list :: nodes[c].name != name
  {
    if list != [] {
      assert forall c :: c in list <==> c == list[0] || c in list[1..];
      FindInFails(nodes, list[1..], name);
    }
  }

  /** Linking a node keeps names apart exactly if none of its new siblings has its name. */
  lemma LinkedApartIff(nodes: seq<Node>, depth: seq<nat>, parent: nat, i: nat, name: string, kind: Kind)
    requires AllPlaced(nodes, depth) && AllList(nodes) && NamesDiffer(nodes)
    requires parent < |nodes| && nodes[parent].inUse
    requires 0 < i < |nodes| && !nodes[i].inUse
    ensures NamesDiffer(Linked(nodes, parent, i, name, kind)) <==> FindIn(nodes, nodes[parent].children, name) == -1
  {
    UnusedIsUnlinked(nodes, depth, i);
    assert Lists(nodes, parent);
    var list := nodes[parent].children;
    FindInFails(nodes, list, name);
    hide AllPlaced, AllList, Lists;
    var linked := Linked(nodes, parent, i, name, kind);
    assert linked[parent].children == list + [i];
    if FindIn(nodes, list, name) == -1 {
      forall p | 0 <= p < |linked| && linked[p].inUse ensures Apart(linked, linked[p].children) {
        if p != i { assert Apart(nodes, nodes[p].children); }
      }
    } else {
      var c := FindIn(nodes, list, name);
      assert c in linked[parent].children && i in linked[parent].children && c != i;
      assert linked[c].name == linked[i].name;
      assert !Apart(linked, linked[parent].children);
    }
  }

  /**
   A successful create keeps sibling names apart exactly if the name as stored
   (its first 31 characters) is not taken in the directory. The look-up that
   guards create compares the whole name, so a longer name can slip past it.
   */
  lemma CreateKeepsNamesApartIff(fs: Fs, depth: seq<nat>, parent: int, name: string, kind: Kind)
    requires Tree(fs, depth) && NamesDiffer(fs.nodes) && Create(fs, parent, name, kind).1 >= 0
    ensures NamesDiffer(Create(fs, parent, name, kind).0.nodes) <==> Find(fs, parent, Short(name)) == -1
    ensures |name| <= MAX_NAME - 1 ==> Find(fs, parent, Short(name)) == -1
  {
    hide NamesDiffer, AllPlaced, AllList, FindIn, Linked;
    LinkedApartIff(fs.nodes, depth, parent, Create(fs, parent, name, kind).1, Short(name), kind);
    if |name| <= MAX_NAME - 1 { assert Short(name) == name; }
  }

  /** Two 32-character names that share their first 31 characters are both created in the same directory. */
  lemma LongNamesCollide(stem: string)
    requires |stem| == MAX_NAME - 1
    ensures
      var (f, a) := Create(Empty(), 0, stem + "a", File);
      var (g, b) := Create(f, 0, stem + "b", File);
      a == 1 && b == 2 && g.nodes[1].name == g.nodes[2].name == stem && !NamesDiffer(g.nodes)
  {
    var (f, a) := Create(Empty(), 0, stem + "a", File);
    FirstIs(Empty().nodes, 1);
    assert Short(stem + "a") == stem == Short(stem + "b");
    assert f.nodes[0].children == [1];
    FirstIs(f.nodes, 2);
    assert |stem + "b"| != |stem|;
    assert FindIn(f.nodes, [1], stem + "b") == FindIn(f.nodes, [], stem + "b") by { assert [1][1..] == []; }
    var (g, b) := Create(f, 0, stem + "b", File);
    assert g.nodes[0].children == [1, 2];
    assert 1 in g.nodes[0].children && 2 in g.nodes[0].children;
    assert !Apart(g.nodes, g.nodes[0].children);
  }

  lemma FirstIs(nodes: seq<Node>, i: nat)
    requires i < |nodes| && !nodes[i].inUse
    requires forall j :: 0 <= j < i ==> nodes[j].inUse
    ensures FirstUnused(nodes) == i
  {
  }

  lemma RemoveKeepsNamesApart(fs: Fs, depth: seq<nat>, i: int)
    requires Tree(fs, depth) && NamesDiffer(fs.nodes)
    ensures NamesDiffer(Remove(fs, i).0.nodes)
  {
    var (g, r) := Remove(fs, i);
    if r < 0 { return; }
    assert Placed(fs.nodes, depth, i) && Lists(fs.nodes, fs.nodes[i].parent);
    WithoutIsRest(fs.nodes[fs.nodes[i].parent].children, i);
    hide AllPlaced, AllList, Lists, Without, CountLive;
    forall p | 0 <= p < |g.nodes| && g.nodes[p].inUse ensures Apart(g.nodes, g.nodes[p].children) {
      assert Apart(fs.nodes, fs.nodes[p].children);
    }
  }

  lemma ContentKeepsNamesApart(fs: Fs, i: int, content: string)
    requires NamesDiffer(fs.nodes) && InPool(fs, i)
    ensures NamesDiffer(fs.nodes[i := fs.nodes[i].(content := content)])
  {
    var nodes := fs.nodes[i := fs.nodes[i].(content := content)];
    forall p | 0 <= p < |nodes| && nodes[p].inUse ensures Apart(nodes, nodes[p].children) {
      assert Apart(fs.nodes, fs.nodes[p].children);
    }
  }

  /** Unless the call creates a node with a name that is taken once it is cut, sibling names stay distinct. */
  lemma ApplyKeepsNamesApartIff(fs: Fs, depth: seq<nat>, op: Op)
    requires Tree(fs, depth) && ContentsFit(fs) && NamesDiffer(fs.nodes)
    ensures NamesDiffer(Apply(fs, op).nodes) <==>
      !(op.CreateOp? && Create(fs, op.parent, op.name, op.kind).1 >= 0 && Find(fs, op.parent, Short(op.name)) >= 0)
  {
    hide NamesDiffer, AllPlaced, AllList, FindIn, Linked, CountLive;
    match op
    case CreateOp(parent, name, kind) =>
      if Create(fs, parent, name, kind).1 >= 0 {
        CreateKeepsNamesApartIff(fs, depth, parent, name, kind);
        FindRange(fs, parent, Short(name));
      }
    case RemoveOp(i) => RemoveKeepsNamesApart(fs, depth, i);
    case WriteOp(i, data) =>
      if IsFile(fs, i) { ContentKeepsNamesApart(fs, i, Apply(fs, op).nodes[i].content); }
    case AppendOp(i, data) =>
      if IsFile(fs, i) { ContentKeepsNamesApart(fs, i, Apply(fs, op).nodes[i].content); }
  }

  lemma FindRange(fs: Fs, parent: int, name: string)
    ensures Find(fs, parent, name) >= -1
  {
  }

  /** The names given to what the calls create are stored whole. */
  predicate NamesFit(ops: seq<Op>) {
    forall op <- ops :: op.CreateOp? ==> |op.name| <= MAX_NAME - 1
  }

  /** Any run of calls that create nothing under a longer name keeps siblings' names distinct. */
  lemma {:induction false} RunKeepsNamesApart(fs: Fs, depth: seq<nat>, ops: seq<Op>, g: Fs)
    requires Tree(fs, depth) && ContentsFit(fs) && NamesDiffer(fs.nodes) && Run(fs, ops, g) && NamesFit(ops)
    ensures ContentsFit(g) && NamesDiffer(g.nodes)
    decreases |ops|
  {
    if ops != [] {
      var op := ops[0];
      assert op in ops && forall o :: o in ops[1..] ==> o in ops;
      hide Tree, NamesDiffer, ContentsFit, FindIn;
      ApplyKeepsNamesApartIff(fs, depth, op);
      if op.CreateOp? { assert Short(op.name) == op.name; }
      var d := ApplyKeepsTree(fs, depth, op);
      RunKeepsNamesApart(Apply(fs, op), d, ops[1..], g);
    }
  }

  /** A pool that calls have made of the empty one, under names that are stored whole. */
  ghost predicate Reachable(g: Fs) {
    ContentsFit(Empty()) && exists ops :: NamesFit(ops) && Run(Empty(), ops, g)
  }

  lemma ReachableIsTree(g: Fs) returns (depth: seq<nat>)
    requires Reachable(g)
    ensures Tree(g, depth) && ContentsFit(g) && NamesDiffer(g.nodes)
  {
    EmptyIsTree();
    EmptyNamesDiffer();
    hide Tree, Empty;
    var ops :| NamesFit(ops) && Run(Empty(), ops, g);
    RunKeepsNamesApart(Empty(), seq(MAX_NODES, _ => 0), ops, g);
    depth := RunKeepsTree(Empty(), seq(MAX_NODES, _ => 0), ops, g);
  }

  lemma EmptyNamesDiffer()
    ensures NamesDiffer(Empty().nodes)
  {
  }
}
