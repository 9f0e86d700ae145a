/**
 Paths of the RAM filesystem: the resolver as a walk over the components
 between slashes, the path printer, and the exact condition under which
 resolving what was printed for a node leads back to it.
 */
module RamfsPaths {
  import opened Words
  import opened Ramfs

  const MAX_LEVELS: nat := 7

  // ----------------------------------------------------------- the resolver

  /** The pieces of s between its slashes; one piece more than there are slashes. */
  function Split(s: string): (r: seq<string>)
    ensures r != []
  {
    if s == [] then [""]
    else
      var r := Split(s[..|s| - 1]);
      var c := s[|s| - 1];
      if c == '/' then r + [""] else r[..|r| - 1] + [r[|r| - 1] + [c]]
  }

  /** From one node along one component. */
  function StepTo(fs: Fs, cur: int, component: string): int {
    if component == "" || component == "." then cur
    else if component == ".." then
      if 0 <= cur < |fs.nodes| && fs.nodes[cur].parent >= 0 then fs.nodes[cur].parent else cur
    else Find(fs, cur, Short(component))
  }

  /** From the root along all components in turn; -1 once a component is not found. */
  function Walk(fs: Fs, parts: seq<string>): int {
    if parts == [] then 0
    else
      var m := Walk(fs, parts[..|parts| - 1]);
      if m < 0 then -1 else StepTo(fs, m, parts[|parts| - 1])
  }

  function Resolve(fs: Fs, path: string): int {
    if path == "" || path[0] != '/' then -1
    else if path == "/" then 0
    else Walk(fs, Split(path[1..]))
  }

  // ------------------------------------------------------------ the printer

  /** The number of parents above i, counted up to k. */
  function Levels(fs: Fs, i: int, k: nat): nat
    decreases k
  {
    if k == 0 || !(0 <= i < |fs.nodes|) || fs.nodes[i].parent < 0 then 0
    else 1 + Levels(fs, fs.nodes[i].parent, k - 1)
  }

  /** The names of i and of the k-1 nodes above it, topmost first. */
  function NamesTo(fs: Fs, i: int, k: nat): (r: seq<string>)
    ensures |r| <= k
    decreases k
  {
    if k == 0 || !(0 <= i < |fs.nodes|) then []
    else NamesTo(fs, fs.nodes[i].parent, k - 1) + [fs.nodes[i].name]
  }

  /** Every part with a slash before it. */
  function Slashed(parts: seq<string>): string {
    if parts == [] then "" else Slashed(parts[..|parts| - 1]) + "/" + parts[|parts| - 1]
  }

  /** What a bounded copy into a buffer of that size keeps. */
  function Clip(s: string, buflen: nat): string
    requires buflen >= 1
  {
    s[..Min(|s|, buflen - 1)]
  }

  /** The path of i before it is cut to the buffer: its last seven components. */
  function PathText(fs: Fs, i: int): string {
    if !InPool(fs, i) || fs.nodes[i].parent < 0 then "/"
    else Slashed(NamesTo(fs, i, Levels(fs, i, MAX_LEVELS)))
  }

  function GetPath(fs: Fs, i: int, buflen: nat): string
    requires buflen >= 2
  {
    Clip(PathText(fs, i), buflen)
  }

  /** Appending piece by piece with a cut each time is one cut at the end. */
  lemma ClipOnce(a: string, b: string, buflen: nat)
    requires buflen >= 1
    ensures Clip(Clip(a, buflen) + b, buflen) == Clip(a + b, buflen)
  {
  }

  // -------------------------------------------------------- slashed and split

  lemma {:induction false} SplitAtSlash(a: string, b: string)
    requires '/' !in b
    ensures Split(a + "/" + b) == Split(a) + [b]
  {
    var s := a + "/" + b;
    if b == "" {
      assert s[..|s| - 1] == a;
    } else {
      var b' := b[..|b| - 1];
      assert s[..|s| - 1] == a + "/" + b';
      SplitAtSlash(a, b');
      assert s[|s| - 1] == b[|b| - 1] && b[|b| - 1] in b;
      assert (Split(a) + [b'])[..|Split(a)|] == Split(a);
      assert b' + [b[|b| - 1]] == b;
    }
  }

  lemma {:induction false} SplitPlain(b: string)
    requires '/' !in b
    ensures Split(b) == [b]
  {
    if b != "" {
      SplitPlain(b[..|b| - 1]);
      assert b[|b| - 1] in b;
      assert b[..|b| - 1] + [b[|b| - 1]] == b;
    }
  }

  /** Split undoes Slashed on slash-free parts... */
  lemma {:induction false} SplitSlashed(parts: seq<string>)
    requires parts != [] && forall p <- parts :: '/' !in p
    ensures Slashed(parts)[0] == '/' && Split(Slashed(parts)[1..]) == parts
  {
    var last := parts[|parts| - 1];
    var rest := parts[..|parts| - 1];
    var head := Slashed(rest);
    assert last in parts;
    hide Split;
    DropSlash(head, last);
    if rest == [] {
      SplitPlain(last);
    } else {
      SplitSlashed(rest);
      SplitAtSlash(head[1..], last);
    }
  }

  lemma DropSlash(head: string, last: string)
    ensures var s := head + "/" + last;
      if head == "" then s[0] == '/' && s[1..] == last else s[0] == head[0] && s[1..] == head[1..] + "/" + last
  {
  }

  lemma SlashedSnoc(parts: seq<string>, last: string)
    ensures Slashed(parts + [last]) == Slashed(parts) + "/" + last
  {
    assert (parts + [last])[..|parts|] == parts;
  }

  /** ... and Slashed undoes Split on any text. */
  lemma {:induction false} SlashedSplit(s: string)
    ensures Slashed(Split(s)) == "/" + s
  {
    if s == "" {
      assert Slashed([""]) == Slashed([]) + "/" + "";
    } else {
      var init, c := s[..|s| - 1], s[|s| - 1];
      var r := Split(init);
      SlashedSplit(init);
      AppendLater("/", init, c);
      assert s == init + [c];
      hide Slashed;
      if c == '/' {
        assert Split(s) == r + [""];
        SlashedSnoc(r, "");
      } else {
        assert Split(s) == r[..|r| - 1] + [r[|r| - 1] + [c]];
        SlashedGrows(r, c);
      }
    }
  }

  lemma SlashedGrows(r: seq<string>, c: char)
    requires r != []
    ensures Slashed(r[..|r| - 1] + [r[|r| - 1] + [c]]) == Slashed(r) + [c]
  {
    var front, last := r[..|r| - 1], r[|r| - 1];
    assert Slashed(r) == Slashed(front) + "/" + last;
    SlashedSnoc(front, last + [c]);
    hide Slashed;
    AppendLater(Slashed(front) + "/", last, c);
  }

  lemma AppendLater(a: string, b: string, c: char)
    ensures a + (b + [c]) == (a + b) + [c]
  {
  }

  lemma {:induction false} SplitHasNoSlash(s: string)
    ensures forall p <- Split(s) :: '/' !in p
  {
    if s != "" { SplitHasNoSlash(s[..|s| - 1]); }
  }

  /** A prefix has no more components than the whole. */
  lemma {:induction false} PrefixSplitsShorter(s: string, n: nat)
    requires n <= |s|
    ensures |Split(s[..n])| <= |Split(s)|
    decreases |s|
  {
    if n == |s| {
      assert s[..n] == s;
    } else {
      PrefixSplitsShorter(s[..|s| - 1], n);
      assert s[..|s| - 1][..n] == s[..n];
    }
  }

  function Shorts(parts: seq<string>): (r: seq<string>)
    ensures |r| == |parts|
  {
    if parts == [] then [] else Shorts(parts[..|parts| - 1]) + [Short(parts[|parts| - 1])]
  }

  lemma {:induction false} ShortsAreShorter(parts: seq<string>)
    ensures |Slashed(Shorts(parts))| <= |Slashed(parts)|
  {
    if parts != [] {
      ShortsAreShorter(parts[..|parts| - 1]);
      assert Shorts(parts)[..|parts| - 1] == Shorts(parts[..|parts| - 1]);
    }
  }

  // ------------------------------------------------------- where walks arrive

  /** A name that the resolver can look up. */
  predicate Good(name: string) {
    name != "" && '/' !in name && name != "." && name != ".."
  }

  /** i and the k-1 nodes above it have names that can be looked up. */
  ghost predicate GoodTo(fs: Fs, i: int, k: nat) {
    forall name <- NamesTo(fs, i, k) :: Good(name)
  }

  lemma {:induction false} FindInTakesFirst(nodes: seq<Node>, list: seq<int>, c: int)
    requires c in list && forall e <- list :: 0 <= e < |nodes| && nodes[e].inUse
    requires Apart(nodes, list)
    ensures FindIn(nodes, list, nodes[c].name) == c
  {
    assert list[0] in list;
    if nodes[list[0]].name != nodes[c].name {
      assert forall e :: e in list[1..] ==> e in list;
      FindInTakesFirst(nodes, list[1..], c);
    }
  }

  /** A live node below the root is what its parent finds under its name. */
  lemma FindNamed(fs: Fs, depth: seq<nat>, i: int)
    requires Tree(fs, depth) && NamesDiffer(fs.nodes) && InPool(fs, i) && i != 0
    ensures Find(fs, fs.nodes[i].parent, fs.nodes[i].name) == i
  {
    assert Placed(fs.nodes, depth, i);
    var p := fs.nodes[i].parent;
    assert Lists(fs.nodes, p) && Apart(fs.nodes, fs.nodes[p].children);
    FindInTakesFirst(fs.nodes, fs.nodes[p].children, i);
  }

  /** What a directory finds lies one level below it and has the name looked for. */
  lemma FoundBelow(fs: Fs, depth: seq<nat>, m: int, name: string)
    requires Tree(fs, depth) && Find(fs, m, name) >= 0
    ensures
      var c := Find(fs, m, name);
      InPool(fs, c) && c != 0 && fs.nodes[c].name == name && fs.nodes[c].parent == m && depth[c] == depth[m] + 1
  {
    var c := Find(fs, m, name);
    assert Lists(fs.nodes, m);
    assert Placed(fs.nodes, depth, c);
  }

  /** The parent of a live node is live and one level up, or there is none and the node is the root. */
  lemma ParentAbove(fs: Fs, depth: seq<nat>, i: int)
    requires Tree(fs, depth) && InPool(fs, i)
    ensures i == 0 <==> depth[i] == 0
    ensures i == 0 <==> fs.nodes[i].parent < 0
    ensures i != 0 ==> InPool(fs, fs.nodes[i].parent) && depth[fs.nodes[i].parent] == depth[i] - 1
  {
    if i != 0 { assert Placed(fs.nodes, depth, i); }
  }

  /** The good names of a node's ancestors and its own, walked along, lead to it. */
  lemma {:induction false} NamesLeadThere(fs: Fs, depth: seq<nat>, i: int)
    requires Tree(fs, depth) && NamesDiffer(fs.nodes) && ContentsFit(fs)
    requires InPool(fs, i) && GoodTo(fs, i, depth[i])
    ensures Walk(fs, NamesTo(fs, i, depth[i])) == i
    decreases depth[i]
  {
    ParentAbove(fs, depth, i);
    if i != 0 {
      var p := fs.nodes[i].parent;
      var names := NamesTo(fs, i, depth[i]);
      hide Tree, NamesDiffer;
      assert names[..|names| - 1] == NamesTo(fs, p, depth[p]);
      assert forall n <- NamesTo(fs, p, depth[p]) :: n in names;
      NamesLeadThere(fs, depth, p);
      assert fs.nodes[i].name == names[|names| - 1] && fs.nodes[i].name in names;
      assert fs.nodes[i] in fs.nodes;
      assert Short(fs.nodes[i].name) == fs.nodes[i].name;
      FindNamed(fs, depth, i);
    }
  }

  /**
   A walk arrives no deeper than it has components; where it arrives as deep as
   that, the components were, each cut to 31 characters, the names on the way.
   */
  lemma {:induction false} WalkIsNoDeeper(fs: Fs, depth: seq<nat>, parts: seq<string>)
    requires Tree(fs, depth) && Walk(fs, parts) >= 0
    ensures InPool(fs, Walk(fs, parts)) && depth[Walk(fs, parts)] <= |parts|
    ensures depth[Walk(fs, parts)] == |parts| ==> NamesTo(fs, Walk(fs, parts), |parts|) == Shorts(parts)
  {
    if parts != [] {
      var m := Walk(fs, parts[..|parts| - 1]);
      WalkIsNoDeeper(fs, depth, parts[..|parts| - 1]);
      ParentAbove(fs, depth, m);
      var last := parts[|parts| - 1];
      if last != "" && last != "." && last != ".." { FoundBelow(fs, depth, m, Short(last)); }
      hide Tree, Find;
    }
  }

  /** Walks only arrive at nodes all of whose names on the way can be looked up. */
  lemma {:induction false} WalkMeetsGoodNames(fs: Fs, depth: seq<nat>, parts: seq<string>)
    requires Tree(fs, depth) && Walk(fs, parts) >= 0 && forall p <- parts :: '/' !in p
    ensures InPool(fs, Walk(fs, parts)) && GoodTo(fs, Walk(fs, parts), depth[Walk(fs, parts)])
  {
    if parts != [] {
      var rest := parts[..|parts| - 1];
      var m := Walk(fs, rest);
      WalkMeetsGoodNames(fs, depth, rest);
      ParentAbove(fs, depth, m);
      var last := parts[|parts| - 1];
      assert last in parts;
      if last == ".." {
        if m != 0 {
          assert NamesTo(fs, m, depth[m]) == NamesTo(fs, fs.nodes[m].parent, depth[m] - 1) + [fs.nodes[m].name];
        }
      } else if last != "" && last != "." {
        FoundBelow(fs, depth, m, Short(last));
        hide Tree, Find;
        assert Good(Short(last)) by {
          assert Short(last)[0] == last[0];
          if |last| <= MAX_NAME - 1 { assert Short(last) == last; }
        }
      }
    }
  }

  // ------------------------------------------------------------- round trips

  lemma {:induction false} LevelsIsDepth(fs: Fs, depth: seq<nat>, i: int, k: nat)
    requires Tree(fs, depth) && InPool(fs, i)
    ensures Levels(fs, i, k) == Min(depth[i], k)
    ensures |NamesTo(fs, i, Min(depth[i], k))| == Min(depth[i], k)
    decreases k
  {
    ParentAbove(fs, depth, i);
    if k > 0 && i != 0 { LevelsIsDepth(fs, depth, fs.nodes[i].parent, k - 1); }
  }

  lemma {:induction false} NamesToSuffix(fs: Fs, i: int, j: nat, k: nat)
    requires j <= k
    ensures forall n <- NamesTo(fs, i, j) :: n in NamesTo(fs, i, k)
    decreases k
  {
    if j > 0 && 0 <= i < |fs.nodes| {
      NamesToSuffix(fs, fs.nodes[i].parent, j - 1, k - 1);
    }
  }

  /** When resolving the printed path of a node leads back to it. */
  ghost predicate Printable(fs: Fs, depth: seq<nat>, i: int, buflen: nat)
    requires Tree(fs, depth) && InPool(fs, i)
  {
    GoodTo(fs, i, depth[i]) && depth[i] <= MAX_LEVELS && |PathText(fs, i)| < buflen
  }

  lemma RoundTrip(fs: Fs, depth: seq<nat>, i: int, buflen: nat)
    requires Tree(fs, depth) && NamesDiffer(fs.nodes) && ContentsFit(fs) && InPool(fs, i) && buflen >= 2
    requires Printable(fs, depth, i, buflen)
    ensures Resolve(fs, GetPath(fs, i, buflen)) == i
  {
    ParentAbove(fs, depth, i);
    assert GetPath(fs, i, buflen) == PathText(fs, i);
    if i != 0 {
      LevelsIsDepth(fs, depth, i, MAX_LEVELS);
      var names := NamesTo(fs, i, depth[i]);
      SplitSlashed(names);
      NamesLeadThere(fs, depth, i);
      assert Slashed(names) != "/" by {
        assert names[|names| - 1] in names;
      }
    }
  }

  /** The cut text of a list of slash-free names has no more components than there are names. */
  lemma CutSplitsShorter(names: seq<string>, buflen: nat)
    requires names != [] && (forall n <- names :: '/' !in n) && buflen >= 2
    ensures
      var path := Clip(Slashed(names), buflen);
      path != "" && path[0] == '/' && |Split(path[1..])| <= |names|
  {
    SplitSlashed(names);
    var text := Slashed(names);
    var path := Clip(text, buflen);
    hide Split, Slashed;
    assert path[1..] == text[1..][..|path| - 1];
    PrefixSplitsShorter(text[1..], |path| - 1);
  }

  lemma OnlyPrintableReturns(fs: Fs, depth: seq<nat>, i: int, buflen: nat)
    requires Tree(fs, depth) && ContentsFit(fs) && InPool(fs, i) && buflen >= 2
    requires Resolve(fs, GetPath(fs, i, buflen)) == i
    ensures Printable(fs, depth, i, buflen)
  {
    ParentAbove(fs, depth, i);
    if i != 0 {
      LevelsIsDepth(fs, depth, i, MAX_LEVELS);
      hide Tree, ContentsFit, Walk, Levels, NamesTo;
      var path := GetPath(fs, i, buflen);
      var k := Levels(fs, i, MAX_LEVELS);
      var names := NamesTo(fs, i, k);
      var parts := Split(path[1..]);
      assert Walk(fs, parts) == i;
      SplitHasNoSlash(path[1..]);
      hide Split;
      WalkMeetsGoodNames(fs, depth, parts);
      WalkIsNoDeeper(fs, depth, parts);
      NamesToSuffix(fs, i, k, depth[i]);
      CutSplitsShorter(names, buflen);
      assert depth[i] == k == |parts| && names == Shorts(parts);
      SlashedSplit(path[1..]);
      ShortsAreShorter(parts);
      hide Slashed, Shorts;
      assert PathText(fs, i) == Slashed(names);
      assert |Slashed(names)| <= |path|;
    }
  }

  /**
   Resolving the path printed for a live node gives that node back exactly if
   every name from the root down to it can be looked up, it is at most seven
   levels deep, and its path with terminator fits the buffer.
   */
  lemma PathRoundTripIff(fs: Fs, depth: seq<nat>, i: int, buflen: nat)
    requires Tree(fs, depth) && NamesDiffer(fs.nodes) && ContentsFit(fs) && InPool(fs, i) && buflen >= 2
    ensures Resolve(fs, GetPath(fs, i, buflen)) == i <==> Printable(fs, depth, i, buflen)
  {
    if Printable(fs, depth, i, buflen) {
      RoundTrip(fs, depth, i, buflen);
    } else if Resolve(fs, GetPath(fs, i, buflen)) == i {
      OnlyPrintableReturns(fs, depth, i, buflen);
    }
  }

  /**
   So, in every pool that calls have made under names of at most 31 characters,
   the path of a node leads back to it exactly under those conditions; depth is
   the node's distance from the root along parents.
   */
  lemma ReachablePathRoundTripIff(fs: Fs, i: int, buflen: nat) returns (levels: nat)
    requires Reachable(fs) && InPool(fs, i) && buflen >= 2
    ensures Up(fs, i, levels) == 0 && forall k :: 0 <= k < levels ==> Up(fs, i, k) != 0
    ensures Resolve(fs, GetPath(fs, i, buflen)) == i <==>
      GoodTo(fs, i, levels) && levels <= MAX_LEVELS && |PathText(fs, i)| < buflen
  {
    var depth := ReachableIsTree(fs);
    PathRoundTripIff(fs, depth, i, buflen);
    levels := depth[i];
    forall k | 0 <= k <= levels ensures Up(fs, i, k) == 0 <==> k == levels {
      ParentsReachRoot(fs, depth, i, k);
    }
    hide Tree, NamesDiffer, ContentsFit, Resolve, GetPath, GoodTo, PathText;
  }
}
