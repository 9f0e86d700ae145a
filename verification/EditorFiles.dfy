/**
 The editor's save and load through the RAM filesystem: what comes back, and
 under which names.
 */
module EditorFiles {
  import opened Words
  import opened Ramfs
  import opened RamfsPaths
  import Editor

  const NAME_LEN: nat := 127  // what the editor keeps of a file name

  /** What saving writes: the whole text up to 8000 characters, something that begins like it beyond. */
  predicate Saves(d: Editor.Doc, content: string) {
    var text := Editor.Text(d.lines);
    if |text| <= Editor.SAVE_LIMIT then content == text
    else |content| >= Editor.SAVE_LIMIT && content[..Editor.SAVE_LIMIT] == text[..Editor.SAVE_LIMIT]
  }

  /** Saving under a name: the file it leads to is overwritten; if it leads nowhere, one is made in the root. */
  function Save(fs: Fs, name: string, content: string): (Fs, int) {
    var found := Resolve(fs, name);
    var (g, i) := if found < 0 then Create(fs, 0, name, File) else (fs, found);
    if i < 0 then (g, -1) else (Ramfs.Write(g, i, content).0, i)
  }

  /** Loading a name: None leaves the editor with a new document. */
  function Load(fs: Fs, name: string): Option<Editor.Doc> {
    var i := Resolve(fs, name);
    if i < 0 || !IsFile(fs, i) || fs.nodes[i].content == "" then None
    else Some(Editor.Load(fs.nodes[i].content))
  }

  // -------------------------------------------------------- paths after a save

  lemma {:induction false} FindInAfterWrite(nodes: seq<Node>, i: nat, content: string, list: seq<int>, name: string)
    requires i < |nodes|
    ensures FindIn(nodes[i := nodes[i].(content := content)], list, name) == FindIn(nodes, list, name)
  {
    if list != [] { FindInAfterWrite(nodes, i, content, list[1..], name); }
  }

  lemma {:induction false} WalkAfterWrite(fs: Fs, i: nat, content: string, parts: seq<string>)
    requires i < |fs.nodes|
    ensures Walk(fs.(nodes := fs.nodes[i := fs.nodes[i].(content := content)]), parts) == Walk(fs, parts)
  {
    if parts != [] {
      WalkAfterWrite(fs, i, content, parts[..|parts| - 1]);
      var m := Walk(fs, parts[..|parts| - 1]);
      if 0 <= m < |fs.nodes| {
        FindInAfterWrite(fs.nodes, i, content, fs.nodes[m].children, Short(parts[|parts| - 1]));
      }
      hide FindIn;
    }
  }

  lemma ResolveAfterWrite(fs: Fs, i: int, content: string, name: string)
    ensures Resolve(Ramfs.Write(fs, i, content).0, name) == Resolve(fs, name)
  {
    if IsFile(fs, i) && name != "" { WalkAfterWrite(fs, i, Ramfs.Write(fs, i, content).0.nodes[i].content, Split(name[1..])); }
    hide Walk, Split;
  }

  /** A node made under another name does not show up in a look-up. */
  lemma {:induction false} FindInAfterLink(nodes: seq<Node>, nodes': seq<Node>, i: nat, list: seq<int>, more: seq<int>, name: string)
    requires |nodes| == |nodes'| && i < |nodes| && !nodes[i].inUse && nodes'[i].name != name
    requires more == [] || more == [i]
    requires forall j :: 0 <= j < |nodes| && j != i ==> nodes'[j].inUse == nodes[j].inUse && nodes'[j].name == nodes[j].name
    ensures FindIn(nodes', list + more, name) == FindIn(nodes, list, name)
  {
    if list == [] {
      assert list + more == more;
      if more != [] { assert more[1..] == []; }
    } else {
      assert (list + more)[0] == list[0] && (list + more)[1..] == list[1..] + more;
      FindInAfterLink(nodes, nodes', i, list[1..], more, name);
    }
  }

  lemma FindAfterCreate(fs: Fs, name: string, m: int, other: string)
    requires Create(fs, 0, name, File).1 >= 0 && other != Short(name) && InPool(fs, m)
    ensures var g := Create(fs, 0, name, File).0;
      Find(g, m, other) == Find(fs, m, other) && InPool(g, m) && g.nodes[m].parent == fs.nodes[m].parent
  {
    var (g, i) := Create(fs, 0, name, File);
    FindInAfterLink(fs.nodes, g.nodes, i, fs.nodes[m].children, if m == 0 then [i] else [], other);
    assert g.nodes[m].children == fs.nodes[m].children + if m == 0 then [i] else [];
    hide FindIn;
  }

  lemma {:induction false} WalkAfterCreate(fs: Fs, depth: seq<nat>, name: string, parts: seq<string>)
    requires Tree(fs, depth) && Create(fs, 0, name, File).1 >= 0 && '/' in Short(name)
    requires forall part <- parts :: '/' !in part
    ensures Walk(Create(fs, 0, name, File).0, parts) == Walk(fs, parts)
  {
    if parts != [] {
      var init, last := parts[..|parts| - 1], parts[|parts| - 1];
      assert last in parts && forall part :: part in init ==> part in parts;
      WalkAfterCreate(fs, depth, name, init);
      var m := Walk(fs, init);
      if m >= 0 {
        WalkIsNoDeeper(fs, depth, init);
        assert '/' !in Short(last);
        FindAfterCreate(fs, name, m, Short(last));
      }
      hide Tree, Create, Find;
    }
  }

  /** A name that led nowhere leads nowhere after a file has been made in the root under the whole of it. */
  lemma CreatedIsNotFound(fs: Fs, depth: seq<nat>, name: string)
    requires Tree(fs, depth) && Resolve(fs, name) < 0 && Create(fs, 0, name, File).1 >= 0
    ensures Resolve(Create(fs, 0, name, File).0, name) < 0
  {
    if name != "" && name[0] == '/' && name != "/" {
      assert Short(name)[0] == '/';
      SplitHasNoSlash(name[1..]);
      WalkAfterCreate(fs, depth, name, Split(name[1..]));
    }
    hide Tree, Walk, Split, Create;
  }

  // ------------------------------------------------------------ what comes back

  lemma KeptOfContent(d: Editor.Doc, content: string)
    requires Editor.Sound(d) && Saves(d, content)
    ensures content[..Min(|content|, MAX_CONTENT - 1)] == Editor.Kept(Editor.Text(d.lines))
    ensures Editor.Kept(Editor.Text(d.lines)) != ""
  {
    var text := Editor.Text(d.lines);
    assert |text| > 0;
    if |text| > Editor.SAVE_LIMIT {
      assert content[..MAX_CONTENT - 1] == content[..Editor.SAVE_LIMIT][..MAX_CONTENT - 1];
      assert text[..MAX_CONTENT - 1] == text[..Editor.SAVE_LIMIT][..MAX_CONTENT - 1];
    }
  }

  /**
   Loading a name under which a document has just been saved brings the same
   lines back exactly if the name already led to a file before the save and the
   text has at most 2047 bytes. A name that led nowhere is made a file in the
   root, slashes and all, which no path leads to; it loads as a new document.
   */
  lemma SaveThenLoadIff(fs: Fs, depth: seq<nat>, name: string, d: Editor.Doc, content: string)
    requires Tree(fs, depth) && Editor.Sound(d) && Saves(d, content) && |name| <= NAME_LEN
    ensures var g := Save(fs, name, content).0;
      && (Load(g, name).Some? && Load(g, name).value.lines == d.lines <==>
            IsFile(fs, Resolve(fs, name)) && |Editor.Text(d.lines)| <= MAX_CONTENT - 1)
      && (Resolve(fs, name) < 0 ==> Load(g, name) == None)
  {
    KeptOfContent(d, content);
    Editor.SaveThenLoadIff(d);
    var found := Resolve(fs, name);
    if found < 0 {
      var (g, i) := Create(fs, 0, name, File);
      if i >= 0 {
        CreatedIsNotFound(fs, depth, name);
        ResolveAfterWrite(g, i, content, name);
      } else {
        assert g == fs;
      }
    } else {
      ResolveAfterWrite(fs, found, content, name);
    }
    hide Tree, Resolve, Create, Editor.Text, Editor.Load, Editor.Sound;
  }

  /** So a second save under a relative name fails: the file is there, but cannot be found. */
  lemma SecondSaveFails(fs: Fs, name: string, content: string)
    requires Resolve(fs, name) < 0 && Create(fs, 0, name, File).1 >= 0 && name != "" && name[0] != '/'
    requires |name| <= MAX_NAME - 1 && IsDir(fs, 0)
    requires forall c <- fs.nodes[0].children :: 0 <= c < |fs.nodes| && fs.nodes[c].inUse
    ensures Save(Save(fs, name, content).0, name, content).1 == -1
  {
    var (g, i) := Create(fs, 0, name, File);
    assert Short(name) == name;
    var h := Ramfs.Write(g, i, content).0;
    assert h.nodes[0].children == fs.nodes[0].children + [i];
    FoundAmong(h.nodes, h.nodes[0].children, i, name);
    hide FindIn;
  }

  lemma {:induction false} FoundAmong(nodes: seq<Node>, list: seq<int>, i: int, name: string)
    requires i in list && 0 <= i < |nodes| && nodes[i].inUse && nodes[i].name == name
    ensures FindIn(nodes, list, name) >= 0
  {
    if list[0] != i { FoundAmong(nodes, list[1..], i, name); }
  }
}
