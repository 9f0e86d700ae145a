/**
 The line editor: a document of lines with a cursor, what each key does to it,
 which keys undo each other, and what saving and loading a file keeps.
 */
module Editor {
  import opened Words
  import Ramfs

  const MAX_LINES: nat := 2048
  const LINE_LEN: nat := 256   // with the terminator
  const SAVE_LIMIT: nat := 8000

  datatype Doc = Doc(lines: seq<string>, x: nat, y: nat)

  /** The cursor stands on a line, and lines fit their buffers. */
  predicate Sound(d: Doc) {
    && 1 <= |d.lines| <= MAX_LINES && d.y < |d.lines| && d.x <= |d.lines[d.y]|
    && forall i :: 0 <= i < |d.lines| ==> FitsBuffer(d.lines[i])
  }

  predicate FitsBuffer(line: string) {
    |line| <= LINE_LEN - 1 && '\n' !in line
  }

  // --------------------------------------------------------------------- keys

  /** A printable character goes in at the cursor, unless the line is full. */
  function Insert(d: Doc, c: char): Doc
    requires Sound(d)
  {
    var line := d.lines[d.y];
    if |line| < LINE_LEN - 2 then Doc(d.lines[d.y := line[..d.x] + [c] + line[d.x..]], d.x + 1, d.y) else d
  }

  /** Removes the character before the cursor, or joins the line to the one above; what does not fit there is lost. */
  function Backspace(d: Doc): Doc
    requires Sound(d)
  {
    var line := d.lines[d.y];
    if d.x > 0 then Doc(d.lines[d.y := line[..d.x - 1] + line[d.x..]], d.x - 1, d.y)
    else if d.y > 0 then
      var above := d.lines[d.y - 1];
      var joined := if |above| + |line| < LINE_LEN - 1 then above + line else above;
      Doc(d.lines[..d.y - 1] + [joined] + d.lines[d.y + 1..], |above|, d.y - 1)
    else d
  }

  /** Splits the line at the cursor, if there is room for another line. */
  function Enter(d: Doc): Doc
    requires Sound(d)
  {
    if |d.lines| < MAX_LINES - 1 then
      var line := d.lines[d.y];
      Doc(d.lines[..d.y] + [line[..d.x], line[d.x..]] + d.lines[d.y + 1..], 0, d.y + 1)
    else d
  }

  datatype Arrow = Up | Down | Left | Right

  function Move(d: Doc, a: Arrow): Doc
    requires Sound(d)
  {
    match a
    case Up =>
      var y := if d.y > 0 then d.y - 1 else d.y;
      Doc(d.lines, Min(d.x, |d.lines[y]|), y)
    case Down =>
      var y := if d.y < |d.lines| - 1 then d.y + 1 else d.y;
      Doc(d.lines, Min(d.x, |d.lines[y]|), y)
    case Left => if d.x > 0 then d.(x := d.x - 1) else d
    case Right => if d.x < |d.lines[d.y]| then d.(x := d.x + 1) else d
  }

  datatype Key = Char(c: char) | BackspaceKey | EnterKey | ArrowKey(a: Arrow)

  function Press(d: Doc, k: Key): Doc
    requires Sound(d)
  {
    match k
    case Char(c) => if ' ' <= c then Insert(d, c) else d
    case BackspaceKey => Backspace(d)
    case EnterKey => Enter(d)
    case ArrowKey(a) => Move(d, a)
  }

  lemma PressKeepsSound(d: Doc, k: Key)
    requires Sound(d)
    ensures Sound(Press(d, k))
  {
    if k.BackspaceKey? { BackspaceKeepsSound(d); }
  }

  lemma BackspaceKeepsSound(d: Doc)
    requires Sound(d)
    ensures Sound(Backspace(d))
  {
    if d.x == 0 && d.y > 0 {
      var g := Backspace(d);
      JoinFits(d.lines[d.y - 1], d.lines[d.y]);
      assert FitsBuffer(d.lines[d.y - 1]) && FitsBuffer(d.lines[d.y]);
      hide FitsBuffer;
      forall i | 0 <= i < |g.lines| ensures FitsBuffer(g.lines[i]) {
        if i < d.y - 1 { assert g.lines[i] == d.lines[i]; }
        if i >= d.y { assert g.lines[i] == d.lines[i + 1]; }
      }
    }
  }

  lemma JoinFits(a: string, b: string)
    ensures FitsBuffer(a) && FitsBuffer(b) && |a| + |b| < LINE_LEN - 1 ==> FitsBuffer(a + b)
  {
  }

  ghost predicate Typed(d: Doc, keys: seq<Key>, g: Doc)
    decreases |keys|
  {
    if keys == [] then g == d else Sound(d) && Typed(Press(d, keys[0]), keys[1..], g)
  }

  /** Whatever is typed, the cursor stays on the document and no line outgrows its buffer. */
  lemma {:induction false} TypingKeepsSound(d: Doc, keys: seq<Key>, g: Doc)
    requires Sound(d) && Typed(d, keys, g)
    ensures Sound(g)
    decreases |keys|
  {
    if keys != [] {
      PressKeepsSound(d, keys[0]);
      TypingKeepsSound(Press(d, keys[0]), keys[1..], g);
    }
  }

  // --------------------------------------------------------------------- undo

  /** At the very start there is nothing for Backspace to do. */
  predicate AtStart(d: Doc) {
    d.x == 0 && d.y == 0
  }

  lemma BackspaceDoesNothingIff(d: Doc)
    requires Sound(d)
    ensures Backspace(d) == d <==> AtStart(d)
  {
    if d.x > 0 { assert Backspace(d).x != d.x; }
  }

  /** Backspace takes back a character exactly if the line had room for it, or if there was nothing to take. */
  lemma InsertThenBackspaceIff(d: Doc, c: char)
    requires Sound(d) && c != '\n'
    ensures Sound(Insert(d, c))
    ensures Backspace(Insert(d, c)) == d <==> |d.lines[d.y]| < LINE_LEN - 2 || AtStart(d)
  {
    var line := d.lines[d.y];
    if |line| < LINE_LEN - 2 {
      var longer := line[..d.x] + [c] + line[d.x..];
      assert longer[..d.x] + longer[d.x + 1..] == line;
      assert d.lines[d.y := longer][d.y := line] == d.lines;
    } else {
      BackspaceDoesNothingIff(d);
    }
  }

  /**
   Backspace takes back Enter exactly if the line is at most 254 characters
   long, or the cursor stood at its end; where the document was full, if there
   was nothing for Backspace to do.
   */
  lemma EnterThenBackspaceIff(d: Doc)
    requires Sound(d)
    ensures Sound(Enter(d))
    ensures Backspace(Enter(d)) == d <==>
      if |d.lines| < MAX_LINES - 1 then |d.lines[d.y]| <= LINE_LEN - 2 || d.x == |d.lines[d.y]| else AtStart(d)
  {
    if |d.lines| < MAX_LINES - 1 {
      EnterSplits(d);
    } else {
      BackspaceDoesNothingIff(d);
    }
  }

  lemma EnterSplits(d: Doc)
    requires Sound(d) && |d.lines| < MAX_LINES - 1
    ensures Sound(Enter(d))
    ensures Backspace(Enter(d)) == d <==> |d.lines[d.y]| <= LINE_LEN - 2 || d.x == |d.lines[d.y]|
  {
    var line := d.lines[d.y];
    assert FitsBuffer(line);
    var e := Enter(d);
    forall i | 0 <= i < |e.lines| ensures FitsBuffer(e.lines[i]) {
      if i > d.y + 1 { assert e.lines[i] == d.lines[i - 1]; }
    }
    var g := Backspace(e);
    assert line[..d.x] + line[d.x..] == line;
    var joined := if |line| < LINE_LEN - 1 then line else line[..d.x];
    assert g.lines == d.lines[..d.y] + [joined] + d.lines[d.y + 1..];
    assert g.lines[d.y] == joined;
    if joined == line {
      assert g.lines == d.lines;
    }
    if d.x == |line| { assert line[..d.x] == line; }
  }

  // ------------------------------------------------------------ save and load

  /** The document as text: every line and a newline after it. */
  function Text(lines: seq<string>): string {
    if lines == [] then "" else lines[0] + "\n" + Text(lines[1..])
  }

  /** The lines that loading makes of a buffer, after done and with cur begun. */
  function Parse(buf: string, done: seq<string>, cur: string): seq<string> {
    if buf == "" || |done| >= MAX_LINES then done
    else if buf[0] == '\n' || |cur| >= LINE_LEN - 1 then Parse(buf[1..], done + [cur], "")
    else Parse(buf[1..], done, cur + [buf[0]])
  }

  /** One line and its newline are parsed back as that line. */
  lemma {:induction false} ParseLine(line: string, rest: string, done: seq<string>, cur: string)
    requires |cur| + |line| <= LINE_LEN - 1 && '\n' !in line && |done| < MAX_LINES
    ensures Parse(line + "\n" + rest, done, cur) == Parse(rest, done + [cur + line], "")
    decreases |line|
  {
    var buf := line + "\n" + rest;
    if line == "" {
      assert buf[1..] == rest && cur + line == cur;
    } else {
      assert buf[0] == line[0] && line[0] in line;
      assert buf[1..] == line[1..] + "\n" + rest;
      ParseLine(line[1..], rest, done, cur + [line[0]]);
      assert (cur + [line[0]]) + line[1..] == cur + line;
    }
  }

  lemma {:induction false} ParseText(lines: seq<string>, done: seq<string>)
    requires |done| + |lines| <= MAX_LINES && forall i :: 0 <= i < |lines| ==> FitsBuffer(lines[i])
    ensures Parse(Text(lines), done, "") == done + lines
    decreases |lines|
  {
    if lines == [] {
      assert done + lines == done;
    } else {
      ParseLine(lines[0], Text(lines[1..]), done, "");
      assert "" + lines[0] == lines[0];
      ParseText(lines[1..], done + [lines[0]]);
      assert (done + [lines[0]]) + lines[1..] == done + lines;
    }
  }

  /** A line cut short has no newline and is not counted. */
  lemma {:induction false} ParsePartial(line: string, done: seq<string>, cur: string)
    requires |cur| + |line| <= LINE_LEN - 1 && '\n' !in line
    ensures Parse(line, done, cur) == done
    decreases |line|
  {
    if line != "" && |done| < MAX_LINES {
      assert line[0] in line;
      ParsePartial(line[1..], done, cur + [line[0]]);
    }
  }

  /** A text that has lost characters at its end has lost its last line at least. */
  lemma {:induction false} ParseCutText(lines: seq<string>, done: seq<string>, n: nat)
    requires |done| + |lines| <= MAX_LINES && forall i :: 0 <= i < |lines| ==> FitsBuffer(lines[i])
    requires n < |Text(lines)|
    ensures |Parse(Text(lines)[..n], done, "")| < |done| + |lines|
    decreases |lines|
  {
    var line, rest := lines[0], Text(lines[1..]);
    if n <= |line| {
      assert Text(lines)[..n] == line[..n];
      ParsePartial(line[..n], done, "");
    } else {
      var m := n - |line| - 1;
      assert Text(lines)[..n] == line + "\n" + rest[..m];
      ParseLine(line, rest[..m], done, "");
      assert "" + line == line;
      ParseCutText(lines[1..], done + [line], m);
    }
  }

  /** The document after loading a file: a last line without a newline only counts if it is the only one. */
  function Load(content: string): Doc {
    var lines := Parse(content, [], "");
    Doc(if |lines| > 0 then lines else [content], 0, 0)
  }

  /** What a file keeps of a text written to it. */
  function Kept(text: string): string {
    text[..Min(|text|, Ramfs.MAX_CONTENT - 1)]
  }

  /** Saving and loading give the same lines exactly if the text has at most the 2047 bytes that a file holds. */
  lemma SaveThenLoadIff(d: Doc)
    requires Sound(d)
    ensures Load(Kept(Text(d.lines))).lines == d.lines <==> |Text(d.lines)| <= Ramfs.MAX_CONTENT - 1
  {
    var text := Text(d.lines);
    if |text| <= Ramfs.MAX_CONTENT - 1 {
      assert Kept(text) == text;
      ParseText(d.lines, []);
      assert [] + d.lines == d.lines;
    } else {
      ParseCutText(d.lines, [], Ramfs.MAX_CONTENT - 1);
      TextIsLong(d.lines);
    }
  }

  lemma {:induction false} TextIsLong(lines: seq<string>)
    requires forall i :: 0 <= i < |lines| ==> FitsBuffer(lines[i])
    ensures |Text(lines)| <= LINE_LEN * |lines|
  {
    if lines != [] { TextIsLong(lines[1..]); }
  }

  // ----------------------------------------------------------------- in place

  class Buffer {
    const lines: array<string>
    var count: nat
    var x: nat
    var y: nat

    ghost predicate Valid() reads this, lines {
      lines.Length == MAX_LINES && count <= MAX_LINES && Sound(Abs())
    }

    ghost function Abs(): Doc
      requires count <= lines.Length
      reads this, lines
    {
      Doc(lines[..count], x, y)
    }

    constructor ()
      ensures Valid() && Abs() == Doc([""], 0, 0) && fresh(lines)
    {
      lines := new string[MAX_LINES](_ => "");
      count, x, y := 1, 0, 0;
      new;
      assert lines[..1] == [""];
    }

    /** The characters from the cursor on move right, terminator included, and c takes the free place. */
    static method Opened(line: string, at: nat, c: char) returns (r: string)
      requires at <= |line|
      ensures r == line[..at] + [c] + line[at..]
    {
      ghost var buf := line + ['\0', '\0'];
      var ln := line + ['\0', '\0'];
      var i := |line| + 1;
      while i > at
        invariant at <= i <= |line| + 1 && |ln| == |buf|
        invariant forall k :: 0 <= k <= i && k < |buf| - 1 ==> ln[k] == buf[k]
        invariant forall k :: i < k < |buf| ==> ln[k] == buf[k - 1]
      {
        ln := ln[i := ln[i - 1]];
        i := i - 1;
      }
      ln := ln[at := c];
      r := ln[..|line| + 1];
    }

    /** The characters from at on move left over the one before them. */
    static method Closed(line: string, at: nat) returns (r: string)
      requires 0 < at <= |line|
      ensures r == line[..at - 1] + line[at..]
    {
      ghost var buf := line + ['\0'];
      var ln := line + ['\0'];
      var i := at - 1;
      while i < |line|
        invariant at - 1 <= i <= |line| && |ln| == |buf|
        invariant forall k :: 0 <= k < at - 1 ==> ln[k] == buf[k]
        invariant forall k :: at - 1 <= k < i ==> ln[k] == buf[k + 1]
        invariant forall k :: i <= k < |buf| ==> ln[k] == buf[k]
      {
        ln := ln[i := ln[i + 1]];
        i := i + 1;
      }
      r := ln[..|line| - 1];
    }

    /** Stores a line in its place. */
    method Store(i: nat, line: string)
      requires count <= lines.Length && i < count
      modifies lines
      ensures Abs() == old(Abs()).(lines := old(Abs()).lines[i := line])
    {
      lines[i] := line;
      assert lines[..count] == old(lines[..count])[i := line];
    }

    method InsertChar(c: char)
      requires Valid() && c != '\n'
      modifies this, lines
      ensures Valid() && Abs() == Insert(old(Abs()), c)
    {
      InsertThenBackspaceIff(Abs(), c);
      if |lines[y]| < LINE_LEN - 2 {
        var longer := Opened(lines[y], x, c);
        Store(y, longer);
        x := x + 1;
      }
    }

    /** Removes line y by moving the lines after it up by one. */
    method RemoveLine()
      requires count <= lines.Length && y < count
      modifies lines, this`count
      ensures count == old(count) - 1 && lines[..y] == old(lines[..y]) && lines[y..count] == old(lines[y + 1..count])
    {
      var i := y;
      while i < count - 1
        invariant y <= i <= count - 1 && count == old(count)
        invariant forall k :: 0 <= k < y ==> lines[k] == old(lines[k])
        invariant forall k :: y <= k < i ==> lines[k] == old(lines[k + 1])
        invariant forall k :: i <= k < count ==> lines[k] == old(lines[k])
      {
        lines[i] := lines[i + 1];
        i := i + 1;
      }
      count := count - 1;
    }

    method DoBackspace()
      requires Valid()
      modifies this, lines
      ensures Valid() && Abs() == Backspace(old(Abs()))
    {
      BackspaceKeepsSound(Abs());
      if x > 0 {
        var shorter := Closed(lines[y], x);
        Store(y, shorter);
        x := x - 1;
      } else if y > 0 {
        hide Sound;
        JoinAbove(Abs());
      }
    }

    /** The line is appended to the one above if it fits there, and then removed. */
    method JoinAbove(ghost d: Doc)
      requires count <= lines.Length && 0 < y < count && d == Abs()
      modifies this, lines
      ensures count == old(count) - 1
      ensures
        var above, line := d.lines[d.y - 1], d.lines[d.y];
        var joined := if |above| + |line| < LINE_LEN - 1 then above + line else above;
        Abs() == Doc(d.lines[..d.y - 1] + [joined] + d.lines[d.y + 1..], |above|, d.y - 1)
    {
      var above, plen := y - 1, |lines[y - 1]|;
      var joined := lines[above];
      if plen + |lines[y]| < LINE_LEN - 1 { joined := lines[above] + lines[y]; }
      lines[above] := joined;
      RemoveLine();
      assert lines[..y] == d.lines[..above] + [joined];
      assert lines[..count] == lines[..y] + lines[y..count];
      y := above;
      x := plen;
    }

    /** Moves the lines after y down by one. */
    method OpenLine()
      requires lines.Length == MAX_LINES && count < MAX_LINES && y < count
      modifies lines, this`count
      ensures count == old(count) + 1
      ensures lines[..y + 1] == old(lines[..y + 1]) && lines[y + 2..count] == old(lines[y + 1..count])
    {
      var i := count;
      while i > y + 1
        invariant y + 1 <= i <= count == old(count)
        invariant forall k :: 0 <= k < i ==> lines[k] == old(lines[k])
        invariant forall k :: i < k <= count ==> lines[k] == old(lines[k - 1])
      {
        lines[i] := lines[i - 1];
        i := i - 1;
      }
      count := count + 1;
    }

    method DoEnter()
      requires Valid()
      modifies this, lines
      ensures Valid() && Abs() == Enter(old(Abs()))
    {
      ghost var d := Abs();
      EnterThenBackspaceIff(d);
      assert d.y < |d.lines| && d.x <= |d.lines[d.y]|;
      hide Sound, Backspace;
      if count < MAX_LINES - 1 {
        var line := lines[y];
        OpenLine();
        assert lines[..y] == d.lines[..y] by { assert lines[..y + 1][..y] == lines[..y]; }
        assert lines[y + 2..count] == d.lines[y + 1..];
        Split(d, line[..x], line[x..]);
      }
    }

    /** Puts the two parts of the split line in their places. */
    method Split(ghost d: Doc, first: string, second: string)
      requires y + 2 <= count <= lines.Length && |d.lines| == count - 1
      requires lines[..y] == d.lines[..y] && lines[y + 2..count] == d.lines[y + 1..]
      modifies lines, this`x, this`y
      ensures Abs() == Doc(d.lines[..old(y)] + [first, second] + d.lines[old(y) + 1..], 0, old(y) + 1)
    {
      lines[y + 1] := second;
      lines[y] := first;
      assert lines[..count] == lines[..y] + [first, second] + lines[y + 2..count];
      y := y + 1;
      x := 0;
    }

    /** The text that Ctrl+S hands to the file system: all of it, or its first 8000 characters and perhaps a newline. */
    method Content() returns (content: string)
      requires Valid()
      ensures var text := Text(lines[..count]);
        if |text| <= SAVE_LIMIT then content == text
        else |content| >= SAVE_LIMIT && content[..SAVE_LIMIT] == text[..SAVE_LIMIT]
    {
      ghost var text := Text(lines[..count]);
      content := "";
      var i := 0;
      assert lines[0..count] == lines[..count];
      assert "" + text == text;
      while i < count && |content| < SAVE_LIMIT
        invariant 0 <= i <= count
        invariant content + Text(lines[i..count]) == text
          || (|content| >= SAVE_LIMIT && |text| > SAVE_LIMIT && content[..SAVE_LIMIT] == text[..SAVE_LIMIT])
      {
        ghost var start, rest := content, Text(lines[i + 1..count]);
        var line := lines[i];
        assert lines[i..count][1..] == lines[i + 1..count];
        var j := 0;
        while j < |line| && |content| < SAVE_LIMIT
          invariant 0 <= j <= |line| && content == start + line[..j]
        {
          content := content + [line[j]];
          j := j + 1;
        }
        assert start + (line + "\n" + rest) == text;
        if j == |line| {
          assert line[..j] == line;
          assert (content + "\n") + rest == text;
        } else {
          CutThere(start, line, rest, j);
        }
        content := content + "\n";
        i := i + 1;
      }
      if |content| < SAVE_LIMIT {
        assert lines[i..count] == [];
        assert content + "" == content;
      } else if content + Text(lines[i..count]) == text {
        FirstOf(content, Text(lines[i..count]));
      }
    }

    /** Splits a file's content into the document, as cmd_edit does when it opens it. */
    method LoadContent(content: string)
      requires Valid()
      modifies this, lines
      ensures count <= lines.Length && Abs() == Load(content)
    {
      var li, cur, i := 0, "", 0;
      assert content[0..] == content;
      while i < |content| && li < MAX_LINES
        invariant 0 <= i <= |content| && 0 <= li <= MAX_LINES && count == old(count) && lines.Length == MAX_LINES
        invariant Parse(content, [], "") == Parse(content[i..], lines[..li], cur)
        invariant li == 0 ==> cur == content[..i]
      {
        assert content[i..][1..] == content[i + 1..];
        if content[i] == '\n' || |cur| >= LINE_LEN - 1 {
          ghost var done := lines[..li];
          lines[li] := cur;
          assert lines[..li + 1] == done + [cur];
          li := li + 1;
          cur := "";
        } else {
          cur := cur + [content[i]];
        }
        i := i + 1;
      }
      assert Parse(content, [], "") == lines[..li];
      x, y := 0, 0;
      if li > 0 {
        count := li;
      } else {
        assert content[..i] == content;
        lines[0] := cur;
        count := 1;
        assert lines[..1] == [content];
      }
    }
  }

  lemma CutThere(start: string, line: string, rest: string, j: nat)
    requires j < |line| && |start| + j >= SAVE_LIMIT
    ensures var whole := start + (line + "\n" + rest);
      |whole| > SAVE_LIMIT && (start + line[..j] + "\n")[..SAVE_LIMIT] == whole[..SAVE_LIMIT]
  {
  }

  lemma FirstOf(content: string, rest: string)
    requires |content| >= SAVE_LIMIT
    ensures (content + rest)[..SAVE_LIMIT] == content[..SAVE_LIMIT]
    ensures |content + rest| <= SAVE_LIMIT ==> content == content + rest
  {
    if |content + rest| <= SAVE_LIMIT { assert rest == ""; }
  }
}
