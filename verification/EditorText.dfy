/**
 What typing does to the text: the document is one string with a cursor in it,
 and the keys insert and delete there. The lines are how the editor stores it.
 */
module EditorText {
  import opened Words
  import opened Editor

  /** The text before the cursor and the text after it, lines being separated by newlines. */
  datatype Split = Split(before: string, after: string)

  /** A newline and a line, for every line. */
  function Below(lines: seq<string>): string {
    if lines == [] then "" else "\n" + lines[0] + Below(lines[1..])
  }

  function TextOf(d: Doc): Split
    requires Sound(d)
  {
    var line := d.lines[d.y];
    Split(Text(d.lines[..d.y]) + line[..d.x], line[d.x..] + Below(d.lines[d.y + 1..]))
  }

  /** What the keys that move by characters are meant to do. */
  function Edited(t: Split, k: Key): Split {
    match k
    case Char(c) => if ' ' <= c then Split(t.before + [c], t.after) else t
    case EnterKey => Split(t.before + "\n", t.after)
    case BackspaceKey => if t.before == "" then t else Split(t.before[..|t.before| - 1], t.after)
    case ArrowKey(Left) =>
      if t.before == "" || t.before[|t.before| - 1] == '\n' then t
      else Split(t.before[..|t.before| - 1], [t.before[|t.before| - 1]] + t.after)
    case ArrowKey(Right) =>
      if t.after == "" || t.after[0] == '\n' then t
      else Split(t.before + [t.after[0]], t.after[1..])
    case ArrowKey(_) => t
  }

  /** The key has room for what it does: a character on its line, a line in the document, a joined line in its buffer. */
  predicate HasRoom(d: Doc, k: Key)
    requires Sound(d)
  {
    match k
    case Char(c) => ' ' <= c ==> |d.lines[d.y]| < 254
    case EnterKey => |d.lines| < 2047
    case BackspaceKey => d.x == 0 && d.y > 0 && d.lines[d.y] != "" ==> |d.lines[d.y - 1]| + |d.lines[d.y]| < 255
    case ArrowKey(_) => true
  }

  // ---------------------------------------------------------------- the texts

  lemma {:induction false} TextEnds(lines: seq<string>, last: string)
    ensures Text(lines + [last]) == Text(lines) + last + "\n"
    decreases |lines|
  {
    if lines == [] {
      assert lines + [last] == [last] && [last][1..] == [];
    } else {
      TextEnds(lines[1..], last);
      assert (lines + [last])[1..] == lines[1..] + [last];
    }
  }

  lemma InsertText(d: Doc, c: char)
    requires Sound(d) && |d.lines[d.y]| < 254 && c != '\n'
    ensures Sound(Insert(d, c)) && TextOf(Insert(d, c)) == Split(TextOf(d).before + [c], TextOf(d).after)
  {
    var line := d.lines[d.y];
    var longer := line[..d.x] + [c] + line[d.x..];
    var e := Insert(d, c);
    InsertThenBackspaceIff(d, c);
    assert e.lines[..e.y] == d.lines[..d.y] && e.lines[e.y + 1..] == d.lines[d.y + 1..];
    assert longer[..d.x + 1] == line[..d.x] + [c] && longer[d.x + 1..] == line[d.x..];
  }

  lemma EnterText(d: Doc)
    requires Sound(d) && |d.lines| < 2047
    ensures Sound(Enter(d)) && TextOf(Enter(d)) == Split(TextOf(d).before + "\n", TextOf(d).after)
  {
    EnterThenBackspaceIff(d);
    var line, e := d.lines[d.y], Enter(d);
    assert e.lines[..e.y] == d.lines[..d.y] + [line[..d.x]];
    assert e.lines[e.y + 1..] == d.lines[d.y + 1..];
    TextEnds(d.lines[..d.y], line[..d.x]);
    assert e.lines[e.y][..0] == "" && e.lines[e.y][0..] == line[d.x..];
  }

  /** Within a line Backspace removes the character before the cursor. */
  lemma BackspaceInLine(d: Doc)
    requires Sound(d) && d.x > 0
    ensures Sound(Backspace(d))
    ensures var t := TextOf(d); t.before != "" && TextOf(Backspace(d)) == Split(t.before[..|t.before| - 1], t.after)
  {
    BackspaceKeepsSound(d);
    var line, e, t := d.lines[d.y], Backspace(d), TextOf(d);
    var shorter := line[..d.x - 1] + line[d.x..];
    assert e.lines[..e.y] == d.lines[..d.y] && e.lines[e.y + 1..] == d.lines[d.y + 1..];
    assert shorter[..d.x - 1] == line[..d.x - 1] && shorter[d.x - 1..] == line[d.x..];
    assert t.before[..|t.before| - 1] == Text(d.lines[..d.y]) + line[..d.x - 1];
  }

  /** At the start of a line it removes the newline, and the line's own text if the joined line would be too long. */
  lemma BackspaceJoins(d: Doc)
    requires Sound(d) && d.x == 0 && d.y > 0
    ensures Sound(Backspace(d))
    ensures var t, line := TextOf(d), d.lines[d.y];
      && t.before != "" && t.before[|t.before| - 1] == '\n' && line <= t.after
      && TextOf(Backspace(d)) ==
         Split(t.before[..|t.before| - 1], if |d.lines[d.y - 1]| + |line| < 255 then t.after else t.after[|line|..])
  {
    BackspaceKeepsSound(d);
    var line, above, e, t := d.lines[d.y], d.lines[d.y - 1], Backspace(d), TextOf(d);
    assert d.lines[..d.y] == d.lines[..d.y - 1] + [above];
    TextEnds(d.lines[..d.y - 1], above);
    assert line[..0] == "" && line[0..] == line;
    assert t.before == Text(d.lines[..d.y - 1]) + above + "\n";
    assert t.before[..|t.before| - 1] == Text(d.lines[..d.y - 1]) + above;
    assert e.lines[..e.y] == d.lines[..d.y - 1] && e.lines[e.y + 1..] == d.lines[d.y + 1..];
    var joined := e.lines[e.y];
    assert joined[..|above|] == above;
    assert t.after[|line|..] == Below(d.lines[d.y + 1..]);
    if |above| + |line| < 255 { assert joined[|above|..] == line; } else { assert joined[|above|..] == ""; }
  }

  lemma ArrowText(d: Doc, a: Arrow)
    requires Sound(d)
    ensures Sound(Move(d, a))
    ensures a.Left? || a.Right? ==> TextOf(Move(d, a)) == Edited(TextOf(d), ArrowKey(a))
    ensures Move(d, a).lines == d.lines
  {
    var line, t := d.lines[d.y], TextOf(d);
    if a.Left? { LeftText(d); }
    if a.Right? { RightText(d); }
  }

  lemma LeftText(d: Doc)
    requires Sound(d)
    ensures TextOf(Move(d, Left)) == Edited(TextOf(d), ArrowKey(Left))
  {
    var line, t := d.lines[d.y], TextOf(d);
    assert FitsBuffer(line);
    if d.x > 0 {
      assert line[d.x - 1] != '\n' by { assert line[d.x - 1] in line; }
      assert t.before[..|t.before| - 1] == Text(d.lines[..d.y]) + line[..d.x - 1];
      assert line[d.x - 1..] == [line[d.x - 1]] + line[d.x..];
    } else if d.y > 0 {
      BackspaceJoins(d);
    } else {
      assert d.lines[..0] == [];
    }
  }

  lemma RightText(d: Doc)
    requires Sound(d)
    ensures TextOf(Move(d, Right)) == Edited(TextOf(d), ArrowKey(Right))
  {
    var line, t := d.lines[d.y], TextOf(d);
    assert FitsBuffer(line);
    if d.x < |line| {
      assert line[d.x] in line;
      assert line[..d.x + 1] == line[..d.x] + [line[d.x]];
      assert line[d.x..] == [line[d.x]] + line[d.x + 1..];
    } else {
      assert line[d.x..] == "";
    }
  }

  // ------------------------------------------------------------- main results

  /**
   Every key but Up and Down does to the text what it is meant to, where it has
   room: a character or a newline goes in at the cursor's place, Backspace
   takes the character before it, Left and Right step over one.
   */
  lemma KeyEdits(d: Doc, k: Key)
    requires Sound(d) && HasRoom(d, k) && k != ArrowKey(Up) && k != ArrowKey(Down)
    ensures Sound(Press(d, k)) && TextOf(Press(d, k)) == Edited(TextOf(d), k)
  {
    PressKeepsSound(d, k);
    match k
    case Char(c) => if ' ' <= c { InsertText(d, c); }
    case EnterKey => EnterText(d);
    case BackspaceKey => BackspaceEdits(d);
    case ArrowKey(a) => ArrowText(d, a);
  }

  lemma BackspaceEdits(d: Doc)
    requires Sound(d) && HasRoom(d, BackspaceKey)
    ensures Sound(Backspace(d)) && TextOf(Backspace(d)) == Edited(TextOf(d), BackspaceKey)
  {
    if d.x > 0 {
      BackspaceInLine(d);
    } else if d.y > 0 {
      BackspaceJoins(d);
      if d.lines[d.y] == "" { assert TextOf(d).after[0..] == TextOf(d).after; }
    } else {
      assert d.lines[..0] == [];
    }
  }

  /**
   A key has the meant effect exactly where it has room. Without room a
   character and Enter do nothing, and Backspace loses the line it should join.
   */
  lemma KeyEditsIff(d: Doc, k: Key)
    requires Sound(d) && k != ArrowKey(Up) && k != ArrowKey(Down)
    ensures Sound(Press(d, k))
    ensures TextOf(Press(d, k)) == Edited(TextOf(d), k) <==> HasRoom(d, k)
  {
    PressKeepsSound(d, k);
    if HasRoom(d, k) {
      KeyEdits(d, k);
    } else {
      var t := TextOf(d);
      match k
      case Char(c) => assert |t.before + [c]| != |t.before|;
      case EnterKey => assert |t.before + "\n"| != |t.before|;
      case BackspaceKey =>
        BackspaceJoins(d);
        assert |t.after[|d.lines[d.y]|..]| != |t.after|;
    }
  }

  function EditedBy(t: Split, keys: seq<Key>): Split
    decreases |keys|
  {
    if keys == [] then t else EditedBy(Edited(t, keys[0]), keys[1..])
  }

  /** Keys typed one after the other, each where it has room, none moving by lines. */
  ghost predicate TypedWithRoom(d: Doc, keys: seq<Key>, g: Doc)
    decreases |keys|
  {
    if keys == [] then g == d
    else
      && Sound(d) && HasRoom(d, keys[0]) && keys[0] != ArrowKey(Up) && keys[0] != ArrowKey(Down)
      && TypedWithRoom(Press(d, keys[0]), keys[1..], g)
  }

  /** Whatever is typed, the text is the one that the same keys make of one string with a cursor. */
  lemma {:induction false} TypingEditsText(d: Doc, keys: seq<Key>, g: Doc)
    requires Sound(d) && TypedWithRoom(d, keys, g)
    ensures Sound(g) && TextOf(g) == EditedBy(TextOf(d), keys)
    decreases |keys|
  {
    hide TextOf, Edited, Press, HasRoom;
    if keys != [] {
      KeyEdits(d, keys[0]);
      TypingEditsText(Press(d, keys[0]), keys[1..], g);
    }
  }

  /** Up and Down go to the line above or below, if there is one, and as far right as that line allows; the text stays. */
  lemma LineArrows(d: Doc, a: Arrow)
    requires Sound(d) && (a.Up? || a.Down?)
    ensures var e := Move(d, a);
      && Sound(e) && e.lines == d.lines
      && TextOf(e).before + TextOf(e).after == TextOf(d).before + TextOf(d).after
      && e.y == (if a.Up? then (if d.y == 0 then 0 else d.y - 1) else if d.y + 1 == |d.lines| then d.y else d.y + 1)
      && e.x <= d.x && (e.x == d.x || e.x == |e.lines[e.y]|)
  {
    SameLines(d, Move(d, a));
    hide TextOf;
  }

  lemma SameLines(d: Doc, e: Doc)
    requires Sound(d) && Sound(e) && d.lines == e.lines
    ensures TextOf(e).before + TextOf(e).after == TextOf(d).before + TextOf(d).after
  {
    WholeText(d);
    WholeText(e);
    hide TextOf;
    var t, u := TextOf(d), TextOf(e);
    assert ("\n" + t.before + t.after)[1..] == t.before + t.after;
    assert ("\n" + u.before + u.after)[1..] == u.before + u.after;
  }

  /** Before and after together are all the lines, wherever the cursor stands. */
  lemma WholeText(d: Doc)
    requires Sound(d)
    ensures "\n" + TextOf(d).before + TextOf(d).after == Below(d.lines)
  {
    var line := d.lines[d.y];
    TextBelow(d.lines[..d.y]);
    BelowJoins(d.lines[..d.y], d.lines[d.y..]);
    assert d.lines[..d.y] + d.lines[d.y..] == d.lines && d.lines[d.y..][1..] == d.lines[d.y + 1..];
    assert line[..d.x] + line[d.x..] == line;
    var text, rest := Text(d.lines[..d.y]), Below(d.lines[d.y + 1..]);
    assert "\n" + (text + line[..d.x]) + (line[d.x..] + rest) == ("\n" + text) + (line[..d.x] + line[d.x..]) + rest;
    assert Below(d.lines[..d.y]) + "\n" + line + rest == Below(d.lines[..d.y]) + ("\n" + line + rest);
  }

  lemma {:induction false} TextBelow(lines: seq<string>)
    ensures "\n" + Text(lines) == Below(lines) + "\n"
    decreases |lines|
  {
    if lines != [] {
      TextBelow(lines[1..]);
      assert "\n" + (lines[0] + "\n" + Text(lines[1..])) == "\n" + lines[0] + ("\n" + Text(lines[1..]));
    }
  }

  lemma {:induction false} BelowJoins(a: seq<string>, b: seq<string>)
    ensures Below(a + b) == Below(a) + Below(b)
    decreases |a|
  {
    if a == [] {
      assert a + b == b;
    } else {
      BelowJoins(a[1..], b);
      assert (a + b)[1..] == a[1..] + b;
    }
  }
}
