/**
 Domain names on the wire (sections 3.1 and 4.1.4 of RFC 1035): the encoder,
 and the decoder that follows compression pointers.
 */
module Dns {
  import opened Words

  const DOT: byte := 46
  const MAX_LABEL: nat := 63
  const MAX_JUMPS: nat := 16

  type Bytes = seq<byte>

  // ------------------------------------------------------------ the wire form

  function FirstDot(name: Bytes): (d: nat)
    ensures d <= |name| && DOT !in name[..d] && (d < |name| ==> name[d] == DOT)
  {
    if name == [] || name[0] == DOT then 0 else
    var d := FirstDot(name[1..]);
    assert name[..d + 1] == [name[0]] + name[1..][..d];
    d + 1
  }

  /** The labels between the dots of a host name; one dot at the very end is passed over. */
  function LabelsOf(name: Bytes): seq<Bytes> {
    if name == [] then [] else
    var d := FirstDot(name);
    [name[..d]] + if d < |name| then LabelsOf(name[d + 1..]) else []
  }

  predicate OkLabel(part: Bytes) {
    1 <= |part| <= MAX_LABEL
  }

  predicate AllOk(labels: seq<Bytes>) {
    labels == [] || (OkLabel(labels[0]) && AllOk(labels[1..]))
  }

  lemma {:induction false} AllOkSnoc(labels: seq<Bytes>, last: Bytes)
    requires AllOk(labels) && OkLabel(last)
    ensures AllOk(labels + [last])
  {
    if labels == [] {
      assert [last][1..] == [];
    } else {
      assert (labels + [last])[1..] == labels[1..] + [last];
      AllOkSnoc(labels[1..], last);
    }
  }

  /** A label after its length. */
  function Piece(part: Bytes): (p: Bytes)
    requires OkLabel(part)
    ensures |p| == 1 + |part|
  {
    var n: byte := |part|;
    [n] + part
  }

  function Pieces(labels: seq<Bytes>): Bytes
    requires AllOk(labels)
  {
    if labels == [] then [] else Piece(labels[0]) + Pieces(labels[1..])
  }

  /** Each label after its length, and a zero at the end. */
  function Wire(labels: seq<Bytes>): Bytes
    requires AllOk(labels)
  {
    Pieces(labels) + [0]
  }

  /** The labels with dots between them. */
  function Dotted(labels: seq<Bytes>): Bytes {
    if labels == [] then []
    else if |labels| == 1 then labels[0]
    else labels[0] + [DOT] + Dotted(labels[1..])
  }

  lemma {:induction false} DottedSnoc(labels: seq<Bytes>, last: Bytes)
    requires labels != []
    ensures Dotted(labels + [last]) == Dotted(labels) + [DOT] + last
  {
    if |labels| > 1 {
      assert (labels + [last])[1..] == labels[1..] + [last];
      DottedSnoc(labels[1..], last);
    }
  }

  // -------------------------------------------------------------- the decoder

  /** How the reading of a name ends: at its root label, at an error, past the packet, or after sixteen jumps. */
  datatype End = Root | Malformed | PastEnd | Spent

  predicate IsPointer(b: byte) {
    b as int / 64 == 3
  }

  /** Where the pointer at off leads: the low fourteen bits of its two bytes. */
  function Target(pkt: Bytes, off: nat): nat
    requires off + 1 < |pkt|
  {
    (pkt[off] as int % 64) * 256 + pkt[off + 1] as int
  }

  /** The labels met from off on with that many jumps to go, and how that ends. */
  function Trail(pkt: Bytes, off: nat, jumps: nat): (seq<Bytes>, End)
    decreases jumps, |pkt| - off
  {
    if off >= |pkt| then ([], PastEnd)
    else if jumps == 0 then ([], Spent)
    else if pkt[off] == 0 then ([], Root)
    else if IsPointer(pkt[off]) then
      if off + 1 >= |pkt| then ([], Malformed) else Trail(pkt, Target(pkt, off), jumps - 1)
    else if pkt[off] > MAX_LABEL || off + 1 + pkt[off] > |pkt| then ([], Malformed)
    else
      var next := off + 1 + pkt[off];
      var (rest, end) := Trail(pkt, next, jumps);
      ([pkt[off + 1..next]] + rest, end)
  }

  /** The bytes of the packet that the name itself takes up: to its root label or through its first pointer. */
  function Span(pkt: Bytes, off: nat): nat
    decreases |pkt| - off
  {
    if off >= |pkt| || pkt[off] == 0 then 1
    else if IsPointer(pkt[off]) then 2
    else if pkt[off] > MAX_LABEL || off + 1 + pkt[off] > |pkt| then 0
    else 1 + pkt[off] + Span(pkt, off + 1 + pkt[off])
  }

  function Clip(s: Bytes, cap: nat): Bytes {
    s[..Min(|s|, cap)]
  }

  /** The output after one more label, as far as the buffer allows. */
  function WithLabel(out: Bytes, part: Bytes, cap: nat): (r: Bytes)
    requires |out| <= cap
    ensures |r| <= cap
  {
    var dotted := if 0 < |out| < cap then out + [DOT] else out;
    dotted + Clip(part, cap - |dotted|)
  }

  lemma WithLabelClips(labels: seq<Bytes>, part: Bytes, cap: nat)
    requires AllOk(labels)
    ensures WithLabel(Clip(Dotted(labels), cap), part, cap) == Clip(Dotted(labels + [part]), cap)
  {
    if labels != [] {
      DottedSnoc(labels, part);
      assert |Dotted(labels)| >= |labels[0]| >= 1;
      ClipThrice(Dotted(labels), part, cap);
    }
  }

  lemma ClipThrice(a: Bytes, part: Bytes, cap: nat)
    requires a != []
    ensures WithLabel(Clip(a, cap), part, cap) == Clip(a + [DOT] + part, cap)
  {
    var whole := a + [DOT] + part;
    if |a| >= cap {
      assert whole[..cap] == a[..cap];
    } else {
      assert Clip(a, cap) == a;
    }
  }

  /**
   What the decoder returns and leaves in its buffer: nothing and 0 for a
   malformed name; otherwise the name's own length in the packet and as much of
   the labels met, with dots between them, as the buffer holds.
   */
  method DecodeName(pkt: Bytes, orig: nat, outsize: nat) returns (out: Bytes, r: nat)
    requires outsize >= 1
    ensures Trail(pkt, orig, MAX_JUMPS).1 == Malformed ==> r == 0
    ensures Trail(pkt, orig, MAX_JUMPS).1 != Malformed ==>
      r == Span(pkt, orig) && out == Clip(Dotted(Trail(pkt, orig, MAX_JUMPS).0), outsize - 1)
  {
    hide Dotted, Clip, Target;
    out := [];
    var offset: nat, consumed: nat, jumped, jumps: nat := orig, 0, false, MAX_JUMPS;
    ghost var labels: seq<Bytes> := [];
    ClipNothing(outsize - 1);
    assert [] + Trail(pkt, orig, MAX_JUMPS).0 == Trail(pkt, orig, MAX_JUMPS).0;
    while offset < |pkt| && jumps > 0
      invariant AllOk(labels) && |out| <= outsize - 1 && out == Clip(Dotted(labels), outsize - 1)
      invariant Trail(pkt, orig, MAX_JUMPS) == (labels + Trail(pkt, offset, jumps).0, Trail(pkt, offset, jumps).1)
      invariant if jumped then consumed == Span(pkt, orig) && consumed > 0
        else consumed == 0 && jumps == MAX_JUMPS && offset >= orig && Spans(pkt, orig, offset)
      decreases jumps, |pkt| - offset
    {
      var len := pkt[offset];
      if len == 0 {
        if !jumped { consumed := offset - orig + 1; }
        break;
      }
      if IsPointer(len) {
        if offset + 1 >= |pkt| { return out, 0; }
        if !jumped { consumed := offset - orig + 2; }
        offset := Target(pkt, offset);
        jumped := true;
        jumps := jumps - 1;
        continue;
      }
      if len > MAX_LABEL { return out, 0; }
      if offset + 1 + len > |pkt| { return out, 0; }
      var part := pkt[offset + 1..offset + 1 + len];
      WithLabelClips(labels, part, outsize - 1);
      out := CopyLabel(out, part, outsize);
      AllOkSnoc(labels, part);
      assert labels + ([part] + Trail(pkt, offset + 1 + len, jumps).0) == (labels + [part]) + Trail(pkt, offset + 1 + len, jumps).0;
      labels := labels + [part];
      offset := offset + 1 + len;
    }
    assert labels + [] == labels;
    r := if consumed != 0 then consumed else offset - orig + 1;
  }

  /** Reading labels from orig leads to offset without an error. */
  predicate Spans(pkt: Bytes, orig: nat, offset: nat) {
    orig <= offset && (Span(pkt, offset) != 0 ==> Span(pkt, orig) == offset - orig + Span(pkt, offset))
  }

  lemma ClipNothing(cap: nat)
    ensures Clip(Dotted([]), cap) == []
  {
  }

  /** The separating dot and the label's bytes, one by one while there is room for the terminator. */
  method CopyLabel(before: Bytes, part: Bytes, outsize: nat) returns (out: Bytes)
    requires |before| < outsize
    ensures out == WithLabel(before, part, outsize - 1)
  {
    out := before;
    if |out| > 0 && |out| < outsize - 1 { out := out + [DOT]; }
    ghost var start := out;
    var i := 0;
    while i < |part| && |out| < outsize - 1
      invariant 0 <= i <= |part| && |out| <= outsize - 1
      invariant out == start + part[..i]
    {
      out := out + [part[i]];
      i := i + 1;
    }
  }

  // -------------------------------------------------------------- the encoder

  function EncodedLength(labels: seq<Bytes>): nat {
    if labels == [] then 1 else 1 + |labels[0]| + EncodedLength(labels[1..])
  }

  lemma {:induction false} WireLength(labels: seq<Bytes>)
    requires AllOk(labels)
    ensures |Wire(labels)| == EncodedLength(labels)
  {
    if labels != [] { WireLength(labels[1..]); }
  }

  /** The name can be encoded into that many bytes. */
  predicate Encodable(name: Bytes, bufsize: int) {
    AllOk(LabelsOf(name)) && EncodedLength(LabelsOf(name)) <= bufsize
  }

  /** Labels are checked as they are met, the room with them: the rest of the name decides the rest. */
  lemma LabelsStep(name: Bytes, d: nat)
    requires name != [] && d == FirstDot(name)
    ensures var rest := if d < |name| then name[d + 1..] else [];
      && LabelsOf(name) == [name[..d]] + LabelsOf(rest)
      && (AllOk(LabelsOf(name)) <==> OkLabel(name[..d]) && AllOk(LabelsOf(rest)))
      && EncodedLength(LabelsOf(name)) == 1 + d + EncodedLength(LabelsOf(rest))
  {
    LabelsUnfold(name, d);
    hide LabelsOf, FirstDot;
    ConsFacts(name[..d], LabelsOf(if d < |name| then name[d + 1..] else []));
  }

  lemma LabelsUnfold(name: Bytes, d: nat)
    requires name != [] && d == FirstDot(name)
    ensures LabelsOf(name) == [name[..d]] + LabelsOf(if d < |name| then name[d + 1..] else [])
  {
    hide FirstDot;
    if d == |name| { assert LabelsOf([]) == []; }
  }

  lemma ConsFacts(first: Bytes, rest: seq<Bytes>)
    ensures AllOk([first] + rest) <==> OkLabel(first) && AllOk(rest)
    ensures EncodedLength([first] + rest) == 1 + |first| + EncodedLength(rest)
  {
    assert ([first] + rest)[1..] == rest;
  }

  /** The encoder has written done, pos bytes of them, and has rest still to read. */
  ghost predicate Underway(name: Bytes, done: seq<Bytes>, rest: Bytes, pos: nat, bufsize: int) {
    && AllOk(done) && pos == |Pieces(done)|
    && LabelsOf(name) == done + LabelsOf(rest)
    && EncodedLength(LabelsOf(name)) == pos + EncodedLength(LabelsOf(rest))
    && (AllOk(LabelsOf(name)) <==> AllOk(LabelsOf(rest)))
    && (pos > 0 ==> pos < bufsize)
  }

  lemma UnderwayStart(name: Bytes, bufsize: int)
    ensures Underway(name, [], name, 0, bufsize)
  {
    assert [] + LabelsOf(name) == LabelsOf(name);
  }

  /** The check of one label and of the room for it and the final zero never refuses an encodable name... */
  lemma ChecksPass(name: Bytes, done: seq<Bytes>, rest: Bytes, pos: nat, bufsize: int, d: nat)
    requires Underway(name, done, rest, pos, bufsize) && rest != [] && d == FirstDot(rest)
    ensures Encodable(name, bufsize) ==> OkLabel(rest[..d]) && pos + 1 + d + 1 <= bufsize
  {
    LabelsStep(rest, d);
    EncodedLengthPositive(LabelsOf(if d < |rest| then rest[d + 1..] else []));
    hide LabelsOf, FirstDot, EncodedLength, Pieces, Piece;
  }

  /** ... and lets one label be written. */
  lemma UnderwayStep(name: Bytes, done: seq<Bytes>, rest: Bytes, pos: nat, bufsize: int, d: nat)
    requires Underway(name, done, rest, pos, bufsize) && rest != [] && d == FirstDot(rest)
    requires OkLabel(rest[..d]) && pos + 1 + d + 1 <= bufsize
    ensures AllOk(done + [rest[..d]]) && Pieces(done + [rest[..d]]) == Pieces(done) + Piece(rest[..d])
    ensures Underway(name, done + [rest[..d]], if d < |rest| then rest[d + 1..] else [], pos + 1 + d, bufsize)
  {
    LabelsStep(rest, d);
    PiecesSnoc(done, rest[..d]);
    hide LabelsOf, FirstDot, EncodedLength, Pieces, Piece, AllOk;
    var later := LabelsOf(if d < |rest| then rest[d + 1..] else []);
    assert done + ([rest[..d]] + later) == (done + [rest[..d]]) + later;
  }

  lemma UnderwayEnd(name: Bytes, done: seq<Bytes>, pos: nat, bufsize: int)
    requires Underway(name, done, [], pos, bufsize)
    ensures LabelsOf(name) == done && EncodedLength(done) == pos + 1
    ensures Encodable(name, bufsize) <==> pos + 1 <= bufsize
  {
    assert done + [] == done;
  }

  lemma EncodedLengthPositive(labels: seq<Bytes>)
    ensures EncodedLength(labels) >= 1
  {
  }

  /**
   Writes the encoded name at position at of buf and returns its length; 0 if
   a label is empty or over 63 bytes or the name does not fit in bufsize bytes.
   Nothing outside those bytes is touched.
   */
  method EncodeName(name: Bytes, buf: array<byte>, at: nat, bufsize: int) returns (r: nat)
    requires at <= buf.Length && at + bufsize <= buf.Length
    modifies buf
    ensures forall k :: 0 <= k < buf.Length && !(at <= k < at + bufsize) ==> buf[k] == old(buf[k])
    ensures Encodable(name, bufsize) ==> r == EncodedLength(LabelsOf(name)) <= bufsize
    ensures Encodable(name, bufsize) ==> buf[at..at + r] == Wire(LabelsOf(name))
    ensures !Encodable(name, bufsize) ==> r == 0
  {
    hide LabelsOf, EncodedLength, Encodable, Underway, Pieces, Piece;
    var pos: nat, rest := 0, name;
    ghost var done: seq<Bytes> := [];
    UnderwayStart(name, bufsize);
    while rest != []
      invariant at + pos <= buf.Length && (pos > 0 ==> pos < bufsize)
      invariant Underway(name, done, rest, pos, bufsize) && AllOk(done)
      invariant buf[at..at + pos] == Pieces(done)
      invariant forall k :: 0 <= k < buf.Length && !(at <= k < at + bufsize) ==> buf[k] == old(buf[k])
      decreases |rest|
    {
      var d := ScanToDot(rest);
      ChecksPass(name, done, rest, pos, bufsize, d);
      if d == 0 || d > MAX_LABEL { return 0; }
      if pos + 1 + d + 1 > bufsize { return 0; }
      UnderwayStep(name, done, rest, pos, bufsize, d);
      PutLabel(rest[..d], buf, at + pos);
      assert buf[at..at + pos + 1 + d] == buf[at..at + pos] + buf[at + pos..at + pos + 1 + d];
      done := done + [rest[..d]];
      pos := pos + 1 + d;
      rest := if d < |rest| then rest[d + 1..] else [];
    }
    UnderwayEnd(name, done, pos, bufsize);
    if pos + 1 > bufsize { return 0; }
    buf[at + pos] := 0;
    pos := pos + 1;
    assert buf[at..at + pos] == buf[at..at + pos - 1] + [0];
    r := pos;
  }

  lemma {:induction false} PiecesSnoc(labels: seq<Bytes>, last: Bytes)
    requires AllOk(labels) && OkLabel(last)
    ensures AllOk(labels + [last])
    ensures Pieces(labels + [last]) == Pieces(labels) + Piece(last)
  {
    AllOkSnoc(labels, last);
    if labels == [] {
      assert labels + [last] == [last];
      assert [last][1..] == [];
    } else {
      var first, rest := labels[0], labels[1..];
      PiecesSnoc(rest, last);
      assert (labels + [last])[1..] == rest + [last];
      hide Piece;
      assert Pieces(labels + [last]) == Piece(first) + Pieces(rest + [last]);
      assert Pieces(labels) == Piece(first) + Pieces(rest);
    }
  }

  method ScanToDot(name: Bytes) returns (d: nat)
    ensures d == FirstDot(name)
  {
    d := 0;
    while d < |name| && name[d] != DOT
      invariant d <= |name| && FirstDot(name) == d + FirstDot(name[d..])
    {
      assert name[d..][1..] == name[d + 1..];
      d := d + 1;
    }
  }

  method PutLabel(part: Bytes, buf: array<byte>, at: nat)
    requires OkLabel(part) && at + 1 + |part| <= buf.Length
    modifies buf
    ensures buf[at..at + 1 + |part|] == Piece(part)
    ensures forall k :: 0 <= k < buf.Length && !(at <= k < at + 1 + |part|) ==> buf[k] == old(buf[k])
  {
    buf[at] := |part|;
    var i := 0;
    while i < |part|
      invariant 0 <= i <= |part|
      invariant buf[at] == |part| && buf[at + 1..at + 1 + i] == part[..i]
      invariant forall k :: 0 <= k < buf.Length && !(at <= k < at + 1 + i) ==> buf[k] == old(buf[k])
    {
      buf[at + 1 + i] := part[i];
      i := i + 1;
    }
  }

  // -------------------------------------------------------------- round trip

  /** The bytes p stand at off in the packet. */
  predicate StandsAt(pkt: Bytes, off: nat, p: Bytes) {
    off + |p| <= |pkt| && pkt[off..off + |p|] == p
  }

  lemma StandsSplit(pkt: Bytes, off: nat, p: Bytes, q: Bytes)
    requires StandsAt(pkt, off, p + q)
    ensures StandsAt(pkt, off, p) && StandsAt(pkt, off + |p|, q)
  {
    var whole := pkt[off..off + |p + q|];
    assert p == whole[..|p|] == pkt[off..off + |p|];
    assert q == whole[|p|..] == pkt[off + |p|..off + |p| + |q|];
  }

  lemma PieceRead(pkt: Bytes, off: nat, part: Bytes)
    requires OkLabel(part) && StandsAt(pkt, off, Piece(part))
    ensures pkt[off] == |part| && pkt[off + 1..off + 1 + |part|] == part
  {
    var p := pkt[off..off + 1 + |part|];
    assert p[0] == pkt[off] && p[1..] == pkt[off + 1..off + 1 + |part|];
  }

  /** The decoder meets exactly the labels that were encoded, wherever in a packet they stand. */
  lemma {:induction false} TrailOfWire(pkt: Bytes, off: nat, labels: seq<Bytes>, jumps: nat)
    requires AllOk(labels) && jumps > 0 && StandsAt(pkt, off, Wire(labels))
    ensures Trail(pkt, off, jumps) == (labels, Root)
    ensures Span(pkt, off) == |Wire(labels)|
    decreases |labels|
  {
    if labels == [] {
      assert pkt[off] == Wire(labels)[0];
    } else {
      var l, rest := labels[0], labels[1..];
      assert Wire(labels) == Piece(l) + Wire(rest);
      StandsSplit(pkt, off, Piece(l), Wire(rest));
      PieceRead(pkt, off, l);
      hide Pieces, Piece, StandsAt;
      TrailOfWire(pkt, off + 1 + |l|, rest, jumps);
      assert [l] + rest == labels;
    }
  }

  predicate EndsWithDot(name: Bytes) {
    name != [] && name[|name| - 1] == DOT
  }

  /** A name without dots is one label, and does not end in a dot. */
  lemma PlainName(name: Bytes)
    requires name != [] && FirstDot(name) == |name|
    ensures LabelsOf(name) == [name] && !EndsWithDot(name)
  {
    assert name[..|name|] == name;
    assert name[|name| - 1] in name;
  }

  /** The labels put together again are the name, less a dot at its end. */
  lemma {:induction false} DottedLabels(name: Bytes)
    requires AllOk(LabelsOf(name))
    ensures Dotted(LabelsOf(name)) == if EndsWithDot(name) then name[..|name| - 1] else name
    decreases |name|
  {
    if name == [] { return; }
    var d := FirstDot(name);
    LabelsStep(name, d);
    if d == |name| {
      PlainName(name);
    } else if d + 1 == |name| {
      assert LabelsOf([]) == [];
    } else {
      var rest := name[d + 1..];
      DottedLabels(rest);
      assert LabelsOf(rest) != [];
      hide LabelsOf, FirstDot;
      var labels := LabelsOf(name);
      assert labels[0] == name[..d] && labels[1..] == LabelsOf(rest);
      assert Dotted(labels) == name[..d] + [DOT] + Dotted(LabelsOf(rest));
      hide Dotted;
      DottedRest(name, d);
    }
  }

  lemma DottedRest(name: Bytes, d: nat)
    requires d + 1 < |name| && name[d] == DOT
    ensures
      var rest := name[d + 1..];
      && EndsWithDot(name) == EndsWithDot(rest)
      && name == name[..d] + [DOT] + rest
      && name[..|name| - 1] == name[..d] + [DOT] + rest[..|rest| - 1]
  {
  }

  lemma {:induction false} EncodedLengthOf(name: Bytes)
    ensures name != [] ==> EncodedLength(LabelsOf(name)) == |name| + if EndsWithDot(name) then 1 else 2
    decreases |name|
  {
    if name == [] { return; }
    var d := FirstDot(name);
    LabelsStep(name, d);
    if d == |name| {
      PlainName(name);
    } else if d + 1 < |name| {
      EncodedLengthOf(name[d + 1..]);
    }
  }

  /**
   Decoding a host name where it was encoded, anywhere in a packet, gives the
   name back exactly if it does not end in a dot and fits the output buffer;
   the decoder then consumes two bytes more than the name has.
   */
  lemma EncodeThenDecode(name: Bytes, bufsize: int, pkt: Bytes, off: nat, outsize: nat)
    requires Encodable(name, bufsize) && outsize >= 1 && StandsAt(pkt, off, Wire(LabelsOf(name)))
    ensures
      var (labels, end) := Trail(pkt, off, MAX_JUMPS);
      end == Root && (Clip(Dotted(labels), outsize - 1) == name <==> !EndsWithDot(name) && |name| <= outsize - 1)
    ensures name != [] && !EndsWithDot(name) ==> Span(pkt, off) == |name| + 2
  {
    WireLength(LabelsOf(name));
    EncodedLengthOf(name);
    TrailOfWire(pkt, off, LabelsOf(name), MAX_JUMPS);
    DottedLabels(name);
    ClipWholeIff(name, outsize - 1);
    hide LabelsOf, EncodedLength, Pieces, Trail, Span, Dotted, StandsAt, AllOk, FirstDot, Clip, EndsWithDot;
  }

  lemma ClipWholeIff(name: Bytes, cap: nat)
    ensures Clip(if EndsWithDot(name) then name[..|name| - 1] else name, cap) == name <==>
      !EndsWithDot(name) && |name| <= cap
  {
    if |name| <= cap { assert Clip(name, cap) == name; }
  }

  // ------------------------------------------------------------- compression

  /** The name at off consists of these labels and is reached through n pointers (section 4.1.4 of RFC 1035). */
  ghost predicate Denotes(pkt: Bytes, off: nat, labels: seq<Bytes>, n: nat)
    decreases |labels| + n
  {
    && off < |pkt|
    && if pkt[off] == 0 then labels == [] && n == 0
       else if IsPointer(pkt[off]) then n > 0 && off + 1 < |pkt| && Denotes(pkt, Target(pkt, off), labels, n - 1)
       else
         && pkt[off] <= MAX_LABEL && off + 1 + pkt[off] <= |pkt|
         && labels != [] && labels[0] == pkt[off + 1..off + 1 + pkt[off]]
         && Denotes(pkt, off + 1 + pkt[off], labels[1..], n)
  }

  /** How many labels of the name stand before the k-th pointer on the way, or before its end if there are fewer. */
  ghost function Before(pkt: Bytes, off: nat, labels: seq<Bytes>, n: nat, k: nat): (b: nat)
    requires Denotes(pkt, off, labels, n)
    ensures b <= |labels| && (n < k ==> b == |labels|)
    decreases |labels| + n
  {
    if pkt[off] == 0 then 0
    else if IsPointer(pkt[off]) then if k <= 1 then 0 else Before(pkt, Target(pkt, off), labels, n - 1, k - 1)
    else 1 + Before(pkt, off + 1 + pkt[off], labels[1..], n, k)
  }

  /** Through jumps pointers the decoder meets the labels before the last of them. */
  lemma {:induction false} TrailOfName(pkt: Bytes, off: nat, labels: seq<Bytes>, n: nat, jumps: nat)
    requires Denotes(pkt, off, labels, n) && jumps > 0
    ensures Trail(pkt, off, jumps).0 == labels[..Before(pkt, off, labels, n, jumps)]
    ensures Trail(pkt, off, jumps).1 == if n < jumps then Root else Spent
    decreases |labels| + n
  {
    if pkt[off] == 0 {
    } else if IsPointer(pkt[off]) {
      var to := Target(pkt, off);
      if jumps > 1 { TrailOfName(pkt, to, labels, n - 1, jumps - 1); } else { DenotedIsInside(pkt, to, labels, n - 1); }
    } else {
      TrailOfName(pkt, off + 1 + pkt[off], labels[1..], n, jumps);
      assert labels == [labels[0]] + labels[1..];
    }
  }

  lemma DenotedIsInside(pkt: Bytes, off: nat, labels: seq<Bytes>, n: nat)
    requires Denotes(pkt, off, labels, n)
    ensures off < |pkt| && Trail(pkt, off, 0) == ([], Spent)
  {
  }

  lemma {:induction false} DenotedAreOk(pkt: Bytes, off: nat, labels: seq<Bytes>, n: nat)
    requires Denotes(pkt, off, labels, n)
    ensures AllOk(labels)
    decreases |labels| + n
  {
    if pkt[off] == 0 {
    } else if IsPointer(pkt[off]) {
      DenotedAreOk(pkt, Target(pkt, off), labels, n - 1);
    } else {
      DenotedAreOk(pkt, off + 1 + pkt[off], labels[1..], n);
    }
  }

  lemma OneLabelMore(labels: seq<Bytes>, b: nat)
    requires AllOk(labels) && b < |labels|
    ensures Dotted(labels[..b]) <= Dotted(labels[..b + 1]) && |Dotted(labels[..b])| < |Dotted(labels[..b + 1])|
  {
    OkAt(labels, b);
    hide AllOk;
    if b > 0 {
      assert labels[..b + 1] == labels[..b] + [labels[b]];
      DottedSnoc(labels[..b], labels[b]);
      hide Dotted;
      var a := Dotted(labels[..b]);
      assert (a + [DOT] + labels[b])[..|a|] == a;
    } else {
      assert labels[..1] == [labels[0]] && labels[..0] == [];
    }
  }

  /** Labels put together begin like the first of them, and are longer if there are more. */
  lemma {:induction false} DottedPrefix(labels: seq<Bytes>, b: nat)
    requires AllOk(labels) && b <= |labels|
    ensures Dotted(labels[..b]) <= Dotted(labels)
    ensures b < |labels| ==> |Dotted(labels[..b])| < |Dotted(labels)|
    decreases |labels| - b
  {
    hide AllOk, Dotted;
    if b == |labels| {
      assert labels[..b] == labels;
    } else {
      DottedPrefix(labels, b + 1);
      OneLabelMore(labels, b);
    }
  }

  lemma {:induction false} OkAt(labels: seq<Bytes>, i: nat)
    requires AllOk(labels) && i < |labels|
    ensures OkLabel(labels[i])
  {
    if i > 0 { OkAt(labels[1..], i - 1); }
  }

  lemma ClipOfPrefix(s: Bytes, t: Bytes, cap: nat)
    requires s <= t && |s| < |t|
    ensures Clip(s, cap) == Clip(t, cap) <==> |s| >= cap
    ensures Clip(s, cap) != t
  {
    if |s| >= cap { assert t[..cap] == s[..cap]; }
  }

  /**
   What the decoder puts out for a compressed name: the labels before the
   sixteenth pointer on its way. That is the whole name exactly if it goes
   through at most fifteen pointers or has no label after the sixteenth, and
   then as much of it as the output holds. The decoder reports success for any
   number of pointers.
   */
  lemma CompressedNameDecodesIff(pkt: Bytes, off: nat, labels: seq<Bytes>, n: nat, outsize: nat)
    requires Denotes(pkt, off, labels, n) && outsize >= 1
    ensures
      var (met, end) := Trail(pkt, off, MAX_JUMPS);
      var out := Clip(Dotted(met), outsize - 1);
      var before := Before(pkt, off, labels, n, MAX_JUMPS);
      && end != Malformed
      && met == labels[..before]
      && (met == labels <==> n <= 15 || before == |labels|)
      && (out == Clip(Dotted(labels), outsize - 1) <==>
            n <= 15 || before == |labels| || |Dotted(labels[..before])| >= outsize - 1)
      && (out == Dotted(labels) <==> |Dotted(labels)| <= outsize - 1 && (n <= 15 || before == |labels|))
  {
    TrailOfName(pkt, off, labels, n, MAX_JUMPS);
    DenotedAreOk(pkt, off, labels, n);
    var before := Before(pkt, off, labels, n, MAX_JUMPS);
    DottedPrefix(labels, before);
    hide Denotes, Trail, Dotted, AllOk, Before;
    if before < |labels| {
      ClipOfPrefix(Dotted(labels[..before]), Dotted(labels), outsize - 1);
    } else {
      assert labels[..before] == labels;
      ClipIsWhole(Dotted(labels), outsize - 1);
    }
  }

  lemma ClipIsWhole(s: Bytes, cap: nat)
    ensures Clip(s, cap) == s <==> |s| <= cap
  {
  }

  /** From off on there are k pointers, each to the next. */
  predicate Chained(pkt: Bytes, off: nat, k: nat)
    decreases k
  {
    k == 0 || (off + 1 < |pkt| && IsPointer(pkt[off]) && Target(pkt, off) == off + 2 && Chained(pkt, off + 2, k - 1))
  }

  lemma {:induction false} ChainLeadsOn(pkt: Bytes, off: nat, k: nat, labels: seq<Bytes>)
    requires Chained(pkt, off, k) && Denotes(pkt, off + 2 * k, labels, 0)
    ensures Denotes(pkt, off, labels, k)
    ensures forall j: nat :: 0 < j <= k ==> Before(pkt, off, labels, k, j) == 0
    decreases k
  {
    if k > 0 { ChainLeadsOn(pkt, off + 2, k - 1, labels); }
  }

  /** Sixteen pointers, each to the next, from position at on. */
  function Pointers(at: nat): (p: Bytes)
    requires at < 64
    ensures |p| == 32 && forall i :: 0 <= i < 32 ==> p[i] == if i % 2 == 0 then 0xC0 else at + i + 1
  {
    seq(32, i requires 0 <= i < 32 => if i % 2 == 0 then 0xC0 else at + i + 1)
  }

  lemma {:induction false} PointersChain(pkt: Bytes, at: nat, j: nat)
    requires at < 64 && j <= 16 && StandsAt(pkt, at, Pointers(at))
    ensures Chained(pkt, at + 2 * j, 16 - j)
    decreases 16 - j
  {
    if j < 16 {
      var p := pkt[at..at + 32];
      assert p[2 * j] == pkt[at + 2 * j] && p[2 * j + 1] == pkt[at + 2 * j + 1];
      PointersChain(pkt, at, j + 1);
      hide Pointers;
    }
  }

  /** A label after sixteen pointers is lost: the decoder reports success and puts out the empty name. */
  lemma LabelAfterSixteenIsLost() returns (pkt: Bytes)
    ensures Denotes(pkt, 0, [[97]], 16)
    ensures Trail(pkt, 0, MAX_JUMPS) == ([], Spent) && Span(pkt, 0) == 2
  {
    pkt := Pointers(0) + [1, 97, 0];
    assert StandsAt(pkt, 0, Pointers(0)) by { assert pkt[0..32] == Pointers(0); }
    PointersChain(pkt, 0, 0);
    assert pkt[0] == Pointers(0)[0];
    hide Chained, Pointers;
    assert pkt[32] == 1 && pkt[33..34] == [97] && pkt[34] == 0;
    OneLabelName(pkt, 32);
    ChainLeadsOn(pkt, 0, 16, [[97]]);
    hide Denotes;
    TrailOfName(pkt, 0, [[97]], 16, MAX_JUMPS);
    hide Trail;
  }

  lemma OneLabelName(pkt: Bytes, off: nat)
    requires off + 3 <= |pkt| && pkt[off] == 1 && pkt[off + 1..off + 2] == [97] && pkt[off + 2] == 0
    ensures Denotes(pkt, off, [[97]], 0)
  {
    assert [[97 as byte]][1..] == [];
    assert Denotes(pkt, off + 2, [], 0);
  }

  /** A label before them is not: the name is whole though it goes through sixteen pointers. */
  lemma LabelBeforeSixteenIsKept() returns (pkt: Bytes)
    ensures Denotes(pkt, 0, [[97]], 16)
    ensures Trail(pkt, 0, MAX_JUMPS) == ([[97]], Spent) && Span(pkt, 0) == 4
  {
    pkt := [1, 97] + Pointers(2) + [0];
    assert StandsAt(pkt, 2, Pointers(2)) by { assert pkt[2..34] == Pointers(2); }
    PointersChain(pkt, 2, 0);
    assert pkt[2] == Pointers(2)[0];
    hide Chained, Pointers;
    assert pkt[0] == 1 && pkt[1..2] == [97] && pkt[34] == 0;
    assert Denotes(pkt, 34, [], 0);
    ChainLeadsOn(pkt, 2, 16, []);
    LabelInFront(pkt);
    hide Denotes;
    TrailOfName(pkt, 0, [[97]], 16, MAX_JUMPS);
    assert Span(pkt, 2) == 2;
    hide Trail, Before;
    assert [[97 as byte]][..1] == [[97]];
  }

  lemma LabelInFront(pkt: Bytes)
    requires |pkt| > 2 && pkt[0] == 1 && pkt[1..2] == [97] && Denotes(pkt, 2, [], 16)
    ensures Denotes(pkt, 0, [[97]], 16) && Before(pkt, 0, [[97]], 16, MAX_JUMPS) == 1
  {
    assert [[97 as byte]][1..] == [];
  }

  /** Only the bytes up to the first pointer count as the name's own. */
  lemma {:induction false} SpanStopsAtPointer(pkt: Bytes, off: nat, labels: seq<Bytes>, n: nat)
    requires Denotes(pkt, off, labels, n)
    ensures 1 <= Span(pkt, off) <= |pkt| - off
    ensures
      var last := off + Span(pkt, off);
      if n == 0 then pkt[last - 1] == 0 else last >= off + 2 && IsPointer(pkt[last - 2])
    decreases |labels| + n
  {
    if pkt[off] != 0 && !IsPointer(pkt[off]) {
      SpanStopsAtPointer(pkt, off + 1 + pkt[off], labels[1..], n);
    }
  }
}
