/**
 The table of eight connection blocks: which block a segment goes to, and that
 no two live blocks come to stand for the same connection.
 */
module TcpTable {
  import opened Words
  import opened Tcp

  const MAX_CONNECTIONS: nat := 8

  // -------------------------------------------------------------- the look-up

  /** The block is in use for exactly this pair of addresses and ports. */
  predicate Exact(c: Conn, srcIp: uint32, srcPort: uint16, dstPort: uint16) {
    c.state != Closed && c.localPort == dstPort && c.remotePort == srcPort && c.remoteIp == srcIp
  }

  predicate Hears(c: Conn, dstPort: uint16) {
    c.state == Listen && c.localPort == dstPort
  }

  function FirstExact(t: seq<Conn>, srcIp: uint32, srcPort: uint16, dstPort: uint16, i: nat): (r: nat)
    requires i <= |t|
    ensures i <= r <= |t| && (r < |t| ==> Exact(t[r], srcIp, srcPort, dstPort))
    ensures forall j :: i <= j < r ==> !Exact(t[j], srcIp, srcPort, dstPort)
    decreases |t| - i
  {
    if i == |t| || Exact(t[i], srcIp, srcPort, dstPort) then i else FirstExact(t, srcIp, srcPort, dstPort, i + 1)
  }

  function FirstListener(t: seq<Conn>, dstPort: uint16, i: nat): (r: nat)
    requires i <= |t|
    ensures i <= r <= |t| && (r < |t| ==> Hears(t[r], dstPort))
    ensures forall j :: i <= j < r ==> !Hears(t[j], dstPort)
    decreases |t| - i
  {
    if i == |t| || Hears(t[i], dstPort) then i else FirstListener(t, dstPort, i + 1)
  }

  function FirstClosed(t: seq<Conn>, i: nat): (r: nat)
    requires i <= |t|
    ensures i <= r <= |t| && (r < |t| ==> t[r].state == Closed)
    ensures forall j :: i <= j < r ==> t[j].state != Closed
    decreases |t| - i
  {
    if i == |t| || t[i].state == Closed then i else FirstClosed(t, i + 1)
  }

  /** The block for a segment: an exact match before a listener, -1 if there is neither. */
  function Find(t: seq<Conn>, srcIp: uint32, srcPort: uint16, dstPort: uint16): int {
    var i := FirstExact(t, srcIp, srcPort, dstPort, 0);
    var l := FirstListener(t, dstPort, 0);
    if i < |t| then i else if l < |t| then l else -1
  }

  ghost predicate AllWf(t: seq<Conn>) {
    forall i :: 0 <= i < |t| ==> t[i].Wf()
  }

  /** tcp_recv on the whole table. */
  function Deliver(t: seq<Conn>, srcIp: uint32, seg: Segment, cfg: bool, now: uint64, isn: uint32): (seq<Conn>, seq<Segment>)
    requires AllWf(t)
  {
    var i := Find(t, srcIp, seg.srcPort, seg.dstPort);
    if i < 0 then (t, []) else
    var (c, out) := Receive(t[i], srcIp, seg, cfg, now, isn);
    (t[i := c], out)
  }

  /** tcp_connect on the whole table, the interface being configured. */
  function Open(t: seq<Conn>, dstIp: uint32, dstPort: uint16, srcPort: uint16, isn: uint32, now: uint64): (seq<Conn>, int) {
    var i: int := FirstClosed(t, 0);
    if i == |t| then (t, -1) else (t[i := Connect(dstIp, dstPort, srcPort, isn, now).0], i)
  }

  // ----------------------------------------------------- one block a connection

  /** The block stands for a connection with a known peer. */
  predicate Live(c: Conn) {
    c.state != Closed && c.state != Listen
  }

  predicate SameTuple(c: Conn, d: Conn) {
    c.localPort == d.localPort && c.remoteIp == d.remoteIp && c.remotePort == d.remotePort
  }

  ghost predicate Distinct(t: seq<Conn>) {
    forall i, j :: 0 <= i < j < |t| && Live(t[i]) && Live(t[j]) ==> !SameTuple(t[i], t[j])
  }

  /** A listener knows no peer. */
  ghost predicate ListenersBlank(t: seq<Conn>) {
    forall i :: 0 <= i < |t| && t[i].state == Listen ==> t[i].remoteIp == 0 && t[i].remotePort == 0
  }

  /** What a segment can do to the names a block goes by. */
  lemma ReceiveNames(c: Conn, srcIp: uint32, seg: Segment, cfg: bool, now: uint64, isn: uint32)
    requires c.Wf() && Matches(c, srcIp, seg)
    ensures var d := Receive(c, srcIp, seg, cfg, now, isn).0;
      && d.localPort == c.localPort
      && (c.state != Listen ==> d.state != Listen && SameTuple(c, d))
      && (c.state == Listen && Live(d) ==> d.remoteIp == srcIp && d.remotePort == seg.srcPort)
      && (d.state == Listen ==> d == c)
  {
  }

  /** A segment goes to a block that it matches, changes that one as the state machine says, and no other. */
  lemma DeliverIsReceive(t: seq<Conn>, srcIp: uint32, seg: Segment, cfg: bool, now: uint64, isn: uint32)
    requires AllWf(t)
    ensures
      var i := Find(t, srcIp, seg.srcPort, seg.dstPort);
      var (u, out) := Deliver(t, srcIp, seg, cfg, now, isn);
      && |u| == |t| && (forall j :: 0 <= j < |t| && j != i ==> u[j] == t[j])
      && (i < 0 ==> out == [] && forall j :: 0 <= j < |t| ==> !Matches(t[j], srcIp, seg))
      && (i >= 0 ==> i < |t| && Matches(t[i], srcIp, seg) && (u[i], out) == Receive(t[i], srcIp, seg, cfg, now, isn))
    ensures
      var i := Find(t, srcIp, seg.srcPort, seg.dstPort);
      (exists j :: 0 <= j < |t| && Exact(t[j], srcIp, seg.srcPort, seg.dstPort)) ==>
        i >= 0 && Exact(t[i], srcIp, seg.srcPort, seg.dstPort)
  {
    hide Receive;
  }

  /** The segment makes a listener take up a peer that a live block stands for already. */
  ghost predicate Clashes(t: seq<Conn>, srcIp: uint32, seg: Segment) {
    var i := Find(t, srcIp, seg.srcPort, seg.dstPort);
    && 0 <= i < |t| && t[i].state == Listen && seg.flags.syn && !seg.flags.rst
    && exists j :: 0 <= j < |t| && Live(t[j]) && Exact(t[j], srcIp, seg.srcPort, seg.dstPort)
  }

  /**
   A segment keeps connections apart exactly if it does not make a listener take
   up a peer that a live block stands for.
   */
  lemma DeliverKeepsDistinctIff(t: seq<Conn>, srcIp: uint32, seg: Segment, cfg: bool, now: uint64, isn: uint32)
    requires AllWf(t) && Distinct(t) && ListenersBlank(t)
    ensures var u := Deliver(t, srcIp, seg, cfg, now, isn).0;
      (Distinct(u) <==> !Clashes(t, srcIp, seg)) && ListenersBlank(u)
  {
    var i := Find(t, srcIp, seg.srcPort, seg.dstPort);
    if i < 0 { return; }
    var u := Deliver(t, srcIp, seg, cfg, now, isn).0;
    ReceiveNames(t[i], srcIp, seg, cfg, now, isn);
    if t[i].state == Listen { TakesPeer(t[i], srcIp, seg, cfg, now, isn); }
    hide Receive;
    if Clashes(t, srcIp, seg) {
      var j :| 0 <= j < |t| && Live(t[j]) && Exact(t[j], srcIp, seg.srcPort, seg.dstPort);
      assert u[j] == t[j] && SameTuple(u[if i < j then i else j], u[if i < j then j else i]);
    } else {
      forall j | 0 <= j < |u| && j != i && Live(u[i]) && Live(u[j]) ensures !SameTuple(u[i], u[j]) {
        assert u[j] == t[j];
        if t[i].state == Listen { assert !Exact(t[j], srcIp, seg.srcPort, seg.dstPort); }
      }
    }
  }

  lemma TakesPeer(c: Conn, srcIp: uint32, seg: Segment, cfg: bool, now: uint64, isn: uint32)
    requires c.Wf() && Matches(c, srcIp, seg) && c.state == Listen
    ensures var d := Receive(c, srcIp, seg, cfg, now, isn).0;
      Live(d) <==> seg.flags.syn && !seg.flags.rst
  {
  }

  /**
   That can only happen to a segment from address 0, port 0, which is what a
   listener's blank peer says: for any other an exact match is found first.
   */
  lemma OnlyBlankPeersClash(t: seq<Conn>, srcIp: uint32, seg: Segment)
    requires ListenersBlank(t) && Clashes(t, srcIp, seg)
    ensures srcIp == 0 && seg.srcPort == 0
  {
    var j :| 0 <= j < |t| && Live(t[j]) && Exact(t[j], srcIp, seg.srcPort, seg.dstPort);
    var i := FirstExact(t, srcIp, seg.srcPort, seg.dstPort, 0);
    assert i <= j;
  }

  /** An active open keeps connections apart exactly if no live block stands for the same one; it does not look. */
  lemma OpenKeepsDistinctIff(t: seq<Conn>, dstIp: uint32, dstPort: uint16, srcPort: uint16, isn: uint32, now: uint64)
    requires Distinct(t) && Open(t, dstIp, dstPort, srcPort, isn, now).1 >= 0
    ensures Distinct(Open(t, dstIp, dstPort, srcPort, isn, now).0) <==>
      forall j :: 0 <= j < |t| && Live(t[j]) ==>
        !(t[j].localPort == srcPort && t[j].remoteIp == dstIp && t[j].remotePort == dstPort)
  {
    var (u, i) := Open(t, dstIp, dstPort, srcPort, isn, now);
    assert Live(u[i]) && !Live(t[i]);
    if Distinct(u) {
      forall j | 0 <= j < |t| && Live(t[j])
        ensures !(t[j].localPort == srcPort && t[j].remoteIp == dstIp && t[j].remotePort == dstPort)
      {
        assert u[j] == t[j] && !SameTuple(u[if i < j then i else j], u[if i < j then j else i]);
      }
    }
  }

  /**
   tcp_connect on the table fails exactly if no block is closed. Otherwise the
   first closed block waits in SYN_SENT for that peer, no other block changes,
   and unless a block stands for the connection already, what the peer sends
   goes to the new one.
   */
  lemma OpenEffect(t: seq<Conn>, dstIp: uint32, dstPort: uint16, srcPort: uint16, isn: uint32, now: uint64)
    ensures var (u, i) := Open(t, dstIp, dstPort, srcPort, isn, now);
      && (i == -1 <==> forall j :: 0 <= j < |t| ==> t[j].state != Closed)
      && (i == -1 ==> u == t)
      && (i != -1 ==>
            && 0 <= i < |t| == |u| && t[i].state == Closed && (forall j :: 0 <= j < i ==> t[j].state != Closed)
            && (forall j :: 0 <= j < |t| && j != i ==> u[j] == t[j])
            && u[i].state == SynSent && u[i].sndUna == isn && u[i].sndNxt == Add32(isn, 1) && u[i].rx == []
            && ((forall j :: 0 <= j < |t| ==> !Exact(t[j], dstIp, dstPort, srcPort)) ==> Find(u, dstIp, dstPort, srcPort) == i))
  {
    hide Add32, FirstListener;
  }

  // --------------------------------------------------------------- any run

  datatype Event =
    | ArriveE(srcIp: uint32, seg: Segment, cfg: bool, now: uint64, isn: uint32)
    | OpenE(dstIp: uint32, dstPort: uint16, srcPort: uint16, isn: uint32, now: uint64)
    | ListenE(port: uint16)
    | TickE(cfg: bool, now: uint64)
    | SendE(i: nat, data: seq<byte>, cfg: bool, now: uint64)
    | ReadE(i: nat, size: nat)
    | CloseE(i: nat, cfg: bool, now: uint64)

  function Step(t: seq<Conn>, e: Event): seq<Conn>
    requires AllWf(t)
  {
    match e
    case ArriveE(srcIp, seg, cfg, now, isn) => Deliver(t, srcIp, seg, cfg, now, isn).0
    case OpenE(dstIp, dstPort, srcPort, isn, now) => Open(t, dstIp, dstPort, srcPort, isn, now).0
    case ListenE(port) => var i := FirstClosed(t, 0); if i < |t| then t[i := Listening(port)] else t
    case TickE(cfg, now) => seq(|t|, i requires 0 <= i < |t| => Tick(t[i], cfg, now).0)
    case SendE(i, data, cfg, now) => if i < |t| then t[i := Send(t[i], data, cfg, now).0] else t
    case ReadE(i, size) => if i < |t| then t[i := Read(t[i], size).0] else t
    case CloseE(i, cfg, now) => if i < |t| then t[i := Close(t[i], cfg, now).0] else t
  }

  /** A live block stands for that connection already. */
  predicate Taken(t: seq<Conn>, dstIp: uint32, dstPort: uint16, srcPort: uint16) {
    exists j :: 0 <= j < |t| && Live(t[j]) && t[j].localPort == srcPort && t[j].remoteIp == dstIp && t[j].remotePort == dstPort
  }

  /** The event brings a second block for one connection: an open of one that is there, or a segment that clashes. */
  ghost predicate Doubles(t: seq<Conn>, e: Event) {
    match e
    case ArriveE(srcIp, seg, _, _, _) => Clashes(t, srcIp, seg)
    case OpenE(dstIp, dstPort, srcPort, _, _) => FirstClosed(t, 0) < |t| && Taken(t, dstIp, dstPort, srcPort)
    case _ => false
  }

  /** Timers and calls on a block leave what it stands for. */
  lemma CallsKeepNames(c: Conn, cfg: bool, now: uint64, data: seq<byte>, size: nat)
    requires c.Wf()
    ensures KeepsName(c, Tick(c, cfg, now).0) && KeepsName(c, Send(c, data, cfg, now).0)
    ensures KeepsName(c, Read(c, size).0) && KeepsName(c, Close(c, cfg, now).0)
  {
    hide Add32;
  }

  predicate KeepsName(c: Conn, d: Conn) {
    && d.Wf() && SameTuple(c, d)
    && (Live(d) ==> Live(c)) && (d.state == Listen ==> c.state == Listen)
  }

  lemma NamesKept(t: seq<Conn>, u: seq<Conn>)
    requires AllWf(t) && Distinct(t) && ListenersBlank(t)
    requires |u| == |t| && forall i :: 0 <= i < |t| ==> KeepsName(t[i], u[i])
    ensures AllWf(u) && Distinct(u) && ListenersBlank(u)
  {
    forall i, j | 0 <= i < j < |u| && Live(u[i]) && Live(u[j]) ensures !SameTuple(u[i], u[j]) {
      assert KeepsName(t[i], u[i]) && KeepsName(t[j], u[j]);
    }
  }

  lemma CallKeepsDistinct(t: seq<Conn>, e: Event)
    requires AllWf(t) && Distinct(t) && ListenersBlank(t) && (e.TickE? || e.SendE? || e.ReadE? || e.CloseE?)
    ensures AllWf(Step(t, e)) && ListenersBlank(Step(t, e)) && Distinct(Step(t, e))
  {
    hide Distinct, ListenersBlank, Tick, Send, Read, Close;
    forall i | 0 <= i < |t| ensures KeepsName(t[i], Step(t, e)[i]) {
      CallsKeepNames(t[i], if e.TickE? || e.SendE? || e.CloseE? then e.cfg else false,
                     if e.TickE? || e.SendE? || e.CloseE? then e.now else 0,
                     if e.SendE? then e.data else [], if e.ReadE? then e.size else 0);
    }
    hide KeepsName;
    NamesKept(t, Step(t, e));
  }

  lemma ListenKeepsDistinct(t: seq<Conn>, port: uint16)
    requires AllWf(t) && Distinct(t) && ListenersBlank(t)
    ensures var u := Step(t, ListenE(port)); AllWf(u) && ListenersBlank(u) && Distinct(u)
  {
  }

  lemma OpenedIsWf(t: seq<Conn>, dstIp: uint32, dstPort: uint16, srcPort: uint16, isn: uint32, now: uint64)
    requires AllWf(t) && ListenersBlank(t)
    ensures var u := Open(t, dstIp, dstPort, srcPort, isn, now).0; AllWf(u) && ListenersBlank(u)
  {
  }

  lemma DeliveredIsWf(t: seq<Conn>, srcIp: uint32, seg: Segment, cfg: bool, now: uint64, isn: uint32)
    requires AllWf(t)
    ensures AllWf(Deliver(t, srcIp, seg, cfg, now, isn).0)
  {
    hide Receive;
  }

  lemma StepKeepsDistinctIff(t: seq<Conn>, e: Event)
    requires AllWf(t) && Distinct(t) && ListenersBlank(t)
    ensures AllWf(Step(t, e)) && ListenersBlank(Step(t, e))
    ensures Distinct(Step(t, e)) <==> !Doubles(t, e)
  {
    hide AllWf, Distinct, ListenersBlank, Clashes, Deliver;
    if e.ArriveE? {
      DeliverKeepsDistinctIff(t, e.srcIp, e.seg, e.cfg, e.now, e.isn);
      DeliveredIsWf(t, e.srcIp, e.seg, e.cfg, e.now, e.isn);
    } else if e.OpenE? {
      OpenedIsWf(t, e.dstIp, e.dstPort, e.srcPort, e.isn, e.now);
      if FirstClosed(t, 0) < |t| { OpenKeepsDistinctIff(t, e.dstIp, e.dstPort, e.srcPort, e.isn, e.now); }
    } else if e.ListenE? {
      ListenKeepsDistinct(t, e.port);
    } else {
      CallKeepsDistinct(t, e);
      hide Step;
    }
  }

  /** The events lead from t to u, and none of them doubles a connection. */
  ghost predicate Run(t: seq<Conn>, events: seq<Event>, u: seq<Conn>)
    decreases |events|
  {
    if events == [] then u == t
    else AllWf(t) && !Doubles(t, events[0]) && Run(Step(t, events[0]), events[1..], u)
  }

  /**
   Over any run of segments, opens, listens, timers and calls in which none
   opens a connection that is there, or answers a segment from nowhere twice, no
   two live blocks stand for the same connection.
   */
  lemma {:induction false} RunKeepsDistinct(t: seq<Conn>, events: seq<Event>, u: seq<Conn>)
    requires AllWf(t) && Distinct(t) && ListenersBlank(t) && Run(t, events, u)
    ensures AllWf(u) && Distinct(u) && ListenersBlank(u)
    decreases |events|
  {
    if events != [] {
      StepKeepsDistinctIff(t, events[0]);
      hide Distinct, ListenersBlank, AllWf, Step, Doubles;
      RunKeepsDistinct(Step(t, events[0]), events[1..], u);
    }
  }

  // ------------------------------------------------------ a run into a clash

  /** The table when nothing has happened. */
  function Blank(): seq<Conn> {
    seq(MAX_CONNECTIONS, _ => Conn(0, 0, 0, Closed, 0, 0, 0, 0, 0, [], 0, 0, 0))
  }

  /** A SYN from nowhere to port 80. */
  function FromNowhere(): Event {
    ArriveE(0, Segment(0, 80, 7, 0, SYN, 4096, []), true, 0, 0)
  }

  /** The first two blocks are these, the others closed. */
  predicate Two(t: seq<Conn>, c: Conn, d: Conn) {
    |t| == MAX_CONNECTIONS && t[0] == c && t[1] == d && forall i :: 2 <= i < MAX_CONNECTIONS ==> t[i].state == Closed && t[i].Wf()
  }

  function Calling(): Conn { Connect(1, 2, 3, 0, 0).0 }

  function Answering(): Conn {
    Emit(Accepted(Listening(80), 0, FromNowhere().seg, 0), true, SYN_ACK, [], 0).0
  }

  lemma OpenThenListen() returns (t: seq<Conn>)
    ensures Two(t, Calling(), Listening(80)) && Run(Blank(), [OpenE(1, 2, 3, 0, 0), ListenE(80)], t)
  {
    var a := Step(Blank(), OpenE(1, 2, 3, 0, 0));
    assert FirstClosed(Blank(), 0) == 0;
    assert FirstClosed(a, 0) == 1;
    t := Step(a, ListenE(80));
    RunTwo(Blank(), OpenE(1, 2, 3, 0, 0), ListenE(80));
  }

  lemma RunTwo(t: seq<Conn>, e: Event, f: Event)
    requires AllWf(t) && !Doubles(t, e) && AllWf(Step(t, e)) && !Doubles(Step(t, e), f)
    ensures Run(t, [e, f], Step(Step(t, e), f))
  {
    assert [e, f][1..] == [f];
    hide AllWf, Doubles, Step;
    assert Run(Step(t, e), [f], Step(Step(t, e), f));
  }

  lemma {:induction false} RunsJoin(t: seq<Conn>, events: seq<Event>, u: seq<Conn>, more: seq<Event>, v: seq<Conn>)
    requires Run(t, events, u) && Run(u, more, v)
    ensures Run(t, events + more, v)
    decreases |events|
  {
    hide AllWf, Doubles, Step;
    if events == [] {
      assert events + more == more;
    } else {
      RunsJoin(Step(t, events[0]), events[1..], u, more, v);
      assert (events + more)[0] == events[0] && (events + more)[1..] == events[1..] + more;
    }
  }

  lemma AnswerThenClose(t: seq<Conn>) returns (u: seq<Conn>)
    requires Two(t, Calling(), Listening(80))
    ensures Two(u, Calling().(state := Closed), Answering()) && Run(t, [FromNowhere(), CloseE(0, true, 0)], u)
  {
    var seg := FromNowhere().seg;
    assert FirstExact(t, 0, 0, 80, 0) == FirstExact(t, 0, 0, 80, 1) == 1;
    assert Find(t, 0, 0, 80) == 1;
    assert !Clashes(t, 0, seg) by {
      forall j | 0 <= j < |t| && Live(t[j]) ensures !Exact(t[j], 0, 0, 80) { assert j == 0; }
    }
    var a := Step(t, FromNowhere());
    assert a == t[1 := Answering()];
    u := Step(a, CloseE(0, true, 0));
    assert AllWf(t) && AllWf(a);
    RunTwo(t, FromNowhere(), CloseE(0, true, 0));
  }

  /**
   From the blank table: a call, a listener behind it, a SYN from nowhere to the
   listener, the call dropped and a listener in its place. A second SYN from
   nowhere then makes two live blocks stand for the same connection.
   */
  lemma ClashIsReached() returns (events: seq<Event>, t: seq<Conn>)
    ensures Run(Blank(), events, t) && AllWf(t) && Distinct(t) && ListenersBlank(t)
    ensures Clashes(t, 0, FromNowhere().seg) && !Distinct(Step(t, FromNowhere()))
  {
    var a := OpenThenListen();
    var b := AnswerThenClose(a);
    t := ListenAgain(b);
    hide Run, Two, Step, Calling, Answering, FromNowhere;
    RunsJoin(Blank(), [OpenE(1, 2, 3, 0, 0), ListenE(80)], a, [FromNowhere(), CloseE(0, true, 0)], b);
    events := [OpenE(1, 2, 3, 0, 0), ListenE(80)] + [FromNowhere(), CloseE(0, true, 0)];
    RunsJoin(Blank(), events, b, [ListenE(80)], t);
    events := events + [ListenE(80)];
    BlankIsDistinct();
    RunKeepsDistinct(Blank(), events, t);
    ListenerClashes(t);
    StepKeepsDistinctIff(t, FromNowhere());
    NowhereDoubles(t);
  }

  lemma NowhereDoubles(t: seq<Conn>)
    ensures Doubles(t, FromNowhere()) == Clashes(t, 0, FromNowhere().seg)
  {
  }

  lemma BlankIsDistinct()
    ensures AllWf(Blank()) && Distinct(Blank()) && ListenersBlank(Blank())
  {
  }

  lemma ListenAgain(t: seq<Conn>) returns (u: seq<Conn>)
    requires Two(t, Calling().(state := Closed), Answering())
    ensures Two(u, Listening(80), Answering()) && Run(t, [ListenE(80)], u)
  {
    assert FirstClosed(t, 0) == 0;
    assert AllWf(t);
    u := Step(t, ListenE(80));
    assert Run(u, [], u);
    assert [ListenE(80)][1..] == [];
  }

  lemma ListenerClashes(t: seq<Conn>)
    requires Two(t, Listening(80), Answering())
    ensures Clashes(t, 0, FromNowhere().seg)
  {
    assert FirstExact(t, 0, 0, 80, 0) == 0;
    assert Live(t[1]) && Exact(t[1], 0, 0, 80);
  }

  /** With connections apart, the exact match found is the only one, wherever it stands in the table. */
  lemma ExactMatchIsUnique(t: seq<Conn>, srcIp: uint32, srcPort: uint16, dstPort: uint16, j: nat)
    requires Distinct(t) && ListenersBlank(t) && (srcIp != 0 || srcPort != 0)
    requires j < |t| && Exact(t[j], srcIp, srcPort, dstPort)
    ensures Find(t, srcIp, srcPort, dstPort) == j
  {
    var i := FirstExact(t, srcIp, srcPort, dstPort, 0);
    assert i <= j && Live(t[i]) && Live(t[j]) && SameTuple(t[i], t[j]);
  }

  // ------------------------------------------------------------------ the scans

  class Table {
    const conns: array<Connection>

    constructor (conns: array<Connection>)
      ensures this.conns == conns
    {
      this.conns := conns;
    }

    /** The blocks' values, in order. */
    ghost function Abs(): (t: seq<Conn>)
      reads this, conns, set k | 0 <= k < conns.Length :: conns[k]
      ensures |t| == conns.Length && forall k :: 0 <= k < |t| ==> t[k] == conns[k].Abs()
    {
      seq(conns.Length, k requires 0 <= k < conns.Length reads this, conns, set m | 0 <= m < conns.Length :: conns[m] => conns[k].Abs())
    }

    method FindConn(srcIp: uint32, srcPort: uint16, dstPort: uint16) returns (i: int)
      ensures i == Find(Abs(), srcIp, srcPort, dstPort)
    {
      i := 0;
      while i < conns.Length
        invariant 0 <= i <= conns.Length
        invariant FirstExact(Abs(), srcIp, srcPort, dstPort, 0) == FirstExact(Abs(), srcIp, srcPort, dstPort, i)
      {
        var c := conns[i];
        if c.state != Closed && c.localPort == dstPort && c.remotePort == srcPort && c.remoteIp == srcIp { return; }
        i := i + 1;
      }
      i := 0;
      while i < conns.Length
        invariant 0 <= i <= conns.Length
        invariant FirstListener(Abs(), dstPort, 0) == FirstListener(Abs(), dstPort, i)
      {
        if conns[i].state == Listen && conns[i].localPort == dstPort { return; }
        i := i + 1;
      }
      i := -1;
    }

    method AllocConn() returns (i: int)
      ensures var free := FirstClosed(Abs(), 0); i == if free == |Abs()| then -1 else free
    {
      i := 0;
      while i < conns.Length
        invariant 0 <= i <= conns.Length && FirstClosed(Abs(), 0) == FirstClosed(Abs(), i)
      {
        if conns[i].state == Closed { return; }
        i := i + 1;
      }
      i := -1;
    }
  }
}
