/**
 How a connection ends, seen from outside the state machine. The orderly close
 of net/tcp.c runs to its end from every reachable world with both ends
 ESTABLISHED; two ends that close at the same time never answer each other.
 */
module TcpCloses {
  import opened Words
  import opened Tcp
  import opened TcpPair
  import opened TcpFins

  // --------------------------------------------------- who names whom

  /** The end has met its peer: its address fields are the peer's. */
  predicate Met(p: Party) {
    p.joined || p.conn.state !in {Listen, SynSent, Closed}
  }

  predicate Names(p: Party, o: Party) {
    p.conn.remoteIp == o.ip && p.conn.remotePort == o.conn.localPort
  }

  predicate FromTo(p: Party, s: Segment) {
    s.srcPort == p.conn.localPort && s.dstPort == p.conn.remotePort
  }

  ghost predicate Named(w: World) {
    && (Met(w.client) ==> Names(w.client, w.server))
    && (Met(w.server) ==> Names(w.server, w.client))
    && forall k <- w.net :: k.srcIp == w.Get(Peer(k.to)).ip && FromTo(w.Get(Peer(k.to)), k.seg)
  }

  /** p has become q and sent out, with the addresses it had, or with those of the SYN it took. */
  ghost predicate NamesOk(p: Party, o: Party, q: Party, out: seq<Segment>) {
    && q.ip == p.ip && q.conn.localPort == p.conn.localPort
    && (Met(q) ==> Names(q, o))
    && (p.conn.state != Listen ==> q.conn.remotePort == p.conn.remotePort)
    && forall s <- out :: FromTo(q, s)
  }

  lemma NamesAdvance(w: World, h: Host, q: Party, out: seq<Segment>)
    requires Inv(w) && Named(w) && NamesOk(w.Get(h), w.Get(Peer(h)), q, out)
    ensures Named(w.Put(h, q, out))
  {
    hide Off, Add32, SegmentOk;
    var v := w.Put(h, q, out);
    forall k <- v.net ensures k.srcIp == v.Get(Peer(k.to)).ip && FromTo(v.Get(Peer(k.to)), k.seg) {
      if k in w.net && k.to != h { assert w.Get(h).conn.state != Listen; }
    }
  }

  lemma TimerNames(p: Party, o: Party, cfg: bool, now: uint64, m: nat)
    requires p.conn.Wf() && (Met(p) ==> Names(p, o))
    ensures var (c, out) := Tick(p.conn, cfg, now);
      NamesOk(p, o, Moved(p, c).(missed := m), out)
  {
    hide Add32;
  }

  lemma CallNames(p: Party, o: Party, data: seq<byte>, size: nat, cfg: bool, now: uint64, m: nat, sent: seq<byte>)
    requires p.conn.Wf() && (Met(p) ==> Names(p, o))
    ensures var (c, out) := Send(p.conn, data, cfg, now); NamesOk(p, o, Moved(p, c).(sent := sent), out)
    ensures var (c, bytes) := Read(p.conn, size); NamesOk(p, o, Moved(p, c).(read := p.read + bytes), [])
    ensures var (c, out) := Close(p.conn, cfg, now); NamesOk(p, o, Moved(p, c).(missed := m), out)
  {
    hide Add32;
  }

  lemma DeliverNames(p: Party, o: Party, s: Segment, cfg: bool, now: uint64, isn: uint32)
    requires Local(p) && (Met(p) ==> Names(p, o)) && FromTo(o, s)
    ensures var (c, out) := Receive(p.conn, o.ip, s, cfg, now, isn);
      NamesOk(p, o, Moved(p, c), out)
  {
    hide Add32, Off;
  }

  lemma NextKeepsNamed(w: World, e: Event)
    requires Inv(w) && Named(w) && Enabled(w, e)
    ensures Named(Next(w, e))
  {
    assert w.Wf();
    hide Off, Add32, NamesOk, Tick, Close, Send, Receive, Read, Ends, SegmentOk;
    match e
    case Deliver(pkt, cfg, now, isn) =>
      var p, o := w.Get(pkt.to), w.Get(Peer(pkt.to));
      LocalOf(w, pkt.to);
      DeliverNames(p, o, pkt.seg, cfg, now, isn);
      var (c, out) := Receive(p.conn, pkt.srcIp, pkt.seg, cfg, now, isn);
      NamesAdvance(w, pkt.to, Moved(p, c), out);
    case Timer(h, cfg, now) =>
      var p := w.Get(h);
      var (c, out) := Tick(p.conn, cfg, now);
      TimerNames(p, w.Get(Peer(h)), cfg, now, Missed(p, c, out));
      NamesAdvance(w, h, Moved(p, c).(missed := Missed(p, c, out)), out);
    case AppSend(h, data, cfg, now) =>
      var p := w.Get(h);
      var (c, out) := Send(p.conn, data, cfg, now);
      var sent := if out == [] then p.sent else p.sent + Clamped(data);
      CallNames(p, w.Get(Peer(h)), data, 0, cfg, now, 0, sent);
      NamesAdvance(w, h, Moved(p, c).(sent := sent), out);
    case AppRead(h, size) =>
      var p := w.Get(h);
      var (c, bytes) := Read(p.conn, size);
      CallNames(p, w.Get(Peer(h)), [], size, true, 0, 0, []);
      NamesAdvance(w, h, Moved(p, c).(read := p.read + bytes), []);
    case AppClose(h, cfg, now) =>
      var p := w.Get(h);
      var (c, out) := Close(p.conn, cfg, now);
      CallNames(p, w.Get(Peer(h)), [], 0, cfg, now, Missed(p, c, out), []);
      NamesAdvance(w, h, Moved(p, c).(missed := Missed(p, c, out)), out);
  }

  lemma {:induction false} RunKeepsNamed(w: World, events: seq<Event>, v: World)
    requires Inv(w) && Named(w) && Reaches(w, events, v)
    ensures Named(v)
    decreases |events|
  {
    assert w.Wf();
    hide Inv, Named, Next, Enabled;
    if events != [] {
      NextKeepsInv(w, events[0]);
      NextKeepsNamed(w, events[0]);
      RunKeepsNamed(Next(w, events[0]), events[1..], v);
    }
  }

  lemma ReachableNamed(v: World)
    requires Reachable(v)
    ensures Inv(v) && Named(v)
  {
    var w: World, events :| w.Wf() && Initial(w) && Reaches(w, events, v);
    InitialInv(w);
    assert Named(w);
    hide Inv, Named;
    RunKeepsInv(w, events, v);
    RunKeepsNamed(w, events, v);
  }

  /** A segment between two ends that have met is taken for the connection. */
  lemma FindsItsConnection(v: World, k: Packet)
    requires Named(v) && k in v.net && Met(v.Get(k.to)) && Met(v.Get(Peer(k.to)))
    requires v.Get(k.to).conn.state != Closed
    ensures Matches(v.Get(k.to).conn, k.srcIp, k.seg)
  {
  }

  /** A reachable world stays reachable, and knows who names whom. */
  lemma Onward(w: World, e: Event)
    requires Reachable(w) && Enabled(w, e)
    ensures Reachable(Next(w, e)) && Inv(w) && Named(w)
  {
    hide Inv, Named, Next, Enabled;
    ReachableNamed(w);
    var w0: World, events :| w0.Wf() && Initial(w0) && Reaches(w0, events, w);
    After(w0, events, w, e);
  }

  /** The event sends exactly k, and nothing happens to the other end. */
  ghost predicate SendsOnly(w: World, v: World, k: Packet) {
    && v.net == w.net + {k}
    && v.Get(k.to) == w.Get(k.to)
    && k.srcIp == v.Get(Peer(k.to)).ip
  }

  lemma PutOne(w: World, h: Host, q: Party, s: Segment)
    ensures SendsOnly(w, w.Put(h, q, [s]), Packet(Peer(h), q.ip, s))
    ensures w.Put(h, q, [s]).Get(h) == q
  {
    assert (set x <- [s] :: Packet(Peer(h), q.ip, x)) == {Packet(Peer(h), q.ip, s)};
  }

  lemma PutNone(w: World, h: Host, q: Party)
    ensures w.Put(h, q, []).net == w.net && w.Put(h, q, []).Get(h) == q
    ensures w.Put(h, q, []).Get(Peer(h)) == w.Get(Peer(h))
  {
  }

  /** What waits in the ring of h can be read, all of it or its oldest bytes. */
  ghost predicate RingIsReadable(w: World, h: Host)
    requires w.Wf()
  {
    forall size: nat ::
      var v, p := Next(w, AppRead(h, size)), w.Get(h);
      && v.Get(h).read == p.read + p.conn.rx[..Min(size, |p.conn.rx|)]
      && v.Get(h).conn.rx == p.conn.rx[Min(size, |p.conn.rx|)..]
  }

  ghost predicate BothReadable(w: World)
    requires w.Wf()
  {
    RingIsReadable(w, Client) && RingIsReadable(w, Server)
  }

  lemma BothCanRead(w: World)
    requires w.Wf() && forall g: Host :: w.Get(g).conn.state in {Established, CloseWait, FinWait1, FinWait2}
    ensures BothReadable(w)
  {
    hide RingIsReadable;
    ReadableRing(w, Client);
    ReadableRing(w, Server);
  }

  lemma ReadableRing(w: World, h: Host)
    requires w.Wf() && w.Get(h).conn.state in {Established, CloseWait, FinWait1, FinWait2}
    ensures RingIsReadable(w, h)
  {
  }

  /** Whatever becomes of the two ends, the bytes they have written, stored and read are the same ones. */
  predicate SameBytes(w: World, v: World) {
    && v.client.sent == w.client.sent && v.client.read == w.client.read && v.client.conn.rx == w.client.conn.rx
    && v.server.sent == w.server.sent && v.server.read == w.server.read && v.server.conn.rx == w.server.conn.rx
  }

  lemma SameBytesOn(w: World, v: World, u: World)
    requires SameBytes(w, v) && SameBytes(v, u)
    ensures SameBytes(w, u)
  {
  }

  // ------------------------------------------------------- an orderly close

  /** tcp_close on a connection that is open for writing: a FIN leaves, numbered after what was sent. */
  lemma CloseSendsFin(w: World, h: Host, now: uint64) returns (k: Packet)
    requires Reachable(w) && w.Get(h).conn.state in {Established, CloseWait}
    ensures var v := Next(w, AppClose(h, true, now));
      && Reachable(v) && SendsOnly(w, v, k) && SameBytes(w, v)
      && k.to == Peer(h) && k.seg.flags == FIN_ACK && k.seg.payload == []
      && k.seg.seqNum == w.Get(h).conn.sndNxt && k.seg.ackNum == w.Get(h).conn.rcvNxt
      && v.Get(h).conn.sndNxt == Add32(k.seg.seqNum, 1) && v.Get(h).conn.rcvNxt == w.Get(h).conn.rcvNxt
      && v.Get(h).conn.state == (if w.Get(h).conn.state == Established then FinWait1 else LastAck)
  {
    hide Reachable, Inv, Named;
    Onward(w, AppClose(h, true, now));
    var p := w.Get(h);
    var (c, out) := Close(p.conn, true, now);
    k := Packet(Peer(h), p.ip, out[0]);
    assert out == [out[0]];
    PutOne(w, h, Moved(p, c).(missed := Missed(p, c, out)), out[0]);
  }

  /** A FIN that comes to an ESTABLISHED end, in order or not: one acknowledgement of it leaves. */
  lemma FinIsAnswered(w: World, k: Packet, now: uint64, isn: uint32) returns (a: Packet)
    requires Reachable(w) && k in w.net && k.seg.flags.fin && w.Get(k.to).conn.state == Established
    ensures var v := Next(w, Deliver(k, true, now, isn));
      && Reachable(v) && SendsOnly(w, v, a) && SameBytes(w, v)
      && a.to == Peer(k.to) && a.seg.flags == ACK && a.seg.payload == []
      && a.seg.ackNum == Add32(k.seg.seqNum, 1)
      && v.Get(k.to).conn.state == CloseWait && v.Get(k.to).conn.rcvNxt == a.seg.ackNum
  {
    var e := Deliver(k, true, now, isn);
    hide Reachable;
    Onward(w, e);
    var p, o := w.Get(k.to), w.Get(Peer(k.to));
    assert SegmentOk(Peer(k.to), o, p, k.seg);
    FindsItsConnection(w, k);
    hide Inv, Named, Add32;
    var (c, out) := Receive(p.conn, k.srcIp, k.seg, true, now, isn);
    a := Packet(Peer(k.to), p.ip, out[0]);
    assert out == [out[0]];
    PutOne(w, k.to, Moved(p, c), out[0]);
  }

  /** A plain acknowledgement of everything an end has sent, its FIN included. */
  lemma FinIsAcknowledged(w: World, a: Packet, now: uint64, isn: uint32)
    requires Reachable(w) && a in w.net && a.seg.flags == ACK && a.seg.ackNum == w.Get(a.to).conn.sndNxt
    requires w.Get(a.to).conn.state in {FinWait1, LastAck} && Met(w.Get(Peer(a.to)))
    ensures var v := Next(w, Deliver(a, true, now, isn));
      && Reachable(v) && SameBytes(w, v) && v.net == w.net && v.Get(Peer(a.to)) == w.Get(Peer(a.to))
      && v.Get(a.to).conn.state == (if w.Get(a.to).conn.state == FinWait1 then FinWait2 else Closed)
  {
    var e := Deliver(a, true, now, isn);
    hide Reachable;
    Onward(w, e);
    FindsItsConnection(w, a);
    var p := w.Get(a.to);
    hide Inv, Named, Add32;
    PutNone(w, a.to, Moved(p, Receive(p.conn, a.srcIp, a.seg, true, now, isn).0));
  }

  /** The other end's FIN, when the own one has been acknowledged; one that comes again is answered again. */
  lemma SecondFinIsAnswered(w: World, k: Packet, now: uint64, isn: uint32) returns (a: Packet)
    requires Reachable(w) && k in w.net && k.seg.flags.fin && w.Get(k.to).conn.state in {FinWait2, TimeWait}
    requires Met(w.Get(Peer(k.to)))
    ensures var v, c := Next(w, Deliver(k, true, now, isn)), w.Get(k.to).conn;
      && Reachable(v) && SendsOnly(w, v, a) && SameBytes(w, v)
      && a.to == Peer(k.to) && a.seg.flags == ACK && a.seg.payload == []
      && a.seg.ackNum == (if c.state == FinWait2 then Add32(k.seg.seqNum, 1) else c.rcvNxt)
      && v.Get(k.to).conn.state == TimeWait && v.Get(k.to).conn.timeWait == now
  {
    var e := Deliver(k, true, now, isn);
    hide Reachable;
    Onward(w, e);
    var p := w.Get(k.to);
    assert SegmentOk(Peer(k.to), w.Get(Peer(k.to)), p, k.seg);
    FindsItsConnection(w, k);
    hide Inv, Named, Add32;
    var (c, out) := Receive(p.conn, k.srcIp, k.seg, true, now, isn);
    a := Packet(Peer(k.to), p.ip, out[0]);
    assert out == [out[0]];
    PutOne(w, k.to, Moved(p, c), out[0]);
  }

  /**
   One end closes: its FIN arrives and is acknowledged. Each step sends one
   segment at most, no end loses a byte, and both can go on reading.
   */
  lemma HalfClose(w0: World, h: Host, now: seq<uint64>, isn: uint32)
    returns (w1: World, w2: World, w3: World, fin: Packet, ack: Packet)
    requires Reachable(w0) && |now| == 3
    requires w0.Get(h).conn.state == Established && w0.Get(Peer(h)).conn.state == Established
    ensures w1 == Next(w0, AppClose(h, true, now[0])) && SendsOnly(w0, w1, fin)
    ensures w1.Wf() && w2 == Next(w1, Deliver(fin, true, now[1], isn)) && SendsOnly(w1, w2, ack)
    ensures w2.Wf() && w3 == Next(w2, Deliver(ack, true, now[2], isn)) && w3.net == w2.net
    ensures Reachable(w3) && w3.Get(h).conn.state == FinWait2 && w3.Get(Peer(h)).conn.state == CloseWait
    ensures fin.seg.flags == FIN_ACK && ack.seg.flags == ACK && ack.seg.ackNum == Add32(fin.seg.seqNum, 1)
    ensures SameBytes(w0, w1) && SameBytes(w0, w2) && SameBytes(w0, w3)
    ensures BothReadable(w1) && BothReadable(w2) && BothReadable(w3)
  {
    assert w0.Wf();
    hide Reachable, Next, RingIsReadable, BothReadable, SameBytes, Add32, World.Wf;
    fin := CloseSendsFin(w0, h, now[0]);
    w1 := Next(w0, AppClose(h, true, now[0]));
    BothCanRead(w1);
    ack := FinIsAnswered(w1, fin, now[1], isn);
    w2 := Next(w1, Deliver(fin, true, now[1], isn));
    BothCanRead(w2);
    FinIsAcknowledged(w2, ack, now[2], isn);
    w3 := Next(w2, Deliver(ack, true, now[2], isn));
    BothCanRead(w3);
    SameBytesOn(w0, w1, w2);
    SameBytesOn(w0, w2, w3);
  }

  /**
   The other end closes too: its FIN arrives and is acknowledged. It is CLOSED
   then, and h, whose ring could be read until the FIN came, waits in TIME_WAIT
   since it answered.
   */
  lemma OtherHalfCloses(w3: World, h: Host, now: seq<uint64>, isn: uint32)
    returns (w4: World, w5: World, w6: World, fin: Packet, ack: Packet)
    requires Reachable(w3) && |now| == 3
    requires w3.Get(h).conn.state == FinWait2 && w3.Get(Peer(h)).conn.state == CloseWait
    ensures w4 == Next(w3, AppClose(Peer(h), true, now[0])) && SendsOnly(w3, w4, fin)
    ensures w4.Wf() && w5 == Next(w4, Deliver(fin, true, now[1], isn)) && SendsOnly(w4, w5, ack)
    ensures w5.Wf() && w6 == Next(w5, Deliver(ack, true, now[2], isn)) && w6.net == w5.net
    ensures Reachable(w6) && w6.Get(Peer(h)).conn.state == Closed
    ensures w6.Get(h).conn.state == TimeWait && w6.Get(h).conn.timeWait == now[1]
    ensures fin.seg.flags == FIN_ACK && ack.seg.flags == ACK && ack.seg.ackNum == Add32(fin.seg.seqNum, 1)
    ensures SameBytes(w3, w4) && SameBytes(w3, w5) && SameBytes(w3, w6)
    ensures RingIsReadable(w4, h)
  {
    assert w3.Wf();
    hide Reachable, Next, RingIsReadable, BothReadable, SameBytes, Add32, World.Wf;
    var o := Peer(h);
    fin := CloseSendsFin(w3, o, now[0]);
    w4 := Next(w3, AppClose(o, true, now[0]));
    ack := SecondFinIsAnswered(w4, fin, now[1], isn);
    w5 := Next(w4, Deliver(fin, true, now[1], isn));
    FinIsAcknowledged(w5, ack, now[2], isn);
    w6 := Next(w5, Deliver(ack, true, now[2], isn));
    SameBytesOn(w3, w4, w5);
    SameBytesOn(w3, w5, w6);
    ReadableRing(w4, h);
  }

  /** Three steps are a run, and two runs in a row are one. */
  lemma ThreeSteps(w0: World, w1: World, w2: World, w3: World, e: seq<Event>)
    requires |e| == 3 && w0.Wf() && Enabled(w0, e[0]) && w1 == Next(w0, e[0])
    requires w1.Wf() && Enabled(w1, e[1]) && w2 == Next(w1, e[1])
    requires w2.Wf() && Enabled(w2, e[2]) && w3 == Next(w2, e[2])
    ensures Reaches(w0, e, w3)
  {
    hide Next, Enabled;
    assert Reaches(w3, e[1..][1..][1..], w3);
    assert Reaches(w2, e[1..][1..], w3) && Reaches(w1, e[1..], w3);
  }

  /** One end closes, its FIN arrives, the acknowledgement of the FIN arrives. */
  function CloseEvents(h: Host, fin: Packet, ack: Packet, now: seq<uint64>, isn: uint32): seq<Event>
    requires |now| == 3
  {
    [AppClose(h, true, now[0]), Deliver(fin, true, now[1], isn), Deliver(ack, true, now[2], isn)]
  }

  lemma ClosingRun(w0: World, w1: World, w2: World, w3: World, h: Host, fin: Packet, ack: Packet, now: seq<uint64>, isn: uint32)
    requires w0.Wf() && w1.Wf() && w2.Wf() && |now| == 3
    requires w1 == Next(w0, AppClose(h, true, now[0])) && SendsOnly(w0, w1, fin)
    requires w2 == Next(w1, Deliver(fin, true, now[1], isn)) && SendsOnly(w1, w2, ack)
    requires w3 == Next(w2, Deliver(ack, true, now[2], isn)) && w3.net == w2.net
    ensures Reaches(w0, CloseEvents(h, fin, ack, now, isn), w3) && w3.net == w0.net + {fin, ack}
  {
    hide Next;
    ThreeSteps(w0, w1, w2, w3, CloseEvents(h, fin, ack, now, isn));
  }

  lemma {:induction false} InARow(w: World, e: seq<Event>, v: World, f: seq<Event>, u: World)
    requires w.Wf() && v.Wf() && Reaches(w, e, v) && Reaches(v, f, u)
    ensures Reaches(w, e + f, u)
    decreases |e|
  {
    hide Next, Enabled;
    if e == [] {
      assert e + f == f;
    } else {
      InARow(Next(w, e[0]), e[1..], v, f, u);
      assert (e + f)[1..] == e[1..] + f;
    }
  }

  /**
   The orderly close, from any reachable world with both ends ESTABLISHED: h
   closes and has its FIN acknowledged, the other end closes and has its FIN
   acknowledged, and no other segment is sent. Then h waits in TIME_WAIT since
   it answered, the other end is CLOSED, and neither lost a byte it had stored.
   */
  lemma OrderlyClose(w0: World, h: Host, first: seq<uint64>, second: seq<uint64>, isn: uint32) returns (k: seq<Packet>, v: World)
    requires Reachable(w0) && |first| == 3 && |second| == 3
    requires w0.Get(h).conn.state == Established && w0.Get(Peer(h)).conn.state == Established
    ensures |k| == 4 && k[0].seg.flags == k[2].seg.flags == FIN_ACK && k[1].seg.flags == k[3].seg.flags == ACK
    ensures Reaches(w0, CloseEvents(h, k[0], k[1], first, isn) + CloseEvents(Peer(h), k[2], k[3], second, isn), v) && Reachable(v)
    ensures v.net == w0.net + {k[0], k[1]} + {k[2], k[3]}
    ensures v.Get(h).conn.state == TimeWait && v.Get(h).conn.timeWait == second[1]
    ensures v.Get(Peer(h)).conn.state == Closed
    ensures SameBytes(w0, v)
  {
    assert w0.Wf();
    hide *;
    var w1, w2, w3, k0, k1 := HalfClose(w0, h, first, isn);
    var w4, w5, w6, k2, k3 := OtherHalfCloses(w3, h, second, isn);
    ClosingRun(w0, w1, w2, w3, h, k0, k1, first, isn);
    ClosingRun(w3, w4, w5, w6, Peer(h), k2, k3, second, isn);
    InARow(w0, CloseEvents(h, k0, k1, first, isn), w3, CloseEvents(Peer(h), k2, k3, second, isn), w6);
    SameBytesOn(w0, w3, w6);
    k, v := [k0, k1, k2, k3], w6;
  }

  lemma WaitingReceives(c: Conn, srcIp: uint32, s: Segment, cfg: bool, now: uint64, isn: uint32)
    requires c.Wf() && c.state == TimeWait && !s.flags.rst
    ensures var d := Receive(c, srcIp, s, cfg, now, isn).0;
      d.state == TimeWait && (d.timeWait == c.timeWait || (s.flags.fin && d.timeWait == now))
  {
    hide Add32;
  }

  lemma NoReset(w: World, k: Packet)
    requires Inv(w) && k in w.net
    ensures !k.seg.flags.rst
  {
    hide Off, Add32;
    assert SegmentOk(Peer(k.to), w.Get(Peer(k.to)), w.Get(k.to), k.seg);
  }

  lemma WaitingCalls(c: Conn, data: seq<byte>, size: nat, cfg: bool, now: uint64)
    requires c.Wf() && c.state == TimeWait
    ensures Send(c, data, cfg, now) == (c, []) && Close(c, cfg, now) == (c, []) && Read(c, size) == (c, [])
    ensures Tick(c, cfg, now).0 == if Sub64(now, c.timeWait) >= TIME_WAIT_MS then c.(state := State.Closed) else c
  {
  }

  /** In TIME_WAIT nothing but the timer ends the wait, and only TIME_WAIT_MS after the last FIN; a FIN restarts it. */
  lemma TimeWaitEndsIff(w: World, h: Host, e: Event)
    requires Reachable(w) && Enabled(w, e) && w.Get(h).conn.state == TimeWait
    ensures var c, d := w.Get(h).conn, Next(w, e).Get(h).conn;
      && (d.state != TimeWait <==> e.Timer? && e.h == h && Sub64(e.now, c.timeWait) >= TIME_WAIT_MS)
      && (d.state != TimeWait ==> d.state == Closed)
      && (d.timeWait != c.timeWait ==> e.Deliver? && e.pkt.to == h && e.pkt.seg.flags.fin && d.timeWait == e.now)
  {
    assert w.Wf();
    hide Reachable, Receive, Tick, Send, Close, Read, Inv, Missed;
    ReachableInv(w);
    var c := w.Get(h).conn;
    match e
    case Deliver(k, cfg, now, isn) =>
      NoReset(w, k);
      if k.to == h { WaitingReceives(c, k.srcIp, k.seg, cfg, now, isn); }
    case Timer(_, cfg, now) => WaitingCalls(c, [], 0, cfg, now);
    case AppSend(_, data, cfg, now) => WaitingCalls(c, data, 0, cfg, now);
    case AppRead(_, size) => WaitingCalls(c, [], size, true, 0);
    case AppClose(_, cfg, now) => WaitingCalls(c, [], 0, cfg, now);
  }

  // ------------------------------------------------- closing at the same time

  /** Every FIN of the end left when it was due, and stream and FIN do not go round the sequence numbers. */
  predicate Timely(p: Party) {
    p.missed == 0 && |p.sent| + 2 <= TWO_32
  }

  /** An end gets past FIN_WAIT_1 only if its peer has taken a FIN. */
  ghost predicate PastNeedsFin(p: Party, o: Party) {
    Timely(p) && p.conn.state in {FinWait2, Closing, TimeWait} ==> o.peerFin
  }

  /** While p waits in FIN_WAIT_1 and o has taken a FIN, o has acknowledged p's, and so does each FIN of o in the net. */
  ghost predicate FinKnown(p: Party, o: Party) {
    p.conn.state == FinWait1 && Timely(p) && Timely(o) && o.peerFin ==>
      && o.conn.state in {CloseWait, LastAck, Closed}
      && (o.conn.state != Closed ==> o.conn.rcvNxt == p.conn.sndNxt)
  }

  ghost predicate FinsKnow(w: World) {
    forall k <- w.net :: k.seg.flags.fin && FinsMeet(w.Get(k.to), w.Get(Peer(k.to))) ==>
      k.seg.ackNum == w.Get(k.to).conn.sndNxt
  }

  predicate FinsMeet(p: Party, o: Party) {
    p.conn.state == FinWait1 && Timely(p) && Timely(o) && o.peerFin
  }

  ghost predicate Ordered(w: World) {
    && PastNeedsFin(w.client, w.server) && PastNeedsFin(w.server, w.client)
    && FinKnown(w.client, w.server) && FinKnown(w.server, w.client)
    && FinsKnow(w)
  }

  /** What a step of p to q that sends out has to keep; o is the other end. */
  ghost predicate OrderOk(p: Party, o: Party, q: Party, out: seq<Segment>) {
    && (p.peerFin ==> q.peerFin) && (Timely(q) ==> Timely(p))
    && PastNeedsFin(q, o) && FinKnown(q, o) && FinKnown(o, q)
    && (FinsMeet(q, o) ==> FinsMeet(p, o) && q.conn.sndNxt == p.conn.sndNxt)
    && (forall s <- out :: s.flags.fin && FinsMeet(o, q) ==> s.ackNum == o.conn.sndNxt)
    && (FinsMeet(o, q) && !FinsMeet(o, p) ==> !p.FinSent())
  }

  lemma OrderAdvance(w: World, h: Host, q: Party, out: seq<Segment>)
    requires Inv(w) && Ordered(w) && OrderOk(w.Get(h), w.Get(Peer(h)), q, out)
    ensures Ordered(w.Put(h, q, out))
  {
    hide Off, Add32;
    var v, p, o := w.Put(h, q, out), w.Get(h), w.Get(Peer(h));
    forall k | k in v.net && k.seg.flags.fin && FinsMeet(v.Get(k.to), v.Get(Peer(k.to)))
      ensures k.seg.ackNum == v.Get(k.to).conn.sndNxt
    {
      if k in w.net { assert SegmentOk(Peer(k.to), w.Get(Peer(k.to)), w.Get(k.to), k.seg); }
    }
  }

  /** An acknowledgement that covers the own FIN comes only from a peer that has taken a FIN. */
  lemma OwnFinAcknowledged(h: Host, p: Party, o: Party, s: Segment)
    requires Ends(h, p, o) && SegmentOk(Peer(h), o, p, s) && Numbered(p)
    requires p.conn.state == FinWait1 && Timely(p) && s.flags.ack && s.ackNum == p.conn.sndNxt
    ensures o.peerFin
  {
    if !o.peerFin {
      HonestAck(Peer(h), o, p, s);
      OffOf(p.conn.sndIss, 1 + |p.sent|);
    }
  }

  lemma TimerOrder(h: Host, p: Party, o: Party, cfg: bool, now: uint64)
    requires Ends(h, p, o) && Numbered(p)
    requires PastNeedsFin(p, o) && FinKnown(p, o) && FinKnown(o, p)
    ensures var (c, out) := Tick(p.conn, cfg, now);
      OrderOk(p, o, Moved(p, c).(missed := Missed(p, c, out)), out)
  {
    hide Off, Add32;
    Successors(p.conn.sndIss, 2 + |p.sent|);
    Successors(p.conn.sndIss, 1 + |p.sent|);
  }

  lemma CloseOrder(h: Host, p: Party, o: Party, cfg: bool, now: uint64)
    requires Ends(h, p, o) && Numbered(p)
    requires PastNeedsFin(p, o) && FinKnown(p, o) && FinKnown(o, p)
    ensures var (c, out) := Close(p.conn, cfg, now);
      OrderOk(p, o, Moved(p, c).(missed := Missed(p, c, out)), out)
  {
    hide Off, Add32;
  }

  lemma WriteOrder(h: Host, p: Party, o: Party, data: seq<byte>, cfg: bool, now: uint64)
    requires Ends(h, p, o)
    requires PastNeedsFin(p, o) && FinKnown(p, o) && FinKnown(o, p)
    ensures var (c, out) := Send(p.conn, data, cfg, now);
      OrderOk(p, o, Moved(p, c).(sent := if out == [] then p.sent else p.sent + Clamped(data)), out)
  {
    hide Off, Add32;
  }

  lemma ReadOrder(h: Host, p: Party, o: Party, size: nat)
    requires Ends(h, p, o)
    requires PastNeedsFin(p, o) && FinKnown(p, o) && FinKnown(o, p)
    ensures var (c, bytes) := Read(p.conn, size);
      OrderOk(p, o, Moved(p, c).(read := p.read + bytes), [])
  {
    hide Off, Add32;
  }

  lemma DeliverOrder(h: Host, p: Party, o: Party, srcIp: uint32, s: Segment, cfg: bool, now: uint64, isn: uint32)
    requires Ends(h, p, o) && SegmentOk(Peer(h), o, p, s) && Numbered(p)
    requires PastNeedsFin(p, o) && FinKnown(p, o) && FinKnown(o, p)
    requires s.flags.fin && o.conn.state == FinWait1 && o.missed == 0 ==> Add32(s.seqNum, 1) == o.conn.sndNxt
    ensures var (c, out) := Receive(p.conn, srcIp, s, cfg, now, isn);
      OrderOk(p, o, Moved(p, c), out)
  {
    if p.conn.state == FinWait1 && Timely(p) && s.flags.ack && s.ackNum == p.conn.sndNxt {
      OwnFinAcknowledged(h, p, o, s);
    }
    hide Off, Add32;
  }

  lemma FirstFinNumber(w: World, k: Packet)
    requires Inv(w) && Fins(w) && k in w.net && k.seg.flags.fin
    ensures var o := w.Get(Peer(k.to));
      o.conn.state == FinWait1 && o.missed == 0 ==> Add32(k.seg.seqNum, 1) == o.conn.sndNxt
  {
    hide Off, Add32;
    var o := w.Get(Peer(k.to));
    assert FinOf(o, k.seg);
    Successors(o.conn.sndIss, 1 + |o.sent|);
  }

  lemma Ended(w: World, h: Host)
    requires Inv(w) && Fins(w) && Ordered(w)
    ensures var p, o := w.Get(h), w.Get(Peer(h));
      Ends(h, p, o) && Numbered(p) && PastNeedsFin(p, o) && FinKnown(p, o) && FinKnown(o, p)
  {
    hide Off, Add32, Local, Numbered;
  }

  lemma NextKeepsOrdered(w: World, e: Event)
    requires Inv(w) && Fins(w) && Ordered(w) && Enabled(w, e)
    ensures Ordered(Next(w, e))
  {
    assert w.Wf();
    hide Inv, Fins, Ordered, OrderOk, Tick, Close, Send, Receive, Read, Ends, Numbered, PastNeedsFin, FinKnown;
    match e
    case Deliver(pkt, cfg, now, isn) =>
      var h := pkt.to;
      var p, o := w.Get(h), w.Get(Peer(h));
      Ended(w, h);
      InNet(w, pkt);
      if pkt.seg.flags.fin { FirstFinNumber(w, pkt); }
      DeliverOrder(h, p, o, pkt.srcIp, pkt.seg, cfg, now, isn);
      var (c, out) := Receive(p.conn, pkt.srcIp, pkt.seg, cfg, now, isn);
      OrderAdvance(w, h, Moved(p, c), out);
    case Timer(h, cfg, now) =>
      var p := w.Get(h);
      var (c, out) := Tick(p.conn, cfg, now);
      Ended(w, h);
      TimerOrder(h, p, w.Get(Peer(h)), cfg, now);
      OrderAdvance(w, h, Moved(p, c).(missed := Missed(p, c, out)), out);
    case AppSend(h, data, cfg, now) =>
      var p := w.Get(h);
      var (c, out) := Send(p.conn, data, cfg, now);
      Ended(w, h);
      WriteOrder(h, p, w.Get(Peer(h)), data, cfg, now);
      OrderAdvance(w, h, Moved(p, c).(sent := if out == [] then p.sent else p.sent + Clamped(data)), out);
    case AppRead(h, size) =>
      var p := w.Get(h);
      var (c, bytes) := Read(p.conn, size);
      Ended(w, h);
      ReadOrder(h, p, w.Get(Peer(h)), size);
      OrderAdvance(w, h, Moved(p, c).(read := p.read + bytes), []);
    case AppClose(h, cfg, now) =>
      var p := w.Get(h);
      var (c, out) := Close(p.conn, cfg, now);
      Ended(w, h);
      CloseOrder(h, p, w.Get(Peer(h)), cfg, now);
      OrderAdvance(w, h, Moved(p, c).(missed := Missed(p, c, out)), out);
  }

  lemma InNet(w: World, k: Packet)
    requires Inv(w) && k in w.net
    ensures SegmentOk(Peer(k.to), w.Get(Peer(k.to)), w.Get(k.to), k.seg)
  {
    hide SegmentOk, Ends;
  }

  lemma {:induction false} RunKeepsOrdered(w: World, events: seq<Event>, v: World)
    requires Inv(w) && Fins(w) && Ordered(w) && Reaches(w, events, v)
    ensures Ordered(v)
    decreases |events|
  {
    assert w.Wf();
    hide Inv, Fins, Ordered, Next, Enabled;
    if events != [] {
      NextKeepsInv(w, events[0]);
      NextKeepsFins(w, events[0]);
      NextKeepsOrdered(w, events[0]);
      RunKeepsOrdered(Next(w, events[0]), events[1..], v);
    }
  }

  lemma ReachableOrdered(v: World)
    requires Reachable(v)
    ensures Inv(v) && Fins(v) && Ordered(v)
  {
    var w: World, events :| w.Wf() && Initial(w) && Reaches(w, events, v);
    InitialInv(w);
    assert Fins(w) && Ordered(w);
    hide Inv, Fins, Ordered;
    RunKeepsInv(w, events, v);
    RunKeepsFins(w, events, v);
    RunKeepsOrdered(w, events, v);
  }

  lemma Unmoved(w: World, h: Host, c: Conn, out: seq<Segment>)
    requires Local(w.Get(h)) && c == w.Get(h).conn && out == []
    ensures w.Put(h, Moved(w.Get(h), c), out) == w
  {
    hide Off, Add32;
    assert w.net + (set s <- out :: Packet(Peer(h), w.Get(h).ip, s)) == w.net;
  }

  lemma FinsInOrder(w: World, k: Packet)
    requires Ordered(w) && k in w.net && k.seg.flags.fin && FinsMeet(w.Get(k.to), w.Get(Peer(k.to)))
    ensures k.seg.ackNum == w.Get(k.to).conn.sndNxt
  {
  }

  /**
   A FIN that comes to an end in FIN_WAIT_1 is answered exactly if its sender
   has taken a FIN itself. Otherwise nothing happens: the FIN carries an ACK of
   less than the own FIN, and the case of a FIN without ACK, which leads to
   CLOSING, does not arise.
   */
  lemma FinInFinWait1Iff(w: World, k: Packet, now: uint64, isn: uint32)
    requires Reachable(w) && k in w.net && k.seg.flags.fin
    requires w.Get(k.to).conn.state == FinWait1 && Timely(w.Get(k.to)) && Timely(w.Get(Peer(k.to)))
    ensures var v := Next(w, Deliver(k, true, now, isn));
      && (w.Get(Peer(k.to)).peerFin <==> v.Get(k.to).conn.state == TimeWait)
      && (w.Get(Peer(k.to)).peerFin <==> v != w)
  {
    ReachableNamed(w);
    ReachableOrdered(w);
    var h := k.to;
    var p, o := w.Get(h), w.Get(Peer(h));
    InNet(w, k);
    Ended(w, h);
    if o.peerFin { FinsInOrder(w, k); }
    if k.seg.ackNum == p.conn.sndNxt { OwnFinAcknowledged(h, p, o, k.seg); }
    FindsItsConnection(w, k);
    assert Local(p);
    hide Reachable, Inv, Named, Fins, Ordered, Off, Add32, Ends;
    var (c, out) := Receive(p.conn, k.srcIp, k.seg, true, now, isn);
    if k.seg.ackNum != p.conn.sndNxt { Unmoved(w, h, c, out); }
  }

  lemma NoWayToClosing(c: Conn, srcIp: uint32, s: Segment, cfg: bool, now: uint64, isn: uint32)
    requires c.Wf() && c.state != Closing && (s.flags.fin ==> s.flags.ack)
    ensures Receive(c, srcIp, s, cfg, now, isn).0.state != Closing
  {
    hide Add32;
  }

  lemma NoCallToClosing(c: Conn, data: seq<byte>, size: nat, cfg: bool, now: uint64)
    requires c.Wf() && c.state != Closing
    ensures Send(c, data, cfg, now).0.state != Closing && Read(c, size).0.state != Closing
    ensures Close(c, cfg, now).0.state != Closing && Tick(c, cfg, now).0.state != Closing
  {
    hide Add32;
  }

  lemma NeitherIsClosing(w: World, e: Event)
    requires Inv(w) && Enabled(w, e) && w.client.conn.state != Closing && w.server.conn.state != Closing
    ensures Next(w, e).client.conn.state != Closing && Next(w, e).server.conn.state != Closing
  {
    assert w.Wf();
    hide Inv, Receive, Tick, Send, Close, Read, Missed;
    match e
    case Deliver(k, cfg, now, isn) =>
      InNet(w, k);
      NoWayToClosing(w.Get(k.to).conn, k.srcIp, k.seg, cfg, now, isn);
    case Timer(h, cfg, now) => NoCallToClosing(w.Get(h).conn, [], 0, cfg, now);
    case AppSend(h, data, cfg, now) => NoCallToClosing(w.Get(h).conn, data, 0, cfg, now);
    case AppRead(h, size) => NoCallToClosing(w.Get(h).conn, [], size, true, 0);
    case AppClose(h, cfg, now) => NoCallToClosing(w.Get(h).conn, [], 0, cfg, now);
  }

  lemma {:induction false} RunWithoutClosing(w: World, events: seq<Event>, v: World)
    requires Inv(w) && Reaches(w, events, v)
    requires w.client.conn.state != Closing && w.server.conn.state != Closing
    ensures v.client.conn.state != Closing && v.server.conn.state != Closing
    decreases |events|
  {
    assert w.Wf();
    hide Inv, Next, Enabled;
    if events != [] {
      NextKeepsInv(w, events[0]);
      NeitherIsClosing(w, events[0]);
      RunWithoutClosing(Next(w, events[0]), events[1..], v);
    }
  }

  /** No end is ever in CLOSING: every FIN carries an ACK, and the state machine asks for one without. */
  lemma ClosingIsNeverEntered(v: World)
    requires Reachable(v)
    ensures v.client.conn.state != Closing && v.server.conn.state != Closing
  {
    var w: World, events :| w.Wf() && Initial(w) && Reaches(w, events, v);
    InitialInv(w);
    hide Inv;
    RunWithoutClosing(w, events, v);
  }

  /** The timers run on a configured interface. */
  predicate Configured(e: Event) {
    e.Timer? ==> e.cfg
  }

  /** The times of the timer calls of h. */
  function TimerTimes(events: seq<Event>, h: Host): seq<uint64> {
    if events == [] then [] else TimerTime(events[0], h) + TimerTimes(events[1..], h)
  }

  function TimerTime(e: Event, h: Host): seq<uint64> {
    if e.Timer? && e.h == h then [e.now] else []
  }

  /** An end that has closed and not heard of the other's FIN. */
  predicate Unanswered(p: Party) {
    p.conn.state in {FinWait1, Closed} && !p.peerFin && Timely(p)
  }

  /** p has become q, and only the timer has seen to it; the bytes the end has stored stay, read or unread. */
  ghost predicate OnlyTimer(p: Party, q: Party, times: seq<uint64>)
    requires p.conn.Wf()
  {
    && Unanswered(q) && q.Stored() == p.Stored() && q.sent == p.sent
    && q.conn == Ticks(p.conn, true, times).(rx := q.conn.rx)
  }

  lemma {:induction false} TicksIgnoreRing(c: Conn, rx: seq<byte>, times: seq<uint64>)
    requires c.Wf() && |rx| <= RECV_BUF_SIZE
    ensures Ticks(c.(rx := rx), true, times) == Ticks(c, true, times).(rx := rx)
    decreases |times|
  {
    hide Add32, Sub64;
    if times != [] { TicksIgnoreRing(Tick(c, true, times[0]).0, rx, times[1..]); }
  }

  lemma UnansweredReceives(h: Host, p: Party, o: Party, srcIp: uint32, s: Segment, cfg: bool, now: uint64, isn: uint32)
    requires Ends(h, p, o) && SegmentOk(Peer(h), o, p, s) && Numbered(p)
    requires Unanswered(p) && !o.peerFin
    ensures Receive(p.conn, srcIp, s, cfg, now, isn) == (p.conn, [])
  {
    if p.conn.state == FinWait1 && s.flags.ack && s.ackNum == p.conn.sndNxt { OwnFinAcknowledged(h, p, o, s); }
  }

  lemma UnansweredCalls(p: Party, data: seq<byte>, size: nat, cfg: bool, now: uint64)
    requires Local(p) && Unanswered(p)
    ensures Send(p.conn, data, cfg, now) == (p.conn, []) && Close(p.conn, cfg, now) == (p.conn, [])
    ensures var (c, bytes) := Read(p.conn, size);
      c == p.conn.(rx := c.rx) && Moved(p, c).(read := p.read + bytes).Stored() == p.Stored()
  {
    hide Off, Add32;
    var (c, bytes) := Read(p.conn, size);
    Reassociate(p.read, bytes, c.rx, p.conn.rx);
  }

  lemma UnansweredTimer(p: Party, now: uint64)
    requires Local(p) && Unanswered(p)
    ensures var (c, out) := Tick(p.conn, true, now);
      && Unanswered(Moved(p, c).(missed := Missed(p, c, out)))
      && c.rx == p.conn.rx && |out| <= 1 && (out != [] ==> out[0].flags == FIN_ACK)
  {
    hide Off, Add32;
  }

  /** The end an event concerns. */
  function At(e: Event): Host {
    match e
    case Deliver(k, _, _, _) => k.to
    case Timer(h, _, _) => h
    case AppSend(h, _, _, _) => h
    case AppRead(h, _) => h
    case AppClose(h, _, _) => h
  }

  lemma OtherEndStands(w: World, e: Event, h: Host)
    requires w.Wf() && At(e) != h
    ensures Next(w, e).Get(h) == w.Get(h) && TimerTime(e, h) == []
  {
    hide Receive, Tick, Send, Close, Read, Moved, Missed;
  }

  lemma SameEnd(p: Party, q: Party)
    requires Local(p) && Unanswered(p) && q.conn == p.conn.(rx := q.conn.rx) && q.Stored() == p.Stored()
    requires q == p.(conn := q.conn, read := q.read)
    ensures OnlyTimer(p, q, [])
  {
    hide Off, Add32;
  }

  lemma AfterTimer(p: Party, q: Party, now: uint64)
    requires Local(p) && Unanswered(q) && q == Moved(p, q.conn).(missed := q.missed)
    requires q.conn == Tick(p.conn, true, now).0 && q.conn.rx == p.conn.rx
    ensures OnlyTimer(p, q, [now])
  {
    hide Off, Add32, Tick;
    assert Ticks(q.conn, true, [now][1..]) == q.conn;
  }

  /** A segment arrives at such an end. */
  lemma OwnDelivery(w: World, k: Packet, cfg: bool, now: uint64, isn: uint32)
    requires Inv(w) && Fins(w) && k in w.net && Unanswered(w.client) && Unanswered(w.server)
    ensures w.Wf() && OnlyTimer(w.Get(k.to), Next(w, Deliver(k, cfg, now, isn)).Get(k.to), [])
  {
    assert w.Wf();
    var h := k.to;
    var p := w.Get(h);
    EndsOf(w, h);
    InNet(w, k);
    hide Inv, Fins, Receive, Ends, Numbered, Local, OnlyTimer, SegmentOk;
    UnansweredReceives(h, p, w.Get(Peer(h)), k.srcIp, k.seg, cfg, now, isn);
    StandsStill(p);
    SameEnd(p, p);
  }

  lemma StandsStill(p: Party)
    requires Local(p)
    ensures Moved(p, p.conn) == p && Missed(p, p.conn, []) == p.missed
  {
    hide Off, Add32;
  }

  /** Its timer is called. */
  lemma OwnTimer(w: World, h: Host, now: uint64)
    requires Inv(w) && Fins(w) && Unanswered(w.Get(h))
    ensures w.Wf() && OnlyTimer(w.Get(h), Next(w, Timer(h, true, now)).Get(h), [now])
  {
    assert w.Wf();
    var p := w.Get(h);
    EndsOf(w, h);
    hide Inv, Fins, Tick, Ends, Numbered, Local, OnlyTimer;
    UnansweredTimer(p, now);
    AfterTimer(p, Next(w, Timer(h, true, now)).Get(h), now);
  }

  /** It is called by its application. */
  lemma OwnCall(w: World, e: Event)
    requires Inv(w) && Fins(w) && !e.Deliver? && !e.Timer? && Unanswered(w.Get(At(e)))
    ensures w.Wf() && OnlyTimer(w.Get(At(e)), Next(w, e).Get(At(e)), [])
  {
    assert w.Wf();
    var p := w.Get(At(e));
    EndsOf(w, At(e));
    StandsStill(p);
    hide Inv, Fins, Send, Close, Read, Ends, Numbered, OnlyTimer, Missed, Off, Add32;
    match e
    case AppSend(_, data, cfg, now) => UnansweredCalls(p, data, 0, cfg, now);
    case AppRead(_, size) => UnansweredCalls(p, [], size, true, 0);
    case AppClose(_, cfg, now) => UnansweredCalls(p, [], 0, cfg, now);
    SameEnd(p, Next(w, e).Get(At(e)));
  }

  lemma UnansweredStep(w: World, e: Event, h: Host)
    requires Inv(w) && Fins(w) && Enabled(w, e) && Configured(e)
    requires Unanswered(w.client) && Unanswered(w.server)
    ensures OnlyTimer(w.Get(h), Next(w, e).Get(h), TimerTime(e, h))
  {
    EndsOf(w, h);
    hide Inv, Fins, Next, Local, OnlyTimer, Unanswered;
    if At(e) != h {
      OtherEndStands(w, e, h);
      SameEnd(w.Get(h), w.Get(h));
    } else if e.Deliver? {
      OwnDelivery(w, e.pkt, e.cfg, e.now, e.isn);
    } else if e.Timer? {
      OwnTimer(w, h, e.now);
    } else {
      OwnCall(w, e);
    }
  }

  lemma EndsOf(w: World, h: Host)
    requires Inv(w) && Fins(w)
    ensures Ends(h, w.Get(h), w.Get(Peer(h))) && Local(w.Get(h)) && Numbered(w.Get(h))
  {
    hide Off, Add32, Numbered;
  }

  lemma {:induction false} TicksInARow(c: Conn, first: seq<uint64>, second: seq<uint64>)
    requires c.Wf()
    ensures Ticks(c, true, first + second) == Ticks(Ticks(c, true, first), true, second)
    decreases |first|
  {
    hide Tick;
    if first == [] {
      assert first + second == second;
    } else {
      TicksInARow(Tick(c, true, first[0]).0, first[1..], second);
      assert (first + second)[1..] == first[1..] + second;
    }
  }

  lemma OnlyTimerInARow(p: Party, q: Party, r: Party, first: seq<uint64>, second: seq<uint64>)
    requires p.conn.Wf() && q.conn.Wf() && OnlyTimer(p, q, first) && OnlyTimer(q, r, second)
    ensures OnlyTimer(p, r, first + second)
  {
    hide Add32, Tick;
    TicksInARow(p.conn, first, second);
    TicksIgnoreRing(Ticks(p.conn, true, first), q.conn.rx, second);
  }

  lemma {:induction false} UnansweredRun(w: World, events: seq<Event>, v: World, h: Host)
    requires Inv(w) && Fins(w) && Unanswered(w.client) && Unanswered(w.server)
    requires Reaches(w, events, v) && forall e <- events :: Configured(e)
    ensures v.Wf() && OnlyTimer(w.Get(h), v.Get(h), TimerTimes(events, h))
    decreases |events|
  {
    assert w.Wf();
    EndsOf(w, h);
    hide Inv, Fins, Next, Enabled, OnlyTimer, Local, Unanswered, Configured, TimerTime;
    if events == [] {
      SameEnd(w.Get(h), w.Get(h));
    } else {
      var e, u := events[0], Next(w, events[0]);
      NextKeepsInv(w, e);
      NextKeepsFins(w, e);
      StillUnanswered(w, e);
      UnansweredStep(w, e, h);
      UnansweredRun(u, events[1..], v, h);
      OnlyTimerInARow(w.Get(h), u.Get(h), v.Get(h), TimerTime(e, h), TimerTimes(events[1..], h));
    }
  }

  lemma StillUnanswered(w: World, e: Event)
    requires Inv(w) && Fins(w) && Enabled(w, e) && Configured(e)
    requires Unanswered(w.client) && Unanswered(w.server)
    ensures w.Wf() && Unanswered(Next(w, e).client) && Unanswered(Next(w, e).server)
  {
    UnansweredStep(w, e, Client);
    UnansweredStep(w, e, Server);
  }

  /**
   Closing at the same time. When both ends of any reachable world close in
   ESTABLISHED, before either has the other's FIN, no FIN is ever answered,
   whatever arrives in whatever order: over every run each end stays in
   FIN_WAIT_1 until its own retransmission timer has expired six times, and is
   CLOSED from then on. All that time the bytes it has stored stay, and it
   never takes the other's FIN.
   */
  lemma SimultaneousClose(w0: World, t: uint64, events: seq<Event>, v: World, h: Host)
    requires Reachable(w0) && w0.client.conn.state == Established && w0.server.conn.state == Established
    requires |w0.client.sent| + 2 <= TWO_32 && |w0.server.sent| + 2 <= TWO_32
    requires Reaches(Next(Next(w0, AppClose(Client, true, t)), AppClose(Server, true, t)), events, v)
    requires forall e <- events :: Configured(e)
    ensures var p, q := w0.Get(h), v.Get(h);
      && !q.peerFin && q.Stored() == p.Stored() && q.sent == p.sent && q.conn.rcvNxt == p.conn.rcvNxt
      && q.conn.state == if Expiries(t, TimerTimes(events, h)) > MAX_RETRIES then Closed else FinWait1
  {
    hide Inv, Fins;
    ReachableFins(w0);
    BothClose(w0, t);
    var w1 := Next(w0, AppClose(Client, true, t));
    var w := Next(w1, AppClose(Server, true, t));
    hide Reachable, Next;
    UnansweredRun(w, events, v, h);
    var c := w.Get(h).conn;
    SilentConnectionCloses(c, TimerTimes(events, h));
    TicksStates(c, TimerTimes(events, h));
  }

  lemma {:induction false} TicksStates(c: Conn, times: seq<uint64>)
    requires c.Wf() && c.state in {FinWait1, Closed}
    ensures Ticks(c, true, times).state in {FinWait1, Closed} && Ticks(c, true, times).rcvNxt == c.rcvNxt
    decreases |times|
  {
    if times != [] { TicksStates(Tick(c, true, times[0]).0, times[1..]); }
  }

  lemma BothClose(w0: World, t: uint64)
    requires Inv(w0) && Fins(w0) && w0.client.conn.state == Established && w0.server.conn.state == Established
    requires |w0.client.sent| + 2 <= TWO_32 && |w0.server.sent| + 2 <= TWO_32
    ensures w0.Wf()
    ensures var w := Next(Next(w0, AppClose(Client, true, t)), AppClose(Server, true, t));
      && Inv(w) && Fins(w) && Unanswered(w.client) && Unanswered(w.server)
      && forall h: Host ::
           var p, q := w0.Get(h), w.Get(h);
           && q.conn.state == FinWait1 && q.conn.retries == 0 && q.conn.lastSend == t
           && q.Stored() == p.Stored() && q.sent == p.sent && q.conn.rcvNxt == p.conn.rcvNxt
  {
    assert w0.Wf();
    assert Local(w0.client) && Local(w0.server) && Numbered(w0.client) && Numbered(w0.server);
    hide Inv, Fins, Add32, Off;
    var w1 := Next(w0, AppClose(Client, true, t));
    NextKeepsInv(w0, AppClose(Client, true, t));
    NextKeepsFins(w0, AppClose(Client, true, t));
    NextKeepsInv(w1, AppClose(Server, true, t));
    NextKeepsFins(w1, AppClose(Server, true, t));
  }
}
