/**
 What the acknowledgement of a FIN covers, in runs of a client and a server.
 A FIN is taken without asking whether it is in order, and one whose sending
 failed is sent again with too low a number.
 */
module TcpFins {
  import opened Words
  import opened Tcp
  import opened TcpPair

  // -------------------------------------------------- where FINs are numbered

  /** The sequence number of a FIN sent after m earlier tries of the same side never left. */
  function FinNumber(p: Party, m: int): uint32 { Add32(p.conn.sndIss, 1 + |p.sent| - m) }

  /** snd_nxt counts what was written, and the FIN once it was due; each try that never left takes one off. */
  ghost predicate Numbered(p: Party) {
    && p.conn.retries <= MAX_RETRIES
    && (p.conn.state in {Listen, SynSent, SynReceived, Established, CloseWait} ==> p.missed == 0)
    && (p.joined && p.conn.state in {Established, CloseWait} ==> p.conn.sndNxt == FinNumber(p, 0))
    && (p.conn.state in {FinWait1, FinWait2, Closing, LastAck, TimeWait} ==>
          p.conn.sndNxt == FinNumber(p, p.missed - 1) && p.missed <= 1 + p.conn.retries)
    && p.missed <= 1 + MAX_RETRIES
  }

  predicate FinOf(p: Party, s: Segment) {
    exists m :: 0 <= m <= p.missed && s.seqNum == FinNumber(p, m)
  }

  ghost predicate Fins(w: World) {
    && Numbered(w.client) && Numbered(w.server)
    && forall k <- w.net :: k.seg.flags.fin ==> FinOf(w.Get(Peer(k.to)), k.seg)
  }

  /** p has become q and sent out: its new FINs are numbered right, and the old ones stay so. */
  ghost predicate FinsOk(p: Party, q: Party, out: seq<Segment>) {
    && Numbered(q)
    && (p.FinSent() ==> q.sent == p.sent && q.conn.sndIss == p.conn.sndIss && p.missed <= q.missed)
    && forall s <- out :: s.flags.fin ==> FinOf(q, s)
  }

  lemma FinsAdvance(w: World, h: Host, q: Party, out: seq<Segment>)
    requires Inv(w) && Fins(w) && FinsOk(w.Get(h), q, out)
    ensures Fins(w.Put(h, q, out))
  {
    hide Off, Add32;
    var v, p := w.Put(h, q, out), w.Get(h);
    forall k | k in v.net && k.seg.flags.fin ensures FinOf(v.Get(Peer(k.to)), k.seg) {
      if k in w.net {
        assert SegmentOk(Peer(k.to), w.Get(Peer(k.to)), w.Get(k.to), k.seg);
        assert FinOf(w.Get(Peer(k.to)), k.seg);
        if k.to != h {
          var m :| 0 <= m <= p.missed && k.seg.seqNum == FinNumber(p, m);
          assert FinNumber(q, m) == FinNumber(p, m);
        }
      }
    }
  }

  /** A FIN that leaves now has the number the failed tries before it leave it. */
  lemma FinLeaves(q: Party, s: Segment, m: nat)
    requires m <= q.missed && s.seqNum == FinNumber(q, m)
    ensures FinOf(q, s)
  {
  }

  lemma Successors(a: uint32, n: int)
    ensures Add32(Add32(a, n), 1) == Add32(a, n + 1)
    ensures Add32(Add32(a, n), -1) == Add32(a, n - 1)
    ensures Add32(a, 0) == a
  {
  }

  lemma TimerFins(p: Party, cfg: bool, now: uint64)
    requires Local(p) && Numbered(p)
    ensures var (c, out) := Tick(p.conn, cfg, now);
      FinsOk(p, Moved(p, c).(missed := Missed(p, c, out)), out)
  {
    hide Off, Add32;
    var (c, out) := Tick(p.conn, cfg, now);
    var q := Moved(p, c).(missed := Missed(p, c, out));
    Successors(p.conn.sndIss, 2 + |p.sent| - p.missed);
    Successors(p.conn.sndIss, 1 + |p.sent| - p.missed);
    Successors(c.sndNxt, 0);
    if out != [] && out[0].flags.fin {
      assert Add32(p.conn.sndNxt, -1) == FinNumber(p, p.missed);
      FinLeaves(q, out[0], p.missed);
    }
  }

  lemma CloseFins(p: Party, cfg: bool, now: uint64)
    requires Local(p) && Numbered(p)
    ensures var (c, out) := Close(p.conn, cfg, now);
      FinsOk(p, Moved(p, c).(missed := Missed(p, c, out)), out)
  {
    hide Off, Add32;
    var (c, out) := Close(p.conn, cfg, now);
    var q := Moved(p, c).(missed := Missed(p, c, out));
    Successors(p.conn.sndIss, 1 + |p.sent|);
    Successors(p.conn.sndIss, |p.sent|);
    if out != [] { FinLeaves(q, out[0], 0); }
  }

  lemma SendFins(p: Party, data: seq<byte>, cfg: bool, now: uint64)
    requires Local(p) && Numbered(p)
    ensures var (c, out) := Send(p.conn, data, cfg, now);
      FinsOk(p, Moved(p, c).(sent := if out == [] then p.sent else p.sent + Clamped(data)), out)
  {
    Add32Twice(p.conn.sndIss, 1 + |p.sent|, |Clamped(data)|);
    hide Off, Add32;
  }

  lemma DeliverFins(p: Party, srcIp: uint32, s: Segment, cfg: bool, now: uint64, isn: uint32)
    requires Local(p) && Numbered(p) && !s.flags.rst && (p.conn.state in {Listen, SynSent} ==> !p.joined)
    requires Local(Moved(p, Receive(p.conn, srcIp, s, cfg, now, isn).0))
    ensures var (c, out) := Receive(p.conn, srcIp, s, cfg, now, isn);
      FinsOk(p, Moved(p, c), out)
  {
    hide Off, Add32;
    Successors(p.conn.sndNxt, 0);
  }

  lemma NextKeepsFins(w: World, e: Event)
    requires Inv(w) && Fins(w) && Enabled(w, e)
    ensures Fins(Next(w, e))
  {
    assert w.Wf();
    hide Off, Add32, Numbered, FinOf, Tick, Close, Send, Receive, Ends;
    match e
    case Deliver(pkt, cfg, now, isn) =>
      var p := w.Get(pkt.to);
      var (c, out) := Receive(p.conn, pkt.srcIp, pkt.seg, cfg, now, isn);
      assert SegmentOk(Peer(pkt.to), w.Get(Peer(pkt.to)), p, pkt.seg);
      DeliverOk(w, pkt, cfg, now, isn);
      LocalOf(w, pkt.to);
      DeliverFins(p, pkt.srcIp, pkt.seg, cfg, now, isn);
      FinsAdvance(w, pkt.to, Moved(p, c), out);
    case Timer(h, cfg, now) =>
      var p := w.Get(h);
      var (c, out) := Tick(p.conn, cfg, now);
      LocalOf(w, h);
      TimerFins(p, cfg, now);
      FinsAdvance(w, h, Moved(p, c).(missed := Missed(p, c, out)), out);
    case AppSend(h, data, cfg, now) =>
      var p := w.Get(h);
      var (c, out) := Send(p.conn, data, cfg, now);
      LocalOf(w, h);
      SendFins(p, data, cfg, now);
      FinsAdvance(w, h, Moved(p, c).(sent := if out == [] then p.sent else p.sent + Clamped(data)), out);
    case AppRead(h, size) =>
      ReadFins(w, h, size);
    case AppClose(h, cfg, now) =>
      var p := w.Get(h);
      var (c, out) := Close(p.conn, cfg, now);
      LocalOf(w, h);
      CloseFins(p, cfg, now);
      FinsAdvance(w, h, Moved(p, c).(missed := Missed(p, c, out)), out);
  }

  lemma LocalOf(w: World, h: Host)
    requires Inv(w)
    ensures Local(w.Get(h)) && (w.Get(h).conn.state in {Listen, SynSent} ==> !w.Get(h).joined)
  {
  }

  lemma ReadFins(w: World, h: Host, size: nat)
    requires Inv(w) && Fins(w)
    ensures Fins(Next(w, AppRead(h, size)))
  {
    hide Off, Add32;
    var p := w.Get(h);
    var (c, bytes) := Read(p.conn, size);
    FinsAdvance(w, h, Moved(p, c).(read := p.read + bytes), []);
  }

  lemma {:induction false} RunKeepsFins(w: World, events: seq<Event>, v: World)
    requires Inv(w) && Fins(w) && Reaches(w, events, v)
    ensures Fins(v)
    decreases |events|
  {
    assert w.Wf();
    hide Inv, Fins, Next, Enabled;
    if events != [] {
      NextKeepsInv(w, events[0]);
      NextKeepsFins(w, events[0]);
      RunKeepsFins(Next(w, events[0]), events[1..], v);
    }
  }

  lemma ReachableFins(v: World)
    requires Reachable(v)
    ensures Inv(v) && Fins(v)
  {
    var w: World, events :| w.Wf() && Initial(w) && Reaches(w, events, v);
    InitialInv(w);
    assert Fins(w);
    hide Inv, Fins;
    RunKeepsInv(w, events, v);
    RunKeepsFins(w, events, v);
  }

  // ----------------------------------------------------------- main results

  /**
   How many of the n stream bytes after iss the number x acknowledges. The
   stream and its FIN take the n + 1 places after iss; a number beyond them
   lies, modulo 2^32, before the stream and acknowledges nothing.
   */
  function Acknowledged(x: uint32, iss: uint32, n: nat): nat {
    if Off(x, iss) > n + 1 then 0 else Min(Off(x, iss), n)
  }

  lemma PartyBounds(v: World, h: Host)
    requires Inv(v) && Fins(v)
    ensures |v.Get(h).sent| < TWO_32 && v.Get(h).missed <= 1 + MAX_RETRIES
  {
  }

  lemma FinIsNumbered(v: World, k: Packet)
    requires Fins(v) && k in v.net && k.seg.flags.fin
    ensures FinOf(v.Get(Peer(k.to)), k.seg)
  {
    hide FinOf, Numbered;
  }

  lemma PlaceOf(iss: uint32, n: nat, m: nat)
    requires n < TWO_32 && m <= 1 + MAX_RETRIES
    ensures Off(Add32(iss, 1 + n - m), iss) == if m <= n then n - m else 0x1_0000_0000 + n - m
  {
  }

  /** Every FIN in flight stands at the end of its stream, less one place for each earlier try that never left. */
  lemma FinPlace(v: World, k: Packet) returns (m: nat)
    requires Reachable(v) && k in v.net && k.seg.flags.fin
    ensures var p := v.Get(Peer(k.to));
      && m <= p.missed <= 1 + MAX_RETRIES
      && Off(k.seg.seqNum, p.conn.sndIss) == if m <= |p.sent| then |p.sent| - m else 0x1_0000_0000 + |p.sent| - m
  {
    hide Off, Add32, Fins, Inv, Reachable;
    ReachableFins(v);
    var p := v.Get(Peer(k.to));
    FinIsNumbered(v, k);
    m :| 0 <= m <= p.missed && k.seg.seqNum == FinNumber(p, m);
    PartyBounds(v, Peer(k.to));
    PlaceOf(p.conn.sndIss, |p.sent|, m);
  }

  /**
   A FIN taken in ESTABLISHED makes rcv_nxt acknowledge stored bytes only
   exactly if everything is stored, or the byte whose place the FIN has (a FIN
   from the past, or one numbered too low), or the FIN's place is outside the
   stream. In particular an early FIN acknowledges lost bytes, and so does one
   in order that stands before the end of the stream.
   */
  lemma FinAcknowledgesStoredBytesIff(v: World, k: Packet, cfg: bool, now: uint64, isn: uint32)
    requires Reachable(v) && k in v.net && k.seg.flags.fin
    requires v.Get(k.to).conn.state == Established && Matches(v.Get(k.to).conn, k.srcIp, k.seg)
    ensures var e, p := v.Get(k.to), v.Get(Peer(k.to));
      var c := Receive(e.conn, k.srcIp, k.seg, cfg, now, isn).0;
      var place := Off(k.seg.seqNum, p.conn.sndIss);
      && c.rx == e.conn.rx
      && (Acknowledged(c.rcvNxt, p.conn.sndIss, |p.sent|) <= |e.Stored()| <==>
            |e.Stored()| == |p.sent| || place < |e.Stored()| || place >= Min(|p.sent| + 1, 0xFFFF_FFFF))
  {
    ReachableInv(v);
    assert SegmentOk(Peer(k.to), v.Get(Peer(k.to)), v.Get(k.to), k.seg);
    var e, p := v.Get(k.to), v.Get(Peer(k.to));
    assert e.Stored() <= p.sent && |p.sent| < TWO_32;
    hide Off, Add32, Reachable, Inv;
    FinMovesRcvNxt(e.conn, k.srcIp, k.seg, cfg, now, isn);
    hide Receive;
    AfterFin(k.seg.seqNum, p.conn.sndIss, |p.sent|, |e.Stored()|);
  }

  lemma FinMovesRcvNxt(c: Conn, srcIp: uint32, s: Segment, cfg: bool, now: uint64, isn: uint32)
    requires c.Wf() && c.state == Established && Matches(c, srcIp, s)
    requires s.flags.fin && !s.flags.rst && s.payload == []
    ensures var d := Receive(c, srcIp, s, cfg, now, isn).0;
      d.rcvNxt == Add32(s.seqNum, 1) && d.rx == c.rx
  {
    hide Add32;
  }

  lemma AfterFin(x: uint32, iss: uint32, n: nat, stored: nat)
    requires stored <= n < TWO_32
    ensures var place := Off(x, iss);
      Acknowledged(Add32(x, 1), iss, n) <= stored <==>
        stored == n || place < stored || place >= Min(n + 1, 0xFFFF_FFFF)
  {
    assert Off(Add32(x, 1), iss) == if Off(x, iss) == 0xFFFF_FFFF then 0 else Off(x, iss) + 1;
  }

  /**
   If every FIN of the writer left when it was due, the FIN is in order exactly
   when the whole stream is stored; and then, and only then, taking it
   acknowledges stored bytes only.
   */
  lemma FinInOrderIffAllStored(v: World, k: Packet, cfg: bool, now: uint64, isn: uint32)
    requires Reachable(v) && k in v.net && k.seg.flags.fin && v.Get(Peer(k.to)).missed == 0
    requires v.Get(k.to).conn.state == Established && Matches(v.Get(k.to).conn, k.srcIp, k.seg)
    ensures var e, p := v.Get(k.to), v.Get(Peer(k.to));
      var c := Receive(e.conn, k.srcIp, k.seg, cfg, now, isn).0;
      && (k.seg.seqNum == e.conn.rcvNxt <==> e.read + e.conn.rx == p.sent)
      && (|p.sent| < 0xFFFF_FFFF ==>
            (Acknowledged(c.rcvNxt, p.conn.sndIss, |p.sent|) <= |e.Stored()| <==> k.seg.seqNum == e.conn.rcvNxt))
  {
    var m := FinPlace(v, k);
    FinAcknowledgesStoredBytesIff(v, k, cfg, now, isn);
    ReachableInv(v);
    var e, p := v.Get(k.to), v.Get(Peer(k.to));
    JoinedEnds(v, k.to);
    hide Off, Add32, Reachable, Inv, Receive, Acknowledged, Matches;
    SamePlace(k.seg.seqNum, p.conn.sndIss, |e.Stored()|);
    if |e.Stored()| == |p.sent| { assert e.Stored() == p.sent; }
  }

  lemma JoinedEnds(v: World, h: Host)
    requires Inv(v) && v.Get(h).conn.state == Established
    ensures var e, p := v.Get(h), v.Get(Peer(h));
      e.Stored() <= p.sent && |p.sent| < TWO_32 && e.conn.rcvNxt == Add32(p.conn.sndIss, 1 + |e.Stored()|)
  {
    hide Off, Add32;
  }

  lemma SamePlace(x: uint32, iss: uint32, n: nat)
    requires n < TWO_32
    ensures x == Add32(iss, 1 + n) <==> Off(x, iss) == n
  {
  }

  // ---------------------------------------------- an in-order FIN that is not

  lemma ExampleFailedClose() returns (v: World)
    ensures Reachable(v)
    ensures v.client == Party(ExampleClient(FinWait1, 102), 1, [7], [], true, false, 1)
    ensures v.server == Party(ExampleServer(Established, 501, 101), 2, [], [], true, false, 0)
  {
    var w := ExampleWrite();
    var q := Party(ExampleClient(FinWait1, 102), 1, [7], [], true, false, 1);
    assert Close(w.client.conn, false, 0) == (q.conn, []);
    hide Close;
    v := Step(w, AppClose(Client, false, 0), Client, q, []);
  }

  lemma ExampleLowFin() returns (v: World, k: Packet)
    ensures Reachable(v) && k in v.net
    ensures v.client == Party(ExampleClient(FinWait1, 102).(retries := 1, lastSend := 5000), 1, [7], [], true, false, 1)
    ensures v.server == Party(ExampleServer(Established, 501, 101), 2, [], [], true, false, 0)
    ensures k == Packet(Server, 1, Segment(1000, 80, 101, 501, FIN_ACK, 4096, []))
  {
    var w := ExampleFailedClose();
    k := Packet(Server, 1, Segment(1000, 80, 101, 501, FIN_ACK, 4096, []));
    var q := Party(ExampleClient(FinWait1, 102).(retries := 1, lastSend := 5000), 1, [7], [], true, false, 1);
    assert Tick(w.client.conn, true, 5000) == (q.conn, [k.seg]);
    hide Tick;
    v := Step(w, Timer(Client, true, 5000), Client, q, [k.seg]);
  }

  /**
   A client writes one byte, which is lost, and closes while its interface is
   not configured; the timer then sends the FIN with the number of the lost
   byte. It arrives in order, and the server acknowledges the byte without
   having stored it.
   */
  lemma InOrderFinAcknowledgesLostByte() returns (v: World, k: Packet, u: World)
    ensures Reachable(v) && k in v.net && k.seg.flags.fin && k.seg.seqNum == v.server.conn.rcvNxt
    ensures u == Next(v, Deliver(k, true, 0, 0)) && Reachable(u)
    ensures u.server.Stored() == [] && |u.client.sent| == 1
    ensures u.server.conn.rcvNxt == Add32(u.client.conn.sndIss, 1 + |u.client.sent|)
  {
    v, k := ExampleLowFin();
    hide Receive, Next, Reachable;
    u := LowFinTaken(v, k);
  }

  lemma LowFinTaken(v: World, k: Packet) returns (u: World)
    requires Reachable(v) && k in v.net
    requires v.server == Party(ExampleServer(Established, 501, 101), 2, [], [], true, false, 0)
    requires k == Packet(Server, 1, Segment(1000, 80, 101, 501, FIN_ACK, 4096, []))
    ensures u == Next(v, Deliver(k, true, 0, 0)) && Reachable(u)
    ensures u.server == Party(ExampleServer(CloseWait, 501, 102), 2, [], [], true, true, 0) && u.client == v.client
  {
    var q := Party(ExampleServer(CloseWait, 501, 102), 2, [], [], true, true, 0);
    var ack := Segment(80, 1000, 501, 102, ACK, 4096, []);
    assert [] + [ack] == [ack];
    assert Receive(v.server.conn, 1, k.seg, true, 0, 0) == (q.conn, [ack]);
    hide Receive;
    u := Step(v, Deliver(k, true, 0, 0), Server, q, [ack]);
  }
}
