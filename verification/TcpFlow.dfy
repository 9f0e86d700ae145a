/**
 What a connection does for its two applications, seen from outside the state
 machine: it opens, it carries written bytes to the reader, and a reset or an
 early close ends it.
 */
module TcpFlow {
  import opened Words
  import opened Tcp
  import opened TcpPair
  import opened TcpFins
  import opened TcpCloses

  // ---------------------------------------------------------------- opening

  /** The SYN is the only segment there is. */
  lemma InitialSyn(w: World) returns (k: Packet)
    requires w.Wf() && Initial(w)
    ensures Reachable(w) && w.net == {k} && k.to == Server && k.seg.flags == SYN && k.srcIp == w.client.ip
    ensures k.seg.payload == [] && FromTo(w.client, k.seg) && k.seg.seqNum == w.client.conn.sndIss
    ensures w.client.conn.state == SynSent && w.server.conn.state == Listen
    ensures w.client.conn.sndNxt == Add32(w.client.conn.sndIss, 1)
  {
    assert Reaches(w, [], w);
    var dstIp: uint32, dstPort: uint16, srcPort: uint16, isn: uint32, now: uint64 :|
      HasCalled(w, dstIp, dstPort, srcPort, isn, now);
    var out := Connect(dstIp, dstPort, srcPort, isn, now).1;
    k := Packet(Server, w.client.ip, out[0]);
    assert out == [out[0]];
  }

  lemma SynArrives(w: World, k: Packet, now: uint64, isn: uint32) returns (a: Packet)
    requires w.Wf() && w.server.conn.state == Listen && k.to == Server && k.seg.flags == SYN && k.srcIp == w.client.ip
    requires k.seg.dstPort == w.server.conn.localPort
    ensures var v := Next(w, Deliver(k, true, now, isn));
      && SendsOnly(w, v, a) && a.to == Client && v.server.conn.state == SynReceived && v.server.ip == w.server.ip
      && a.seg.flags == SYN_ACK && a.seg.ackNum == Add32(k.seg.seqNum, 1)
      && a.seg.srcPort == k.seg.dstPort && a.seg.dstPort == k.seg.srcPort
      && v.server.conn.sndNxt == Add32(a.seg.seqNum, 1)
      && v.server.conn.localPort == k.seg.dstPort && v.server.conn.remotePort == k.seg.srcPort
      && v.server.conn.remoteIp == k.srcIp
  {
    hide Add32;
    var (c, out) := Receive(w.server.conn, k.srcIp, k.seg, true, now, isn);
    a := Packet(Client, w.server.ip, out[0]);
    assert out == [out[0]];
    PutOne(w, Server, Moved(w.server, c), out[0]);
  }

  lemma SynAckArrives(w: World, k: Packet, now: uint64, isn: uint32) returns (a: Packet)
    requires w.Wf() && w.client.conn.state == SynSent && k.to == Client && k.seg.flags == SYN_ACK
    requires k.seg.ackNum == w.client.conn.sndNxt && Matches(w.client.conn, k.srcIp, k.seg)
    ensures var v := Next(w, Deliver(k, true, now, isn));
      && SendsOnly(w, v, a) && a.to == Server && v.client.conn.state == Established && v.client.ip == w.client.ip
      && a.seg.flags == ACK && a.seg.ackNum == Add32(k.seg.seqNum, 1)
      && a.seg.srcPort == k.seg.dstPort && a.seg.dstPort == k.seg.srcPort
  {
    hide Add32;
    var (c, out) := Receive(w.client.conn, k.srcIp, k.seg, true, now, isn);
    a := Packet(Server, w.client.ip, out[0]);
    assert out == [out[0]];
    PutOne(w, Client, Moved(w.client, c), out[0]);
  }

  lemma LastAckOfHandshake(w: World, k: Packet, now: uint64, isn: uint32)
    requires w.Wf() && w.server.conn.state == SynReceived && k.to == Server && k.seg.flags == ACK
    requires k.seg.ackNum == w.server.conn.sndNxt && Matches(w.server.conn, k.srcIp, k.seg)
    ensures var v := Next(w, Deliver(k, true, now, isn));
      v.net == w.net && v.client == w.client && v.server.conn.state == Established
  {
    hide Add32;
    PutNone(w, Server, Moved(w.server, Receive(w.server.conn, k.srcIp, k.seg, true, now, isn).0));
  }

  /**
   The handshake. When the client has asked for the server's address and port,
   its SYN, the server's answer and the client's acknowledgement open both
   ends, and no other segment is sent.
   */
  lemma HandshakeOpens(w0: World, now: seq<uint64>, isn: uint32) returns (k: seq<Packet>, v: World)
    requires w0.Wf() && Initial(w0) && Names(w0.client, w0.server) && |now| == 3
    ensures |k| == 3 && w0.net == {k[0]} && v.net == w0.net + {k[1]} + {k[2]}
    ensures k[0].seg.flags == SYN && k[1].seg.flags == SYN_ACK && k[2].seg.flags == ACK
    ensures Reaches(w0, [Deliver(k[0], true, now[0], isn), Deliver(k[1], true, now[1], isn), Deliver(k[2], true, now[2], isn)], v)
    ensures Reachable(v) && v.client.conn.state == Established && v.server.conn.state == Established
  {
    var k0 := InitialSyn(w0);
    hide Reachable, Initial, Next, Add32;
    var k1 := SynArrives(w0, k0, now[0], isn);
    var w1 := Next(w0, Deliver(k0, true, now[0], isn));
    var k2 := SynAckArrives(w1, k1, now[1], isn);
    var w2 := Next(w1, Deliver(k1, true, now[1], isn));
    LastAckOfHandshake(w2, k2, now[2], isn);
    v := Next(w2, Deliver(k2, true, now[2], isn));
    k := [k0, k1, k2];
    var events := [Deliver(k0, true, now[0], isn), Deliver(k1, true, now[1], isn), Deliver(k2, true, now[2], isn)];
    ThreeSteps(w0, w1, w2, v, events);
    Onward(w0, events[0]);
    Onward(w1, events[1]);
    Onward(w2, events[2]);
  }

  /** Two ends that call each other: the one with address a and port p calls b at port q. */
  function Caller(b: uint32, q: uint16, p: uint16, isn: uint32, now: uint64): (Conn, Segment) {
    var (c, out) := Connect(b, q, p, isn, now);
    (c, out[0])
  }

  /**
   A simultaneous open. Each of two callers answers the other's SYN and waits
   in SYN_RECEIVED, but has counted its own SYN twice, so that the crossing
   SYN+ACK is ignored. Only after the retransmission timer has expired, and the
   count been put right, does the same SYN+ACK open the connection.
   */
  lemma SimultaneousOpenNeedsTimer(a: uint32, p: uint16, isnA: uint32, b: uint32, q: uint16, isnB: uint32, now: seq<uint64>)
    requires |now| == 3 && Sub64(now[2], now[1]) >= RETRANSMIT_MS
    ensures
      var (c0, synA) := Caller(b, q, p, isnA, now[0]);
      var (d0, synB) := Caller(a, p, q, isnB, now[0]);
      var (c1, outA) := Receive(c0, b, synB, true, now[1], 0);
      var (d1, outB) := Receive(d0, a, synA, true, now[1], 0);
      && c1.state == d1.state == SynReceived && |outA| == |outB| == 1
      && outA[0].flags == outB[0].flags == SYN_ACK && outB[0].ackNum == Add32(isnA, 1)
      && Receive(c1, b, outB[0], true, now[1], 0) == (c1, [])
      && var (c2, again) := Tick(c1, true, now[2]);
      && |again| == 1 && again[0].flags == SYN_ACK && again[0].seqNum == isnA
      && Receive(c2, b, outB[0], true, now[2], 0).0.state == Established
  {
  }

  // ---------------------------------------------------------------- reading

  /** tcp_read called again and again. */
  function Reads(c: Conn, sizes: seq<nat>): (r: (Conn, seq<byte>))
    requires c.Wf()
    ensures r.0.Wf()
    decreases |sizes|
  {
    if sizes == [] then (c, []) else
    var (c1, bytes) := Read(c, sizes[0]);
    var (c2, rest) := Reads(c1, sizes[1..]);
    (c2, bytes + rest)
  }

  function Sum(sizes: seq<nat>): nat {
    if sizes == [] then 0 else sizes[0] + Sum(sizes[1..])
  }

  /**
   Reads of any sizes give the oldest bytes that wait, as many as were asked
   for in all, and leave the others; enough of them give all there is. In the
   states that refuse reading they give nothing and change nothing.
   */
  lemma {:induction false} ReadsDrain(c: Conn, sizes: seq<nat>)
    requires c.Wf()
    ensures var (d, bytes) := Reads(c, sizes);
      if c.state in {Established, CloseWait, FinWait1, FinWait2} then
        var n := Min(Sum(sizes), |c.rx|);
        bytes == c.rx[..n] && d == c.(rx := c.rx[n..])
      else bytes == [] && d == c
    decreases |sizes|
  {
    if sizes != [] {
      var (c1, first) := Read(c, sizes[0]);
      ReadsDrain(c1, sizes[1..]);
      ReadIs(c, sizes[0]);
      hide Read;
      TakeTwice(c.rx, sizes[0], Sum(sizes[1..]));
    }
  }

  lemma ReadIs(c: Conn, size: nat)
    requires c.Wf()
    ensures Read(c, size) ==
      if c.state in {Established, CloseWait, FinWait1, FinWait2} then
        (c.(rx := c.rx[Min(size, |c.rx|)..]), c.rx[..Min(size, |c.rx|)])
      else (c, [])
  {
  }

  lemma TakeTwice<T>(s: seq<T>, a: nat, b: nat)
    ensures var m, n := Min(a, |s|), Min(a + b, |s|);
      && s[..m] + s[m..][..Min(b, |s[m..]|)] == s[..n]
      && s[m..][Min(b, |s[m..]|)..] == s[n..]
  {
  }

  // ---------------------------------------------------------------- writing

  lemma WriteSends(w: World, h: Host, data: seq<byte>, now: uint64) returns (k: Packet)
    requires Reachable(w) && w.Get(h).conn.state == Established && data != []
    requires |w.Get(h).sent| + Min(|data|, MSS) < TWO_32
    ensures var v, p := Next(w, AppSend(h, data, true, now)), w.Get(h);
      && Reachable(v) && SendsOnly(w, v, k) && k.to == Peer(h)
      && k.seg.flags == PSH_ACK && k.seg.payload == data[..Min(|data|, MSS)] && k.seg.seqNum == p.conn.sndNxt
      && v.Get(h) == p.(sent := p.sent + data[..Min(|data|, MSS)],
                        conn := p.conn.(sndNxt := v.Get(h).conn.sndNxt, lastSend := now))
      && v.Get(h).conn.sndNxt == Add32(p.conn.sndNxt, Min(|data|, MSS))
  {
    hide Reachable, Inv, Named;
    Onward(w, AppSend(h, data, true, now));
    var p := w.Get(h);
    LocalOf(w, h);
    var (c, out) := Send(p.conn, data, true, now);
    k := Packet(Peer(h), p.ip, out[0]);
    assert out == [out[0]];
    PutOne(w, h, Moved(p, c).(sent := p.sent + Clamped(data)), out[0]);
  }

  /** How much of a payload the ring of the end has room for. */
  function Fitting(p: Party, data: seq<byte>): nat
    requires p.conn.Wf()
  {
    Min(|data|, RECV_BUF_SIZE - |p.conn.rx|)
  }

  /** An in-order payload: as much as there is room for is stored, and acknowledged at once. */
  lemma DataArrives(w: World, k: Packet, now: uint64, isn: uint32) returns (a: Packet)
    requires Reachable(w) && k in w.net && k.seg.payload != [] && k.seg.seqNum == w.Get(k.to).conn.rcvNxt
    requires w.Get(k.to).conn.state == Established && Met(w.Get(Peer(k.to)))
    ensures var v, e := Next(w, Deliver(k, true, now, isn)), w.Get(k.to);
      && Reachable(v) && SendsOnly(w, v, a) && a.to == Peer(k.to) && a.seg.flags == ACK && a.seg.payload == []
      && v.Get(k.to).conn.rx == e.conn.rx + k.seg.payload[..Fitting(e, k.seg.payload)]
      && v.Get(k.to).read == e.read && v.Get(k.to).sent == e.sent && v.Get(k.to).conn.state == Established
      && a.seg.ackNum == Add32(e.conn.rcvNxt, Fitting(e, k.seg.payload)) == v.Get(k.to).conn.rcvNxt
  {
    hide Reachable;
    Onward(w, Deliver(k, true, now, isn));
    var p := w.Get(k.to);
    InNet(w, k);
    FindsItsConnection(w, k);
    assert !k.seg.flags.fin && !k.seg.flags.rst;
    hide Inv, Named, Add32, SegmentOk;
    var (c, out) := Receive(p.conn, k.srcIp, k.seg, true, now, isn);
    a := Packet(Peer(k.to), p.ip, out[0]);
    assert out == [out[0]];
    PutOne(w, k.to, Moved(p, c), out[0]);
  }

  /** A payload out of order, or none: nothing is stored. */
  lemma OtherSegmentsStoreNothing(w: World, k: Packet, now: uint64, isn: uint32)
    requires w.Wf() && (k.seg.payload == [] || k.seg.seqNum != w.Get(k.to).conn.rcvNxt || w.Get(k.to).conn.state != Established)
    ensures SameBytes(w, Next(w, Deliver(k, true, now, isn)))
  {
    hide Add32;
  }

  /** When everything is stored, the next byte to be sent is the next to be taken. */
  lemma InStep(w: World, h: Host)
    requires Inv(w) && Fins(w) && w.Get(h).conn.state == w.Get(Peer(h)).conn.state == Established
    requires w.Get(Peer(h)).Stored() == w.Get(h).sent
    ensures w.Get(h).conn.sndNxt == w.Get(Peer(h)).conn.rcvNxt
  {
    hide Off, Add32, SegmentOk;
    JoinedEnds(w, Peer(h));
    EndsOf(w, h);
  }

  lemma ReadTakesAll(w: World, h: Host, size: nat)
    requires w.Wf() && size >= RECV_BUF_SIZE && w.Get(h).conn.state in {Established, CloseWait, FinWait1, FinWait2}
    ensures var v := Next(w, AppRead(h, size));
      && v.net == w.net && v.Get(Peer(h)) == w.Get(Peer(h)) && v.Get(h).sent == w.Get(h).sent
      && v.Get(h).read == w.Get(h).Stored() && v.Get(h).conn.rx == []
  {
  }

  lemma WriteIsStored(w: World, h: Host, data: seq<byte>, now: uint64, isn: uint32) returns (k: Packet, a: Packet)
    requires Reachable(w) && w.Get(h).conn.state == w.Get(Peer(h)).conn.state == Established
    requires data != [] && |w.Get(h).sent| + Min(|data|, MSS) < TWO_32
    requires w.Get(Peer(h)).Stored() == w.Get(h).sent
    ensures var w1, taken := Next(w, AppSend(h, data, true, now)), data[..Min(|data|, MSS)];
      && SendsOnly(w, w1, k)
      && var w2 := Next(w1, Deliver(k, true, now, isn));
      && SendsOnly(w1, w2, a) && k.to == Peer(h) && a.to == h
      && w2.Get(h).sent == w.Get(h).sent + taken
      && w2.Get(Peer(h)).conn.state == Established
      && w2.Get(Peer(h)).read == w.Get(Peer(h)).read
      && w2.Get(Peer(h)).conn.rx == w.Get(Peer(h)).conn.rx + taken[..Fitting(w.Get(Peer(h)), taken)]
  {
    ReachableFins(w);
    InStep(w, h);
    hide Reachable, Inv, Fins, Next, Add32, Party.Stored;
    k := WriteSends(w, h, data, now);
    a := DataArrives(Next(w, AppSend(h, data, true, now)), k, now, isn);
  }

  /**
   What one application writes, the other one reads. When all that h wrote is
   stored, the next write of h is the next that the other end stores, as far as
   a segment and the ring hold it, and a read gives it after all the rest.
   */
  lemma WrittenIsRead(w: World, h: Host, data: seq<byte>, now: uint64, isn: uint32, size: nat)
    returns (k: Packet, a: Packet, v: World)
    requires Reachable(w) && w.Get(h).conn.state == w.Get(Peer(h)).conn.state == Established
    requires data != [] && |w.Get(h).sent| + Min(|data|, MSS) < TWO_32
    requires w.Get(Peer(h)).Stored() == w.Get(h).sent && size >= RECV_BUF_SIZE
    ensures Reaches(w, [AppSend(h, data, true, now), Deliver(k, true, now, isn), AppRead(Peer(h), size)], v)
    ensures v.net == w.net + {k} + {a}
    ensures var taken := data[..Min(|data|, MSS)];
      && v.Get(h).sent == w.Get(h).sent + taken
      && v.Get(Peer(h)).read == w.Get(h).sent + taken[..Fitting(w.Get(Peer(h)), taken)]
      && v.Get(Peer(h)).conn.rx == []
  {
    k, a := WriteIsStored(w, h, data, now, isn);
    var o, taken := Peer(h), data[..Min(|data|, MSS)];
    var w1 := Next(w, AppSend(h, data, true, now));
    var w2 := Next(w1, Deliver(k, true, now, isn));
    hide Reachable, Next, Reaches, Enabled, Party.Stored;
    v := Next(w2, AppRead(o, size));
    ReadTakesAll(w2, o, size);
    WriteAndRead(w, w1, w2, v, h, data, k, now, isn, size);
    Regrouped(w.Get(o), w2.Get(o), taken[..Fitting(w.Get(o), taken)]);
  }

  lemma Regrouped(p: Party, q: Party, more: seq<byte>)
    requires q.read == p.read && q.conn.rx == p.conn.rx + more
    ensures q.Stored() == p.Stored() + more
  {
  }

  lemma WriteAndRead(w: World, w1: World, w2: World, v: World, h: Host, data: seq<byte>, k: Packet, now: uint64,
                     isn: uint32, size: nat)
    requires w.Wf() && |w.Get(h).sent| + Min(|data|, MSS) < TWO_32 && w1 == Next(w, AppSend(h, data, true, now))
    requires w1.Wf() && SendsOnly(w, w1, k) && w2 == Next(w1, Deliver(k, true, now, isn))
    requires w2.Wf() && v == Next(w2, AppRead(Peer(h), size))
    ensures Reaches(w, [AppSend(h, data, true, now), Deliver(k, true, now, isn), AppRead(Peer(h), size)], v)
  {
    hide Next;
    ThreeSteps(w, w1, w2, v, [AppSend(h, data, true, now), Deliver(k, true, now, isn), AppRead(Peer(h), size)]);
  }

  // ------------------------------------------------------- resets, early closes

  /** A reset for the connection ends it at once, and what waits in the ring cannot be read any more. */
  lemma ResetEnds(w: World, k: Packet, cfg: bool, now: uint64, isn: uint32, size: nat)
    requires w.Wf() && k.seg.flags.rst
    ensures var v := Next(w, Deliver(k, cfg, now, isn));
      && (Matches(w.Get(k.to).conn, k.srcIp, k.seg) ==>
            v.Get(k.to).conn.state == Closed && Next(v, AppRead(k.to, size)).Get(k.to).read == w.Get(k.to).read)
      && (!Matches(w.Get(k.to).conn, k.srcIp, k.seg) ==> v.Get(k.to).conn == w.Get(k.to).conn)
      && v.net == w.net
  {
    hide Add32;
  }

  /** Closing a listener or an unanswered SYN frees the block at once and sends nothing; in SYN_RECEIVED nothing happens. */
  lemma EarlyClose(w: World, h: Host, cfg: bool, now: uint64)
    requires w.Wf() && w.Get(h).conn.state in {Listen, SynSent, SynReceived}
    ensures var v := Next(w, AppClose(h, cfg, now));
      && v.net == w.net
      && v.Get(h).conn.state == if w.Get(h).conn.state == SynReceived then SynReceived else Closed
  {
  }
}
