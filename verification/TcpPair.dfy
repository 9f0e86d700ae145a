/**
 An active opener and a passive opener over a network that loses, duplicates
 and reorders segments. The network is the set of all segments ever sent: a
 delivery may pick any of them at any time, and none has to be picked.
 Either side may write, read and close, and either interface may be
 unconfigured at any moment.
 */
module TcpPair {
  import opened Words
  import opened Tcp

  /** One end, with its history: bytes accepted by tcp_send, bytes returned by tcp_read. */
  datatype Party = Party(conn: Conn, ip: uint32, sent: seq<byte>, read: seq<byte>,
                         joined: bool,   // has been ESTABLISHED
                         peerFin: bool,  // has taken a FIN
                         missed: nat)    // FINs that found the interface unconfigured and never left
  {
    /** Everything the receive ring ever accepted. */
    function Stored(): seq<byte> { read + conn.rx }

    predicate FinSent() {
      conn.state in {FinWait1, FinWait2, Closing, LastAck, TimeWait, Closed}
    }

    predicate Open() {
      conn.state in {Established, FinWait1, FinWait2, CloseWait, Closing, LastAck, TimeWait}
    }

    predicate NotYetOpen() {
      conn.state in {Listen, SynSent, SynReceived}
    }
  }

  datatype Host = Client | Server

  datatype Packet = Packet(to: Host, srcIp: uint32, seg: Segment)

  datatype World = World(client: Party, server: Party, net: set<Packet>)
  {
    predicate Wf() { client.conn.Wf() && server.conn.Wf() }

    function Get(h: Host): Party { if h.Client? then client else server }

    function Put(h: Host, p: Party, out: seq<Segment>): World {
      var sentNow := set s <- out :: Packet(Peer(h), p.ip, s);
      World(if h.Client? then p else client, if h.Server? then p else server, net + sentNow)
    }
  }

  function Peer(h: Host): Host { if h.Client? then Server else Client }

  datatype Event =
    | Deliver(pkt: Packet, cfg: bool, now: uint64, isn: uint32)
    | Timer(h: Host, cfg: bool, now: uint64)
    | AppSend(h: Host, data: seq<byte>, cfg: bool, now: uint64)
    | AppRead(h: Host, size: nat)
    | AppClose(h: Host, cfg: bool, now: uint64)

  /** The party after its connection has become c. */
  function Moved(p: Party, c: Conn): Party {
    p.(conn := c,
       joined := p.joined || c.state == Established,
       peerFin := p.peerFin || c.state in {CloseWait, Closing, LastAck, TimeWait})
  }

  /** The count of FINs that never left, after a step from p to the connection c that sent out. */
  function Missed(p: Party, c: Conn, out: seq<Segment>): nat {
    if Finishing(c.state) && out == [] && (c.state != p.conn.state || c.retries != p.conn.retries)
    then p.missed + 1 else p.missed
  }

  /** The stream of every side stays below 2^32 bytes. */
  predicate Enabled(w: World, e: Event) {
    match e
    case Deliver(pkt, _, _, _) => pkt in w.net
    case AppSend(h, data, _, _) => |w.Get(h).sent| + |Clamped(data)| < TWO_32
    case _ => true
  }

  function Next(w: World, e: Event): (v: World)
    requires w.Wf()
    ensures v.Wf()
  {
    match e
    case Deliver(pkt, cfg, now, isn) =>
      var p := w.Get(pkt.to);
      var (c, out) := Receive(p.conn, pkt.srcIp, pkt.seg, cfg, now, isn);
      w.Put(pkt.to, Moved(p, c), out)
    case Timer(h, cfg, now) =>
      var p := w.Get(h);
      var (c, out) := Tick(p.conn, cfg, now);
      w.Put(h, Moved(p, c).(missed := Missed(p, c, out)), out)
    case AppSend(h, data, cfg, now) =>
      var p := w.Get(h);
      var (c, out) := Send(p.conn, data, cfg, now);
      w.Put(h, Moved(p, c).(sent := if out == [] then p.sent else p.sent + Clamped(data)), out)
    case AppRead(h, size) =>
      var p := w.Get(h);
      var (c, bytes) := Read(p.conn, size);
      w.Put(h, Moved(p, c).(read := p.read + bytes), [])
    case AppClose(h, cfg, now) =>
      var p := w.Get(h);
      var (c, out) := Close(p.conn, cfg, now);
      w.Put(h, Moved(p, c).(missed := Missed(p, c, out)), out)
  }

  /** The client has just called tcp_connect. */
  predicate HasCalled(w: World, dstIp: uint32, dstPort: uint16, srcPort: uint16, isn: uint32, now: uint64) {
    var (c, out) := Connect(dstIp, dstPort, srcPort, isn, now);
    && w.client == Party(c, w.client.ip, [], [], false, false, 0)
    && w.net == set s <- out :: Packet(Server, w.client.ip, s)
  }

  /** A client that has just called tcp_connect, a server that has just called tcp_listen. */
  ghost predicate Initial(w: World) {
    && w.server == Party(Listening(w.server.conn.localPort), w.server.ip, [], [], false, false, 0)
    && exists dstIp: uint32, dstPort: uint16, srcPort: uint16, isn: uint32, now: uint64 ::
        HasCalled(w, dstIp, dstPort, srcPort, isn, now)
  }

  // -------------------------------------------------------------- invariant

  /** How many stream bytes lie before sequence number x when the stream starts after iss. */
  function Off(x: uint32, iss: uint32): nat { (x - iss - 1) % 0x1_0000_0000 }

  lemma OffOf(iss: uint32, k: nat)
    requires k < TWO_32
    ensures Off(Add32(iss, 1 + k), iss) == k
  {
  }

  lemma Add32Twice(a: uint32, b: nat, c: nat)
    ensures Add32(Add32(a, b), c) == Add32(a, b + c)
  {
  }

  ghost predicate Local(p: Party) {
    && p.conn.Wf()
    && (p.Open() ==> p.joined)
    && (p.NotYetOpen() ==> !p.joined)
    && (p.conn.state in {CloseWait, Closing, LastAck, TimeWait} ==> p.peerFin)
    && (p.conn.state in {Established, FinWait1, FinWait2} ==> !p.peerFin)
    && (!p.joined ==> p.sent == [] && p.Stored() == [] && !p.peerFin)
    && (p.conn.state == Established ==> p.conn.sndNxt == Add32(p.conn.sndIss, 1 + |p.sent|))
    && (p.joined && !p.peerFin ==> p.conn.rcvNxt == Add32(p.conn.rcvIrs, 1 + |p.Stored()|))
    && |p.sent| < TWO_32
  }

  /** What is true of every segment that p (in role h) has sent to e. */
  ghost predicate SegmentOk(h: Host, p: Party, e: Party, s: Segment) {
    && !s.flags.rst
    && (s.flags.syn ==> s.seqNum == p.conn.sndIss && s.payload == [] && !s.flags.fin)
    && (s.flags.syn ==> (h.Server? <==> s.flags.ack))
    && (s.flags.syn && s.flags.ack ==> s.ackNum == Add32(e.conn.sndIss, 1))
    && (!s.flags.syn ==> s.flags.ack && p.joined)
    && (!s.flags.syn ==> p.peerFin || Off(s.ackNum, e.conn.sndIss) <= |p.Stored()|)
    && (s.flags.fin ==> p.FinSent() && s.payload == [])
    && (s.payload != [] ==>
          var k := Off(s.seqNum, p.conn.sndIss);
          k + |s.payload| <= |p.sent| && s.payload == p.sent[k..k + |s.payload|])
  }

  /** What e knows and holds of its peer p. */
  ghost predicate Agreed(p: Party, e: Party) {
    && (e.joined ==> e.conn.rcvIrs == p.conn.sndIss && p.conn.state != Listen)
    && e.Stored() <= p.sent
    && (e.peerFin ==> p.FinSent())
    && (p.joined && !e.peerFin ==> Off(p.conn.sndUna, p.conn.sndIss) <= |e.Stored()|)
  }

  ghost predicate NetOk(w: World) {
    forall k <- w.net :: SegmentOk(Peer(k.to), w.Get(Peer(k.to)), w.Get(k.to), k.seg)
  }

  /** What only one of the two roles can be. */
  ghost predicate Role(h: Host, p: Party, o: Party) {
    match h
    case Client =>
      && p.conn.state !in {Listen, SynReceived}
      && (p.joined ==> o.conn.state != Listen)
    case Server =>
      && p.conn.state != SynSent
      && (p.joined ==> o.joined)
      && (p.conn.state == SynReceived ==>
            p.conn.rcvIrs == o.conn.sndIss && p.conn.rcvNxt == Add32(p.conn.rcvIrs, 1))
  }

  /** The two ends, seen from p in role h, without the segments in flight. */
  ghost predicate Ends(h: Host, p: Party, o: Party) {
    && Local(p) && Local(o)
    && Role(h, p, o) && Role(Peer(h), o, p)
    && Agreed(p, o) && Agreed(o, p)
  }

  ghost predicate Inv(w: World) {
    && Ends(Client, w.client, w.server)
    && NetOk(w)
    && (w.server.conn.state == Listen ==> forall k <- w.net :: k.to == Server)
  }

  /** What may change about a party in one event. */
  ghost predicate Grows(p: Party, q: Party) {
    && (p.joined ==> q.joined)
    && (p.peerFin ==> q.peerFin)
    && (p.FinSent() ==> q.FinSent())
    && p.sent <= q.sent
    && |p.Stored()| <= |q.Stored()|
    && (p.conn.state != Listen ==> q.conn.sndIss == p.conn.sndIss && q.conn.state != Listen)
  }

  /** Everything to be shown when p in role h becomes q and sends out. */
  ghost predicate StepOk(h: Host, p: Party, o: Party, q: Party, out: seq<Segment>) {
    && Grows(p, q)
    && Local(q) && Role(h, q, o) && Agreed(q, o) && Agreed(o, q)
    && (q.conn.state == Listen ==> out == [] && q.conn.sndIss == p.conn.sndIss && p.conn.state == Listen)
    && forall s <- out :: SegmentOk(h, q, o, s)
  }

  /** A segment stays right while its sender grows... */
  lemma SenderGrows(h: Host, p: Party, q: Party, o: Party, s: Segment)
    requires SegmentOk(h, p, o, s) && Grows(p, q) && p.conn.state != Listen
    ensures SegmentOk(h, q, o, s)
  {
    hide Off, Add32;
    if s.payload != [] {
      var k := Off(s.seqNum, p.conn.sndIss);
      assert q.sent[k..k + |s.payload|] == p.sent[k..k + |s.payload|];
    }
  }

  /** ...and while its receiver does, who matters only through its initial sequence number. */
  lemma ReceiverGrows(h: Host, o: Party, p: Party, q: Party, s: Segment)
    requires SegmentOk(h, o, p, s)
    requires q.conn.sndIss == p.conn.sndIss || (h.Client? && !o.joined)
    ensures SegmentOk(h, o, q, s)
  {
  }

  lemma Advance(w: World, h: Host, q: Party, out: seq<Segment>)
    requires Inv(w) && StepOk(h, w.Get(h), w.Get(Peer(h)), q, out)
    ensures Inv(w.Put(h, q, out))
  {
    hide Off, Add32;
    var v, p, o := w.Put(h, q, out), w.Get(h), w.Get(Peer(h));
    forall k <- v.net ensures SegmentOk(Peer(k.to), v.Get(Peer(k.to)), v.Get(k.to), k.seg) {
      if k in w.net {
        assert SegmentOk(Peer(k.to), w.Get(Peer(k.to)), w.Get(k.to), k.seg);
        if k.to == h { ReceiverGrows(Peer(h), o, p, q, k.seg); } else { SenderGrows(h, p, q, o, k.seg); }
      }
    }
  }

  // ----------------------------------------------------------------- events

  /** An acknowledgement segment says exactly what was stored, until a FIN was taken. */
  lemma AckSegmentOk(h: Host, q: Party, o: Party, s: Segment)
    requires Local(q) && q.joined && Agreed(o, q)
    requires |o.sent| < TWO_32
    requires s.flags == ACK || s.flags == PSH_ACK || (s.flags == FIN_ACK && q.FinSent())
    requires s.payload == [] && (!q.peerFin ==> s.ackNum == q.conn.rcvNxt)
    ensures SegmentOk(h, q, o, s)
  {
    OffOf(q.conn.rcvIrs, |q.Stored()|);
  }

  lemma DataSegmentOk(h: Host, p: Party, q: Party, o: Party, s: Segment)
    requires Local(p) && p.conn.state == Established
    requires o.conn.sndIss == p.conn.rcvIrs
    requires p.Stored() == q.Stored() && p.sent + s.payload == q.sent
    requires p.conn.sndIss == q.conn.sndIss && q.joined
    requires s.flags == PSH_ACK && s.ackNum == p.conn.rcvNxt && s.seqNum == p.conn.sndNxt
    requires |p.Stored()| < TWO_32
    ensures SegmentOk(h, q, o, s)
  {
    OffOf(p.conn.rcvIrs, |p.Stored()|);
    OffOf(p.conn.sndIss, |p.sent|);
  }

  lemma OpeningTimerOk(h: Host, p: Party, o: Party, cfg: bool, now: uint64)
    requires Ends(h, p, o) && Opening(p.conn.state)
    ensures var (c, out) := Tick(p.conn, cfg, now);
      StepOk(h, p, o, Moved(p, c), out)
  {
  }

  lemma ClosingTimerOk(h: Host, p: Party, o: Party, cfg: bool, now: uint64)
    requires Ends(h, p, o) && !Opening(p.conn.state)
    ensures var (c, out) := Tick(p.conn, cfg, now);
      StepOk(h, p, o, Moved(p, c), out)
  {
    hide Off, Add32;
    var (c, out) := Tick(p.conn, cfg, now);
    if out != [] { AckSegmentOk(h, Moved(p, c), o, out[0]); }
  }

  lemma SendOk(h: Host, p: Party, o: Party, data: seq<byte>, now: uint64)
    requires Ends(h, p, o) && p.conn.state == Established && data != []
    requires |p.sent| + |Clamped(data)| < TWO_32
    ensures var (c, out) := Send(p.conn, data, true, now);
      StepOk(h, p, o, p.(conn := c, sent := p.sent + Clamped(data)), out)
  {
    var (c, out) := Send(p.conn, data, true, now);
    var q := p.(conn := c, sent := p.sent + Clamped(data));
    Add32Twice(p.conn.sndIss, 1 + |p.sent|, |Clamped(data)|);
    DataSegmentOk(h, p, q, o, out[0]);
    SentMore(h, p, o, q);
  }

  /** Writing more keeps everything the peer knows. */
  lemma SentMore(h: Host, p: Party, o: Party, q: Party)
    requires Ends(h, p, o) && p.conn.state == Established
    requires p.sent <= q.sent && |q.sent| < TWO_32
    requires q == p.(sent := q.sent, conn := p.conn.(sndNxt := q.conn.sndNxt, lastSend := q.conn.lastSend))
    requires q.conn.sndNxt == Add32(p.conn.sndIss, 1 + |q.sent|)
    ensures Grows(p, q) && Local(q) && Role(h, q, o) && Agreed(q, o) && Agreed(o, q)
  {
  }

  lemma ReadOk(h: Host, p: Party, o: Party, size: nat)
    requires Ends(h, p, o)
    ensures var (c, bytes) := Read(p.conn, size);
      StepOk(h, p, o, p.(conn := c, read := p.read + bytes), [])
  {
    var (c, bytes) := Read(p.conn, size);
    var q := p.(conn := c, read := p.read + bytes);
    hide Ends, StepOk;
    Reassociate(p.read, bytes, c.rx, p.conn.rx);
    SameStored(h, p, o, q);
  }

  lemma Reassociate<T>(a: seq<T>, b: seq<T>, c: seq<T>, d: seq<T>)
    requires b + c == d
    ensures (a + b) + c == a + d
  {
  }

  lemma SameStored(h: Host, p: Party, o: Party, q: Party)
    requires Ends(h, p, o) && q.Stored() == p.Stored() && q.conn.Wf()
    requires q == p.(conn := p.conn.(rx := q.conn.rx), read := q.read)
    ensures StepOk(h, p, o, q, [])
  {
    hide Off, Add32, Party.Stored;
  }

  lemma CloseOk(h: Host, p: Party, o: Party, cfg: bool, now: uint64)
    requires Ends(h, p, o)
    ensures var (c, out) := Close(p.conn, cfg, now);
      StepOk(h, p, o, Moved(p, c), out)
  {
    hide Off, Add32;
    var (c, out) := Close(p.conn, cfg, now);
    if out != [] { AckSegmentOk(h, Moved(p, c), o, out[0]); }
  }

  // ------------------------------------------------------------- deliveries

  /** The segment s, sent by o, arrives at p. */
  ghost predicate Arrives(h: Host, p: Party, o: Party, s: Segment) {
    Ends(h, p, o) && SegmentOk(Peer(h), o, p, s)
  }

  lemma ListenOk(p: Party, o: Party, srcIp: uint32, s: Segment, cfg: bool, now: uint64, isn: uint32)
    requires Arrives(Server, p, o, s) && p.conn.state == Listen
    ensures var (c, out) := OnListen(p.conn, srcIp, s, cfg, now, isn);
      StepOk(Server, p, o, Moved(p, c), out)
  {
  }

  lemma SynSentOk(p: Party, o: Party, s: Segment, cfg: bool, now: uint64)
    requires Arrives(Client, p, o, s) && p.conn.state == SynSent && o.conn.state != Listen
    ensures var (c, out) := OnSynSent(p.conn, s, cfg, now);
      StepOk(Client, p, o, Moved(p, c), out)
  {
    var (c, out) := OnSynSent(p.conn, s, cfg, now);
    if out != [] { AckSegmentOk(Client, Moved(p, c), o, out[0]); }
  }

  lemma AckOk(h: Host, p: Party, o: Party, s: Segment)
    requires Arrives(h, p, o, s) && p.conn.state == Established
    ensures StepOk(h, p, o, p.(conn := TakeAck(p.conn, s)), [])
  {
    hide Off, Add32;
    if s.flags.ack && !o.peerFin { HonestAck(Peer(h), o, p, s); }
  }

  /** An in-order payload is the next piece of what the peer sent. */
  lemma InOrderIsNext(p: Party, o: Party, h: Host, s: Segment, n: nat)
    requires Arrives(h, p, o, s) && p.conn.state == Established
    requires s.payload != [] && s.seqNum == p.conn.rcvNxt && n <= |s.payload|
    ensures p.Stored() + s.payload[..n] <= o.sent
    ensures p.conn.rcvNxt == Add32(p.conn.rcvIrs, 1 + |p.Stored()|)
    ensures Add32(p.conn.rcvNxt, n) == Add32(p.conn.rcvIrs, 1 + |p.Stored() + s.payload[..n]|)
  {
    var k := |p.Stored()|;
    OffOf(p.conn.rcvIrs, k);
    Add32Twice(p.conn.rcvIrs, 1 + k, n);
    assert o.sent[k..k + |s.payload|][..n] == o.sent[k..k + n];
  }

  lemma DataOk(h: Host, p: Party, o: Party, s: Segment, cfg: bool, now: uint64)
    requires Arrives(h, p, o, s) && p.conn.state == Established
    ensures var (c, out) := TakeData(p.conn, s, cfg, now);
      StepOk(h, p, o, p.(conn := c), out)
  {
    var (c, out) := TakeData(p.conn, s, cfg, now);
    if s.payload != [] && s.seqNum == p.conn.rcvNxt {
      InOrderOk(h, p, o, s, cfg, now);
      if out != [] { AckSegmentOk(h, p.(conn := c), o, out[0]); }
    }
  }

  lemma InOrderOk(h: Host, p: Party, o: Party, s: Segment, cfg: bool, now: uint64)
    requires Arrives(h, p, o, s) && p.conn.state == Established
    requires s.payload != [] && s.seqNum == p.conn.rcvNxt
    ensures var q := p.(conn := TakeData(p.conn, s, cfg, now).0);
      Grows(p, q) && Local(q) && Role(h, q, o) && Agreed(q, o) && Agreed(o, q)
  {
    var n := Min(|s.payload|, RECV_BUF_SIZE - |p.conn.rx|);
    var c := TakeData(p.conn, s, cfg, now).0;
    InOrderIsNext(p, o, h, s, n);
    DataConn(p.conn, s, cfg, now);
    assert p.(conn := c).Stored() == p.Stored() + s.payload[..n];
    StoredMore(h, p, o, p.(conn := c));
  }

  /** An in-order payload changes the ring, rcv_nxt and the send time only. */
  lemma DataConn(c: Conn, s: Segment, cfg: bool, now: uint64)
    requires c.Wf() && s.payload != [] && s.seqNum == c.rcvNxt
    ensures var d, n := TakeData(c, s, cfg, now).0, Min(|s.payload|, RECV_BUF_SIZE - |c.rx|);
      d == c.(rx := c.rx + s.payload[..n], rcvNxt := Add32(c.rcvNxt, n), lastSend := d.lastSend)
  {
  }

  /** Storing more of the peer's stream keeps everything the two ends know. */
  lemma StoredMore(h: Host, p: Party, o: Party, q: Party)
    requires Ends(h, p, o) && p.conn.state == Established
    requires q == p.(conn := p.conn.(rx := q.conn.rx, rcvNxt := q.conn.rcvNxt, lastSend := q.conn.lastSend))
    requires q.conn.Wf() && p.Stored() <= q.Stored() <= o.sent
    requires q.conn.rcvNxt == Add32(q.conn.rcvIrs, 1 + |q.Stored()|)
    ensures Grows(p, q) && Local(q) && Role(h, q, o) && Agreed(q, o) && Agreed(o, q)
  {
  }

  lemma FinOk(h: Host, p: Party, o: Party, s: Segment, cfg: bool, now: uint64)
    requires Arrives(h, p, o, s) && p.conn.state == Established
    ensures var (c, out) := TakeFin(p.conn, s, cfg, now);
      StepOk(h, p, o, Moved(p, c), out)
  {
    hide Off, Add32;
    var (c, out) := TakeFin(p.conn, s, cfg, now);
    if out != [] { AckSegmentOk(h, Moved(p, c), o, out[0]); }
  }

  lemma FinWait1Ok(h: Host, p: Party, o: Party, s: Segment, cfg: bool, now: uint64)
    requires Arrives(h, p, o, s) && p.conn.state == FinWait1
    ensures var (c, out) := OnFinWait1(p.conn, s, cfg, now);
      StepOk(h, p, o, Moved(p, c), out)
  {
    hide Off, Add32;
    if s.flags.ack && !o.peerFin { HonestAck(Peer(h), o, p, s); }
    var (c, out) := OnFinWait1(p.conn, s, cfg, now);
    if out != [] { AckSegmentOk(h, Moved(p, c), o, out[0]); }
  }

  lemma SynReceivedOk(p: Party, o: Party, s: Segment, cfg: bool, now: uint64)
    requires Arrives(Server, p, o, s) && p.conn.state == SynReceived
    ensures var (c, out) := OnOtherState(p.conn, s, cfg, now);
      StepOk(Server, p, o, Moved(p, c), out)
  {
  }

  lemma LateStateOk(h: Host, p: Party, o: Party, s: Segment, cfg: bool, now: uint64)
    requires Arrives(h, p, o, s)
    requires p.conn.state !in {Listen, SynSent, SynReceived, Established, FinWait1}
    ensures var (c, out) := OnOtherState(p.conn, s, cfg, now);
      StepOk(h, p, o, Moved(p, c), out)
  {
    hide Off, Add32;
    if s.flags.ack && !o.peerFin { HonestAck(Peer(h), o, p, s); }
    var (c, out) := OnOtherState(p.conn, s, cfg, now);
    if out != [] { AckSegmentOk(h, Moved(p, c), o, out[0]); }
  }

  /** Two steps of one party in a row. */
  lemma StepTwice(h: Host, p: Party, o: Party, q: Party, out: seq<Segment>, r: Party, more: seq<Segment>)
    requires StepOk(h, p, o, q, out) && StepOk(h, q, o, r, more)
    ensures StepOk(h, p, o, r, out + more)
  {
    hide Off, Add32;
    forall s <- out + more ensures SegmentOk(h, r, o, s) {
      if s in out { SenderGrows(h, q, r, o, s); }
    }
  }

  lemma EstablishedOk(h: Host, p: Party, o: Party, s: Segment, cfg: bool, now: uint64)
    requires Arrives(h, p, o, s) && p.conn.state == Established
    ensures var (c, out) := OnEstablished(p.conn, s, cfg, now);
      StepOk(h, p, o, Moved(p, c), out)
  {
    hide Off, Add32;
    var p1 := p.(conn := TakeAck(p.conn, s));
    AckOk(h, p, o, s);
    var (c2, out2) := TakeData(p1.conn, s, cfg, now);
    DataOk(h, p1, o, s, cfg, now);
    var p2 := p1.(conn := c2);
    StepTwice(h, p, o, p1, [], p2, out2);
    var (c3, out3) := TakeFin(c2, s, cfg, now);
    FinOk(h, p2, o, s, cfg, now);
    StepTwice(h, p, o, p2, [] + out2, Moved(p2, c3), out3);
    assert [] + out2 == out2;
  }

  // ------------------------------------------------------------------- runs

  lemma DeliverOk(w: World, pkt: Packet, cfg: bool, now: uint64, isn: uint32)
    requires Inv(w) && pkt in w.net
    ensures var (c, out) := Receive(w.Get(pkt.to).conn, pkt.srcIp, pkt.seg, cfg, now, isn);
      StepOk(pkt.to, w.Get(pkt.to), w.Get(Peer(pkt.to)), Moved(w.Get(pkt.to), c), out)
  {
    hide Off, Add32;
    var h, s := pkt.to, pkt.seg;
    var p, o := w.Get(h), w.Get(Peer(h));
    assert Arrives(h, p, o, s);
    if !Matches(p.conn, pkt.srcIp, s) {
      StandStill(h, p, o);
    } else if p.conn.state == Listen {
      ListenOk(p, o, pkt.srcIp, s, cfg, now, isn);
    } else if p.conn.state == SynSent {
      SynSentOk(p, o, s, cfg, now);
    } else if p.conn.state == SynReceived {
      SynReceivedOk(p, o, s, cfg, now);
    } else if p.conn.state == Established {
      EstablishedOk(h, p, o, s, cfg, now);
    } else if p.conn.state == FinWait1 {
      FinWait1Ok(h, p, o, s, cfg, now);
    } else {
      LateStateOk(h, p, o, s, cfg, now);
    }
  }

  lemma StandStill(h: Host, p: Party, o: Party)
    requires Ends(h, p, o)
    ensures StepOk(h, p, o, p, []) && Moved(p, p.conn) == p
  {
  }

  /** The history of lost FINs is no part of what has to be shown. */
  lemma MissedIsHistory(h: Host, p: Party, o: Party, q: Party, out: seq<Segment>, m: nat)
    requires StepOk(h, p, o, q, out)
    ensures StepOk(h, p, o, q.(missed := m), out)
  {
    hide Off, Add32;
    forall s <- out ensures SegmentOk(h, q.(missed := m), o, s) {
      assert SegmentOk(h, q, o, s);
    }
  }

  lemma TimerKeepsInv(w: World, h: Host, cfg: bool, now: uint64)
    requires Inv(w)
    ensures Inv(Next(w, Timer(h, cfg, now)))
  {
    hide Off, Add32;
    var p, o := w.Get(h), w.Get(Peer(h));
    if Opening(p.conn.state) { OpeningTimerOk(h, p, o, cfg, now); } else { ClosingTimerOk(h, p, o, cfg, now); }
    var (c, out) := Tick(p.conn, cfg, now);
    MissedIsHistory(h, p, o, Moved(p, c), out, Missed(p, c, out));
    Advance(w, h, Moved(p, c).(missed := Missed(p, c, out)), out);
  }

  lemma SendKeepsInv(w: World, h: Host, data: seq<byte>, cfg: bool, now: uint64)
    requires Inv(w) && Enabled(w, AppSend(h, data, cfg, now))
    ensures Inv(Next(w, AppSend(h, data, cfg, now)))
  {
    hide Off, Add32;
    var p, o := w.Get(h), w.Get(Peer(h));
    var (c, out) := Send(p.conn, data, cfg, now);
    StandStill(h, p, o);
    if out == [] {
      Advance(w, h, p, out);
    } else {
      SendOk(h, p, o, data, now);
      Advance(w, h, p.(conn := c, sent := p.sent + Clamped(data)), out);
    }
  }

  lemma ReadKeepsInv(w: World, h: Host, size: nat)
    requires Inv(w)
    ensures Inv(Next(w, AppRead(h, size)))
  {
    hide Off, Add32;
    var p, o := w.Get(h), w.Get(Peer(h));
    var (c, bytes) := Read(p.conn, size);
    StandStill(h, p, o);
    ReadOk(h, p, o, size);
    Advance(w, h, p.(conn := c, read := p.read + bytes), []);
  }

  lemma CloseKeepsInv(w: World, h: Host, cfg: bool, now: uint64)
    requires Inv(w)
    ensures Inv(Next(w, AppClose(h, cfg, now)))
  {
    hide Off, Add32;
    var p, o := w.Get(h), w.Get(Peer(h));
    CloseOk(h, p, o, cfg, now);
    var (c, out) := Close(p.conn, cfg, now);
    MissedIsHistory(h, p, o, Moved(p, c), out, Missed(p, c, out));
    Advance(w, h, Moved(p, c).(missed := Missed(p, c, out)), out);
  }

  lemma DeliverKeepsInv(w: World, pkt: Packet, cfg: bool, now: uint64, isn: uint32)
    requires Inv(w) && pkt in w.net
    ensures Inv(Next(w, Deliver(pkt, cfg, now, isn)))
  {
    hide Off, Add32;
    DeliverOk(w, pkt, cfg, now, isn);
    var (c, out) := Receive(w.Get(pkt.to).conn, pkt.srcIp, pkt.seg, cfg, now, isn);
    Advance(w, pkt.to, Moved(w.Get(pkt.to), c), out);
  }

  lemma NextKeepsInv(w: World, e: Event)
    requires Inv(w) && Enabled(w, e)
    ensures Inv(Next(w, e))
  {
    match e
    case Deliver(pkt, cfg, now, isn) => DeliverKeepsInv(w, pkt, cfg, now, isn);
    case Timer(h, cfg, now) => TimerKeepsInv(w, h, cfg, now);
    case AppSend(h, data, cfg, now) => SendKeepsInv(w, h, data, cfg, now);
    case AppRead(h, size) => ReadKeepsInv(w, h, size);
    case AppClose(h, cfg, now) => CloseKeepsInv(w, h, cfg, now);
  }

  /** Some run of events leads from w to v. */
  ghost predicate Reaches(w: World, events: seq<Event>, v: World)
    requires w.Wf()
    decreases |events|
  {
    if events == [] then v == w
    else Enabled(w, events[0]) && Reaches(Next(w, events[0]), events[1..], v)
  }

  /** A run with one more event at the end. */
  lemma {:induction false} After(w: World, events: seq<Event>, v: World, e: Event)
    requires w.Wf() && v.Wf() && Reaches(w, events, v) && Enabled(v, e)
    ensures Reaches(w, events + [e], Next(v, e))
    decreases |events|
  {
    if events == [] {
      assert Reaches(Next(v, e), [], Next(v, e));
    } else {
      After(Next(w, events[0]), events[1..], v, e);
      assert (events + [e])[1..] == events[1..] + [e];
    }
  }

  lemma {:induction false} RunKeepsInv(w: World, events: seq<Event>, v: World)
    requires Inv(w) && Reaches(w, events, v)
    ensures Inv(v)
    decreases |events|
  {
    if events != [] {
      NextKeepsInv(w, events[0]);
      RunKeepsInv(Next(w, events[0]), events[1..], v);
    }
  }

  lemma InitialInv(w: World)
    requires w.Wf() && Initial(w)
    ensures Inv(w)
  {
  }

  ghost predicate Reachable(v: World) {
    v.Wf() && exists w: World, events :: w.Wf() && Initial(w) && Reaches(w, events, v)
  }

  lemma ReachableInv(v: World)
    requires Reachable(v)
    ensures Inv(v)
  {
    var w: World, events :| w.Wf() && Initial(w) && Reaches(w, events, v);
    InitialInv(w);
    RunKeepsInv(w, events, v);
  }

  // ----------------------------------------------------------- main results

  /**
   Prefix delivery: what either side has read, followed by what waits in its
   ring, is a prefix of what the other side wrote.
   */
  lemma DeliveredIsPrefixOfSent(v: World)
    requires Reachable(v)
    ensures v.server.read + v.server.conn.rx <= v.client.sent
    ensures v.client.read + v.client.conn.rx <= v.server.sent
  {
    ReachableInv(v);
  }

  /**
   Handshake agreement: whoever has been ESTABLISHED holds the initial sequence
   number of the other side, and the server gets there only after the client did.
   */
  lemma HandshakeAgrees(v: World)
    requires Reachable(v)
    ensures v.client.joined ==> v.client.conn.rcvIrs == v.server.conn.sndIss
    ensures v.server.joined ==> v.server.conn.rcvIrs == v.client.conn.sndIss && v.client.joined
    ensures v.client.conn.state == Established ==> v.client.joined && v.server.conn.state != Listen
    ensures v.server.conn.state == Established ==> v.server.joined
  {
    ReachableInv(v);
  }

  /** In ESTABLISHED rcv_nxt counts exactly the bytes that were stored. */
  lemma RcvNxtCountsStored(v: World, h: Host)
    requires Reachable(v)
    requires v.Get(h).conn.state == Established
    ensures var p := v.Get(h); p.conn.rcvNxt == Add32(p.conn.rcvIrs, 1 + |p.Stored()|)
  {
    ReachableInv(v);
    var p := v.Get(h);
    assert Local(p);
  }

  /** No segment sent by a side that has not taken a FIN acknowledges a byte which that side did not store. */
  lemma AcknowledgedIsStored(v: World, k: Packet)
    requires Reachable(v)
    requires k in v.net && k.seg.flags.ack && !v.Get(Peer(k.to)).peerFin
    ensures var p, o := v.Get(Peer(k.to)), v.Get(k.to);
      Off(k.seg.ackNum, o.conn.sndIss) <= |p.Stored()|
  {
    ReachableInv(v);
    HonestAck(Peer(k.to), v.Get(Peer(k.to)), v.Get(k.to), k.seg);
  }

  lemma HonestAck(h: Host, p: Party, o: Party, s: Segment)
    requires SegmentOk(h, p, o, s) && s.flags.ack && !p.peerFin
    ensures Off(s.ackNum, o.conn.sndIss) <= |p.Stored()|
  {
    OffOf(o.conn.sndIss, 0);
  }

  /**
   Seen from a writer that has not closed: the bytes before snd_una are in the
   peer's hands, bytes the writer lost sight of included.
   */
  lemma UnclosedWriterKnowsDelivery(v: World, h: Host)
    requires Reachable(v)
    requires v.Get(h).conn.state in {Established, CloseWait}
    ensures var p, o := v.Get(h), v.Get(Peer(h));
      var n := Off(p.conn.sndUna, p.conn.sndIss);
      n <= |p.sent| && p.sent[..n] <= o.Stored()
  {
    ReachableInv(v);
  }

  /** The example's ends after the handshake, in the state the first argument says. */
  function ExampleClient(state: State, sndNxt: uint32): Conn {
    Conn(1000, 2, 80, state, 101, sndNxt, 100, 501, 500, [], 0, 0, 0)
  }

  function ExampleServer(state: State, sndUna: uint32, rcvNxt: uint32): Conn {
    Conn(80, 1, 1000, state, sndUna, 501, 500, rcvNxt, 100, [], 0, 0, 0)
  }

  /** A step whose effect on one end is known. */
  lemma Step(w: World, e: Event, h: Host, q: Party, out: seq<Segment>) returns (v: World)
    requires Reachable(w) && Enabled(w, e) && Next(w, e) == w.Put(h, q, out)
    ensures v == Next(w, e) && Reachable(v) && v.Get(h) == q && v.Get(Peer(h)) == w.Get(Peer(h))
    ensures forall s <- out :: Packet(Peer(h), q.ip, s) in v.net
  {
    var w0: World, events :| w0.Wf() && Initial(w0) && Reaches(w0, events, w);
    After(w0, events, w, e);
    v := Next(w, e);
  }

  lemma ExampleSyn() returns (v: World, k: Packet)
    ensures Reachable(v) && k in v.net
    ensures v.client == Party(ExampleClient(SynSent, 101).(sndUna := 100, rcvNxt := 0, rcvIrs := 0), 1, [], [], false, false, 0)
    ensures v.server == Party(ExampleServer(SynReceived, 500, 101), 2, [], [], false, false, 0)
    ensures k == Packet(Client, 2, Segment(80, 1000, 500, 101, SYN_ACK, 4096, []))
  {
    var (c, out) := Connect(2, 80, 1000, 100, 0);
    var w := World(Party(c, 1, [], [], false, false, 0), Party(Listening(80), 2, [], [], false, false, 0),
                   set s <- out :: Packet(Server, 1, s));
    var syn := Packet(Server, 1, Segment(1000, 80, 100, 0, SYN, 4096, []));
    assert out[0] == syn.seg && syn in w.net;
    assert HasCalled(w, 2, 80, 1000, 100, 0);
    assert Reaches(w, [], w);
    k := Packet(Client, 2, Segment(80, 1000, 500, 101, SYN_ACK, 4096, []));
    var q := Party(ExampleServer(SynReceived, 500, 101), 2, [], [], false, false, 0);
    assert Receive(w.server.conn, 1, syn.seg, true, 0, 500) == (q.conn, [k.seg]);
    hide Receive;
    v := Step(w, Deliver(syn, true, 0, 500), Server, q, [k.seg]);
  }

  lemma ExampleSynAck() returns (v: World, k: Packet)
    ensures Reachable(v) && k in v.net
    ensures v.client == Party(ExampleClient(Established, 101), 1, [], [], true, false, 0)
    ensures v.server == Party(ExampleServer(SynReceived, 500, 101), 2, [], [], false, false, 0)
    ensures k == Packet(Server, 1, Segment(1000, 80, 101, 501, ACK, 4096, []))
  {
    var w, synAck := ExampleSyn();
    k := Packet(Server, 1, Segment(1000, 80, 101, 501, ACK, 4096, []));
    var q := Party(ExampleClient(Established, 101), 1, [], [], true, false, 0);
    assert Receive(w.client.conn, 2, synAck.seg, true, 0, 0) == (q.conn, [k.seg]);
    hide Receive;
    v := Step(w, Deliver(synAck, true, 0, 0), Client, q, [k.seg]);
  }

  lemma ExampleHandshake() returns (v: World)
    ensures Reachable(v)
    ensures v.client == Party(ExampleClient(Established, 101), 1, [], [], true, false, 0)
    ensures v.server == Party(ExampleServer(Established, 501, 101), 2, [], [], true, false, 0)
  {
    var w, ack := ExampleSynAck();
    var q := Party(ExampleServer(Established, 501, 101), 2, [], [], true, false, 0);
    assert Receive(w.server.conn, 1, ack.seg, true, 0, 0) == (q.conn, []);
    hide Receive;
    v := Step(w, Deliver(ack, true, 0, 0), Server, q, []);
  }

  lemma ExampleWrite() returns (v: World)
    ensures Reachable(v)
    ensures v.client == Party(ExampleClient(Established, 102), 1, [7], [], true, false, 0)
    ensures v.server == Party(ExampleServer(Established, 501, 101), 2, [], [], true, false, 0)
  {
    var w := ExampleHandshake();
    var r := Party(ExampleClient(Established, 102), 1, [7], [], true, false, 0);
    var data := Segment(1000, 80, 101, 501, PSH_ACK, 4096, [7]);
    assert Clamped([7]) == [7];
    assert Send(w.client.conn, [7], true, 0) == (r.conn, [data]);
    hide Send;
    v := Step(w, AppSend(Client, [7], true, 0), Client, r, [data]);
  }

  lemma ExampleClose() returns (v: World, k: Packet)
    ensures Reachable(v) && k in v.net
    ensures v.client == Party(ExampleClient(FinWait1, 103), 1, [7], [], true, false, 0)
    ensures v.server == Party(ExampleServer(Established, 501, 101), 2, [], [], true, false, 0)
    ensures k == Packet(Server, 1, Segment(1000, 80, 102, 501, FIN_ACK, 4096, []))
  {
    var w := ExampleWrite();
    k := Packet(Server, 1, Segment(1000, 80, 102, 501, FIN_ACK, 4096, []));
    var q := Party(ExampleClient(FinWait1, 103), 1, [7], [], true, false, 0);
    assert Close(w.client.conn, true, 0) == (q.conn, [k.seg]);
    hide Close;
    v := Step(w, AppClose(Client, true, 0), Client, q, [k.seg]);
  }

  /**
   After a FIN the acknowledgement can cover lost bytes: a client writes one
   byte and closes, only its FIN arrives, and the server acknowledges the byte
   and the FIN while it has stored nothing.
   */
  lemma EarlyFinAcknowledgesLostByte() returns (v: World)
    ensures Reachable(v)
    ensures v.server.Stored() == [] && |v.client.sent| == 1
    ensures v.server.conn.rcvNxt == Add32(v.client.conn.sndIss, 3)
  {
    var w, fin := ExampleClose();
    var q := Party(ExampleServer(CloseWait, 501, 103), 2, [], [], true, true, 0);
    var ack := Segment(80, 1000, 501, 103, ACK, 4096, []);
    assert [] + [ack] == [ack];
    assert Receive(w.server.conn, 1, fin.seg, true, 0, 0) == (q.conn, [ack]);
    hide Receive;
    v := Step(w, Deliver(fin, true, 0, 0), Server, q, [ack]);
  }
}
