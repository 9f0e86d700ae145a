/**
 A run of client and server in which the acknowledgement of a byte is refused
 for good, because its number lies past the wrap of the 32-bit space.
 */
module TcpWrap {
  import opened Words
  import opened Tcp
  import opened TcpPair

  const ISN: uint32 := 0xFFFF_FFFE

  /** The client's end, in that state and with those numbers. */
  function Near(state: State, sndUna: uint32, sndNxt: uint32, rcvNxt: uint32, rcvIrs: uint32): Conn {
    Conn(1000, 2, 80, state, sndUna, sndNxt, ISN, rcvNxt, rcvIrs, [], 0, 0, 0)
  }

  /** The server's end, with what its ring holds. */
  function Far(state: State, sndUna: uint32, rcvNxt: uint32, rx: seq<byte>): Conn {
    Conn(80, 1, 1000, state, sndUna, 501, 500, rcvNxt, ISN, rx, 0, 0, 0)
  }

  function NearParty(c: Conn, sent: seq<byte>, joined: bool): Party { Party(c, 1, sent, [], joined, false, 0) }

  function FarParty(c: Conn, joined: bool): Party { Party(c, 2, [], [], joined, false, 0) }

  lemma Syn() returns (v: World, k: Packet)
    ensures Reachable(v) && k in v.net
    ensures v.client == NearParty(Near(SynSent, ISN, 0xFFFF_FFFF, 0, 0), [], false)
    ensures v.server == FarParty(Far(SynReceived, 500, 0xFFFF_FFFF, []), false)
    ensures k == Packet(Client, 2, Segment(80, 1000, 500, 0xFFFF_FFFF, SYN_ACK, 4096, []))
  {
    var (c, out) := Connect(2, 80, 1000, ISN, 0);
    var w := World(Party(c, 1, [], [], false, false, 0), Party(Listening(80), 2, [], [], false, false, 0),
                   set s <- out :: Packet(Server, 1, s));
    var syn := Packet(Server, 1, Segment(1000, 80, ISN, 0, SYN, 4096, []));
    assert out[0] == syn.seg && syn in w.net;
    assert HasCalled(w, 2, 80, 1000, ISN, 0);
    assert Reaches(w, [], w);
    k := Packet(Client, 2, Segment(80, 1000, 500, 0xFFFF_FFFF, SYN_ACK, 4096, []));
    var q := FarParty(Far(SynReceived, 500, 0xFFFF_FFFF, []), false);
    assert Receive(w.server.conn, 1, syn.seg, true, 0, 500) == (q.conn, [k.seg]);
    hide Receive;
    v := Step(w, Deliver(syn, true, 0, 500), Server, q, [k.seg]);
  }

  lemma SynAck() returns (v: World, k: Packet)
    ensures Reachable(v) && k in v.net
    ensures v.client == NearParty(Near(Established, 0xFFFF_FFFF, 0xFFFF_FFFF, 501, 500), [], true)
    ensures v.server == FarParty(Far(SynReceived, 500, 0xFFFF_FFFF, []), false)
    ensures k == Packet(Server, 1, Segment(1000, 80, 0xFFFF_FFFF, 501, ACK, 4096, []))
  {
    var w, synAck := Syn();
    k := Packet(Server, 1, Segment(1000, 80, 0xFFFF_FFFF, 501, ACK, 4096, []));
    var q := NearParty(Near(Established, 0xFFFF_FFFF, 0xFFFF_FFFF, 501, 500), [], true);
    assert Receive(w.client.conn, 2, synAck.seg, true, 0, 0) == (q.conn, [k.seg]);
    hide Receive;
    v := Step(w, Deliver(synAck, true, 0, 0), Client, q, [k.seg]);
  }

  lemma Handshake() returns (v: World)
    ensures Reachable(v)
    ensures v.client == NearParty(Near(Established, 0xFFFF_FFFF, 0xFFFF_FFFF, 501, 500), [], true)
    ensures v.server == FarParty(Far(Established, 501, 0xFFFF_FFFF, []), true)
  {
    var w, ack := SynAck();
    var q := FarParty(Far(Established, 501, 0xFFFF_FFFF, []), true);
    assert Receive(w.server.conn, 1, ack.seg, true, 0, 0) == (q.conn, []);
    hide Receive;
    v := Step(w, Deliver(ack, true, 0, 0), Server, q, []);
  }

  lemma OneByteWritten() returns (v: World, k: Packet)
    ensures Reachable(v) && k in v.net
    ensures v.client == NearParty(Near(Established, 0xFFFF_FFFF, 0, 501, 500), [7], true)
    ensures v.server == FarParty(Far(Established, 501, 0xFFFF_FFFF, []), true)
    ensures k == Packet(Server, 1, Segment(1000, 80, 0xFFFF_FFFF, 501, PSH_ACK, 4096, [7]))
  {
    var w := Handshake();
    var r := NearParty(Near(Established, 0xFFFF_FFFF, 0, 501, 500), [7], true);
    k := Packet(Server, 1, Segment(1000, 80, 0xFFFF_FFFF, 501, PSH_ACK, 4096, [7]));
    assert Clamped([7]) == [7];
    assert Send(w.client.conn, [7], true, 0) == (r.conn, [k.seg]);
    hide Send;
    v := TcpPair.Step(w, AppSend(Client, [7], true, 0), Client, r, [k.seg]);
  }

  lemma OneByteStored() returns (v: World, k: Packet)
    ensures Reachable(v) && k in v.net
    ensures v.client == NearParty(Near(Established, 0xFFFF_FFFF, 0, 501, 500), [7], true)
    ensures v.server == FarParty(Far(Established, 501, 0, [7]), true)
    ensures k == Packet(Client, 2, Segment(80, 1000, 501, 0, ACK, 4095, []))
  {
    var w, data := OneByteWritten();
    k := Packet(Client, 2, Segment(80, 1000, 501, 0, ACK, 4095, []));
    var q := FarParty(Far(Established, 501, 0, [7]), true);
    StoresOne(w.server.conn, data.seg, q.conn, k.seg);
    hide Receive;
    v := Step(w, Deliver(data, true, 0, 0), Server, q, [k.seg]);
  }

  lemma StoresOne(c: Conn, s: Segment, d: Conn, ack: Segment)
    requires c == Far(Established, 501, 0xFFFF_FFFF, []) && s == Segment(1000, 80, 0xFFFF_FFFF, 501, PSH_ACK, 4096, [7])
    requires d == Far(Established, 501, 0, [7]) && ack == Segment(80, 1000, 501, 0, ACK, 4095, [])
    ensures Receive(c, 1, s, true, 0, 0) == (d, [ack])
  {
    assert s.payload[..1] == [7] && [] + [7 as byte] == [7];
    assert [ack] + [] == [ack];
  }

  /**
   The client starts at 2^32 - 2 and writes one byte. The server stores it and
   acknowledges it with number 0; the client, whose snd_una is 2^32 - 1, takes
   no notice: the byte is stored and stays unacknowledged.
   */
  lemma StoredByteStaysUnacknowledged() returns (v: World, k: Packet)
    ensures Reachable(v) && k in v.net && k.to == Client && k.seg.ackNum == v.client.conn.sndNxt
    ensures v.server.Stored() == v.client.sent == [7]
    ensures v.client.conn.sndUna == 0xFFFF_FFFF && v.client.conn.sndNxt == 0
    ensures Receive(v.client.conn, k.srcIp, k.seg, true, 0, 0) == (v.client.conn, [])
  {
    v, k := OneByteStored();
    TakesNoNotice(v.client.conn, k.seg);
    assert [] + [7 as byte] == [7];
    hide Reachable, Receive;
  }

  lemma Regroup(a: seq<Segment>, b: seq<Segment>)
    requires a == [] && b == []
    ensures a + b == []
  {
  }

  lemma TakesNoNotice(c: Conn, s: Segment)
    requires c == Near(Established, 0xFFFF_FFFF, 0, 501, 500) && s == Segment(80, 1000, 501, 0, ACK, 4095, [])
    ensures Receive(c, 2, s, true, 0, 0) == (c, [])
  {
    WrappedAckIsRefused(c, s);
    Regroup([], []);
  }
}
