/**
 One TCP connection: the state machine, the timers and the receive ring.

 Conn is the abstract state of a connection, with the receive ring as the
 sequence of bytes it holds. The functions on Conn say what each kernel entry
 point does to it and which segments it hands to the IP layer. Class
 Connection is the kernel's own block, ring included, and every method is
 proved to do what its function says.
 */
module Tcp {
  import opened Words
  import Rings

  const RECV_BUF_SIZE: nat := 4096
  const MSS: nat := 1460
  const RETRANSMIT_MS: nat := 3000
  const MAX_RETRIES: nat := 5
  const TIME_WAIT_MS: nat := 5000

  datatype State =
    | Closed | Listen | SynSent | SynReceived | Established
    | FinWait1 | FinWait2 | CloseWait | Closing | LastAck | TimeWait

  datatype Flags = Flags(fin: bool, syn: bool, rst: bool, psh: bool, ack: bool)

  const ACK := Flags(false, false, false, false, true)
  const PSH_ACK := Flags(false, false, false, true, true)
  const SYN := Flags(false, true, false, false, false)
  const SYN_ACK := Flags(false, true, false, false, true)
  const FIN_ACK := Flags(true, false, false, false, true)

  /** A parsed segment, in host byte order. */
  datatype Segment = Segment(srcPort: uint16, dstPort: uint16, seqNum: uint32, ackNum: uint32,
                             flags: Flags, window: uint16, payload: seq<byte>)

  datatype Conn = Conn(localPort: uint16, remoteIp: uint32, remotePort: uint16, state: State,
                       sndUna: uint32, sndNxt: uint32, sndIss: uint32,
                       rcvNxt: uint32, rcvIrs: uint32,
                       rx: seq<byte>, lastSend: uint64, retries: nat, timeWait: uint64)
  {
    predicate Wf() {
      |rx| <= RECV_BUF_SIZE
    }
  }

  // ---------------------------------------------------------------- sending

  /** tcp_send_segment: nothing happens on an interface that is not configured. */
  function Emit(c: Conn, cfg: bool, flags: Flags, data: seq<byte>, now: uint64): (r: (Conn, seq<Segment>))
    requires c.Wf() && |data| <= MSS
    ensures r.0.Wf()
  {
    if !cfg then (c, []) else
    var s := Segment(c.localPort, c.remotePort, c.sndNxt, if flags.ack then c.rcvNxt else 0,
                     flags, RECV_BUF_SIZE - |c.rx|, data);
    var used := |data| + if flags.syn || flags.fin then 1 else 0;
    (c.(sndNxt := Add32(c.sndNxt, used), lastSend := now), [s])
  }

  /** tcp_connect on a free slot; the caller has checked the configuration. */
  function Connect(dstIp: uint32, dstPort: uint16, srcPort: uint16, isn: uint32, now: uint64): (Conn, seq<Segment>) {
    Emit(Conn(srcPort, dstIp, dstPort, SynSent, isn, isn, isn, 0, 0, [], 0, 0, 0), true, SYN, [], now)
  }

  function Listening(port: uint16): Conn {
    Conn(port, 0, 0, Listen, 0, 0, 0, 0, 0, [], 0, 0, 0)
  }

  /** The bytes that one tcp_send call takes from its argument. */
  function Clamped(data: seq<byte>): seq<byte> {
    data[..Min(|data|, MSS)]
  }

  function Send(c: Conn, data: seq<byte>, cfg: bool, now: uint64): (Conn, seq<Segment>)
    requires c.Wf()
  {
    if c.state != Established || data == [] then (c, [])
    else Emit(c, cfg, PSH_ACK, Clamped(data), now)
  }

  predicate Readable(s: State) {
    s in {Established, CloseWait, FinWait1, FinWait2}
  }

  /** tcp_read: the bytes handed to the caller, oldest first. */
  function Read(c: Conn, size: nat): (r: (Conn, seq<byte>))
    requires c.Wf()
    ensures r.0.Wf()
    ensures r.1 + r.0.rx == c.rx
  {
    if !Readable(c.state) then (c, []) else
    var n := Min(size, |c.rx|);
    (c.(rx := c.rx[n..]), c.rx[..n])
  }

  function Close(c: Conn, cfg: bool, now: uint64): (Conn, seq<Segment>)
    requires c.Wf()
  {
    match c.state
    case Established => Emit(c.(state := FinWait1, retries := 0), cfg, FIN_ACK, [], now)
    case CloseWait => Emit(c.(state := LastAck, retries := 0), cfg, FIN_ACK, [], now)
    case Listen => (c.(state := Closed), [])
    case SynSent => (c.(state := Closed), [])
    case _ => (c, [])
  }

  // -------------------------------------------------------------- receiving

  /** tcp_find_conn when the table holds this connection and no other. */
  predicate Matches(c: Conn, srcIp: uint32, seg: Segment) {
    && c.state != Closed
    && c.localPort == seg.dstPort
    && ((c.remotePort == seg.srcPort && c.remoteIp == srcIp) || c.state == Listen)
  }

  /** The connection a listener becomes for the sender of a SYN. */
  function Accepted(c: Conn, srcIp: uint32, seg: Segment, isn: uint32): Conn {
    c.(remoteIp := srcIp, remotePort := seg.srcPort,
       rcvIrs := seg.seqNum, rcvNxt := Add32(seg.seqNum, 1),
       sndIss := isn, sndNxt := isn, sndUna := isn,
       state := SynReceived, retries := 0)
  }

  function OnListen(c: Conn, srcIp: uint32, seg: Segment, cfg: bool, now: uint64, isn: uint32): (Conn, seq<Segment>)
    requires c.Wf()
  {
    if !seg.flags.syn then (c, [])
    else Emit(Accepted(c, srcIp, seg, isn), cfg, SYN_ACK, [], now)
  }

  function OnSynSent(c: Conn, seg: Segment, cfg: bool, now: uint64): (Conn, seq<Segment>)
    requires c.Wf()
  {
    var c1 := c.(rcvIrs := seg.seqNum, rcvNxt := Add32(seg.seqNum, 1));
    if seg.flags.syn && seg.flags.ack then
      if seg.ackNum != c.sndNxt then (c, [])
      else Emit(c1.(sndUna := seg.ackNum, state := Established, retries := 0), cfg, ACK, [], now)
    else if seg.flags.syn then
      Emit(c1.(state := SynReceived), cfg, SYN_ACK, [], now)
    else (c, [])
  }

  /** The acknowledgement part of the ESTABLISHED case; the comparison is the plain 32-bit one. */
  function TakeAck(c: Conn, seg: Segment): Conn {
    if seg.flags.ack && seg.ackNum > c.sndUna then c.(sndUna := seg.ackNum, retries := 0) else c
  }

  /** The data part: an in-order payload is stored as far as the ring has room. */
  function TakeData(c: Conn, seg: Segment, cfg: bool, now: uint64): (r: (Conn, seq<Segment>))
    requires c.Wf()
    ensures r.0.Wf()
  {
    if seg.payload == [] || seg.seqNum != c.rcvNxt then (c, []) else
    var n := Min(|seg.payload|, RECV_BUF_SIZE - |c.rx|);
    Emit(c.(rx := c.rx + seg.payload[..n], rcvNxt := Add32(c.rcvNxt, n)), cfg, ACK, [], now)
  }

  /** The FIN part; it does not ask whether the FIN is in order. */
  function TakeFin(c: Conn, seg: Segment, cfg: bool, now: uint64): (r: (Conn, seq<Segment>))
    requires c.Wf()
    ensures r.0.Wf()
  {
    if !seg.flags.fin then (c, [])
    else Emit(c.(rcvNxt := Add32(seg.seqNum, |seg.payload| + 1), state := CloseWait), cfg, ACK, [], now)
  }

  function OnEstablished(c: Conn, seg: Segment, cfg: bool, now: uint64): (Conn, seq<Segment>)
    requires c.Wf()
  {
    var (c1, out1) := TakeData(TakeAck(c, seg), seg, cfg, now);
    var (c2, out2) := TakeFin(c1, seg, cfg, now);
    (c2, out1 + out2)
  }

  /** Any closing state that answers a FIN: acknowledge it and change state. */
  function AnswerFin(c: Conn, seg: Segment, next: State, cfg: bool, now: uint64): (Conn, seq<Segment>)
    requires c.Wf()
  {
    var c1 := c.(rcvNxt := Add32(seg.seqNum, 1), state := next);
    Emit(if next == TimeWait then c1.(timeWait := now) else c1, cfg, ACK, [], now)
  }

  function OnFinWait1(c: Conn, seg: Segment, cfg: bool, now: uint64): (Conn, seq<Segment>)
    requires c.Wf()
  {
    if seg.flags.ack then
      if seg.ackNum != c.sndNxt then (c, [])
      else if seg.flags.fin then AnswerFin(c.(sndUna := seg.ackNum), seg, TimeWait, cfg, now)
      else (c.(sndUna := seg.ackNum, state := FinWait2), [])
    else if seg.flags.fin then AnswerFin(c, seg, Closing, cfg, now)
    else (c, [])
  }

  /** SYN_RECEIVED and the states after the own FIN was acknowledged. */
  function OnOtherState(c: Conn, seg: Segment, cfg: bool, now: uint64): (Conn, seq<Segment>)
    requires c.Wf()
  {
    match c.state
    case SynReceived =>
      if seg.flags.ack && seg.ackNum == c.sndNxt
      then (c.(sndUna := seg.ackNum, state := Established, retries := 0), []) else (c, [])
    case FinWait2 => if seg.flags.fin then AnswerFin(c, seg, TimeWait, cfg, now) else (c, [])
    case Closing =>
      if seg.flags.ack && seg.ackNum == c.sndNxt
      then (c.(sndUna := seg.ackNum, state := TimeWait, timeWait := now), []) else (c, [])
    case LastAck =>
      if seg.flags.ack && seg.ackNum == c.sndNxt then (c.(state := Closed), []) else (c, [])
    case TimeWait =>
      if seg.flags.fin
      then var (c1, out) := Emit(c, cfg, ACK, [], now); (c1.(timeWait := now), out) else (c, [])
    case _ => (c, [])
  }

  /** tcp_recv for a segment of at least a header's length. */
  function Receive(c: Conn, srcIp: uint32, seg: Segment, cfg: bool, now: uint64, isn: uint32): (r: (Conn, seq<Segment>))
    requires c.Wf()
    ensures r.0.Wf()
  {
    if !Matches(c, srcIp, seg) then (c, [])
    else if seg.flags.rst then (c.(state := Closed), [])
    else if c.state == Listen then OnListen(c, srcIp, seg, cfg, now, isn)
    else if c.state == SynSent then OnSynSent(c, seg, cfg, now)
    else if c.state == Established then OnEstablished(c, seg, cfg, now)
    else if c.state == FinWait1 then OnFinWait1(c, seg, cfg, now)
    else OnOtherState(c, seg, cfg, now)
  }

  // ----------------------------------------------------------------- timers

  predicate Opening(s: State) { s == SynSent || s == SynReceived }

  predicate Finishing(s: State) { s == FinWait1 || s == LastAck }

  predicate Expired(c: Conn, now: uint64) {
    Sub64(now, c.lastSend) >= RETRANSMIT_MS
  }

  function Tick(c: Conn, cfg: bool, now: uint64): (r: (Conn, seq<Segment>))
    requires c.Wf()
    ensures r.0.Wf()
  {
    if Opening(c.state) && Expired(c, now) then
      if c.retries >= MAX_RETRIES then (c.(state := Closed), [])
      else Emit(c.(retries := c.retries + 1, sndNxt := c.sndIss), cfg,
                if c.state == SynSent then SYN else SYN_ACK, [], now)
    else if Finishing(c.state) && Expired(c, now) then
      if c.retries >= MAX_RETRIES then (c.(state := Closed), [])
      else Emit(c.(retries := c.retries + 1, sndNxt := Add32(c.sndNxt, -1)), cfg, FIN_ACK, [], now)
    else if c.state == TimeWait && Sub64(now, c.timeWait) >= TIME_WAIT_MS then (c.(state := Closed), [])
    else (c, [])
  }

  /** A sequence of timer calls with no segment arriving in between. */
  function Ticks(c: Conn, cfg: bool, times: seq<uint64>): (r: Conn)
    requires c.Wf()
    ensures r.Wf()
    decreases |times|
  {
    if times == [] then c else Ticks(Tick(c, cfg, times[0]).0, cfg, times[1..])
  }

  /** How many of those calls find the retransmission timer expired, as long as each expiry restarts it. */
  function Expiries(last: uint64, times: seq<uint64>): nat
    decreases |times|
  {
    if times == [] then 0
    else if Sub64(times[0], last) >= RETRANSMIT_MS then 1 + Expiries(times[0], times[1..])
    else Expiries(last, times[1..])
  }

  /** A connection whose SYN, SYN+ACK or FIN is out and unanswered. */
  predicate Waiting(c: Conn) {
    || (Opening(c.state) && c.sndNxt == Add32(c.sndIss, 1))
    || Finishing(c.state)
  }

  /** One timer call on a waiting connection: an expiry costs a retry, or the connection. */
  lemma TickWaiting(c: Conn, now: uint64)
    requires c.Wf() && Waiting(c)
    ensures var d := Tick(c, true, now).0;
      if !Expired(c, now) then d == c
      else if c.retries >= MAX_RETRIES then d == c.(state := Closed)
      else d == c.(retries := c.retries + 1, lastSend := now)
  {
  }

  /**
   The timer closes a connection that hears nothing at the sixth expiry
   (counted from retries = 0) and not before. Until then the state stays, each
   expiry costs one retry and no retransmission moves snd_nxt.
   */
  lemma {:induction false} SilentConnectionCloses(c: Conn, times: seq<uint64>)
    requires c.Wf() && Waiting(c) && c.retries <= MAX_RETRIES
    ensures var n, d := Expiries(c.lastSend, times), Ticks(c, true, times);
      && (n > MAX_RETRIES - c.retries <==> d.state == Closed)
      && (n <= MAX_RETRIES - c.retries ==> d.state == c.state && d.retries == c.retries + n)
      && d.sndNxt == c.sndNxt && d.retries <= MAX_RETRIES
    decreases |times|
  {
    if times != [] {
      TickWaiting(c, times[0]);
      var c1 := Tick(c, true, times[0]).0;
      if c1.state == Closed {
        ClosedStays(c1, times[1..]);
      } else {
        SilentConnectionCloses(c1, times[1..]);
      }
    }
  }

  lemma {:induction false} ClosedStays(c: Conn, times: seq<uint64>)
    requires c.Wf() && c.state == Closed
    ensures Ticks(c, true, times) == c
    decreases |times|
  {
    if times != [] { ClosedStays(c, times[1..]); }
  }

  /**
   On an interface that is not configured a retransmission sends nothing, and
   it leaves snd_nxt behind: exactly a configured interface keeps it.
   */
  lemma RetransmissionKeepsSndNxt(c: Conn, cfg: bool, now: uint64)
    requires c.Wf() && Waiting(c) && Expired(c, now) && c.retries < MAX_RETRIES
    ensures Tick(c, cfg, now).0.sndNxt == c.sndNxt <==> cfg
    ensures |Tick(c, cfg, now).1| == 1 <==> cfg
  {
  }

  // ------------------------------------------------------- local guarantees

  /**
   The window a segment advertises never exceeds the free room of the ring, and
   what is advertised after data was stored is exactly that room.
   */
  lemma WindowIsRoom(c: Conn, srcIp: uint32, seg: Segment, cfg: bool, now: uint64, isn: uint32)
    requires c.Wf()
    ensures var (d, out) := Receive(c, srcIp, seg, cfg, now, isn);
      forall s <- out :: s.window == RECV_BUF_SIZE - |d.rx| && s.payload == [] && s.flags.ack
  {
  }

  /** A FIN in ESTABLISHED moves rcv_nxt on by just its own number exactly if it arrives in order. */
  lemma FinMovesByOneIff(c: Conn, srcIp: uint32, seg: Segment, cfg: bool, now: uint64, isn: uint32)
    requires c.Wf() && c.state == Established && Matches(c, srcIp, seg)
    requires seg.flags == FIN_ACK && seg.payload == []
    ensures Receive(c, srcIp, seg, cfg, now, isn).0.rx == c.rx
    ensures Receive(c, srcIp, seg, cfg, now, isn).0.rcvNxt == Add32(c.rcvNxt, 1) <==> seg.seqNum == c.rcvNxt
  {
  }

  /** Distance from a to b going up, modulo 2^32. */
  function Ahead(a: uint32, b: uint32): uint32 { (b - a) % 0x1_0000_0000 }

  /**
   ESTABLISHED compares acknowledgement numbers as plain integers. For a number
   that acknowledges something new (it lies after snd_una and not after
   snd_nxt, modulo 2^32) the acknowledgement is taken exactly if the interval
   from snd_una to it does not wrap.
   */
  lemma NewAckIsTakenIff(c: Conn, seg: Segment)
    requires seg.flags.ack
    requires 0 < Ahead(c.sndUna, seg.ackNum) <= Ahead(c.sndUna, c.sndNxt)
    ensures TakeAck(c, seg).sndUna == seg.ackNum <==> c.sndUna + Ahead(c.sndUna, seg.ackNum) < 0x1_0000_0000
  {
  }

  /** A wrapping interval occurs: snd_una at 2^32 - 1, one byte in flight, and its acknowledgement refused. */
  lemma WrappedAckIsRefused(c: Conn, seg: Segment)
    requires c.sndUna == 0xFFFF_FFFF && c.sndNxt == 0 && seg.flags.ack && seg.ackNum == 0
    ensures 0 < Ahead(c.sndUna, seg.ackNum) <= Ahead(c.sndUna, c.sndNxt)
    ensures TakeAck(c, seg) == c && c.sndUna != seg.ackNum
  {
  }

  // ------------------------------------------------------- the kernel block

  class Connection {
    var localPort: uint16
    var remoteIp: uint32
    var remotePort: uint16
    var state: State
    var sndUna: uint32
    var sndNxt: uint32
    var sndIss: uint32
    var rcvNxt: uint32
    var rcvIrs: uint32
    var recvBuf: array<byte>
    var recvHead: nat
    var recvTail: nat
    var recvCount: nat
    ghost var rx: seq<byte>  // what the ring holds
    var lastSend: uint64
    var retries: nat
    var timeWait: uint64

    ghost predicate Valid()
      reads this, recvBuf
    {
      && recvBuf.Length == RECV_BUF_SIZE
      && recvHead < RECV_BUF_SIZE
      && recvCount <= RECV_BUF_SIZE
      && recvTail == Rings.Slot(recvHead, recvCount, RECV_BUF_SIZE)
      && rx == Rings.View(recvBuf[..], recvHead, recvCount)
    }

    ghost function Abs(): Conn
      reads this
    {
      Conn(localPort, remoteIp, remotePort, state, sndUna, sndNxt, sndIss, rcvNxt, rcvIrs,
           rx, lastSend, retries, timeWait)
    }

    constructor ()
      ensures Valid() && fresh(recvBuf)
      ensures state == Closed
    {
      localPort, remoteIp, remotePort, state := 0, 0, 0, Closed;
      sndUna, sndNxt, sndIss, rcvNxt, rcvIrs := 0, 0, 0, 0, 0;
      recvBuf := new byte[RECV_BUF_SIZE](_ => 0);
      recvHead, recvTail, recvCount, rx := 0, 0, 0, [];
      lastSend, retries, timeWait := 0, 0, 0;
    }

    method ClearRing()
      requires recvBuf.Length == RECV_BUF_SIZE
      modifies this`recvHead, this`recvTail, this`recvCount, this`rx, recvBuf
      ensures Valid() && rx == []
    {
      forall i | 0 <= i < recvBuf.Length { recvBuf[i] := 0; }
      recvHead, recvTail, recvCount, rx := 0, 0, 0, [];
      assert Rings.View(recvBuf[..], 0, 0) == [];
    }

    /** The memset that connect and listen start with. */
    method Clear()
      requires Valid()
      modifies this, recvBuf
      ensures Valid() && recvBuf == old(recvBuf)
      ensures Abs() == Conn(0, 0, 0, Closed, 0, 0, 0, 0, 0, [], 0, 0, 0)
    {
      ClearRing();
      localPort, remoteIp, remotePort, state := 0, 0, 0, Closed;
      sndUna, sndNxt, sndIss, rcvNxt, rcvIrs := 0, 0, 0, 0, 0;
      lastSend, retries, timeWait := 0, 0, 0;
    }

    method RecvBufWrite(data: seq<byte>) returns (written: nat)
      requires Valid()
      modifies this`recvTail, this`recvCount, this`rx, recvBuf
      ensures Valid()
      ensures written == Min(|data|, RECV_BUF_SIZE - |old(rx)|)
      ensures rx == old(rx) + data[..written]
    {
      written := 0;
      while written < |data| && recvCount < RECV_BUF_SIZE
        invariant Valid()
        invariant written <= |data| && recvCount == old(recvCount) + written
        invariant rx == old(rx) + data[..written]
      {
        Rings.Push(recvBuf[..], recvHead, recvCount, data[written]);
        ghost var before := recvBuf[..];
        recvBuf[recvTail] := data[written];
        assert recvBuf[..] == before[recvTail := data[written]];
        rx := rx + [data[written]];
        recvTail := (recvTail + 1) % RECV_BUF_SIZE;
        recvCount := recvCount + 1;
        written := written + 1;
      }
    }

    method RecvBufRead(size: nat) returns (bytes: seq<byte>)
      requires Valid()
      modifies this`recvHead, this`recvCount, this`rx
      ensures Valid()
      ensures |bytes| == Min(size, |old(rx)|)
      ensures old(rx) == bytes + rx
    {
      bytes := [];
      while |bytes| < size && recvCount > 0
        invariant Valid()
        invariant |bytes| <= size && old(rx) == bytes + rx
      {
        Rings.Pop(recvBuf[..], recvHead, recvCount);
        Rings.MoveFirst(bytes, rx);
        bytes := bytes + [recvBuf[recvHead]];
        recvHead := (recvHead + 1) % RECV_BUF_SIZE;
        recvCount := recvCount - 1;
        rx := rx[1..];
      }
    }

    /** tcp_send_segment; the result is what reaches ip_send. */
    method SendSegment(flags: Flags, data: seq<byte>, cfg: bool, now: uint64) returns (out: seq<Segment>)
      requires Valid() && |data| <= MSS
      modifies this`sndNxt, this`lastSend
      ensures Valid()
      ensures (Abs(), out) == Emit(old(Abs()), cfg, flags, data, now)
    {
      if !cfg { return []; }
      var ackNum := if flags.ack then rcvNxt else 0;
      out := [Segment(localPort, remotePort, sndNxt, ackNum, flags, RECV_BUF_SIZE - recvCount, data)];
      sndNxt := Add32(sndNxt, |data|);
      if flags.syn || flags.fin { sndNxt := Add32(sndNxt, 1); }
      lastSend := now;
    }

    method ActiveOpen(dstIp: uint32, dstPort: uint16, srcPort: uint16, isn: uint32, now: uint64) returns (out: seq<Segment>)
      requires Valid()
      modifies this, recvBuf
      ensures Valid() && recvBuf == old(recvBuf)
      ensures (Abs(), out) == Connect(dstIp, dstPort, srcPort, isn, now)
    {
      Clear();
      localPort, remoteIp, remotePort := srcPort, dstIp, dstPort;
      sndIss, sndNxt, sndUna := isn, isn, isn;
      state, retries := SynSent, 0;
      out := SendSegment(SYN, [], true, now);
    }

    method PassiveOpen(port: uint16)
      requires Valid()
      modifies this, recvBuf
      ensures Valid() && recvBuf == old(recvBuf)
      ensures Abs() == Listening(port)
    {
      Clear();
      localPort, state := port, Listen;
    }

    method SendData(data: seq<byte>, cfg: bool, now: uint64) returns (out: seq<Segment>)
      requires Valid()
      modifies this`sndNxt, this`lastSend
      ensures Valid()
      ensures (Abs(), out) == Send(old(Abs()), data, cfg, now)
    {
      if state != Established { return []; }
      if |data| == 0 { return []; }
      var len := if |data| > MSS then MSS else |data|;
      out := SendSegment(PSH_ACK, data[..len], cfg, now);
    }

    method ReadData(size: nat) returns (bytes: seq<byte>)
      requires Valid()
      modifies this`recvHead, this`recvCount, this`rx
      ensures Valid()
      ensures (Abs(), bytes) == Read(old(Abs()), size)
    {
      if !Readable(state) || recvCount == 0 { return []; }
      bytes := RecvBufRead(size);
    }

    method Shutdown(cfg: bool, now: uint64) returns (out: seq<Segment>)
      requires Valid()
      modifies this`state, this`retries, this`sndNxt, this`lastSend
      ensures Valid()
      ensures (Abs(), out) == Close(old(Abs()), cfg, now)
    {
      out := [];
      match state
      case Established =>
        state, retries := FinWait1, 0;
        out := SendSegment(FIN_ACK, [], cfg, now);
      case CloseWait =>
        state, retries := LastAck, 0;
        out := SendSegment(FIN_ACK, [], cfg, now);
      case Listen => state := Closed;
      case SynSent => state := Closed;
      case _ =>
    }

    method InListen(srcIp: uint32, seg: Segment, cfg: bool, now: uint64, isn: uint32) returns (out: seq<Segment>)
      requires Valid()
      modifies this
      ensures Valid() && recvBuf == old(recvBuf)
      ensures (Abs(), out) == OnListen(old(Abs()), srcIp, seg, cfg, now, isn)
    {
      out := [];
      if seg.flags.syn {
        Accept(srcIp, seg, isn);
        out := SendSegment(SYN_ACK, [], cfg, now);
      }
    }

    method Accept(srcIp: uint32, seg: Segment, isn: uint32)
      modifies this`remoteIp, this`remotePort, this`rcvIrs, this`rcvNxt, this`sndIss, this`sndNxt, this`sndUna, this`state, this`retries
      ensures Abs() == Accepted(old(Abs()), srcIp, seg, isn)
    {
      remoteIp, remotePort := srcIp, seg.srcPort;
      rcvIrs, rcvNxt := seg.seqNum, Add32(seg.seqNum, 1);
      sndIss, sndNxt, sndUna := isn, isn, isn;
      state, retries := SynReceived, 0;
    }

    method InSynSent(seg: Segment, cfg: bool, now: uint64) returns (out: seq<Segment>)
      requires Valid()
      modifies this
      ensures Valid() && recvBuf == old(recvBuf)
      ensures (Abs(), out) == OnSynSent(old(Abs()), seg, cfg, now)
    {
      hide Add32, Rings.View, Rings.Slot;
      out := [];
      if seg.flags.syn && seg.flags.ack {
        if seg.ackNum == sndNxt {
          rcvIrs, rcvNxt, sndUna := seg.seqNum, Add32(seg.seqNum, 1), seg.ackNum;
          state, retries := Established, 0;
          out := SendSegment(ACK, [], cfg, now);
        }
      } else if seg.flags.syn {
        rcvIrs, rcvNxt, state := seg.seqNum, Add32(seg.seqNum, 1), SynReceived;
        out := SendSegment(SYN_ACK, [], cfg, now);
      }
    }

    method InEstablished(seg: Segment, cfg: bool, now: uint64) returns (out: seq<Segment>)
      requires Valid()
      modifies this, recvBuf
      ensures Valid() && recvBuf == old(recvBuf)
      ensures (Abs(), out) == OnEstablished(old(Abs()), seg, cfg, now)
    {
      if seg.flags.ack {
        if seg.ackNum > sndUna { sndUna, retries := seg.ackNum, 0; }
      }
      ghost var c0 := Abs();
      assert c0 == TakeAck(old(Abs()), seg);
      out := StoreData(seg, cfg, now);
      ghost var c1 := Abs();
      if seg.flags.fin {
        rcvNxt, state := Add32(seg.seqNum, |seg.payload| + 1), CloseWait;
        var more := SendSegment(ACK, [], cfg, now);
        assert (Abs(), more) == TakeFin(c1, seg, cfg, now);
        out := out + more;
      } else {
        assert out == out + [];
      }
    }

    method StoreData(seg: Segment, cfg: bool, now: uint64) returns (out: seq<Segment>)
      requires Valid()
      modifies this, recvBuf
      ensures Valid() && recvBuf == old(recvBuf)
      ensures (Abs(), out) == TakeData(old(Abs()), seg, cfg, now)
    {
      out := [];
      if |seg.payload| > 0 {
        if seg.seqNum == rcvNxt {
          var written := RecvBufWrite(seg.payload);
          rcvNxt := Add32(rcvNxt, written);
          out := SendSegment(ACK, [], cfg, now);
        }
      }
    }

    method InFinWait1(seg: Segment, cfg: bool, now: uint64) returns (out: seq<Segment>)
      requires Valid()
      modifies this
      ensures Valid() && recvBuf == old(recvBuf)
      ensures (Abs(), out) == OnFinWait1(old(Abs()), seg, cfg, now)
    {
      out := [];
      if seg.flags.ack {
        if seg.ackNum == sndNxt {
          sndUna := seg.ackNum;
          if seg.flags.fin {
            rcvNxt, state, timeWait := Add32(seg.seqNum, 1), TimeWait, now;
            out := SendSegment(ACK, [], cfg, now);
          } else {
            state := FinWait2;
          }
        }
      } else if seg.flags.fin {
        rcvNxt, state := Add32(seg.seqNum, 1), Closing;
        out := SendSegment(ACK, [], cfg, now);
      }
    }

    /** SYN_RECEIVED and the states after the own FIN was acknowledged. */
    method InOtherState(seg: Segment, cfg: bool, now: uint64) returns (out: seq<Segment>)
      requires Valid()
      modifies this
      ensures Valid() && recvBuf == old(recvBuf)
      ensures (Abs(), out) == OnOtherState(old(Abs()), seg, cfg, now)
    {
      out := [];
      match state
      case SynReceived =>
        if seg.flags.ack {
          if seg.ackNum == sndNxt { sndUna, state, retries := seg.ackNum, Established, 0; }
        }
      case FinWait2 =>
        if seg.flags.fin {
          rcvNxt, state, timeWait := Add32(seg.seqNum, 1), TimeWait, now;
          out := SendSegment(ACK, [], cfg, now);
        }
      case Closing =>
        if seg.flags.ack && seg.ackNum == sndNxt {
          sndUna, state, timeWait := seg.ackNum, TimeWait, now;
        }
      case LastAck =>
        if seg.flags.ack && seg.ackNum == sndNxt { state := Closed; }
      case TimeWait =>
        if seg.flags.fin {
          out := SendSegment(ACK, [], cfg, now);
          timeWait := now;
        }
      case _ =>
    }

    /** tcp_recv once the table lookup has named this connection. */
    method Recv(srcIp: uint32, seg: Segment, cfg: bool, now: uint64, isn: uint32) returns (out: seq<Segment>)
      requires Valid()
      modifies this, recvBuf
      ensures Valid() && recvBuf == old(recvBuf)
      ensures (Abs(), out) == Receive(old(Abs()), srcIp, seg, cfg, now, isn)
    {
      if state == Closed || localPort != seg.dstPort { return []; }
      if !(remotePort == seg.srcPort && remoteIp == srcIp) && state != Listen { return []; }
      if seg.flags.rst { state := Closed; return []; }
      if state == Listen {
        out := InListen(srcIp, seg, cfg, now, isn);
      } else if state == SynSent {
        out := InSynSent(seg, cfg, now);
      } else if state == Established {
        out := InEstablished(seg, cfg, now);
      } else if state == FinWait1 {
        out := InFinWait1(seg, cfg, now);
      } else {
        out := InOtherState(seg, cfg, now);
      }
    }

    /** One connection's turn in tcp_tick. */
    method TimerTick(cfg: bool, now: uint64) returns (out: seq<Segment>)
      requires Valid()
      modifies this`state, this`retries, this`sndNxt, this`lastSend
      ensures Valid()
      ensures (Abs(), out) == Tick(old(Abs()), cfg, now)
    {
      hide Add32, Sub64, Rings.View, Rings.Slot;
      out := [];
      if state == SynSent || state == SynReceived {
        if Sub64(now, lastSend) >= RETRANSMIT_MS {
          if retries >= MAX_RETRIES {
            state := Closed;
          } else {
            retries := retries + 1;
            sndNxt := sndIss;
            if state == SynSent {
              out := SendSegment(SYN, [], cfg, now);
            } else {
              out := SendSegment(SYN_ACK, [], cfg, now);
            }
          }
        }
      } else if state == FinWait1 || state == LastAck {
        if Sub64(now, lastSend) >= RETRANSMIT_MS {
          if retries >= MAX_RETRIES {
            state := Closed;
          } else {
            retries := retries + 1;
            sndNxt := Add32(sndNxt, -1);
            out := SendSegment(FIN_ACK, [], cfg, now);
          }
        }
      } else if state == TimeWait {
        if Sub64(now, timeWait) >= TIME_WAIT_MS { state := Closed; }
      }
    }
  }
}
