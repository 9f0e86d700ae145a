/**
 One message queue: a ring of 32 messages and two stacks of blocked tasks. The
 functions give the effect of each call up to the point where it returns or
 switches away; class MessageQueue does the same in place.
 */
module Ipc {
  import opened Words
  import Rings

  const CAPACITY: nat := 32
  const MAX_SIZE: nat := 256
  const MAX_TASKS: nat := 32

  type Payload = p: seq<byte> | |p| == 256 witness seq(256, _ => 0)

  datatype Message = Message(sender: uint16, kind: uint16, length: uint16, payload: Payload)

  /** What a sender asks to be sent; None is a null data pointer. */
  datatype Request = Request(kind: uint16, data: Option<seq<byte>>, len: uint16)

  /** The data pointer leads to as many bytes as will be copied. */
  predicate Backed(r: Request) {
    r.data.Some? ==> |r.data.value| >= Min(r.len, MAX_SIZE)
  }

  type Sendable = r: Request | Backed(r) witness Request(0, None, 0)

  datatype Queue = Queue(
    active: bool, ring: seq<Message>, head: nat, tail: nat, count: nat,
    senders: seq<int>, receivers: seq<int>, sent: uint64, received: uint64)

  predicate Sound(q: Queue) {
    && |q.ring| == CAPACITY && q.head < CAPACITY && q.count <= CAPACITY
    && q.tail == Rings.Slot(q.head, q.count, CAPACITY)
    && |q.senders| <= MAX_TASKS && |q.receivers| <= MAX_TASKS
  }

  /** The messages waiting in the queue, oldest first. */
  ghost function Pending(q: Queue): seq<Message>
    requires Sound(q)
  {
    Rings.View(q.ring, q.head, q.count)
  }

  function Next64(n: uint64): uint64 {
    (n + 1) % 0x1_0000_0000_0000_0000
  }

  // ------------------------------------------------------------- the effects

  /** The ring slot after a message has been written over it. */
  function Filled(slot: Message, sender: uint16, r: Sendable): Message {
    var n := Min(r.len, MAX_SIZE);
    var payload := if r.data.Some? then r.data.value[..n] + slot.payload[n..] else slot.payload;
    Message(sender, r.kind, n, payload)
  }

  /** The receiver gets at most 256 bytes, and these are the sender's whenever the sender gave any. */
  lemma FilledCarriesData(slot: Message, sender: uint16, r: Sendable)
    ensures
      var m := Filled(slot, sender, r);
      m.sender == sender && m.kind == r.kind && m.length == Min(r.len, MAX_SIZE)
    ensures
      var m := Filled(slot, sender, r);
      r.data.Some? ==> m.payload[..m.length] == r.data.value[..m.length]
    ensures
      var m := Filled(slot, sender, r);
      m.payload[..m.length] == slot.payload[..m.length] <==>
        r.data == None || r.data.value[..m.length] == slot.payload[..m.length]
  {
    var m := Filled(slot, sender, r);
    if r.data.Some? { assert m.payload[..m.length] == r.data.value[..m.length]; }
  }

  /** A blocked list without its newest entry, and that entry. */
  function TakeLast(list: seq<int>): (seq<int>, Option<int>) {
    if list == [] then ([], None) else (list[..|list| - 1], Some(list[|list| - 1]))
  }

  /** A blocked list after one more task has entered itself, if there is room. */
  function Listed(list: seq<int>, tid: int): seq<int> {
    if |list| < MAX_TASKS then list + [tid] else list
  }

  function Enqueue(q: Queue, sender: uint16, r: Sendable): (Queue, Option<int>)
    requires Sound(q) && q.count < CAPACITY
  {
    var (receivers, woken) := TakeLast(q.receivers);
    (q.(ring := q.ring[q.tail := Filled(q.ring[q.tail], sender, r)],
        tail := Rings.Slot(q.tail, 1, CAPACITY), count := q.count + 1,
        sent := Next64(q.sent), receivers := receivers),
     woken)
  }

  function Dequeue(q: Queue): (Queue, Message, Option<int>)
    requires Sound(q) && q.count > 0
  {
    var (senders, woken) := TakeLast(q.senders);
    (q.(head := Rings.Slot(q.head, 1, CAPACITY), count := q.count - 1,
        received := Next64(q.received), senders := senders),
     q.ring[q.head],
     woken)
  }

  /** How a call, or the part of it up to the next switch, ends. */
  datatype Outcome = Sent | Got(message: Message) | Failed | Asleep

  /** ipc_send from its start, or from its return out of sched_block, to its end or to the switch. */
  function Send(q: Queue, tid: uint16, r: Sendable): (Queue, Outcome, Option<int>)
    requires Sound(q)
  {
    if !q.active then (q, Failed, None)
    else if q.count >= CAPACITY then (q.(senders := Listed(q.senders, tid)), Asleep, None)
    else
      var (q', woken) := Enqueue(q, tid, r);
      (q', Sent, woken)
  }

  function Recv(q: Queue, tid: uint16): (Queue, Outcome, Option<int>)
    requires Sound(q)
  {
    if !q.active then (q, Failed, None)
    else if q.count == 0 then (q.(receivers := Listed(q.receivers, tid)), Asleep, None)
    else
      var (q', m, woken) := Dequeue(q);
      (q', Got(m), woken)
  }

  function TrySend(q: Queue, tid: uint16, r: Sendable): (Queue, Outcome, Option<int>)
    requires Sound(q)
  {
    if !q.active || q.count >= CAPACITY then (q, Failed, None)
    else
      var (q', woken) := Enqueue(q, tid, r);
      (q', Sent, woken)
  }

  function TryRecv(q: Queue): (Queue, Outcome, Option<int>)
    requires Sound(q)
  {
    if !q.active || q.count == 0 then (q, Failed, None)
    else
      var (q', m, woken) := Dequeue(q);
      (q', Got(m), woken)
  }

  /** A free slot turned into a fresh queue; the old messages stay in the ring, uncounted. */
  function Created(q: Queue): Queue {
    Queue(true, q.ring, 0, 0, 0, [], [], 0, 0)
  }

  // ------------------------------------------------- effects on the contents

  /** Enqueueing appends the message written. */
  lemma EnqueueAppends(q: Queue, sender: uint16, r: Sendable)
    requires Sound(q) && q.count < CAPACITY
    ensures
      var q' := Enqueue(q, sender, r).0;
      Sound(q') && Pending(q') == Pending(q) + [Filled(q.ring[q.tail], sender, r)]
  {
    Rings.Push(q.ring, q.head, q.count, Filled(q.ring[q.tail], sender, r));
  }

  /** Dequeueing takes the oldest message. */
  lemma DequeueTakesOldest(q: Queue)
    requires Sound(q) && q.count > 0
    ensures
      var (q', m, _) := Dequeue(q);
      Sound(q') && Pending(q) == [m] + Pending(q')
  {
    Rings.Pop(q.ring, q.head, q.count);
  }

  // --------------------------------------------------------------- in place

  /** Copies the sender's bytes over a slot's payload, unless there are none to copy. */
  method Copied(was: Payload, r: Sendable) returns (payload: Payload)
    ensures forall sender, slot: Message :: slot.payload == was ==> payload == Filled(slot, sender, r).payload
  {
    payload := was;
    var len := Min(r.len, MAX_SIZE);
    if r.data.Some? && len > 0 {
      var i := 0;
      while i < len
        invariant 0 <= i <= len
        invariant payload == r.data.value[..i] + was[i..]
      {
        payload := payload[i := r.data.value[i]];
        i := i + 1;
      }
    }
  }

  class MessageQueue {
    var active: bool
    const ring: array<Message>
    var head: nat
    var tail: nat
    var count: nat
    const senders: array<int>
    var numSenders: nat
    const receivers: array<int>
    var numReceivers: nat
    var sent: uint64
    var received: uint64

    ghost const Repr: set<object> := {this, ring, senders, receivers}

    ghost predicate Valid() reads this, ring, senders, receivers {
      && ring.Length == CAPACITY && senders.Length == receivers.Length == MAX_TASKS && senders != receivers
      && numSenders <= MAX_TASKS && numReceivers <= MAX_TASKS
      && Sound(Abs())
    }

    ghost function Abs(): Queue
      requires numSenders <= senders.Length && numReceivers <= receivers.Length
      reads this, ring, senders, receivers
    {
      Queue(active, ring[..], head, tail, count, senders[..numSenders], receivers[..numReceivers], sent, received)
    }

    constructor ()
      ensures Valid() && fresh(Repr) && !active && count == 0
    {
      active := false;
      ring := new Message[CAPACITY](_ => Message(0, 0, 0, seq(256, _ => 0)));
      head, tail, count := 0, 0, 0;
      senders, numSenders := new int[MAX_TASKS](_ => 0), 0;
      receivers, numReceivers := new int[MAX_TASKS](_ => 0), 0;
      sent, received := 0, 0;
    }

    method Create()
      requires Valid()
      modifies this
      ensures Valid() && Abs() == Created(old(Abs()))
    {
      head, tail, count, numSenders, numReceivers, sent, received := 0, 0, 0, 0, 0, 0, 0;
      active := true;
    }

    /** Closes the queue; woken are the tasks unblocked, in order. */
    method Destroy() returns (woken: seq<int>)
      requires Valid()
      modifies this
      ensures Valid() && Abs() == old(Abs()).(active := false)
      ensures woken == if old(active) then old(Abs()).senders + old(Abs()).receivers else []
    {
      woken := [];
      if !active { return; }
      var i := 0;
      while i < numSenders
        invariant 0 <= i <= numSenders && woken == senders[..i]
      {
        woken := woken + [senders[i]];
        i := i + 1;
      }
      i := 0;
      while i < numReceivers
        invariant 0 <= i <= numReceivers && woken == senders[..numSenders] + receivers[..i]
      {
        woken := woken + [receivers[i]];
        i := i + 1;
      }
      active := false;
    }

    /** Writes the message at the tail slot byte by byte and counts it. */
    method Put(sender: uint16, r: Sendable) returns (woken: Option<int>)
      requires Valid() && count < CAPACITY
      modifies this, ring
      ensures Valid() && (Abs(), woken) == Enqueue(old(Abs()), sender, r)
    {
      var len := Min(r.len, MAX_SIZE);
      var payload := Copied(ring[tail].payload, r);
      ring[tail] := Message(sender, r.kind, len, payload);
      tail := (tail + 1) % CAPACITY;
      count := count + 1;
      sent := Next64(sent);
      woken := None;
      if numReceivers > 0 {
        numReceivers := numReceivers - 1;
        woken := Some(receivers[numReceivers]);
        assert receivers[..numReceivers + 1][..numReceivers] == receivers[..numReceivers];
      }
      EnqueueAppends(old(Abs()), sender, r);
    }

    method Take() returns (m: Message, woken: Option<int>)
      requires Valid() && count > 0
      modifies this
      ensures Valid() && (Abs(), m, woken) == Dequeue(old(Abs()))
    {
      m := ring[head];
      head := (head + 1) % CAPACITY;
      count := count - 1;
      received := Next64(received);
      woken := None;
      if numSenders > 0 {
        numSenders := numSenders - 1;
        woken := Some(senders[numSenders]);
        assert senders[..numSenders + 1][..numSenders] == senders[..numSenders];
      }
      DequeueTakesOldest(old(Abs()));
    }

    /** One pass of ipc_send's loop; the caller runs it again when it has been woken. */
    method SendPass(tid: uint16, r: Sendable) returns (o: Outcome, woken: Option<int>)
      requires Valid()
      modifies this, ring, senders
      ensures Valid() && (Abs(), o, woken) == Send(old(Abs()), tid, r)
    {
      if !active { return Failed, None; }
      if count >= CAPACITY {
        if numSenders < MAX_TASKS {
          senders[numSenders] := tid;
          numSenders := numSenders + 1;
          assert senders[..numSenders] == old(senders[..numSenders]) + [tid as int];
        }
        return Asleep, None;
      }
      woken := Put(tid, r);
      o := Sent;
    }

    method RecvPass(tid: uint16) returns (o: Outcome, woken: Option<int>)
      requires Valid()
      modifies this, receivers
      ensures Valid() && (Abs(), o, woken) == Recv(old(Abs()), tid)
    {
      if !active { return Failed, None; }
      if count == 0 {
        if numReceivers < MAX_TASKS {
          receivers[numReceivers] := tid;
          numReceivers := numReceivers + 1;
          assert receivers[..numReceivers] == old(receivers[..numReceivers]) + [tid as int];
        }
        return Asleep, None;
      }
      var m;
      m, woken := Take();
      o := Got(m);
    }

    method TrySending(tid: uint16, r: Sendable) returns (o: Outcome, woken: Option<int>)
      requires Valid()
      modifies this, ring
      ensures Valid() && (Abs(), o, woken) == TrySend(old(Abs()), tid, r)
    {
      if !active { return Failed, None; }
      if count >= CAPACITY { return Failed, None; }
      woken := Put(tid, r);
      o := Sent;
    }

    method TryReceiving() returns (o: Outcome, woken: Option<int>)
      requires Valid()
      modifies this
      ensures Valid() && (Abs(), o, woken) == TryRecv(old(Abs()))
    {
      if !active { return Failed, None; }
      if count == 0 { return Failed, None; }
      var m;
      m, woken := Take();
      o := Got(m);
    }

    /** Reads the oldest message without taking it. */
    method Peek() returns (o: Outcome)
      requires Valid()
      ensures o == if active && count > 0 then Got(Pending(Abs())[0]) else Failed
    {
      if !active { return Failed; }
      if count == 0 { return Failed; }
      o := Got(ring[head]);
    }
  }
}
