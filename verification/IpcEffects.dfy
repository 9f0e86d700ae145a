/**
 What the calls on a message queue give their callers: when a send or a receive
 succeeds, which message comes out, and how a sleeping receiver or sender gets
 its turn.
 */
module IpcEffects {
  import opened Words
  import opened Ipc
  import opened IpcRuns
  import Rings

  // -------------------------------------------------------------- single calls

  /** The message says what the request asked for. */
  predicate Carries(m: Message, tid: uint16, r: Sendable) {
    && m.sender == tid && m.kind == r.kind && m.length == Min(r.len, 256)
    && (r.data.Some? ==> m.payload[..m.length] == r.data.value[..m.length])
  }

  /** The queue has the message of the request in it, after all that waited; the newest listed receiver is woken. */
  ghost predicate Accepted(q: Queue, tid: uint16, r: Sendable, g: Queue, woken: Option<int>)
    requires Sound(q)
  {
    && Sound(g) && g.active == q.active && g.senders == q.senders
    && (exists m :: Pending(g) == Pending(q) + [m] && Carries(m, tid, r))
    && (if q.receivers == [] then woken == None && g.receivers == []
        else woken.Some? && q.receivers == g.receivers + [woken.value])
  }

  /** The oldest message has left the queue as m; the newest listed sender is woken. */
  ghost predicate Taken(q: Queue, m: Message, g: Queue, woken: Option<int>)
    requires Sound(q)
  {
    && Sound(g) && g.active == q.active && g.receivers == q.receivers
    && Pending(q) == [m] + Pending(g)
    && (if q.senders == [] then woken == None && g.senders == []
        else woken.Some? && q.senders == g.senders + [woken.value])
  }

  lemma EnqueueAccepts(q: Queue, tid: uint16, r: Sendable)
    requires Sound(q) && q.count < CAPACITY
    ensures var (g, woken) := Enqueue(q, tid, r); Accepted(q, tid, r, g, woken)
  {
    EnqueueAppends(q, tid, r);
    FilledCarriesData(q.ring[q.tail], tid, r);
    var m := Filled(q.ring[q.tail], tid, r);
    var g := Enqueue(q, tid, r).0;
    hide Pending, Filled;
    assert Pending(g) == Pending(q) + [m];
  }

  lemma DequeueTakes(q: Queue)
    requires Sound(q) && q.count > 0
    ensures var (g, m, woken) := Dequeue(q); Taken(q, m, g, woken)
  {
    DequeueTakesOldest(q);
    hide Pending;
  }

  lemma PendingSize(q: Queue)
    requires Sound(q)
    ensures |Pending(q)| == q.count
  {
  }

  /**
   A send succeeds exactly on an active queue with room, and appends the
   message; on an inactive queue it fails; on a full one the blocking call
   lists the task and sleeps, and the other one fails.
   */
  lemma SendEffect(q: Queue, tid: uint16, r: Sendable)
    requires Sound(q)
    ensures var (g, o, woken) := Send(q, tid, r);
      if !q.active then o == Failed && g == q && woken == None
      else if |Pending(q)| < 32 then o == Sent && Accepted(q, tid, r, g, woken)
      else
        && o == Asleep && woken == None && g == q.(senders := g.senders)
        && (|q.senders| < 32 ==> g.senders == q.senders + [tid as int])
    ensures var (g, o, woken) := TrySend(q, tid, r);
      if q.active && |Pending(q)| < 32 then o == Sent && Accepted(q, tid, r, g, woken) else o == Failed && g == q && woken == None
  {
    PendingSize(q);
    if q.count < CAPACITY { EnqueueAccepts(q, tid, r); }
    hide Accepted, Pending, Enqueue;
  }

  /**
   A receive succeeds exactly on an active queue that is not empty, and takes
   the oldest message; on an inactive queue it fails; on an empty one the
   blocking call lists the task and sleeps, and the other one fails.
   */
  lemma RecvEffect(q: Queue, tid: uint16)
    requires Sound(q)
    ensures var (g, o, woken) := Recv(q, tid);
      if !q.active then o == Failed && g == q && woken == None
      else if Pending(q) != [] then o.Got? && Taken(q, o.message, g, woken)
      else
        && o == Asleep && woken == None && g == q.(receivers := g.receivers)
        && (|q.receivers| < 32 ==> g.receivers == q.receivers + [tid as int])
    ensures var (g, o, woken) := TryRecv(q);
      if q.active && Pending(q) != [] then o.Got? && Taken(q, o.message, g, woken) else o == Failed && g == q && woken == None
  {
    PendingSize(q);
    if q.count > 0 { DequeueTakes(q); }
    hide Taken, Pending, Dequeue;
  }

  // ------------------------------------------------------------ bursts of calls

  /** Requests sent one after the other without blocking, as long as they are accepted. */
  function SendAll(q: Queue, tid: uint16, rs: seq<Sendable>): (g: Queue)
    requires Sound(q)
    ensures Sound(g)
    decreases |rs|
  {
    if rs == [] || !TrySend(q, tid, rs[0]).1.Sent? then q
    else
      EnqueueAppends(q, tid, rs[0]);
      SendAll(TrySend(q, tid, rs[0]).0, tid, rs[1..])
  }

  /** Messages received one after the other without blocking, until there are none. */
  function RecvAll(q: Queue): (ms: seq<Message>)
    requires Sound(q)
    decreases q.count
  {
    if !TryRecv(q).1.Got? then []
    else
      DequeueTakesOldest(q);
      [TryRecv(q).1.message] + RecvAll(TryRecv(q).0)
  }

  lemma {:induction false} RecvAllDrains(q: Queue)
    requires Sound(q) && q.active
    ensures RecvAll(q) == Pending(q)
    decreases q.count
  {
    RecvEffect(q, 0);
    PendingSize(q);
    if q.count > 0 {
      var (g, o, woken) := TryRecv(q);
      PendingSize(g);
      hide Pending;
      RecvAllDrains(g);
    }
  }

  lemma SendAppends(q: Queue, tid: uint16, r: Sendable) returns (m: Message)
    requires Sound(q) && q.active && |Pending(q)| < 32
    ensures var (g, o, woken) := TrySend(q, tid, r);
      o == Sent && Sound(g) && g.active && Pending(g) == Pending(q) + [m] && Carries(m, tid, r)
  {
    SendEffect(q, tid, r);
    var g := TrySend(q, tid, r).0;
    hide Pending, Send, TrySend, Sound, Carries;
    m :| Pending(g) == Pending(q) + [m] && Carries(m, tid, r);
  }

  lemma {:induction false} SendAllAppends(q: Queue, tid: uint16, rs: seq<Sendable>) returns (ms: seq<Message>)
    requires Sound(q) && q.active && |Pending(q)| + |rs| <= 32
    ensures |ms| == |rs| && Pending(SendAll(q, tid, rs)) == Pending(q) + ms && SendAll(q, tid, rs).active
    ensures forall i :: 0 <= i < |rs| ==> Carries(ms[i], tid, rs[i])
    decreases |rs|
  {
    if rs == [] {
      ms := [];
    } else {
      var m := SendAppends(q, tid, rs[0]);
      hide Pending, TrySend, Sound, Carries;
      var rest := SendAllAppends(TrySend(q, tid, rs[0]).0, tid, rs[1..]);
      ms := [m] + rest;
      assert Pending(q) + [m] + rest == Pending(q) + ms;
    }
  }

  /** Messages go through the queue in order, whole, up to 32 of them with those that waited already. */
  lemma BurstIsReceived(q: Queue, tid: uint16, rs: seq<Sendable>) returns (ms: seq<Message>)
    requires Sound(q) && q.active && |Pending(q)| + |rs| <= 32
    ensures RecvAll(SendAll(q, tid, rs)) == Pending(q) + ms
    ensures |ms| == |rs| && forall i :: 0 <= i < |rs| ==> Carries(ms[i], tid, rs[i])
  {
    ms := SendAllAppends(q, tid, rs);
    RecvAllDrains(SendAll(q, tid, rs));
  }

  // --------------------------------------------------------- sleepers get a turn

  /** A fresh queue is active and empty; a destroyed one refuses every call, and those who slept return with a failure. */
  lemma CreateAndDestroy(w: World)
    requires Inv(w)
    ensures var v := Step(w, CreateCall); !w.q.active ==> v.q.active && Sound(v.q) && Pending(v.q) == [] && v.pc == w.pc
    ensures var v := Step(w, DestroyCall); !v.q.active && NoneAsleep(v.pc)
    ensures var v := Step(w, DestroyCall);
      forall t :: 0 <= t < |v.pc| && v.pc[t] != Idle ==> Step(v, Resume(t)).pc[t] == Idle && Step(v, Resume(t)).gotLog == v.gotLog
  {
  }

  /**
   A message ends the sleep of the receiver that was listed last: the send
   wakes it and no other task, and when it goes on it gets the oldest message
   of the queue.
   */
  lemma SendFeedsReceiver(w: World, s: nat, r: Sendable)
    requires Inv(w) && Enabled(w, SendCall(s, r)) && w.q.active && |Pending(w.q)| < 32 && w.q.receivers != []
    ensures var t, v := w.q.receivers[|w.q.receivers| - 1], Step(w, SendCall(s, r));
      && 0 <= t < |w.pc| && w.pc[t] == RecvAsleep && v.pc == w.pc[t := RecvWoken] && Sound(v.q) && Pending(v.q) != []
      && var u := Step(v, Resume(t));
      u.pc[t] == Idle && u.gotLog == w.gotLog + [Pending(v.q)[0]]
  {
    var t := w.q.receivers[|w.q.receivers| - 1];
    assert t in w.q.receivers;
    PendingSize(w.q);
    EnqueueAppends(w.q, s, r);
    hide Pending, Filled;
    var v := Step(w, SendCall(s, r));
    assert v.pc == w.pc[t := RecvWoken];
    ResumedReceiver(v, t);
  }

  lemma ResumedReceiver(v: World, t: nat)
    requires Sound(v.q) && |v.pc| == MAX_TASKS && t < |v.pc| && v.pc[t] == RecvWoken && v.q.active && Pending(v.q) != []
    ensures var u := Step(v, Resume(t)); u.pc[t] == Idle && u.gotLog == v.gotLog + [Pending(v.q)[0]]
  {
    PendingSize(v.q);
    DequeueTakesOldest(v.q);
  }

  /**
   A receive ends the sleep of the sender that was listed last: it is woken and
   no other task is, and when it goes on its own message is in the queue.
   */
  lemma RecvFeedsSender(w: World, s: nat)
    requires Inv(w) && Enabled(w, RecvCall(s)) && w.q.active && Pending(w.q) != [] && w.q.senders != []
    ensures var t, v := w.q.senders[|w.q.senders| - 1], Step(w, RecvCall(s));
      && 0 <= t < |w.pc| && w.pc[t].SendAsleep? && v.pc == w.pc[t := SendWoken(w.pc[t].r)]
      && v.gotLog == w.gotLog + [Pending(w.q)[0]] && Sound(v.q)
      && var u := Step(v, Resume(t));
      u.pc[t] == Idle && |u.sentLog| == |v.sentLog| + 1 && Carries(u.sentLog[|v.sentLog|], t as uint16, w.pc[t].r)
  {
    var t := w.q.senders[|w.q.senders| - 1];
    assert t in w.q.senders;
    PendingSize(w.q);
    DequeueTakesOldest(w.q);
    hide Pending;
    var v := Step(w, RecvCall(s));
    assert v.pc == w.pc[t := SendWoken(w.pc[t].r)];
    ResumedSender(v, t, w.pc[t].r);
  }

  lemma ResumedSender(v: World, t: nat, r: Sendable)
    requires Sound(v.q) && |v.pc| == MAX_TASKS && t < |v.pc| && v.pc[t] == SendWoken(r) && v.q.active && v.q.count < CAPACITY
    ensures var u := Step(v, Resume(t));
      u.pc[t] == Idle && |u.sentLog| == |v.sentLog| + 1 && Carries(u.sentLog[|v.sentLog|], t, r)
  {
    FilledCarriesData(v.q.ring[v.q.tail], t, r);
    hide Filled;
  }
}
