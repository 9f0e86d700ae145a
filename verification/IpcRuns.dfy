/**
 Runs of many tasks over one message queue. Every task carries its place in a
 blocking call; each event is atomic up to the point where the call returns or
 the task has switched away. The lemmas say that no wake-up is lost and no
 message lost, doubled or reordered.
 */
module IpcRuns {
  import opened Words
  import opened Ipc
  import Rings

  /** Where a task stands: blocked in a call, unblocked but not yet resumed, or in no call. */
  datatype Pc = Idle | SendAsleep(r: Sendable) | SendWoken(r: Sendable) | RecvAsleep | RecvWoken

  datatype World = World(q: Queue, pc: seq<Pc>, sentLog: seq<Message>, gotLog: seq<Message>)

  datatype Event =
    | SendCall(tid: nat, r: Sendable)
    | RecvCall(tid: nat)
    | TrySendCall(tid: nat, r: Sendable)
    | TryRecvCall(tid: nat)
    | Resume(tid: nat)
    | CreateCall
    | DestroyCall

  /** sched_unblock: takes a blocked task off its sleep and leaves any other alone. */
  function Roused(p: Pc): Pc {
    match p
    case SendAsleep(r) => SendWoken(r)
    case RecvAsleep => RecvWoken
    case Idle => Idle
    case SendWoken(r) => SendWoken(r)
    case RecvWoken => RecvWoken
  }

  function Wake(pc: seq<Pc>, woken: Option<int>): (r: seq<Pc>)
    ensures |r| == |pc|
  {
    if woken.Some? && 0 <= woken.value < |pc| then pc[woken.value := Roused(pc[woken.value])] else pc
  }

  function WakeAll(pc: seq<Pc>): (r: seq<Pc>)
    ensures |r| == |pc| && forall t :: 0 <= t < |pc| ==> r[t] == Roused(pc[t])
  {
    seq(|pc|, t requires 0 <= t < |pc| => Roused(pc[t]))
  }

  /** The world after a call by task tid has ended or blocked with outcome o; asleep is its pc if it blocked. */
  function After(w: World, tid: nat, q: Queue, o: Outcome, woken: Option<int>, asleep: Pc): World
    requires tid < |w.pc| && Sound(w.q) && |q.ring| == CAPACITY
    requires w.q.count < CAPACITY || !o.Sent?
  {
    World(q,
          Wake(w.pc[tid := if o == Asleep then asleep else Idle], woken),
          if o.Sent? then w.sentLog + [q.ring[w.q.tail]] else w.sentLog,
          if o.Got? then w.gotLog + [o.message] else w.gotLog)
  }

  function SendStep(w: World, tid: nat, r: Sendable): World
    requires Sound(w.q) && tid < |w.pc| && tid < 0x1_0000
  {
    var (q, o, woken) := Send(w.q, tid, r);
    After(w, tid, q, o, woken, SendAsleep(r))
  }

  function RecvStep(w: World, tid: nat): World
    requires Sound(w.q) && tid < |w.pc| && tid < 0x1_0000
  {
    var (q, o, woken) := Recv(w.q, tid);
    After(w, tid, q, o, woken, RecvAsleep)
  }

  /** The event happens in w: its task is free to make it. Task 0, the idle task, makes no blocking call. */
  predicate Enabled(w: World, e: Event) {
    match e
    case SendCall(t, r) => 0 < t < |w.pc| && w.pc[t] == Idle
    case RecvCall(t) => 0 < t < |w.pc| && w.pc[t] == Idle
    case TrySendCall(t, r) => t < |w.pc| && w.pc[t] == Idle
    case TryRecvCall(t) => t < |w.pc| && w.pc[t] == Idle
    case Resume(t) => t < |w.pc| && (w.pc[t].SendWoken? || w.pc[t].RecvWoken?)
    case CreateCall => true
    case DestroyCall => true
  }

  function Step(w: World, e: Event): World
    requires Sound(w.q) && |w.pc| == MAX_TASKS && Enabled(w, e)
  {
    match e
    case SendCall(t, r) => SendStep(w, t, r)
    case RecvCall(t) => RecvStep(w, t)
    case TrySendCall(t, r) => var (q, o, woken) := TrySend(w.q, t, r); After(w, t, q, o, woken, Idle)
    case TryRecvCall(t) => var (q, o, woken) := TryRecv(w.q); After(w, t, q, o, woken, Idle)
    case Resume(t) => if w.pc[t].SendWoken? then SendStep(w, t, w.pc[t].r) else RecvStep(w, t)
    case CreateCall => if w.q.active then w else World(Created(w.q), w.pc, [], [])
    case DestroyCall => if w.q.active then w.(q := w.q.(active := false), pc := WakeAll(w.pc)) else w
  }

  // --------------------------------------------------------------- invariant

  function WokenSenders(pc: seq<Pc>): nat {
    if pc == [] then 0 else (if pc[0].SendWoken? then 1 else 0) + WokenSenders(pc[1..])
  }

  function WokenReceivers(pc: seq<Pc>): nat {
    if pc == [] then 0 else (if pc[0].RecvWoken? then 1 else 0) + WokenReceivers(pc[1..])
  }

  lemma {:induction false} CountsChange(pc: seq<Pc>, t: nat, p: Pc)
    requires t < |pc|
    ensures WokenSenders(pc[t := p]) ==
      WokenSenders(pc) - (if pc[t].SendWoken? then 1 else 0) + (if p.SendWoken? then 1 else 0)
    ensures WokenReceivers(pc[t := p]) ==
      WokenReceivers(pc) - (if pc[t].RecvWoken? then 1 else 0) + (if p.RecvWoken? then 1 else 0)
  {
    if t == 0 {
      assert pc[t := p][1..] == pc[1..];
    } else {
      assert pc[t := p][1..] == pc[1..][t - 1 := p];
      CountsChange(pc[1..], t - 1, p);
    }
  }

  ghost predicate Distinct(list: seq<int>) {
    forall i, j :: 0 <= i < j < |list| ==> list[i] != list[j]
  }

  /** The blocked lists name the sleeping tasks, each once. */
  ghost predicate ListsSleepers(senders: seq<int>, receivers: seq<int>, pc: seq<Pc>) {
    && Distinct(senders) && Distinct(receivers)
    && (forall t :: t in senders <==> 0 <= t < |pc| && pc[t].SendAsleep?)
    && (forall t :: t in receivers <==> 0 <= t < |pc| && pc[t].RecvAsleep?)
  }

  /** Sleepers are outnumbered: a sleeping receiver means a woken one for each message, and likewise for slots. */
  predicate WokenSuffice(senders: seq<int>, receivers: seq<int>, count: nat, pc: seq<Pc>) {
    && (receivers != [] ==> WokenReceivers(pc) >= count)
    && (senders != [] ==> WokenSenders(pc) >= CAPACITY - count)
  }

  predicate NoneAsleep(pc: seq<Pc>) {
    forall t :: 0 <= t < |pc| ==> !pc[t].SendAsleep? && !pc[t].RecvAsleep?
  }

  /** The idle task never sleeps in a call. */
  ghost predicate Waiting(q: Queue, pc: seq<Pc>) {
    && |pc| == MAX_TASKS && pc[0] == Idle
    && (q.active ==> ListsSleepers(q.senders, q.receivers, pc))
    && (q.active ==> WokenSuffice(q.senders, q.receivers, q.count, pc))
    && (!q.active ==> NoneAsleep(pc))
  }

  /** What was sent is what was received followed by what waits in the ring. */
  ghost predicate Conserved(w: World)
    requires Sound(w.q)
  {
    && w.sentLog == w.gotLog + Pending(w.q)
    && w.q.sent == |w.sentLog| % 0x1_0000_0000_0000_0000
    && w.q.received == |w.gotLog| % 0x1_0000_0000_0000_0000
  }

  ghost predicate Inv(w: World) {
    Sound(w.q) && Waiting(w.q, w.pc) && Conserved(w)
  }

  // ----------------------------------------------------- the steps in detail

  /** A list of distinct tasks none of which is 0 leaves room for one more. */
  lemma RoomForOne(list: seq<int>, t: int)
    requires Distinct(list) && t !in list && 0 < t < MAX_TASKS
    requires forall u <- list :: 0 < u < MAX_TASKS
    ensures |list| < MAX_TASKS
  {
    BelowSize(MAX_TASKS - 1);
    SetOf(list);
    var mine := (set u | u in list) + {t};
    var all := Below(MAX_TASKS - 1);
    assert all == mine + (all - mine) && mine * (all - mine) == {};
  }

  /** The numbers 1 to n. */
  ghost function Below(n: nat): set<int> {
    if n == 0 then {} else Below(n - 1) + {n}
  }

  lemma {:induction false} BelowSize(n: nat)
    ensures |Below(n)| == n && forall u :: u in Below(n) <==> 0 < u <= n
  {
    if n > 0 { BelowSize(n - 1); }
  }

  lemma {:induction false} SetOf(list: seq<int>)
    requires Distinct(list)
    ensures |set u | u in list| == |list|
  {
    var s := set u | u in list;
    if list == [] {
      assert s == {};
    } else {
      var rest := list[1..];
      SetOf(rest);
      assert forall u :: u in list <==> u == list[0] || u in rest;
      assert s == (set u | u in rest) + {list[0]};
    }
  }

  /** Task t, awake, goes to sleep in a send: it is listed and nobody is missed as the ring is full. */
  lemma SenderSleeps(q: Queue, pc: seq<Pc>, t: nat, r: Sendable)
    requires Sound(q) && q.active && Waiting(q, pc) && 0 < t < |pc| && (pc[t] == Idle || pc[t].SendWoken?)
    requires q.count == CAPACITY
    ensures Waiting(q.(senders := Listed(q.senders, t)), pc[t := SendAsleep(r)])
  {
    assert forall u <- q.senders :: 0 < u < MAX_TASKS;
    RoomForOne(q.senders, t);
    CountsChange(pc, t, SendAsleep(r));
    hide WokenSenders, WokenReceivers, Sound;
    var list := q.senders + [t];
    assert forall u :: u in list <==> u in q.senders || u == t;
  }

  lemma ReceiverSleeps(q: Queue, pc: seq<Pc>, t: nat)
    requires Sound(q) && q.active && Waiting(q, pc) && 0 < t < |pc| && (pc[t] == Idle || pc[t].RecvWoken?)
    requires q.count == 0
    ensures Waiting(q.(receivers := Listed(q.receivers, t)), pc[t := RecvAsleep])
  {
    assert forall u <- q.receivers :: 0 < u < MAX_TASKS;
    RoomForOne(q.receivers, t);
    CountsChange(pc, t, RecvAsleep);
    hide WokenSenders, WokenReceivers, Sound;
    var list := q.receivers + [t];
    assert forall u :: u in list <==> u in q.receivers || u == t;
  }

  lemma DropLast(list: seq<int>)
    requires Distinct(list) && list != []
    ensures
      var front, last := list[..|list| - 1], list[|list| - 1];
      Distinct(front) && last !in front && forall v :: v in list <==> v in front || v == last
  {
    assert list == list[..|list| - 1] + [list[|list| - 1]];
  }

  /** A task that is awake ends its call; the lists still name the sleepers. */
  lemma AwakeEnds(q: Queue, pc: seq<Pc>, t: nat)
    requires ListsSleepers(q.senders, q.receivers, pc)
    requires t < |pc| && !pc[t].SendAsleep? && !pc[t].RecvAsleep?
    ensures ListsSleepers(q.senders, q.receivers, pc[t := Idle])
  {
  }

  /** The newest sleeping receiver, if any, is unblocked. */
  lemma ReceiverRoused(q: Queue, pc: seq<Pc>)
    requires ListsSleepers(q.senders, q.receivers, pc)
    ensures
      var (list, woken) := TakeLast(q.receivers);
      ListsSleepers(q.senders, list, Wake(pc, woken))
  {
    if q.receivers != [] { DropLast(q.receivers); }
  }

  lemma ReceiverRousedCounts(q: Queue, pc: seq<Pc>)
    requires ListsSleepers(q.senders, q.receivers, pc)
    ensures
      var after := Wake(pc, TakeLast(q.receivers).1);
      && WokenReceivers(after) == WokenReceivers(pc) + (if q.receivers == [] then 0 else 1)
      && WokenSenders(after) == WokenSenders(pc)
      && |after| == |pc| && (|pc| > 0 && pc[0] == Idle ==> after[0] == Idle)
  {
    if q.receivers != [] {
      var u := q.receivers[|q.receivers| - 1];
      assert u in q.receivers;
      CountsChange(pc, u, Roused(pc[u]));
      hide WokenSenders, WokenReceivers;
    }
  }

  lemma SenderRoused(q: Queue, pc: seq<Pc>)
    requires ListsSleepers(q.senders, q.receivers, pc)
    ensures
      var (list, woken) := TakeLast(q.senders);
      ListsSleepers(list, q.receivers, Wake(pc, woken))
  {
    if q.senders != [] { DropLast(q.senders); }
  }

  lemma SenderRousedCounts(q: Queue, pc: seq<Pc>)
    requires ListsSleepers(q.senders, q.receivers, pc)
    ensures
      var after := Wake(pc, TakeLast(q.senders).1);
      && WokenSenders(after) == WokenSenders(pc) + (if q.senders == [] then 0 else 1)
      && WokenReceivers(after) == WokenReceivers(pc)
      && |after| == |pc| && (|pc| > 0 && pc[0] == Idle ==> after[0] == Idle)
  {
    if q.senders != [] {
      var u := q.senders[|q.senders| - 1];
      assert u in q.senders;
      CountsChange(pc, u, Roused(pc[u]));
      hide WokenSenders, WokenReceivers;
    }
  }

  lemma EnqueueWakes(q: Queue, pc: seq<Pc>, t: nat, r: Sendable)
    requires Sound(q) && q.active && Waiting(q, pc) && q.count < CAPACITY
    requires t < |pc| && (pc[t] == Idle || pc[t].SendWoken?)
    ensures
      var (q', woken) := Enqueue(q, t, r);
      Waiting(q', Wake(pc[t := Idle], woken))
  {
    CountsChange(pc, t, Idle);
    AwakeEnds(q, pc, t);
    ReceiverRoused(q, pc[t := Idle]);
    ReceiverRousedCounts(q, pc[t := Idle]);
    hide ListsSleepers, WokenSenders, WokenReceivers, Wake;
  }

  lemma DequeueWakes(q: Queue, pc: seq<Pc>, t: nat)
    requires Sound(q) && q.active && Waiting(q, pc) && q.count > 0
    requires t < |pc| && (pc[t] == Idle || pc[t].RecvWoken?)
    ensures
      var (q', _, woken) := Dequeue(q);
      Waiting(q', Wake(pc[t := Idle], woken))
  {
    CountsChange(pc, t, Idle);
    AwakeEnds(q, pc, t);
    SenderRoused(q, pc[t := Idle]);
    SenderRousedCounts(q, pc[t := Idle]);
    hide ListsSleepers, WokenSenders, WokenReceivers, Wake;
  }

  /** A call that returns at once on a closed queue leaves its task idle. */
  lemma FailureIdles(q: Queue, pc: seq<Pc>, t: nat)
    requires Waiting(q, pc) && t < |pc| && !pc[t].SendAsleep? && !pc[t].RecvAsleep?
    requires !q.active || pc[t] == Idle
    ensures Waiting(q, Wake(pc[t := Idle], None))
  {
    if q.active { assert pc[t := Idle] == pc; }
  }

  lemma NextCounts(n: nat)
    ensures Next64(n % 0x1_0000_0000_0000_0000) == (n + 1) % 0x1_0000_0000_0000_0000
  {
  }

  lemma SentConserves(w: World, t: nat, r: Sendable, asleep: Pc)
    requires Inv(w) && w.q.count < CAPACITY && t < |w.pc| && t < 0x1_0000
    ensures
      var (q, woken) := Enqueue(w.q, t, r);
      Sound(q) && Conserved(After(w, t, q, Sent, woken, asleep))
  {
    EnqueueAppends(w.q, t, r);
    NextCounts(|w.sentLog|);
    hide Waiting;
    var (q, woken) := Enqueue(w.q, t, r);
    var m := Filled(w.q.ring[w.q.tail], t, r);
    assert w.sentLog + [m] == w.gotLog + (Pending(w.q) + [m]);
  }

  lemma GotConserves(w: World, t: nat, asleep: Pc)
    requires Inv(w) && w.q.count > 0 && t < |w.pc|
    ensures
      var (q, m, woken) := Dequeue(w.q);
      Sound(q) && Conserved(After(w, t, q, Got(m), woken, asleep))
  {
    DequeueTakesOldest(w.q);
    NextCounts(|w.gotLog|);
    hide Waiting;
    var (q, m, woken) := Dequeue(w.q);
    assert w.gotLog + ([m] + Pending(q)) == (w.gotLog + [m]) + Pending(q);
  }

  lemma SendStepKeepsInv(w: World, t: nat, r: Sendable)
    requires Inv(w) && 0 < t < |w.pc| && (w.pc[t] == Idle || w.pc[t].SendWoken?)
    ensures Inv(SendStep(w, t, r))
  {
    if !w.q.active {
      FailureIdles(w.q, w.pc, t);
    } else if w.q.count >= CAPACITY {
      SenderSleeps(w.q, w.pc, t, r);
      hide Waiting;
      var q := w.q.(senders := Listed(w.q.senders, t));
      assert Pending(q) == Pending(w.q);
    } else {
      EnqueueWakes(w.q, w.pc, t, r);
      SentConserves(w, t, r, SendAsleep(r));
      hide Waiting, Conserved, Sound;
    }
  }

  lemma RecvStepKeepsInv(w: World, t: nat)
    requires Inv(w) && 0 < t < |w.pc| && (w.pc[t] == Idle || w.pc[t].RecvWoken?)
    ensures Inv(RecvStep(w, t))
  {
    if !w.q.active {
      FailureIdles(w.q, w.pc, t);
    } else if w.q.count == 0 {
      ReceiverSleeps(w.q, w.pc, t);
      hide Waiting;
      var q := w.q.(receivers := Listed(w.q.receivers, t));
      assert Pending(q) == Pending(w.q);
    } else {
      DequeueWakes(w.q, w.pc, t);
      GotConserves(w, t, RecvAsleep);
      hide Waiting, Conserved, Sound;
    }
  }

  lemma TrySendKeepsInv(w: World, t: nat, r: Sendable)
    requires Inv(w) && t < |w.pc| && w.pc[t] == Idle
    ensures Inv(Step(w, TrySendCall(t, r)))
  {
    if !w.q.active || w.q.count >= CAPACITY {
      FailureIdles(w.q, w.pc, t);
    } else {
      EnqueueWakes(w.q, w.pc, t, r);
      SentConserves(w, t, r, Idle);
      hide Waiting, Conserved, Sound;
    }
  }

  lemma TryRecvKeepsInv(w: World, t: nat)
    requires Inv(w) && t < |w.pc| && w.pc[t] == Idle
    ensures Inv(Step(w, TryRecvCall(t)))
  {
    if !w.q.active || w.q.count == 0 {
      FailureIdles(w.q, w.pc, t);
    } else {
      DequeueWakes(w.q, w.pc, t);
      GotConserves(w, t, Idle);
      hide Waiting, Conserved, Sound;
    }
  }

  lemma StepKeepsInv(w: World, e: Event)
    requires Inv(w) && Enabled(w, e)
    ensures Inv(Step(w, e))
  {
    match e
    case SendCall(t, r) => SendStepKeepsInv(w, t, r);
    case RecvCall(t) => RecvStepKeepsInv(w, t);
    case TrySendCall(t, r) => TrySendKeepsInv(w, t, r);
    case TryRecvCall(t) => TryRecvKeepsInv(w, t);
    case Resume(t) =>
      if w.pc[t].SendWoken? { SendStepKeepsInv(w, t, w.pc[t].r); } else { RecvStepKeepsInv(w, t); }
    case CreateCall =>
    case DestroyCall =>
  }

  // -------------------------------------------------------------- whole runs

  /** The kernel before any queue exists: the slot free and all tasks in no call. */
  ghost predicate Initial(w: World) {
    && Sound(w.q) && !w.q.active && w.q.count == 0 && w.q.sent == w.q.received == 0
    && w.pc == seq(MAX_TASKS, _ => Idle) && w.sentLog == w.gotLog == []
  }

  ghost predicate Run(w: World, events: seq<Event>, v: World)
    requires Sound(w.q)
    decreases |events|
  {
    if events == [] then v == w
    else
      && |w.pc| == MAX_TASKS && Enabled(w, events[0])
      && Sound(Step(w, events[0]).q)
      && Run(Step(w, events[0]), events[1..], v)
  }

  lemma {:induction false} RunKeepsInv(w: World, events: seq<Event>, v: World)
    requires Inv(w) && Run(w, events, v)
    ensures Inv(v)
    decreases |events|
  {
    if events != [] {
      StepKeepsInv(w, events[0]);
      RunKeepsInv(Step(w, events[0]), events[1..], v);
    }
  }

  ghost predicate Reachable(v: World) {
    exists w, events :: Initial(w) && Run(w, events, v)
  }

  lemma ReachableInv(v: World)
    requires Reachable(v)
    ensures Inv(v)
  {
    var w, events :| Initial(w) && Run(w, events, v);
    assert Pending(w.q) == [];
    RunKeepsInv(w, events, v);
  }

  lemma {:induction false} SomeoneWoken(pc: seq<Pc>)
    ensures WokenReceivers(pc) > 0 ==> exists t :: 0 <= t < |pc| && pc[t].RecvWoken?
    ensures WokenSenders(pc) > 0 ==> exists t :: 0 <= t < |pc| && pc[t].SendWoken?
  {
    if pc != [] {
      SomeoneWoken(pc[1..]);
      assert forall t :: 0 <= t < |pc[1..]| ==> pc[1..][t] == pc[t + 1];
    }
  }

  /**
   No lost wake-up: whatever tasks send, receive, try, create and destroy in
   whatever order, a receiver asleep beside waiting messages means that at
   least as many other receivers have been woken and are still to run; the same
   for senders and free slots.
   */
  lemma NoLostWakeup(v: World, t: nat)
    requires Reachable(v) && v.q.active && t < |v.pc|
    ensures v.pc[t].RecvAsleep? ==> WokenReceivers(v.pc) >= v.q.count
    ensures v.pc[t].SendAsleep? ==> WokenSenders(v.pc) >= CAPACITY - v.q.count
    ensures v.pc[t].RecvAsleep? && v.q.count > 0 ==> exists u :: 0 <= u < |v.pc| && v.pc[u].RecvWoken?
    ensures v.pc[t].SendAsleep? && v.q.count < CAPACITY ==> exists u :: 0 <= u < |v.pc| && v.pc[u].SendWoken?
  {
    ReachableInv(v);
    SomeoneWoken(v.pc);
    assert v.pc[t].RecvAsleep? ==> t in v.q.receivers;
    assert v.pc[t].SendAsleep? ==> t in v.q.senders;
  }

  /** Every message is received in the order sent, and the two totals differ by what waits in the ring. */
  lemma FifoAndConserved(v: World)
    requires Reachable(v)
    ensures Sound(v.q)
    ensures v.gotLog + Pending(v.q) == v.sentLog
    ensures Sub64(v.q.sent, v.q.received) == v.q.count
    ensures v.q.tail == (v.q.head + v.q.count) % CAPACITY
  {
    ReachableInv(v);
    assert |v.sentLog| == |v.gotLog| + v.q.count;
    DifferenceMod(|v.sentLog|, |v.gotLog|);
  }

  lemma DifferenceMod(a: nat, b: nat)
    requires 0 <= a - b <= CAPACITY
    ensures (a % 0x1_0000_0000_0000_0000 - b % 0x1_0000_0000_0000_0000) % 0x1_0000_0000_0000_0000 == a - b
  {
  }

  /** No blocked task is listed twice, and the lists never overflow: each sleeping task will be found. */
  lemma SleepersAreListedOnce(v: World, t: nat)
    requires Reachable(v) && v.q.active && t < |v.pc|
    ensures multiset(v.q.receivers)[t] == if v.pc[t].RecvAsleep? then 1 else 0
    ensures multiset(v.q.senders)[t] == if v.pc[t].SendAsleep? then 1 else 0
  {
    ReachableInv(v);
    CountDistinct(v.q.receivers, t);
    CountDistinct(v.q.senders, t);
  }

  lemma CountDistinct(list: seq<int>, t: int)
    requires Distinct(list)
    ensures multiset(list)[t] == if t in list then 1 else 0
  {
    if t in list {
      var i :| 0 <= i < |list| && list[i] == t;
      var a, b := list[..i], list[i + 1..];
      assert list == a + [t] + b;
      assert t !in a && t !in b;
      hide Distinct;
      assert multiset(list) == multiset(a) + multiset{t} + multiset(b);
    }
  }

  /** The listed tasks unblocked one after the other. */
  function WakeListed(pc: seq<Pc>, list: seq<int>): (r: seq<Pc>)
    ensures |r| == |pc|
    decreases |list|
  {
    if list == [] then pc else WakeListed(Wake(pc, Some(list[0])), list[1..])
  }

  lemma {:induction false} WakeListedAt(pc: seq<Pc>, list: seq<int>, t: nat)
    requires t < |pc|
    ensures WakeListed(pc, list)[t] == if t in list then Roused(pc[t]) else pc[t]
    decreases |list|
  {
    if list != [] { WakeListedAt(Wake(pc, Some(list[0])), list[1..], t); }
  }

  /** Destruction unblocks the listed tasks, and these are all that sleep. */
  lemma DestroyWakesListed(w: World)
    requires Inv(w) && w.q.active
    ensures Step(w, DestroyCall).pc == WakeListed(w.pc, w.q.senders + w.q.receivers)
  {
    forall t | 0 <= t < |w.pc| ensures Roused(w.pc[t]) == WakeListed(w.pc, w.q.senders + w.q.receivers)[t] {
      WakeListedAt(w.pc, w.q.senders + w.q.receivers, t);
      assert t in w.q.senders || t in w.q.receivers <==> w.pc[t].SendAsleep? || w.pc[t].RecvAsleep?;
    }
    hide Inv;
  }
}
