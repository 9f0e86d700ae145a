/**
 What the atomicity of the blocking calls is needed for: a task that is
 preempted between entering a blocked list and blocking, one whose block finds
 nobody to switch to, and tasks that are killed or continued from outside.
 */
module IpcBreaks {
  import opened Words
  import opened Ipc
  import opened IpcRuns
  import Rings
  import Sched
  import SchedRuns
  import SchedWaits

  // -------------------------------------------- between the list and the sleep

  predicate AsleepPc(p: Pc) { p.SendAsleep? || p.RecvAsleep? }

  /** The world as it would be with the task at another place. */
  function At(w: World, t: nat, p: Pc): World
    requires t < |w.pc|
  {
    w.(pc := w.pc[t := p])
  }

  /** The first half of a blocking call on a full or empty queue: the task, running, enters itself in the list... */
  function EnterList(w: World, t: nat, p: Pc): World
    requires t < |w.pc|
  {
    var q := if p.SendAsleep? then w.q.(senders := Listed(w.q.senders, t)) else w.q.(receivers := Listed(w.q.receivers, t));
    World(q, w.pc[t := Idle], w.sentLog, w.gotLog)
  }

  /** The call is at the point where it lists itself: a send finds the queue full, a receive finds it empty. */
  predicate AboutToSleep(w: World, t: nat, p: Pc) {
    && 0 < t < |w.pc| && w.q.active
    && (p.SendAsleep? ==> (w.pc[t] == Idle || w.pc[t] == SendWoken(p.r)) && w.q.count >= CAPACITY)
    && (p.RecvAsleep? ==> (w.pc[t] == Idle || w.pc[t] == RecvWoken) && w.q.count == 0)
    && AsleepPc(p)
  }

  /** ...and the second, in which it blocks. Done without a break they are the calls of the runs. */
  lemma HalvesMakeCall(w: World, t: nat, p: Pc)
    requires Inv(w) && AboutToSleep(w, t, p)
    ensures At(EnterList(w, t, p), t, p) == if p.SendAsleep? then SendStep(w, t, p.r) else RecvStep(w, t)
  {
    hide Waiting, Conserved;
  }

  /** The tasks an event unblocks. */
  function Woken(w: World, e: Event): seq<int>
    requires Sound(w.q) && |w.pc| == MAX_TASKS && Enabled(w, e)
  {
    match e
    case SendCall(t, r) => Popped(Send(w.q, t, r).2)
    case RecvCall(t) => Popped(Recv(w.q, t).2)
    case TrySendCall(t, r) => Popped(TrySend(w.q, t, r).2)
    case TryRecvCall(t) => Popped(TryRecv(w.q).2)
    case Resume(t) => Popped(if w.pc[t].SendWoken? then Send(w.q, t, w.pc[t].r).2 else Recv(w.q, t).2)
    case CreateCall => []
    case DestroyCall => if w.q.active then w.q.senders + w.q.receivers else []
  }

  function Popped(woken: Option<int>): seq<int> {
    if woken.Some? then [woken.value] else []
  }

  /** The event is a step of a task other than t. */
  predicate ByOther(e: Event, t: nat) {
    match e
    case SendCall(u, _) => u != t
    case RecvCall(u) => u != t
    case TrySendCall(u, _) => u != t
    case TryRecvCall(u) => u != t
    case Resume(u) => u != t
    case _ => true
  }

  /** Tasks other than t make these steps. */
  ghost predicate OthersRun(w: World, events: seq<Event>, v: World, t: nat)
    requires Sound(w.q)
    decreases |events|
  {
    if events == [] then v == w
    else
      && |w.pc| == MAX_TASKS && Enabled(w, events[0]) && ByOther(events[0], t)
      && Sound(Step(w, events[0]).q)
      && OthersRun(Step(w, events[0]), events[1..], v, t)
  }

  /** One of the steps took t off its list: an enqueue or a dequeue popped it, or the queue was destroyed. */
  ghost predicate TakenOff(w: World, events: seq<Event>, t: nat)
    requires Sound(w.q)
    decreases |events|
  {
    && events != [] && |w.pc| == MAX_TASKS && Enabled(w, events[0])
    && (t in Woken(w, events[0]) || (Sound(Step(w, events[0]).q) && TakenOff(Step(w, events[0]), events[1..], t)))
  }

  lemma AfterCommutes(w: World, tid: nat, q: Queue, o: Outcome, woken: Option<int>, asleep: Pc, t: nat, p: Pc)
    requires tid < |w.pc| && Sound(w.q) && |q.ring| == CAPACITY && (w.q.count < CAPACITY || !o.Sent?)
    requires t < |w.pc| && w.pc[t] == Idle && tid != t
    ensures var a, b := After(w, tid, q, o, woken, asleep), After(At(w, t, p), tid, q, o, woken, asleep);
      && |a.pc| == |w.pc| && a.pc[t] == Idle
      && b == At(a, t, if t in Popped(woken) then Roused(p) else p)
  {
    var a, b := After(w, tid, q, o, woken, asleep), After(At(w, t, p), tid, q, o, woken, asleep);
    assert b.pc == a.pc[t := if t in Popped(woken) then Roused(p) else p];
  }

  lemma DestroyCommutes(w: World, t: nat, p: Pc)
    requires t < |w.pc| && w.pc[t] == Idle && Inv(At(w, t, p)) && w.q.active
    ensures var a, b := Step(w, DestroyCall), Step(At(w, t, p), DestroyCall);
      && |a.pc| == MAX_TASKS && a.pc[t] == Idle
      && b == At(a, t, if t in w.q.senders + w.q.receivers then Roused(p) else p)
  {
    if AsleepPc(p) { AsleepIsListed(At(w, t, p), t); }
    hide Conserved, WokenSuffice, ListsSleepers;
    var a, b := Step(w, DestroyCall), Step(At(w, t, p), DestroyCall);
    assert b.pc == a.pc[t := if t in w.q.senders + w.q.receivers then Roused(p) else p];
  }

  /** Where t stands matters to another task's step only through being unblocked by it. */
  lemma StepCommutes(w: World, e: Event, t: nat, p: Pc)
    requires t < |w.pc| && w.pc[t] == Idle && Inv(At(w, t, p)) && Enabled(w, e) && ByOther(e, t)
    ensures Sound(w.q) && |w.pc| == MAX_TASKS && Enabled(At(w, t, p), e)
    ensures var a, b := Step(w, e), Step(At(w, t, p), e);
      && |a.pc| == MAX_TASKS && a.pc[t] == Idle
      && b == At(a, t, if t in Woken(w, e) then Roused(p) else p)
  {
    SameQueue(w, t, p);
    if e.DestroyCall? && w.q.active { DestroyCommutes(w, t, p); }
    hide Inv, After, Enqueue, Dequeue, Listed, WakeAll, Popped;
    match e
    case SendCall(u, r) => SendCommutes(w, u, r, t, p);
    case RecvCall(u) => RecvCommutes(w, u, t, p);
    case TrySendCall(u, r) =>
      var (q, o, woken) := TrySend(w.q, u, r);
      RingKept(w.q, u, r);
      AfterCommutes(w, u, q, o, woken, Idle, t, p);
    case TryRecvCall(u) =>
      var (q, o, woken) := TryRecv(w.q);
      RingRead(w.q, u);
      AfterCommutes(w, u, q, o, woken, Idle, t, p);
    case Resume(u) =>
      if w.pc[u].SendWoken? { SendCommutes(w, u, w.pc[u].r, t, p); } else { RecvCommutes(w, u, t, p); }
    case CreateCall => PopNone();
    case DestroyCall =>
  }

  lemma PopNone()
    ensures Popped(None) == []
  {
  }

  lemma SameQueue(w: World, t: nat, p: Pc)
    requires t < |w.pc| && Inv(At(w, t, p))
    ensures Sound(w.q) && |w.pc| == MAX_TASKS
  {
  }

  lemma RingKept(q: Queue, u: uint16, r: Sendable)
    requires Sound(q)
    ensures var (q', o, _) := Send(q, u, r); |q'.ring| == CAPACITY && (q.count < CAPACITY || !o.Sent?)
    ensures var (q', o, _) := TrySend(q, u, r); |q'.ring| == CAPACITY && (q.count < CAPACITY || !o.Sent?)
  {
  }

  lemma RingRead(q: Queue, u: uint16)
    requires Sound(q)
    ensures var (q', o, _) := Recv(q, u); |q'.ring| == CAPACITY && !o.Sent?
    ensures var (q', o, _) := TryRecv(q); |q'.ring| == CAPACITY && !o.Sent?
  {
  }

  lemma SendCommutes(w: World, u: nat, r: Sendable, t: nat, p: Pc)
    requires Sound(w.q) && |w.pc| == MAX_TASKS && u < |w.pc| && t < |w.pc| && w.pc[t] == Idle && u != t
    ensures var a, b := SendStep(w, u, r), SendStep(At(w, t, p), u, r);
      |a.pc| == |w.pc| && a.pc[t] == Idle && b == At(a, t, if t in Popped(Send(w.q, u, r).2) then Roused(p) else p)
  {
    RingKept(w.q, u, r);
    hide After, Enqueue, Listed, Popped, Send;
    var (q, o, woken) := Send(w.q, u, r);
    AfterCommutes(w, u, q, o, woken, SendAsleep(r), t, p);
  }

  lemma RecvCommutes(w: World, u: nat, t: nat, p: Pc)
    requires Sound(w.q) && |w.pc| == MAX_TASKS && u < |w.pc| && t < |w.pc| && w.pc[t] == Idle && u != t
    ensures var a, b := RecvStep(w, u), RecvStep(At(w, t, p), u);
      |a.pc| == |w.pc| && a.pc[t] == Idle && b == At(a, t, if t in Popped(Recv(w.q, u).2) then Roused(p) else p)
  {
    RingRead(w.q, u);
    hide After, Dequeue, Listed, Popped, Recv;
    var (q, o, woken) := Recv(w.q, u);
    AfterCommutes(w, u, q, o, woken, RecvAsleep, t, p);
  }

  /** Whoever has been unblocked stays so until it runs. */
  lemma {:induction false} OthersKeepInv(w: World, events: seq<Event>, v: World, t: nat, p: Pc)
    requires t < |w.pc| && w.pc[t] == Idle && Inv(At(w, t, p)) && Sound(w.q) && OthersRun(w, events, v, t)
    ensures t < |v.pc| && v.pc[t] == Idle
    ensures Inv(At(v, t, if TakenOff(w, events, t) then Roused(p) else p))
    decreases |events|
  {
    if events != [] {
      var e := events[0];
      StepCommutes(w, e, t, p);
      StepKeepsInv(At(w, t, p), e);
      var next := if t in Woken(w, e) then Roused(p) else p;
      assert Roused(Roused(p)) == Roused(p);
      hide Inv, Step, Enabled, Woken, ByOther;
      OthersKeepInv(Step(w, e), events[1..], v, t, next);
    }
  }

  /**
   A task that enters a list and blocks only after other tasks' steps: it then
   sleeps on no list, and the invariant of the runs is lost, exactly if one of
   those steps popped it from the list or destroyed the queue. Otherwise the
   break made no difference.
   */
  lemma PreemptionLosesWakeupIff(w: World, t: nat, p: Pc, events: seq<Event>, u: World)
    requires Inv(w) && AboutToSleep(w, t, p)
    requires Sound(EnterList(w, t, p).q) && OthersRun(EnterList(w, t, p), events, u, t)
    ensures t < |u.pc|
    ensures var v := At(u, t, p); var list := if p.SendAsleep? then v.q.senders else v.q.receivers;
      && (Inv(v) <==> !TakenOff(EnterList(w, t, p), events, t))
      && (v.q.active && t in list <==> !TakenOff(EnterList(w, t, p), events, t))
  {
    HalvesMakeCall(w, t, p);
    if p.SendAsleep? { SendStepKeepsInv(w, t, p.r); } else { RecvStepKeepsInv(w, t); }
    OthersKeepInv(EnterList(w, t, p), events, u, t, p);
    hide Inv, TakenOff, OthersRun, EnterList;
    if TakenOff(EnterList(w, t, p), events, t) {
      AwakeIsNotListed(At(u, t, Roused(p)), t);
      if Inv(At(u, t, p)) { AsleepIsListed(At(u, t, p), t); }
    } else {
      AsleepIsListed(At(u, t, p), t);
    }
  }

  lemma AsleepIsListed(v: World, t: nat)
    requires Inv(v) && t < |v.pc| && AsleepPc(v.pc[t])
    ensures v.q.active && t in if v.pc[t].SendAsleep? then v.q.senders else v.q.receivers
  {
  }

  lemma AwakeIsNotListed(v: World, t: nat)
    requires Inv(v) && t < |v.pc| && !AsleepPc(v.pc[t])
    ensures v.q.active ==> t !in v.q.senders && t !in v.q.receivers
  {
  }

  /**
   One such run: a timer tick between the halves, and another task sends. The
   receiver then sleeps beside the message, off every list, and no one is woken
   for it.
   */
  lemma PreemptionLosesWakeup(w: World, t: nat, s: nat, r: Sendable)
    requires Inv(w) && w.q.active && w.q.count == 0 && w.q.receivers == []
    requires 0 < t < |w.pc| && 0 < s < |w.pc| && t != s && w.pc[t] == Idle && w.pc[s] == Idle
    requires WokenReceivers(w.pc) == 0
    ensures
      var v := At(SendStep(EnterList(w, t, RecvAsleep), s, r), t, RecvAsleep);
      v.q.count == 1 && v.pc[t] == RecvAsleep && t !in v.q.receivers && WokenReceivers(v.pc) == 0
  {
    var listed := EnterList(w, t, RecvAsleep);
    assert Sound(w.q) && w.q.tail < CAPACITY;
    hide Inv, Sound, WokenReceivers, Filled, Next64, Rings.Slot;
    assert w.pc[t := Idle] == w.pc && w.pc[s := Idle] == w.pc;
    assert listed == w.(q := w.q.(receivers := [t]));
    SendWakesOnly(listed, t, s, r);
    hide SendStep, EnterList;
    CountsChange(w.pc, t, RecvAsleep);
  }

  /** A send that finds room and one listed receiver, which is awake. */
  lemma SendWakesOnly(w: World, t: nat, s: nat, r: Sendable)
    requires Sound(w.q) && |w.pc| <= MAX_TASKS && w.q.active && w.q.count == 0 && w.q.receivers == [t]
    requires t < |w.pc| && s < |w.pc| && w.pc[t] == Idle && w.pc[s] == Idle
    ensures var v := SendStep(w, s, r); v.q.count == 1 && v.q.receivers == [] && v.pc == w.pc
  {
    hide Sound, Filled, Next64, Rings.Slot;
    assert [t][..0] == [];
    assert w.pc[s := Idle] == w.pc && w.pc[t := Roused(Idle)] == w.pc;
  }

  // ----------------------------------------- a block that does not switch away

  /** The next pass of the call's loop, when sched_block has returned at once. */
  function NextPass(q: Queue, t: uint16, p: Pc): Queue
    requires Sound(q)
  {
    if p.SendAsleep? then Send(q, t, p.r).0 else Recv(q, t).0
  }

  /** A second pass lists the task a second time, and then no places of the tasks agree with the lists. */
  lemma SecondPassListsTwice(w: World, t: nat, p: Pc)
    requires Inv(w) && AboutToSleep(w, t, p)
    ensures Sound(EnterList(w, t, p).q)
    ensures var q := NextPass(EnterList(w, t, p).q, t, p);
      && (if p.SendAsleep? then q.senders == w.q.senders + [t, t] else q.receivers == w.q.receivers + [t, t])
      && forall pc :: !Waiting(q, pc)
  {
    RoomForTwo(w, t, p);
    hide Conserved, WokenSuffice;
    var q := NextPass(EnterList(w, t, p).q, t, p);
    var was := if p.SendAsleep? then w.q.senders else w.q.receivers;
    var list := if p.SendAsleep? then q.senders else q.receivers;
    assert (was + [t]) + [t] == was + [t, t];
    assert list == was + [t, t] && list[|was|] == list[|was| + 1];
    assert !IpcRuns.Distinct(list);
  }

  lemma RoomForTwo(w: World, t: nat, p: Pc)
    requires Inv(w) && AboutToSleep(w, t, p)
    ensures |if p.SendAsleep? then w.q.senders else w.q.receivers| + 2 <= MAX_TASKS
  {
    var was := if p.SendAsleep? then w.q.senders else w.q.receivers;
    assert IpcRuns.Distinct(was) && t !in was && forall u <- was :: 0 < u < MAX_TASKS;
    var more := was + [t];
    assert IpcRuns.Distinct(more) && 0 !in more && forall u <- more :: 0 < u < MAX_TASKS;
    DistinctBelow(more);
    hide Inv;
  }

  /** Tasks 1 to 31, each once, are at most 31. */
  lemma DistinctBelow(list: seq<int>)
    requires IpcRuns.Distinct(list) && forall u <- list :: 0 < u < MAX_TASKS
    ensures |list| <= MAX_TASKS - 1
  {
    BelowSize(MAX_TASKS - 1);
    SetOf(list);
    var mine := set u | u in list;
    var all := Below(MAX_TASKS - 1);
    assert all == mine + (all - mine) && mine * (all - mine) == {};
  }

  /**
   A blocking call whose task is the running one: if another task is ready, the
   block leaves it off the processor and asleep as in the runs; if none is, and
   just then, sched_block returns at once, the next pass lists the task again
   and the invariant of the runs is lost, wherever the tasks stand.
   */
  lemma BlockedCallSleepsIff(s: Sched.Sys, w: World, t: nat, p: Pc)
    requires SchedRuns.Sound(s) && s.cur == t && s.tasks[t].state == Sched.State.Running
    requires Inv(w) && AboutToSleep(w, t, p)
    ensures var another := exists i :: 0 <= i < Sched.MAX_TASKS && i != t && s.tasks[i].state == Sched.State.Ready;
      && (Sched.Block(s, t).cur != t <==> another)
      && (another ==> At(EnterList(w, t, p), t, p) == if p.SendAsleep? then SendStep(w, t, p.r) else RecvStep(w, t))
      && Sound(EnterList(w, t, p).q)
      && (!another ==> forall pc :: !Waiting(NextPass(EnterList(w, t, p).q, t, p), pc))
  {
    hide Inv, SchedRuns.Sound, Sched.Block, EnterList, NextPass, Waiting;
    SchedWaits.BlockSwitchesIff(s);
    HalvesMakeCall(w, t, p);
    SecondPassListsTwice(w, t, p);
  }

  // ---------------------------------------------------- kills and signals

  /** Task u is killed: wherever it stood, it makes no call any more, and the lists stay as they are. */
  function Killed(w: World, u: nat): World
    requires u < |w.pc|
  {
    At(w, u, Idle)
  }

  /**
   A kill keeps the invariant exactly if the victim was in no call, or was
   woken and the woken left still suffice: they number at least the messages
   (for a receiver) or the free slots (for a sender), or nobody else sleeps. A
   sleeping victim's place in the list will swallow a wake-up.
   */
  lemma KillKeepsInvIff(w: World, u: nat)
    requires Inv(w) && w.q.active && 0 < u < |w.pc|
    ensures Inv(Killed(w, u)) <==>
      match w.pc[u]
      case Idle => true
      case SendAsleep(_) => false
      case RecvAsleep => false
      case RecvWoken => w.q.receivers == [] || WokenReceivers(w.pc) - 1 >= w.q.count
      case SendWoken(_) => w.q.senders == [] || WokenSenders(w.pc) - 1 >= CAPACITY - w.q.count
  {
    CountsChange(w.pc, u, Idle);
    hide WokenReceivers, WokenSenders, Conserved;
    if AsleepPc(w.pc[u]) {
      AsleepIsListed(w, u);
      if Inv(Killed(w, u)) { AwakeIsNotListed(Killed(w, u), u); }
    } else {
      AwakeEnds(w.q, w.pc, u);
      assert w.pc[u] == Idle ==> w.pc[u := Idle] == w.pc;
      hide ListsSleepers;
    }
    KeptConserved(w, u);
  }

  lemma KeptConserved(w: World, u: nat)
    requires Sound(w.q) && Conserved(w) && u < |w.pc|
    ensures Conserved(Killed(w, u))
  {
  }

  /** Unblocking a task from outside the queue's calls, as SIGCONT does, keeps the invariant exactly if it did not sleep. */
  lemma ContinueKeepsInvIff(w: World, u: nat)
    requires Inv(w) && u < |w.pc|
    ensures Inv(At(w, u, Roused(w.pc[u]))) <==> !AsleepPc(w.pc[u])
  {
    hide Conserved, WokenSuffice;
    if AsleepPc(w.pc[u]) {
      AsleepIsListed(w, u);
      if Inv(At(w, u, Roused(w.pc[u]))) { AwakeIsNotListed(At(w, u, Roused(w.pc[u])), u); }
    } else {
      assert w.pc[u := Roused(w.pc[u])] == w.pc;
    }
    hide Waiting;
  }

  /**
   Killing a woken receiver loses its wake-up too: two receivers sleep, one
   message arrives and wakes one of them, that one is killed, and the other
   sleeps on beside the message.
   */
  lemma KillLosesWakeup(w: World, a: nat, b: nat, s: nat, r: Sendable)
    requires Inv(w) && w.q.active && w.q.count == 0 && w.q.receivers == [a, b]
    requires 0 < s < |w.pc| && w.pc[s] == Idle && a < |w.pc| && b < |w.pc| && WokenReceivers(w.pc) == 0
    ensures
      var sent := SendStep(w, s, r);
      sent.pc[b] == RecvWoken &&
      var killed := sent.pc[b := Idle];
      sent.q.count == 1 && killed[a] == RecvAsleep && WokenReceivers(killed) == 0
  {
    assert a in w.q.receivers && b in w.q.receivers && w.q.receivers[0] != w.q.receivers[1];
    var sent := SendStep(w, s, r);
    assert sent.pc == w.pc[b := RecvWoken] by { assert w.pc[s := Idle] == w.pc; }
    assert sent.pc[b := Idle] == w.pc[b := Idle];
    CountsChange(w.pc, b, Idle);
  }
}
