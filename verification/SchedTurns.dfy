/**
 How long a ready task can be kept waiting for its turn.
 */
module SchedTurns {
  import opened Words
  import opened Heap
  import opened Sched
  import opened SchedRuns

  // --------------------------------------------------------- bounded waiting

  /** Task t is ready and another one is current. */
  predicate Waits(s: Sys, t: nat) {
    Shape(s) && t < MAX_TASKS && t != s.cur && s.tasks[t].state == Ready && s.tasks[t].prio < NUM_PRIOS
  }

  /** Ticks that can pass before t runs: a full slice for every place between, and what is left of the current one. */
  function Measure(s: Sys, t: nat): int
    requires Waits(s, t)
  {
    var slice := s.tasks[s.cur].slice;
    TIMESLICE * (Dist(s.cur, t) - 1) + if slice > 1 then slice else 1
  }

  /** From s to r task t went on waiting, and no ready task of higher priority was there to be picked. */
  predicate WaitsOn(s: Sys, r: Sys, t: nat) {
    && Waits(s, t) && Waits(r, t) && r.tasks[t].prio == s.tasks[t].prio && !r.halted
    && (r.picks > s.picks ==> r.tasks[r.cur].prio <= s.tasks[t].prio)
  }

  /** A pick brought the current task nearer to t. */
  predicate Closer(s: Sys, r: Sys, t: nat)
    requires Waits(s, t) && Waits(r, t)
  {
    r.picks == s.picks + 1 && Dist(r.cur, t) < Dist(s.cur, t) && Measure(r, t) < Measure(s, t)
  }

  /** The same tasks wait in the same places, with the same slices left. */
  predicate Still(s: Sys, r: Sys) {
    && |r.tasks| == |s.tasks| && r.cur == s.cur && r.picks == s.picks && Shape(s)
    && r.tasks[r.cur].slice == s.tasks[s.cur].slice
  }

  /** Handing over in a pool m where t is ready brings the turn nearer to t. */
  lemma TurnCloser(s: Sys, m: Sys, t: nat)
    requires Waits(s, t) && Shape(m) && m.cur == s.cur && m.picks == s.picks && m.tasks[t] == s.tasks[t]
    requires WaitsOn(s, Reschedule(m), t)
    ensures Closer(s, Reschedule(m), t)
  {
    var r := PickNext(m.tasks, m.cur);
    PickFromIs(m.tasks, m.cur, NUM_PRIOS - 1);
    assert !NoneReady(m.tasks, NUM_PRIOS - 1);
    hide PickFrom;
    assert Best(m.tasks, m.cur, NUM_PRIOS - 1, r);
    assert Dist(m.cur, t) < MAX_TASKS;
    assert Reschedule(m).cur == r;
    assert m.tasks[r].prio == Reschedule(m).tasks[r].prio;
  }

  lemma {:induction false} DeliverFromCloser(s: Sys, sig: nat, deliverable: set<nat>, t: nat)
    requires Waits(s, t) && sig <= SIG_MAX
    ensures var (r, gone) := DeliverFrom(s, sig, deliverable);
      if gone then WaitsOn(s, r, t) ==> Closer(s, r, t) else Still(s, r) && r.tasks[t].state == Ready && r.tasks[t].prio == s.tasks[t].prio
    decreases SIG_MAX - sig
  {
    assert Shape(s);
    hide Exit, Cleared, HandlerOf, WaitsOn, Closer, Still, Measure, Waits, DeliverFrom;
    DeliverOne(s, sig, deliverable);
    if sig == SIG_MAX {
      SameWaits(s, t);
    } else if sig !in deliverable {
      DeliverFromCloser(s, sig + 1, deliverable, t);
    } else {
      var c := Cleared(s, sig);
      ClearedWaits(s, sig, t);
      if HandlerOf(s.tasks[s.cur], sig) == Default && (sig == SIG_TERM || sig == SIG_INT) {
        ExitCloser(c, 128 + sig, t);
        ClearedCloser(s, sig, t, Exit(c, 128 + sig));
      } else {
        DeliverFromCloser(c, sig + 1, deliverable, t);
        ClearedCloser(s, sig, t, DeliverFrom(c, sig + 1, deliverable).0);
      }
    }
  }

  /** One signal's turn in the delivery. */
  lemma DeliverOne(s: Sys, sig: nat, deliverable: set<nat>)
    requires Shape(s) && sig <= SIG_MAX
    ensures DeliverFrom(s, sig, deliverable) ==
      if sig == SIG_MAX then (s, false)
      else if sig !in deliverable then DeliverFrom(s, sig + 1, deliverable)
      else if HandlerOf(s.tasks[s.cur], sig) == Default && (sig == SIG_TERM || sig == SIG_INT) then
        (Exit(Cleared(s, sig), 128 + sig), true)
      else DeliverFrom(Cleared(s, sig), sig + 1, deliverable)
  {
    hide Exit, Cleared, HandlerOf;
  }

  lemma SameWaits(s: Sys, t: nat)
    requires Waits(s, t)
    ensures Still(s, s) && s.tasks[t].state == Ready
  {
  }

  /** Clearing a signal of the current task does not concern t. */
  lemma ClearedWaits(s: Sys, sig: nat, t: nat)
    requires Waits(s, t)
    ensures var c := Cleared(s, sig); Waits(c, t) && c.tasks[t] == s.tasks[t]
  {
  }

  lemma ClearedCloser(s: Sys, sig: nat, t: nat, r: Sys)
    requires Waits(s, t) && Waits(Cleared(s, sig), t)
    ensures var c := Cleared(s, sig);
      && (WaitsOn(s, r, t) ==> WaitsOn(c, r, t) && (Closer(c, r, t) ==> Closer(s, r, t)))
      && (|r.tasks| == MAX_TASKS && Still(c, r) ==> Still(s, r))
  {
  }

  lemma ExitCloser(s: Sys, code: int, t: nat)
    requires Waits(s, t)
    ensures WaitsOn(s, Exit(s, code), t) ==> Closer(s, Exit(s, code), t)
  {
    if s.cur != 0 && WaitsOn(s, Exit(s, code), t) { TurnCloser(s, Marked(s, s.cur, code), t); }
  }

  lemma HousekeepingStill(s: Sys, now: uint64, t: nat)
    requires Waits(s, t)
    ensures var r := Housekeeping(s, now); Still(s, r) && r.tasks[t] == s.tasks[t]
  {
    var w := WakeSleepers(Counted(s), now);
    assert w.tasks[t] == s.tasks[t] && Still(s, w);
    if now % 1024 == 0 { ReapStill(w, 1, t); }
  }

  lemma {:induction false} ReapStill(s: Sys, i: nat, t: nat)
    requires Waits(s, t) && i <= MAX_TASKS
    ensures var r := ReapFrom(s, i); Still(s, r) && r.tasks[t] == s.tasks[t]
    decreases MAX_TASKS - i
  {
    if i < MAX_TASKS { ReapStill(ReapOne(s, i), i + 1, t); }
  }

  lemma CountdownCloser(s: Sys, t: nat)
    requires Waits(s, t) && WaitsOn(s, Countdown(s), t)
    ensures Dist(Countdown(s).cur, t) + (Countdown(s).picks - s.picks) <= Dist(s.cur, t)
    ensures Measure(Countdown(s), t) < Measure(s, t)
  {
    if s.tasks[s.cur].slice <= 1 {
      TurnCloser(s, Put(s, s.cur, s.tasks[s.cur].(slice := TIMESLICE)), t);
    }
  }

  lemma TickCloser(s: Sys, now: uint64, t: nat)
    requires Sound(s) && WaitsOn(s, Tick(s, now), t)
    ensures Dist(Tick(s, now).cur, t) + (Tick(s, now).picks - s.picks) <= Dist(s.cur, t)
    ensures Measure(Tick(s, now), t) < Measure(s, t)
  {
    hide Kept;
    HousekeepingStill(s, now, t);
    var k := Housekeeping(s, now);
    hide Housekeeping;
    DeliverFromCloser(k, 1, Deliverable(k.tasks[k.cur]), t);
    hide DeliverFrom, Countdown;
    if Deliverable(k.tasks[s.cur]) == {} {
      CountdownCloser(k, t);
    } else if !Deliver(k).1 {
      CountdownCloser(Deliver(k).0, t);
    }
  }

  /** One event that leaves t waiting: each pick brings the turn nearer, and so does each tick. */
  lemma StepCloser(s: Sys, e: Event, t: nat)
    requires Sound(s) && FreeListed(s.heap) && Enabled(s, e) && WaitsOn(s, Step(s, e), t)
    ensures var r := Step(s, e); Dist(r.cur, t) + (r.picks - s.picks) <= Dist(s.cur, t)
    ensures var r := Step(s, e); Measure(r, t) + (if e.TickE? then 1 else 0) <= Measure(s, t)
  {
    hide Sound, Possible, Misuses, Tick, Step, Measure;
    SoundShape(s);
    assert Waits(s, t) && Waits(Step(s, e), t);
    hide WaitsOn, Waits, Still, Closer;
    if e.TickE? {
      TickStep(s, e, t);
      TickCloser(s, e.now, t);
    } else {
      PlainStepCloser(s, e, t);
      StillOrCloser(s, Step(s, e), t);
    }
  }

  lemma TickStep(s: Sys, e: Event, t: nat)
    requires Shape(s) && FreeListed(s.heap) && Possible(s, e) && e.TickE?
    ensures Step(s, e) == Tick(s, e.now)
  {
    hide Tick;
  }

  lemma StillOrCloser(s: Sys, r: Sys, t: nat)
    requires Waits(s, t) && Waits(r, t) && (Still(s, r) || Closer(s, r, t))
    ensures Dist(r.cur, t) + (r.picks - s.picks) <= Dist(s.cur, t) && Measure(r, t) <= Measure(s, t)
  {
  }

  lemma PlainStepCloser(s: Sys, e: Event, t: nat)
    requires Shape(s) && FreeListed(s.heap) && Enabled(s, e) && WaitsOn(s, Step(s, e), t) && !e.TickE?
    ensures var r := Step(s, e); Still(s, r) || Closer(s, r, t)
  {
    hide Yield, Sleep, Exit, Block, Kill, Signal, Wait, UnblockMask;
    if e.YieldE? || e.SleepE? || e.WaitE? { YieldCloser(s, e, t); }
    else if e.ExitE? { ExitCloser(s, e.code, t); }
    else if e.BlockE? { BlockCloser(s, e.tid, t); }
    else if e.KillE? { KillCloser(s, e.tid, t); }
    else if e.SignalE? { SignalCloser(s, e.tid, e.sig, t); }
    else if e.UnblockMaskE? { UnblockMaskCloser(s, e.mask, t); }
  }

  lemma YieldCloser(s: Sys, e: Event, t: nat)
    requires Shape(s) && Waits(s, t)
    ensures WaitsOn(s, Yield(s), t) ==> Closer(s, Yield(s), t)
    ensures e.SleepE? && WaitsOn(s, Sleep(s, e.ms, e.now), t) ==> Closer(s, Sleep(s, e.ms, e.now), t)
    ensures e.WaitE? && WaitsOn(s, Wait(s, e.child).0, t) ==>
      Still(s, Wait(s, e.child).0) || Closer(s, Wait(s, e.child).0, t)
  {
    hide Reschedule, Measure;
    CurrentTurn(s, s.tasks[s.cur].(slice := 0), t);
    if e.SleepE? {
      CurrentTurn(s, s.tasks[s.cur].(state := Sleeping, wakeTick := WakeTime(e.now, e.ms)), t);
    } else if e.WaitE? {
      CurrentTurn(s, s.tasks[s.cur].(waitFor := e.child, state := Blocked, resume := e.child), t);
    }
  }

  lemma CurrentTurn(s: Sys, u: Task, t: nat)
    requires Shape(s) && Waits(s, t)
    ensures WaitsOn(s, Reschedule(Put(s, s.cur, u)), t) ==> Closer(s, Reschedule(Put(s, s.cur, u)), t)
  {
    if WaitsOn(s, Reschedule(Put(s, s.cur, u)), t) { TurnCloser(s, Put(s, s.cur, u), t); }
  }

  lemma BlockCloser(s: Sys, i: int, t: nat)
    requires Shape(s) && WaitsOn(s, Block(s, i), t)
    ensures Still(s, Block(s, i)) || Closer(s, Block(s, i), t)
  {
    hide Reschedule, Measure;
    CurrentTurn(s, s.tasks[s.cur].(state := Blocked), t);
  }

  lemma UnblockMaskCloser(s: Sys, mask: set<nat>, t: nat)
    requires Shape(s) && WaitsOn(s, UnblockMask(s, mask), t)
    ensures Still(s, UnblockMask(s, mask)) || Closer(s, UnblockMask(s, mask), t)
  {
    var open := SetMask(s, s.tasks[s.cur].masked - mask);
    assert open.tasks[t] == s.tasks[t] && Still(s, open);
    DeliverFromCloser(open, 1, Deliverable(open.tasks[s.cur]), t);
    hide DeliverFrom;
  }

  lemma KillCloser(s: Sys, i: int, t: nat)
    requires Shape(s) && WaitsOn(s, Kill(s, i).0, t)
    ensures Still(s, Kill(s, i).0) || Closer(s, Kill(s, i).0, t)
  {
    if Kill(s, i).1 == 0 && i == s.cur { TurnCloser(s, Marked(s, i, -9), t); }
  }

  lemma SignalCloser(s: Sys, i: int, sig: int, t: nat)
    requires Shape(s) && WaitsOn(s, Signal(s, i, sig).0, t)
    ensures Still(s, Signal(s, i, sig).0) || Closer(s, Signal(s, i, sig).0, t)
  {
    if sig == SIG_KILL && Signal(s, i, sig).1 == 0 { KillCloser(s, i, t); }
  }

  /** The events lead from s to v, and all the while t waits. */
  ghost predicate KeptWaiting(s: Sys, events: seq<Event>, v: Sys, t: nat)
    decreases |events|
  {
    if events == [] then v == s && Waits(s, t)
    else
      && Shape(s) && FreeListed(s.heap) && Enabled(s, events[0]) && WaitsOn(s, Step(s, events[0]), t)
      && KeptWaiting(Step(s, events[0]), events[1..], v, t)
  }

  function Ticks(events: seq<Event>): nat {
    if events == [] then 0 else (if events[0].TickE? then 1 else 0) + Ticks(events[1..])
  }

  lemma {:induction false} WaitingShrinks(s: Sys, events: seq<Event>, v: Sys, t: nat)
    requires Sound(s) && KeptWaiting(s, events, v, t)
    ensures Waits(s, t) && Waits(v, t)
    ensures Dist(v.cur, t) + (v.picks - s.picks) <= Dist(s.cur, t)
    ensures Measure(v, t) + Ticks(events) <= Measure(s, t)
    decreases |events|
  {
    hide Sound, Step, Measure, Possible, Misuses;
    if events != [] {
      StepCloser(s, events[0], t);
      StepKeepsSound(s, events[0]);
      WaitingShrinks(Step(s, events[0]), events[1..], v, t);
    }
  }

  /**
   Bounded waiting: a ready task that no ready task of higher priority stands
   above at any pick runs at the 31st pick at the latest, and before 310 timer
   ticks have passed.
   */
  lemma BoundedWaiting(s: Sys, events: seq<Event>, v: Sys, t: nat)
    requires Sound(s) && KeptWaiting(s, events, v, t)
    ensures v.picks - s.picks <= 30
    ensures Ticks(events) <= 309
  {
    WaitingShrinks(s, events, v, t);
    SaneAt(s, s.cur);
    assert Dist(s.cur, t) <= 31;
  }
}
