/**
 What a parent that waits for its child gets, and how long a task that blocks or
 sleeps stays away from the processor.
 */
module SchedWaits {
  import opened Words
  import opened Heap
  import opened Sched
  import opened SchedRuns
  import opened SchedTurns

  // ------------------------------------------------------- waiting for a child

  /** The slot's task has ended with that exit code, reaped or not. */
  predicate Ended(s: Sys, i: int, code: int) {
    Shape(s) && 0 <= i < MAX_TASKS && !Alive(s.tasks[i]) && s.tasks[i].exitCode == code
  }

  predicate Reuses(s: Sys, e: Event, i: int)
    requires |s.tasks| > 0
  {
    e.CreateE? && FirstFree(s.tasks, 1) == i
  }

  /** A task that has ended is not picked, so handing over leaves its slot alone. */
  lemma EndedAfterTurn(m: Sys, i: int, code: int)
    requires Ended(m, i, code) && Alive(m.tasks[0])
    ensures Ended(Reschedule(m), i, code)
  {
    PickedOrCurrent(m);
    hide PickNext;
  }

  lemma PickedOrCurrent(m: Sys)
    requires Shape(m) && Alive(m.tasks[0])
    ensures var next := PickNext(m.tasks, m.cur);
      0 <= next < MAX_TASKS && (next == m.cur || Alive(m.tasks[next]))
  {
    PickFromIs(m.tasks, m.cur, NUM_PRIOS - 1);
    hide PickFrom;
  }

  lemma EndedAfterExit(s: Sys, j: int, code': int, i: int, code: int)
    requires Ended(s, i, code) && i != s.cur && i != j && 0 < j < MAX_TASKS && Alive(s.tasks[0])
    ensures Ended(Marked(s, j, code'), i, code) && Ended(Reschedule(Marked(s, j, code')), i, code)
  {
    EndedAfterTurn(Marked(s, j, code'), i, code);
    hide Reschedule;
  }

  lemma {:induction false} EndedAfterReap(s: Sys, k: nat, i: int, code: int)
    requires Ended(s, i, code) && 1 <= k <= MAX_TASKS && Alive(s.tasks[0])
    ensures Ended(ReapFrom(s, k), i, code) && Alive(ReapFrom(s, k).tasks[0])
    decreases MAX_TASKS - k
  {
    if k < MAX_TASKS { EndedAfterReap(ReapOne(s, k), k + 1, i, code); }
  }

  lemma {:induction false} EndedAfterDeliver(s: Sys, sig: nat, deliverable: set<nat>, i: int, code: int)
    requires Ended(s, i, code) && i != s.cur && sig <= SIG_MAX && Alive(s.tasks[0])
    ensures var (r, gone) := DeliverFrom(s, sig, deliverable);
      Ended(r, i, code) && (!gone ==> r.cur == s.cur && Alive(r.tasks[0]))
    decreases SIG_MAX - sig
  {
    if sig == SIG_MAX { return; }
    if sig !in deliverable {
      EndedAfterDeliver(s, sig + 1, deliverable, i, code);
    } else {
      var c := Cleared(s, sig);
      if HandlerOf(s.tasks[s.cur], sig) == Default && (sig == SIG_TERM || sig == SIG_INT) {
        if c.cur != 0 { EndedAfterExit(c, c.cur, 128 + sig, i, code); }
        hide Reschedule, Marked;
      } else {
        EndedAfterDeliver(c, sig + 1, deliverable, i, code);
      }
    }
  }

  lemma EndedAfterTick(s: Sys, now: uint64, i: int, code: int)
    requires Ended(s, i, code) && Alive(s.tasks[0])
    ensures Ended(Tick(s, now), i, code)
  {
    EndedAfterHousekeeping(s, now, i, code);
    var k := Housekeeping(s, now);
    hide Housekeeping;
    if i != s.cur { EndedAfterDeliver(k, 1, Deliverable(k.tasks[k.cur]), i, code); }
    hide DeliverFrom, Countdown;
    var d := if Deliverable(k.tasks[s.cur]) != {} then Deliver(k) else (k, false);
    if !d.1 { EndedAfterCountdown(d.0, i, code); }
  }

  lemma EndedAfterHousekeeping(s: Sys, now: uint64, i: int, code: int)
    requires Ended(s, i, code) && Alive(s.tasks[0])
    ensures var k := Housekeeping(s, now); Ended(k, i, code) && Alive(k.tasks[0])
  {
    var w := WakeSleepers(Counted(s), now);
    assert Ended(w, i, code) && Alive(w.tasks[0]);
    EndedAfterReap(w, 1, i, code);
    hide ReapFrom;
  }

  lemma EndedAfterCountdown(s: Sys, i: int, code: int)
    requires Ended(s, i, code) && Alive(s.tasks[0])
    ensures Ended(Countdown(s), i, code)
  {
    EndedAfterTurn(Put(s, s.cur, s.tasks[s.cur].(slice := TIMESLICE)), i, code);
    hide Reschedule;
  }

  lemma EndedAfterPut(s: Sys, u: Task, i: int, code: int)
    requires Ended(s, i, code) && i != s.cur && Alive(s.tasks[0]) && (s.cur == 0 ==> Alive(u))
    ensures Ended(Reschedule(Put(s, s.cur, u)), i, code)
  {
    EndedAfterTurn(Put(s, s.cur, u), i, code);
  }

  /** Whatever happens, a task that ended keeps its exit code until its slot is used for a new task. */
  lemma StepKeepsEnded(s: Sys, e: Event, i: int, code: int)
    requires Sound(s) && FreeListed(s.heap) && Enabled(s, e) && Ended(s, i, code)
    requires !Reuses(s, e, i) && (i == s.cur ==> e.TickE?)
    ensures Ended(Step(s, e), i, code)
  {
    SaneAt(s, 0);
    SoundShape(s);
    hide Sound, Possible, Misuses;
    if e.TickE? { EndedAfterTick(s, e.now, i, code); hide Tick; }
    else if e.YieldE? || e.SleepE? || e.BlockE? { CallKeepsEnded(s, e, i, code); hide Step; }
    else if e.WaitE? || e.EndWaitE? { WaitKeepsEnded(s, e, i, code); hide Step; }
    else if e.ExitE? || e.KillE? || e.SignalE? || e.UnblockMaskE? { KillKeepsEnded(s, e, i, code); hide Step; }
    else { hide Malloc, Heap.Free; }
  }

  lemma CallKeepsEnded(s: Sys, e: Event, i: int, code: int)
    requires Shape(s) && FreeListed(s.heap) && Enabled(s, e) && Ended(s, i, code) && i != s.cur && Alive(s.tasks[0])
    requires e.YieldE? || e.SleepE? || e.BlockE?
    ensures Ended(Step(s, e), i, code)
  {
    hide Reschedule, WakeTime, Ended, Available;
    if e.YieldE? { EndedAfterPut(s, s.tasks[s.cur].(slice := 0), i, code); }
    else if e.SleepE? { EndedAfterSleep(s, e.ms, e.now, i, code); hide Sleep; }
    else { EndedAfterBlock(s, e.tid, i, code); hide Block; }
  }

  lemma EndedAfterSleep(s: Sys, ms: uint32, now: uint64, i: int, code: int)
    requires Ended(s, i, code) && i != s.cur && Alive(s.tasks[0])
    ensures Ended(Sleep(s, ms, now), i, code)
  {
    EndedAfterPut(s, s.tasks[s.cur].(state := Sleeping, wakeTick := WakeTime(now, ms)), i, code);
    hide Reschedule, WakeTime, Ended;
  }

  lemma EndedAfterBlock(s: Sys, tid: int, i: int, code: int)
    requires Ended(s, i, code) && i != s.cur && Alive(s.tasks[0])
    ensures Ended(Block(s, tid), i, code)
  {
    EndedAfterPut(s, s.tasks[s.cur].(state := Blocked), i, code);
    hide Reschedule;
  }

  lemma WaitKeepsEnded(s: Sys, e: Event, i: int, code: int)
    requires Shape(s) && FreeListed(s.heap) && Enabled(s, e) && Ended(s, i, code) && i != s.cur && Alive(s.tasks[0])
    requires e.WaitE? || e.EndWaitE?
    ensures Ended(Step(s, e), i, code)
  {
    hide Reschedule;
    if e.WaitE? {
      EndedAfterPut(s, s.tasks[s.cur].(waitFor := e.child, state := Blocked, resume := e.child), i, code);
    }
  }

  lemma KillKeepsEnded(s: Sys, e: Event, i: int, code: int)
    requires Shape(s) && FreeListed(s.heap) && Enabled(s, e) && Ended(s, i, code) && i != s.cur && Alive(s.tasks[0])
    requires e.ExitE? || e.KillE? || e.SignalE? || e.UnblockMaskE?
    ensures Ended(Step(s, e), i, code)
  {
    hide Reschedule, Marked, Possible, Misuses;
    if e.ExitE? { if s.cur != 0 { EndedAfterExit(s, s.cur, e.code, i, code); } }
    else if e.UnblockMaskE? {
      var open := SetMask(s, s.tasks[s.cur].masked - e.mask);
      EndedAfterDeliver(open, 1, Deliverable(open.tasks[s.cur]), i, code);
      hide DeliverFrom;
    }
    else if 0 < e.tid < MAX_TASKS && e.tid != i { EndedAfterExit(s, e.tid, -9, i, code); }
  }

  /** A run in which slot i is not used for a new task, and its own task makes no call any more. */
  ghost predicate RunWithoutReuse(s: Sys, events: seq<Event>, v: Sys, i: int)
    decreases |events|
  {
    if events == [] then v == s
    else
      && Shape(s) && FreeListed(s.heap) && Enabled(s, events[0]) && !Reuses(s, events[0], i)
      && (i == s.cur ==> events[0].TickE?)
      && RunWithoutReuse(Step(s, events[0]), events[1..], v, i)
  }

  /** A parent that waited gets its child's exit code, reaped or not, if the child's slot has not been used again. */
  lemma {:induction false} WaitReturnsOwnCode(s: Sys, events: seq<Event>, v: Sys, child: int, code: int)
    requires Sound(s) && Ended(s, child, code) && RunWithoutReuse(s, events, v, child)
    requires Shape(v) && v.tasks[v.cur].resume == child
    ensures EndWait(v).1 == code
    decreases |events|
  {
    hide Sound, Step, Possible, Misuses, Reclaim;
    if events != [] {
      StepKeepsEnded(s, events[0], child, code);
      StepKeepsSound(s, events[0]);
      WaitReturnsOwnCode(Step(s, events[0]), events[1..], v, child, code);
    }
  }

  /**
   If a live task has the slot when the parent resumes, the parent takes its
   stack, frees its slot, and returns a code that is nobody's exit code.
   */
  lemma EndWaitTakesLiveTask(v: Sys, child: int)
    requires Sound(v) && v.tasks[v.cur].resume == child >= 0 && Alive(v.tasks[child])
    ensures
      var (r, code) := EndWait(v);
      && r.tasks[child].state == State.Free && r.ledger == v.ledger + [Released(v.tasks[child].stack)]
      && !Live(r.heap, v.tasks[child].stack - HEADER) && code == v.tasks[child].exitCode
  {
    SaneAt(v, v.cur);
    FreeHasNoStack(v, child);
    GuardedHeap(v);
    hide Sound, Wf, FreeListed;
  }

  /** Somewhere along the run the slot's task ended, and after that the slot was used for a new one. */
  ghost predicate EndedAndReused(s: Sys, events: seq<Event>, child: nat)
    requires child < MAX_TASKS
    decreases |events|
  {
    events != [] && Shape(s) && FreeListed(s.heap) && Enabled(s, events[0])
    && ((!Alive(s.tasks[child]) && Reuses(s, events[0], child)) || EndedAndReused(Step(s, events[0]), events[1..], child))
  }

  /** The slot's task was alive all along the run. */
  ghost predicate LivesThrough(s: Sys, events: seq<Event>, child: nat)
    requires child < MAX_TASKS
    decreases |events|
  {
    && Shape(s) && Alive(s.tasks[child])
    && (events != [] ==> FreeListed(s.heap) && Enabled(s, events[0]) && LivesThrough(Step(s, events[0]), events[1..], child))
  }

  /** A run in which no ended task of that slot makes a call any more. */
  ghost predicate SilentRun(s: Sys, events: seq<Event>, v: Sys, i: int)
    decreases |events|
  {
    if events == [] then v == s
    else
      && Shape(s) && FreeListed(s.heap) && Enabled(s, events[0])
      && (i == s.cur && 0 <= i < MAX_TASKS && !Alive(s.tasks[i]) ==> events[0].TickE?)
      && SilentRun(Step(s, events[0]), events[1..], v, i)
  }

  /**
   There are just two ways for that to come about: the child never ended, so
   that something else than its end unblocked the parent; or it did, and its
   slot was used again before the parent resumed.
   */
  lemma {:induction false} LiveAtResumeEither(s: Sys, events: seq<Event>, v: Sys, child: nat)
    requires Sound(s) && child < MAX_TASKS && SilentRun(s, events, v, child) && Shape(v)
    requires Alive(v.tasks[child])
    ensures LivesThrough(s, events, child) || EndedAndReused(s, events, child) || !Alive(s.tasks[child])
    ensures !Alive(s.tasks[child]) ==> EndedAndReused(s, events, child)
    decreases |events|
  {
    hide Sound, Step, Possible, Misuses, Reuses;
    SoundShape(s);
    if events != [] {
      var r := Step(s, events[0]);
      StepKeepsSound(s, events[0]);
      LiveAtResumeEither(r, events[1..], v, child);
      if !Alive(s.tasks[child]) && !Reuses(s, events[0], child) {
        StepKeepsEnded(s, events[0], child, s.tasks[child].exitCode);
      }
    }
  }

  // ------------------------------------------- staying away from the processor

  /** The task cannot be picked. */
  predicate Parked(t: Task) { t.state == Blocked || t.state == Sleeping }

  /** Task t is blocked in a wait that the end of its child w ends. */
  predicate Awaits(s: Sys, t: nat, w: int)
    requires Shape(s) && t < MAX_TASKS
  {
    0 <= w < MAX_TASKS && s.tasks[t].state == Blocked && s.tasks[t].waitFor == w && s.tasks[w].parent == t
  }

  /** The child that t waits for has come to its end. */
  predicate ChildEnds(s: Sys, r: Sys, t: nat)
    requires Shape(s) && Shape(r) && t < MAX_TASKS
  {
    var w := s.tasks[t].waitFor;
    Awaits(s, t, w) && Alive(s.tasks[w]) && !Alive(r.tasks[w])
  }

  /** The step is meant for t and ends its parking. */
  predicate Addresses(s: Sys, e: Event, t: nat)
    requires Shape(s) && t < MAX_TASKS
  {
    var u := s.tasks[t];
    match e
    case UnblockE(i) => i == t && u.state == Blocked
    case KillE(i) => i == t
    case SignalE(i, sig) =>
      i == t && sig != SIG_STOP && (if u.state == Blocked then sig == SIG_KILL || sig == SIG_CONT
                                    else sig == SIG_KILL || (sig != SIG_CONT && !(sig >= 0 && sig in u.masked)))
    case TickE(now) => u.state == Sleeping && now >= u.wakeTick
    case EndWaitE => s.tasks[s.cur].resume == t
    case ExitE(_) => s.cur != 0 && Awaits(s, t, s.cur)
    case _ => false
  }

  predicate Rouses(s: Sys, e: Event, t: nat)
    requires Shape(s) && FreeListed(s.heap) && Enabled(s, e) && t < MAX_TASKS
  {
    Addresses(s, e, t) || ChildEnds(s, Step(s, e), t)
  }

  /** Task t is as it was, and not at the processor. */
  predicate Stays(s: Sys, r: Sys, t: nat) {
    && |s.tasks| == |r.tasks| == MAX_TASKS && t < MAX_TASKS && t != r.cur
    && r.tasks[t].state == s.tasks[t].state && r.tasks[t].wakeTick == s.tasks[t].wakeTick
  }

  lemma ParkedAfterTurn(m: Sys, t: nat)
    requires Shape(m) && t < MAX_TASKS && t != m.cur && Parked(m.tasks[t])
    ensures Reschedule(m).tasks[t] == m.tasks[t] && Reschedule(m).cur != t
  {
    PickFromIs(m.tasks, m.cur, NUM_PRIOS - 1);
    assert PickNext(m.tasks, m.cur) != t;
    hide PickFrom, PickNext;
  }

  lemma ParkedAfterPut(s: Sys, u: Task, t: nat)
    requires Shape(s) && t < MAX_TASKS && t != s.cur && Parked(s.tasks[t])
    ensures Stays(s, Put(s, s.cur, u), t) && Stays(s, Reschedule(Put(s, s.cur, u)), t)
  {
    ParkedAfterTurn(Put(s, s.cur, u), t);
    hide Reschedule;
  }

  /** The end of task j leaves t parked, unless t was waiting for it. */
  lemma ParkedAfterEnd(s: Sys, j: int, code: int, t: nat)
    requires Shape(s) && t < MAX_TASKS && t != s.cur && Parked(s.tasks[t]) && 0 < j < MAX_TASKS && j != t
    requires !Awaits(s, t, j)
    ensures var m := Marked(s, j, code); Stays(s, m, t) && Stays(s, Reschedule(m), t)
  {
    ParkedAfterTurn(Marked(s, j, code), t);
    hide Reschedule;
  }

  /** A task that is ended is ended for good, another running or not. */
  lemma EndedByMark(s: Sys, j: int, code: int)
    requires Shape(s) && 0 < j < MAX_TASKS && s.tasks[j].parent != j && Alive(s.tasks[0])
    ensures var m := Marked(s, j, code); Ended(m, j, code) && Ended(Reschedule(m), j, code)
  {
    var m := Marked(s, j, code);
    EndedAfterTurn(m, j, code);
    hide Reschedule;
  }

  lemma {:induction false} ParkedAfterDeliver(s: Sys, sig: nat, deliverable: set<nat>, t: nat)
    requires Shape(s) && sig <= SIG_MAX && t < MAX_TASKS && t != s.cur && Parked(s.tasks[t])
    requires Alive(s.tasks[0]) && s.tasks[s.cur].parent != s.cur
    ensures var (r, gone) := DeliverFrom(s, sig, deliverable);
      (Stays(s, r, t) && (!gone ==> r.cur == s.cur)) || (gone && Awaits(s, t, s.cur) && !Alive(r.tasks[s.cur]))
    decreases SIG_MAX - sig
  {
    if sig == SIG_MAX { return; }
    if sig !in deliverable {
      ParkedAfterDeliver(s, sig + 1, deliverable, t);
    } else {
      var c := Cleared(s, sig);
      if HandlerOf(s.tasks[s.cur], sig) == Default && (sig == SIG_TERM || sig == SIG_INT) {
        if c.cur != 0 {
          EndedByMark(c, c.cur, 128 + sig);
          if !Awaits(c, t, c.cur) { ParkedAfterEnd(c, c.cur, 128 + sig, t); }
        }
        hide Reschedule, Marked;
      } else {
        ParkedAfterDeliver(c, sig + 1, deliverable, t);
      }
    }
  }

  lemma {:induction false} ParkedAfterReap(s: Sys, k: nat, t: nat)
    requires Shape(s) && k <= MAX_TASKS && t < MAX_TASKS && Parked(s.tasks[t])
    ensures var r := ReapFrom(s, k); r.tasks[t] == s.tasks[t]
    decreases MAX_TASKS - k
  {
    if k < MAX_TASKS { ParkedAfterReap(ReapOne(s, k), k + 1, t); }
  }

  lemma {:induction false} ReapKeepsPlaces(s: Sys, k: nat, i: nat)
    requires Shape(s) && k <= MAX_TASKS && i < MAX_TASKS
    ensures var u := ReapFrom(s, k).tasks[i];
      u.parent == s.tasks[i].parent && (Alive(u) <==> Alive(s.tasks[i]))
    decreases MAX_TASKS - k
  {
    if k < MAX_TASKS { ReapKeepsPlaces(ReapOne(s, k), k + 1, i); }
  }

  lemma ParkedAfterHousekeeping(s: Sys, now: uint64, t: nat)
    requires Shape(s) && t < MAX_TASKS && t != s.cur && Parked(s.tasks[t])
    requires s.tasks[t].state == Sleeping ==> now < s.tasks[t].wakeTick
    ensures var k := Housekeeping(s, now); k.tasks[t] == s.tasks[t]
  {
    var w := WakeSleepers(Counted(s), now);
    assert w.tasks[t] == s.tasks[t];
    ParkedAfterReap(w, 1, t);
    hide ReapFrom;
  }

  lemma HousekeepingKeepsPlaces(s: Sys, now: uint64, i: nat)
    requires Shape(s) && i < MAX_TASKS
    ensures var u := Housekeeping(s, now).tasks[i];
      u.parent == s.tasks[i].parent && (Alive(u) <==> Alive(s.tasks[i]))
  {
    var w := WakeSleepers(Counted(s), now);
    assert w.tasks[i].parent == s.tasks[i].parent && (Alive(w.tasks[i]) <==> Alive(s.tasks[i]));
    ReapKeepsPlaces(w, 1, i);
    hide ReapFrom;
  }

  lemma ParkedAfterTick(s: Sys, now: uint64, t: nat)
    requires Sound(s) && t < MAX_TASKS && t != s.cur && Parked(s.tasks[t]) && !Addresses(s, TickE(now), t)
    ensures Stays(s, Tick(s, now), t) || ChildEnds(s, Tick(s, now), t)
  {
    SaneAt(s, 0);
    SaneAt(s, s.cur);
    SoundShape(s);
    hide Sound, Housekeeping, Countdown, DeliverFrom;
    ParkedAfterHousekeeping(s, now, t);
    HousekeepingKeepsPlaces(s, now, 0);
    HousekeepingKeepsPlaces(s, now, s.cur);
    var k := Housekeeping(s, now);
    if Alive(k.tasks[k.cur]) { ParkedAfterDeliver(k, 1, Deliverable(k.tasks[k.cur]), t); }
    var d := if Deliverable(k.tasks[k.cur]) != {} then Deliver(k) else (k, false);
    if !d.1 { ParkedAfterCountdown(d.0, t); }
  }

  lemma ParkedAfterCountdown(s: Sys, t: nat)
    requires Shape(s) && t < MAX_TASKS && t != s.cur && Parked(s.tasks[t])
    ensures Stays(s, Countdown(s), t)
  {
    ParkedAfterPut(s, s.tasks[s.cur].(slice := TIMESLICE), t);
    hide Reschedule;
  }

  lemma ParkedAfterExit(s: Sys, code: int, t: nat)
    requires Sound(s) && t < MAX_TASKS && t != s.cur && Parked(s.tasks[t]) && !Addresses(s, ExitE(code), t)
    ensures Stays(s, Exit(s, code), t)
  {
    SoundShape(s);
    hide Sound, Reschedule, Marked;
    if s.cur != 0 { ParkedAfterEnd(s, s.cur, code, t); }
  }

  /** The end of task j, another running or not, leaves t parked unless t waits for j. */
  lemma EndLeavesParked(s: Sys, j: int, code: int, t: nat)
    requires Shape(s) && t < MAX_TASKS && t != s.cur && Parked(s.tasks[t]) && 0 < j < MAX_TASKS && j != t
    requires Alive(s.tasks[j]) && s.tasks[j].parent != j && Alive(s.tasks[0])
    ensures var m := Marked(s, j, code); Stays(s, m, t) || ChildEnds(s, m, t)
    ensures var r := Reschedule(Marked(s, j, code)); Stays(s, r, t) || ChildEnds(s, r, t)
  {
    EndedByMark(s, j, code);
    if !Awaits(s, t, j) { ParkedAfterEnd(s, j, code, t); }
    hide Reschedule, Marked;
  }

  lemma ParkedAfterKill(s: Sys, i: int, t: nat)
    requires Sound(s) && t < MAX_TASKS && t != s.cur && Parked(s.tasks[t]) && !Addresses(s, KillE(i), t)
    ensures Stays(s, Kill(s, i).0, t) || ChildEnds(s, Kill(s, i).0, t)
  {
    SaneAt(s, 0);
    SoundShape(s);
    hide Sound, Reschedule, Marked, ChildEnds;
    if 0 < i < MAX_TASKS && Alive(s.tasks[i]) {
      SaneAt(s, i);
      EndLeavesParked(s, i, -9, t);
    }
  }

  lemma ParkedAfterUnblockMask(s: Sys, mask: set<nat>, t: nat)
    requires Sound(s) && t < MAX_TASKS && t != s.cur && Parked(s.tasks[t])
    ensures Stays(s, UnblockMask(s, mask), t) || ChildEnds(s, UnblockMask(s, mask), t)
  {
    SaneAt(s, 0);
    SaneAt(s, s.cur);
    SoundShape(s);
    hide Sound, DeliverFrom;
    var open := SetMask(s, s.tasks[s.cur].masked - mask);
    if Alive(s.tasks[s.cur]) { ParkedAfterDeliver(open, 1, Deliverable(open.tasks[s.cur]), t); }
  }

  lemma ParkedAfterSignal(s: Sys, i: int, sig: int, t: nat)
    requires Sound(s) && t < MAX_TASKS && t != s.cur && Parked(s.tasks[t])
    requires !Addresses(s, SignalE(i, sig), t)
    ensures Stays(s, Signal(s, i, sig).0, t) || ChildEnds(s, Signal(s, i, sig).0, t)
  {
    SoundShape(s);
    hide Sound, Kill;
    if sig == SIG_KILL {
      if i != t { ParkedAfterKill(s, i, t); }
      SignalIsKill(s, i);
    }
  }

  lemma ParkedAfterReclaim(s: Sys, i: int, t: nat)
    requires Shape(s) && 0 <= i < MAX_TASKS && t < MAX_TASKS && t != s.cur && i != t
    ensures Stays(s, Reclaim(s, i), t) && Stays(s, s, t)
  {
    hide Heap.Free;
  }

  lemma ParkedAfterWait(s: Sys, child: int, t: nat)
    requires Sound(s) && t < MAX_TASKS && t != s.cur && Parked(s.tasks[t])
    ensures Stays(s, Wait(s, child).0, t)
  {
    SoundShape(s);
    hide Sound, Reschedule, Reclaim, Stays;
    ParkedAfterReclaim(s, if t == 0 then 1 else 0, t);
    if 0 <= child < MAX_TASKS {
      if s.tasks[child].state == Dead { ParkedAfterReclaim(s, child, t); }
      else { ParkedAfterPut(s, s.tasks[s.cur].(waitFor := child, state := Blocked, resume := child), t); }
    }
  }

  lemma ParkedAfterYield(s: Sys, ms: uint32, now: uint64, i: int, t: nat)
    requires Sound(s) && t < MAX_TASKS && t != s.cur && Parked(s.tasks[t])
    ensures Stays(s, Yield(s), t) && Stays(s, Sleep(s, ms, now), t) && Stays(s, Block(s, i), t)
  {
    SoundShape(s);
    hide Sound, Reschedule, WakeTime;
    var u := s.tasks[s.cur];
    hide Stays, Parked;
    ParkedAfterPut(s, u.(slice := 0), t);
    ParkedAfterPut(s, u.(state := Sleeping, wakeTick := WakeTime(now, ms)), t);
    ParkedAfterPut(s, u.(state := Blocked), t);
    StaysPut(s, t);
  }

  lemma StaysPut(s: Sys, t: nat)
    requires Shape(s) && t < MAX_TASKS && t != s.cur
    ensures Stays(s, s, t)
    ensures forall i :: 0 <= i < MAX_TASKS && i != t ==> Stays(s, Put(s, i, s.tasks[i].(state := Blocked)), t)
    ensures Parked(s.tasks[t]) ==> s.tasks[t].state != Ready && s.tasks[t].state != Running
  {
  }

  /** A blocked or sleeping task stays where it is, away from the processor, unless the step is one that rouses it. */
  lemma ParkedStays(s: Sys, e: Event, t: nat)
    requires Sound(s) && FreeListed(s.heap) && Enabled(s, e)
    requires t < MAX_TASKS && t != s.cur && Parked(s.tasks[t]) && !Rouses(s, e, t)
    ensures Stays(s, Step(s, e), t)
  {
    SoundShape(s);
    if e.YieldE? || e.SleepE? || e.BlockE? || e.WaitE? { ParkedAfterSwitch(s, e, t); hide *; }
    else if e.TickE? || e.ExitE? || e.KillE? || e.SignalE? || e.UnblockMaskE? { ParkedAfterDeath(s, e, t); hide *; }
    else { hide Sound, Malloc, Heap.Free, NoWrap; }
  }

  lemma ParkedAfterSwitch(s: Sys, e: Event, t: nat)
    requires Sound(s) && FreeListed(s.heap) && Enabled(s, e) && t < MAX_TASKS && t != s.cur && Parked(s.tasks[t])
    requires e.YieldE? || e.SleepE? || e.BlockE? || e.WaitE?
    ensures Stays(s, Step(s, e), t)
  {
    SoundShape(s);
    hide Sound, Yield, Sleep, Block, Wait, Stays, FreeListed, Parked;
    if e.YieldE? { ParkedAfterYield(s, 0, 0, 0, t); }
    else if e.SleepE? { ParkedAfterYield(s, e.ms, e.now, 0, t); }
    else if e.BlockE? { ParkedAfterYield(s, 0, 0, e.tid, t); }
    else { ParkedAfterWait(s, e.child, t); }
  }

  lemma ParkedAfterDeath(s: Sys, e: Event, t: nat)
    requires Sound(s) && FreeListed(s.heap) && Enabled(s, e)
    requires t < MAX_TASKS && t != s.cur && Parked(s.tasks[t]) && !Rouses(s, e, t)
    requires e.TickE? || e.ExitE? || e.KillE? || e.SignalE? || e.UnblockMaskE?
    ensures Stays(s, Step(s, e), t)
  {
    SoundShape(s);
    hide Sound, Exit, Kill, Signal, UnblockMask, Tick, FreeListed, Stays, ChildEnds, Addresses, Parked, NoWrap;
    if e.ExitE? { ParkedAfterExit(s, e.code, t); }
    else if e.KillE? { ParkedAfterKill(s, e.tid, t); }
    else if e.SignalE? { ParkedAfterSignal(s, e.tid, e.sig, t); }
    else if e.UnblockMaskE? { ParkedAfterUnblockMask(s, e.mask, t); }
    else { ParkedAfterTick(s, e.now, t); }
  }

  /** A run in which nothing rouses task t. */
  ghost predicate Undisturbed(s: Sys, events: seq<Event>, v: Sys, t: nat)
    decreases |events|
  {
    if events == [] then v == s
    else
      && Shape(s) && FreeListed(s.heap) && Enabled(s, events[0]) && t < MAX_TASKS && !Rouses(s, events[0], t)
      && Undisturbed(Step(s, events[0]), events[1..], v, t)
  }

  /**
   However a run goes, a task that blocked or went to sleep and was switched
   away from does not run before an event rouses it: for a blocked one its
   unblocking, SIGCONT, its own death, or the end of the child it waits for;
   for a sleeping one the first tick at its deadline or later, or a signal that
   it does not mask.
   */
  lemma {:induction false} ParkedUntilRoused(s: Sys, events: seq<Event>, v: Sys, t: nat)
    requires Sound(s) && t < MAX_TASKS && t != s.cur && Parked(s.tasks[t]) && Undisturbed(s, events, v, t)
    ensures Sound(v) && Shape(v) && v.cur != t
    ensures v.tasks[t].state == s.tasks[t].state && v.tasks[t].wakeTick == s.tasks[t].wakeTick
    decreases |events|
  {
    hide Sound, Step, Possible, Misuses, Rouses;
    SoundShape(s);
    if events != [] {
      ParkedStays(s, events[0], t);
      StepKeepsSound(s, events[0]);
      ParkedUntilRoused(Step(s, events[0]), events[1..], v, t);
    }
  }

  // --------------------------------------------------- what the callers can rely on

  /** Another task takes over from the current one. */
  ghost predicate HandedOver(s: Sys, r: Sys) {
    && Shape(s) && Shape(r) && r.cur != s.cur && r.tasks[r.cur].state == Running && r.tasks[r.cur].slice == TIMESLICE
    && forall i :: 0 <= i < MAX_TASKS && i != s.cur && i != r.cur ==> r.tasks[i] == s.tasks[i]
  }

  lemma TurnHandsOver(m: Sys)
    requires Shape(m) && PriosInRange(m.tasks) && m.tasks[m.cur].state != Ready
    requires exists i :: 0 <= i < MAX_TASKS && m.tasks[i].state == Ready
    ensures var r := Reschedule(m);
      && HandedOver(m, r) && Best(m.tasks, m.cur, NUM_PRIOS - 1, r.cur)
      && r.tasks[m.cur] == m.tasks[m.cur].(state := if m.tasks[m.cur].state == Running then Ready else m.tasks[m.cur].state)
  {
    PickNextIs(m.tasks, m.cur);
    hide PickNext;
  }

  lemma SameOthersBest(s: Sys, u: Task, r: int)
    requires Shape(s) && s.tasks[s.cur].state != Ready && u.state != Ready && 0 <= r < MAX_TASKS
    requires Best(s.tasks[s.cur := u], s.cur, NUM_PRIOS - 1, r)
    ensures Best(s.tasks, s.cur, NUM_PRIOS - 1, r)
  {
    var tasks := s.tasks[s.cur := u];
    forall i | 0 <= i < MAX_TASKS && s.tasks[i].state == Ready && s.tasks[i].prio <= NUM_PRIOS - 1
      ensures s.tasks[i].prio < s.tasks[r].prio || (s.tasks[i].prio == s.tasks[r].prio && Dist(s.cur, r) <= Dist(s.cur, i))
    {
      assert i != s.cur && tasks[i] == s.tasks[i];
    }
  }

  lemma ReadyBeside(s: Sys, u: Task)
    requires Sound(s) && u.prio == s.tasks[s.cur].prio && s.tasks[s.cur].state != Ready
    requires exists i :: 0 <= i < MAX_TASKS && s.tasks[i].state == Ready
    ensures PriosInRange(s.tasks[s.cur := u])
    ensures var tasks := s.tasks[s.cur := u]; exists i :: 0 <= i < MAX_TASKS && tasks[i].state == Ready
  {
    GuardedPrios(s);
    var i :| 0 <= i < MAX_TASKS && s.tasks[i].state == Ready;
    var tasks := s.tasks[s.cur := u];
    assert tasks[i].state == Ready;
    hide Guarded;
  }

  /** The current task changed to u, which is not ready, hands over to the best of the ready ones. */
  lemma ChangedHandsOver(s: Sys, u: Task)
    requires Sound(s) && s.tasks[s.cur].state == Running && u.state != Ready && u.prio == s.tasks[s.cur].prio
    requires exists i :: 0 <= i < MAX_TASKS && s.tasks[i].state == Ready
    ensures var r := Reschedule(Put(s, s.cur, u));
      && HandedOver(s, r) && Best(s.tasks, s.cur, NUM_PRIOS - 1, r.cur)
      && r.tasks[s.cur] == u.(state := if u.state == Running then Ready else u.state)
  {
    SoundShape(s);
    hide Sound, PriosInRange, Reschedule, Best, HandedOver;
    ReadyBeside(s, u);
    TurnHandsOver(Put(s, s.cur, u));
    var r := Reschedule(Put(s, s.cur, u));
    SameOthersHandedOver(s, u, r);
    SameOthersBest(s, u, r.cur);
  }

  lemma SameOthersHandedOver(s: Sys, u: Task, r: Sys)
    requires Shape(s) && HandedOver(Put(s, s.cur, u), r)
    ensures HandedOver(s, r)
  {
  }

  /**
   A running task that yields while another is ready hands over to the best of
   the ready ones and is ready again, to run at the 31st pick at the latest
   while none of higher priority stands above it.
   */
  lemma YieldHandsOver(s: Sys)
    requires Sound(s) && s.tasks[s.cur].state == Running
    requires exists i :: 0 <= i < MAX_TASKS && s.tasks[i].state == Ready
    ensures var r := Yield(s);
      HandedOver(s, r) && Best(s.tasks, s.cur, NUM_PRIOS - 1, r.cur) && Waits(r, s.cur)
    ensures forall events, v :: KeptWaiting(Yield(s), events, v, s.cur) ==> v.picks - Yield(s).picks <= 30
  {
    SaneAt(s, s.cur);
    SleepKeeps(s, 0, 0);
    hide Sound, Best, Reschedule;
    ChangedHandsOver(s, s.tasks[s.cur].(slice := 0));
    hide Yield;
    forall events, v | KeptWaiting(Yield(s), events, v, s.cur) ensures v.picks - Yield(s).picks <= 30 {
      BoundedWaiting(Yield(s), events, v, s.cur);
    }
  }

  /**
   A running task that sleeps while another is ready hands over to the best of
   the ready ones, and does not run again before the first tick at its deadline
   or later, unless a signal it does not mask wakes it.
   */
  lemma SleepsUntilDeadline(s: Sys, ms: uint32, now: uint64, events: seq<Event>, v: Sys)
    requires Sound(s) && s.tasks[s.cur].state == Running
    requires exists i :: 0 <= i < MAX_TASKS && s.tasks[i].state == Ready
    requires Undisturbed(Sleep(s, ms, now), events, v, s.cur)
    ensures var r := Sleep(s, ms, now);
      && HandedOver(s, r) && Best(s.tasks, s.cur, NUM_PRIOS - 1, r.cur)
      && r.tasks[s.cur].wakeTick == WakeTime(now, ms)
    ensures Shape(v) && v.cur != s.cur && v.tasks[s.cur].state == Sleeping
  {
    SaneAt(s, s.cur);
    SleepKeeps(s, ms, now);
    hide Sound, Best, Reschedule, WakeTime, Undisturbed;
    ChangedHandsOver(s, s.tasks[s.cur].(state := Sleeping, wakeTick := WakeTime(now, ms)));
    ParkedUntilRoused(Sleep(s, ms, now), events, v, s.cur);
  }

  /**
   A running task that blocks while another is ready hands over to the best of
   the ready ones, and does not run again before something unblocks it.
   */
  lemma BlocksUntilRoused(s: Sys, events: seq<Event>, v: Sys)
    requires Sound(s) && s.tasks[s.cur].state == Running
    requires exists i :: 0 <= i < MAX_TASKS && s.tasks[i].state == Ready
    requires Undisturbed(Block(s, s.cur), events, v, s.cur)
    ensures var r := Block(s, s.cur); HandedOver(s, r) && Best(s.tasks, s.cur, NUM_PRIOS - 1, r.cur)
    ensures Shape(v) && v.cur != s.cur && v.tasks[s.cur].state == Blocked
  {
    SaneAt(s, s.cur);
    BlockKeeps(s, s.cur);
    hide Sound, Best, Reschedule, Undisturbed;
    ChangedHandsOver(s, s.tasks[s.cur].(state := Blocked));
    ParkedUntilRoused(Block(s, s.cur), events, v, s.cur);
  }

  /**
   Unblocking takes back the blocking of another task exactly if that task was
   not blocked before: one blocked already is made ready.
   */
  lemma UnblockUndoesBlockIff(s: Sys, i: int)
    requires Shape(s) && Alone(s) && i != s.cur
    ensures Unblock(Block(s, i), i) == s <==> !(0 <= i < MAX_TASKS && s.tasks[i].state == Blocked)
  {
    if 0 <= i < MAX_TASKS {
      assert s.tasks[i] == Unblock(Block(s, i), i).tasks[i] || s.tasks[i].state == Blocked;
      assert s.tasks[i := s.tasks[i]] == s.tasks;
    }
  }

  /**
   A block takes the caller off the processor exactly if the caller was running
   or ready and another task is ready. Otherwise sched_block returns at once:
   nobody is there to switch to, the idle task being asleep.
   */
  lemma BlockSwitchesIff(s: Sys)
    requires Sound(s)
    ensures Block(s, s.cur).cur != s.cur <==>
      && (s.tasks[s.cur].state == Running || s.tasks[s.cur].state == Ready)
      && exists i :: 0 <= i < MAX_TASKS && i != s.cur && s.tasks[i].state == Ready
  {
    if s.tasks[s.cur].state == Running || s.tasks[s.cur].state == Ready {
      var m := Put(s, s.cur, s.tasks[s.cur].(state := Blocked));
      SaneAt(s, s.cur);
      PutGuards(s, s.cur, s.tasks[s.cur].(state := Blocked));
      GuardedPrios(m);
      PickedElsewhereIff(m);
      hide Guarded, Reschedule;
      assert forall i :: 0 <= i < MAX_TASKS && i != s.cur ==> m.tasks[i] == s.tasks[i];
    }
  }

  lemma PickedElsewhereIff(m: Sys)
    requires Shape(m) && PriosInRange(m.tasks) && m.tasks[m.cur].state == Blocked && Alone(m)
    ensures Reschedule(m).cur != m.cur <==> exists i :: 0 <= i < MAX_TASKS && m.tasks[i].state == Ready
  {
    PickNextIs(m.tasks, m.cur);
    hide PickNext;
  }
}
