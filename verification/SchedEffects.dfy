/**
 What the scheduler's calls are for, seen from outside their bodies: sleepers
 are woken, ends are reported to the parent that waits, signals arrive.
 */
module SchedEffects {
  import opened Words
  import opened Heap
  import opened Sched
  import opened SchedRuns
  import opened SchedTurns
  import opened SchedWaits

  // ---------------------------------------------------------- sleepers wake up

  /** Task t, the same task as before, can run, or it is at the processor. */
  predicate Up(s: Sys, r: Sys, t: nat) {
    && Shape(s) && Shape(r) && t < MAX_TASKS
    && r.tasks[t].prio == s.tasks[t].prio && r.tasks[t].stack == s.tasks[t].stack
    && r.tasks[t].state == if r.cur == t then Running else Ready
  }

  lemma UpAfterTurn(m: Sys, t: nat)
    requires Up(m, m, t) && t != m.cur
    ensures Up(m, Reschedule(m), t)
  {
    hide PickNext;
  }

  lemma UpAfterExit(s: Sys, code: int, t: nat)
    requires Up(s, s, t) && t != s.cur
    ensures Up(s, Exit(s, code), t)
  {
    if s.cur != 0 { UpAfterTurn(Marked(s, s.cur, code), t); }
    hide Reschedule;
  }

  /** Clearing a signal of the current task does not concern t. */
  lemma UpAfterCleared(s: Sys, sig: nat, t: nat)
    requires Up(s, s, t) && t != s.cur
    ensures var c := Cleared(s, sig); Up(c, c, t) && c.cur == s.cur && forall r :: Up(c, r, t) ==> Up(s, r, t)
  {
  }

  lemma {:induction false} UpAfterDeliver(s: Sys, sig: nat, deliverable: set<nat>, t: nat)
    requires Up(s, s, t) && t != s.cur && sig <= SIG_MAX
    ensures var (r, gone) := DeliverFrom(s, sig, deliverable); Up(s, r, t) && (!gone ==> r.cur == s.cur)
    decreases SIG_MAX - sig
  {
    assert Shape(s);
    hide Exit, Cleared, Up, HandlerOf;
    if sig < SIG_MAX && sig !in deliverable {
      UpAfterDeliver(s, sig + 1, deliverable, t);
    } else if sig < SIG_MAX {
      UpAfterCleared(s, sig, t);
      var c := Cleared(s, sig);
      if HandlerOf(s.tasks[s.cur], sig) == Default && (sig == SIG_TERM || sig == SIG_INT) {
        UpAfterExit(c, 128 + sig, t);
      } else {
        UpAfterDeliver(c, sig + 1, deliverable, t);
      }
    }
  }

  lemma UpAfterCountdown(s: Sys, t: nat)
    requires Up(s, s, t) && t != s.cur
    ensures Up(s, Countdown(s), t)
  {
    UpAfterTurn(Put(s, s.cur, s.tasks[s.cur].(slice := TIMESLICE)), t);
    hide Reschedule;
  }

  lemma {:induction false} ReapSparesLiving(s: Sys, k: nat, t: nat)
    requires Shape(s) && k <= MAX_TASKS && t < MAX_TASKS && Alive(s.tasks[t])
    ensures ReapFrom(s, k).tasks[t] == s.tasks[t]
    decreases MAX_TASKS - k
  {
    hide Heap.Free;
    if k < MAX_TASKS { ReapSparesLiving(ReapOne(s, k), k + 1, t); }
  }

  lemma WokenByHousekeeping(s: Sys, now: uint64, t: nat)
    requires Shape(s) && t < MAX_TASKS && s.tasks[t].state == Sleeping && now >= s.tasks[t].wakeTick
    ensures var k := Housekeeping(s, now);
      k.cur == s.cur && k.tasks[t] == s.tasks[t].(state := Ready, ticks := k.tasks[t].ticks)
  {
    var w := WakeSleepers(Counted(s), now);
    assert w.tasks[t].state == Ready;
    ReapSparesLiving(w, 1, t);
    hide ReapFrom;
  }

  /** A tick wakes every sleeper whose time has come. */
  lemma TickWakes(s: Sys, now: uint64, t: nat)
    requires Shape(s) && t < MAX_TASKS && t != s.cur && s.tasks[t].state == Sleeping && now >= s.tasks[t].wakeTick
    ensures Up(s, Tick(s, now), t)
  {
    TickIs(s, now);
    WokenByHousekeeping(s, now, t);
    var k := Housekeeping(s, now);
    hide Tick, Housekeeping, Countdown, DeliverFrom, Deliverable;
    UpAfterDeliver(k, 1, Deliverable(k.tasks[k.cur]), t);
    UpAfterCountdown(k, t);
    if !Deliver(k).1 { UpAfterCountdown(Deliver(k).0, t); }
  }

  /** One that no other task could take over from is woken too, unless a signal of that tick ends it. */
  lemma TickWakesCurrent(s: Sys, now: uint64)
    requires Shape(s) && s.tasks[s.cur].state == Sleeping && now >= s.tasks[s.cur].wakeTick
    requires !Lethal(s.tasks[s.cur])
    ensures Tick(s, now).tasks[s.cur].state == Ready
  {
    TickIs(s, now);
    WokenByHousekeeping(s, now, s.cur);
    var k := Housekeeping(s, now);
    assert k.tasks[k.cur] == s.tasks[s.cur].(state := Ready, ticks := k.tasks[k.cur].ticks);
    SameSignals(s.tasks[s.cur], k.tasks[k.cur]);
    hide Tick, Housekeeping, Countdown, Lethal, Deliverable;
    HarmlessDelivery(k);
    CountdownLeavesReady(k);
    hide Deliver;
    CountdownLeavesReady(Deliver(k).0);
  }

  lemma SameSignals(t: Task, u: Task)
    requires u == t.(state := u.state, ticks := u.ticks)
    ensures Lethal(u) == Lethal(t)
  {
    if Lethal(t) {
      var g :| g in Deliverable(t) && (g == SIG_TERM || g == SIG_INT) && HandlerOf(t, g) == Default;
      assert g in Deliverable(u) && HandlerOf(u, g) == Default;
    }
    if Lethal(u) {
      var g :| g in Deliverable(u) && (g == SIG_TERM || g == SIG_INT) && HandlerOf(u, g) == Default;
      assert g in Deliverable(t) && HandlerOf(t, g) == Default;
    }
  }

  lemma HarmlessDelivery(k: Sys)
    requires Shape(k) && k.tasks[k.cur].state == Ready && !Lethal(k.tasks[k.cur])
    ensures var (r, gone) := Deliver(k); !gone && r.cur == k.cur && r.tasks[k.cur].state == Ready
  {
    var t := k.tasks[k.cur];
    forall g | g in Deliverable(t) && (g == SIG_TERM || g == SIG_INT) ensures HandlerOf(t, g) != Default {
      assert !(g in Deliverable(t) && (g == SIG_TERM || g == SIG_INT) && HandlerOf(t, g) == Default);
    }
    Harmless(k, 1, Deliverable(t));
    hide DeliverFrom;
  }

  lemma {:induction false} Harmless(s: Sys, sig: nat, deliverable: set<nat>)
    requires Shape(s) && sig <= SIG_MAX
    requires forall g <- deliverable :: (g == SIG_TERM || g == SIG_INT) ==> HandlerOf(s.tasks[s.cur], g) != Default
    ensures var (r, gone) := DeliverFrom(s, sig, deliverable);
      && !gone && r == Put(s, s.cur, s.tasks[s.cur].(pending := r.tasks[s.cur].pending))
      && r.tasks[s.cur].pending == s.tasks[s.cur].pending - (set g | g in deliverable && sig <= g < SIG_MAX)
    decreases SIG_MAX - sig
  {
    var p := s.tasks[s.cur].pending;
    if sig == SIG_MAX {
      assert p - (set g | g in deliverable && sig <= g < SIG_MAX) == p;
      assert s.tasks[s.cur := s.tasks[s.cur].(pending := p)] == s.tasks;
    } else if sig !in deliverable {
      Harmless(s, sig + 1, deliverable);
      assert (set g | g in deliverable && sig <= g < SIG_MAX) == set g | g in deliverable && sig + 1 <= g < SIG_MAX;
    } else {
      var c := Cleared(s, sig);
      Harmless(c, sig + 1, deliverable);
      var r := DeliverFrom(c, sig + 1, deliverable).0;
      assert p - {sig} - (set g | g in deliverable && sig + 1 <= g < SIG_MAX)
        == p - set g | g in deliverable && sig <= g < SIG_MAX;
      assert r.tasks == s.tasks[s.cur := r.tasks[s.cur]];
    }
  }

  lemma CountdownLeavesReady(s: Sys)
    requires Shape(s) && s.tasks[s.cur].state == Ready
    ensures Countdown(s).tasks[s.cur].state == Ready
  {
    hide PickNext;
  }

  /**
   From the first tick at its deadline on, a sleeper runs at the 31st pick at
   the latest, and before 310 ticks have passed, as long as no task of higher
   priority stands above it: it is at the processor after that tick, or ready.
   */
  lemma SleeperRunsInTime(s: Sys, now: uint64, t: nat)
    requires Sound(s) && t < MAX_TASKS && t != s.cur && s.tasks[t].state == Sleeping && now >= s.tasks[t].wakeTick
    ensures var r := Tick(s, now); (r.cur == t && r.tasks[t].state == Running) || Waits(r, t)
    ensures forall events, v :: KeptWaiting(Tick(s, now), events, v, t) ==>
      v.picks - Tick(s, now).picks <= 30 && 1 + Ticks(events) <= 310
  {
    SaneAt(s, t);
    SoundShape(s);
    TickKeeps(s, now);
    hide Sound, Tick;
    TickWakes(s, now, t);
    forall events, v | KeptWaiting(Tick(s, now), events, v, t)
      ensures v.picks - Tick(s, now).picks <= 30 && 1 + Ticks(events) <= 310
    {
      BoundedWaiting(Tick(s, now), events, v, t);
    }
  }

  /**
   A whole sleep. A running task that sleeps while another is ready is away
   from the processor over any run in which nothing disturbs it, and the first
   tick at its deadline or later wakes it, to run within 31 picks and 310 ticks
   on the same condition.
   */
  lemma SleepEndsInTime(s: Sys, ms: uint32, now: uint64, events: seq<Event>, v: Sys, later: uint64)
    requires Sound(s) && s.tasks[s.cur].state == Running
    requires exists i :: 0 <= i < MAX_TASKS && s.tasks[i].state == Ready
    requires Undisturbed(Sleep(s, ms, now), events, v, s.cur) && later >= WakeTime(now, ms)
    ensures Shape(v) && v.cur != s.cur && v.tasks[s.cur].state == Sleeping && v.tasks[s.cur].wakeTick == WakeTime(now, ms)
    ensures var r := Tick(v, later); (r.cur == s.cur && r.tasks[s.cur].state == Running) || Waits(r, s.cur)
    ensures forall events', u :: KeptWaiting(Tick(v, later), events', u, s.cur) ==>
      u.picks - Tick(v, later).picks <= 30 && 1 + Ticks(events') <= 310
  {
    SaneAt(s, s.cur);
    SleepKeeps(s, ms, now);
    hide Sound, Best, Reschedule, WakeTime, Undisturbed, Tick;
    ChangedHandsOver(s, s.tasks[s.cur].(state := Sleeping, wakeTick := WakeTime(now, ms)));
    ParkedUntilRoused(Sleep(s, ms, now), events, v, s.cur);
    SleeperRunsInTime(v, later, s.cur);
  }

  // ----------------------------------------------------------- ends of tasks

  /** The pool is as it was but for the slots of i and p. */
  predicate OthersSame(s: Sys, r: Sys, i: int, p: int) {
    && |r.tasks| == |s.tasks|
    && forall j :: 0 <= j < |s.tasks| && j != i && j != p ==> r.tasks[j] == s.tasks[j]
  }

  /** p waits for its child i, and nothing else. */
  predicate IsWaitingFor(s: Sys, p: int, i: int)
    requires Shape(s)
  {
    0 <= p < MAX_TASKS && s.tasks[p].state == Blocked && s.tasks[p].waitFor == i
  }

  /**
   sched_kill of another task: it succeeds exactly on a live task that is not
   the idle one; then that task is dead with exit code -9, a parent waiting for
   it can run, and nobody else's place changes. A refusal changes nothing.
   */
  lemma KillEffect(s: Sys, i: int)
    requires Sound(s) && i != s.cur
    ensures var (r, code) := Kill(s, i);
      && (code == 0 <==> 1 <= i < MAX_TASKS && Alive(s.tasks[i])) && (code != 0 ==> code == -1 && r == s)
      && (code == 0 ==>
            var p := s.tasks[i].parent;
            && Ended(r, i, -9) && r.tasks[i].state == Dead && r.tasks[i].stack == s.tasks[i].stack
            && r.cur == s.cur && r.heap == s.heap && OthersSame(s, r, i, p)
            && (IsWaitingFor(s, p, i) ==> r.tasks[p] == s.tasks[p].(waitFor := -1, state := Ready))
            && (0 <= p < MAX_TASKS && !IsWaitingFor(s, p, i) ==> r.tasks[p] == s.tasks[p]))
  {
    if 0 <= i < MAX_TASKS { SaneAt(s, i); }
    hide Sound;
  }

  /**
   sched_exit of a task other than the idle one, when another can take over:
   the task is dead with its exit code, another one is at the processor, and a
   parent waiting for the end can run or does.
   */
  lemma ExitEffect(s: Sys, code: int)
    requires Inv(s) && s.cur != 0 && CanHandOver(s)
    ensures var r, p := Exit(s, code), s.tasks[s.cur].parent;
      && Ended(r, s.cur, code) && r.tasks[s.cur].state == Dead && r.cur != s.cur && r.tasks[r.cur].state == Running
      && r.heap == s.heap && r.halted == s.halted
      && (IsWaitingFor(s, p, s.cur) ==>
            r.tasks[p].waitFor == -1 && r.tasks[p].state == if r.cur == p then Running else Ready)
      && (forall j :: 0 <= j < MAX_TASKS && j != s.cur && j != p && j != r.cur ==> r.tasks[j] == s.tasks[j])
  {
    SaneAt(s, s.cur);
    SaneAt(s, 0);
    ExitLeavesIff(s, code);
    MarkEnds(s, s.cur, code);
    var m := Marked(s, s.cur, code);
    PickedOrCurrent(m);
    hide Sound, CanHandOver, PickNext, Marked;
    TurnFromDead(m);
  }

  /** Marking a task dead: its parent may be woken, and no other is touched. */
  lemma MarkEnds(s: Sys, i: int, code: int)
    requires Shape(s) && 0 <= i < MAX_TASKS && s.tasks[i].parent != i && Alive(s.tasks[0]) && i != 0
    ensures var m, p := Marked(s, i, code), s.tasks[i].parent;
      && m.tasks[i].state == Dead && m.tasks[i].exitCode == code && Alive(m.tasks[0])
      && m.cur == s.cur && m.heap == s.heap && m.halted == s.halted && OthersSame(s, m, i, p)
      && (IsWaitingFor(s, p, i) ==> m.tasks[p].waitFor == -1 && m.tasks[p].state == Ready)
  {
  }

  /** Handing over leaves a dead current task as it is, and changes none but the task that is picked. */
  lemma TurnFromDead(m: Sys)
    requires Shape(m) && m.tasks[m.cur].state == Dead
    requires var next := PickNext(m.tasks, m.cur); next == m.cur || Alive(m.tasks[next])
    ensures var r := Reschedule(m);
      && r.tasks[m.cur] == m.tasks[m.cur] && r.heap == m.heap && r.halted == m.halted
      && (r.cur != m.cur ==>
            r.tasks[r.cur] == m.tasks[r.cur].(state := Running, slice := TIMESLICE, switches := r.tasks[r.cur].switches))
      && forall j :: 0 <= j < MAX_TASKS && j != r.cur ==> r.tasks[j] == m.tasks[j]
  {
    hide PickNext;
  }

  /** The child is a task, dead or alive, that the current task created. */
  predicate OwnChild(s: Sys, child: int)
    requires Shape(s)
  {
    0 <= child < MAX_TASKS && s.tasks[child].state != State.Free && s.tasks[child].parent == s.cur
  }

  lemma WaitReclaims(s: Sys, child: int)
    requires Sound(s) && OwnChild(s, child) && s.tasks[child].state == Dead
    ensures var r := Reclaim(s, child);
      && r.tasks[child].state == State.Free && r.tasks[child].stack == 0 && r.cur == s.cur && OthersSame(s, r, child, -1)
      && r.ledger == s.ledger + [Released(s.tasks[child].stack)] && !Live(r.heap, s.tasks[child].stack - HEADER)
  {
    SaneAt(s, s.cur);
    SaneAt(s, 0);
    GuardedHeap(s);
    FreeHasNoStack(s, child);
    hide Sound, Wf, FreeListed;
  }

  lemma WaitBlocks(s: Sys, child: int)
    requires Shape(s) && OwnChild(s, child) && s.tasks[child].state != Dead
    ensures var r := Reschedule(Put(s, s.cur, s.tasks[s.cur].(waitFor := child, state := Blocked, resume := child)));
      && IsWaitingFor(r, s.cur, child) && r.tasks[s.cur].resume == child && r.heap == s.heap
      && (forall j :: 0 <= j < MAX_TASKS && j != s.cur && j != r.cur ==> r.tasks[j] == s.tasks[j])
  {
    hide PickNext;
  }

  /**
   sched_wait: refused for anything but an own child; of a dead one it returns
   the exit code, gives back the stack and frees the slot; for a live one it
   blocks, to look at that child when it runs again.
   */
  lemma WaitEffect(s: Sys, child: int)
    requires Sound(s)
    ensures var (r, waited) := Wait(s, child);
      if !OwnChild(s, child) then waited == Returned(-1) && r == s
      else if s.tasks[child].state == Dead then
        && waited == Returned(s.tasks[child].exitCode)
        && r.tasks[child].state == State.Free && r.tasks[child].stack == 0 && r.cur == s.cur && OthersSame(s, r, child, -1)
        && r.ledger == s.ledger + [Released(s.tasks[child].stack)] && !Live(r.heap, s.tasks[child].stack - HEADER)
      else
        && waited == Waiting && IsWaitingFor(r, s.cur, child) && r.tasks[s.cur].resume == child && r.heap == s.heap
        && (forall j :: 0 <= j < MAX_TASKS && j != s.cur && j != r.cur ==> r.tasks[j] == s.tasks[j])
  {
    SaneAt(s, s.cur);
    SaneAt(s, 0);
    if OwnChild(s, child) {
      if s.tasks[child].state == Dead { WaitReclaims(s, child); } else { WaitBlocks(s, child); }
    }
    hide Sound, Reclaim, Reschedule;
  }

  /**
   An exit code reaches the parent. A child exits; later, when its slot has not
   been used again, the parent calls sched_wait for it. It gets the code while
   the child has not been reaped, and is refused after that.
   */
  lemma ExitCodeReachesParent(s: Sys, code: int, events: seq<Event>, v: Sys)
    requires Inv(s) && s.cur != 0 && CanHandOver(s)
    requires RunWithoutReuse(Exit(s, code), events, v, s.cur) && Sound(v) && v.tasks[s.cur].parent == v.cur
    ensures Wait(v, s.cur).1 == Returned(if v.tasks[s.cur].state == Dead then code else -1)
  {
    ExitEffect(s, code);
    ExitLeavesIff(s, code);
    hide Sound, CanHandOver, Exit;
    StillEnded(Exit(s, code), events, v, s.cur, code);
    WaitEffect(v, s.cur);
  }

  lemma {:induction false} StillEnded(s: Sys, events: seq<Event>, v: Sys, i: int, code: int)
    requires Sound(s) && Ended(s, i, code) && RunWithoutReuse(s, events, v, i)
    ensures Ended(v, i, code)
    decreases |events|
  {
    hide Sound, Step, Possible, Misuses;
    if events != [] {
      StepKeepsEnded(s, events[0], i, code);
      StepKeepsSound(s, events[0]);
      StillEnded(Step(s, events[0]), events[1..], v, i, code);
    }
  }

  // --------------------------------------------------------------- reaping

  /** The slot's task has ended, and the slot is in that state. */
  predicate Over(s: Sys, i: nat, state: State) {
    Shape(s) && i < MAX_TASKS && i != s.cur && s.tasks[i].state == state && (state == Dead || state == State.Free)
  }

  lemma OverAfterTurn(m: Sys, i: nat, state: State)
    requires Over(m, i, state) && Alive(m.tasks[0])
    ensures Over(Reschedule(m), i, state)
  {
    PickedOrCurrent(m);
    hide PickNext;
  }

  lemma OverAfterExit(s: Sys, code: int, i: nat, state: State)
    requires Over(s, i, state) && Alive(s.tasks[0])
    ensures Over(Exit(s, code), i, state)
  {
    if s.cur != 0 { OverAfterTurn(Marked(s, s.cur, code), i, state); }
    hide Reschedule;
  }

  lemma OverAfterCountdown(s: Sys, i: nat, state: State)
    requires Over(s, i, state) && Alive(s.tasks[0])
    ensures Over(Countdown(s), i, state)
  {
    OverAfterTurn(Put(s, s.cur, s.tasks[s.cur].(slice := TIMESLICE)), i, state);
    hide Reschedule;
  }

  lemma {:induction false} OverAfterDeliver(s: Sys, sig: nat, deliverable: set<nat>, i: nat, state: State)
    requires Over(s, i, state) && Alive(s.tasks[0]) && sig <= SIG_MAX
    ensures var (r, gone) := DeliverFrom(s, sig, deliverable); Over(r, i, state) && (!gone ==> Alive(r.tasks[0]))
    decreases SIG_MAX - sig
  {
    assert Shape(s);
    hide Exit, HandlerOf;
    if sig < SIG_MAX && sig !in deliverable {
      OverAfterDeliver(s, sig + 1, deliverable, i, state);
    } else if sig < SIG_MAX {
      var c := Cleared(s, sig);
      if HandlerOf(s.tasks[s.cur], sig) == Default && (sig == SIG_TERM || sig == SIG_INT) {
        OverAfterExit(c, 128 + sig, i, state);
      } else {
        OverAfterDeliver(c, sig + 1, deliverable, i, state);
      }
    }
  }

  /** A live parent still waits for task i. */
  predicate IsAwaited(s: Sys, i: nat)
    requires Shape(s) && i < MAX_TASKS
  {
    var p := s.tasks[i].parent;
    0 <= p < MAX_TASKS && Alive(s.tasks[p]) && s.tasks[p].waitFor == i
  }

  lemma {:induction false} ReapsIff(s: Sys, k: nat, i: nat)
    requires Shape(s) && 1 <= k <= MAX_TASKS && i < MAX_TASKS && s.tasks[i].state == Dead
    ensures ReapFrom(s, k).tasks[i].state == if k <= i && !IsAwaited(s, i) then State.Free else Dead
    decreases MAX_TASKS - k
  {
    hide Heap.Free;
    if k < MAX_TASKS {
      var r := ReapOne(s, k);
      if k == i && !IsAwaited(s, i) { FreeStaysFree(r, k + 1, i); } else { ReapsIff(r, k + 1, i); }
    }
  }

  lemma {:induction false} FreeStaysFree(s: Sys, k: nat, i: nat)
    requires Shape(s) && i < k <= MAX_TASKS && s.tasks[i].state == State.Free
    ensures ReapFrom(s, k).tasks[i].state == State.Free
    decreases MAX_TASKS - k
  {
    hide Heap.Free;
    if k < MAX_TASKS { FreeStaysFree(ReapOne(s, k), k + 1, i); }
  }

  lemma HousekeepingReapsIff(s: Sys, now: uint64, i: nat)
    requires Shape(s) && 1 <= i < MAX_TASKS && i != s.cur && s.tasks[i].state == Dead
    ensures var k := Housekeeping(s, now);
      k.cur == s.cur && k.tasks[i].state == if now % 1024 == 0 && !IsAwaited(s, i) then State.Free else Dead
  {
    var w := WakeSleepers(Counted(s), now);
    assert w.tasks[i].state == Dead && IsAwaited(w, i) == IsAwaited(s, i);
    ReapsIff(w, 1, i);
    hide ReapFrom;
  }

  /** Every 1024th tick takes the slot of a dead task back, exactly if no live parent waits for it; no other tick does. */
  lemma TickReapsIff(s: Sys, now: uint64, i: nat)
    requires Sound(s) && 1 <= i < MAX_TASKS && i != s.cur && s.tasks[i].state == Dead
    ensures Tick(s, now).tasks[i].state == if now % 1024 == 0 && !IsAwaited(s, i) then State.Free else Dead
  {
    SaneAt(s, 0);
    SoundShape(s);
    TickIs(s, now);
    HousekeepingReapsIff(s, now, i);
    HousekeepingKeepsPlaces(s, now, 0);
    var k := Housekeeping(s, now);
    var state := k.tasks[i].state;
    hide Sound, Tick, Housekeeping, Countdown, DeliverFrom, Deliverable, IsAwaited;
    OverAfterDeliver(k, 1, Deliverable(k.tasks[k.cur]), i, state);
    OverAfterCountdown(k, i, state);
    if !Deliver(k).1 { OverAfterCountdown(Deliver(k).0, i, state); }
  }

  // ------------------------------------------------------------ new tasks

  lemma NewTaskWaits(s: Sys, prio: nat)
    requires Shape(s) && FreeListed(s.heap) && s.tasks[s.cur].state != State.Free && s.tasks[0].state != State.Free
    ensures var (r, i) := Create(s, prio);
      if i == -1 then
        && r.tasks == s.tasks && r.cur == s.cur
        && ((forall j :: 1 <= j < MAX_TASKS ==> s.tasks[j].state != State.Free) || Malloc(s.heap, STACK_SIZE).1 == 0)
      else
        && 1 <= i < MAX_TASKS && s.tasks[i].state == State.Free && (forall j :: 1 <= j < i ==> s.tasks[j].state != State.Free)
        && Waits(r, i) && r.cur == s.cur && OthersSame(s, r, i, -1)
        && r.tasks[i].prio == (if prio < 4 then prio else 1) && r.tasks[i].parent == s.cur
        && r.tasks[i].pending == {} && r.tasks[i].masked == {} && r.tasks[i].slice == 10
  {
    hide FirstFree, Malloc, FreeListed;
  }

  lemma NewStack(s: Sys, prio: nat)
    requires Sound(s) && NoWrap(s.heap, STACK_SIZE)
    ensures var (r, i) := Create(s, prio);
      i != -1 ==>
        && 0 <= i < MAX_TASKS && IsStack(r.heap, r.tasks[i].stack)
        && r.heap.size[r.tasks[i].stack - HEADER] >= 16384 && !Live(s.heap, r.tasks[i].stack - HEADER)
  {
    SoundShape(s);
    if Malloc(s.heap, STACK_SIZE).1 != 0 { MallocGivesFreshBlock(s.heap, STACK_SIZE); }
    hide Sound, Wf, FreeListed, Malloc, FirstFree, NoWrap;
  }

  /**
   sched_create takes the first free slot past the idle task's, for a ready task
   with no signals that is the current task's child and waits for its turn like
   any other; it is refused exactly if there is no slot or no room for a stack.
   */
  lemma CreateEffect(s: Sys, prio: nat)
    requires Inv(s) && NoWrap(s.heap, STACK_SIZE)
    ensures var (r, i) := Create(s, prio);
      if i == -1 then
        && r.tasks == s.tasks && r.cur == s.cur
        && ((forall j :: 1 <= j < MAX_TASKS ==> s.tasks[j].state != State.Free) || Malloc(s.heap, STACK_SIZE).1 == 0)
      else
        && 1 <= i < MAX_TASKS && s.tasks[i].state == State.Free && (forall j :: 1 <= j < i ==> s.tasks[j].state != State.Free)
        && Waits(r, i) && r.cur == s.cur && OthersSame(s, r, i, -1)
        && r.tasks[i].prio == (if prio < 4 then prio else 1) && r.tasks[i].parent == s.cur
        && r.tasks[i].pending == {} && r.tasks[i].masked == {} && r.tasks[i].slice == 10
        && IsStack(r.heap, r.tasks[i].stack) && r.heap.size[r.tasks[i].stack - HEADER] >= 16384
        && !Live(s.heap, r.tasks[i].stack - HEADER)
  {
    SoundShape(s);
    SaneAt(s, 0);
    NewTaskWaits(s, prio);
    NewStack(s, prio);
    hide Sound, Create, Waits, IsStack;
  }

  // --------------------------------------------------------------- signals

  /** The least deliverable signal that ends the task. */
  predicate EndsBy(t: Task, g: nat) {
    && g in Deliverable(t) && (g == SIG_TERM || g == SIG_INT) && HandlerOf(t, g) == Default
    && (g == SIG_INT ==> !(SIG_TERM in Deliverable(t) && HandlerOf(t, SIG_TERM) == Default))
  }

  lemma {:induction false} DeliveryEnds(s: Sys, sig: nat, deliverable: set<nat>, g: nat) returns (pending: set<nat>)
    requires Shape(s) && sig <= g < SIG_MAX && g in deliverable && (g == SIG_TERM || g == SIG_INT)
    requires HandlerOf(s.tasks[s.cur], g) == Default
    requires g == SIG_INT && sig <= SIG_TERM ==> !(SIG_TERM in deliverable && HandlerOf(s.tasks[s.cur], SIG_TERM) == Default)
    ensures DeliverFrom(s, sig, deliverable) == (Exit(Put(s, s.cur, s.tasks[s.cur].(pending := pending)), 128 + g), true)
    decreases SIG_MAX - sig
  {
    hide Exit;
    if sig !in deliverable {
      pending := DeliveryEnds(s, sig + 1, deliverable, g);
    } else if sig == g {
      pending := s.tasks[s.cur].pending - {g};
    } else {
      var c := Cleared(s, sig);
      pending := DeliveryEnds(c, sig + 1, deliverable, g);
      assert Put(c, s.cur, c.tasks[s.cur].(pending := pending)).tasks == Put(s, s.cur, s.tasks[s.cur].(pending := pending)).tasks;
    }
  }

  /**
   A task with SIGTERM or SIGINT pending, not masked and not handled, is ended
   by the next tick at which it is at the processor, with exit code 128 plus
   the signal, SIGTERM first.
   */
  lemma TickEndsSignalled(s: Sys, now: uint64, g: nat)
    requires Sound(s) && s.cur != 0 && Alive(s.tasks[s.cur]) && EndsBy(s.tasks[s.cur], g)
    ensures Ended(Tick(s, now), s.cur, 128 + g)
  {
    SaneAt(s, s.cur);
    SaneAt(s, 0);
    SoundShape(s);
    TickIs(s, now);
    HousekeepingKeepsPlaces(s, now, 0);
    HousekeepingOnCurrent(s, now);
    var k := Housekeeping(s, now);
    hide Sound, Tick, Housekeeping;
    assert EndsBy(k.tasks[k.cur], g);
    var pending := DeliveryEnds(k, 1, Deliverable(k.tasks[k.cur]), g);
    hide DeliverFrom;
    EndedByMark(Put(k, k.cur, k.tasks[k.cur].(pending := pending)), k.cur, 128 + g);
    hide Marked, Reschedule, Ended;
  }

  lemma HousekeepingOnCurrent(s: Sys, now: uint64)
    requires Shape(s) && Alive(s.tasks[s.cur])
    ensures var k := Housekeeping(s, now);
      && k.cur == s.cur && Alive(k.tasks[k.cur])
      && k.tasks[k.cur] == s.tasks[s.cur].(state := k.tasks[k.cur].state, ticks := s.tasks[s.cur].ticks + 1)
  {
    var w := WakeSleepers(Counted(s), now);
    ReapSparesLiving(w, 1, s.cur);
    hide ReapFrom;
  }

  /** A signal number that waits to be delivered, rather than acting at once. */
  predicate Waitable(sig: int) {
    0 <= sig < SIG_MAX && sig != SIG_KILL && sig != SIG_STOP && sig != SIG_CONT
  }

  /**
   A signal sent to a live task is pending for it until it is delivered, and
   wakes the task if it sleeps and does not mask it. No other task is touched.
   */
  lemma SignalWakesOrWaits(s: Sys, i: int, sig: int)
    requires Shape(s) && 0 <= i < MAX_TASKS && Alive(s.tasks[i]) && Waitable(sig)
    ensures var (r, code) := Signal(s, i, sig); var t, u := s.tasks[i], r.tasks[i];
      && code == 0 && r.cur == s.cur && OthersSame(s, r, i, -1)
      && u.pending == t.pending + {sig}
      && (sig in Deliverable(u) <==> sig !in t.masked)
      && u.state == (if t.state == Sleeping && sig !in t.masked then Ready else t.state)
  {
  }

  /** Signals are refused for a slot without a live task and for numbers out of range, and then nothing changes. */
  lemma SignalRefusedIff(s: Sys, i: int, sig: int)
    requires Sound(s)
    ensures var (r, code) := Signal(s, i, sig);
      && (code == 0 <==> 0 <= i < MAX_TASKS && Alive(s.tasks[i]) && 0 <= sig < SIG_MAX && !(i == 0 && sig == SIG_KILL))
      && (code != 0 ==> code == -1 && r == s)
  {
    hide Sound, Marked, Reschedule;
  }

  /** SIGSTOP keeps a ready task from being picked and SIGCONT undoes it. */
  lemma StopThenContinue(s: Sys, i: int)
    requires Shape(s) && 0 <= i < MAX_TASKS && i != s.cur && s.tasks[i].state == Ready
    ensures var stopped := Signal(s, i, SIG_STOP).0;
      && Parked(stopped.tasks[i]) && Shape(stopped) && Signal(stopped, i, SIG_CONT).0 == s
  {
    var stopped := Signal(s, i, SIG_STOP).0;
    assert stopped.tasks[i := stopped.tasks[i].(state := Ready)] == s.tasks;
  }

  /**
   Unmasking delivers at once what was held back: signals that are ignored or
   handled, and those that do nothing by default, are no longer pending, the
   ones still masked are, and nothing else changes.
   */
  lemma UnmaskingDelivers(s: Sys, mask: set<nat>)
    requires Shape(s) && Alive(s.tasks[s.cur]) && !Lethal(s.tasks[s.cur].(masked := s.tasks[s.cur].masked - mask))
    ensures var t, u := s.tasks[s.cur], UnblockMask(s, mask).tasks[s.cur];
      && u.masked == t.masked - mask
      && u.pending == t.pending - set g | g in Deliverable(t.(masked := u.masked)) && 1 <= g < SIG_MAX
      && UnblockMask(s, mask) == Put(s, s.cur, t.(masked := u.masked, pending := u.pending))
  {
    var t := s.tasks[s.cur].(masked := s.tasks[s.cur].masked - mask);
    var open := SetMask(s, t.masked);
    forall g | g in Deliverable(t) && (g == SIG_TERM || g == SIG_INT) ensures HandlerOf(t, g) != Default {
      assert !(g in Deliverable(t) && (g == SIG_TERM || g == SIG_INT) && HandlerOf(t, g) == Default);
    }
    Harmless(open, 1, Deliverable(t));
    hide DeliverFrom;
    var d := UnblockMask(s, mask);
    if Deliverable(t) == {} {
      assert t.pending - (set g | g in Deliverable(t) && 1 <= g < SIG_MAX) == t.pending;
    }
    assert d.tasks == s.tasks[s.cur := d.tasks[s.cur]];
  }

  /** No mask holds SIGKILL or SIGSTOP back, and no handler can be set for them. */
  lemma KillAndStopCannotBeHeldBack(s: Sys, mask: set<nat>, sig: int, h: Handler)
    requires Shape(s) && SIG_KILL !in s.tasks[s.cur].masked && SIG_STOP !in s.tasks[s.cur].masked
    ensures var u := BlockMask(s, mask).tasks[s.cur];
      && SIG_KILL !in u.masked && SIG_STOP !in u.masked
      && forall g <- mask :: g != SIG_KILL && g != SIG_STOP ==> g in u.masked
    ensures var u := SetHandler(s, sig, h).tasks[s.cur];
      && (1 <= sig < SIG_MAX && sig != SIG_KILL && sig != SIG_STOP ==> HandlerOf(u, sig) == h)
      && forall g: nat :: g != sig || g == SIG_KILL || g == SIG_STOP ==> HandlerOf(u, g) == HandlerOf(s.tasks[s.cur], g)
  {
  }
}
