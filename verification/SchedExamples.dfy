/**
 Runs from the start of the kernel in which sched_wait and sched_exit do not do
 what they are for.
 */
module SchedExamples {
  import opened Words
  import opened Heap
  import opened Sched
  import opened SchedRuns
  import opened SchedWaits

  /** Some run from the start of the kernel leads to v. */
  ghost predicate Reached(v: Sys) {
    exists heap, events :: Wf(heap) && SchedRuns.Run(Start(heap), events, v)
  }

  lemma {:induction false} RunThen(s: Sys, events: seq<Event>, v: Sys, e: Event)
    requires SchedRuns.Run(s, events, v) && Shape(v) && FreeListed(v.heap) && Enabled(v, e)
    ensures SchedRuns.Run(s, events + [e], Step(v, e))
    decreases |events|
  {
    hide Step, Possible, Misuses;
    if events == [] {
      assert SchedRuns.Run(Step(v, e), [], Step(v, e));
    } else {
      RunThen(Step(s, events[0]), events[1..], v, e);
      assert (events + [e])[1..] == events[1..] + [e];
    }
  }

  lemma ReachedThen(v: Sys, e: Event)
    requires Reached(v) && Shape(v) && FreeListed(v.heap) && Enabled(v, e)
    ensures Reached(Step(v, e))
  {
    hide Step, Possible, Misuses, SchedRuns.Run;
    var heap, events :| Wf(heap) && SchedRuns.Run(Start(heap), events, v);
    RunThen(Start(heap), events, v, e);
  }

  lemma ReachedSound(v: Sys)
    requires Reached(v)
    ensures Sound(v)
  {
    var heap, events :| Wf(heap) && SchedRuns.Run(Start(heap), events, v);
    StartInv(heap);
    RunKeepsSound(Start(heap), events, v);
    hide SchedRuns.Run;
  }

  // ------------------------------------------------------------- the heap side

  const BLOCK: nat := 16400  // a stack with its header

  /** Nothing is free, and there is room for n more stacks. */
  predicate Fresh(h: HeapState, n: nat) {
    h.free == [] && h.next + n * BLOCK <= h.end < 0x1_0000_0000
  }

  lemma StackFromBump(h: HeapState, n: nat)
    requires Fresh(h, n) && n > 0
    ensures NoWrap(h, STACK_SIZE) && FreeListed(h)
    ensures Malloc(h, STACK_SIZE) == (Bump(h, BLOCK), h.next + HEADER)
    ensures Fresh(Bump(h, BLOCK), n - 1)
  {
    assert Total(STACK_SIZE) == BLOCK;
    assert n * BLOCK == (n - 1) * BLOCK + BLOCK;
  }

  /** A stack given back is handed out again. */
  lemma StackFromList(h: HeapState, p: nat)
    requires h.free == [] && p >= HEADER && p - HEADER in h.size && h.size[p - HEADER] == BLOCK
    requires h.next < 0x1_0000_0000
    ensures var g := Heap.Free(h, p);
      && g.free == [p - HEADER] && FreeListed(g) && NoWrap(g, STACK_SIZE)
      && Malloc(g, STACK_SIZE).1 == p
  {
    assert Total(STACK_SIZE) == BLOCK;
  }

  // ----------------------------------------------------------- three tasks

  /** A task but for its counters. */
  function Core(t: Task): Task { t.(ticks := 0, switches := 0) }

  /** Slots 0, 1 and 2 hold these tasks, the others are free. */
  ghost predicate Trio(s: Sys, cur: int, a: Task, b: Task, c: Task) {
    && Shape(s) && s.cur == cur && !s.halted
    && Core(s.tasks[0]) == a && Core(s.tasks[1]) == b && Core(s.tasks[2]) == c
    && forall i :: 3 <= i < MAX_TASKS ==> s.tasks[i].state == State.Free
  }

  /** Slot t holds the nearest of the ready tasks, which all have the lowest priority. */
  lemma TurnTo(m: Sys, t: nat)
    requires Shape(m) && t < MAX_TASKS && t != m.cur && m.tasks[t].state == Ready
    requires forall i :: 0 <= i < MAX_TASKS && m.tasks[i].state == Ready ==> m.tasks[i].prio == 0 && Dist(m.cur, t) <= Dist(m.cur, i)
    ensures var r := Reschedule(m);
      && Shape(r) && r.cur == t && r.halted == m.halted && r.heap == m.heap
      && Core(r.tasks[t]) == Core(m.tasks[t].(state := Running, slice := TIMESLICE))
      && Core(r.tasks[m.cur]) == Core(m.tasks[m.cur].(state := if m.tasks[m.cur].state == Running then Ready else m.tasks[m.cur].state))
      && forall i :: 0 <= i < MAX_TASKS && i != t && i != m.cur ==> r.tasks[i] == m.tasks[i]
  {
    PickFromIs(m.tasks, m.cur, NUM_PRIOS - 1);
    assert !NoneReady(m.tasks, NUM_PRIOS - 1);
    var r := PickNext(m.tasks, m.cur);
    hide PickFrom;
    assert Best(m.tasks, m.cur, NUM_PRIOS - 1, r);
    assert Dist(m.cur, r) == Dist(m.cur, t);
    assert At(m.cur, Dist(m.cur, r)) == r && At(m.cur, Dist(m.cur, t)) == t;
  }

  /** The idle task, in that state. */
  function Idle(state: State, slice: nat): Task { IdleTask().(state := state, slice := slice) }

  function Parent(state: State, stack: nat, slice: nat, waitFor: int, resume: int): Task {
    NewTask(0, 0, stack).(state := state, slice := slice, waitFor := waitFor, resume := resume)
  }

  /** A task in slot 2. */
  function Child(parent: int, state: State, stack: nat, slice: nat): Task {
    NewTask(0, parent, stack).(state := state, slice := slice)
  }

  lemma StartHeap() returns (h: HeapState)
    ensures Wf(h) && Fresh(h, 3)
  {
    hide Wf;
    h := Initial(0x100000, 0x200000);
    InitialWf(0x100000, 0x200000);
    StartRoom();
    hide Initial;
  }

  lemma StartRoom()
    ensures Fresh(Initial(0x100000, 0x200000), 3)
  {
    assert (0x100000 + 0xFFF) / 0x1000 * 0x1000 == 0x100000;
  }

  /** Creation in slot i, the first free one, on a heap with room. */
  lemma CreatedAt(s: Sys, i: nat, n: nat)
    requires Shape(s) && !s.halted && s.tasks[s.cur].resume == -1 && s.tasks[s.cur].state != State.Free
    requires FirstFree(s.tasks, 1) == i < MAX_TASKS && Fresh(s.heap, n) && n > 0
    ensures FreeListed(s.heap) && Enabled(s, CreateE(0)) && Fresh(Step(s, CreateE(0)).heap, n - 1)
    ensures var r, q := Step(s, CreateE(0)), s.heap.next + HEADER;
      && r == s.(tasks := r.tasks, heap := r.heap, ledger := r.ledger)
      && r.tasks == s.tasks[i := NewTask(0, s.cur, q)]
      && q - HEADER in r.heap.size && r.heap.size[q - HEADER] == BLOCK
  {
    StackFromBump(s.heap, n);
    hide Malloc, Total;
  }

  lemma FromTheStart(h: HeapState)
    requires Wf(h)
    ensures Reached(Start(h))
  {
    assert SchedRuns.Run(Start(h), [], Start(h));
  }

  /** The idle task creates the parent. */
  lemma ParentMade() returns (s: Sys, p: nat)
    ensures Reached(s) && Fresh(s.heap, 2) && p != 0
    ensures Trio(s, 0, Idle(Running, TIMESLICE), Parent(Ready, p, TIMESLICE, -1, -1), EmptySlot())
  {
    hide Fresh, Create, Reached, Wf, Possible, Misuses;
    var h := StartHeap();
    FromTheStart(h);
    var s0 := Start(h);
    p := h.next + HEADER;
    StartPool(h);
    CreatedAt(s0, 1, 3);
    ReachedThen(s0, CreateE(0));
    s := Step(s0, CreateE(0));
    hide Step, Start;
  }

  lemma StartPool(h: HeapState)
    ensures var s := Start(h);
      Shape(s) && s.cur == 0 && s.tasks[0] == IdleTask() && forall i :: 1 <= i < MAX_TASKS ==> s.tasks[i] == EmptySlot()
    ensures FirstFree(Start(h).tasks, 1) == 1
  {
  }

  /** It yields. */
  lemma ParentRuns() returns (s: Sys, p: nat)
    ensures Reached(s) && Fresh(s.heap, 2) && p != 0
    ensures Trio(s, 1, Idle(Ready, 0), Parent(Running, p, TIMESLICE, -1, -1), EmptySlot())
  {
    hide Fresh, Reached, Sound, FreeListed, Reschedule, Malloc;
    var s1: Sys;
    s1, p := ParentMade();
    ReachedSound(s1);
    SoundShape(s1);
    TurnTo(Put(s1, 0, s1.tasks[0].(slice := 0)), 1);
    ReachedThen(s1, YieldE);
    s := Step(s1, YieldE);
  }

  /** The parent creates its child. */
  lemma ChildMade() returns (s: Sys, p: nat, q: nat)
    ensures Reached(s) && Fresh(s.heap, 1) && p != 0 && q >= HEADER
    ensures q - HEADER in s.heap.size && s.heap.size[q - HEADER] == BLOCK
    ensures Trio(s, 1, Idle(Ready, 0), Parent(Running, p, TIMESLICE, -1, -1), Child(1, Ready, q, TIMESLICE))
  {
    var s2: Sys;
    s2, p := ParentRuns();
    assert FirstFree(s2.tasks, 1) == 2;
    q := s2.heap.next + HEADER;
    CreatedAt(s2, 2, 2);
    hide Fresh, Create, Reached;
    ReachedThen(s2, CreateE(0));
    s := Step(s2, CreateE(0));
    hide Step;
  }

  /** The parent waits for the child, which runs. */
  lemma ParentWaits() returns (s: Sys, p: nat, q: nat)
    ensures Reached(s) && Fresh(s.heap, 1) && p != 0 && q >= HEADER
    ensures q - HEADER in s.heap.size && s.heap.size[q - HEADER] == BLOCK
    ensures Trio(s, 2, Idle(Ready, 0), Parent(Blocked, p, TIMESLICE, 2, 2), Child(1, Running, q, TIMESLICE))
  {
    var s3: Sys;
    s3, p, q := ChildMade();
    hide Fresh, Reached;
    ReachedSound(s3);
    SoundShape(s3);
    hide Sound, FreeListed, Reschedule;
    TurnTo(Put(s3, 1, s3.tasks[1].(waitFor := 2, state := Blocked, resume := 2)), 2);
    ReachedThen(s3, WaitE(2));
    s := Step(s3, WaitE(2));
  }

  // ------------------------------------------------ the child's slot reused

  /** The child exits with code 7; the idle task comes before the parent. */
  lemma ChildExits() returns (s: Sys, p: nat, q: nat)
    ensures Reached(s) && Fresh(s.heap, 1) && p != 0 && q >= HEADER
    ensures q - HEADER in s.heap.size && s.heap.size[q - HEADER] == BLOCK
    ensures Trio(s, 0, Idle(Running, TIMESLICE), Parent(Ready, p, TIMESLICE, -1, 2), Child(1, Dead, q, TIMESLICE).(exitCode := 7))
  {
    hide Fresh, Reached, Sound, FreeListed, Exit, Trio;
    var s4: Sys;
    s4, p, q := ParentWaits();
    ExitToIdle(s4, p, q);
    ReachedThen(s4, ExitE(7));
    s := Step(s4, ExitE(7));
  }

  lemma ExitToIdle(s: Sys, p: nat, q: nat)
    requires Reached(s)
    requires Trio(s, 2, Idle(Ready, 0), Parent(Blocked, p, TIMESLICE, 2, 2), Child(1, Running, q, TIMESLICE))
    ensures Shape(s) && FreeListed(s.heap) && Enabled(s, ExitE(7))
    ensures var r := Exit(s, 7);
      && Trio(r, 0, Idle(Running, TIMESLICE), Parent(Ready, p, TIMESLICE, -1, 2), Child(1, Dead, q, TIMESLICE).(exitCode := 7))
      && r.heap == s.heap
  {
    hide Sound, FreeListed, Reschedule, Reached, Malloc;
    ReachedSound(s);
    SoundShape(s);
    ChildMarked(s, p, q);
    hide Marked;
    TurnTo(Marked(s, 2, 7), 0);
  }

  lemma ChildMarked(s: Sys, p: nat, q: nat)
    requires Trio(s, 2, Idle(Ready, 0), Parent(Blocked, p, TIMESLICE, 2, 2), Child(1, Running, q, TIMESLICE))
    ensures var m := Marked(s, 2, 7);
      && Trio(m, 2, Idle(Ready, 0), Parent(Ready, p, TIMESLICE, -1, 2), Child(1, Dead, q, TIMESLICE).(exitCode := 7))
      && m.heap == s.heap
  {
  }

  lemma {:induction false} NothingToReap(s: Sys, k: nat)
    requires Shape(s) && k <= MAX_TASKS && forall i :: k <= i < MAX_TASKS ==> s.tasks[i].state != Dead
    ensures ReapFrom(s, k) == s
    decreases MAX_TASKS - k
  {
    if k < MAX_TASKS { NothingToReap(s, k + 1); }
  }

  lemma OnlyTheChildIsReaped(s: Sys)
    requires Shape(s) && s.tasks[1].state == Ready && s.tasks[2].state == Dead && s.tasks[2].parent == 1
    requires s.tasks[1].waitFor == -1 && forall i :: 3 <= i < MAX_TASKS ==> s.tasks[i].state == State.Free
    ensures Reap(s) == Reclaim(s, 2)
  {
    hide Reclaim;
    assert ReapOne(s, 1) == s && ReapOne(s, 2) == Reclaim(s, 2);
    assert forall i :: 0 <= i < MAX_TASKS && i != 2 ==> Reclaim(s, 2).tasks[i] == s.tasks[i] by { ReclaimOnly(s, 2); }
    NothingToReap(Reclaim(s, 2), 3);
    assert ReapFrom(s, 1) == ReapFrom(s, 2) == ReapFrom(Reclaim(s, 2), 3);
  }

  lemma ReclaimOnly(s: Sys, k: nat)
    requires Shape(s) && k < MAX_TASKS
    ensures forall i :: 0 <= i < MAX_TASKS && i != k ==> Reclaim(s, k).tasks[i] == s.tasks[i]
  {
    hide Heap.Free;
  }

  /** A reaping tick in the idle task. */
  lemma ChildReaped() returns (s: Sys, p: nat)
    ensures Reached(s) && p != 0 && FreeListed(s.heap) && NoWrap(s.heap, STACK_SIZE) && Malloc(s.heap, STACK_SIZE).1 != 0
    ensures Trio(s, 0, Idle(Running, TIMESLICE - 1), Parent(Ready, p, TIMESLICE, -1, 2), Child(1, State.Free, 0, TIMESLICE).(exitCode := 7))
  {
    hide Malloc, Reached, NoWrap, Fresh, Sound, FreeListed, Tick, Heap.Free, Trio;
    var s5: Sys;
    var q: nat;
    s5, p, q := ChildExits();
    FreshList(s5.heap);
    StackFromList(s5.heap, q);
    IdleReaps(s5, p, q);
    TickReady(s5);
    ReachedThen(s5, TickE(1024));
    s := Step(s5, TickE(1024));
  }

  lemma FreshList(h: HeapState)
    requires Fresh(h, 1)
    ensures h.free == [] && h.next < 0x1_0000_0000
  {
  }

  lemma TickReady(s: Sys)
    requires Reached(s) && !s.halted
    ensures Shape(s) && FreeListed(s.heap) && Enabled(s, TickE(1024))
  {
    ReachedSound(s);
    SoundShape(s);
    hide Sound, FreeListed, Reached;
  }

  lemma IdleReaps(s: Sys, p: nat, q: nat)
    requires Trio(s, 0, Idle(Running, TIMESLICE), Parent(Ready, p, TIMESLICE, -1, 2), Child(1, Dead, q, TIMESLICE).(exitCode := 7))
    requires q != 0
    ensures var r := Tick(s, 1024);
      && Trio(r, 0, Idle(Running, TIMESLICE - 1), Parent(Ready, p, TIMESLICE, -1, 2), Child(1, State.Free, 0, TIMESLICE).(exitCode := 7))
      && r.heap == Heap.Free(s.heap, q) && !s.halted
  {
    var w := WakeSleepers(Counted(s), 1024);
    NobodySleeps(s, p, q);
    hide WakeSleepers, Counted, Heap.Free, Tick;
    OnlyTheChildIsReaped(w);
    hide Reap;
    TickAfterReap(s, Reclaim(w, 2));
  }

  lemma NobodySleeps(s: Sys, p: nat, q: nat)
    requires Trio(s, 0, Idle(Running, TIMESLICE), Parent(Ready, p, TIMESLICE, -1, 2), Child(1, Dead, q, TIMESLICE).(exitCode := 7))
    ensures var w := WakeSleepers(Counted(s), 1024);
      && Trio(w, 0, Idle(Running, TIMESLICE), Parent(Ready, p, TIMESLICE, -1, 2), Child(1, Dead, q, TIMESLICE).(exitCode := 7))
      && w.heap == s.heap
  {
  }

  lemma TickAfterReap(s: Sys, k: Sys)
    requires Shape(s) && k == Housekeeping(s, 1024) && Deliverable(k.tasks[k.cur]) == {} && k.tasks[k.cur].slice == TIMESLICE
    ensures Tick(s, 1024) == k.(tasks := k.tasks[k.cur := k.tasks[k.cur].(slice := TIMESLICE - 1)])
  {
    hide Housekeeping, Reschedule;
  }

  lemma CreatedInTwo(s: Sys)
    requires Reached(s) && FreeListed(s.heap) && NoWrap(s.heap, STACK_SIZE) && Malloc(s.heap, STACK_SIZE).1 != 0
    requires Shape(s) && !s.halted && s.cur == 0 && s.tasks[0].resume == -1 && s.tasks[0].state == Running
    requires s.tasks[1].state != State.Free && s.tasks[2].state == State.Free
    ensures Reached(Step(s, CreateE(0)))
    ensures var r := Step(s, CreateE(0));
      r.cur == 0 && !r.halted && r.tasks == s.tasks[2 := NewTask(0, 0, Malloc(s.heap, STACK_SIZE).1)]
  {
    assert FirstFree(s.tasks, 1) == 2;
    hide Malloc, NoWrap, Reached;
    ReachedThen(s, CreateE(0));
  }

  /** The idle task creates another task, which gets the child's slot. */
  lemma SlotReused() returns (s: Sys, p: nat, q: nat)
    ensures Reached(s) && p != 0
    ensures Trio(s, 0, Idle(Running, TIMESLICE - 1), Parent(Ready, p, TIMESLICE, -1, 2), Child(0, Ready, q, TIMESLICE))
  {
    hide Malloc, NoWrap, Reached;
    var s6: Sys;
    s6, p := ChildReaped();
    q := Malloc(s6.heap, STACK_SIZE).1;
    CreatedInTwo(s6);
    s := Step(s6, CreateE(0));
    hide Step;
  }

  /**
   First cause: the child exits with code 7, the idle task reaps it and creates
   a task of its own in its slot before the parent resumes. sched_wait returns
   0, frees the new task's stack and leaves its slot free.
   */
  lemma ReusedSlotIsTaken() returns (s: Sys)
    ensures Reached(s) && Sound(s) && s.cur == 1 && s.tasks[1].resume == 2
    ensures s.tasks[2].state == Ready && s.tasks[2].parent == 0
    ensures EndWait(s).1 == 0 && EndWait(s).0.tasks[2].state == State.Free
    ensures !Live(EndWait(s).0.heap, s.tasks[2].stack - HEADER)
  {
    hide Reached, Wf, FreeListed;
    var s7, p, q := SlotReused();
    ReachedSound(s7);
    SoundShape(s7);
    hide Reschedule, Sound;
    TurnTo(Put(s7, 0, s7.tasks[0].(slice := 0)), 1);
    ReachedThen(s7, YieldE);
    s := Step(s7, YieldE);
    ReachedSound(s);
    assert Core(s.tasks[2]) == Child(0, Ready, q, TIMESLICE);
    hide Step;
    EndWaitTakesLiveTask(s, 2);
    hide EndWait;
  }

  // --------------------------------------------- the parent continued early

  lemma ParentContinued() returns (s: Sys, p: nat, q: nat)
    ensures Reached(s)
    ensures Trio(s, 2, Idle(Ready, 0), Parent(Ready, p, TIMESLICE, 2, 2), Child(1, Running, q, TIMESLICE))
  {
    hide Reached, Fresh;
    var s4: Sys;
    s4, p, q := ParentWaits();
    ReachedSound(s4);
    SoundShape(s4);
    hide Sound, FreeListed;
    ReachedThen(s4, SignalE(1, SIG_CONT));
    s := Step(s4, SignalE(1, SIG_CONT));
  }

  lemma ChildYields() returns (s: Sys, p: nat, q: nat)
    ensures Reached(s)
    ensures Trio(s, 0, Idle(Running, TIMESLICE), Parent(Ready, p, TIMESLICE, 2, 2), Child(1, Ready, q, 0))
  {
    hide Reached, Sound, FreeListed, Reschedule, Malloc;
    var s5: Sys;
    s5, p, q := ParentContinued();
    ReachedSound(s5);
    SoundShape(s5);
    TurnTo(Put(s5, 2, s5.tasks[2].(slice := 0)), 0);
    ReachedThen(s5, YieldE);
    s := Step(s5, YieldE);
  }

  /**
   Second cause: SIGCONT makes the waiting parent ready while its child lives.
   sched_wait returns 0, frees the stack the child runs on and leaves its slot
   free.
   */
  lemma ContinuedParentTakesLiveChild() returns (s: Sys)
    ensures Reached(s) && Sound(s) && s.cur == 1 && s.tasks[1].resume == 2
    ensures s.tasks[2].state == Ready && s.tasks[2].parent == 1
    ensures EndWait(s).1 == 0 && EndWait(s).0.tasks[2].state == State.Free
    ensures !Live(EndWait(s).0.heap, s.tasks[2].stack - HEADER)
  {
    hide Reached, Wf, FreeListed;
    var s6, p, q := ChildYields();
    ReachedSound(s6);
    SoundShape(s6);
    hide Reschedule, Sound;
    TurnTo(Put(s6, 0, s6.tasks[0].(slice := 0)), 1);
    ReachedThen(s6, YieldE);
    s := Step(s6, YieldE);
    ReachedSound(s);
    assert Core(s.tasks[2]) == Child(1, Ready, q, 0);
    hide Step;
    EndWaitTakesLiveTask(s, 2);
    hide EndWait;
  }

  // ------------------------------------------------------- the stranded task

  const LONG: uint32 := 0xFFFF_FFFF

  lemma IdleSleeps() returns (s: Sys)
    ensures Reached(s) && Inv(s) && s.cur == 1 && !CanHandOver(s) && !s.halted && s.tasks[1].state == Running
    ensures s.tasks[0].waitFor == -1 && s.tasks[1].parent == 0 && s.tasks[1].resume == -1 && s.tasks[1].slice == TIMESLICE
  {
    hide Reached, Fresh, Trio, Inv, Sound, CanHandOver, FreeListed, Sleep, Misuses;
    var s1, p := ParentMade();
    SleepsAlone(s1, p);
    LoneSleeper(s1, p);
    ReachedThen(s1, SleepE(LONG, 0));
    s := Step(s1, SleepE(LONG, 0));
  }

  lemma LoneSleeper(s: Sys, p: nat)
    requires Reached(s) && p != 0
    requires Trio(s, 0, Idle(Running, TIMESLICE), Parent(Ready, p, TIMESLICE, -1, -1), EmptySlot())
    ensures Shape(s) && FreeListed(s.heap) && Enabled(s, SleepE(LONG, 0))
    ensures var r := Sleep(s, LONG, 0); Inv(r) && r.cur == 1 && !CanHandOver(r)
  {
    hide Reached;
    ReachedSound(s);
    SoundShape(s);
    hide FreeListed, Malloc;
    assert s.tasks[2].state == State.Free;
    LoneTaskWithIdleAsleep(s, LONG, 0, 1);
    hide Sleep, Sound, CanHandOver;
  }

  lemma SleepsAlone(s: Sys, p: nat)
    requires Trio(s, 0, Idle(Running, TIMESLICE), Parent(Ready, p, TIMESLICE, -1, -1), EmptySlot())
    ensures var r := Sleep(s, LONG, 0);
      && !r.halted && r.tasks[1].state == Running && r.tasks[0].waitFor == -1 && r.tasks[1].parent == 0 && r.tasks[1].resume == -1 && r.tasks[1].slice == TIMESLICE
  {
    hide Reschedule;
    TurnTo(Put(s, 0, s.tasks[0].(state := Sleeping, wakeTick := WakeTime(0, LONG))), 1);
  }

  lemma {:induction false} ReapKeepsSlice(s: Sys, k: nat, i: nat)
    requires Shape(s) && k <= MAX_TASKS && i < MAX_TASKS
    ensures ReapFrom(s, k).tasks[i].slice == s.tasks[i].slice
    decreases MAX_TASKS - k
  {
    if k < MAX_TASKS { ReapKeepsSlice(ReapOne(s, k), k + 1, i); }
  }

  /** A tick with a freed slot at the processor and time left leaves it there. */
  lemma TickOverFreeSlot(s: Sys)
    requires Shape(s) && s.tasks[s.cur].slice == TIMESLICE && Housekeeping(s, 1024).tasks[s.cur].state == State.Free
    ensures var r, k := Tick(s, 1024), Housekeeping(s, 1024);
      r.cur == s.cur && r.tasks[s.cur] == k.tasks[s.cur].(slice := TIMESLICE - 1)
  {
    ReapKeepsSlice(WakeSleepers(Counted(s), 1024), 1, s.cur);
    hide ReapFrom, Reschedule;
  }

  /**
   The idle task creates a task and sleeps for long; the task exits, nobody can
   take over, and the reaping tick frees the stack it stands on.
   */
  lemma StrandedTaskIsReaped() returns (s: Sys)
    ensures Reached(s) && Sound(s) && s.cur == 1 && s.tasks[1].state == State.Free && s.tasks[1].stack == 0
  {
    hide Reached, Sound, CanHandOver, FreeListed, Housekeeping, Tick, Exit;
    var s2 := IdleSleeps();
    SoundShape(s2);
    StrandedOnFreedStack(s2, 7, 1024);
    ExitStays(s2, 7);
    ReachedThen(s2, ExitE(7));
    var s3 := Step(s2, ExitE(7));
    TickOverFreeSlot(s3);
    ReachedSound(s3);
    SoundShape(s3);
    assert !s3.halted by { NotHalted(s2, 7); }
    ReachedThen(s3, TickE(1024));
    s := Step(s3, TickE(1024));
    ReachedSound(s);
  }

  /**
   The same when it kills itself, from which sched_kill returns to it. It may
   go on to yield; but should it sleep, ownership is lost.
   */
  lemma StrandedSelfKillIsReaped() returns (s: Sys)
    ensures Reached(s) && Sound(s) && s.cur == 1 && s.tasks[1].state == State.Free && s.tasks[1].stack == 0
    ensures FreeListed(s.heap) && Enabled(s, YieldE) && Sound(Step(s, YieldE))
    ensures Possible(s, SleepE(1, 0)) && !Sound(Step(s, SleepE(1, 0)))
  {
    hide Reached, Sound, CanHandOver, FreeListed, Housekeeping, Tick, Exit, Kill;
    var s2 := IdleSleeps();
    SoundShape(s2);
    StrandedOnFreedStack(s2, -9, 1024);
    ExitStays(s2, -9);
    SelfKillIsExit(s2);
    ReachedThen(s2, KillE(1));
    var s3 := Step(s2, KillE(1));
    TickOverFreeSlot(s3);
    ReachedSound(s3);
    SoundShape(s3);
    assert !s3.halted by { NotHalted(s2, -9); }
    ReachedThen(s3, TickE(1024));
    s := Step(s3, TickE(1024));
    ReachedSound(s);
    SoundShape(s);
    GoesOn(s2, s3, s);
    StepKeepsSoundIff(s, YieldE);
    StepKeepsSoundIff(s, SleepE(1, 0));
    hide Step;
  }

  lemma GoesOn(s2: Sys, s3: Sys, s: Sys)
    requires Shape(s2) && s2.cur == 1 && s2.tasks[1].resume == -1
    requires Shape(s3) && s3.tasks == s2.tasks[1 := s2.tasks[1].(state := Dead, exitCode := -9)] && s3.cur == 1 && !s3.halted
    requires s3.tasks[1].slice == TIMESLICE && Housekeeping(s3, 1024).tasks[1].state == State.Free && s == Tick(s3, 1024)
    ensures !s.halted && s.tasks[1].resume == -1
  {
    HousekeepingKeepsResume(s3, 1024, 1);
    hide Housekeeping, Reschedule;
  }

  lemma {:induction false} ReapKeepsResume(s: Sys, k: nat, i: nat)
    requires Shape(s) && k <= MAX_TASKS && i < MAX_TASKS
    ensures ReapFrom(s, k).tasks[i].resume == s.tasks[i].resume && ReapFrom(s, k).halted == s.halted
    decreases MAX_TASKS - k
  {
    if k < MAX_TASKS { ReapKeepsResume(ReapOne(s, k), k + 1, i); }
  }

  lemma HousekeepingKeepsResume(s: Sys, now: uint64, i: nat)
    requires Shape(s) && i < MAX_TASKS
    ensures var k := Housekeeping(s, now);
      k.tasks[i].resume == s.tasks[i].resume && k.tasks[s.cur].slice == s.tasks[s.cur].slice && k.halted == s.halted
  {
    var w := WakeSleepers(Counted(s), now);
    ReapKeepsResume(w, 1, i);
    ReapKeepsSlice(w, 1, s.cur);
    hide ReapFrom;
  }

  lemma NotHalted(s: Sys, code: int)
    requires Shape(s) && s.cur != 0 && !s.halted
    ensures !Exit(s, code).halted
  {
    hide PickNext;
  }

  /** The one task that is awake runs, and its block returns at once. */
  lemma BlockReturnsAtOnce() returns (s: Sys)
    ensures Reached(s) && Sound(s) && s.cur == 1 && s.tasks[1].state == Running && Block(s, 1).cur == 1
  {
    hide Reached, Sound, CanHandOver, Block, Trio, Misuses, FreeListed;
    s := IdleSleeps();
    RunsAlone(s);
    BlockSwitchesIff(s);
  }

  lemma RunsAlone(s: Sys)
    requires Inv(s) && !CanHandOver(s)
    ensures forall i :: 0 <= i < MAX_TASKS && i != s.cur ==> s.tasks[i].state != Ready
  {
    var m := Marked(s, s.cur, 0);
    forall i | 0 <= i < MAX_TASKS && i != s.cur ensures s.tasks[i].state != Ready { assert m.tasks[i].state != Ready; }
    hide Guarded;
  }
}
