/**
 Runs of the scheduler with the heap underneath: who may be running, who owns
 which stack, that every stack is given back once, and when a living task stays
 at the processor.
 */
module SchedRuns {
  import opened Words
  import opened Heap
  import opened Sched

  // --------------------------------------------------------------- ownership

  /** Only the current task is running. */
  ghost predicate Alone(s: Sys) {
    forall i :: 0 <= i < |s.tasks| && s.tasks[i].state == Running ==> i == s.cur
  }

  predicate Alive(t: Task) {
    t.state != State.Free && t.state != Dead
  }

  /** A slot past the idle task's is free exactly if it has no stack; the idle task lives and has none. */
  ghost predicate Owned(tasks: seq<Task>) {
    && |tasks| == MAX_TASKS && tasks[0].stack == 0 && Alive(tasks[0]) && tasks[0].parent == -1
    && forall i :: 1 <= i < |tasks| ==> (tasks[i].state == State.Free <==> tasks[i].stack == 0)
  }

  predicate Sane(t: Task, i: int) {
    && t.prio < NUM_PRIOS && t.slice <= TIMESLICE
    && (t.resume == -1 || 1 <= t.resume < MAX_TASKS) && t.resume != i
    && (t.state != State.Free ==> t.parent != i)
  }

  ghost predicate AllSane(tasks: seq<Task>) {
    forall i :: 0 <= i < |tasks| ==> Sane(tasks[i], i)
  }

  predicate IsStack(heap: HeapState, p: nat) {
    p >= HEADER && Live(heap, p - HEADER)
  }

  /** The stacks are live blocks of the heap and no two tasks share one. */
  ghost predicate Separate(tasks: seq<Task>, heap: HeapState) {
    && (forall i :: 0 <= i < |tasks| && tasks[i].stack != 0 ==> IsStack(heap, tasks[i].stack))
    && forall i, j :: 0 <= i < j < |tasks| && tasks[i].stack != 0 ==> tasks[i].stack != tasks[j].stack
  }

  /** The stacks taken and not released. */
  function Held(ledger: seq<Entry>): set<nat> {
    if ledger == [] then {}
    else
      var e := ledger[|ledger| - 1];
      if e.Taken? then Held(ledger[..|ledger| - 1]) + {e.stack} else Held(ledger[..|ledger| - 1]) - {e.stack}
  }

  /** No stack was taken while held, and none released but once after it was taken. */
  predicate Balanced(ledger: seq<Entry>) {
    ledger == [] ||
    (var e, before := ledger[|ledger| - 1], ledger[..|ledger| - 1];
     Balanced(before) && if e.Taken? then e.stack !in Held(before) else e.stack in Held(before))
  }

  /** The books agree with the pool. */
  ghost predicate Accounted(tasks: seq<Task>, ledger: seq<Entry>) {
    && Balanced(ledger)
    && (forall i :: 0 <= i < |tasks| && tasks[i].stack != 0 ==> tasks[i].stack in Held(ledger))
    && forall p <- Held(ledger) :: exists i :: 0 <= i < |tasks| && tasks[i].stack == p && p != 0
  }

  ghost predicate Kept(tasks: seq<Task>, heap: HeapState, ledger: seq<Entry>) {
    && Owned(tasks) && AllSane(tasks)
    && Separate(tasks, heap) && Accounted(tasks, ledger)
    && Wf(heap) && FreeListed(heap)
  }

  ghost predicate Guarded(s: Sys) {
    Kept(s.tasks, s.heap, s.ledger)
  }

  ghost predicate Sound(s: Sys) {
    Shape(s) && Guarded(s) && Alone(s)
  }

  /** The task at the processor is alive besides. */
  ghost predicate Inv(s: Sys) {
    Sound(s) && Alive(s.tasks[s.cur])
  }

  // ------------------------------------------------- small changes keep it all

  /** The slot's owner is the same before and after. */
  predicate Similar(t: Task, u: Task) {
    && u.stack == t.stack && u.prio == t.prio && u.parent == t.parent
    && (u.state == State.Free <==> t.state == State.Free)
  }

  lemma SimilarGuards(s: Sys, r: Sys)
    requires Guarded(s) && |r.tasks| == |s.tasks| && r.heap == s.heap && r.ledger == s.ledger
    requires forall i :: 0 <= i < |s.tasks| ==> Similar(s.tasks[i], r.tasks[i])
    requires AllSane(r.tasks) && Alive(r.tasks[0])
    ensures Guarded(r)
  {
    hide Sane, IsStack, Wf;
    forall p | p in Held(r.ledger) ensures exists i :: 0 <= i < |r.tasks| && r.tasks[i].stack == p && p != 0 {
      var i :| 0 <= i < |s.tasks| && s.tasks[i].stack == p && p != 0;
      assert Similar(s.tasks[i], r.tasks[i]);
    }
  }

  lemma PutGuards(s: Sys, i: int, t: Task)
    requires Shape(s) && Guarded(s) && 0 <= i < MAX_TASKS
    requires Similar(s.tasks[i], t) && Sane(t, i) && (i == 0 ==> Alive(t))
    ensures Guarded(Put(s, i, t))
  {
    SimilarGuards(s, Put(s, i, t));
  }

  lemma SwitchGuards(s: Sys, next: int)
    requires Shape(s) && Guarded(s) && (0 <= next < MAX_TASKS && next != s.cur ==> s.tasks[next].state != State.Free)
    ensures Guarded(Switch(s, next))
  {
    SimilarGuards(s, Switch(s, next));
  }

  lemma GuardedPrios(s: Sys)
    requires Guarded(s)
    ensures PriosInRange(s.tasks)
  {
    forall t | t in s.tasks ensures t.prio < NUM_PRIOS {
      var i :| 0 <= i < |s.tasks| && s.tasks[i] == t;
      assert Sane(s.tasks[i], i);
    }
  }

  /** What is picked is ready unless it is the idle or the current task; and it is another exactly if one can run. */
  lemma PickedRuns(s: Sys)
    requires Shape(s) && PriosInRange(s.tasks) && Alone(s)
    ensures var next := PickNext(s.tasks, s.cur);
      && 0 <= next < MAX_TASKS
      && (next != s.cur ==> s.tasks[next].state == Ready)
      && (next == s.cur && Available(s.tasks) ==> s.tasks[next].state == Ready || s.tasks[next].state == Running)
      && (!Available(s.tasks) ==> next == s.cur)
  {
    PickNextIs(s.tasks, s.cur);
    hide PickNext;
  }

  /** Handing over keeps the running task alone, and leaves a dead one behind exactly if another can run. */
  lemma RescheduleTurns(s: Sys)
    requires Shape(s) && Guarded(s) && Alone(s)
    ensures var r := Reschedule(s);
      Guarded(r) && Alone(r) && r.halted == s.halted && r.picks == s.picks + 1
    ensures var r := Reschedule(s);
      Alive(r.tasks[r.cur]) <==> Alive(s.tasks[s.cur]) || Available(s.tasks)
  {
    hide Kept, PickNext, Available;
    GuardedPrios(s);
    PickedRuns(s);
    SwitchGuards(s.(picks := s.picks + 1), PickNext(s.tasks, s.cur));
  }

  // ------------------------------------------------------------------ events

  datatype Event =
    | CreateE(prio: nat)
    | YieldE
    | SleepE(ms: uint32, now: uint64)
    | ExitE(code: int)
    | BlockE(tid: int)
    | UnblockE(tid: int)
    | KillE(tid: int)
    | WaitE(child: int)
    | EndWaitE
    | SignalE(tid: int, sig: int)
    | BlockMaskE(mask: set<nat>)
    | UnblockMaskE(mask: set<nat>)
    | SetHandlerE(sig: int, h: Handler)
    | TickE(now: uint64)
    | OtherMallocE(size: uint64)  // the rest of the kernel uses the heap
    | OtherFreeE(ptr: nat)

  /** If the current task died now, another could run. */
  predicate CanHandOver(s: Sys)
    requires Shape(s)
  {
    Available(Marked(s, s.cur, 0).tasks)
  }

  /** A pending signal will make the task exit. */
  predicate Lethal(t: Task) {
    exists sig :: sig in Deliverable(t) && (sig == SIG_TERM || sig == SIG_INT) && HandlerOf(t, sig) == Default
  }

  /** The current task, or the timer, can make this step. */
  predicate Possible(s: Sys, e: Event)
    requires Shape(s)
  {
    && !s.halted
    && (!e.TickE? && !e.EndWaitE? ==> s.tasks[s.cur].resume == -1)
    && match e
       case CreateE(_) => NoWrap(s.heap, STACK_SIZE)
       case EndWaitE => 0 <= s.tasks[s.cur].resume < MAX_TASKS
       case OtherMallocE(size) => NoWrap(s.heap, size)
       case OtherFreeE(ptr) => forall i :: 0 <= i < MAX_TASKS && s.tasks[i].stack != 0 ==> s.tasks[i].stack != ptr
       case _ => true
  }

  /**
   A task that killed itself and could not be switched away from goes on after
   its slot has been reaped, and makes one of the calls that put the slot to use
   again as if it were its own.
   */
  predicate Misuses(s: Sys, e: Event)
    requires Shape(s) && FreeListed(s.heap)
  {
    s.tasks[s.cur].state == State.Free &&
    match e
    case SleepE(_, _) => true
    case ExitE(_) => s.cur != 0
    case WaitE(child) => 0 <= child < MAX_TASKS && s.tasks[child].parent == s.cur && Alive(s.tasks[child])
    case CreateE(_) => FirstFree(s.tasks, 1) == s.cur && Malloc(s.heap, STACK_SIZE).1 != 0
    case _ => false
  }

  predicate Enabled(s: Sys, e: Event)
    requires Shape(s) && FreeListed(s.heap)
  {
    Possible(s, e) && !Misuses(s, e)
  }

  /** If this step ends the current task, another can take over. */
  predicate Leaves(s: Sys, e: Event)
    requires Shape(s)
  {
    s.cur == 0 ||
    match e
    case ExitE(_) => CanHandOver(s)
    case KillE(i) => i == s.cur ==> CanHandOver(s)
    case SignalE(i, sig) => i == s.cur && sig == SIG_KILL ==> CanHandOver(s)
    case UnblockMaskE(mask) =>
      Lethal(s.tasks[s.cur].(masked := s.tasks[s.cur].masked - mask)) ==> CanHandOver(s)
    case TickE(now) =>
      Lethal(Housekeeping(s, now).tasks[s.cur]) ==> CanHandOver(Housekeeping(s, now))
    case _ => true
  }

  function Step(s: Sys, e: Event): (r: Sys)
    requires Shape(s) && FreeListed(s.heap) && Possible(s, e)
    ensures Shape(r)
  {
    match e
    case CreateE(prio) => Create(s, prio).0
    case YieldE => Yield(s)
    case SleepE(ms, now) => Sleep(s, ms, now)
    case ExitE(code) => Exit(s, code)
    case BlockE(i) => Block(s, i)
    case UnblockE(i) => Unblock(s, i)
    case KillE(i) => Kill(s, i).0
    case WaitE(child) => Wait(s, child).0
    case EndWaitE => EndWait(s).0
    case SignalE(i, sig) => Signal(s, i, sig).0
    case BlockMaskE(mask) => BlockMask(s, mask)
    case UnblockMaskE(mask) => UnblockMask(s, mask)
    case SetHandlerE(sig, h) => SetHandler(s, sig, h)
    case TickE(now) => Tick(s, now)
    case OtherMallocE(size) => s.(heap := Malloc(s.heap, size).0)
    case OtherFreeE(ptr) => s.(heap := Heap.Free(s.heap, ptr))
  }

  // ---------------------------------------------------- each event keeps it all

  /** Puts a changed current task and hands over. */
  lemma PutAndTurn(s: Sys, t: Task)
    requires Sound(s) && Similar(s.tasks[s.cur], t) && Sane(t, s.cur) && (s.cur == 0 ==> Alive(t))
    requires t.state != Running || s.tasks[s.cur].state == Running
    ensures var r := Reschedule(Put(s, s.cur, t)); Sound(r) && (Alive(t) ==> Alive(r.tasks[r.cur]))
  {
    hide Kept;
    PutGuards(s, s.cur, t);
    RescheduleTurns(Put(s, s.cur, t));
  }

  lemma PutKeeps(s: Sys, i: int, t: Task)
    requires Sound(s) && 0 <= i < MAX_TASKS && Similar(s.tasks[i], t) && Sane(t, i)
    requires i == 0 ==> Alive(t)
    requires t.state == Running ==> s.tasks[i].state == Running
    ensures Sound(Put(s, i, t))
  {
    hide Kept;
    PutGuards(s, i, t);
  }

  lemma SaneAt(s: Sys, i: int)
    requires Sound(s) && 0 <= i < MAX_TASKS
    ensures Sane(s.tasks[i], i) && (i == 0 ==> Alive(s.tasks[i]) && s.tasks[i].parent == -1)
  {
  }

  lemma SoundShape(s: Sys)
    requires Sound(s)
    ensures Shape(s) && FreeListed(s.heap) && Wf(s.heap)
  {
  }

  lemma MarkedGuards(s: Sys, i: int, code: int)
    requires Sound(s) && 0 < i < MAX_TASKS && s.tasks[i].state != State.Free
    ensures var m := Marked(s, i, code); Guarded(m) && Alone(m) && m.halted == s.halted
    ensures var m := Marked(s, i, code); Alive(m.tasks[s.cur]) <==> i != s.cur && Alive(s.tasks[s.cur])
    ensures i == s.cur ==> Available(Marked(s, i, code).tasks) == CanHandOver(s)
  {
    hide Kept;
    SaneAt(s, i);
    var t := s.tasks[i].(state := Dead, exitCode := code);
    PutGuards(s, i, t);
    var dead := Put(s, i, t);
    var p := t.parent;
    if 0 <= p < MAX_TASKS && dead.tasks[p].state == Blocked && dead.tasks[p].waitFor == i {
      SaneAt(s, p);
      PutGuards(dead, p, dead.tasks[p].(waitFor := -1, state := Ready));
    }
    if i == s.cur { AvailableSame(Marked(s, i, code).tasks, Marked(s, i, 0).tasks); }
  }

  lemma AvailableSame(a: seq<Task>, b: seq<Task>)
    requires |a| == |b| && forall i :: 0 <= i < |a| ==> a[i].state == b[i].state
    ensures Available(a) == Available(b)
  {
    if Available(a) { if i :| 0 <= i < |a| && a[i].state == Ready { assert b[i].state == Ready; } }
    if Available(b) { if i :| 0 <= i < |b| && b[i].state == Ready { assert a[i].state == Ready; } }
  }

  /** An exiting task leaves the processor exactly if another task can take it over. */
  lemma ExitLeavesIff(s: Sys, code: int)
    requires Sound(s) && s.cur != 0 && s.tasks[s.cur].state != State.Free
    ensures var r := Exit(s, code);
      Sound(r) && (Alive(r.tasks[r.cur]) <==> CanHandOver(s))
  {
    hide Kept;
    MarkedGuards(s, s.cur, code);
    RescheduleTurns(Marked(s, s.cur, code));
  }

  lemma ExitKeeps(s: Sys, code: int)
    requires Sound(s) && s.tasks[s.cur].state != State.Free
    ensures Sound(Exit(s, code))
  {
    hide Kept;
    if s.cur != 0 { ExitLeavesIff(s, code); }
  }

  lemma KillKeeps(s: Sys, i: int)
    requires Sound(s)
    ensures Sound(Kill(s, i).0)
  {
    hide Kept;
    if Kill(s, i).1 == 0 {
      MarkedGuards(s, i, -9);
      if i == s.cur { RescheduleTurns(Marked(s, i, -9)); }
    }
  }

  lemma GuardedHeap(s: Sys)
    requires Guarded(s)
    ensures Wf(s.heap) && FreeListed(s.heap)
    ensures forall i :: 0 <= i < |s.tasks| && s.tasks[i].stack != 0 ==> IsStack(s.heap, s.tasks[i].stack)
  {
  }

  lemma FreeHasNoStack(s: Sys, i: int)
    requires Guarded(s) && 1 <= i < |s.tasks|
    ensures s.tasks[i].state == State.Free <==> s.tasks[i].stack == 0
  {
  }

  lemma CreateKeeps(s: Sys, prio: nat)
    requires Sound(s) && NoWrap(s.heap, STACK_SIZE) && !Misuses(s, CreateE(prio))
    ensures Sound(Create(s, prio).0)
  {
    var i: int := FirstFree(s.tasks, 1);
    if i == MAX_TASKS { return; }
    GuardedHeap(s);
    FreeHasNoStack(s, i);
    CreateAtKeeps(s, prio, i);
    hide Sound;
  }

  lemma CreateAtKeeps(s: Sys, prio: nat, i: nat)
    requires Sound(s) && NoWrap(s.heap, STACK_SIZE) && FreeListed(s.heap) && Wf(s.heap)
    requires 1 <= i < MAX_TASKS && s.tasks[i].state == State.Free && s.tasks[i].stack == 0
    requires i == s.cur ==> Malloc(s.heap, STACK_SIZE).1 == 0
    ensures
      var (heap, stack) := Malloc(s.heap, STACK_SIZE);
      if stack == 0 then Sound(s.(heap := heap))
      else Sound(s.(tasks := s.tasks[i := NewTask(prio, s.cur, stack)], heap := heap, ledger := s.ledger + [Taken(stack)]))
  {
    hide Kept, Malloc, Wf, NoWrap;
    var (heap, stack) := Malloc(s.heap, STACK_SIZE);
    MallocLeavesLive(s.heap, STACK_SIZE);
    hide IsStack;
    GuardedHeap(s);
    if stack == 0 {
      HeapGuards(s, heap);
    } else {
      NewStackGuards(s, heap, i, NewTask(prio, s.cur, stack));
    }
  }

  /** Blocks live before an allocation are live after it, and the one given out was not live. */
  lemma MallocLeavesLive(h: HeapState, size: uint64)
    requires Wf(h) && NoWrap(h, size)
    ensures var (g, p) := Malloc(h, size);
      && Wf(g) && FreeListed(g)
      && (forall b :: IsStack(h, b) ==> IsStack(g, b))
      && (p != 0 ==> IsStack(g, p) && !IsStack(h, p))
  {
    MallocWf(h, size);
    if Malloc(h, size).1 != 0 { MallocGivesFreshBlock(h, size); }
  }

  lemma HeapGuards(s: Sys, heap: HeapState)
    requires Guarded(s) && Wf(heap) && FreeListed(heap)
    requires forall i :: 0 <= i < |s.tasks| && s.tasks[i].stack != 0 ==> IsStack(heap, s.tasks[i].stack)
    ensures Guarded(s.(heap := heap))
  {
  }

  lemma NewStackGuards(s: Sys, heap: HeapState, i: int, t: Task)
    requires Shape(s) && Guarded(s) && Wf(heap) && FreeListed(heap)
    requires forall b :: IsStack(s.heap, b) ==> IsStack(heap, b)
    requires 1 <= i < MAX_TASKS && s.tasks[i].stack == 0
    requires t.stack != 0 && t.state != State.Free && Sane(t, i) && IsStack(heap, t.stack) && !IsStack(s.heap, t.stack)
    ensures Kept(s.tasks[i := t], heap, s.ledger + [Taken(t.stack)])
  {
    hide Wf, FreeListed, Sane, IsStack;
    var ledger := s.ledger + [Taken(t.stack)];
    assert ledger[..|s.ledger|] == s.ledger;
    assert t.stack !in Held(s.ledger);
    var tasks := s.tasks[i := t];
    forall p | p in Held(ledger) ensures exists j :: 0 <= j < |tasks| && tasks[j].stack == p && p != 0 {
      if p == t.stack {
        assert tasks[i].stack == p;
      } else {
        var j :| 0 <= j < |s.tasks| && s.tasks[j].stack == p && p != 0;
        assert tasks[j].stack == p;
      }
    }
  }

  /** Giving back slot i and its stack keeps everything; the stack was live until now. */
  lemma ReclaimGuards(s: Sys, i: int)
    requires Shape(s) && Guarded(s) && 1 <= i < MAX_TASKS
    ensures Guarded(Reclaim(s, i))
  {
    var t := s.tasks[i];
    FreeHasNoStack(s, i);
    if t.stack == 0 {
      assert s.tasks[i := t.(state := State.Free)] == s.tasks;
    } else {
      GuardedHeap(s);
      FreeKeepsOthers(s.heap, t.stack);
      OldStackGuards(s, Heap.Free(s.heap, t.stack), i);
    }
  }

  lemma FreeKeepsOthers(h: HeapState, p: nat)
    requires Wf(h)
    ensures var g := Heap.Free(h, p);
      Wf(g) && FreeListed(g) && forall b :: IsStack(h, b) && b != p ==> IsStack(g, b)
  {
    FreeWf(h, p);
  }

  lemma OldStackGuards(s: Sys, heap: HeapState, i: int)
    requires Shape(s) && Guarded(s) && Wf(heap) && FreeListed(heap) && 1 <= i < MAX_TASKS && s.tasks[i].stack != 0
    requires forall b :: IsStack(s.heap, b) && b != s.tasks[i].stack ==> IsStack(heap, b)
    ensures Kept(s.tasks[i := s.tasks[i].(stack := 0, state := State.Free)], heap, s.ledger + [Released(s.tasks[i].stack)])
  {
    var t := s.tasks[i];
    hide Wf, FreeListed, IsStack;
    var ledger := s.ledger + [Released(t.stack)];
    assert ledger[..|s.ledger|] == s.ledger;
    var tasks := s.tasks[i := t.(stack := 0, state := State.Free)];
    forall p | p in Held(ledger) ensures exists j :: 0 <= j < |tasks| && tasks[j].stack == p && p != 0 {
      var j :| 0 <= j < |s.tasks| && s.tasks[j].stack == p && p != 0;
      assert tasks[j].stack == p;
    }
  }

  lemma ReclaimKeeps(s: Sys, i: int)
    requires Sound(s) && 1 <= i < MAX_TASKS
    ensures Sound(Reclaim(s, i)) && Reclaim(s, i).halted == s.halted
  {
    hide Kept;
    ReclaimGuards(s, i);
  }

  lemma {:induction false} ReapFromKeeps(s: Sys, i: nat)
    requires Shape(s) && Sound(s) && 1 <= i <= MAX_TASKS
    ensures Sound(ReapFrom(s, i)) && ReapFrom(s, i).halted == s.halted
    decreases MAX_TASKS - i
  {
    hide Sound, Kept, ReapOne, Shape;
    if i < MAX_TASKS {
      ReapOneKeeps(s, i);
      ReapFromKeeps(ReapOne(s, i), i + 1);
    }
  }

  lemma ReapOneKeeps(s: Sys, i: nat)
    requires Sound(s) && 1 <= i < MAX_TASKS
    ensures Sound(ReapOne(s, i)) && ReapOne(s, i).halted == s.halted
  {
    hide Kept, Reclaim;
    if Reapable(s.tasks, i) { ReclaimKeeps(s, i); }
  }

  lemma WaitKeeps(s: Sys, child: int)
    requires Sound(s) && s.tasks[s.cur].resume == -1 && !Misuses(s, WaitE(child))
    ensures Sound(Wait(s, child).0)
  {
    hide Kept;
    if child < 0 || child >= MAX_TASKS || s.tasks[child].state == State.Free || s.tasks[child].parent != s.cur { return; }
    SaneAt(s, child);
    SaneAt(s, s.cur);
    if s.tasks[child].state == Dead {
      ReclaimKeeps(s, child);
    } else {
      PutAndTurn(s, s.tasks[s.cur].(waitFor := child, state := Blocked, resume := child));
    }
  }

  lemma EndWaitKeeps(s: Sys)
    requires Sound(s) && 0 <= s.tasks[s.cur].resume < MAX_TASKS
    ensures Sound(EndWait(s).0)
  {
    hide Kept;
    SaneAt(s, s.cur);
    PutKeeps(s, s.cur, s.tasks[s.cur].(resume := -1));
    ReclaimKeeps(Put(s, s.cur, s.tasks[s.cur].(resume := -1)), s.tasks[s.cur].resume);
  }

  lemma ClearedKeeps(s: Sys, sig: nat)
    requires Sound(s)
    ensures Sound(Cleared(s, sig)) && CanHandOver(Cleared(s, sig)) == CanHandOver(s)
    ensures Cleared(s, sig).tasks[s.cur].handlers == s.tasks[s.cur].handlers
    ensures Cleared(s, sig).tasks[s.cur].state == s.tasks[s.cur].state
  {
    hide Kept, Available;
    SaneAt(s, s.cur);
    PutKeeps(s, s.cur, s.tasks[s.cur].(pending := s.tasks[s.cur].pending - {sig}));
    AvailableSame(Marked(s, s.cur, 0).tasks, Marked(Cleared(s, sig), s.cur, 0).tasks);
  }

  lemma {:induction false} DeliverFromKeeps(s: Sys, sig: nat, deliverable: set<nat>)
    requires Shape(s) && Sound(s) && sig <= SIG_MAX
    requires s.tasks[s.cur].state != State.Free
    ensures Sound(DeliverFrom(s, sig, deliverable).0)
    decreases SIG_MAX - sig
  {
    hide Sound, Exit, Cleared, CanHandOver;
    if sig == SIG_MAX { return; }
    if sig !in deliverable {
      DeliverFromKeeps(s, sig + 1, deliverable);
    } else {
      ClearedKeeps(s, sig);
      if HandlerOf(s.tasks[s.cur], sig) == Default && (sig == SIG_TERM || sig == SIG_INT) {
        ExitKeeps(Cleared(s, sig), 128 + sig);
      } else {
        DeliverFromKeeps(Cleared(s, sig), sig + 1, deliverable);
      }
    }
  }

  lemma DeliverKeeps(s: Sys)
    requires Sound(s)
    ensures Sound(Deliver(s).0)
  {
    hide Kept;
    if Alive(s.tasks[s.cur]) { DeliverFromKeeps(s, 1, Deliverable(s.tasks[s.cur])); }
  }

  lemma WakeSleepersKeeps(s: Sys, now: uint64)
    requires Sound(s)
    ensures Sound(WakeSleepers(s, now))
  {
    var r := WakeSleepers(s, now);
    forall i | 0 <= i < |s.tasks| ensures Similar(s.tasks[i], r.tasks[i]) && Sane(r.tasks[i], i) {
      SaneAt(s, i);
    }
    SimilarGuards(s, r);
  }

  lemma CountedKeeps(s: Sys)
    requires Sound(s)
    ensures Sound(Counted(s))
  {
    hide Kept;
    SaneAt(s, s.cur);
    PutKeeps(s, s.cur, s.tasks[s.cur].(ticks := s.tasks[s.cur].ticks + 1));
  }

  lemma HousekeepingKeeps(s: Sys, now: uint64)
    requires Sound(s)
    ensures Sound(Housekeeping(s, now))
  {
    SoundShape(s);
    hide Sound, Shape, Counted, WakeSleepers, ReapFrom;
    CountedKeeps(s);
    WakeSleepersKeeps(Counted(s), now);
    ReapFromKeeps(WakeSleepers(Counted(s), now), 1);
  }

  lemma CountdownKeeps(s: Sys)
    requires Sound(s)
    ensures Sound(Countdown(s))
  {
    hide Kept;
    SaneAt(s, s.cur);
    var t := s.tasks[s.cur];
    if t.slice > 1 {
      PutKeeps(s, s.cur, t.(slice := t.slice - 1));
    } else {
      PutAndTurn(s, t.(slice := TIMESLICE));
    }
  }

  lemma TickKeeps(s: Sys, now: uint64)
    requires Sound(s)
    ensures Sound(Tick(s, now))
  {
    SoundShape(s);
    hide Sound, Kept;
    HousekeepingKeeps(s, now);
    var kept := Housekeeping(s, now);
    hide Countdown, Deliver, Housekeeping;
    if Deliverable(kept.tasks[s.cur]) != {} {
      DeliverKeeps(kept);
      if !Deliver(kept).1 { CountdownKeeps(Deliver(kept).0); }
    } else {
      CountdownKeeps(kept);
    }
  }

  lemma UnblockMaskKeeps(s: Sys, mask: set<nat>)
    requires Sound(s)
    ensures Sound(UnblockMask(s, mask))
  {
    hide Kept;
    SaneAt(s, s.cur);
    var t := s.tasks[s.cur].(masked := s.tasks[s.cur].masked - mask);
    PutKeeps(s, s.cur, t);
    var open := Put(s, s.cur, t);
    hide Deliver;
    DeliverKeeps(open);
  }

  lemma SignalKeeps(s: Sys, i: int, sig: int)
    requires Sound(s)
    ensures Sound(Signal(s, i, sig).0)
  {
    hide Kept;
    if Signal(s, i, sig).1 < 0 { return; }
    if sig == SIG_KILL { KillKeeps(s, i); return; }
    SaneAt(s, i);
    if sig == SIG_STOP {
      PutKeeps(s, i, s.tasks[i].(state := Blocked));
    } else if sig == SIG_CONT {
      PutKeeps(s, i, s.tasks[i].(state := Ready));
    } else {
      PutKeeps(s, i, s.tasks[i].(pending := s.tasks[i].pending + {sig}));
      PutKeeps(s, i, s.tasks[i].(pending := s.tasks[i].pending + {sig}, state := Ready));
    }
  }

  lemma OtherFreeKeeps(s: Sys, ptr: nat)
    requires Sound(s) && Possible(s, OtherFreeE(ptr))
    ensures Sound(s.(heap := Heap.Free(s.heap, ptr)))
  {
    FreeWf(s.heap, ptr);
    HeapGuards(s, Heap.Free(s.heap, ptr));
  }

  lemma SleepKeeps(s: Sys, ms: uint32, now: uint64)
    requires Sound(s)
    ensures Sound(Yield(s)) && (s.tasks[s.cur].state != State.Free ==> Sound(Sleep(s, ms, now)))
  {
    hide Kept, Reschedule;
    SaneAt(s, s.cur);
    PutAndTurn(s, s.tasks[s.cur].(slice := 0));
    if s.tasks[s.cur].state == State.Free { return; }
    PutAndTurn(s, s.tasks[s.cur].(state := Sleeping, wakeTick := WakeTime(now, ms)));
  }

  lemma BlockKeeps(s: Sys, i: int)
    requires Sound(s)
    ensures Sound(Block(s, i)) && Sound(Unblock(s, i))
  {
    hide Kept, Reschedule;
    if 0 <= i < MAX_TASKS && Alive(s.tasks[i]) {
      SaneAt(s, i);
      PutKeeps(s, i, s.tasks[i].(state := Ready));
      if i == s.cur { PutAndTurn(s, s.tasks[i].(state := Blocked)); }
      else { PutKeeps(s, i, s.tasks[i].(state := Blocked)); }
    }
  }

  lemma BlockMaskKeeps(s: Sys, mask: set<nat>, sig: int, h: Handler)
    requires Sound(s)
    ensures Sound(BlockMask(s, mask)) && Sound(SetHandler(s, sig, h))
  {
    hide Kept;
    SaneAt(s, s.cur);
    PutKeeps(s, s.cur, s.tasks[s.cur].(masked := s.tasks[s.cur].masked + (mask - {SIG_KILL, SIG_STOP})));
    if sig >= 0 { PutKeeps(s, s.cur, s.tasks[s.cur].(handlers := s.tasks[s.cur].handlers[sig := h])); }
  }

  lemma OtherMallocKeeps(s: Sys, size: uint64)
    requires Sound(s) && NoWrap(s.heap, size)
    ensures Sound(s.(heap := Malloc(s.heap, size).0))
  {
    hide Malloc;
    MallocLeavesLive(s.heap, size);
    HeapGuards(s, Malloc(s.heap, size).0);
  }

  /** Every other event keeps who owns what and who runs, dying tasks that cannot leave included. */
  lemma StepKeepsSound(s: Sys, e: Event)
    requires Sound(s) && Enabled(s, e)
    ensures Sound(Step(s, e))
  {
    SoundShape(s);
    hide Sound;
    if e.CreateE? || e.WaitE? || e.EndWaitE? || e.OtherMallocE? || e.OtherFreeE? { StackStepKeeps(s, e); }
    else if e.ExitE? || e.KillE? || e.SignalE? || e.UnblockMaskE? || e.TickE? { DyingStepKeeps(s, e); }
    else { PlainStepKeeps(s, e); }
  }

  lemma StackStepKeeps(s: Sys, e: Event)
    requires Sound(s) && Enabled(s, e)
    requires e.CreateE? || e.WaitE? || e.EndWaitE? || e.OtherMallocE? || e.OtherFreeE?
    ensures FreeListed(s.heap) && Sound(Step(s, e))
  {
    SoundShape(s);
    hide Sound, Create, Wait, EndWait, Malloc, Heap.Free, FreeListed, NoWrap;
    if e.CreateE? { CreateKeeps(s, e.prio); }
    else if e.WaitE? { WaitKeeps(s, e.child); }
    else if e.EndWaitE? { EndWaitKeeps(s); }
    else if e.OtherMallocE? { OtherMallocKeeps(s, e.size); }
    else { OtherFreeKeeps(s, e.ptr); }
  }

  lemma DyingStepKeeps(s: Sys, e: Event)
    requires Sound(s) && Enabled(s, e)
    requires e.ExitE? || e.KillE? || e.SignalE? || e.UnblockMaskE? || e.TickE?
    ensures FreeListed(s.heap) && Sound(Step(s, e))
  {
    SoundShape(s);
    hide Sound, Exit, Kill, Signal, UnblockMask, Tick, FreeListed, CanHandOver, Housekeeping;
    if e.ExitE? { ExitKeeps(s, e.code); }
    else if e.KillE? { KillKeeps(s, e.tid); }
    else if e.SignalE? { SignalKeeps(s, e.tid, e.sig); }
    else if e.UnblockMaskE? { UnblockMaskKeeps(s, e.mask); }
    else { TickKeeps(s, e.now); }
  }

  lemma PlainStepKeeps(s: Sys, e: Event)
    requires Sound(s) && Enabled(s, e)
    requires e.YieldE? || e.SleepE? || e.BlockE? || e.UnblockE? || e.BlockMaskE? || e.SetHandlerE?
    ensures FreeListed(s.heap) && Sound(Step(s, e))
  {
    SoundShape(s);
    hide Sound, Yield, Sleep, Block, Unblock, BlockMask, SetHandler, FreeListed;
    if e.YieldE? { SleepKeeps(s, 0, 0); }
    else if e.SleepE? { SleepKeeps(s, e.ms, e.now); }
    else if e.BlockE? || e.UnblockE? { BlockKeeps(s, e.tid); }
    else if e.BlockMaskE? { BlockMaskKeeps(s, e.mask, 0, Default); }
    else { BlockMaskKeeps(s, {}, e.sig, e.h); }
  }

  // ------------------------------------- the task at the processor stays alive

  /** Signal sig or a later one in the set makes a task with these handlers exit. */
  predicate Deadly(handlers: map<nat, Handler>, sig: nat, deliverable: set<nat>) {
    exists g :: g in deliverable && sig <= g && (g == SIG_TERM || g == SIG_INT) && !(g in handlers && handlers[g] != Default)
  }

  lemma {:induction false} DeliverFromLeavesIff(s: Sys, sig: nat, deliverable: set<nat>)
    requires Shape(s) && Inv(s) && sig <= SIG_MAX
    ensures var (r, gone) := DeliverFrom(s, sig, deliverable);
      && (gone <==> Deadly(s.tasks[s.cur].handlers, sig, deliverable))
      && (if gone then Alive(r.tasks[r.cur]) <==> s.cur == 0 || CanHandOver(s) else Inv(r))
    decreases SIG_MAX - sig
  {
    hide Sound, Exit, CanHandOver, Marked, Available;
    if sig == SIG_MAX { return; }
    if sig !in deliverable {
      DeliverFromLeavesIff(s, sig + 1, deliverable);
    } else {
      ClearedKeeps(s, sig);
      var c := Cleared(s, sig);
      if HandlerOf(s.tasks[s.cur], sig) == Default && (sig == SIG_TERM || sig == SIG_INT) {
        if s.cur == 0 { assert Exit(c, 128 + sig) == c.(halted := true) by { IdleHalts(c, 128 + sig); } }
        else { ExitLeavesIff(c, 128 + sig); }
      } else {
        DeliverFromLeavesIff(c, sig + 1, deliverable);
      }
    }
  }

  lemma IdleHalts(s: Sys, code: int)
    requires Shape(s) && s.cur == 0
    ensures Exit(s, code) == s.(halted := true)
  {
  }

  lemma DeliverLeavesIff(s: Sys)
    requires Inv(s)
    ensures var (r, gone) := Deliver(s);
      && (gone <==> Lethal(s.tasks[s.cur]))
      && (if gone then Alive(r.tasks[r.cur]) <==> s.cur == 0 || CanHandOver(s) else Inv(r))
  {
    var t := s.tasks[s.cur];
    DeliverFromLeavesIff(s, 1, Deliverable(t));
    hide Inv, DeliverFrom, CanHandOver;
    if Lethal(t) {
      var g :| g in Deliverable(t) && (g == SIG_TERM || g == SIG_INT) && HandlerOf(t, g) == Default;
      assert Deadly(t.handlers, 1, Deliverable(t));
    }
    if Deadly(t.handlers, 1, Deliverable(t)) {
      var g :| g in Deliverable(t) && 1 <= g && (g == SIG_TERM || g == SIG_INT) && !(g in t.handlers && t.handlers[g] != Default);
      assert HandlerOf(t, g) == Default;
    }
  }

  lemma {:induction false} ReapFromSpares(s: Sys, i: nat, j: nat)
    requires Shape(s) && i <= MAX_TASKS && j < MAX_TASKS && Alive(s.tasks[j])
    ensures Alive(ReapFrom(s, i).tasks[j])
    decreases MAX_TASKS - i
  {
    hide Heap.Free;
    if i < MAX_TASKS { ReapFromSpares(ReapOne(s, i), i + 1, j); }
  }

  lemma HousekeepingSpares(s: Sys, now: uint64)
    requires Inv(s)
    ensures Inv(Housekeeping(s, now))
  {
    HousekeepingKeeps(s, now);
    var w := WakeSleepers(Counted(s), now);
    assert Alive(w.tasks[s.cur]);
    ReapFromSpares(w, 1, s.cur);
    hide Sound, ReapFrom;
  }

  lemma CountdownAlive(s: Sys)
    requires Inv(s)
    ensures Alive(Countdown(s).tasks[Countdown(s).cur])
  {
    SaneAt(s, s.cur);
    PutAndTurn(s, s.tasks[s.cur].(slice := TIMESLICE));
    hide Sound, Reschedule;
  }

  /** What a tick does after its housekeeping. */
  function Delivered(k: Sys): (r: Sys)
    requires Shape(k)
    ensures Shape(r)
  {
    var (d, gone) := if Deliverable(k.tasks[k.cur]) != {} then Deliver(k) else (k, false);
    if gone then d else Countdown(d)
  }

  lemma TickLeavesIff(s: Sys, now: uint64)
    requires Inv(s)
    ensures var r, k := Tick(s, now), Housekeeping(s, now);
      Alive(r.tasks[r.cur]) <==> s.cur == 0 || !Lethal(k.tasks[k.cur]) || CanHandOver(k)
  {
    SoundShape(s);
    hide Tick, Housekeeping, Inv, CanHandOver, Lethal, Delivered;
    TickIs(s, now);
    HousekeepingSpares(s, now);
    DeliveredLeavesIff(Housekeeping(s, now));
  }

  lemma TickIs(s: Sys, now: uint64)
    requires Shape(s)
    ensures Tick(s, now) == Delivered(Housekeeping(s, now)) && Housekeeping(s, now).cur == s.cur
  {
    hide Housekeeping, Deliver, Countdown, Deliverable;
  }

  lemma DeliveredLeavesIff(k: Sys)
    requires Inv(k)
    ensures var r := Delivered(k);
      Alive(r.tasks[r.cur]) <==> k.cur == 0 || !Lethal(k.tasks[k.cur]) || CanHandOver(k)
  {
    SoundShape(k);
    hide Sound, CanHandOver, Countdown, Deliver;
    DeliverLeavesIff(k);
    if Deliverable(k.tasks[k.cur]) == {} {
      CountdownAlive(k);
    } else if !Deliver(k).1 {
      CountdownAlive(Deliver(k).0);
    }
  }

  lemma UnblockMaskLeavesIff(s: Sys, mask: set<nat>)
    requires Inv(s)
    ensures var r := UnblockMask(s, mask); Alive(r.tasks[r.cur]) <==> Leaves(s, UnblockMaskE(mask))
  {
    SoundShape(s);
    hide Sound, Deliver, CanHandOver, Lethal, Sane;
    SaneAt(s, s.cur);
    var t := s.tasks[s.cur].(masked := s.tasks[s.cur].masked - mask);
    SaneMask(s, t);
    PutKeeps(s, s.cur, t);
    var open := Put(s, s.cur, t);
    MaskCanHandOver(s, t);
    DeliverLeavesIff(open);
  }

  lemma SaneMask(s: Sys, t: Task)
    requires Sound(s) && t == s.tasks[s.cur].(masked := t.masked)
    ensures Sane(t, s.cur) && Similar(s.tasks[s.cur], t)
  {
    SaneAt(s, s.cur);
  }

  lemma MaskCanHandOver(s: Sys, t: Task)
    requires Shape(s) && t == s.tasks[s.cur].(masked := t.masked)
    ensures CanHandOver(Put(s, s.cur, t)) == CanHandOver(s)
  {
    AvailableSame(Marked(s, s.cur, 0).tasks, Marked(Put(s, s.cur, t), s.cur, 0).tasks);
    hide Available;
  }

  lemma KillLeavesIff(s: Sys, i: int)
    requires Inv(s)
    ensures var r := Kill(s, i).0; Alive(r.tasks[r.cur]) <==> (i == s.cur && i != 0 ==> CanHandOver(s))
  {
    hide Kept;
    if Kill(s, i).1 == 0 {
      MarkedGuards(s, i, -9);
      if i == s.cur { RescheduleTurns(Marked(s, i, -9)); }
    }
  }

  /** A step leaves a living task at the processor exactly if the task it ends, if any, can be switched away from. */
  lemma StepLeavesIff(s: Sys, e: Event)
    requires Inv(s) && Enabled(s, e)
    ensures FreeListed(s.heap)
    ensures var r := Step(s, e); Alive(r.tasks[r.cur]) <==> Leaves(s, e)
  {
    SoundShape(s);
    hide Sound, Exit, Kill, UnblockMask, Tick, CanHandOver, FreeListed, NoWrap, Create, Wait, EndWait, Malloc, Heap.Free;
    if e.TickE? { TickLeavesIff(s, e.now); }
    else if e.ExitE? { if s.cur == 0 { IdleHalts(s, e.code); } else { ExitLeavesIff(s, e.code); } }
    else if e.KillE? { KillLeavesIff(s, e.tid); }
    else if e.UnblockMaskE? { UnblockMaskLeavesIff(s, e.mask); }
    else if e.SignalE? { SignalLeavesIff(s, e.tid, e.sig); }
    else if e.YieldE? || e.SleepE? || e.BlockE? || e.WaitE? { TurnLeaves(s, e); }
    else { OtherLeaves(s, e); }
  }

  lemma SignalLeavesIff(s: Sys, i: int, sig: int)
    requires Inv(s)
    ensures var r := Signal(s, i, sig).0; Alive(r.tasks[r.cur]) <==> Leaves(s, SignalE(i, sig))
  {
    SoundShape(s);
    hide Sound, Kill, CanHandOver;
    if sig == SIG_KILL { SignalIsKill(s, i); KillLeavesIff(s, i); }
  }

  lemma SignalIsKill(s: Sys, i: int)
    requires Shape(s)
    ensures Signal(s, i, SIG_KILL).0 == Kill(s, i).0
  {
    hide Marked, Reschedule;
  }

  lemma TurnLeaves(s: Sys, e: Event)
    requires Inv(s) && Enabled(s, e) && (e.YieldE? || e.SleepE? || e.BlockE? || e.WaitE?)
    ensures FreeListed(s.heap)
    ensures var r := Step(s, e); Alive(r.tasks[r.cur])
  {
    SoundShape(s);
    SaneAt(s, s.cur);
    hide Reschedule, Sound, Sane, WakeTime, FreeListed;
    if e.YieldE? { YieldLeaves(s, 0, 0); }
    else if e.SleepE? { YieldLeaves(s, e.ms, e.now); }
    else if e.BlockE? { BlockLeaves(s, e.tid); }
    else { WaitLeaves(s, e.child); }
    hide Yield, Sleep, Block, Wait;
  }

  lemma YieldLeaves(s: Sys, ms: uint32, now: uint64)
    requires Inv(s)
    ensures var r := Yield(s); Alive(r.tasks[r.cur])
    ensures var r := Sleep(s, ms, now); Alive(r.tasks[r.cur])
  {
    SaneAt(s, s.cur);
    hide Reschedule, Sound, WakeTime;
    PutAndTurn(s, s.tasks[s.cur].(slice := 0));
    PutAndTurn(s, s.tasks[s.cur].(state := Sleeping, wakeTick := WakeTime(now, ms)));
  }

  lemma BlockLeaves(s: Sys, i: int)
    requires Inv(s)
    ensures var r := Block(s, i); Alive(r.tasks[r.cur])
  {
    SaneAt(s, s.cur);
    hide Reschedule, Sound;
    PutAndTurn(s, s.tasks[s.cur].(state := Blocked));
  }

  lemma WaitLeaves(s: Sys, child: int)
    requires Inv(s)
    ensures var r := Wait(s, child).0; Alive(r.tasks[r.cur])
  {
    SoundShape(s);
    hide Reschedule, Sound;
    if child < 0 || child >= MAX_TASKS || s.tasks[child].state == State.Free || s.tasks[child].parent != s.cur { return; }
    SaneAt(s, s.cur);
    SaneAt(s, child);
    PutAndTurn(s, s.tasks[s.cur].(waitFor := child, state := Blocked, resume := child));
  }

  lemma OtherLeaves(s: Sys, e: Event)
    requires Inv(s) && Enabled(s, e)
    requires e.CreateE? || e.UnblockE? || e.EndWaitE? || e.BlockMaskE? || e.SetHandlerE? || e.OtherMallocE? || e.OtherFreeE?
    ensures FreeListed(s.heap)
    ensures var r := Step(s, e); Alive(r.tasks[r.cur])
  {
    SoundShape(s);
    SaneAt(s, s.cur);
    hide Sound, Malloc, Heap.Free, NoWrap;
  }

  // -------------------------------------------------------------- whole runs

  ghost predicate Run(s: Sys, events: seq<Event>, v: Sys)
    decreases |events|
  {
    if events == [] then v == s
    else Shape(s) && FreeListed(s.heap) && Enabled(s, events[0]) && Run(Step(s, events[0]), events[1..], v)
  }

  lemma StartInv(heap: HeapState)
    requires Wf(heap)
    ensures Inv(Start(heap))
  {
    var s := Start(heap);
    assert FreeListed(heap);
    hide Wf, FreeListed;
    assert forall i :: 0 <= i < |s.tasks| ==> s.tasks[i] == if i == 0 then IdleTask() else EmptySlot();
    assert Owned(s.tasks) && AllSane(s.tasks) && Separate(s.tasks, heap);
    assert Accounted(s.tasks, []);
  }

  /**
   Over every run: only the current task is running; a slot past 0 is free
   exactly if it has no stack; the stacks are distinct live blocks of a
   well-formed heap; and of the stacks handed out each was released at most
   once since, the ones not released being exactly those that tasks still own.
   That holds too when a task dies at the processor and nobody takes over.
   */
  lemma {:induction false} RunKeepsSound(s: Sys, events: seq<Event>, v: Sys)
    requires Sound(s) && Run(s, events, v)
    ensures Sound(v)
    decreases |events|
  {
    hide Sound;
    if events != [] {
      StepKeepsSound(s, events[0]);
      RunKeepsSound(Step(s, events[0]), events[1..], v);
    }
  }

  /** A run in which no task ends that could not be switched away from. */
  ghost predicate LeavingRun(s: Sys, events: seq<Event>, v: Sys)
    decreases |events|
  {
    if events == [] then v == s
    else
      && Shape(s) && FreeListed(s.heap) && Enabled(s, events[0]) && Leaves(s, events[0])
      && LeavingRun(Step(s, events[0]), events[1..], v)
  }

  /** Over such a run the current task is alive at every moment. */
  lemma {:induction false} LeavingRunKeepsInv(s: Sys, events: seq<Event>, v: Sys)
    requires Inv(s) && LeavingRun(s, events, v)
    ensures Inv(v)
    decreases |events|
  {
    hide Sound;
    if events != [] {
      StepKeepsSound(s, events[0]);
      StepLeavesIff(s, events[0]);
      hide Inv, Step, Leaves;
      LeavingRunKeepsInv(Step(s, events[0]), events[1..], v);
    }
  }

  function TimesTaken(ledger: seq<Entry>, p: nat): nat {
    if ledger == [] then 0 else TimesTaken(ledger[..|ledger| - 1], p) + if ledger[|ledger| - 1] == Taken(p) then 1 else 0
  }

  function TimesReleased(ledger: seq<Entry>, p: nat): nat {
    if ledger == [] then 0
    else TimesReleased(ledger[..|ledger| - 1], p) + if ledger[|ledger| - 1] == Released(p) then 1 else 0
  }

  lemma {:induction false} BalancedCounts(ledger: seq<Entry>, p: nat)
    requires Balanced(ledger)
    ensures TimesTaken(ledger, p) == TimesReleased(ledger, p) + if p in Held(ledger) then 1 else 0
  {
    if ledger != [] { BalancedCounts(ledger[..|ledger| - 1], p); }
  }

  /** Each stack is freed exactly once for each time it was allocated, but for the time it is still in use. */
  lemma StacksFreedOnce(heap: HeapState, events: seq<Event>, v: Sys, p: nat)
    requires Wf(heap) && Run(Start(heap), events, v)
    ensures TimesTaken(v.ledger, p) ==
      TimesReleased(v.ledger, p) + if exists i :: 0 <= i < |v.tasks| && v.tasks[i].stack == p && p != 0 then 1 else 0
  {
    StartInv(heap);
    RunKeepsSound(Start(heap), events, v);
    BalancedCounts(v.ledger, p);
    assert Accounted(v.tasks, v.ledger);
  }

  // ----------------------------------------------- when nobody can take over

  lemma {:induction false} ReapFromFrees(s: Sys, k: nat, j: nat)
    requires Shape(s) && k <= j < MAX_TASKS && s.tasks[j].state == Dead
    requires 0 <= s.tasks[j].parent < MAX_TASKS ==> s.tasks[s.tasks[j].parent].waitFor != j
    ensures var r := ReapFrom(s, k); r.tasks[j].state == State.Free && r.tasks[j].stack == 0
    decreases MAX_TASKS - k
  {
    hide Heap.Free;
    var r := ReapOne(s, k);
    if k < j { ReapFromFrees(r, k + 1, j); } else { FreedStaysFreed(r, k + 1, j); }
  }

  lemma {:induction false} FreedStaysFreed(s: Sys, k: nat, j: nat)
    requires Shape(s) && j < k <= MAX_TASKS && s.tasks[j].state == State.Free && s.tasks[j].stack == 0
    ensures var r := ReapFrom(s, k); r.tasks[j].state == State.Free && r.tasks[j].stack == 0
    decreases MAX_TASKS - k
  {
    hide Heap.Free;
    if k < MAX_TASKS { FreedStaysFreed(ReapOne(s, k), k + 1, j); }
  }

  /**
   When nothing else can run, and the idle task itself may be asleep, an exit
   leaves the dead task at the processor, and the next reaping tick frees the
   stack the processor stands on.
   */
  lemma StrandedOnFreedStack(s: Sys, code: int, now: uint64)
    requires Inv(s) && s.cur != 0 && !CanHandOver(s) && now % 1024 == 0
    requires 0 <= s.tasks[s.cur].parent < MAX_TASKS ==> s.tasks[s.tasks[s.cur].parent].waitFor != s.cur
    ensures
      var gone := Exit(s, code);
      var v := Housekeeping(gone, now);
      && gone.cur == s.cur && gone.tasks[s.cur].state == Dead && gone.tasks[s.cur].stack != 0
      && v.cur == s.cur && v.tasks[s.cur].state == State.Free && v.tasks[s.cur].stack == 0
  {
    ExitStays(s, code);
    var gone := Exit(s, code);
    hide Inv, Exit, CanHandOver, Alone;
    var w := WakeSleepers(Counted(gone), now);
    assert w.tasks[s.cur].state == Dead && w.tasks[s.cur].parent == s.tasks[s.cur].parent;
    ReapFromFrees(w, 1, s.cur);
    hide ReapFrom, WakeSleepers, Counted;
  }

  lemma ExitStays(s: Sys, code: int)
    requires Inv(s) && s.cur != 0 && !CanHandOver(s)
    requires 0 <= s.tasks[s.cur].parent < MAX_TASKS ==> s.tasks[s.tasks[s.cur].parent].waitFor != s.cur
    ensures var gone := Exit(s, code);
      gone.tasks == s.tasks[s.cur := s.tasks[s.cur].(state := Dead, exitCode := code)] && gone.cur == s.cur
    ensures s.tasks[s.cur].stack != 0 && s.tasks[s.cur].parent != s.cur
  {
    SaneAt(s, s.cur);
    FreeHasNoStack(s, s.cur);
    MarkedGuards(s, s.cur, code);
    var m := Marked(s, s.cur, code);
    GuardedPrios(m);
    PickedRuns(m);
    hide Inv, Kept, PickNext;
  }

  /** A task that kills itself exits with code -9, but that sched_kill returns to it when nobody takes over. */
  lemma SelfKillIsExit(s: Sys)
    requires Inv(s) && s.cur != 0
    ensures Kill(s, s.cur).0 == Exit(s, -9)
  {
    hide Kept, Marked, Reschedule;
  }

  /** Each of the misuses makes a task of the free slot that has no stack, or is its own parent. */
  lemma MisuseBreaks(s: Sys, e: Event)
    requires Sound(s) && Possible(s, e) && Misuses(s, e)
    ensures FreeListed(s.heap) && !Sound(Step(s, e))
  {
    SoundShape(s);
    FreeHasNoStack(s, s.cur);
    hide Sound;
    if e.CreateE? {
      OwnParentBreaks(s, e.prio);
      hide Create;
    } else {
      var t := s.tasks[s.cur];
      var u := if e.SleepE? then t.(state := Sleeping, wakeTick := WakeTime(e.now, e.ms))
        else if e.ExitE? then t.(state := Dead, exitCode := e.code)
        else t.(waitFor := e.child, state := Blocked, resume := e.child);
      if e.ExitE? {
        ExitMarks(s, e.code);
        LeftAsItWas(Marked(s, s.cur, e.code));
        hide Marked;
      } else {
        LeftAsItWas(Put(s, s.cur, u));
      }
      hide Reschedule, WakeTime, Malloc;
      NoStackBreaks(Step(s, e), s.cur);
    }
  }

  lemma ExitMarks(s: Sys, code: int)
    requires Sound(s) && s.cur != 0 && s.tasks[s.cur].state == State.Free
    ensures var m := Marked(s, s.cur, code);
      m.tasks[s.cur].state == Dead && m.tasks[s.cur].stack == s.tasks[s.cur].stack
  {
    hide Guarded;
  }

  lemma NoStackBreaks(s: Sys, i: int)
    requires 0 < i < MAX_TASKS && i < |s.tasks| && s.tasks[i].stack == 0 && s.tasks[i].state != State.Free
    ensures !Sound(s)
  {
  }

  lemma OwnParentBreaks(s: Sys, prio: nat)
    requires Shape(s) && FreeListed(s.heap) && FirstFree(s.tasks, 1) == s.cur && Malloc(s.heap, STACK_SIZE).1 != 0
    ensures !Sound(Create(s, prio).0)
  {
    hide Malloc, Owned, Separate, Accounted, Wf;
    var r := Create(s, prio).0;
    assert !Sane(r.tasks[s.cur], s.cur);
  }

  /**
   Ownership over one call, signal or tick, whoever stands at the processor: it
   is kept exactly if the call is not a misuse of a freed slot. A freed slot's
   task may yield, block, unblock, kill, signal and set masks and handlers.
   */
  lemma StepKeepsSoundIff(s: Sys, e: Event)
    requires Sound(s) && Possible(s, e)
    ensures FreeListed(s.heap) && (Sound(Step(s, e)) <==> !Misuses(s, e))
  {
    SoundShape(s);
    hide Sound, Step, Possible;
    if Misuses(s, e) { MisuseBreaks(s, e); } else { StepKeepsSound(s, e); }
  }

  lemma LeftAsItWas(m: Sys)
    requires Shape(m) && m.tasks[m.cur].state != Running
    ensures var r := Reschedule(m); |r.tasks| == MAX_TASKS && r.tasks[m.cur] == m.tasks[m.cur]
  {
    hide PickNext;
  }

  /** As long as the idle task itself stays ready, every other task can exit. */
  lemma IdleReadyCanTakeOver(s: Sys)
    requires Inv(s) && s.cur != 0 && s.tasks[0].state == Ready
    ensures CanHandOver(s)
  {
    assert Marked(s, s.cur, 0).tasks[0].state == Ready;
  }

  /** Such a state is reached: one task runs while the idle task sleeps. */
  lemma LoneTaskWithIdleAsleep(s: Sys, ms: uint32, now: uint64, t: nat)
    requires Inv(s) && s.cur == 0 && 0 < t < MAX_TASKS && s.tasks[t].state == Ready
    requires forall i :: 0 < i < MAX_TASKS && i != t ==> s.tasks[i].state == State.Free
    ensures var r := Sleep(s, ms, now); Inv(r) && r.cur == t && !CanHandOver(r)
  {
    SleepKeeps(s, ms, now);
    SaneAt(s, t);
    SaneAt(s, 0);
    hide Inv, CanHandOver, Sleep;
    SleepHandsTo(s, ms, now, t);
    LastOneRuns(Sleep(s, ms, now));
  }

  lemma SleepHandsTo(s: Sys, ms: uint32, now: uint64, t: nat)
    requires Shape(s) && s.cur == 0 && 0 < t < MAX_TASKS && s.tasks[t].state == Ready && s.tasks[t].prio < NUM_PRIOS
    requires forall i :: 0 < i < MAX_TASKS && i != t ==> s.tasks[i].state == State.Free
    ensures var r := Sleep(s, ms, now);
      && r.cur == t && r.tasks[0].state == Sleeping
      && forall i :: 0 < i < MAX_TASKS && i != t ==> r.tasks[i].state == State.Free
  {
    hide WakeTime, PickNext;
    OnlyReadyIsPicked(Put(s, 0, s.tasks[0].(state := Sleeping, wakeTick := WakeTime(now, ms))), t);
  }

  lemma OnlyReadyIsPicked(m: Sys, t: nat)
    requires Shape(m) && t < MAX_TASKS && m.tasks[t].state == Ready && m.tasks[t].prio < NUM_PRIOS
    requires forall i :: 0 <= i < MAX_TASKS && i != t ==> m.tasks[i].state != Ready
    ensures PickNext(m.tasks, m.cur) == t
  {
    PickFromIs(m.tasks, m.cur, NUM_PRIOS - 1);
    assert !NoneReady(m.tasks, NUM_PRIOS - 1);
    hide PickFrom;
  }

  lemma LastOneRuns(s: Sys)
    requires Shape(s) && s.cur != 0 && s.tasks[0].state == Sleeping
    requires forall i :: 0 < i < MAX_TASKS && i != s.cur ==> s.tasks[i].state == State.Free
    ensures !CanHandOver(s)
  {
  }
}
