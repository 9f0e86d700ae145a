/**
 The priority round-robin scheduler: a pool of 32 tasks, the choice of the
 next one, and what every call does to the pool and to the heap the stacks
 come from. A call that switches away is given up to the switch; what is left
 of sched_wait for after the switch is remembered in the task.
 */
module Sched {
  import opened Words
  import opened Heap

  const MAX_TASKS: nat := 32
  const STACK_SIZE: nat := 16384
  const NUM_PRIOS: nat := 4
  const TIMESLICE: nat := 10
  const SIG_MAX: nat := 10
  const SIG_TERM: nat := 1
  const SIG_KILL: nat := 2
  const SIG_INT: nat := 3
  const SIG_STOP: nat := 4
  const SIG_CONT: nat := 5

  datatype State = Free | Ready | Running | Blocked | Sleeping | Dead

  datatype Handler = Default | Ignore | User

  datatype Task = Task(
    state: State, prio: nat, parent: int, waitFor: int,
    resume: int,   // the child whose exit code sched_wait has yet to collect here, -1 outside sched_wait
    stack: nat,    // 0 is null
    slice: nat, ticks: nat, wakeTick: uint64, exitCode: int, switches: nat,
    pending: set<nat>, masked: set<nat>, handlers: map<nat, Handler>)

  /** Every stack allocated and released, in order. */
  datatype Entry = Taken(stack: nat) | Released(stack: nat)

  datatype Sys = Sys(tasks: seq<Task>, cur: int, total: nat, halted: bool, heap: HeapState,
                     picks: nat, ledger: seq<Entry>)  // the last two only record what happened

  /** The pool has its 32 slots and the current task is one of them. */
  predicate Shape(s: Sys) {
    |s.tasks| == MAX_TASKS && 0 <= s.cur < MAX_TASKS
  }

  // --------------------------------------------------------- the next to run

  /** The slot k places after cur, round the pool. */
  function At(cur: nat, k: nat): (i: nat)
    requires cur < MAX_TASKS && k <= MAX_TASKS
    ensures i < MAX_TASKS && i == (cur + k) % MAX_TASKS
  {
    if cur + k < MAX_TASKS then cur + k else cur + k - MAX_TASKS
  }

  /** How many places after cur slot i lies; cur itself is 32 places away. */
  function Dist(cur: nat, i: nat): (k: nat)
    requires cur < MAX_TASKS && i < MAX_TASKS
    ensures 1 <= k <= MAX_TASKS && At(cur, k) == i
  {
    if i > cur then i - cur else i - cur + MAX_TASKS
  }

  predicate IsReady(tasks: seq<Task>, i: int, prio: int) {
    0 <= i < |tasks| && tasks[i].state == Ready && tasks[i].prio == prio
  }

  /** The least distance from k on at which a task of that priority is ready, 33 if there is none. */
  function Nearest(tasks: seq<Task>, cur: nat, prio: int, k: nat): (r: nat)
    requires cur < MAX_TASKS && 1 <= k <= MAX_TASKS + 1
    ensures k <= r <= MAX_TASKS + 1
    ensures r <= MAX_TASKS ==> IsReady(tasks, At(cur, r), prio)
    ensures forall j :: k <= j < r ==> !IsReady(tasks, At(cur, j), prio)
    decreases MAX_TASKS + 1 - k
  {
    if k > MAX_TASKS || IsReady(tasks, At(cur, k), prio) then k else Nearest(tasks, cur, prio, k + 1)
  }

  function PickFrom(tasks: seq<Task>, cur: nat, prio: int): (r: int)
    requires cur < MAX_TASKS == |tasks| && -1 <= prio
    ensures 0 <= r < MAX_TASKS
    decreases prio + 1
  {
    if prio < 0 then (if tasks[0].state == Ready || tasks[0].state == Running then 0 else cur)
    else
      var k := Nearest(tasks, cur, prio, 1);
      if k <= MAX_TASKS then At(cur, k) else PickFrom(tasks, cur, prio - 1)
  }

  function PickNext(tasks: seq<Task>, cur: nat): int
    requires cur < MAX_TASKS == |tasks|
  {
    PickFrom(tasks, cur, NUM_PRIOS - 1)
  }

  predicate Available(tasks: seq<Task>) {
    (exists i :: 0 <= i < |tasks| && tasks[i].state == Ready) || (tasks != [] && tasks[0].state == Running)
  }

  predicate PriosInRange(tasks: seq<Task>) {
    forall t <- tasks :: t.prio < NUM_PRIOS
  }

  /** r is ready with priority at most prio, and beats every such task. */
  ghost predicate Best(tasks: seq<Task>, cur: nat, prio: int, r: int)
    requires cur < MAX_TASKS == |tasks| && 0 <= r < MAX_TASKS
  {
    && tasks[r].state == Ready && tasks[r].prio <= prio
    && forall i :: 0 <= i < MAX_TASKS && tasks[i].state == Ready && tasks[i].prio <= prio ==>
       tasks[i].prio < tasks[r].prio || (tasks[i].prio == tasks[r].prio && Dist(cur, r) <= Dist(cur, i))
  }

  ghost predicate NoneReady(tasks: seq<Task>, prio: int) {
    forall i :: 0 <= i < |tasks| && tasks[i].prio <= prio ==> tasks[i].state != Ready
  }

  lemma {:induction false} PickFromIs(tasks: seq<Task>, cur: nat, prio: int)
    requires cur < MAX_TASKS == |tasks| && -1 <= prio
    ensures
      var r := PickFrom(tasks, cur, prio);
      if NoneReady(tasks, prio) then r == if tasks[0].state == Ready || tasks[0].state == Running then 0 else cur
      else Best(tasks, cur, prio, r)
    decreases prio + 1
  {
    if prio >= 0 {
      if Nearest(tasks, cur, prio, 1) > MAX_TASKS {
        NoneOfPrio(tasks, cur, prio);
        PickFromIs(tasks, cur, prio - 1);
      } else {
        NearestIsBest(tasks, cur, prio);
      }
    }
    hide Nearest, At;
  }

  lemma NoneOfPrio(tasks: seq<Task>, cur: nat, prio: int)
    requires cur < MAX_TASKS == |tasks| && Nearest(tasks, cur, prio, 1) > MAX_TASKS
    ensures forall i :: 0 <= i < |tasks| && tasks[i].prio == prio ==> tasks[i].state != Ready
  {
    hide Nearest;
    forall i | 0 <= i < |tasks| && tasks[i].prio == prio ensures tasks[i].state != Ready {
      assert At(cur, Dist(cur, i)) == i && !IsReady(tasks, i, prio);
    }
  }

  lemma NearestIsBest(tasks: seq<Task>, cur: nat, prio: int)
    requires cur < MAX_TASKS == |tasks| && Nearest(tasks, cur, prio, 1) <= MAX_TASKS
    ensures Best(tasks, cur, prio, At(cur, Nearest(tasks, cur, prio, 1)))
  {
    hide Nearest;
    var k := Nearest(tasks, cur, prio, 1);
    assert Dist(cur, At(cur, k)) == k;
    forall i | 0 <= i < MAX_TASKS && tasks[i].state == Ready && tasks[i].prio == prio ensures k <= Dist(cur, i) {
      assert At(cur, Dist(cur, i)) == i && IsReady(tasks, i, prio);
    }
  }

  /**
   The task picked is ready, no ready task has a higher priority, and none of
   the same priority is nearer after the current one. Only if nothing is ready
   is it the idle task, when that can run, or else the current task.
   */
  lemma PickNextIs(tasks: seq<Task>, cur: nat)
    requires cur < MAX_TASKS == |tasks| && PriosInRange(tasks)
    ensures (exists i :: 0 <= i < MAX_TASKS && tasks[i].state == Ready) ==>
      Best(tasks, cur, NUM_PRIOS - 1, PickNext(tasks, cur))
    ensures (forall i :: 0 <= i < MAX_TASKS ==> tasks[i].state != Ready) ==>
      PickNext(tasks, cur) == if tasks[0].state == Running then 0 else cur
  {
    PickFromIs(tasks, cur, NUM_PRIOS - 1);
    assert forall i :: 0 <= i < MAX_TASKS ==> tasks[i] in tasks && tasks[i].prio <= NUM_PRIOS - 1;
  }

  // ------------------------------------------------------------- the calls

  function Switch(s: Sys, next: int): (r: Sys)
    requires Shape(s)
    ensures Shape(r)
  {
    if next == s.cur || next < 0 || next >= MAX_TASKS then s else
    var was := s.tasks[s.cur];
    var left := s.tasks[s.cur := was.(state := if was.state == Running then Ready else was.state)];
    var entered := left[next].(state := Running, slice := TIMESLICE, switches := left[next].switches + 1);
    s.(tasks := left[next := entered], cur := next, total := s.total + 1)
  }

  function Reschedule(s: Sys): (r: Sys)
    requires Shape(s)
    ensures Shape(r)
  {
    Switch(s.(picks := s.picks + 1), PickNext(s.tasks, s.cur))
  }

  /** The pool with one task changed. */
  function Put(s: Sys, i: int, t: Task): (r: Sys)
    requires Shape(s) && 0 <= i < MAX_TASKS
    ensures Shape(r)
  {
    s.(tasks := s.tasks[i := t])
  }

  function FirstFree(tasks: seq<Task>, i: nat): (r: nat)
    requires i <= |tasks|
    ensures i <= r <= |tasks|
    ensures r < |tasks| ==> tasks[r].state == Free
    ensures forall j :: i <= j < r ==> tasks[j].state != Free
    decreases |tasks| - i
  {
    if i == |tasks| || tasks[i].state == Free then i else FirstFree(tasks, i + 1)
  }

  function NewTask(prio: nat, parent: int, stack: nat): Task {
    Task(Ready, if prio >= NUM_PRIOS then 1 else prio, parent, -1, -1, stack, TIMESLICE, 0, 0, 0, 0, {}, {}, map[])
  }

  function Create(s: Sys, prio: nat): (r: (Sys, int))
    requires Shape(s) && FreeListed(s.heap)
    ensures Shape(r.0)
  {
    var i: int := FirstFree(s.tasks, 1);
    if i == MAX_TASKS then (s, -1) else
    var (heap, stack) := Malloc(s.heap, STACK_SIZE);
    if stack == 0 then (s.(heap := heap), -1) else
    (s.(tasks := s.tasks[i := NewTask(prio, s.cur, stack)], heap := heap, ledger := s.ledger + [Taken(stack)]), i)
  }

  function Yield(s: Sys): (r: Sys)
    requires Shape(s)
    ensures Shape(r)
  {
    Reschedule(Put(s, s.cur, s.tasks[s.cur].(slice := 0)))
  }

  function WakeTime(now: uint64, ms: uint32): uint64 {
    (now + ms) % 0x1_0000_0000_0000_0000
  }

  function Sleep(s: Sys, ms: uint32, now: uint64): (r: Sys)
    requires Shape(s)
    ensures Shape(r)
  {
    Reschedule(Put(s, s.cur, s.tasks[s.cur].(state := Sleeping, wakeTick := WakeTime(now, ms))))
  }

  /** Task i is dead; a parent blocked in a wait for it becomes ready. */
  function Marked(s: Sys, i: int, code: int): (r: Sys)
    requires Shape(s) && 0 <= i < MAX_TASKS
    ensures Shape(r) && r.cur == s.cur
  {
    var dead := Put(s, i, s.tasks[i].(state := Dead, exitCode := code));
    var p := dead.tasks[i].parent;
    if 0 <= p < MAX_TASKS && dead.tasks[p].state == Blocked && dead.tasks[p].waitFor == i then
      Put(dead, p, dead.tasks[p].(waitFor := -1, state := Ready))
    else dead
  }

  /** sched_exit; the idle task halts the machine instead. */
  function Exit(s: Sys, code: int): (r: Sys)
    requires Shape(s)
    ensures Shape(r)
  {
    if s.cur <= 0 then s.(halted := true) else Reschedule(Marked(s, s.cur, code))
  }

  function Block(s: Sys, i: int): (r: Sys)
    requires Shape(s)
    ensures Shape(r)
  {
    if 0 <= i < MAX_TASKS && (s.tasks[i].state == Ready || s.tasks[i].state == Running) then
      var blocked := Put(s, i, s.tasks[i].(state := Blocked));
      if i == s.cur then Reschedule(blocked) else blocked
    else s
  }

  function Unblock(s: Sys, i: int): (r: Sys)
    requires Shape(s)
    ensures Shape(r)
  {
    if 0 <= i < MAX_TASKS && s.tasks[i].state == Blocked then Put(s, i, s.tasks[i].(state := Ready)) else s
  }

  function Kill(s: Sys, i: int): (r: (Sys, int))
    requires Shape(s)
    ensures Shape(r.0)
  {
    if i < 0 || i >= MAX_TASKS || s.tasks[i].state == Free || s.tasks[i].state == Dead || i == 0 then (s, -1) else
    var marked := Marked(s, i, -9);
    (if i == s.cur then Reschedule(marked) else marked, 0)
  }

  /** Gives back a task's stack, if it has one, and its slot. */
  function Reclaim(s: Sys, i: int): (r: Sys)
    requires Shape(s) && 0 <= i < MAX_TASKS
    ensures Shape(r) && r.cur == s.cur
  {
    var t := s.tasks[i];
    if t.stack == 0 then Put(s, i, t.(state := Free))
    else
      s.(tasks := s.tasks[i := t.(stack := 0, state := Free)],
         heap := Heap.Free(s.heap, t.stack), ledger := s.ledger + [Released(t.stack)])
  }

  /** The first half of sched_wait: it returns at once, or it blocks and remembers the child. */
  datatype Waited = Returned(code: int) | Waiting

  function Wait(s: Sys, child: int): (r: (Sys, Waited))
    requires Shape(s)
    ensures Shape(r.0)
  {
    if child < 0 || child >= MAX_TASKS then (s, Returned(-1))
    else if s.tasks[child].state == Free || s.tasks[child].parent != s.cur then (s, Returned(-1))
    else if s.tasks[child].state == Dead then (Reclaim(s, child), Returned(s.tasks[child].exitCode))
    else
      (Reschedule(Put(s, s.cur, s.tasks[s.cur].(waitFor := child, state := Blocked, resume := child))), Waiting)
  }

  /** The second half, when the waiting task runs again. */
  function EndWait(s: Sys): (r: (Sys, int))
    requires Shape(s) && 0 <= s.tasks[s.cur].resume < MAX_TASKS
    ensures Shape(r.0)
  {
    var child := s.tasks[s.cur].resume;
    (Reclaim(Put(s, s.cur, s.tasks[s.cur].(resume := -1)), child), s.tasks[child].exitCode)
  }

  /** Task i is dead and no live parent is waiting for it. */
  predicate Reapable(tasks: seq<Task>, i: nat)
    requires i < |tasks|
  {
    var p := tasks[i].parent;
    && tasks[i].state == Dead
    && !(0 <= p < |tasks| && tasks[p].state != Free && tasks[p].state != Dead && tasks[p].waitFor == i)
  }

  function ReapOne(s: Sys, i: nat): (r: Sys)
    requires Shape(s) && i < MAX_TASKS
    ensures Shape(r) && r.cur == s.cur
  {
    if Reapable(s.tasks, i) then Reclaim(s, i) else s
  }

  function ReapFrom(s: Sys, i: nat): (r: Sys)
    requires Shape(s) && i <= MAX_TASKS
    ensures Shape(r) && r.cur == s.cur
    decreases MAX_TASKS - i
  {
    if i == MAX_TASKS then s else ReapFrom(ReapOne(s, i), i + 1)
  }

  function Reap(s: Sys): (r: Sys)
    requires Shape(s)
    ensures Shape(r) && r.cur == s.cur
  {
    ReapFrom(s, 1)
  }

  // ---------------------------------------------------------------- signals

  function Deliverable(t: Task): set<nat> {
    t.pending - t.masked
  }

  function HandlerOf(t: Task, sig: nat): Handler {
    if sig in t.handlers then t.handlers[sig] else Default
  }

  /** The signal is no longer pending for the current task. */
  function Cleared(s: Sys, sig: nat): (r: Sys)
    requires Shape(s)
    ensures Shape(r) && r.cur == s.cur
  {
    Put(s, s.cur, s.tasks[s.cur].(pending := s.tasks[s.cur].pending - {sig}))
  }

  /** Delivers to the current task, from signal sig on; the flag says that it exited. User handlers are left out. */
  function DeliverFrom(s: Sys, sig: nat, deliverable: set<nat>): (r: (Sys, bool))
    requires Shape(s) && sig <= SIG_MAX
    ensures Shape(r.0)
    decreases SIG_MAX - sig
  {
    if sig == SIG_MAX then (s, false)
    else if sig !in deliverable then DeliverFrom(s, sig + 1, deliverable)
    else
      if HandlerOf(s.tasks[s.cur], sig) == Default && (sig == SIG_TERM || sig == SIG_INT) then
        (Exit(Cleared(s, sig), 128 + sig), true)
      else DeliverFrom(Cleared(s, sig), sig + 1, deliverable)
  }

  function Deliver(s: Sys): (r: (Sys, bool))
    requires Shape(s)
    ensures Shape(r.0)
  {
    var t := s.tasks[s.cur];
    if t.state == Free || t.state == Dead then (s, false) else DeliverFrom(s, 1, Deliverable(t))
  }

  function Signal(s: Sys, i: int, sig: int): (r: (Sys, int))
    requires Shape(s)
    ensures Shape(r.0)
  {
    if i < 0 || i >= MAX_TASKS then (s, -1)
    else if s.tasks[i].state == Free || s.tasks[i].state == Dead then (s, -1)
    else if sig < 0 || sig >= SIG_MAX then (s, -1)
    else if sig == SIG_KILL then Kill(s, i)
    else if sig == SIG_STOP then
      (if s.tasks[i].state == Running || s.tasks[i].state == Ready then Put(s, i, s.tasks[i].(state := Blocked)) else s, 0)
    else if sig == SIG_CONT then (Unblock(s, i), 0)
    else
      var t := s.tasks[i].(pending := s.tasks[i].pending + {sig});
      (Put(s, i, if t.state == Sleeping && sig !in t.masked then t.(state := Ready) else t), 0)
  }

  function SetMask(s: Sys, masked: set<nat>): (r: Sys)
    requires Shape(s)
    ensures Shape(r)
  {
    Put(s, s.cur, s.tasks[s.cur].(masked := masked))
  }

  function BlockMask(s: Sys, mask: set<nat>): (r: Sys)
    requires Shape(s)
    ensures Shape(r)
  {
    SetMask(s, s.tasks[s.cur].masked + (mask - {SIG_KILL, SIG_STOP}))
  }

  function UnblockMask(s: Sys, mask: set<nat>): (r: Sys)
    requires Shape(s)
    ensures Shape(r)
  {
    var open := SetMask(s, s.tasks[s.cur].masked - mask);
    if Deliverable(open.tasks[s.cur]) != {} then Deliver(open).0 else open
  }

  function SetHandler(s: Sys, sig: int, h: Handler): (r: Sys)
    requires Shape(s)
    ensures Shape(r)
  {
    if sig <= 0 || sig >= SIG_MAX || sig == SIG_KILL || sig == SIG_STOP then s
    else Put(s, s.cur, s.tasks[s.cur].(handlers := s.tasks[s.cur].handlers[sig := h]))
  }

  // ------------------------------------------------------------ the timer tick

  function Roused(t: Task, now: uint64): Task {
    if t.state == Sleeping && now >= t.wakeTick then t.(state := Ready) else t
  }

  /** Wakes the sleepers whose time has come. */
  function WakeSleepers(s: Sys, now: uint64): (r: Sys)
    requires Shape(s)
    ensures Shape(r) && r.cur == s.cur
  {
    s.(tasks := seq(MAX_TASKS, i requires 0 <= i < MAX_TASKS => Roused(s.tasks[i], now)))
  }

  /** Counts the slice down and hands over when it is used up. */
  function Countdown(s: Sys): (r: Sys)
    requires Shape(s)
    ensures Shape(r)
  {
    var t := s.tasks[s.cur];
    if t.slice > 1 then Put(s, s.cur, t.(slice := t.slice - 1))
    else Reschedule(Put(s, s.cur, t.(slice := TIMESLICE)))
  }

  function Counted(s: Sys): (r: Sys)
    requires Shape(s)
    ensures Shape(r) && r.cur == s.cur
  {
    Put(s, s.cur, s.tasks[s.cur].(ticks := s.tasks[s.cur].ticks + 1))
  }

  /** What sched_tick does before it delivers signals and counts the slice down. */
  function Housekeeping(s: Sys, now: uint64): (r: Sys)
    requires Shape(s)
    ensures Shape(r) && r.cur == s.cur
  {
    var woken := WakeSleepers(Counted(s), now);
    if now % 1024 == 0 then Reap(woken) else woken
  }

  function Tick(s: Sys, now: uint64): (r: Sys)
    requires Shape(s)
    ensures Shape(r)
  {
    var kept := Housekeeping(s, now);
    if Deliverable(kept.tasks[s.cur]) != {} then
      var (delivered, gone) := Deliver(kept);
      if gone then delivered else Countdown(delivered)
    else Countdown(kept)
  }

  // ------------------------------------------------------- starting the kernel

  predicate FreeListed(h: HeapState) {
    forall a <- h.free :: a in h.size
  }

  function IdleTask(): Task {
    Task(Running, 0, -1, -1, -1, 0, TIMESLICE, 0, 0, 0, 0, {}, {}, map[])
  }

  function EmptySlot(): Task {
    Task(Free, 0, 0, 0, -1, 0, 0, 0, 0, 0, 0, {}, {}, map[])
  }

  /** After sched_init: the idle task runs, all other slots are free. */
  function Start(heap: HeapState): Sys {
    Sys(seq(MAX_TASKS, i => if i == 0 then IdleTask() else EmptySlot()), 0, 0, false, heap, 0, [])
  }
}
