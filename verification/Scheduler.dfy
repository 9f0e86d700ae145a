/**
 The scheduler as the kernel keeps it: an array of task records and the current
 task's index, changed in place by scanning loops. Every method is proved equal
 to the call of module Sched that it implements.
 */
module Scheduling {
  import opened Words
  import opened Heap
  import opened Sched

  class Scheduler {
    const tasks: array<Task>
    var cur: int
    var total: nat
    var halted: bool
    var heap: HeapState
    ghost var picks: nat
    ghost var ledger: seq<Entry>

    ghost predicate Valid() reads this, tasks {
      tasks.Length == MAX_TASKS && 0 <= cur < MAX_TASKS && FreeListed(heap)
    }

    ghost function Abs(): (s: Sys)
      reads this, tasks
      ensures Valid() ==> Shape(s) && FreeListed(s.heap)
    {
      Sys(tasks[..], cur, total, halted, heap, picks, ledger)
    }

    constructor (heap: HeapState)
      requires FreeListed(heap)
      ensures Valid() && fresh(tasks) && Abs() == Start(heap)
    {
      tasks := new Task[MAX_TASKS](_ => EmptySlot());
      cur, total, halted := 0, 0, false;
      this.heap := heap;
      picks, ledger := 0, [];
      new;
      tasks[0] := IdleTask();
      assert tasks[..] == Start(heap).tasks;
    }

    /** The scan from the highest priority down, each time round the pool from the task after the current one. */
    method Pick() returns (next: int)
      requires Valid()
      ensures next == PickNext(tasks[..], cur)
    {
      var prio: int := NUM_PRIOS - 1;
      while prio >= 0
        invariant -1 <= prio < NUM_PRIOS
        invariant PickNext(tasks[..], cur) == PickFrom(tasks[..], cur, prio)
      {
        var i := 1;
        while i <= MAX_TASKS
          invariant 1 <= i <= MAX_TASKS + 1
          invariant Nearest(tasks[..], cur, prio, 1) == Nearest(tasks[..], cur, prio, i)
        {
          var idx := (cur + i) % MAX_TASKS;
          assert idx == At(cur, i);
          if tasks[idx].state == Ready && tasks[idx].prio == prio { return idx; }
          i := i + 1;
        }
        prio := prio - 1;
      }
      if tasks[0].state == Ready || tasks[0].state == Running { return 0; }
      next := cur;
    }

    method SwitchTo(next: int)
      requires Valid()
      modifies this, tasks
      ensures Valid() && Abs() == Switch(old(Abs()), next)
    {
      if next == cur || next < 0 || next >= MAX_TASKS { return; }
      if tasks[cur].state == Running { tasks[cur] := tasks[cur].(state := Ready); }
      tasks[next] := tasks[next].(state := Running, slice := TIMESLICE, switches := tasks[next].switches + 1);
      cur := next;
      total := total + 1;
      assert tasks[..] == Switch(old(Abs()), next).tasks;
    }

    method PickAndSwitch()
      requires Valid()
      modifies this, tasks
      ensures Valid() && Abs() == Reschedule(old(Abs()))
    {
      hide PickNext, Switch;
      var next := Pick();
      picks := picks + 1;
      SwitchTo(next);
    }

    method Store(i: int, t: Task)
      requires Valid() && 0 <= i < MAX_TASKS
      modifies tasks
      ensures Valid() && Abs() == Put(old(Abs()), i, t)
    {
      tasks[i] := t;
      assert tasks[..] == old(tasks[..])[i := t];
    }

    method Create(prio: nat) returns (tid: int)
      requires Valid()
      modifies this, tasks
      ensures Valid() && (Abs(), tid) == Sched.Create(old(Abs()), prio)
    {
      MallocListed(heap, STACK_SIZE);
      hide Malloc;
      var i := 1;
      while i < MAX_TASKS && tasks[i].state != State.Free
        invariant 1 <= i <= MAX_TASKS
        invariant FirstFree(tasks[..], 1) == FirstFree(tasks[..], i)
      {
        i := i + 1;
      }
      if i == MAX_TASKS { return -1; }
      var (heap', stack) := Malloc(heap, STACK_SIZE);
      heap := heap';
      if stack == 0 { return -1; }
      ledger := ledger + [Taken(stack)];
      tasks[i] := NewTask(prio, cur, stack);
      assert tasks[..] == old(tasks[..])[i := NewTask(prio, cur, stack)];
      tid := i;
    }

    method Yield()
      requires Valid()
      modifies this, tasks
      ensures Valid() && Abs() == Sched.Yield(old(Abs()))
    {
      hide Reschedule;
      Store(cur, tasks[cur].(slice := 0));
      PickAndSwitch();
    }

    method Sleep(ms: uint32, now: uint64)
      requires Valid()
      modifies this, tasks
      ensures Valid() && Abs() == Sched.Sleep(old(Abs()), ms, now)
    {
      hide Reschedule;
      Store(cur, tasks[cur].(state := Sleeping, wakeTick := WakeTime(now, ms)));
      PickAndSwitch();
    }

    /** The part sched_exit and sched_kill share: the task is dead, and a parent waiting for it becomes ready. */
    method Mark(i: int, code: int)
      requires Valid() && 0 <= i < MAX_TASKS
      modifies tasks
      ensures Valid() && Abs() == Marked(old(Abs()), i, code)
    {
      Store(i, tasks[i].(state := Dead, exitCode := code));
      var p := tasks[i].parent;
      if p >= 0 && p < MAX_TASKS {
        if tasks[p].state == Blocked && tasks[p].waitFor == i {
          Store(p, tasks[p].(waitFor := -1, state := Ready));
        }
      }
    }

    method Exit(code: int)
      requires Valid()
      modifies this, tasks
      ensures Valid() && Abs() == Sched.Exit(old(Abs()), code)
    {
      hide Reschedule, Marked;
      if cur <= 0 {
        halted := true;
        return;
      }
      Mark(cur, code);
      PickAndSwitch();
    }

    method Block(i: int)
      requires Valid()
      modifies this, tasks
      ensures Valid() && Abs() == Sched.Block(old(Abs()), i)
    {
      hide Reschedule;
      if i < 0 || i >= MAX_TASKS { return; }
      if tasks[i].state == Ready || tasks[i].state == Running {
        Store(i, tasks[i].(state := Blocked));
        if i == cur { PickAndSwitch(); }
      }
    }

    method Unblock(i: int)
      requires Valid()
      modifies tasks
      ensures Valid() && Abs() == Sched.Unblock(old(Abs()), i)
    {
      if i < 0 || i >= MAX_TASKS { return; }
      if tasks[i].state == Blocked { Store(i, tasks[i].(state := Ready)); }
    }

    method Kill(i: int) returns (r: int)
      requires Valid()
      modifies this, tasks
      ensures Valid() && (Abs(), r) == Sched.Kill(old(Abs()), i)
    {
      hide Reschedule, Marked;
      if i < 0 || i >= MAX_TASKS { return -1; }
      if tasks[i].state == State.Free || tasks[i].state == Dead { return -1; }
      if i == 0 { return -1; }
      Mark(i, -9);
      if i == cur { PickAndSwitch(); }
      r := 0;
    }

    method GiveBack(i: int)
      requires Valid() && 0 <= i < MAX_TASKS
      modifies this, tasks
      ensures Valid() && Abs() == Reclaim(old(Abs()), i)
    {
      var t := tasks[i];
      if t.stack != 0 {
        heap := Heap.Free(heap, t.stack);
        ledger := ledger + [Released(t.stack)];
        t := t.(stack := 0);
      }
      Store(i, t.(state := State.Free));
    }

    method Wait(child: int) returns (w: Waited)
      requires Valid()
      modifies this, tasks
      ensures Valid() && (Abs(), w) == Sched.Wait(old(Abs()), child)
    {
      hide Reschedule, Reclaim;
      if child < 0 || child >= MAX_TASKS { return Returned(-1); }
      if tasks[child].state == State.Free { return Returned(-1); }
      if tasks[child].parent != cur { return Returned(-1); }
      if tasks[child].state == Dead {
        var code := tasks[child].exitCode;
        GiveBack(child);
        return Returned(code);
      }
      Store(cur, tasks[cur].(waitFor := child, state := Blocked, resume := child));
      PickAndSwitch();
      w := Waiting;
    }

    method EndWait() returns (code: int)
      requires Valid() && 0 <= tasks[cur].resume < MAX_TASKS
      modifies this, tasks
      ensures Valid() && (Abs(), code) == Sched.EndWait(old(Abs()))
    {
      hide Reclaim;
      var child := tasks[cur].resume;
      Store(cur, tasks[cur].(resume := -1));
      code := tasks[child].exitCode;
      GiveBack(child);
    }

    method ReapDead()
      requires Valid()
      modifies this, tasks
      ensures Valid() && Abs() == Reap(old(Abs()))
    {
      hide Reclaim;
      var i := 1;
      while i < MAX_TASKS
        invariant 1 <= i <= MAX_TASKS && Valid()
        invariant Reap(old(Abs())) == ReapFrom(Abs(), i)
      {
        if tasks[i].state == Dead {
          var p := tasks[i].parent;
          if !(p >= 0 && p < MAX_TASKS && tasks[p].state != State.Free && tasks[p].state != Dead && tasks[p].waitFor == i) {
            GiveBack(i);
          }
        }
        i := i + 1;
      }
    }

    method WakeAll(now: uint64)
      requires Valid()
      modifies tasks
      ensures Valid() && Abs() == WakeSleepers(old(Abs()), now)
    {
      var i := 0;
      while i < MAX_TASKS
        invariant 0 <= i <= MAX_TASKS
        invariant forall j :: 0 <= j < i ==> tasks[j] == Roused(old(tasks[j]), now)
        invariant forall j :: i <= j < MAX_TASKS ==> tasks[j] == old(tasks[j])
      {
        if tasks[i].state == Sleeping && now >= tasks[i].wakeTick { tasks[i] := tasks[i].(state := Ready); }
        i := i + 1;
      }
      assert tasks[..] == WakeSleepers(old(Abs()), now).tasks;
    }

    /** Delivers pending signals to the current task; gone if that ended it. */
    method DeliverSignals() returns (gone: bool)
      requires Valid()
      modifies this, tasks
      ensures Valid() && (Abs(), gone) == Deliver(old(Abs()))
    {
      hide Sched.Exit;
      if tasks[cur].state == State.Free || tasks[cur].state == Dead { return false; }
      var deliverable := Deliverable(tasks[cur]);
      var sig := 1;
      while sig < SIG_MAX
        invariant 1 <= sig <= SIG_MAX && Valid() && cur == old(cur)
        invariant Deliver(old(Abs())) == DeliverFrom(Abs(), sig, deliverable)
      {
        if sig in deliverable {
          var h := HandlerOf(tasks[cur], sig);
          Store(cur, tasks[cur].(pending := tasks[cur].pending - {sig}));
          if h == Default && (sig == SIG_TERM || sig == SIG_INT) {
            Exit(128 + sig);
            return true;
          }
        }
        sig := sig + 1;
      }
      gone := false;
    }

    method Signal(i: int, sig: int) returns (r: int)
      requires Valid()
      modifies this, tasks
      ensures Valid() && (Abs(), r) == Sched.Signal(old(Abs()), i, sig)
    {
      hide Sched.Kill;
      if i < 0 || i >= MAX_TASKS { return -1; }
      if tasks[i].state == State.Free || tasks[i].state == Dead { return -1; }
      if sig < 0 || sig >= SIG_MAX { return -1; }
      if sig == SIG_KILL {
        r := Kill(i);
        return;
      }
      if sig == SIG_STOP {
        if tasks[i].state == Running || tasks[i].state == Ready { Store(i, tasks[i].(state := Blocked)); }
        return 0;
      }
      if sig == SIG_CONT {
        Unblock(i);
        return 0;
      }
      var t := tasks[i].(pending := tasks[i].pending + {sig});
      if t.state == Sleeping && sig !in t.masked { t := t.(state := Ready); }
      Store(i, t);
      r := 0;
    }

    method SetHandler(sig: int, h: Handler) returns (previous: Handler)
      requires Valid()
      modifies tasks
      ensures Valid() && Abs() == Sched.SetHandler(old(Abs()), sig, h)
      ensures previous ==
        if sig <= 0 || sig >= SIG_MAX || sig == SIG_KILL || sig == SIG_STOP then Default
        else HandlerOf(old(tasks[cur]), sig)
    {
      if sig <= 0 || sig >= SIG_MAX { return Default; }
      if sig == SIG_KILL || sig == SIG_STOP { return Default; }
      previous := HandlerOf(tasks[cur], sig);
      Store(cur, tasks[cur].(handlers := tasks[cur].handlers[sig := h]));
    }

    method BlockMask(mask: set<nat>)
      requires Valid()
      modifies tasks
      ensures Valid() && Abs() == Sched.BlockMask(old(Abs()), mask)
    {
      Store(cur, tasks[cur].(masked := tasks[cur].masked + (mask - {SIG_KILL, SIG_STOP})));
    }

    method UnblockMask(mask: set<nat>)
      requires Valid()
      modifies this, tasks
      ensures Valid() && Abs() == Sched.UnblockMask(old(Abs()), mask)
    {
      hide Deliver, Deliverable;
      Store(cur, tasks[cur].(masked := tasks[cur].masked - mask));
      if Deliverable(tasks[cur]) != {} { var _ := DeliverSignals(); }
    }

    method Tick(now: uint64)
      requires Valid()
      modifies this, tasks
      ensures Valid() && Abs() == Sched.Tick(old(Abs()), now)
    {
      hide WakeSleepers, Reap, Deliver, Countdown, Deliverable;
      Store(cur, tasks[cur].(ticks := tasks[cur].ticks + 1));
      WakeAll(now);
      if now % 1024 == 0 { ReapDead(); }
      assert Abs() == Housekeeping(old(Abs()), now);
      hide Housekeeping;
      if Deliverable(tasks[cur]) != {} {
        var gone := DeliverSignals();
        if gone { return; }
      }
      CountDown();
    }

    method CountDown()
      requires Valid()
      modifies this, tasks
      ensures Valid() && Abs() == Countdown(old(Abs()))
    {
      hide Reschedule;
      ghost var was := tasks[..];
      if tasks[cur].slice > 0 { Store(cur, tasks[cur].(slice := tasks[cur].slice - 1)); }
      if tasks[cur].slice == 0 {
        Store(cur, tasks[cur].(slice := TIMESLICE));
        assert tasks[..] == was[cur := was[cur].(slice := TIMESLICE)];
        PickAndSwitch();
      }
    }
  }

  lemma MallocListed(h: HeapState, size: uint64)
    requires FreeListed(h)
    ensures FreeListed(Malloc(h, size).0)
  {
    var g := Malloc(h, size).0;
    forall a | a in g.free ensures a in g.size {
      var j :| 0 <= j < |g.free| && g.free[j] == a;
    }
  }
}
