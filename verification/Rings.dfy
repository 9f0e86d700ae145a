/**
 The circular buffers of the kernel (TCP receive buffer, IPC queue, pipe)
 as the sequence of elements they hold, oldest first.
 */
module Rings {

  /** The count elements that start at index head and wrap at the end of buf. */
  ghost function View<T>(buf: seq<T>, head: nat, count: nat): seq<T>
    requires head < |buf| && count <= |buf|
  {
    seq(count, i requires 0 <= i < count => buf[Slot(head, i, |buf|)])
  }

  /** (head + i) mod n, for an index that wraps at most once. */
  function Slot(head: nat, i: nat, n: nat): (s: nat)
    requires head < n && i <= n
    ensures s < n
    ensures s == (head + i) % n
  {
    SmallMod(head + i, n);
    if head + i < n then head + i else head + i - n
  }

  lemma SmallMod(a: nat, n: nat)
    requires 0 < n && a < 2 * n
    ensures a % n == if a < n then a else a - n
  {
  }

  /** Writing x at the tail slot and raising the count appends x. */
  lemma Push<T>(buf: seq<T>, head: nat, count: nat, x: T)
    requires head < |buf| && count < |buf|
    ensures View(buf[Slot(head, count, |buf|) := x], head, count + 1) == View(buf, head, count) + [x]
  {
  }

  /** Advancing the head and lowering the count drops the oldest element. */
  lemma Pop<T>(buf: seq<T>, head: nat, count: nat)
    requires head < |buf| && 0 < count <= |buf|
    ensures View(buf, head, count)[0] == buf[head]
    ensures View(buf, Slot(head, 1, |buf|), count - 1) == View(buf, head, count)[1..]
    ensures Slot(Slot(head, 1, |buf|), count - 1, |buf|) == Slot(head, count, |buf|)
  {
  }

  /** What was taken out and what is left make up the same sequence after one more element. */
  lemma MoveFirst<T>(taken: seq<T>, left: seq<T>)
    requires left != []
    ensures taken + left == (taken + [left[0]]) + left[1..]
  {
  }
}
