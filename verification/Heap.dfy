/**
 The kernel heap: a first-fit free list with splitting over a bump region.

 HeapState is the layout: which blocks there are, how large each one is and
 which of them are free, in list order. The functions on it say what kmalloc,
 kfree and krealloc do to the layout; module HeapMemory keeps it in memory
 words as the kernel does, the link of a free block lying over its magic word.
 */
module Heap {
  import opened Words

  const HEADER: nat := 16
  const MIN_SPLIT: nat := 64
  const MAGIC: uint64 := 0xDEADBEEF

  datatype HeapState = HeapState(
    start: nat, end: nat, next: nat,
    size: map<nat, nat>,  // header address of every block -> its size, header included
    free: seq<nat>,       // header addresses on the free list, head first
    inUse: int, allocCount: nat, freeCount: nat)

  // ------------------------------------------------------------- the layout

  /** Header plus payload, rounded up to 16 bytes, in 64-bit arithmetic. */
  function Total(size: uint64): uint64 {
    (size + HEADER + 15) % 0x1_0000_0000_0000_0000 / 16 * 16
  }

  /** The 64-bit computation has room for header and payload exactly if it does not wrap. */
  lemma TotalHasRoomIff(size: uint64)
    ensures Total(size) >= size + HEADER <==> size + HEADER + 15 < 0x1_0000_0000_0000_0000
    ensures Total(size) % 16 == 0
  {
  }

  /** Neither the rounded size nor the bump pointer wraps. */
  predicate NoWrap(h: HeapState, size: uint64) {
    && size + HEADER + 15 < 0x1_0000_0000_0000_0000
    && h.next + Total(size) < 0x1_0000_0000_0000_0000
  }

  function FreeBytes(free: seq<nat>, size: map<nat, nat>): nat
    requires forall a <- free :: a in size
  {
    if free == [] then 0 else size[free[0]] + FreeBytes(free[1..], size)
  }

  predicate Aligned(x: int) { x % 16 == 0 }

  lemma AlignedSum(x: int, y: int)
    requires Aligned(x) && Aligned(y)
    ensures Aligned(x + y) && Aligned(x - y)
  {
  }

  ghost predicate Distinct(s: seq<nat>) {
    forall i, j :: 0 <= i < j < |s| ==> s[i] != s[j]
  }

  /** Block a ends where the next block, or the bump region, begins. */
  ghost predicate Adjoins(h: HeapState, a: nat)
    requires a in h.size
  {
    a + h.size[a] == h.next || a + h.size[a] in h.size
  }

  ghost predicate InRegion(h: HeapState) {
    && 0 < h.start <= h.next && Aligned(h.start)
    && (h.next <= h.end || h.next == h.start)
    && (h.start == h.next || h.start in h.size)
    && forall a <- h.size :: h.start <= a && a + h.size[a] <= h.next && h.size[a] >= 2 * HEADER
  }

  ghost predicate AllAligned(h: HeapState) {
    forall a <- h.size :: Aligned(a) && Aligned(h.size[a])
  }

  ghost predicate NoGap(h: HeapState) {
    forall a {:trigger Adjoins(h, a)} :: a in h.size ==> Adjoins(h, a)
  }

  ghost predicate NoOverlap(h: HeapState) {
    forall a, b :: a in h.size && b in h.size && a < b ==> a + h.size[a] <= b
  }

  /** The blocks lie one after the other from start to next. */
  ghost predicate Tiled(h: HeapState) {
    InRegion(h) && AllAligned(h) && NoGap(h) && NoOverlap(h)
  }

  ghost predicate Wf(h: HeapState) {
    && Tiled(h)
    && (forall a <- h.free :: a in h.size)
    && Distinct(h.free)
    && h.inUse + FreeBytes(h.free, h.size) == h.next - h.start
  }

  predicate Live(h: HeapState, a: nat) {
    a in h.size && a !in h.free
  }

  function Initial(kernelEnd: nat, totalMem: nat): HeapState {
    var start := (kernelEnd + 0xFFF) / 0x1000 * 0x1000;
    HeapState(start, totalMem, start, map[], [], 0, 0, 0)
  }

  /** Position of the first block on the list that is large enough, or the list's length. */
  function FirstFit(free: seq<nat>, size: map<nat, nat>, total: nat): (k: nat)
    requires forall a <- free :: a in size
    ensures k <= |free|
    ensures forall j :: 0 <= j < k ==> size[free[j]] < total
    ensures k < |free| ==> size[free[k]] >= total
  {
    if free == [] then 0
    else if size[free[0]] >= total then 0
    else
      var k := FirstFit(free[1..], size, total);
      assert forall j :: 1 <= j <= k ==> free[j] == free[1..][j - 1];
      k + 1
  }

  function TakeFree(h: HeapState, k: nat, total: nat): HeapState
    requires k < |h.free| && h.free[k] in h.size && total <= h.size[h.free[k]]
  {
    var a := h.free[k];
    if h.size[a] >= total + MIN_SPLIT then
      h.(size := Cut(h.size, a, total),
         free := h.free[k := a + total],
         inUse := h.inUse + total, allocCount := h.allocCount + 1)
    else
      h.(free := h.free[..k] + h.free[k + 1..],
         inUse := h.inUse + h.size[a], allocCount := h.allocCount + 1)
  }

  function Bump(h: HeapState, total: nat): HeapState {
    h.(size := h.size[h.next := total], next := h.next + total,
       inUse := h.inUse + total, allocCount := h.allocCount + 1)
  }

  /** The new layout and the pointer returned, 0 for failure. */
  function Malloc(h: HeapState, size: uint64): (r: (HeapState, nat))
    requires forall a <- h.free :: a in h.size
    ensures r.1 == 0 || r.1 >= HEADER
  {
    var total := Total(size);
    if size == 0 then (h, 0) else
    var k := FirstFit(h.free, h.size, total);
    if k < |h.free| then (TakeFree(h, k, total), h.free[k] + HEADER)
    else if h.next + total > h.end then (h, 0)
    else (Bump(h, total), h.next + HEADER)
  }

  /** kfree: what is not a live block is reported and left alone. */
  function Free(h: HeapState, ptr: nat): HeapState {
    if ptr < HEADER || !Live(h, ptr - HEADER) then h else
    var a := ptr - HEADER;
    h.(free := [a] + h.free, inUse := h.inUse - h.size[a], freeCount := h.freeCount + 1)
  }

  function Realloc(h: HeapState, ptr: nat, size: uint64): (r: (HeapState, nat))
    requires forall a <- h.free :: a in h.size
  {
    if ptr == 0 then Malloc(h, size)
    else if size == 0 then (Free(h, ptr), 0)
    else if ptr < HEADER || !Live(h, ptr - HEADER) then (h, 0)
    else if size <= h.size[ptr - HEADER] - HEADER then (h, ptr)
    else
      var (g, q) := Malloc(h, size);
      if q == 0 then (g, 0) else (Free(g, ptr), q)
  }

  // ------------------------------------------------- every call keeps it Wf

  lemma {:induction false} FreeBytesSame(free: seq<nat>, size: map<nat, nat>, size': map<nat, nat>)
    requires forall a <- free :: a in size && a in size' && size'[a] == size[a]
    ensures FreeBytes(free, size') == FreeBytes(free, size)
  {
    if free != [] { FreeBytesSame(free[1..], size, size'); }
  }

  lemma {:induction false} FreeBytesSplit(s: seq<nat>, t: seq<nat>, size: map<nat, nat>)
    requires forall a <- s + t :: a in size
    ensures forall a <- s :: a in size
    ensures forall a <- t :: a in size
    ensures FreeBytes(s + t, size) == FreeBytes(s, size) + FreeBytes(t, size)
  {
    assert forall i :: 0 <= i < |s| ==> (s + t)[i] == s[i];
    assert forall i :: 0 <= i < |t| ==> (s + t)[|s| + i] == t[i];
    if s == [] {
      assert s + t == t;
    } else {
      assert (s + t)[1..] == s[1..] + t;
      FreeBytesSplit(s[1..], t, size);
    }
  }

  /** The list's bytes, with the k-th block told apart. */
  lemma FreeBytesAt(free: seq<nat>, k: nat, size: map<nat, nat>)
    requires k < |free| && forall a <- free :: a in size
    ensures forall a <- free[..k] + free[k + 1..] :: a in size
    ensures FreeBytes(free, size) == FreeBytes(free[..k] + free[k + 1..], size) + size[free[k]]
  {
    assert free == free[..k] + ([free[k]] + free[k + 1..]);
    FreeBytesSplit(free[..k], [free[k]] + free[k + 1..], size);
    FreeBytesSplit(free[..k], free[k + 1..], size);
  }

  lemma BumpTiled(h: HeapState, total: nat)
    requires Tiled(h) && h.next + total <= h.end && Aligned(total) && total >= 2 * HEADER
    ensures Tiled(Bump(h, total))
  {
    var g := Bump(h, total);
    assert InRegion(g);
    assert AllAligned(g) by { NextAligned(h); }
    assert NoGap(g) by {
      forall a | a in g.size ensures Adjoins(g, a) {
        if a in h.size { assert Adjoins(h, a); }
      }
    }
    assert NoOverlap(g);
  }

  lemma BumpWf(h: HeapState, total: nat)
    requires Wf(h) && h.next + total <= h.end && Aligned(total) && total >= 2 * HEADER
    ensures Wf(Bump(h, total))
  {
    BumpTiled(h, total);
    hide Tiled;
    FreeBytesSame(h.free, h.size, Bump(h, total).size) by {
      assert Tiled(h);
      assert h.next !in h.size by { NextIsNew(h); }
    }
  }

  lemma NextIsNew(h: HeapState)
    requires Tiled(h)
    ensures h.next !in h.size
  {
  }

  lemma NextAligned(h: HeapState)
    requires Tiled(h)
    ensures Aligned(h.next)
  {
    hide Aligned;
    if h.start < h.next { NextAlignedFrom(h, h.start); }
  }

  /** Following the blocks from a ends at next. */
  lemma {:induction false} NextAlignedFrom(h: HeapState, a: nat)
    requires Tiled(h) && a in h.size
    ensures Aligned(h.next)
    decreases h.next - a
  {
    hide Aligned;
    assert Adjoins(h, a);
    AlignedSum(a, h.size[a]);
    if a + h.size[a] != h.next { NextAlignedFrom(h, a + h.size[a]); }
  }

  lemma TakeWholeWf(h: HeapState, k: nat, total: nat)
    requires Wf(h) && k < |h.free| && total <= h.size[h.free[k]] < total + MIN_SPLIT
    ensures Wf(TakeFree(h, k, total))
  {
    FreeBytesAt(h.free, k, h.size);
    SameBlocks(h, TakeFree(h, k, total));
  }

  /** Tiling depends on the blocks only. */
  lemma SameBlocks(h: HeapState, g: HeapState)
    requires Tiled(h)
    requires g.start == h.start && g.end == h.end && g.next == h.next && g.size == h.size
    ensures Tiled(g)
  {
    forall a | a in g.size ensures Adjoins(g, a) { assert Adjoins(h, a); }
  }

  /** Cutting block a in two. */
  function Cut(size: map<nat, nat>, a: nat, total: nat): map<nat, nat>
    requires a in size && total <= size[a]
  {
    size[a := total][a + total := size[a] - total]
  }

  lemma CutIsNew(h: HeapState, a: nat, total: nat)
    requires Tiled(h) && a in h.size && 0 < total < h.size[a]
    ensures a + total !in h.size
  {
  }

  lemma CutDisjoint(h: HeapState, a: nat, total: nat, b: nat, c: nat)
    requires Tiled(h) && a in h.size && 0 < total < h.size[a]
    requires var size := Cut(h.size, a, total); b in size && c in size && b < c
    ensures b + Cut(h.size, a, total)[b] <= c
  {
    CutIsNew(h, a, total);
  }

  lemma CutAligned(h: HeapState, a: nat, total: nat)
    requires AllAligned(h) && a in h.size && total <= h.size[a] && Aligned(total)
    ensures AllAligned(h.(size := Cut(h.size, a, total)))
  {
    AlignedSum(a, total);
    AlignedSum(h.size[a], total);
    hide Aligned;
  }

  lemma CutNoGap(h: HeapState, a: nat, total: nat)
    requires NoGap(h) && a in h.size && 0 < total < h.size[a]
    ensures NoGap(h.(size := Cut(h.size, a, total)))
  {
    var g := h.(size := Cut(h.size, a, total));
    forall b | b in g.size ensures Adjoins(g, b) {
      assert Adjoins(h, if b == a + total then a else b);
    }
  }

  lemma CutTiled(h: HeapState, a: nat, total: nat)
    requires Tiled(h) && a in h.size && h.size[a] >= total + MIN_SPLIT
    requires Aligned(total) && total >= 2 * HEADER
    ensures Tiled(h.(size := Cut(h.size, a, total)))
  {
    var g := h.(size := Cut(h.size, a, total));
    CutAligned(h, a, total);
    CutNoGap(h, a, total);
    assert InRegion(g) by { hide AllAligned, NoGap, NoOverlap; }
    hide Aligned, AllAligned, NoGap, InRegion;
    assert NoOverlap(g) by {
      forall b, c | b in g.size && c in g.size && b < c ensures b + g.size[b] <= c {
        CutDisjoint(h, a, total, b, c);
      }
    }
  }

  lemma TakeSplitWf(h: HeapState, k: nat, total: nat)
    requires Wf(h) && k < |h.free| && h.size[h.free[k]] >= total + MIN_SPLIT
    requires Aligned(total) && total >= 2 * HEADER
    ensures Wf(TakeFree(h, k, total))
  {
    hide Aligned;
    var g, a := TakeFree(h, k, total), h.free[k];
    CutIsNew(h, a, total);
    CutTiled(h, a, total);
    SameBlocks(h.(size := Cut(h.size, a, total)), g);
    hide Tiled;
    var rest := h.free[..k] + h.free[k + 1..];
    assert g.free[..k] + g.free[k + 1..] == rest;
    FreeBytesAt(h.free, k, h.size);
    FreeBytesAt(g.free, k, g.size);
    assert forall b <- rest :: b != a && b in h.size;
    FreeBytesSame(rest, h.size, g.size);
  }

  lemma MallocWf(h: HeapState, size: uint64)
    requires Wf(h) && NoWrap(h, size)
    ensures Wf(Malloc(h, size).0)
    ensures h.size.Keys <= Malloc(h, size).0.size.Keys
    ensures Malloc(h, size).0.start == h.start && Malloc(h, size).0.end == h.end
  {
    var total := Total(size);
    if size != 0 {
      var k := FirstFit(h.free, h.size, total);
      if k == |h.free| {
        if h.next + total <= h.end { BumpWf(h, total); }
      } else if h.size[h.free[k]] >= total + MIN_SPLIT {
        TakeSplitWf(h, k, total);
      } else {
        TakeWholeWf(h, k, total);
      }
    }
  }

  lemma FreeWf(h: HeapState, ptr: nat)
    requires Wf(h)
    ensures Wf(Free(h, ptr)) && Free(h, ptr).size == h.size
  {
    if ptr >= HEADER && Live(h, ptr - HEADER) {
      SameBlocks(h, Free(h, ptr));
      assert ([ptr - HEADER] + h.free)[1..] == h.free;
    }
  }

  lemma ReallocWf(h: HeapState, ptr: nat, size: uint64)
    requires Wf(h) && NoWrap(h, size)
    ensures Wf(Realloc(h, ptr, size).0)
    ensures h.size.Keys <= Realloc(h, ptr, size).0.size.Keys
  {
    hide Tiled, Distinct, FreeBytes, Total, Malloc, Free;
    MallocWf(h, size);
    FreeWf(h, ptr);
    FreeWf(Malloc(h, size).0, ptr);
  }

  // ------------------------------------------------------- what a call does

  /** kmalloc fails exactly if nothing was asked for, or neither a free block nor the bump region has room. */
  lemma MallocFailsIff(h: HeapState, size: uint64)
    requires Wf(h) && NoWrap(h, size)
    ensures Malloc(h, size).1 == 0 <==>
      size == 0 || ((forall a <- h.free :: h.size[a] < Total(size)) && h.next + Total(size) > h.end)
  {
    var k := FirstFit(h.free, h.size, Total(size));
    if k < |h.free| { assert h.free[k] in h.free; }
  }

  /**
   A successful kmalloc turns one block that was not live into a live one that
   is large enough and 16-byte aligned, and leaves every live block as it was.
   */
  lemma MallocGivesFreshBlock(h: HeapState, size: uint64)
    requires Wf(h) && NoWrap(h, size) && Malloc(h, size).1 != 0
    ensures var (g, p) := Malloc(h, size); var a := p - HEADER;
      && a >= h.start && Aligned(p)
      && !Live(h, a) && Live(g, a) && g.size[a] >= size + HEADER
      && g.inUse == h.inUse + g.size[a] && g.allocCount == h.allocCount + 1
      && forall b :: Live(g, b) <==> Live(h, b) || b == a
  {
    var (g, p) := Malloc(h, size);
    var total, a := Total(size), p - HEADER;
    var k := FirstFit(h.free, h.size, total);
    TotalHasRoomIff(size);
    assert Aligned(a) by { if k == |h.free| { NextAligned(h); } }
    AlignedSum(a, HEADER);
    hide Total, Aligned;
    if k < |h.free| {
      TakenBlock(h, k, total);
    } else {
      NextIsNew(h);
    }
  }

  lemma TakenBlock(h: HeapState, k: nat, total: nat)
    requires Wf(h) && k < |h.free| && total <= h.size[h.free[k]] && 0 < total
    ensures var g, a := TakeFree(h, k, total), h.free[k];
      && !Live(h, a) && Live(g, a) && g.size[a] >= total
      && forall b :: Live(g, b) <==> Live(h, b) || b == a
  {
    var g, a := TakeFree(h, k, total), h.free[k];
    if h.size[a] >= total + MIN_SPLIT {
      CutIsNew(h, a, total);
      assert g.free[k] == a + total;
      forall b ensures b in g.free <==> (b in h.free && b != a) || b == a + total {
        if b in h.free && b != a { var i :| 0 <= i < |h.free| && h.free[i] == b; assert g.free[i] == b; }
      }
    } else {
      forall b ensures b in g.free <==> b in h.free && b != a {
        if b in h.free && b != a {
          var i :| 0 <= i < |h.free| && h.free[i] == b;
          assert g.free[if i < k then i else i - 1] == b;
        }
      }
    }
  }

  /** A second kfree of the same pointer changes nothing, whatever happened to other blocks. */
  lemma SecondFreeIsIgnored(h: HeapState, ptr: nat)
    requires Wf(h)
    ensures Free(Free(h, ptr), ptr) == Free(h, ptr)
    ensures ptr >= HEADER && Live(h, ptr - HEADER) ==>
      Free(h, ptr).inUse == h.inUse - h.size[ptr - HEADER] && !Live(Free(h, ptr), ptr - HEADER)
  {
  }

  // ------------------------------------------------------ tiling, in effect

  /** Every address below next lies in one block and in one only. */
  lemma EveryByteInOneBlock(h: HeapState, x: nat)
    requires Wf(h) && h.start <= x < h.next
    ensures exists a :: a in h.size && a <= x < a + h.size[a]
    ensures forall a, b :: a in h.size && b in h.size && a <= x < a + h.size[a] && b <= x < b + h.size[b] ==> a == b
  {
    BlockOf(h, h.start, x);
  }

  lemma {:induction false} BlockOf(h: HeapState, a: nat, x: nat)
    requires Tiled(h) && a in h.size && a <= x < h.next
    ensures exists b :: b in h.size && b <= x < b + h.size[b]
    decreases h.next - a
  {
    assert Adjoins(h, a);
    if x >= a + h.size[a] { BlockOf(h, a + h.size[a], x); }
  }

  /** Sizes of the live blocks, in address order from a. */
  ghost function LiveBytes(h: HeapState, a: nat): nat
    requires Tiled(h) && (a in h.size || a == h.next)
    decreases h.next - a
  {
    if a !in h.size then 0 else
    assert Adjoins(h, a);
    (if Live(h, a) then h.size[a] else 0) + LiveBytes(h, a + h.size[a])
  }

  ghost function From(free: seq<nat>, a: nat): set<nat> {
    set f | f in free && f >= a
  }

  ghost function SetBytes(s: set<nat>, size: map<nat, nat>): nat
    requires forall a <- s :: a in size
  {
    if s == {} then 0 else
    var a :| a in s;
    size[a] + SetBytes(s - {a}, size)
  }

  lemma {:induction false} SetBytesWithout(s: set<nat>, a: nat, size: map<nat, nat>)
    requires (forall b <- s :: b in size) && a in s
    ensures SetBytes(s, size) == size[a] + SetBytes(s - {a}, size)
  {
    var b :| b in s && SetBytes(s, size) == size[b] + SetBytes(s - {b}, size);
    if a != b {
      SetBytesWithout(s - {b}, a, size);
      SetBytesWithout(s - {a}, b, size);
      assert s - {b} - {a} == s - {a} - {b};
    }
  }

  lemma {:induction false} ListBytesAreSetBytes(free: seq<nat>, size: map<nat, nat>)
    requires Distinct(free) && forall a <- free :: a in size
    ensures FreeBytes(free, size) == SetBytes(From(free, 0), size)
  {
    var all := From(free, 0);
    if free == [] {
      assert all == {};
    } else {
      ListBytesAreSetBytes(free[1..], size);
      SetBytesWithout(all, free[0], size);
      assert all - {free[0]} == From(free[1..], 0);
    }
  }

  /** Beyond block a the free list has what it has from a on, without a. */
  lemma FromNext(h: HeapState, a: nat)
    requires Wf(h) && a in h.size
    ensures From(h.free, a + h.size[a]) == From(h.free, a) - {a}
    ensures a !in h.free ==> From(h.free, a + h.size[a]) == From(h.free, a)
  {
    assert h.size[a] > 0;
  }

  lemma LiveBytesNext(h: HeapState, a: nat)
    requires Tiled(h)
    ensures a in h.size ==> a < a + h.size[a] <= h.next && Adjoins(h, a)
    ensures a in h.size ==>
      LiveBytes(h, a) == (if a in h.free then 0 else h.size[a]) + LiveBytes(h, a + h.size[a])
    ensures LiveBytes(h, h.next) == 0
    ensures h.next !in h.size
  {
    if a in h.size { assert Adjoins(h, a); }
    NextIsNew(h);
  }

  lemma {:induction false} LiveAndFreeBytesFrom(h: HeapState, a: nat)
    requires Wf(h) && (a in h.size || a == h.next)
    ensures LiveBytes(h, a) + SetBytes(From(h.free, a), h.size) == h.next - a
    decreases h.next - a
  {
    LiveBytesNext(h, a);
    if a == h.next {
      assert From(h.free, a) == {};
    } else {
      FromNext(h, a);
      var b := a + h.size[a];
      hide Tiled, Distinct, LiveBytes;
      LiveAndFreeBytesFrom(h, b);
      if a in h.free { SetBytesWithout(From(h.free, a), a, h.size); }
    }
  }

  /** heap_allocated is the size of all live blocks; with the free list's it makes up the used region. */
  lemma AccountsBalance(h: HeapState)
    requires Wf(h)
    ensures h.start in h.size || h.start == h.next
    ensures LiveBytes(h, h.start) == h.inUse
    ensures h.inUse + FreeBytes(h.free, h.size) == h.next - h.start
  {
    LiveAndFreeBytesFrom(h, h.start);
    ListBytesAreSetBytes(h.free, h.size);
    assert From(h.free, h.start) == From(h.free, 0);
  }

  // ------------------------------------------------------------------- runs

  datatype Op = MallocOp(size: uint64) | FreeOp(ptr: nat) | ReallocOp(ptr: nat, size: uint64)

  predicate Allowed(h: HeapState, op: Op) {
    op.FreeOp? || NoWrap(h, op.size)
  }

  function Apply(h: HeapState, op: Op): HeapState
    requires forall a <- h.free :: a in h.size
  {
    match op
    case MallocOp(size) => Malloc(h, size).0
    case FreeOp(ptr) => Free(h, ptr)
    case ReallocOp(ptr, size) => Realloc(h, ptr, size).0
  }

  /** The calls ops, made in this order on h, end with g. */
  ghost predicate Run(h: HeapState, ops: seq<Op>, g: HeapState)
    requires forall a <- h.free :: a in h.size
    decreases |ops|
  {
    if ops == [] then g == h
    else
      && Allowed(h, ops[0])
      && (forall a <- Apply(h, ops[0]).free :: a in Apply(h, ops[0]).size)
      && Run(Apply(h, ops[0]), ops[1..], g)
  }

  /**
   Whatever the calls: the region stays tiled and the books balanced, and a
   block, once there, stays one, so that every pointer ever returned can be
   handed to kfree at any later time.
   */
  lemma {:induction false} RunKeepsWf(h: HeapState, ops: seq<Op>, g: HeapState)
    requires Wf(h) && Run(h, ops, g)
    ensures Wf(g) && h.size.Keys <= g.size.Keys
    decreases |ops|
  {
    if ops != [] {
      match ops[0] {
        case MallocOp(size) => MallocWf(h, size);
        case FreeOp(ptr) => FreeWf(h, ptr);
        case ReallocOp(ptr, size) => ReallocWf(h, ptr, size);
      }
      RunKeepsWf(Apply(h, ops[0]), ops[1..], g);
    }
  }

  lemma InitialWf(kernelEnd: nat, totalMem: nat)
    requires 0 < kernelEnd
    ensures Wf(Initial(kernelEnd, totalMem))
    ensures kernelEnd <= Initial(kernelEnd, totalMem).start < kernelEnd + 0x1000
  {
  }
}
