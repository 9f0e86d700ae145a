/**
 The heap as the kernel stores it: 64-bit memory words. A block's first word
 holds its size, its second the magic number while it is live and the link to
 the next free block (0 at the end) while it is free.
 */
module HeapMemory {
  import opened Words
  import opened Heap

  /** The memory word at byte address a. */
  function Word(a: nat): nat { a / 8 }

  /** The address the i-th link of the list holds; link 0 is the list head. */
  function Link(free: seq<nat>, i: nat): nat {
    if i < |free| then free[i] else 0
  }

  ghost predicate HeaderOk(m: seq<uint64>, h: HeapState, a: nat)
    requires a in h.size
  {
    && Word(a) + 1 < |m|
    && m[Word(a)] == h.size[a]
    && (a !in h.free ==> m[Word(a) + 1] == MAGIC)
  }

  ghost predicate LinkOk(m: seq<uint64>, h: HeapState, i: nat)
    requires i < |h.free|
  {
    Word(h.free[i]) + 1 < |m| && m[Word(h.free[i]) + 1] == Link(h.free, i + 1)
  }

  /** The words m and the list head spell out the layout h. */
  ghost predicate Holds(m: seq<uint64>, h: HeapState, head: nat) {
    && (forall a {:trigger HeaderOk(m, h, a)} :: a in h.size ==> HeaderOk(m, h, a))
    && head == Link(h.free, 0)
    && (forall i: nat {:trigger LinkOk(m, h, i)} :: i < |h.free| ==> LinkOk(m, h, i))
  }

  /** Memory with a block's two header words written. */
  function WithHeader(m: seq<uint64>, a: nat, x: uint64, y: uint64): seq<uint64>
    requires Word(a) + 1 < |m|
  {
    m[Word(a) := x][Word(a) + 1 := y]
  }

  /** Memory with the link before position k of the list redirected; link 0 is not in memory. */
  function WithLink(m: seq<uint64>, free: seq<nat>, k: nat, x: uint64): seq<uint64>
    requires k <= |free| && (k > 0 ==> Word(free[k - 1]) + 1 < |m|)
  {
    if k == 0 then m else m[Word(free[k - 1]) + 1 := x]
  }

  /** No payload word of a live block differs. */
  ghost predicate PayloadsKept(h: HeapState, m: seq<uint64>, n: seq<uint64>) {
    && |m| == |n|
    && forall a, i :: Live(h, a) && Word(a) + 2 <= i < Word(a + h.size[a]) && i < |m| ==> n[i] == m[i]
  }

  lemma SamePayloads(h: HeapState, m: seq<uint64>)
    ensures PayloadsKept(h, m, m)
  {
  }

  lemma HeadersApart(h: HeapState, a: nat, b: nat)
    requires Tiled(h) && a in h.size && b in h.size && a < b
    ensures Word(a) + 1 < Word(a) + 2 < Word(a + h.size[a]) <= Word(b)
  {
  }

  /** Every word that a call writes is a header word of some block or of the bump region, so payloads stay. */
  lemma HeaderWriteKeepsPayloads(h: HeapState, m: seq<uint64>, a: nat, x: uint64, y: uint64)
    requires Tiled(h) && Word(a) + 1 < |m| && (a in h.size || a == h.next)
    ensures PayloadsKept(h, m, WithHeader(m, a, x, y))
  {
    forall b: nat, i | Live(h, b) && Word(b) + 2 <= i < Word(b + h.size[b]) && i < |m|
      ensures WithHeader(m, a, x, y)[i] == m[i]
    {
      if a in h.size {
        if a < b { HeadersApart(h, a, b); }
        if b < a { HeadersApart(h, b, a); }
      }
    }
  }

  lemma LinkWriteKeepsPayloads(h: HeapState, m: seq<uint64>, k: nat, x: uint64)
    requires Wf(h) && k <= |h.free| && (k > 0 ==> Word(h.free[k - 1]) + 1 < |m|)
    ensures PayloadsKept(h, m, WithLink(m, h.free, k, x))
  {
    if k > 0 {
      var a := h.free[k - 1];
      forall b: nat, i | Live(h, b) && Word(b) + 2 <= i < Word(b + h.size[b]) && i < |m|
        ensures WithLink(m, h.free, k, x)[i] == m[i]
      {
        if a < b { HeadersApart(h, a, b); }
        if b < a { HeadersApart(h, b, a); }
      }
    }
  }

  /** A header write touches no other block's header. */
  lemma HeaderWriteApart(h: HeapState, m: seq<uint64>, a: nat, x: uint64, y: uint64, b: nat)
    requires Tiled(h) && a in h.size && b in h.size && a != b
    requires Word(a) + 1 < |m| && Word(b) + 1 < |m|
    ensures WithHeader(m, a, x, y)[Word(b)] == m[Word(b)]
    ensures WithHeader(m, a, x, y)[Word(b) + 1] == m[Word(b) + 1]
  {
    if a < b { HeadersApart(h, a, b); } else { HeadersApart(h, b, a); }
  }

  lemma FreeHolds(h: HeapState, m: seq<uint64>, head: nat, ptr: nat)
    requires Wf(h) && Holds(m, h, head) && ptr >= HEADER && Live(h, ptr - HEADER)
    requires head < TWO_64 && h.size[ptr - HEADER] < TWO_64 && Word(ptr - HEADER) + 1 < |m|
    ensures var n := WithHeader(m, ptr - HEADER, h.size[ptr - HEADER], head);
      Holds(n, Free(h, ptr), ptr - HEADER) && PayloadsKept(h, m, n)
  {
    hide Tiled, Distinct, FreeBytes, Aligned;
    var a, g := ptr - HEADER, Free(h, ptr);
    var n := WithHeader(m, a, h.size[a], head);
    forall b | b in g.size ensures HeaderOk(n, g, b) {
      assert HeaderOk(m, h, b);
      if b != a { HeaderWriteApart(h, m, a, h.size[a], head, b); }
    }
    forall i: nat | i < |g.free| ensures LinkOk(n, g, i) {
      if i > 0 {
        assert LinkOk(m, h, i - 1) && HeaderOk(m, h, h.free[i - 1]);
        HeaderWriteApart(h, m, a, h.size[a], head, h.free[i - 1]);
      }
    }
    HeaderWriteKeepsPayloads(h, m, a, h.size[a], head);
  }

  lemma BumpHolds(h: HeapState, m: seq<uint64>, head: nat, total: nat)
    requires Wf(h) && Wf(Bump(h, total)) && Holds(m, h, head)
    requires total < TWO_64 && total >= 2 * HEADER && Word(h.next) + 1 < |m|
    ensures var n := WithHeader(m, h.next, total, MAGIC);
      Holds(n, Bump(h, total), head) && PayloadsKept(h, m, n)
  {
    var g, n := Bump(h, total), WithHeader(m, h.next, total, MAGIC);
    NextIsNew(h);
    forall b | b in g.size ensures HeaderOk(n, g, b) {
      if b != h.next {
        assert HeaderOk(m, h, b);
        HeaderWriteApart(g, m, h.next, total, MAGIC, b);
      }
    }
    forall i: nat | i < |g.free| ensures LinkOk(n, g, i) {
      assert LinkOk(m, h, i) && HeaderOk(m, h, h.free[i]);
      HeaderWriteApart(g, m, h.next, total, MAGIC, h.free[i]);
    }
    HeaderWriteKeepsPayloads(h, m, h.next, total, MAGIC);
  }

  /** A redirected link touches no size word and no other block's second word. */
  lemma LinkWriteApart(h: HeapState, m: seq<uint64>, k: nat, x: uint64, b: nat)
    requires Wf(h) && k <= |h.free| && b in h.size && Word(b) + 1 < |m|
    requires k > 0 ==> Word(h.free[k - 1]) + 1 < |m|
    ensures WithLink(m, h.free, k, x)[Word(b)] == m[Word(b)]
    ensures (k == 0 || b != h.free[k - 1]) ==> WithLink(m, h.free, k, x)[Word(b) + 1] == m[Word(b) + 1]
  {
    if k > 0 && b != h.free[k - 1] {
      if b < h.free[k - 1] { HeadersApart(h, b, h.free[k - 1]); } else { HeadersApart(h, h.free[k - 1], b); }
    }
  }

  /** Memory after the k-th free block was taken whole. */
  function TakenWhole(h: HeapState, m: seq<uint64>, k: nat): seq<uint64>
    requires k < |h.free| && h.free[k] in h.size && Word(h.free[k]) + 1 < |m| && h.size[h.free[k]] < TWO_64
    requires (k > 0 ==> Word(h.free[k - 1]) + 1 < |m|) && Link(h.free, k + 1) < TWO_64
  {
    WithHeader(WithLink(m, h.free, k, Link(h.free, k + 1)), h.free[k], h.size[h.free[k]], MAGIC)
  }

  lemma HeldFacts(h: HeapState, m: seq<uint64>, head: nat, i: nat)
    requires Wf(h) && Holds(m, h, head) && i < |h.free|
    ensures h.free[i] in h.size && Word(h.free[i]) + 1 < |m|
    ensures m[Word(h.free[i])] == h.size[h.free[i]] && m[Word(h.free[i]) + 1] == Link(h.free, i + 1)
    ensures h.size[h.free[i]] < TWO_64 && Link(h.free, i + 1) < TWO_64
  {
    assert HeaderOk(m, h, h.free[i]) && LinkOk(m, h, i);
  }

  lemma TakenWholeSame(h: HeapState, m: seq<uint64>, head: nat, k: nat, b: nat)
    requires Wf(h) && Holds(m, h, head) && k < |h.free| && b in h.size && b != h.free[k]
    ensures Word(h.free[k]) + 1 < |m| && (k > 0 ==> Word(h.free[k - 1]) + 1 < |m|)
    ensures h.size[h.free[k]] < TWO_64 && Link(h.free, k + 1) < TWO_64
    ensures Word(b) + 1 < |m| && TakenWhole(h, m, k)[Word(b)] == m[Word(b)]
    ensures k == 0 || b != h.free[k - 1] ==> TakenWhole(h, m, k)[Word(b) + 1] == m[Word(b) + 1]
    ensures k > 0 && b == h.free[k - 1] ==> TakenWhole(h, m, k)[Word(b) + 1] == Link(h.free, k + 1)
  {
    HeldFacts(h, m, head, k);
    if k > 0 { HeldFacts(h, m, head, k - 1); }
    assert HeaderOk(m, h, b);
    var n1 := WithLink(m, h.free, k, Link(h.free, k + 1));
    LinkWriteApart(h, m, k, Link(h.free, k + 1), b);
    HeaderWriteApart(h, n1, h.free[k], h.size[h.free[k]], MAGIC, b);
  }

  lemma TakenWholeHeader(h: HeapState, m: seq<uint64>, head: nat, k: nat, total: nat, b: nat)
    requires Wf(h) && Holds(m, h, head) && k < |h.free| && b in h.size
    requires 0 < total <= h.size[h.free[k]] < total + MIN_SPLIT
    ensures Word(h.free[k]) + 1 < |m| && (k > 0 ==> Word(h.free[k - 1]) + 1 < |m|)
    ensures h.size[h.free[k]] < TWO_64 && Link(h.free, k + 1) < TWO_64
    ensures HeaderOk(TakenWhole(h, m, k), TakeFree(h, k, total), b)
  {
    HeldFacts(h, m, head, k);
    if k > 0 { HeldFacts(h, m, head, k - 1); }
    TakenBlock(h, k, total);
    if b != h.free[k] {
      assert HeaderOk(m, h, b);
      TakenWholeSame(h, m, head, k, b);
      assert Live(TakeFree(h, k, total), b) ==> Live(h, b);
    }
  }

  lemma TakenWholeLink(h: HeapState, m: seq<uint64>, head: nat, k: nat, total: nat, i: nat)
    requires Wf(h) && Holds(m, h, head) && k < |h.free| && i < |h.free| - 1
    requires 0 < total <= h.size[h.free[k]] < total + MIN_SPLIT
    ensures Word(h.free[k]) + 1 < |m| && (k > 0 ==> Word(h.free[k - 1]) + 1 < |m|)
    ensures h.size[h.free[k]] < TWO_64 && Link(h.free, k + 1) < TWO_64
    ensures LinkOk(TakenWhole(h, m, k), TakeFree(h, k, total), i)
  {
    hide Tiled, FreeBytes, Aligned;
    var j := if i < k then i else i + 1;
    HeldFacts(h, m, head, j);
    TakenWholeSame(h, m, head, k, h.free[j]);
  }

  lemma TakeWholeHolds(h: HeapState, m: seq<uint64>, head: nat, k: nat, total: nat)
    requires Wf(h) && Holds(m, h, head) && k < |h.free|
    requires 0 < total <= h.size[h.free[k]] < total + MIN_SPLIT
    ensures Word(h.free[k]) + 1 < |m| && (k > 0 ==> Word(h.free[k - 1]) + 1 < |m|)
    ensures h.size[h.free[k]] < TWO_64 && Link(h.free, k + 1) < TWO_64
    ensures Holds(TakenWhole(h, m, k), TakeFree(h, k, total), if k == 0 then Link(h.free, 1) else head)
    ensures PayloadsKept(h, m, TakenWhole(h, m, k))
  {
    HeldFacts(h, m, head, k);
    if k > 0 { HeldFacts(h, m, head, k - 1); }
    var n, g := TakenWhole(h, m, k), TakeFree(h, k, total);
    forall b | b in g.size ensures HeaderOk(n, g, b) { TakenWholeHeader(h, m, head, k, total, b); }
    forall i: nat | i < |g.free| ensures LinkOk(n, g, i) { TakenWholeLink(h, m, head, k, total, i); }
    TakenWholeKeepsPayloads(h, m, k);
  }

  lemma TakenWholeKeepsPayloads(h: HeapState, m: seq<uint64>, k: nat)
    requires Wf(h) && k < |h.free| && Word(h.free[k]) + 1 < |m| && h.size[h.free[k]] < TWO_64
    requires (k > 0 ==> Word(h.free[k - 1]) + 1 < |m|) && Link(h.free, k + 1) < TWO_64
    ensures PayloadsKept(h, m, TakenWhole(h, m, k))
  {
    var n := WithLink(m, h.free, k, Link(h.free, k + 1));
    LinkWriteKeepsPayloads(h, m, k, Link(h.free, k + 1));
    HeaderWriteKeepsPayloads(h, n, h.free[k], h.size[h.free[k]], MAGIC);
  }

  /** Memory after the k-th free block was split and its front taken. */
  function TakenFront(h: HeapState, m: seq<uint64>, k: nat, total: nat): seq<uint64>
    requires SplitFits(h, m, k, total)
  {
    var a := h.free[k];
    var n0 := WithHeader(m, a + total, h.size[a] - total, Link(h.free, k + 1));
    WithHeader(WithLink(n0, h.free, k, a + total), a, total, MAGIC)
  }

  /** The words of a block other than the one that is split, after the split. */
  lemma TakenFrontSame(h: HeapState, m: seq<uint64>, head: nat, k: nat, total: nat, b: nat)
    requires Wf(h) && Holds(m, h, head) && k < |h.free| && b in h.size && b != h.free[k]
    requires SplitFits(h, m, k, total)
    ensures Word(b) + 1 < |m| && TakenFront(h, m, k, total)[Word(b)] == m[Word(b)]
    ensures k == 0 || b != h.free[k - 1] ==> TakenFront(h, m, k, total)[Word(b) + 1] == m[Word(b) + 1]
    ensures k > 0 && b == h.free[k - 1] ==> TakenFront(h, m, k, total)[Word(b) + 1] == h.free[k] + total
  {
    hide Tiled, Distinct, FreeBytes, Aligned;
    var a := h.free[k];
    assert HeaderOk(m, h, b);
    var n0 := WithHeader(m, a + total, h.size[a] - total, Link(h.free, k + 1));
    assert n0[Word(b)] == m[Word(b)] && n0[Word(b) + 1] == m[Word(b) + 1] by { RemainderApart(h, k, total, b); }
    var n1 := WithLink(n0, h.free, k, a + total);
    LinkWriteApart(h, n0, k, a + total, b);
    HeaderWriteApart(h, n1, a, total, MAGIC, b);
  }

  predicate SplitFits(h: HeapState, m: seq<uint64>, k: nat, total: nat) {
    && k < |h.free| && h.free[k] in h.size && Aligned(total) && 2 * HEADER <= total
    && total + MIN_SPLIT <= h.size[h.free[k]] < TWO_64
    && Word(h.free[k]) + 1 < |m| && Word(h.free[k] + total) + 1 < |m|
    && (k > 0 ==> Word(h.free[k - 1]) + 1 < |m|) && Link(h.free, k + 1) < TWO_64
    && h.free[k] + total < TWO_64
  }

  /** The remainder's header lies inside the block that is split, behind its own header. */
  lemma RemainderApart(h: HeapState, k: nat, total: nat, b: nat)
    requires Wf(h) && k < |h.free| && Aligned(total) && 2 * HEADER <= total
    requires total + MIN_SPLIT <= h.size[h.free[k]] && b in h.size
    ensures Word(b) + 1 < Word(h.free[k] + total) || Word(h.free[k] + total) + 1 < Word(b)
  {
    var a := h.free[k];
    if b < a { HeadersApart(h, b, a); }
    if a < b { HeadersApart(h, a, b); }
    assert Aligned(b) && Aligned(a);
  }

  /** The headers of the two halves, after the split. */
  lemma TakenFrontAt(h: HeapState, m: seq<uint64>, head: nat, k: nat, total: nat)
    requires Wf(h) && Holds(m, h, head) && k < |h.free|
    requires SplitFits(h, m, k, total)
    ensures var n, a := TakenFront(h, m, k, total), h.free[k];
      && n[Word(a)] == total && n[Word(a) + 1] == MAGIC
      && n[Word(a + total)] == h.size[a] - total && n[Word(a + total) + 1] == Link(h.free, k + 1)
  {
    RemainderApart(h, k, total, h.free[k]);
    if k > 0 { RemainderApart(h, k, total, h.free[k - 1]); }
  }

  lemma TakenFrontHeader(h: HeapState, m: seq<uint64>, head: nat, k: nat, total: nat, b: nat)
    requires Wf(h) && Holds(m, h, head) && SplitFits(h, m, k, total)
    requires b in TakeFree(h, k, total).size
    ensures HeaderOk(TakenFront(h, m, k, total), TakeFree(h, k, total), b)
  {
    hide Tiled, Distinct, FreeBytes, Aligned;
    TakenBlock(h, k, total);
    TakenFrontAt(h, m, head, k, total);
    var a, g := h.free[k], TakeFree(h, k, total);
    if b == a + total {
      assert g.free[k] == b;
    } else if b != a {
      assert HeaderOk(m, h, b);
      TakenFrontSame(h, m, head, k, total, b);
      assert Live(g, b) ==> Live(h, b);
    }
  }

  lemma TakenFrontLink(h: HeapState, m: seq<uint64>, head: nat, k: nat, total: nat, i: nat)
    requires Wf(h) && Holds(m, h, head) && SplitFits(h, m, k, total) && i < |h.free|
    ensures LinkOk(TakenFront(h, m, k, total), TakeFree(h, k, total), i)
  {
    hide Tiled, FreeBytes, Aligned;
    if i == k {
      TakenFrontAt(h, m, head, k, total);
    } else {
      HeldFacts(h, m, head, i);
      TakenFrontSame(h, m, head, k, total, h.free[i]);
    }
  }

  lemma TakeFrontHolds(h: HeapState, m: seq<uint64>, head: nat, k: nat, total: nat)
    requires Wf(h) && Holds(m, h, head) && SplitFits(h, m, k, total)
    ensures Holds(TakenFront(h, m, k, total), TakeFree(h, k, total), if k == 0 then h.free[k] + total else head)
  {
    var n, g := TakenFront(h, m, k, total), TakeFree(h, k, total);
    forall b | b in g.size ensures HeaderOk(n, g, b) { TakenFrontHeader(h, m, head, k, total, b); }
    forall i: nat | i < |g.free| ensures LinkOk(n, g, i) { TakenFrontLink(h, m, head, k, total, i); }
  }

  lemma RemainderWriteKeepsPayloads(h: HeapState, m: seq<uint64>, k: nat, total: nat, x: uint64, y: uint64)
    requires Wf(h) && SplitFits(h, m, k, total)
    ensures PayloadsKept(h, m, WithHeader(m, h.free[k] + total, x, y))
  {
    var a := h.free[k];
    forall b: nat, i | Live(h, b) && Word(b) + 2 <= i < Word(b + h.size[b]) && i < |m|
      ensures WithHeader(m, a + total, x, y)[i] == m[i]
    {
      if a < b { HeadersApart(h, a, b); }
      if b < a { HeadersApart(h, b, a); }
    }
  }

  lemma TakeFrontKeepsPayloads(h: HeapState, m: seq<uint64>, k: nat, total: nat)
    requires Wf(h) && SplitFits(h, m, k, total)
    ensures PayloadsKept(h, m, TakenFront(h, m, k, total))
  {
    hide Tiled, Distinct, FreeBytes, Aligned, WithHeader, WithLink;
    var a := h.free[k];
    var n0 := WithHeader(m, a + total, h.size[a] - total, Link(h.free, k + 1));
    RemainderWriteKeepsPayloads(h, m, k, total, h.size[a] - total, Link(h.free, k + 1));
    LinkWriteKeepsPayloads(h, n0, k, a + total);
    HeaderWriteKeepsPayloads(h, WithLink(n0, h.free, k, a + total), a, total, MAGIC);
  }

  // ------------------------------------------------------------ the kernel heap

  lemma FirstFitIs(free: seq<nat>, size: map<nat, nat>, total: nat, k: nat)
    requires (forall a <- free :: a in size) && k <= |free|
    requires forall j :: 0 <= j < k ==> size[free[j]] < total
    requires k < |free| ==> size[free[k]] >= total
    ensures FirstFit(free, size, total) == k
  {
  }

  /** A link is 0 at the end of the list and nowhere else. */
  lemma LinkEndsList(h: HeapState, k: nat)
    requires Wf(h)
    ensures Link(h.free, k) == 0 <==> k >= |h.free|
  {
    if k < |h.free| { assert h.free[k] in h.size; }
  }

  /** The memory a split needs is there. */
  lemma SplitFitsHere(h: HeapState, m: seq<uint64>, head: nat, k: nat, total: nat)
    requires Wf(h) && Holds(m, h, head) && k < |h.free| && h.end <= 8 * |m|
    requires Aligned(total) && 2 * HEADER <= total && total + MIN_SPLIT <= h.size[h.free[k]]
    requires h.next < TWO_64
    ensures SplitFits(h, m, k, total)
  {
    HeldFacts(h, m, head, k);
    if k > 0 { HeldFacts(h, m, head, k - 1); }
  }

  class Allocator {
    const mem: array<uint64>  // RAM, as 64-bit words
    var start: nat
    var end: nat
    var next: nat
    var inUse: int
    var allocCount: nat
    var freeCount: nat
    var freeList: nat
    ghost var size: map<nat, nat>
    ghost var free: seq<nat>

    ghost function Abs(): HeapState
      reads this
    {
      HeapState(start, end, next, size, free, inUse, allocCount, freeCount)
    }

    ghost predicate Valid()
      reads this, mem
    {
      && Wf(Abs())
      && Holds(mem[..], Abs(), freeList)
      && end <= 8 * mem.Length
      && next < TWO_64
    }

    constructor (ram: array<uint64>, kernelEnd: nat)
      requires 0 < kernelEnd <= TWO_64 - 0x1000
      ensures Valid() && mem == ram
      ensures Abs() == Initial(kernelEnd, 8 * ram.Length)
    {
      mem := ram;
      var from := (kernelEnd + 0xFFF) / 0x1000 * 0x1000;
      start, end, next := from, 8 * ram.Length, from;
      inUse, allocCount, freeCount, freeList := 0, 0, 0, 0;
      size, free := map[], [];
      new;
      InitialWf(kernelEnd, 8 * ram.Length);
    }

    method KMalloc(n: uint64) returns (ptr: nat)
      requires Valid() && NoWrap(Abs(), n)
      modifies this, mem
      ensures Valid()
      ensures (Abs(), ptr) == Malloc(old(Abs()), n)
      ensures PayloadsKept(old(Abs()), old(mem[..]), mem[..])
    {
      if n == 0 { return 0; }
      var total := Total(n);
      TotalHasRoomIff(n);
      var prev, cur;
      ghost var k;
      prev, cur, k := FindFit(total);
      if cur != 0 {
        ptr := TakeBlock(prev, cur, total, k);
        return;
      }
      if next + total > end { return 0; }
      ptr := BumpBlock(total);
    }

    /** The first free block that is large enough, 0 if there is none, and the block before it. */
    method FindFit(total: nat) returns (prev: nat, cur: nat, ghost k: nat)
      requires Valid()
      ensures k == FirstFit(free, size, total)
      ensures cur == Link(free, k) && (cur != 0 <==> k < |free|)
      ensures prev == if k == 0 then 0 else free[k - 1]
    {
      hide Tiled, Distinct, FreeBytes, HeaderOk, LinkOk;
      prev, cur, k := 0, freeList, 0;
      while cur != 0
        invariant k <= |free| && cur == Link(free, k) && prev == (if k == 0 then 0 else free[k - 1])
        invariant forall j :: 0 <= j < k ==> size[free[j]] < total
        decreases |free| - k
      {
        HeldFacts(Abs(), mem[..], freeList, k);
        if mem[Word(cur)] >= total { break; }
        prev := cur;
        cur := mem[Word(cur) + 1];
        k := k + 1;
      }
      LinkEndsList(Abs(), k);
      FirstFitIs(free, size, total, k);
    }

    /** Writes both header words of the block at a. */
    method WriteHeader(a: nat, x: uint64, y: uint64)
      requires Word(a) + 1 < mem.Length
      modifies mem
      ensures mem[..] == WithHeader(old(mem[..]), a, x, y)
    {
      mem[Word(a)] := x;
      mem[Word(a) + 1] := y;
    }

    /** *prev = x, where prev points at the list head or at a block's link. */
    method Redirect(prev: nat, x: uint64, ghost list: seq<nat>, ghost k: nat)
      requires k <= |list| && prev == (if k == 0 then 0 else list[k - 1]) && (prev == 0 <==> k == 0)
      requires prev != 0 ==> Word(prev) + 1 < mem.Length
      modifies this`freeList, mem
      ensures mem[..] == WithLink(old(mem[..]), list, k, x)
      ensures freeList == if k == 0 then x else old(freeList)
    {
      if prev == 0 { freeList := x; } else { mem[Word(prev) + 1] := x; }
    }

    method BumpBlock(total: nat) returns (ptr: nat)
      requires Valid() && next + total <= end && next + total < TWO_64
      requires Aligned(total) && total >= 2 * HEADER
      modifies this, mem
      ensures Valid()
      ensures (Abs(), ptr) == (Bump(old(Abs()), total), old(next) + HEADER)
      ensures PayloadsKept(old(Abs()), old(mem[..]), mem[..])
    {
      ghost var h := Abs();
      hide Wf, Holds, PayloadsKept;
      BumpWf(h, total);
      BumpHolds(h, mem[..], freeList, total);
      WriteHeader(next, total, MAGIC);
      ptr := next + HEADER;
      size := size[next := total];
      next := next + total;
      inUse := inUse + total;
      allocCount := allocCount + 1;
    }

    /** The block cur was found; prev is the block whose link leads to it, 0 for the list head. */
    method TakeBlock(prev: nat, cur: nat, total: nat, ghost k: nat) returns (ptr: nat)
      requires Valid() && k < |free| && cur == free[k] && prev == (if k == 0 then 0 else free[k - 1])
      requires total <= size[cur] && Aligned(total) && total >= 2 * HEADER
      modifies this, mem
      ensures Valid()
      ensures (Abs(), ptr) == (TakeFree(old(Abs()), k, total), cur + HEADER)
      ensures PayloadsKept(old(Abs()), old(mem[..]), mem[..])
    {
      HeldFacts(Abs(), mem[..], freeList, k);
      if mem[Word(cur)] >= total + MIN_SPLIT {
        TakeFront(prev, cur, total, k);
      } else {
        TakeWhole(prev, cur, total, k);
      }
      ptr := cur + HEADER;
    }

    /** The list position of a block found by FindFit, for the writes that follow. */
    lemma Found(prev: nat, cur: nat, k: nat)
      requires Valid() && k < |free| && cur == free[k] && prev == (if k == 0 then 0 else free[k - 1])
      ensures Word(cur) + 1 < mem.Length && mem[Word(cur)] == size[cur] && mem[Word(cur) + 1] == Link(free, k + 1)
      ensures prev == 0 <==> k == 0
      ensures prev != 0 ==> Word(prev) + 1 < mem.Length
    {
      HeldFacts(Abs(), mem[..], freeList, k);
      if k > 0 { HeldFacts(Abs(), mem[..], freeList, k - 1); }
    }

    method TakeWhole(prev: nat, cur: nat, ghost total: nat, ghost k: nat)
      requires Valid() && k < |free| && cur == free[k] && prev == (if k == 0 then 0 else free[k - 1])
      requires 0 < total <= size[cur] < total + MIN_SPLIT
      modifies this, mem
      ensures Valid()
      ensures Abs() == TakeFree(old(Abs()), k, total)
      ensures PayloadsKept(old(Abs()), old(mem[..]), mem[..])
    {
      hide Wf, Holds, PayloadsKept, WithHeader, WithLink;
      ghost var h, m := Abs(), mem[..];
      Found(prev, cur, k);
      HeldFacts(h, m, freeList, k);
      TakeWholeWf(h, k, total);
      TakeWholeHolds(h, m, freeList, k, total);
      var s, link := mem[Word(cur)], mem[Word(cur) + 1];
      Redirect(prev, link, free, k);
      WriteHeader(cur, s, MAGIC);
      assert mem[..] == TakenWhole(h, m, k);
      inUse := inUse + s;
      allocCount := allocCount + 1;
      free := free[..k] + free[k + 1..];
    }

    /** The writes of a split, in the kernel's order: remainder, link before it, front. */
    method WriteSplit(prev: nat, cur: nat, total: nat, ghost k: nat)
      requires Valid() && k < |free| && cur == free[k] && prev == (if k == 0 then 0 else free[k - 1])
      requires SplitFits(Abs(), mem[..], k, total)
      modifies this`freeList, mem
      ensures mem[..] == TakenFront(Abs(), old(mem[..]), k, total)
      ensures freeList == if k == 0 then cur + total else old(freeList)
    {
      hide Wf, Holds, WithHeader, WithLink, Aligned;
      Found(prev, cur, k);
      WriteHeader(cur + total, mem[Word(cur)] - total, mem[Word(cur) + 1]);
      Redirect(prev, cur + total, free, k);
      WriteHeader(cur, total, MAGIC);
    }

    method TakeFront(prev: nat, cur: nat, total: nat, ghost k: nat)
      requires Valid() && k < |free| && cur == free[k] && prev == (if k == 0 then 0 else free[k - 1])
      requires total + MIN_SPLIT <= size[cur] && Aligned(total) && total >= 2 * HEADER
      modifies this, mem
      ensures Valid()
      ensures Abs() == TakeFree(old(Abs()), k, total)
      ensures PayloadsKept(old(Abs()), old(mem[..]), mem[..])
    {
      hide Wf, Holds, PayloadsKept, SplitFits, TakenFront, Aligned, Word;
      ghost var h, m := Abs(), mem[..];
      SplitFitsHere(h, m, freeList, k, total);
      TakeSplitWf(h, k, total);
      TakeFrontHolds(h, m, freeList, k, total);
      TakeFrontKeepsPayloads(h, m, k, total);
      WriteSplit(prev, cur, total, k);
      inUse := inUse + total;
      allocCount := allocCount + 1;
      size := Cut(size, cur, total);
      free := free[k := cur + total];
    }

    /**
     kfree on null, on a live block or on one that was freed before. The word
     that holds the magic number of a live block holds a 16-byte aligned
     address or 0 once the block is free, so a second kfree is always noticed.
     */
    method KFree(ptr: nat)
      requires Valid() && (ptr == 0 || (ptr >= HEADER && ptr - HEADER in size))
      modifies this, mem
      ensures Valid()
      ensures Abs() == Free(old(Abs()), ptr)
      ensures PayloadsKept(old(Abs()), old(mem[..]), mem[..])
      ensures ptr == 0 || ptr - HEADER in old(free) ==> mem[..] == old(mem[..]) && Abs() == old(Abs())
    {
      if ptr == 0 { return; }
      hide Tiled, Distinct, FreeBytes, Holds, PayloadsKept;
      var a := ptr - HEADER;
      ghost var h, m := Abs(), mem[..];
      MagicTellsLive(h, m, freeList, a);
      if mem[Word(a) + 1] != MAGIC {
        SamePayloads(h, m);
        return;
      }
      FreeWf(h, ptr);
      FreeHolds(h, m, freeList, ptr);
      mem[Word(a) + 1] := 0;
      var s := mem[Word(a)];
      inUse := inUse - s;
      freeCount := freeCount + 1;
      WriteHeader(a, s, freeList);
      assert mem[..] == WithHeader(m, a, s, freeList);
      freeList := a;
      free := [a] + free;
    }

    /** Copies n words between two stretches of memory that do not overlap. */
    method CopyWords(from: nat, to: nat, n: nat)
      requires from + n <= mem.Length && to + n <= mem.Length && (from + n <= to || to + n <= from)
      modifies mem
      ensures mem[..] == WithCopy(old(mem[..]), from, to, n)
    {
      var i := 0;
      ghost var m := mem[..];
      CopyNothing(m, from, to);
      hide WithCopy;
      while i < n
        invariant i <= n
        invariant mem[..] == WithCopy(m, from, to, i)
      {
        CopyStep(m, from, to, i, n);
        mem[to + i] := mem[from + i];
        i := i + 1;
      }
    }

    /** The moving part of krealloc: new block, copy, old block freed. */
    method Grow(ptr: nat, n: uint64) returns (q: nat)
      requires Valid() && ptr >= HEADER && Live(Abs(), ptr - HEADER)
      requires NoWrap(Abs(), n) && n > size[ptr - HEADER] - HEADER && n > 0
      modifies this, mem
      ensures Valid()
      ensures (Abs(), q) == Realloc(old(Abs()), ptr, n)
      ensures PayloadsKept(old(Abs()), old(mem[..]), mem[..])
      ensures q != ptr
      ensures q != 0 ==> PayloadMoved(old(Abs()), ptr - HEADER, q - HEADER, old(mem[..]), mem[..])
    {
      hide Tiled, Distinct, FreeBytes, Holds, PayloadsKept, PayloadMoved, WithCopy, Malloc, NoWrap;
      var a := ptr - HEADER;
      var oldUsable := UsableSize(ptr);
      ghost var h, m0 := Abs(), mem[..];
      q := KMalloc(n);
      if q == 0 { return; }
      ghost var g, m1 := Abs(), mem[..];
      GrowFacts(h, n, a, g, q, mem.Length);
      CopyWords(Word(a) + 2, Word(q - HEADER) + 2, oldUsable / 8);
      ghost var m2 := mem[..];
      CopyHolds(g, m1, freeList, a, q - HEADER, oldUsable / 8);
      KFree(ptr);
      GrowKeepsPayloads(h, g, a, q - HEADER, oldUsable / 8, m0, m1, m2, mem[..]);
      GrowMovesPayload(h, g, a, q - HEADER, oldUsable / 8, m0, m1, m2, mem[..]);
    }

    method UsableSize(ptr: nat) returns (n: nat)
      requires Valid() && ptr >= HEADER && ptr - HEADER in size
      ensures n == size[ptr - HEADER] - HEADER
    {
      MagicTellsLive(Abs(), mem[..], freeList, ptr - HEADER);
      n := mem[Word(ptr - HEADER)] - HEADER;
    }

    /**
     krealloc: a block that is large enough stays; otherwise the payload moves
     to a new block. Failure and every other block's payload change nothing.
     */
    method KRealloc(ptr: nat, n: uint64) returns (q: nat)
      requires Valid() && (ptr == 0 || (ptr >= HEADER && ptr - HEADER in size))
      requires NoWrap(Abs(), n)
      modifies this, mem
      ensures Valid()
      ensures (Abs(), q) == Realloc(old(Abs()), ptr, n)
      ensures PayloadsKept(old(Abs()), old(mem[..]), mem[..])
      ensures ptr != 0 && q != 0 && q != ptr ==>
        PayloadMoved(old(Abs()), ptr - HEADER, q - HEADER, old(mem[..]), mem[..])
    {
      if ptr == 0 {
        q := KMalloc(n);
        return;
      }
      if n == 0 {
        KFree(ptr);
        return 0;
      }
      var a := ptr - HEADER;
      MagicTellsLive(Abs(), mem[..], freeList, a);
      if mem[Word(a) + 1] != MAGIC { return 0; }
      var oldUsable := mem[Word(a)] - HEADER;
      if n <= oldUsable { return ptr; }
      q := Grow(ptr, n);
    }
  }

  /** The word behind the size is the magic number exactly in live blocks. */
  lemma MagicTellsLive(h: HeapState, m: seq<uint64>, head: nat, a: nat)
    requires Wf(h) && Holds(m, h, head) && a in h.size && h.next < TWO_64
    ensures Word(a) + 1 < |m| && m[Word(a)] == h.size[a] && h.size[a] >= 2 * HEADER
    ensures m[Word(a) + 1] == MAGIC <==> Live(h, a)
    ensures head < TWO_64
  {
    assert HeaderOk(m, h, a);
    if h.free != [] { assert HeaderOk(m, h, h.free[0]); }
    if a in h.free {
      var i :| 0 <= i < |h.free| && h.free[i] == a;
      assert LinkOk(m, h, i);
      if i + 1 < |h.free| { assert Aligned(h.free[i + 1]); }
    }
  }

  /** The first words of block a's payload. */
  function PayloadWords(m: seq<uint64>, a: nat, words: nat): seq<uint64>
    requires Word(a) + 2 + words <= |m|
  {
    m[Word(a) + 2..Word(a) + 2 + words]
  }

  /** All of block a's old payload stands at the start of block b's new one. */
  ghost predicate PayloadMoved(h: HeapState, a: nat, b: nat, m: seq<uint64>, n: seq<uint64>)
  {
    a in h.size && h.size[a] >= HEADER &&
    var words := (h.size[a] - HEADER) / 8;
    && Word(a) + 2 + words <= |m| && Word(b) + 2 + words <= |n|
    && PayloadWords(n, b, words) == PayloadWords(m, a, words)
  }

  lemma LiveSizeKept(h: HeapState, n: uint64, a: nat)
    requires Wf(h) && NoWrap(h, n) && Live(h, a)
    ensures a in Malloc(h, n).0.size && Malloc(h, n).0.size[a] == h.size[a]
  {
    var k := FirstFit(h.free, h.size, Total(n));
    NextIsNew(h);
    if k < |h.free| && h.size[h.free[k]] >= Total(n) + MIN_SPLIT && n > 0 {
      TotalHasRoomIff(n);
      CutIsNew(h, h.free[k], Total(n));
    }
  }

  /** What krealloc may rely on between its kmalloc and its copy. */
  lemma GrowFacts(h: HeapState, n: uint64, a: nat, g: HeapState, q: nat, words: nat)
    requires Wf(h) && NoWrap(h, n) && Live(h, a) && n > h.size[a] - HEADER
    requires (g, q) == Malloc(h, n) && q != 0 && h.end <= 8 * words
    ensures Moving(h, g, a, q - HEADER, words)
  {
    hide Tiled, Distinct, FreeBytes, Malloc, NoWrap;
    NewBlock(h, n, g, q);
    LiveSizesKept(h, n, g, q);
    PayloadInMemory(g, a, words);
    PayloadInMemory(g, q - HEADER, words);
    PayloadsApart(g, a, q - HEADER);
    BigEnough(g, a);
  }

  lemma NewBlock(h: HeapState, n: uint64, g: HeapState, q: nat)
    requires Wf(h) && NoWrap(h, n) && (g, q) == Malloc(h, n) && q != 0
    ensures Wf(g) && g.end == h.end && Live(g, q - HEADER) && !Live(h, q - HEADER)
    ensures g.size[q - HEADER] >= n + HEADER
  {
    hide Tiled, Distinct, FreeBytes, Total, Aligned, Malloc, NoWrap;
    MallocWf(h, n);
    MallocGivesFreshBlock(h, n);
  }

  lemma LiveSizesKept(h: HeapState, n: uint64, g: HeapState, q: nat)
    requires Wf(h) && NoWrap(h, n) && (g, q) == Malloc(h, n) && q != 0
    ensures forall c :: Live(h, c) ==> Live(g, c) && g.size[c] == h.size[c]
  {
    MallocGivesFreshBlock(h, n);
    hide Tiled, Distinct, FreeBytes, Malloc;
    forall c | Live(h, c) ensures c in g.size && g.size[c] == h.size[c] {
      LiveSizeKept(h, n, c);
    }
  }

  lemma BigEnough(h: HeapState, a: nat)
    requires Tiled(h) && a in h.size
    ensures h.size[a] >= 2 * HEADER
  {
  }

  /** Block b is new in g and has room for all of the live block a of h. */
  ghost predicate Moving(h: HeapState, g: HeapState, a: nat, b: nat, words: nat) {
    && Wf(g) && Live(h, a) && Live(g, a) && Live(g, b) && a != b && !Live(h, b)
    && 2 * HEADER <= h.size[a] == g.size[a] <= g.size[b]
    && (forall c :: Live(h, c) ==> Live(g, c) && g.size[c] == h.size[c])
    && Word(a) + g.size[a] / 8 <= words && Word(b) + g.size[b] / 8 <= words
    && (Word(a) + g.size[a] / 8 <= Word(b) || Word(b) + g.size[b] / 8 <= Word(a))
  }

  /** Memory with n words copied. */
  function WithCopy(m: seq<uint64>, from: nat, to: nat, n: nat): seq<uint64>
    requires from + n <= |m| && to + n <= |m|
  {
    m[..to] + m[from..from + n] + m[to + n..]
  }

  lemma CopyNothing(m: seq<uint64>, from: nat, to: nat)
    requires from <= |m| && to <= |m|
    ensures WithCopy(m, from, to, 0) == m
  {
  }

  lemma CopyStep(m: seq<uint64>, from: nat, to: nat, i: nat, n: nat)
    requires from + n <= |m| && to + n <= |m| && (from + n <= to || to + n <= from) && i < n
    ensures var c := WithCopy(m, from, to, i);
      |c| == |m| && c[from + i] == m[from + i] && c[to + i := m[from + i]] == WithCopy(m, from, to, i + 1)
  {
  }

  lemma CopyHolds(g: HeapState, m: seq<uint64>, head: nat, a: nat, b: nat, n: nat)
    requires Wf(g) && Holds(m, g, head) && b in g.size && 8 * n + HEADER <= g.size[b]
    requires Word(a) + 2 + n <= |m| && Word(b) + 2 + n <= |m|
    ensures Holds(WithCopy(m, Word(a) + 2, Word(b) + 2, n), g, head)
  {
    PayloadWritesHold(g, m, head, b, WithCopy(m, Word(a) + 2, Word(b) + 2, n));
  }

  /** Payload words of a live block, before and after. */
  lemma KeptWords(h: HeapState, a: nat, n: nat, m: seq<uint64>, m': seq<uint64>)
    requires Tiled(h) && Live(h, a) && PayloadsKept(h, m, m') && 8 * n + HEADER <= h.size[a]
    requires Word(a) + 2 + n <= |m|
    ensures PayloadWords(m', a, n) == PayloadWords(m, a, n)
  {
    assert Word(a) + 2 + n <= Word(a + h.size[a]);
    forall i | Word(a) + 2 <= i < Word(a) + 2 + n ensures m'[i] == m[i] {
    }
  }

  /** A payload word of block c is none of block b's. */
  lemma OtherPayload(g: HeapState, b: nat, n: nat, c: nat, i: nat)
    requires Wf(g) && b in g.size && c in g.size && b != c && 8 * n + HEADER <= g.size[b]
    requires Word(c) + 2 <= i < Word(c + g.size[c])
    ensures i < Word(b) + 2 || Word(b) + 2 + n <= i
  {
    PayloadsApart(g, b, c);
  }

  lemma GrowKeepsPayloads(h: HeapState, g: HeapState, a: nat, b: nat, n: nat,
                          m0: seq<uint64>, m1: seq<uint64>, m2: seq<uint64>, m3: seq<uint64>)
    requires Wf(h) && Moving(h, g, a, b, |m1|) && n == (h.size[a] - HEADER) / 8
    requires PayloadsKept(h, m0, m1) && PayloadsKept(g, m2, m3)
    requires m2 == WithCopy(m1, Word(a) + 2, Word(b) + 2, n)
    ensures PayloadsKept(h, m0, m3)
  {
    hide Tiled, Distinct, FreeBytes;
    forall c: nat, i | Live(h, c) && Word(c) + 2 <= i < Word(c + h.size[c]) && i < |m0|
      ensures m3[i] == m0[i]
    {
      OtherPayload(g, b, n, c, i);
      assert m2[i] == m1[i];
    }
  }

  lemma GrowMovesPayload(h: HeapState, g: HeapState, a: nat, b: nat, n: nat,
                         m0: seq<uint64>, m1: seq<uint64>, m2: seq<uint64>, m3: seq<uint64>)
    requires Wf(h) && Moving(h, g, a, b, |m1|) && n == (h.size[a] - HEADER) / 8
    requires PayloadsKept(h, m0, m1) && PayloadsKept(g, m2, m3)
    requires m2 == WithCopy(m1, Word(a) + 2, Word(b) + 2, n)
    ensures PayloadMoved(h, a, b, m0, m3)
  {
    KeptWords(h, a, n, m0, m1);
    KeptWords(g, b, n, m2, m3);
    assert PayloadWords(m2, b, n) == PayloadWords(m1, a, n);
  }

  /** Memories that differ inside block a's payload only. */
  ghost predicate OnlyPayloadOf(h: HeapState, a: nat, m: seq<uint64>, n: seq<uint64>)
    requires a in h.size
  {
    && |m| == |n|
    && forall i :: 0 <= i < |m| && !(Word(a) + 2 <= i < Word(a + h.size[a])) ==> n[i] == m[i]
  }

  /** Whatever its owner writes into a payload, the layout stays readable. */
  lemma PayloadWritesHold(h: HeapState, m: seq<uint64>, head: nat, a: nat, n: seq<uint64>)
    requires Wf(h) && Holds(m, h, head) && a in h.size && OnlyPayloadOf(h, a, m, n)
    ensures Holds(n, h, head)
  {
    forall b | b in h.size ensures HeaderOk(n, h, b) {
      assert HeaderOk(m, h, b);
      if a < b { HeadersApart(h, a, b); }
      if b < a { HeadersApart(h, b, a); }
    }
    forall i: nat | i < |h.free| ensures LinkOk(n, h, i) {
      var b := h.free[i];
      assert LinkOk(m, h, i);
      if a < b { HeadersApart(h, a, b); }
      if b < a { HeadersApart(h, b, a); }
    }
  }

  lemma WordSum(a: nat, s: nat)
    requires Aligned(a) && Aligned(s)
    ensures Word(a + s) == Word(a) + s / 8
  {
  }

  lemma PayloadInMemory(h: HeapState, a: nat, words: nat)
    requires Wf(h) && a in h.size && h.end <= 8 * words
    ensures Word(a) + h.size[a] / 8 <= words
  {
    WordSum(a, h.size[a]);
  }

  lemma PayloadsApart(h: HeapState, a: nat, b: nat)
    requires Wf(h) && a in h.size && b in h.size && a != b
    ensures Word(a + h.size[a]) == Word(a) + h.size[a] / 8 && Word(b + h.size[b]) == Word(b) + h.size[b] / 8
    ensures Word(a + h.size[a]) <= Word(b) || Word(b + h.size[b]) <= Word(a)
  {
    WordSum(a, h.size[a]);
    WordSum(b, h.size[b]);
    hide Aligned;
  }
}
