/**
 What the heap's calls do to the set of live blocks, to their sizes and to the
 counters, told from the outside.
 */
module HeapEffects {
  import opened Words
  import opened Heap

  predicate FreeListed(h: HeapState) {
    forall a <- h.free :: a in h.size
  }

  /** The live blocks of g are those of h with b gone, when told, and a new, when told; no other changed its size. */
  ghost predicate LiveChange(h: HeapState, g: HeapState, gone: set<nat>, made: set<nat>) {
    && (forall b :: Live(g, b) <==> (Live(h, b) && b !in gone) || b in made)
    && (forall b :: Live(h, b) && b !in gone ==> Live(g, b) && g.size[b] == h.size[b])
  }

  lemma OthersKeepSize(h: HeapState, size: uint64, b: nat)
    requires Wf(h) && NoWrap(h, size) && Live(h, b)
    ensures b in Malloc(h, size).0.size && Malloc(h, size).0.size[b] == h.size[b]
  {
    var total := Total(size);
    var k := FirstFit(h.free, h.size, total);
    if size != 0 {
      if k < |h.free| {
        var a := h.free[k];
        assert a in h.free && b != a;
        if h.size[a] >= total + MIN_SPLIT { CutIsNew(h, a, total); }
      } else {
        NextIsNew(h);
      }
    }
    hide Tiled, Distinct, FreeBytes;
  }

  /**
   A kmalloc that succeeds makes one block live that was not, with at least the
   size asked for and less than 64 bytes more than that size with its header
   rounded up.
   */
  lemma MallocEffect(h: HeapState, size: uint64)
    requires Wf(h) && NoWrap(h, size) && Malloc(h, size).1 != 0
    ensures var (g, p) := Malloc(h, size); var a := p - HEADER;
      && a in g.size && a !in g.free
      && size + HEADER <= Total(size) <= g.size[a] < Total(size) + MIN_SPLIT
      && !Live(h, a) && LiveChange(h, g, {}, {a})
      && g.inUse == h.inUse + g.size[a] && g.allocCount == h.allocCount + 1 && g.freeCount == h.freeCount
  {
    MallocGivesFreshBlock(h, size);
    TotalHasRoomIff(size);
    var (g, p) := Malloc(h, size);
    var a := p - HEADER;
    forall b | Live(h, b) ensures Live(g, b) && g.size[b] == h.size[b] { OthersKeepSize(h, size, b); }
    MallocSize(h, size);
    hide Wf, Total, Malloc;
  }

  predicate FirstLargeEnough(h: HeapState, k: int, total: nat)
    requires FreeListed(h)
  {
    0 <= k < |h.free| && h.size[h.free[k]] >= total && forall j :: 0 <= j < k ==> h.size[h.free[j]] < total
  }

  /** It is the first on the free list that is large enough, or if there is none, a new one at the end of the used region. */
  lemma MallocIsFirstFit(h: HeapState, size: uint64)
    requires Wf(h) && NoWrap(h, size) && Malloc(h, size).1 != 0
    ensures FreeListed(h)
    ensures var a := Malloc(h, size).1 - HEADER;
      if forall b <- h.free :: h.size[b] < Total(size) then a == h.next
      else exists k :: FirstLargeEnough(h, k, Total(size)) && h.free[k] == a
  {
    hide Tiled, Distinct, FreeBytes, Total;
    var k := FirstFit(h.free, h.size, Total(size));
    if k < |h.free| { assert h.free[k] in h.free && FirstLargeEnough(h, k, Total(size)); }
  }

  lemma MallocSize(h: HeapState, size: uint64)
    requires Wf(h) && NoWrap(h, size) && Malloc(h, size).1 != 0
    ensures var (g, p) := Malloc(h, size); var a := p - HEADER;
      && a in g.size && Total(size) <= g.size[a] < Total(size) + MIN_SPLIT && g.freeCount == h.freeCount
  {
    var total := Total(size);
    var k := FirstFit(h.free, h.size, total);
    if k < |h.free| && h.size[h.free[k]] >= total + MIN_SPLIT {
      assert h.free[k] in h.free;
      CutIsNew(h, h.free[k], total);
    }
    hide Tiled, Distinct, FreeBytes, Total;
  }

  /** A kmalloc that fails changes nothing. */
  lemma FailedMallocChangesNothing(h: HeapState, size: uint64)
    requires Wf(h) && Malloc(h, size).1 == 0
    ensures Malloc(h, size).0 == h
  {
  }

  /** A kfree ends the life of the block, if it has one, and changes no other; the block's bytes are no longer counted. */
  lemma FreeEffect(h: HeapState, ptr: nat)
    requires Wf(h)
    ensures
      var g := Free(h, ptr);
      if ptr >= HEADER && Live(h, ptr - HEADER) then
        && LiveChange(h, g, {(ptr - HEADER) as nat}, {}) && g.size == h.size
        && g.inUse == h.inUse - h.size[ptr - HEADER]
        && g.freeCount == h.freeCount + 1 && g.allocCount == h.allocCount
      else g == h
  {
    hide Tiled, Distinct, FreeBytes;
  }

  /** What was freed last is handed out first: the next kmalloc that fits in it returns the same pointer. */
  lemma FreedIsHandedOutAgain(h: HeapState, ptr: nat, size: uint64)
    requires Wf(h) && NoWrap(h, size) && size != 0
    requires ptr >= HEADER && Live(h, ptr - HEADER) && Total(size) <= h.size[ptr - HEADER]
    ensures FreeListed(Free(h, ptr)) && Malloc(Free(h, ptr), size).1 == ptr
  {
    hide Tiled, Distinct, FreeBytes, Total;
  }

  /**
   krealloc of a live block. Size 0 frees it. A size that fits leaves everything
   as it is and returns the pointer. Otherwise, if there is room, the new block
   takes the old one's place among the live ones, and the counter changes by
   just their two sizes; if there is none, nothing changes and null comes back.
   */
  lemma ReallocEffect(h: HeapState, ptr: nat, size: uint64)
    requires Wf(h) && NoWrap(h, size) && ptr >= HEADER && Live(h, ptr - HEADER)
    ensures
      var (g, q) := Realloc(h, ptr, size);
      var a: nat := ptr - HEADER;
      if size == 0 then q == 0 && LiveChange(h, g, {a}, {}) && g.inUse == h.inUse - h.size[a]
      else if size + HEADER <= h.size[a] then q == ptr && g == h
      else if q == 0 then g == h
      else
        var b: int := q - HEADER;
        && b >= 0 && b != a && !Live(h, b) && LiveChange(h, g, {a}, {b as nat})
        && g.size[b] >= size + HEADER && g.inUse == h.inUse + g.size[b] - h.size[a]
        && g.allocCount == h.allocCount + 1 && g.freeCount == h.freeCount + 1
    ensures size != 0 && size + HEADER > h.size[ptr - HEADER] ==>
      (Realloc(h, ptr, size).1 == 0 <==> (forall b <- h.free :: h.size[b] < Total(size)) && h.next + Total(size) > h.end)
  {
    hide Wf, Malloc, Free, Live, LiveChange;
    if size == 0 {
      FreeEffect(h, ptr);
    } else {
      LiveSize(h, ptr - HEADER);
      if size + HEADER > h.size[ptr - HEADER] {
        MallocFailsIff(h, size);
        Growth(h, ptr, size);
      }
    }
  }

  lemma LiveSize(h: HeapState, a: nat)
    requires Wf(h) && Live(h, a)
    ensures FreeListed(h) && a in h.size && h.size[a] >= HEADER
  {
  }

  lemma ChangesCompose(h: HeapState, g: HeapState, f: HeapState, a: nat, b: nat)
    requires LiveChange(h, g, {}, {b}) && LiveChange(g, f, {a}, {}) && Live(h, a) && !Live(h, b)
    ensures a != b && LiveChange(h, f, {a}, {b})
    ensures Live(g, a) && g.size[a] == h.size[a]
  {
    hide Live;
  }

  lemma Growth(h: HeapState, ptr: nat, size: uint64)
    requires Wf(h) && NoWrap(h, size) && ptr >= HEADER && Live(h, ptr - HEADER) && FreeListed(h)
    ensures
      var (g, q) := Malloc(h, size);
      var a: nat := ptr - HEADER;
      if q == 0 then g == h
      else
        var f := Free(g, ptr);
        var b: int := q - HEADER;
        && b >= 0 && b != a && !Live(h, b) && LiveChange(h, f, {a}, {b as nat}) && b in f.size
        && f.size[b] >= size + HEADER && f.inUse == h.inUse + f.size[b] - h.size[a]
        && f.allocCount == h.allocCount + 1 && f.freeCount == h.freeCount + 1
  {
    hide Wf, Malloc, Free, Total, LiveChange;
    if Malloc(h, size).1 == 0 {
      FailedMallocChangesNothing(h, size);
    } else {
      MallocEffect(h, size);
      MallocWf(h, size);
      MovedOver(h, Malloc(h, size).0, ptr - HEADER, Malloc(h, size).1 - HEADER);
    }
  }

  /** Block b made in g, block a given back then. */
  lemma MovedOver(h: HeapState, g: HeapState, a: nat, b: nat)
    requires Wf(g) && Live(h, a) && !Live(h, b) && LiveChange(h, g, {}, {b})
    ensures var f := Free(g, a + HEADER);
      && a != b && LiveChange(h, f, {a}, {b}) && b in f.size && f.size == g.size
      && f.inUse == g.inUse - h.size[a] && f.allocCount == g.allocCount && f.freeCount == g.freeCount + 1
  {
    StillLive(h, g, a, b);
    FreeEffect(g, a + HEADER);
    ChangesCompose(h, g, Free(g, a + HEADER), a, b);
    hide Wf, Free, LiveChange;
  }

  lemma StillLive(h: HeapState, g: HeapState, a: nat, b: nat)
    requires LiveChange(h, g, {}, {b}) && Live(h, a)
    ensures Live(g, a) && Live(g, b)
  {
  }

  /** krealloc of null is kmalloc; of a pointer that is not live it is refused. */
  lemma ReallocOfOther(h: HeapState, ptr: nat, size: uint64)
    requires Wf(h) && (ptr < HEADER || !Live(h, ptr - HEADER))
    ensures Realloc(h, ptr, size) == if ptr == 0 then Malloc(h, size) else (h, 0)
  {
  }
}
