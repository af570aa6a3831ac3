/** When `sys_malloc` succeeds, and with what: exactly when a free block or the pages for one are there. */
module HeapSupply {
  import opened Outcomes
  import opened Paging
  import opened PageSupply
  import opened Heaps

  /** The smallest size class that holds the request. */
  predicate Smallest(size: nat, d: nat) {
    d < DESC_CNT && size <= BlockSize(d) && forall e: nat :: e < d ==> BlockSize(e) < size
  }

  /** The number of pages that hold the header and the request. */
  predicate PagesFor(size: nat, n: nat) { n > 0 && PAGE * (n - 1) < size + HEADER <= PAGE * n }

  /** The answer of `sys_malloc` that has to get `n` pages: a block behind the header of the first one. */
  ghost predicate FromPages(h: Heap, n: nat, r: Outcome<(Heap, nat)>)
    requires Ready(h)
  {
    && (r.Ok? <==> exists i: nat :: Supplied(h.mem, h.w, n, i))
    && (r.Null? <==> NoRun(h.mem, h.w, n))
    && (forall i: nat :: r.Ok? && Supplied(h.mem, h.w, n, i) ==> r.value.1 == Vaddr(h.w, i) + HEADER)
  }

  /** The answer that takes a block from a list: the first one, and no page is touched. */
  predicate FromList(h: Heap, d: nat, r: Outcome<(Heap, nat)>)
    requires d < |h.free| && h.free[d] != []
  {
    r.Ok? && r.value.1 == h.free[d][0] && r.value.0.mem == h.mem
  }

  lemma ClassIsSmallest(size: nat, d: nat)
    requires size <= 1024 && Smallest(size, d)
    ensures ClassOf(size) == d
  {
    ClassExists(size);
    OneSmallest(size, d, ClassOf(size));
  }

  lemma OneSmallest(size: nat, c: nat, d: nat)
    requires Smallest(size, c) && Smallest(size, d)
    ensures c == d
  {
    hide BlockSize;
  }

  lemma PageCount(size: nat, n: nat)
    requires PagesFor(size, n)
    ensures (size + HEADER + PAGE - 1) / PAGE == n
  {
  }

  lemma UniqueRun(m: Mem, w: Who, n: nat, i: nat, j: nat)
    requires w in m.spaces && |m.spaces[w].vbits| > 0 && Supplied(m, w, n, i) && Supplied(m, w, n, j)
    ensures i == j
  {
    hide FirstRunAt, SomePage, Reachable, Absent, FramesFor;
    OneFirst(m.spaces[w], n, i, j);
  }

  /** Two runs that can be mapped are the same one, so `malloc_page` names it. */
  lemma PagesAnswer(h: Heap, n: nat)
    requires Ready(h)
    ensures var r := MallocPage(h.mem, h.w, n);
      && (r.Ok? <==> exists i: nat :: Supplied(h.mem, h.w, n, i))
      && (r.Null? <==> NoRun(h.mem, h.w, n))
      && (forall i: nat :: r.Ok? && Supplied(h.mem, h.w, n, i) ==> r.value.1 == i)
  {
    hide MallocPage, Supplied, NoRun;
    MallocPageExact(h.mem, h.w, n);
    if MallocPage(h.mem, h.w, n).Ok? {
      forall i: nat | Supplied(h.mem, h.w, n, i) ensures i == MallocPage(h.mem, h.w, n).value.1 {
        UniqueRun(h.mem, h.w, n, i, MallocPage(h.mem, h.w, n).value.1);
      }
    }
  }

  /** A block on a free list belongs to a small arena, so it can be taken. */
  lemma ListAnswer(h: Heap, live: set<nat>, d: nat)
    requires HeapInv(h, live) && d < DESC_CNT && h.free[d] != []
    ensures FromList(h, d, TakeBlock(h, d))
  {
    hide MemOk, SpanInv, ArenaInv;
    assert h.free[d][0] in h.free[d];
  }

  /** So can the first block of a new arena. */
  lemma NewAnswer(h: Heap, m: Mem, i: nat, d: nat)
    requires Ready(h) && d < DESC_CNT && h.free[d] == []
    ensures var h1 := NewArena(h, m, Vaddr(h.w, i), d);
      && h1.free[d] != [] && TakeBlock(h1, d).Ok? && TakeBlock(h1, d).value.1 == Vaddr(h.w, i) + HEADER
  {
    var a := Vaddr(h.w, i);
    assert a % PAGE == 0;
    SomeBlock(d);
    BlockGeometry(a, d, 0);
    assert BlockSeq(a, d, BlocksPer(d))[0] == BlockAddr(a, d, 0) == a + HEADER;
    assert NewArena(h, m, a, d).free[d][0] == BlockAddr(a, d, 0);
  }

  lemma SomeBlock(d: nat)
    ensures BlocksPer(d) > 0
  {
  }

  /** `sys_malloc` of a size that is out of range gives NULL. A small request gets the first block of the smallest class
      that holds it; when there is none it gets the first block of a new one-page arena, exactly when the page, its
      frame and a page table it may need are to be had; a larger one gets the pages it needs, exactly when they are.
      NULL means that no run of free pages is long enough; otherwise an assertion of the page allocator fails. */
  lemma MallocExact(h: Heap, live: set<nat>, size: nat)
    requires HeapInv(h, live)
    ensures size == 0 || h.poolSize <= size ==> SysMalloc(h, size) == Null
    ensures forall d: nat :: 0 < size < h.poolSize && size <= 1024 && Smallest(size, d) ==>
      if h.free[d] != [] then FromList(h, d, SysMalloc(h, size)) else FromPages(h, 1, SysMalloc(h, size))
    ensures forall n: nat :: 1024 < size < h.poolSize && PagesFor(size, n) ==> FromPages(h, n, SysMalloc(h, size))
  {
    hide HeapInv, MallocPage, Smallest, PagesFor, Supplied, NoRun, TakeBlock, NewArena, FromList;
    ReadyOf(h, live);
    assert forall d: nat :: Smallest(size, d) ==> d < DESC_CNT by { AreClasses(size); }
    forall d: nat | d < DESC_CNT && 0 < size < h.poolSize && size <= 1024 && Smallest(size, d)
      ensures if h.free[d] != [] then FromList(h, d, SysMalloc(h, size)) else FromPages(h, 1, SysMalloc(h, size))
    {
      ClassIsSmallest(size, d);
      if h.free[d] != [] {
        ListAnswer(h, live, d);
      } else {
        PagesAnswer(h, 1);
        if MallocPage(h.mem, h.w, 1).Ok? {
          var (m, i) := MallocPage(h.mem, h.w, 1).value;
          NewAnswer(h, m, i, d);
        }
      }
    }
    forall n: nat | 1024 < size < h.poolSize && PagesFor(size, n) ensures FromPages(h, n, SysMalloc(h, size)) {
      PageCount(size, n);
      PagesAnswer(h, n);
    }
  }

  lemma AreClasses(size: nat)
    ensures forall d: nat :: Smallest(size, d) ==> d < DESC_CNT
  {
  }

  lemma ReadyOf(h: Heap, live: set<nat>)
    requires HeapInv(h, live)
    ensures Ready(h)
  {
    hide MemOk, SpanInv, ListInv, ArenaInv;
  }

  /** There is always a class, and always a number of pages. */
  lemma ClassExists(size: nat)
    ensures size <= 1024 ==> Smallest(size, ClassOf(size))
    ensures PagesFor(size, (size + HEADER + PAGE - 1) / PAGE)
  {
    if size <= 1024 { assert ClassOf(size) > 0 ==> BlockSize(ClassOf(size) - 1) < size; }
  }
}
