/** memory.c, the page allocator as code: the routines that change bitmaps and page tables one bit and one
    page at a time, proved to do what the functions of `Paging` say. */
module PageAllocation {
  import opened Bitmaps
  import opened Outcomes
  import opened Paging

  lemma MapNothing(m: Mem, w: Who, i: nat)
    requires w in m.spaces
    ensures MapRun(m, w, i, 0) == Ok(m)
  {}

  lemma UnmapNothing(m: Mem, w: Who, i: nat, userFrames: bool)
    requires w in m.spaces
    ensures UnmapRun(m, w, i, 0, userFrames) == Ok(m)
  {}

  function PoolBits(m: Mem, kernelPool: bool): seq<bool> { if kernelPool then m.kBits else m.uBits }

  /** `f` was free, and exactly it has become taken. */
  ghost predicate OneMoreTaken(m: Mem, r: Mem, f: nat) {
    !Taken(m, f) && forall g :: Taken(r, g) <==> Taken(m, g) || g == f
  }

  ghost predicate OneLessTaken(m: Mem, r: Mem, f: nat) {
    forall g :: Taken(r, g) <==> Taken(m, g) && g != f
  }

  /** The page tables of `b` are those of `a` with page `i` of `w` mapped to `f`; page tables are only added. */
  predicate OnePageMore(a: map<Who, Space>, b: map<Who, Space>, w: Who, i: nat, f: nat) {
    && w in a && w in b && b == a[w := b[w]] && b[w].vbits == a[w].vbits && b[w].ptes == a[w].ptes[i := f]
    && forall d :: d in a[w].tables ==> d in b[w].tables && b[w].tables[d] == a[w].tables[d]
  }

  /** No run of `n` clear bits inside the bitmap starts below `i`. */
  predicate NoRunBelow(bits: seq<bool>, n: nat, i: nat) {
    forall s: nat :: s < i ==> !(s + n < |bits| && ClearRun(bits, s, n))
  }

  lemma FullPool(bits: seq<bool>)
    ensures FirstRun(bits, 0, |bits|, 1) == -1 <==> AllSet(bits, |bits|)
  {
    var j := FirstRun(bits, 0, |bits|, 1);
    forall k: nat | k < |bits| && !bits[k] ensures ClearRun(bits, k, 1) {}
    assert j != -1 ==> ClearRun(bits, j, 1) && !bits[j];
  }

  class PageAllocator {
    const kStart: nat
    const uStart: nat
    var kBits: seq<bool>
    var uBits: seq<bool>
    var spaces: map<Who, Space>

    function View(): Mem
      reads this
    {
      Mem(kStart, uStart, kBits, uBits, spaces)
    }

    constructor (allMem: nat)
      ensures View() == MemPoolInit(allMem)
    {
      var m := MemPoolInit(allMem);
      kStart, uStart, kBits, uBits, spaces := m.kStart, m.uStart, m.kBits, m.uBits, m.spaces;
    }

    /** `bitmap_set` in a loop, as `vaddr_get` and `vaddr_remove` do it. */
    method SetVbits(w: Who, i: nat, n: nat, v: bool)
      requires w in spaces && i + n <= |spaces[w].vbits|
      modifies this`spaces
      ensures View() == MarkRun(old(View()), w, i, n, v)
    {
      ghost var bits := spaces[w].vbits;
      ghost var before := View();
      var cnt := 0;
      assert Mark(bits, i, 0, v) == bits;
      while cnt < n
        invariant 0 <= cnt <= n && w in spaces
        invariant spaces == before.spaces[w := before.spaces[w].(vbits := Mark(bits, i, cnt, v))]
      {
        assert spaces[w].vbits[i + cnt := v] == Mark(bits, i, cnt + 1, v);
        spaces := spaces[w := spaces[w].(vbits := spaces[w].vbits[i + cnt := v])];
        cnt := cnt + 1;
      }
    }

    /** `palloc`: a frame of the pool that was free, and no other becomes taken; stops exactly on a full pool. */
    method Palloc(kernelPool: bool) returns (r: Outcome<nat>)
      modifies this`kBits, this`uBits
      ensures match Paging.Palloc(old(View()), kernelPool)
              case Ok((m, f)) => r == Ok(f) && View() == m
              case _ => r == Halt
      ensures r.Halt? <==> AllSet(PoolBits(old(View()), kernelPool), |PoolBits(old(View()), kernelPool)|)
      ensures r.Ok? && Pools(old(View())) ==> Pools(View()) && (kernelPool <==> r.value < uStart)
      ensures r.Ok? && Pools(old(View())) ==> OneMoreTaken(old(View()), View(), r.value)
    {
      FullPool(if kernelPool then kBits else uBits);
      if Pools(View()) && Paging.Palloc(View(), kernelPool).Ok? { PallocTakes(View(), kernelPool); }
      var bits := if kernelPool then kBits else uBits;
      var idx := FirstRun(bits, 0, |bits|, 1);
      if idx == -1 {
        return Halt;
      }
      if kernelPool {
        kBits := kBits[idx := true];
        r := Ok(kStart + idx * PAGE);
      } else {
        uBits := uBits[idx := true];
        r := Ok(uStart + idx * PAGE);
      }
    }

    /** `page_table_add`: page `i` of `w` leads to `f` and no other page anywhere changes. It succeeds exactly when the
        page is absent, below the kernel's half, and there is a page table or a kernel frame to make one. */
    method PageTableAdd(w: Who, i: nat, f: nat) returns (ok: bool)
      requires w in spaces
      modifies this
      ensures match TableAdd(old(View()), w, i, f)
              case Ok(m) => ok && View() == m
              case _ => !ok
      ensures ok <==>
        Allowed(w, i) && i !in old(spaces)[w].ptes && (HasTable(old(View()), w, i) || !AllSet(old(kBits), |old(kBits)|))
      ensures ok ==> OnePageMore(old(spaces), spaces, w, i, f)
    {
      FullPool(kBits);
      if !Allowed(w, i) {
        return false;
      }
      var sp := spaces[w];
      if w.Kernel? || Pde(w, i) in sp.tables {
        if i in sp.ptes {
          return false;                                  // ASSERT(!(*pte & 0x00000001))
        }
        spaces := spaces[w := sp.(ptes := sp.ptes[i := f])];
      } else {
        var t := Palloc(true);
        if !t.Ok? {
          return false;
        }
        spaces := spaces[w := sp.(tables := sp.tables[Pde(w, i) := t.value])];
        sp := spaces[w];
        if i in sp.ptes {
          return false;
        }
        spaces := spaces[w := sp.(ptes := sp.ptes[i := f])];
      }
      ok := true;
    }

    /** `vaddr_get`: the lowest run of `n` clear pages among those the search examines, marked; nothing else changes. */
    method VaddrGet(w: Who, n: nat) returns (r: Outcome<nat>)
      requires w in spaces && |spaces[w].vbits| > 0 && 0 < n
      modifies this`spaces
      ensures match VaddrFind(old(View()), w, n)
              case Ok(i) => r == Ok(i) && View() == MarkRun(old(View()), w, i, n, true)
              case Null => r == Null && View() == old(View())
              case Halt => r == Halt
      ensures r.Ok? ==> ClearRun(old(spaces)[w].vbits, r.value, n) && NoRunBelow(old(spaces)[w].vbits, n, r.value)
      ensures r.Ok? ==> w in spaces && spaces == old(spaces)[w := old(spaces)[w].(vbits := spaces[w].vbits)]
      ensures r.Ok? ==> spaces[w].vbits == Mark(old(spaces)[w].vbits, r.value, n, true)
      ensures r.Null? ==> NoRunBelow(old(spaces)[w].vbits, n, |old(spaces)[w].vbits|)
    {
      var bits := spaces[w].vbits;
      var pages := |bits| - 1;
      if AllSet(bits, pages) {
        return Halt;                                     // ASSERT of bitmap_scan
      }
      var i := FirstRun(bits, 0, if n == 1 then pages else pages + 1, n);
      if i == -1 {
        return Null;
      }
      if w.User? && Vaddr(w, i) >= 0xc000_0000 - PAGE {
        return Halt;                                     // ASSERT on the address
      }
      SetVbits(w, i, n, true);
      r := Ok(i);
    }

    /** The body of the loop of `malloc_page`: one frame, mapped at one page. */
    method MapOne(w: Who, i: nat, ghost n: nat) returns (ok: bool)
      requires w in spaces && n > 0
      modifies this
      ensures ok ==> w in spaces
      ensures MapRun(old(View()), w, i, n) == if ok then MapRun(View(), w, i + 1, n - 1) else Halt
    {
      var f := Palloc(w.Kernel?);
      if !f.Ok? {
        return false;
      }
      ok := PageTableAdd(w, i, f.value);
    }

    method MallocPage(w: Who, n: nat) returns (r: Outcome<nat>)
      requires w in spaces && |spaces[w].vbits| > 0
      modifies this
      ensures match Paging.MallocPage(old(View()), w, n)
              case Ok((m, i)) => r == Ok(i) && View() == m
              case Null => r == Null && View() == old(View())
              case Halt => r == Halt
    {
      hide VaddrFind, MapRun;
      if !(0 < n < 3840) {
        return Halt;                                    // ASSERT(pg_cnt > 0 && pg_cnt < 3840)
      }
      r := VaddrGet(w, n);
      if !r.Ok? {
        return;
      }
      ghost var m0 := View();
      var page, cnt := r.value, n;
      while cnt > 0
        invariant 0 <= cnt <= n && page == r.value + (n - cnt) && w in spaces && r.Ok?
        invariant MapRun(m0, w, r.value, n) == MapRun(View(), w, page, cnt)
      {
        ghost var m1 := View();
        var ok := MapOne(w, page, cnt);
        if !ok {
          return Halt;
        }
        page, cnt := page + 1, cnt - 1;
        assert MapRun(m1, w, page - 1, cnt + 1) == MapRun(View(), w, page, cnt);
      }
      MapNothing(View(), w, page);
    }

    /** `pfree`: the frame is free again, in the pool it came from, and no other frame changes. */
    method Pfree(f: nat)
      requires kStart <= f
      modifies this`kBits, this`uBits
      ensures View() == Paging.Pfree(old(View()), f)
      ensures Pools(old(View())) && Taken(old(View()), f) ==> Pools(View()) && OneLessTaken(old(View()), View(), f)
    {
      if Pools(View()) && Taken(View(), f) { PfreeReleases(View(), f); }
      if f >= uStart {
        var idx := (f - uStart) / PAGE;
        if idx < |uBits| {
          uBits := uBits[idx := false];
        }
      } else {
        var idx := (f - kStart) / PAGE;
        if idx < |kBits| {
          kBits := kBits[idx := false];
        }
      }
    }

    /** The body of the loop of `mfree_page`: frame back to its pool, page table entry cleared. */
    method UnmapPage(w: Who, i: nat, userFrames: bool, ghost n: nat) returns (ok: bool)
      requires w in spaces && kStart <= uStart && n > 0
      modifies this
      ensures w in spaces && |spaces[w].vbits| == |old(spaces)[w].vbits|
      ensures UnmapRun(old(View()), w, i, n, userFrames) ==
        if ok then UnmapRun(View(), w, i + 1, n - 1, userFrames) else Halt
    {
      if i !in spaces[w].ptes {
        return false;
      }
      var f := spaces[w].ptes[i];
      if f % PAGE != 0 || (if userFrames then f < uStart else f < kStart || f >= uStart) {
        return false;                                    // ASSERT on the pool of the frame
      }
      Pfree(f);
      spaces := spaces[w := spaces[w].(ptes := spaces[w].ptes - {i})];
      ok := true;
    }

    method UnmapPages(w: Who, i: nat, n: nat, userFrames: bool) returns (ok: bool)
      requires w in spaces && kStart <= uStart
      modifies this
      ensures match UnmapRun(old(View()), w, i, n, userFrames)
              case Ok(m) => ok && View() == m && w in spaces && |spaces[w].vbits| == |old(spaces)[w].vbits|
              case _ => !ok
    {
      hide UnmapRun;
      var page, pageCnt := i, 0;
      while pageCnt < n
        invariant 0 <= pageCnt <= n && page == i + pageCnt && w in spaces && |spaces[w].vbits| == |old(spaces)[w].vbits|
        invariant UnmapRun(old(View()), w, i, n, userFrames) == UnmapRun(View(), w, page, n - pageCnt, userFrames)
      {
        ghost var m1, left := View(), n - pageCnt;
        ok := UnmapPage(w, page, userFrames, left);
        if !ok {
          return false;
        }
        page, pageCnt := page + 1, pageCnt + 1;
        assert left - 1 == n - pageCnt;
        assert UnmapRun(m1, w, page - 1, left, userFrames) == UnmapRun(View(), w, page, n - pageCnt, userFrames);
      }
      UnmapNothing(View(), w, page, userFrames);
      ok := true;
    }

    method MfreePage(w: Who, i: nat, n: nat) returns (ok: bool)
      requires w in spaces && i + n <= |spaces[w].vbits| && kStart <= uStart
      modifies this
      ensures match Paging.MfreePage(old(View()), w, i, n)
              case Ok(m) => ok && View() == m
              case _ => !ok
    {
      if n < 1 || i !in spaces[w].ptes {
        return false;
      }
      var f := spaces[w].ptes[i];
      if f % PAGE != 0 || f < 0x10_2000 {
        return false;                                    // ASSERT on the first frame
      }
      ok := UnmapPages(w, i, n, f >= uStart);
      if ok {
        SetVbits(w, i, n, false);
      }
    }
  }
}
