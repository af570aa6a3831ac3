/** When the page allocator succeeds: exactly when there are pages, frames and page tables for what is asked. */
module PageSupply {
  import opened Bitmaps
  import opened Outcomes
  import opened Paging

  // ---------------------------------------------------------------- mapping

  /** The page-directory entries that the pages need and that are not there. */
  ghost function MissingTables(m: Mem, w: Who, i: nat, n: nat): set<nat>
    requires w in m.spaces
  {
    if w.Kernel? then {}
    else set k: nat {:trigger Pde(w, k)} | i <= k < i + n && Pde(w, k) !in m.spaces[w].tables :: Pde(w, k)
  }

  /** A frame for every page, from the pool of its owner, and one from the kernel pool for every new page table. */
  ghost predicate FramesFor(m: Mem, w: Who, i: nat, n: nat)
    requires w in m.spaces
  {
    if w.Kernel? then ClearCount(m.kBits) >= n
    else ClearCount(m.uBits) >= n && ClearCount(m.kBits) >= |MissingTables(m, w, i, n)|
  }

  /** The pages are absent, and a process may have them. */
  predicate Absent(m: Mem, w: Who, i: nat, n: nat)
    requires w in m.spaces
  {
    forall k :: i <= k < i + n ==> Allowed(w, k) && k !in m.spaces[w].ptes
  }

  lemma PallocExact(m: Mem, kernelPool: bool)
    ensures Palloc(m, kernelPool).Ok? <==> ClearCount(if kernelPool then m.kBits else m.uBits) > 0
    ensures Palloc(m, kernelPool).Ok? ==> var m1 := Palloc(m, kernelPool).value.0;
      && ClearCount(m1.kBits) == ClearCount(m.kBits) - (if kernelPool then 1 else 0)
      && ClearCount(m1.uBits) == ClearCount(m.uBits) - (if kernelPool then 0 else 1)
  {
    var b := if kernelPool then m.kBits else m.uBits;
    NoneClear(b);
    var j := FirstRun(b, 0, |b|, 1);
    forall k: nat | k < |b| && !b[k] ensures ClearRun(b, k, 1) {}
    if j != -1 {
      assert ClearRun(b, j, 1) && !b[j];
      ClearAfter(b, j);
    }
  }

  /** `palloc` takes the free frame with the lowest address. */
  lemma PallocLowest(m: Mem, kernelPool: bool, j: nat)
    requires Palloc(m, kernelPool).Ok?
    requires j < |if kernelPool then m.kBits else m.uBits| && !(if kernelPool then m.kBits else m.uBits)[j]
    ensures Palloc(m, kernelPool).value.1 <= (if kernelPool then m.kStart else m.uStart) + PAGE * j
  {
    hide FirstRun;
    assert ClearRun(if kernelPool then m.kBits else m.uBits, j, 1);
  }

  /** What mapping a page uses up. */
  ghost predicate Used(m: Mem, m1: Mem, w: Who, i: nat)
    requires w in m.spaces
  {
    var tables := if HasTable(m, w, i) then 0 else 1;
    && w in m1.spaces
    && ClearCount(m1.kBits) == ClearCount(m.kBits) - (if w.Kernel? then 1 else tables)
    && ClearCount(m1.uBits) == ClearCount(m.uBits) - (if w.Kernel? then 0 else 1)
    && m1.spaces[w].ptes.Keys == m.spaces[w].ptes.Keys + {i}
    && m1.spaces[w].tables.Keys == m.spaces[w].tables.Keys + (if HasTable(m, w, i) then {} else {Pde(w, i)})
  }

  lemma MapPageExact(m: Mem, w: Who, i: nat)
    requires w in m.spaces
    ensures MapPage(m, w, i).Ok? <==> Absent(m, w, i, 1) && FramesFor(m, w, i, 1)
    ensures MapPage(m, w, i).Ok? ==> Used(m, MapPage(m, w, i).value, w, i)
  {
    hide Palloc, Pde, ClearCount, MissingTables, Allowed, TableAdd, FramesFor, Absent;
    OneFrame(m, w, i);
    OneAbsent(m, w, i);
    PallocExact(m, w.Kernel?);
    if Palloc(m, w.Kernel?).Ok? {
      var (m1, f) := Palloc(m, w.Kernel?).value;
      TableAddExact(m1, w, i, f);
    }
  }

  lemma OneFrame(m: Mem, w: Who, i: nat)
    requires w in m.spaces
    ensures FramesFor(m, w, i, 1) <==>
      if w.Kernel? then ClearCount(m.kBits) > 0
      else ClearCount(m.uBits) > 0 && (HasTable(m, w, i) || ClearCount(m.kBits) > 0)
  {
    hide Pde, ClearCount, MissingTables;
    OneMissing(m, w, i);
  }

  lemma OneAbsent(m: Mem, w: Who, i: nat)
    requires w in m.spaces
    ensures Absent(m, w, i, 1) <==> Allowed(w, i) && i !in m.spaces[w].ptes
  {
    hide Allowed;
  }

  /** `page_table_add` and the page table it may need. */
  lemma TableAddExact(m: Mem, w: Who, i: nat, f: nat)
    requires w in m.spaces
    ensures TableAdd(m, w, i, f).Ok? <==>
      Allowed(w, i) && i !in m.spaces[w].ptes && (HasTable(m, w, i) || ClearCount(m.kBits) > 0)
    ensures TableAdd(m, w, i, f).Ok? ==> var m1 := TableAdd(m, w, i, f).value;
      && w in m1.spaces
      && ClearCount(m1.kBits) == ClearCount(m.kBits) - (if HasTable(m, w, i) then 0 else 1)
      && ClearCount(m1.uBits) == ClearCount(m.uBits)
      && m1.spaces[w].ptes.Keys == m.spaces[w].ptes.Keys + {i}
      && m1.spaces[w].tables.Keys == m.spaces[w].tables.Keys + (if HasTable(m, w, i) then {} else {Pde(w, i)})
  {
    hide Palloc, Pde, ClearCount, Allowed;
    PallocExact(m, true);
  }

  lemma OneMissing(m: Mem, w: Who, i: nat)
    requires w in m.spaces
    ensures MissingTables(m, w, i, 1) == if HasTable(m, w, i) then {} else {Pde(w, i)}
    ensures |MissingTables(m, w, i, 1)| == if HasTable(m, w, i) then 0 else 1
  {
    hide Pde;
  }

  /** The first page, and the others once it is mapped. */
  lemma MissingSplit(m: Mem, m1: Mem, w: Who, i: nat, n: nat)
    requires w in m.spaces && n > 0 && Used(m, m1, w, i)
    ensures |MissingTables(m, w, i, n)| ==
      |MissingTables(m1, w, i + 1, n - 1)| + if HasTable(m, w, i) then 0 else 1
  {
    hide Pde, ClearCount;
    if w.User? {
      var a, b, d := MissingTables(m, w, i, n), MissingTables(m1, w, i + 1, n - 1), Pde(w, i);
      assert d !in b;
      forall x ensures x in a <==> x in b || (x == d && !HasTable(m, w, i)) {
        if x in a && x != d {
          var k: nat :| i <= k < i + n && Pde(w, k) !in m.spaces[w].tables && Pde(w, k) == x;
          assert k != i;
        }
      }
      assert a == if HasTable(m, w, i) then b else b + {d};
    }
  }

  lemma MissingFirst(m: Mem, w: Who, i: nat, n: nat)
    requires w in m.spaces && n > 0
    ensures FramesFor(m, w, i, n) ==> FramesFor(m, w, i, 1)
  {
    hide Pde, ClearCount;
    Smaller(MissingTables(m, w, i, 1), MissingTables(m, w, i, n));
  }

  lemma Smaller(a: set<nat>, b: set<nat>)
    requires a <= b
    ensures |a| <= |b|
  {
    assert b == a + (b - a);
  }

  /** A run of pages can be mapped exactly when all of them are absent and there are frames for all of them. */
  lemma {:induction false} MapRunExact(m: Mem, w: Who, i: nat, n: nat)
    requires w in m.spaces
    ensures MapRun(m, w, i, n).Ok? <==> Absent(m, w, i, n) && FramesFor(m, w, i, n)
    decreases n
  {
    hide MapPage, FramesFor, Absent, Used;
    if n == 0 {
      NothingNeeded(m, w, i);
    } else {
      MapPageExact(m, w, i);
      MissingFirst(m, w, i, n);
      AbsentFirst(m, w, i, n);
      if MapPage(m, w, i).Ok? {
        var m1 := MapPage(m, w, i).value;
        MapRunExact(m1, w, i + 1, n - 1);
        FramesSplit(m, m1, w, i, n);
        AbsentSplit(m, m1, w, i, n);
      }
    }
  }

  lemma NothingNeeded(m: Mem, w: Who, i: nat)
    requires w in m.spaces
    ensures Absent(m, w, i, 0) && FramesFor(m, w, i, 0)
  {
    hide Pde, ClearCount, Allowed;
    assert MissingTables(m, w, i, 0) == {};
  }

  lemma AbsentFirst(m: Mem, w: Who, i: nat, n: nat)
    requires w in m.spaces && n > 0
    ensures Absent(m, w, i, n) ==> Absent(m, w, i, 1)
  {
    hide Pde, Allowed;
  }

  lemma FramesSplit(m: Mem, m1: Mem, w: Who, i: nat, n: nat)
    requires w in m.spaces && n > 0 && Used(m, m1, w, i) && FramesFor(m, w, i, 1)
    ensures FramesFor(m, w, i, n) <==> FramesFor(m1, w, i + 1, n - 1)
  {
    hide Pde, ClearCount, MissingTables;
    MissingSplit(m, m1, w, i, n);
  }

  lemma AbsentSplit(m: Mem, m1: Mem, w: Who, i: nat, n: nat)
    requires w in m.spaces && n > 0 && Used(m, m1, w, i) && Absent(m, w, i, 1)
    ensures Absent(m, w, i, n) <==> Absent(m1, w, i + 1, n - 1)
  {
    hide Pde, ClearCount, Allowed;
    assert Allowed(w, i) && i !in m.spaces[w].ptes;
  }

  // ---------------------------------------------------------------- malloc_page

  /** Some page of the space is free. */
  predicate SomePage(sp: Space)
    requires |sp.vbits| > 0
  {
    exists k :: 0 <= k < |sp.vbits| - 1 && !sp.vbits[k]
  }

  /** `n` free pages from `i` on, among those that the search looks at: for more than one page also the one past the
      end. */
  predicate RunAt(sp: Space, n: nat, i: nat)
    requires |sp.vbits| > 0
  {
    i + n <= |sp.vbits| - (if n == 1 then 1 else 0) && ClearRun(sp.vbits, i, n)
  }

  /** The first such run. */
  predicate FirstRunAt(sp: Space, n: nat, i: nat)
    requires |sp.vbits| > 0
  {
    RunAt(sp, n, i) && forall j: nat :: j < i ==> !RunAt(sp, n, j)
  }

  /** `vaddr_get` stops at the last page of a process. */
  predicate Reachable(w: Who, i: nat) { w.User? ==> Vaddr(w, i) < 0xc000_0000 - PAGE }

  /** The first run is one that can be mapped, and there is a frame for everything. */
  ghost predicate Supplied(m: Mem, w: Who, n: nat, i: nat)
    requires w in m.spaces && |m.spaces[w].vbits| > 0
  {
    && 0 < n < 3840 && SomePage(m.spaces[w]) && FirstRunAt(m.spaces[w], n, i)
    && Reachable(w, i) && Absent(m, w, i, n) && FramesFor(m, w, i, n)
  }

  /** There are free pages, but no run of that length. */
  ghost predicate NoRun(m: Mem, w: Who, n: nat)
    requires w in m.spaces && |m.spaces[w].vbits| > 0
  {
    0 < n < 3840 && SomePage(m.spaces[w]) && forall i: nat :: !RunAt(m.spaces[w], n, i)
  }

  lemma VaddrExact(m: Mem, w: Who, n: nat)
    requires w in m.spaces && |m.spaces[w].vbits| > 0 && n > 0
    ensures var r, sp := VaddrFind(m, w, n), m.spaces[w];
      && (r.Null? <==> SomePage(sp) && forall i: nat :: !RunAt(sp, n, i))
      && (r.Ok? <==> SomePage(sp) && exists i: nat :: FirstRunAt(sp, n, i) && Reachable(w, i))
      && (r.Ok? ==> FirstRunAt(sp, n, r.value) && Reachable(w, r.value))
  {
    hide FirstRun;
    var b := m.spaces[w].vbits;
    var lim := if n == 1 then |b| - 1 else |b|;
    var i := FirstRun(b, 0, lim, n);
    if i != -1 {
      assert FirstRunAt(m.spaces[w], n, i);
    }
    forall j: nat | FirstRunAt(m.spaces[w], n, j) ensures j == i {
      assert ClearRun(b, j, n);
      if i != -1 { assert RunAt(m.spaces[w], n, i); }
    }
  }

  lemma SameMapping(m: Mem, m0: Mem, w: Who, j: nat, k: nat)
    requires w in m.spaces && w in m0.spaces
    requires m0.spaces[w].ptes == m.spaces[w].ptes && m0.spaces[w].tables == m.spaces[w].tables
    ensures Absent(m0, w, j, k) <==> Absent(m, w, j, k)
    ensures MissingTables(m0, w, j, k) == MissingTables(m, w, j, k)
  {
    hide Pde, Allowed;
  }

  /** Bits do not matter for mapping. */
  lemma MarkedSame(m: Mem, w: Who, i: nat, n: nat, j: nat, k: nat)
    requires w in m.spaces
    ensures var m0 := MarkRun(m, w, i, n, true);
      && (Absent(m0, w, j, k) <==> Absent(m, w, j, k)) && (FramesFor(m0, w, j, k) <==> FramesFor(m, w, j, k))
  {
    hide Pde, ClearCount, Allowed, Absent, MissingTables;
    var m0 := MarkRun(m, w, i, n, true);
    assert m0.spaces[w].ptes == m.spaces[w].ptes && m0.spaces[w].tables == m.spaces[w].tables;
    SameMapping(m, m0, w, j, k);
  }

  /** `malloc_page` succeeds exactly when the first run of free pages can be mapped and every frame is there; it gives
      NULL exactly when there is no run; otherwise it stops at an assertion. */
  lemma MallocPageExact(m: Mem, w: Who, n: nat)
    requires w in m.spaces && |m.spaces[w].vbits| > 0
    ensures MallocPage(m, w, n).Ok? <==> exists i: nat :: Supplied(m, w, n, i)
    ensures MallocPage(m, w, n).Ok? ==> Supplied(m, w, n, MallocPage(m, w, n).value.1)
    ensures MallocPage(m, w, n).Null? <==> NoRun(m, w, n)
  {
    hide VaddrFind, MapRun, FirstRunAt, SomePage, Reachable, Absent, FramesFor, MarkRun, RunAt;
    if 0 < n < 3840 {
      VaddrExact(m, w, n);
      if VaddrFind(m, w, n).Ok? {
        var i := VaddrFind(m, w, n).value;
        MarkRunSpaces(m, w, i, n);
        MapRunExact(MarkRun(m, w, i, n, true), w, i, n);
        MarkedSame(m, w, i, n, i, n);
        forall j: nat | FirstRunAt(m.spaces[w], n, j) ensures j == i { OneFirst(m.spaces[w], n, i, j); }
        assert Supplied(m, w, n, i) <==> MallocPage(m, w, n).Ok?;
      }
    }
  }

  lemma MarkRunSpaces(m: Mem, w: Who, i: nat, n: nat)
    requires w in m.spaces
    ensures w in MarkRun(m, w, i, n, true).spaces
  {
  }

  lemma OneFirst(sp: Space, n: nat, i: nat, j: nat)
    requires |sp.vbits| > 0 && FirstRunAt(sp, n, i) && FirstRunAt(sp, n, j)
    ensures i == j
  {
    hide RunAt;
  }

  /** In a sound state the pages of a run are absent; a process must only not reach past its half. */
  lemma RunAbsent(m: Mem, w: Who, n: nat, i: nat)
    requires AllAgree(m) && w in m.spaces && RunAt(m.spaces[w], n, i)
    ensures Absent(m, w, i, n) <==> w.Kernel? || n == 0 || i + n <= USER_PAGES
  {
    assert BitsAgree(m.spaces[w]);
    if w.User? {
      forall k: nat ensures Allowed(w, k) <==> k < USER_PAGES {}
      hide Allowed;
      if n > 0 { assert Allowed(w, i + n - 1) <==> i + n - 1 < USER_PAGES; }
      forall k: nat | i <= k < i + n ensures k !in m.spaces[w].ptes { assert !m.spaces[w].vbits[k]; }
    }
  }

  // ---------------------------------------------------------------- other callers

  /** `get_a_page` succeeds exactly for an absent page that is not the first, with frames for it. */
  lemma GetAPageExact(m: Mem, w: Who, i: nat)
    requires w in m.spaces
    ensures GetAPage(m, w, i).Ok? <==> i != 0 && Absent(m, w, i, 1) && FramesFor(m, w, i, 1)
  {
    hide MapPage, Absent, FramesFor;
    MapPageExact(MarkRun(m, w, i, 1, true), w, i);
    MarkedSame(m, w, i, 1, i, 1);
  }

  /** The set bits below `n`. */
  ghost function SetBelow(bits: seq<bool>, n: nat): set<nat>
    requires n <= |bits|
  {
    set k: nat | k < n && bits[k]
  }

  /** The page-directory entries of some pages of a process. */
  ghost function TablesOf(w: Who, pages: set<nat>): set<nat> {
    set k {:trigger Pde(w, k)} | k in pages :: Pde(w, k)
  }

  lemma TablesMore(w: Who, pages: set<nat>, k: nat)
    ensures TablesOf(w, pages + {k}) == TablesOf(w, pages) + {Pde(w, k)}
  {
    hide Pde;
    assert k in pages + {k};
    forall x | x in TablesOf(w, pages) + {Pde(w, k)} ensures x in TablesOf(w, pages + {k}) {
      if x != Pde(w, k) {
        var j :| j in pages && Pde(w, j) == x;
        assert j in pages + {k};
      }
    }
  }

  /** What the copy has used up after the first `n` bits. */
  ghost predicate CopyUsed(m: Mem, m1: Mem, w: Who, pages: set<nat>)
    requires w in m.spaces
  {
    && w in m1.spaces
    && ClearCount(m1.uBits) == ClearCount(m.uBits) - |pages|
    && ClearCount(m1.kBits) == ClearCount(m.kBits) - |TablesOf(w, pages)|
    && m1.spaces[w].ptes.Keys == pages && m1.spaces[w].tables.Keys == TablesOf(w, pages)
  }

  ghost predicate CopyFrames(m: Mem, w: Who, pages: set<nat>) {
    ClearCount(m.uBits) >= |pages| && ClearCount(m.kBits) >= |TablesOf(w, pages)|
  }

  lemma {:induction false} CopyExact(m: Mem, c: nat, bits: seq<bool>, n: nat)
    requires User(c) in m.spaces && m.spaces[User(c)].ptes == map[] && m.spaces[User(c)].tables == map[]
    requires n <= |bits| && forall k: nat :: k < n && bits[k] ==> Allowed(User(c), k)
    ensures CopyMaps(m, c, bits, n).Ok? <==> CopyFrames(m, User(c), SetBelow(bits, n))
    ensures CopyMaps(m, c, bits, n).Ok? ==> CopyUsed(m, CopyMaps(m, c, bits, n).value, User(c), SetBelow(bits, n))
  {
    hide MapPage, Pde, ClearCount, Allowed, CopyUsed, CopyFrames, SetBelow;
    var w := User(c);
    if n == 0 {
      NoneBelow(bits);
      CopyNone(m, w);
    } else {
      CopyExact(m, c, bits, n - 1);
      OneBelow(bits, n);
      var a := SetBelow(bits, n - 1);
      if bits[n - 1] {
        FramesLess(m, w, a, a + {n - 1});
        if CopyMaps(m, c, bits, n - 1).Ok? { CopyOne(m, CopyMaps(m, c, bits, n - 1).value, w, a, n - 1); }
      }
    }
  }

  lemma NoneBelow(bits: seq<bool>)
    ensures SetBelow(bits, 0) == {}
  {
  }

  lemma OneBelow(bits: seq<bool>, n: nat)
    requires 0 < n <= |bits|
    ensures SetBelow(bits, n) == if bits[n - 1] then SetBelow(bits, n - 1) + {n - 1} else SetBelow(bits, n - 1)
    ensures n - 1 !in SetBelow(bits, n - 1)
  {
  }

  lemma CopyNone(m: Mem, w: Who)
    requires w in m.spaces && m.spaces[w].ptes == map[] && m.spaces[w].tables == map[]
    ensures CopyUsed(m, m, w, {}) && CopyFrames(m, w, {})
  {
    hide ClearCount;
    assert TablesOf(w, {}) == {};
  }

  lemma FramesLess(m: Mem, w: Who, a: set<nat>, b: set<nat>)
    requires a <= b
    ensures CopyFrames(m, w, b) ==> CopyFrames(m, w, a)
  {
    hide ClearCount, Pde;
    Smaller(a, b);
    Smaller(TablesOf(w, a), TablesOf(w, b));
  }

  lemma CopyOne(m: Mem, m1: Mem, w: Who, pages: set<nat>, k: nat)
    requires w in m.spaces && w.User? && CopyUsed(m, m1, w, pages) && k !in pages && Allowed(w, k)
    ensures MapPage(m1, w, k).Ok? <==> CopyFrames(m, w, pages + {k})
    ensures MapPage(m1, w, k).Ok? ==> CopyUsed(m, MapPage(m1, w, k).value, w, pages + {k})
  {
    hide MapPage, Pde, ClearCount, Allowed, TablesOf, FramesFor, Absent;
    MapPageExact(m1, w, k);
    OneFrame(m1, w, k);
    OneAbsent(m1, w, k);
    TablesMore(w, pages, k);
    assert HasTable(m1, w, k) ==> TablesOf(w, pages) + {Pde(w, k)} == TablesOf(w, pages);
  }

  /** `fork` succeeds exactly when there is a frame for every page of the parent and one for every page table of the
      child. */
  lemma ForkExact(m: Mem, p: nat, c: nat, own: map<nat, Owner>)
    requires Inv(m, own, {}) && AllAgree(m) && User(p) in m.spaces && User(c) !in m.spaces
    ensures ForkMem(m, p, c).Ok? <==>
      CopyFrames(m, User(p), m.spaces[User(p)].ptes.Keys)
  {
    hide CopyMaps, ClearCount, FramesInv, OwnersInv, TablesInv;
    var bits, pages := m.spaces[User(p)].vbits, m.spaces[User(p)].ptes.Keys;
    assert BitsAgree(m.spaces[User(p)]);
    forall k | k in pages ensures k < USER_PAGES && Allowed(User(c), k) { assert PageInv(m, own, User(p), k); }
    assert SetBelow(bits, USER_PAGES) == pages;
    assert TablesOf(User(c), pages) == TablesOf(User(p), pages);
    CopyExact(WithProcess(m, c, bits), c, bits, USER_PAGES);
  }
}
