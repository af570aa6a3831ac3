/** memory.c, the page allocator: virtual-page bitmaps, page tables and physical-frame bitmaps.

    `Mem` is a value of all three structures for the kernel and every process, and the functions on it say
    what the routines do; the class `PageAllocator` changes them page by page. Addresses are
    numbers; a page of an address space is named by its bit in that space's bitmap. */
module Paging {
  import opened Bitmaps
  import opened Outcomes

  const PAGE := 4096
  const K_HEAP_START := 0xc010_0000
  const USER_VADDR_START := 0x0804_8000
  const USER_PAGES := (0xc000_0000 - USER_VADDR_START) / PAGE

  /** Whose address space: the kernel half shared by all, or the user half of a process. */
  datatype Who = Kernel | User(pid: nat)

  /** `vbits` has one more bit than there are pages: the one past the end that `bitmap_scan` may use.
      `ptes` maps the present pages to frame addresses, `tables` the present page-directory entries to the
      frames of their page tables. The kernel's directory entries all exist from boot and are not listed. */
  datatype Space = Space(vbits: seq<bool>, ptes: map<nat, nat>, tables: map<nat, nat>)

  datatype Mem = Mem(kStart: nat, uStart: nat, kBits: seq<bool>, uBits: seq<bool>, spaces: map<Who, Space>)

  function Vaddr(w: Who, i: nat): nat {
    (if w.Kernel? then K_HEAP_START else USER_VADDR_START) + PAGE * i
  }

  /** Index of the page-directory entry: the upper ten bits. */
  function Pde(w: Who, i: nat): nat { Vaddr(w, i) / 0x40_0000 }

  /** Page-directory entries from 768 on are the kernel's in every process, and the loader has mapped the memory at
      0xc0000000: a process cannot map a page there. */
  predicate Allowed(w: Who, i: nat) { w.Kernel? || Pde(w, i) < 768 }

  predicate HasTable(m: Mem, w: Who, i: nat)
    requires w in m.spaces
  {
    w.Kernel? || Pde(w, i) in m.spaces[w].tables
  }

  // ---------------------------------------------------------------- what the routines do

  /** `palloc`: first free frame of a pool; a full pool trips the ASSERT in `bitmap_scan`. */
  function Palloc(m: Mem, kernelPool: bool): (r: Outcome<(Mem, nat)>)
    ensures !r.Null? && (r.Ok? ==> r.value.0.spaces == m.spaces)
  {
    var b := if kernelPool then m.kBits else m.uBits;
    var j := FirstRun(b, 0, |b|, 1);
    if j == -1 then Halt
    else if kernelPool then Ok((m.(kBits := b[j := true]), m.kStart + PAGE * j))
    else Ok((m.(uBits := b[j := true]), m.uStart + PAGE * j))
  }

  function SetPte(m: Mem, w: Who, i: nat, f: nat): Mem
    requires w in m.spaces
  {
    m.(spaces := m.spaces[w := m.spaces[w].(ptes := m.spaces[w].ptes[i := f])])
  }

  function SetTable(m: Mem, w: Who, d: nat, f: nat): Mem
    requires w in m.spaces
  {
    m.(spaces := m.spaces[w := m.spaces[w].(tables := m.spaces[w].tables[d := f])])
  }

  /** `page_table_add`: map page `i` to frame `f`, creating the page table if need be. */
  function TableAdd(m: Mem, w: Who, i: nat, f: nat): (r: Outcome<Mem>)
    requires w in m.spaces
    ensures !r.Null? && (r.Ok? ==> r.value.spaces.Keys == m.spaces.Keys)
  {
    if !Allowed(w, i) then Halt                       // the entry is present: ASSERT
    else if HasTable(m, w, i) then
      if i in m.spaces[w].ptes then Halt else Ok(SetPte(m, w, i, f))
    else
      match Palloc(m, true)
      case Ok((m1, t)) => if i in m.spaces[w].ptes then Halt else Ok(SetPte(SetTable(m1, w, Pde(w, i), t), w, i, f))
      case _ => Halt
  }

  /** A frame from the pool of `w`, mapped at page `i`: also `get_a_page_without_opvaddrbitmap`. */
  function MapPage(m: Mem, w: Who, i: nat): (r: Outcome<Mem>)
    requires w in m.spaces
    ensures !r.Null? && (r.Ok? ==> r.value.spaces.Keys == m.spaces.Keys)
  {
    match Palloc(m, w.Kernel?)
    case Ok((m1, f)) => TableAdd(m1, w, i, f)
    case _ => Halt
  }

  function MapRun(m: Mem, w: Who, i: nat, n: nat): (r: Outcome<Mem>)
    requires w in m.spaces
    ensures !r.Null? && (r.Ok? ==> r.value.spaces.Keys == m.spaces.Keys)
    decreases n
  {
    if n == 0 then Ok(m)
    else match MapPage(m, w, i)
      case Ok(m1) => MapRun(m1, w, i + 1, n - 1)
      case _ => Halt
  }

  function MarkRun(m: Mem, w: Who, i: nat, n: nat, v: bool): Mem
    requires w in m.spaces
  {
    m.(spaces := m.spaces[w := m.spaces[w].(vbits := Mark(m.spaces[w].vbits, i, n, v))])
  }

  /** The search of `vaddr_get`. */
  function VaddrFind(m: Mem, w: Who, n: nat): Outcome<nat>
    requires w in m.spaces && |m.spaces[w].vbits| > 0
  {
    var b := m.spaces[w].vbits;
    var pages := |b| - 1;
    if AllSet(b, pages) then Halt
    else
      var i := FirstRun(b, 0, if n == 1 then pages else pages + 1, n);
      if i == -1 then Null
      else if w.User? && Vaddr(w, i) >= 0xc000_0000 - PAGE then Halt
      else Ok(i)
  }

  /** `malloc_page`; the result names the first page. */
  function MallocPage(m: Mem, w: Who, n: nat): Outcome<(Mem, nat)>
    requires w in m.spaces && |m.spaces[w].vbits| > 0
  {
    if !(0 < n < 3840) then Halt
    else match VaddrFind(m, w, n)
      case Ok(i) => (match MapRun(MarkRun(m, w, i, n, true), w, i, n)
                     case Ok(m1) => Ok((m1, i))
                     case _ => Halt)
      case Null => Null
      case Halt => Halt
  }

  /** `pfree`: the pool is told by comparing with the start of the user pool. */
  function Pfree(m: Mem, f: nat): (r: Mem)
    ensures r.spaces == m.spaces
  {
    if f >= m.uStart then
      var j := (f - m.uStart) / PAGE;
      if j < |m.uBits| then m.(uBits := m.uBits[j := false]) else m
    else if f >= m.kStart then
      var j := (f - m.kStart) / PAGE;
      if j < |m.kBits| then m.(kBits := m.kBits[j := false]) else m
    else m
  }

  function ClearPte(m: Mem, w: Who, i: nat): Mem
    requires w in m.spaces
  {
    m.(spaces := m.spaces[w := m.spaces[w].(ptes := m.spaces[w].ptes - {i})])
  }

  /** The loop of `mfree_page`, either branch, with the ASSERT of its branch. */
  function UnmapRun(m: Mem, w: Who, i: nat, n: nat, userFrames: bool): (r: Outcome<Mem>)
    requires w in m.spaces
    ensures !r.Null? && (r.Ok? ==> r.value.spaces.Keys == m.spaces.Keys)
    decreases n
  {
    if n == 0 then Ok(m)
    else if i !in m.spaces[w].ptes then Halt
    else
      var f := m.spaces[w].ptes[i];
      if f % PAGE != 0 || (if userFrames then f < m.uStart else f < m.kStart || f >= m.uStart) then Halt
      else UnmapRun(ClearPte(Pfree(m, f), w, i), w, i + 1, n - 1, userFrames)
  }

  /** `mfree_page` of pages that are mapped. The code does not test that and would go on with whatever an absent entry
      holds; here an absent entry is a halt. */
  function MfreePage(m: Mem, w: Who, i: nat, n: nat): Outcome<Mem>
    requires w in m.spaces
  {
    if n < 1 || i !in m.spaces[w].ptes then Halt
    else
      var f := m.spaces[w].ptes[i];
      if f % PAGE != 0 || f < 0x10_2000 then Halt
      else match UnmapRun(m, w, i, n, f >= m.uStart)
        case Ok(m1) => Ok(MarkRun(m1, w, i, n, false))
        case _ => Halt
  }

  /** `get_a_page`: a page at a given address. */
  function GetAPage(m: Mem, w: Who, i: nat): Outcome<Mem>
    requires w in m.spaces
  {
    if i == 0 then Halt else MapPage(MarkRun(m, w, i, 1, true), w, i)
  }

  // ---------------------------------------------------------------- agreement of the three structures

  /** Frame `f` belongs to the pool and its bit is set. */
  ghost predicate InPool(start: nat, bits: seq<bool>, f: nat) {
    start <= f && (f - start) % PAGE == 0 && (f - start) / PAGE < |bits| && bits[(f - start) / PAGE]
  }

  ghost predicate Taken(m: Mem, f: nat) {
    InPool(m.kStart, m.kBits, f) || InPool(m.uStart, m.uBits, f)
  }

  lemma PoolUpdate(start: nat, bits: seq<bool>, j: nat, v: bool, f: nat)
    requires j < |bits|
    ensures InPool(start, bits[j := v], f) == if f == start + PAGE * j then v else InPool(start, bits, f)
  {
  }

  /** What an allocated frame is used for. */
  datatype Owner = Page(w: Who, i: nat) | Table(w: Who, d: nat)

  ghost predicate OwnerOk(m: Mem, f: nat, o: Owner) {
    && o.w in m.spaces
    && match o
       case Page(w, i) => i in m.spaces[w].ptes && m.spaces[w].ptes[i] == f && (w.User? <==> f >= m.uStart)
       case Table(w, d) => w.User? && d in m.spaces[w].tables && m.spaces[w].tables[d] == f && f < m.uStart
  }

  /** The pools do not overlap, and both are clear of the first megabyte and the kernel's page tables. */
  ghost predicate Pools(m: Mem) {
    && m.kStart % PAGE == 0 && m.uStart % PAGE == 0 && m.kStart >= 0x20_0000
    && m.kStart + PAGE * |m.kBits| <= m.uStart
    && Kernel in m.spaces
  }

  /** The frame bitmaps record exactly the owned frames and those of `loose`, which are not mapped yet. */
  ghost predicate FramesInv(m: Mem, own: map<nat, Owner>, loose: set<nat>) {
    Pools(m) && own.Keys !! loose && forall f :: Taken(m, f) <==> f in own || f in loose
  }

  ghost predicate OwnersInv(m: Mem, own: map<nat, Owner>) {
    forall f :: f in own ==> OwnerOk(m, f, own[f])
  }

  ghost predicate PageInv(m: Mem, own: map<nat, Owner>, w: Who, i: nat)
    requires w in m.spaces && i in m.spaces[w].ptes
  {
    var f := m.spaces[w].ptes[i];
    f in own && own[f] == Page(w, i) && HasTable(m, w, i) && Allowed(w, i)
  }

  ghost predicate PagesInv(m: Mem, own: map<nat, Owner>) {
    forall w, i :: w in m.spaces && i in m.spaces[w].ptes ==> PageInv(m, own, w, i)
  }

  ghost predicate TablesInv(m: Mem, own: map<nat, Owner>) {
    forall w, d :: w in m.spaces && d in m.spaces[w].tables ==>
      m.spaces[w].tables[d] in own && own[m.spaces[w].tables[d]] == Table(w, d)
  }

  /** Every allocated frame has exactly one owner, and page tables and owners point at each other. */
  ghost predicate Inv(m: Mem, own: map<nat, Owner>, loose: set<nat>) {
    FramesInv(m, own, loose) && OwnersInv(m, own) && PagesInv(m, own) && TablesInv(m, own)
  }

  /** A virtual bit is set exactly when its page is present. */
  ghost predicate BitsAgree(sp: Space) {
    && |sp.vbits| > 0
    && (forall i :: i in sp.ptes ==> i < |sp.vbits|)
    && (forall i :: 0 <= i < |sp.vbits| ==> (sp.vbits[i] <==> i in sp.ptes))
  }

  /** So it is in every address space, and the bitmap of a process covers the user half. */
  ghost predicate AllAgree(m: Mem) {
    forall w :: w in m.spaces ==> BitsAgree(m.spaces[w]) && (w.User? ==> |m.spaces[w].vbits| == USER_PAGES + 1)
  }

  // ---------------------------------------------------------------- one frame, one page

  lemma TakenAligned(m: Mem, f: nat)
    requires Pools(m) && Taken(m, f)
    ensures f % PAGE == 0 && m.kStart <= f
  {
  }

  /** No frame is in both pools. */
  lemma OtherPool(m: Mem)
    requires Pools(m)
    ensures forall g: nat, bits: seq<bool> :: InPool(m.kStart, bits, g) && |bits| == |m.kBits| ==>
      m.kStart <= g < m.uStart
    ensures forall g: nat, bits: seq<bool> :: InPool(m.uStart, bits, g) ==> m.uStart <= g
  {
  }

  lemma PallocTakes(m: Mem, kernelPool: bool)
    requires Pools(m) && Palloc(m, kernelPool).Ok?
    ensures var (m1, f) := Palloc(m, kernelPool).value;
      && Pools(m1) && m1.spaces == m.spaces && m1.kStart == m.kStart && m1.uStart == m.uStart
      && |m1.kBits| == |m.kBits| && |m1.uBits| == |m.uBits|
      && !Taken(m, f) && f % PAGE == 0 && f >= m.kStart && (kernelPool <==> f < m.uStart)
      && forall g :: Taken(m1, g) <==> Taken(m, g) || g == f
  {
    hide InPool;
    var b := if kernelPool then m.kBits else m.uBits;
    var j := FirstRun(b, 0, |b|, 1);
    assert ClearRun(b, j, 1) && !b[j];
    OtherPool(m);
    var (m1, f) := Palloc(m, kernelPool).value;
    var start := if kernelPool then m.kStart else m.uStart;
    PoolUpdate(start, b, j, b[j], f);
    assert b[j := b[j]] == b;
    forall g ensures Taken(m1, g) <==> Taken(m, g) || g == f { PoolUpdate(start, b, j, true, g); }
  }

  /** Changing only which frames are taken, consistently, keeps the invariant. */
  lemma SameSpaces(m: Mem, m1: Mem, own: map<nat, Owner>, loose: set<nat>, loose1: set<nat>)
    requires Inv(m, own, loose) && FramesInv(m1, own, loose1) && m1.spaces == m.spaces && m1.uStart == m.uStart
    ensures Inv(m1, own, loose1)
  {
    forall g | g in own ensures OwnerOk(m1, g, own[g]) { assert OwnerOk(m, g, own[g]); }
    forall w, i | w in m1.spaces && i in m1.spaces[w].ptes ensures PageInv(m1, own, w, i) {
      assert PageInv(m, own, w, i);
    }
  }

  lemma PallocInv(m: Mem, kernelPool: bool, own: map<nat, Owner>, loose: set<nat>)
    requires Inv(m, own, loose) && Palloc(m, kernelPool).Ok?
    ensures var (m1, f) := Palloc(m, kernelPool).value;
      f !in own && f !in loose && Inv(m1, own, loose + {f})
  {
    PallocTakes(m, kernelPool);
    var (m1, f) := Palloc(m, kernelPool).value;
    SameSpaces(m, m1, own, loose, loose + {f});
  }

  lemma PfreeReleases(m: Mem, f: nat)
    requires Pools(m) && Taken(m, f)
    ensures var m1 := Pfree(m, f);
      && Pools(m1) && m1.spaces == m.spaces && m1.kStart == m.kStart && m1.uStart == m.uStart
      && |m1.kBits| == |m.kBits| && |m1.uBits| == |m.uBits|
      && forall g :: Taken(m1, g) <==> Taken(m, g) && g != f
  {
    var m1 := Pfree(m, f);
    forall g ensures Taken(m1, g) <==> Taken(m, g) && g != f {
      if f >= m.uStart {
        PoolUpdate(m.uStart, m.uBits, (f - m.uStart) / PAGE, false, g);
      } else {
        PoolUpdate(m.kStart, m.kBits, (f - m.kStart) / PAGE, false, g);
      }
    }
  }

  lemma TakenBits(m: Mem, m1: Mem, f: nat)
    requires m1.kBits == m.kBits && m1.uBits == m.uBits && m1.kStart == m.kStart && m1.uStart == m.uStart
    ensures Taken(m1, f) == Taken(m, f)
  {
  }

  /** A loose frame gets an owner. */
  lemma Adopt(m: Mem, m1: Mem, f: nat, o: Owner, own: map<nat, Owner>, loose: set<nat>)
    requires FramesInv(m, own, loose) && f in loose && Kernel in m1.spaces
    requires m1.kBits == m.kBits && m1.uBits == m.uBits && m1.kStart == m.kStart && m1.uStart == m.uStart
    ensures FramesInv(m1, own[f := o], loose - {f})
  {
    forall g ensures Taken(m1, g) == Taken(m, g) { TakenBits(m, m1, g); }
  }

  /** A loose frame becomes page `i` of `w`. */
  lemma SetPteInv(m: Mem, w: Who, i: nat, f: nat, own: map<nat, Owner>, loose: set<nat>)
    requires Inv(m, own, loose) && w in m.spaces && i !in m.spaces[w].ptes && f in loose
    requires HasTable(m, w, i) && Allowed(w, i) && (w.User? <==> f >= m.uStart)
    ensures Inv(SetPte(m, w, i, f), own[f := Page(w, i)], loose - {f})
  {
    var m1, own1 := SetPte(m, w, i, f), own[f := Page(w, i)];
    Adopt(m, m1, f, Page(w, i), own, loose);
    SetPteOwners(m, w, i, f, own);
    SetPtePages(m, w, i, f, own);
  }

  lemma SetPteOwners(m: Mem, w: Who, i: nat, f: nat, own: map<nat, Owner>)
    requires OwnersInv(m, own) && w in m.spaces && i !in m.spaces[w].ptes && f !in own && (w.User? <==> f >= m.uStart)
    ensures OwnersInv(SetPte(m, w, i, f), own[f := Page(w, i)])
  {
    forall g | g in own ensures OwnerOk(SetPte(m, w, i, f), g, own[g]) { assert OwnerOk(m, g, own[g]); }
  }

  lemma SetPtePages(m: Mem, w: Who, i: nat, f: nat, own: map<nat, Owner>)
    requires PagesInv(m, own) && TablesInv(m, own) && w in m.spaces && i !in m.spaces[w].ptes && f !in own
    requires HasTable(m, w, i) && Allowed(w, i)
    ensures PagesInv(SetPte(m, w, i, f), own[f := Page(w, i)]) && TablesInv(SetPte(m, w, i, f), own[f := Page(w, i)])
  {
    var m1, own1 := SetPte(m, w, i, f), own[f := Page(w, i)];
    forall v, k | v in m1.spaces && k in m1.spaces[v].ptes ensures PageInv(m1, own1, v, k) {
      if v != w || k != i { assert PageInv(m, own, v, k); }
    }
  }

  lemma PoolsKernel(m: Mem, own: map<nat, Owner>, loose: set<nat>)
    requires Inv(m, own, loose)
    ensures Kernel in m.spaces
  {
  }

  lemma SetTableInv(m: Mem, w: Who, d: nat, f: nat, own: map<nat, Owner>, loose: set<nat>)
    requires Inv(m, own, loose) && w in m.spaces && w.User? && d !in m.spaces[w].tables && f in loose && f < m.uStart
    ensures Inv(SetTable(m, w, d, f), own[f := Table(w, d)], loose - {f})
  {
    hide Taken, Pools;
    var m1, own1 := SetTable(m, w, d, f), own[f := Table(w, d)];
    PoolsKernel(m, own, loose);
    Adopt(m, m1, f, Table(w, d), own, loose);
    forall g | g in own1 ensures OwnerOk(m1, g, own1[g]) {
      if g != f { assert OwnerOk(m, g, own[g]); }
    }
    forall v, k | v in m1.spaces && k in m1.spaces[v].ptes ensures PageInv(m1, own1, v, k) {
      assert PageInv(m, own, v, k);
    }
  }

  // ---------------------------------------------------------------- mapping and unmapping

  /** `m1` is `m` with the `n` pages from `i` of `w` newly mapped; `fs` are the frames taken for it, all of
      them free before: those of the pages and, for a process, page tables from the kernel pool. */
  ghost predicate Mapped(m: Mem, m1: Mem, w: Who, i: nat, n: nat, fs: set<nat>) {
    && w in m.spaces && w in m1.spaces && m1.spaces == m.spaces[w := m1.spaces[w]]
    && m1.kStart == m.kStart && m1.uStart == m.uStart && |m1.kBits| == |m.kBits| && |m1.uBits| == |m.uBits|
    && (forall f :: Taken(m1, f) <==> Taken(m, f) || f in fs)
    && (forall f :: f in fs ==> !Taken(m, f))
    && MappedSpace(m.spaces[w], m1.spaces[w], w, i, n, fs, m.uStart)
  }

  ghost predicate MappedSpace(a: Space, b: Space, w: Who, i: nat, n: nat, fs: set<nat>, uStart: nat) {
    && b.vbits == a.vbits
    && (forall k :: k in b.ptes <==> k in a.ptes || i <= k < i + n)
    && (forall k :: k in a.ptes ==> b.ptes[k] == a.ptes[k])
    && (forall k :: i <= k < i + n ==> k !in a.ptes && b.ptes[k] in fs)
    && (forall f :: f in fs ==> (w.User? && f < uStart) || exists k :: i <= k < i + n && b.ptes[k] == f)
    && (forall d :: d in a.tables ==> d in b.tables && b.tables[d] == a.tables[d])
    && (w.Kernel? ==> b.tables == a.tables)
  }

  lemma MapWithTable(m: Mem, w: Who, i: nat, f: nat, own: map<nat, Owner>)
    requires Inv(m, own, {f}) && w in m.spaces && HasTable(m, w, i) && Allowed(w, i)
    requires i !in m.spaces[w].ptes && (w.User? <==> f >= m.uStart)
    ensures Inv(SetPte(m, w, i, f), own[f := Page(w, i)], {})
    ensures forall g :: Taken(SetPte(m, w, i, f), g) == Taken(m, g)
  {
    SetPteInv(m, w, i, f, own, {f});
    assert {f} - {f} == {};
    forall g ensures Taken(SetPte(m, w, i, f), g) == Taken(m, g) { TakenBits(m, SetPte(m, w, i, f), g); }
  }

  lemma MapNewTable(m: Mem, w: Who, i: nat, f: nat, t: nat, own: map<nat, Owner>)
    requires Inv(m, own, {f, t}) && f != t && w in m.spaces && w.User? && !HasTable(m, w, i) && i !in m.spaces[w].ptes
    requires f >= m.uStart > t && Allowed(w, i)
    ensures var r := SetPte(SetTable(m, w, Pde(w, i), t), w, i, f);
      Inv(r, own[t := Table(w, Pde(w, i))][f := Page(w, i)], {}) && forall g :: Taken(r, g) == Taken(m, g)
  {
    var m1 := SetTable(m, w, Pde(w, i), t);
    SetTableInv(m, w, Pde(w, i), t, own, {f, t});
    assert {f, t} - {t} == {f};
    forall g ensures Taken(m1, g) == Taken(m, g) { TakenBits(m, m1, g); }
    MapWithTable(m1, w, i, f, own[t := Table(w, Pde(w, i))]);
  }

  lemma MapKnown(m: Mem, w: Who, i: nat, own: map<nat, Owner>, m1: Mem, f: nat, r: Mem)
    requires Inv(m, own, {}) && w in m.spaces && Palloc(m, w.Kernel?) == Ok((m1, f))
    requires HasTable(m, w, i) && Allowed(w, i) && i !in m.spaces[w].ptes && r == SetPte(m1, w, i, f)
    ensures Inv(r, own[f := Page(w, i)], {}) && Mapped(m, r, w, i, 1, {f})
  {
    PallocInv(m, w.Kernel?, own, {});
    PallocTakes(m, w.Kernel?);
    assert {} + {f} == {f};
    MapWithTable(m1, w, i, f, own);
    MappedOne(m, r, w, i, f, {f});
  }

  lemma MapFreshInv(m: Mem, w: Who, i: nat, own: map<nat, Owner>, m1: Mem, f: nat, m2: Mem, t: nat, r: Mem)
    requires Inv(m, own, {}) && w in m.spaces && Palloc(m, w.Kernel?) == Ok((m1, f)) && Palloc(m1, true) == Ok((m2, t))
    requires !HasTable(m, w, i) && Allowed(w, i) && i !in m.spaces[w].ptes
    requires r == SetPte(SetTable(m2, w, Pde(w, i), t), w, i, f)
    ensures Inv(r, own[t := Table(w, Pde(w, i))][f := Page(w, i)], {}) && forall g :: Taken(r, g) == Taken(m2, g)
  {
    PallocInv(m, w.Kernel?, own, {});
    PallocTakes(m, w.Kernel?);
    assert {} + {f} == {f};
    PallocInv(m1, true, own, {f});
    PallocTakes(m1, true);
    assert {f} + {t} == {f, t};
    MapNewTable(m2, w, i, f, t, own);
  }

  lemma MapFreshMapped(m: Mem, w: Who, i: nat, m1: Mem, f: nat, m2: Mem, t: nat, r: Mem)
    requires Pools(m) && w in m.spaces && Palloc(m, w.Kernel?) == Ok((m1, f)) && Palloc(m1, true) == Ok((m2, t))
    requires !HasTable(m, w, i) && i !in m.spaces[w].ptes && r == SetPte(SetTable(m2, w, Pde(w, i), t), w, i, f)
    requires forall g :: Taken(r, g) == Taken(m2, g)
    ensures Mapped(m, r, w, i, 1, {f, t})
  {
    PallocTakes(m, w.Kernel?);
    PallocTakes(m1, true);
    MappedOne(m, r, w, i, f, {f, t});
  }

  /** Mapping a page keeps the agreement of frame bitmaps and page tables. */
  lemma MapPageKeeps(m: Mem, w: Who, i: nat, own: map<nat, Owner>) returns (own1: map<nat, Owner>, fs: set<nat>)
    requires Inv(m, own, {}) && w in m.spaces && MapPage(m, w, i).Ok?
    ensures Inv(MapPage(m, w, i).value, own1, {}) && Mapped(m, MapPage(m, w, i).value, w, i, 1, fs)
  {
    var (m1, f) := Palloc(m, w.Kernel?).value;
    if HasTable(m1, w, i) {
      own1, fs := own[f := Page(w, i)], {f};
      MapKnown(m, w, i, own, m1, f, SetPte(m1, w, i, f));
    } else {
      var (m2, t) := Palloc(m1, true).value;
      own1, fs := own[t := Table(w, Pde(w, i))][f := Page(w, i)], {f, t};
      var r := SetPte(SetTable(m2, w, Pde(w, i), t), w, i, f);
      MapFreshInv(m, w, i, own, m1, f, m2, t, r);
      MapFreshMapped(m, w, i, m1, f, m2, t, r);
    }
  }

  lemma MappedOne(m: Mem, r: Mem, w: Who, i: nat, f: nat, fs: set<nat>)
    requires w in m.spaces && w in r.spaces && r.spaces == m.spaces[w := r.spaces[w]]
    requires r.kStart == m.kStart && r.uStart == m.uStart && |r.kBits| == |m.kBits| && |r.uBits| == |m.uBits|
    requires forall g :: Taken(r, g) <==> Taken(m, g) || g in fs
    requires forall g :: g in fs ==> !Taken(m, g)
    requires i !in m.spaces[w].ptes && f in fs
    requires r.spaces[w].vbits == m.spaces[w].vbits && r.spaces[w].ptes == m.spaces[w].ptes[i := f]
    requires forall g :: g in fs && g != f ==> w.User? && g < m.uStart
    requires forall d :: d in m.spaces[w].tables ==>
      d in r.spaces[w].tables && r.spaces[w].tables[d] == m.spaces[w].tables[d]
    requires w.Kernel? ==> r.spaces[w].tables == m.spaces[w].tables
    ensures Mapped(m, r, w, i, 1, fs)
  {
    assert r.spaces[w].ptes[i] == f;
  }

  lemma MappedJoin(a: Space, b: Space, c: Space, w: Who, i: nat, n: nat, fs: set<nat>, gs: set<nat>, u: nat)
    requires MappedSpace(a, b, w, i, 1, fs, u) && MappedSpace(b, c, w, i + 1, n, gs, u)
    ensures MappedSpace(a, c, w, i, n + 1, fs + gs, u)
  {
    forall f | f in fs + gs ensures (w.User? && f < u) || exists k :: i <= k < i + (n + 1) && c.ptes[k] == f {
      if !(w.User? && f < u) {
        if f in fs { assert b.ptes[i] == f; assert c.ptes[i] == f; }
        else {
          var k :| i + 1 <= k < i + 1 + n && c.ptes[k] == f;
          assert c.ptes[k] == f;
        }
      }
    }
  }

  lemma MappedTrans(m: Mem, m1: Mem, m2: Mem, w: Who, i: nat, n: nat, fs: set<nat>, gs: set<nat>)
    requires Mapped(m, m1, w, i, 1, fs) && Mapped(m1, m2, w, i + 1, n, gs)
    ensures Mapped(m, m2, w, i, n + 1, fs + gs)
  {
    MappedJoin(m.spaces[w], m1.spaces[w], m2.spaces[w], w, i, n, fs, gs, m.uStart);
    assert m2.spaces == m.spaces[w := m2.spaces[w]];
  }

  lemma MappedNone(m: Mem, w: Who, i: nat)
    requires w in m.spaces
    ensures Mapped(m, m, w, i, 0, {})
  {
    assert m.spaces == m.spaces[w := m.spaces[w]];
  }

  lemma {:induction false} MapRunInv(m: Mem, w: Who, i: nat, n: nat, r: Mem, own: map<nat, Owner>)
    returns (own1: map<nat, Owner>)
    requires Inv(m, own, {}) && w in m.spaces && MapRun(m, w, i, n) == Ok(r)
    ensures Inv(r, own1, {})
    decreases n
  {
    hide Inv, Mapped, MapPage;
    own1 := own;
    if n != 0 {
      var fs0;
      own1, fs0 := MapPageKeeps(m, w, i, own);
      own1 := MapRunInv(MapPage(m, w, i).value, w, i + 1, n - 1, r, own1);
    }
  }

  lemma {:induction false} MapRunMapped(m: Mem, w: Who, i: nat, n: nat, r: Mem, own: map<nat, Owner>)
    returns (fs: set<nat>)
    requires Inv(m, own, {}) && w in m.spaces && MapRun(m, w, i, n) == Ok(r)
    ensures Mapped(m, r, w, i, n, fs)
    decreases n
  {
    hide Inv, Mapped, MapPage;
    if n == 0 {
      fs := {};
      MappedNone(m, w, i);
    } else {
      var m1 := MapPage(m, w, i).value;
      var own0, fs0 := MapPageKeeps(m, w, i, own);
      fs := MapRunMapped(m1, w, i + 1, n - 1, r, own0);
      MappedTrans(m, m1, r, w, i, n - 1, fs0, fs);
      fs := fs0 + fs;
    }
  }

  // ---------------------------------------------------------------- malloc_page

  /** Marking virtual pages touches nothing else. */
  lemma MarkRunInv(m: Mem, w: Who, i: nat, n: nat, v: bool, own: map<nat, Owner>)
    requires Inv(m, own, {}) && w in m.spaces
    ensures Inv(MarkRun(m, w, i, n, v), own, {})
    ensures forall f :: Taken(MarkRun(m, w, i, n, v), f) == Taken(m, f)
  {
    var m1 := MarkRun(m, w, i, n, v);
    forall f ensures Taken(m1, f) == Taken(m, f) { TakenBits(m, m1, f); }
    forall g | g in own ensures OwnerOk(m1, g, own[g]) { assert OwnerOk(m, g, own[g]); }
    forall x, k | x in m1.spaces && k in m1.spaces[x].ptes ensures PageInv(m1, own, x, k) {
      assert PageInv(m, own, x, k);
    }
  }

  /** What a successful `malloc_page` did: a clear run of pages, each mapped to its own free frame. */
  ghost predicate Allocated(m: Mem, r: Mem, w: Who, i: nat, n: nat, fs: set<nat>) {
    && w in m.spaces && i + n <= |m.spaces[w].vbits| && ClearRun(m.spaces[w].vbits, i, n)
    && w in r.spaces && r.spaces[w].vbits == Mark(m.spaces[w].vbits, i, n, true)
    && Mapped(MarkRun(m, w, i, n, true), r, w, i, n, fs)
    && (forall f :: Taken(MarkRun(m, w, i, n, true), f) == Taken(m, f))
  }

  /** `malloc_page` keeps all three structures in agreement, in every address space. */
  lemma MallocKeeps(m: Mem, w: Who, n: nat, r: Mem, i: nat, own: map<nat, Owner>)
    returns (own1: map<nat, Owner>, fs: set<nat>)
    requires Inv(m, own, {}) && AllAgree(m) && w in m.spaces && MallocPage(m, w, n) == Ok((r, i))
    ensures Inv(r, own1, {}) && AllAgree(r) && Allocated(m, r, w, i, n, fs)
  {
    hide Inv, Mapped, MapRun, AllAgree;
    var m1 := MarkRun(m, w, i, n, true);
    MarkRunInv(m, w, i, n, true, own);
    own1 := MapRunInv(m1, w, i, n, r, own);
    fs := MapRunMapped(m1, w, i, n, r, own);
    AgreeAfterMap(m, m1, r, w, i, n, fs);
    AllocatedBy(m, m1, r, w, i, n, fs);
  }

  lemma AllocatedBy(m: Mem, m1: Mem, r: Mem, w: Who, i: nat, n: nat, fs: set<nat>)
    requires w in m.spaces && m1 == MarkRun(m, w, i, n, true) && Mapped(m1, r, w, i, n, fs)
    requires ClearRun(m.spaces[w].vbits, i, n) && forall f :: Taken(m1, f) == Taken(m, f)
    ensures Allocated(m, r, w, i, n, fs)
  {
  }

  lemma AgreeAfterMap(m: Mem, m1: Mem, r: Mem, w: Who, i: nat, n: nat, fs: set<nat>)
    requires AllAgree(m) && w in m.spaces && m1 == MarkRun(m, w, i, n, true) && Mapped(m1, r, w, i, n, fs)
    requires i + n <= |m.spaces[w].vbits|
    ensures AllAgree(r)
  {
    assert BitsAgree(m.spaces[w]);
    forall v | v in r.spaces ensures BitsAgree(r.spaces[v]) {
      if v != w { assert r.spaces[v] == m.spaces[v]; }
    }
  }

  // ---------------------------------------------------------------- mfree_page

  /** All `n` pages from `i` are present. */
  ghost predicate Present(m: Mem, w: Who, i: nat, n: nat) {
    w in m.spaces && forall k :: i <= k < i + n ==> k in m.spaces[w].ptes
  }

  /** `r` is `m` with those pages unmapped and exactly their frames given back. */
  ghost predicate Unmapped(m: Mem, r: Mem, w: Who, i: nat, n: nat) {
    && Present(m, w, i, n) && w in r.spaces && r.spaces == m.spaces[w := r.spaces[w]]
    && r.kStart == m.kStart && r.uStart == m.uStart && |r.kBits| == |m.kBits| && |r.uBits| == |m.uBits|
    && r.spaces[w].vbits == m.spaces[w].vbits && r.spaces[w].tables == m.spaces[w].tables
    && (forall k :: k in r.spaces[w].ptes <==> k in m.spaces[w].ptes && !(i <= k < i + n))
    && (forall k :: k in r.spaces[w].ptes ==> r.spaces[w].ptes[k] == m.spaces[w].ptes[k])
    && (forall f :: Taken(r, f) <==> Taken(m, f) && forall k :: i <= k < i + n ==> m.spaces[w].ptes[k] != f)
  }

  lemma OwnedPage(m: Mem, w: Who, i: nat, own: map<nat, Owner>)
    requires Inv(m, own, {}) && Present(m, w, i, 1)
    ensures var f := m.spaces[w].ptes[i];
      f in own && own[f] == Page(w, i) && Taken(m, f) && f % PAGE == 0 && m.kStart <= f && (w.User? <==> f >= m.uStart)
  {
    var f := m.spaces[w].ptes[i];
    assert PageInv(m, own, w, i) && OwnerOk(m, f, own[f]);
    hide OwnersInv, PagesInv, TablesInv;
    TakenAligned(m, f);
  }

  /** One page: its frame goes back to the pool it came from. */
  lemma UnmapOne(m: Mem, w: Who, i: nat, own: map<nat, Owner>) returns (own1: map<nat, Owner>)
    requires Inv(m, own, {}) && Present(m, w, i, 1)
    ensures var f := m.spaces[w].ptes[i]; var r := ClearPte(Pfree(m, f), w, i);
      && Inv(r, own1, {})
      && f % PAGE == 0 && m.kStart <= f && (w.User? <==> f >= m.uStart)
      && (forall g :: Taken(r, g) <==> Taken(m, g) && g != f)
  {
    hide OwnersInv, TablesInv;
    var f := m.spaces[w].ptes[i];
    OwnedPage(m, w, i, own);
    PfreeReleases(m, f);
    var m1 := Pfree(m, f);
    var r := ClearPte(m1, w, i);
    own1 := own - {f};
    forall g ensures Taken(r, g) == Taken(m1, g) { TakenBits(m1, r, g); }
    assert Pools(r);
    UnmapOwners(m, r, w, i, f, own, own1);
  }

  lemma UnmapOwners(m: Mem, r: Mem, w: Who, i: nat, f: nat, own: map<nat, Owner>, own1: map<nat, Owner>)
    requires OwnersInv(m, own) && PagesInv(m, own) && TablesInv(m, own)
    requires w in m.spaces && i in m.spaces[w].ptes && m.spaces[w].ptes[i] == f && own1 == own - {f}
    requires r.uStart == m.uStart && r.spaces == m.spaces[w := m.spaces[w].(ptes := m.spaces[w].ptes - {i})]
    ensures OwnersInv(r, own1) && PagesInv(r, own1) && TablesInv(r, own1)
  {
    assert PageInv(m, own, w, i);
    forall g | g in own1 ensures OwnerOk(r, g, own1[g]) { assert OwnerOk(m, g, own[g]); }
    forall v, k | v in r.spaces && k in r.spaces[v].ptes ensures PageInv(r, own1, v, k) {
      assert PageInv(m, own, v, k);
    }
  }

  lemma UnmappedOnce(m: Mem, r: Mem, w: Who, i: nat)
    requires Present(m, w, i, 1) && r.kStart == m.kStart && r.uStart == m.uStart
    requires |r.kBits| == |m.kBits| && |r.uBits| == |m.uBits|
    requires r.spaces == m.spaces[w := m.spaces[w].(ptes := m.spaces[w].ptes - {i})]
    requires forall g :: Taken(r, g) <==> Taken(m, g) && g != m.spaces[w].ptes[i]
    ensures Unmapped(m, r, w, i, 1)
  {
    assert r.spaces == m.spaces[w := r.spaces[w]];
  }

  lemma UnmappedTrans(m: Mem, m1: Mem, r: Mem, w: Who, i: nat, n: nat)
    requires Unmapped(m, m1, w, i, 1) && Unmapped(m1, r, w, i + 1, n)
    ensures Unmapped(m, r, w, i, n + 1)
  {
    assert r.spaces == m.spaces[w := r.spaces[w]];
    forall k | i <= k < i + (n + 1) ensures k in m.spaces[w].ptes {}
    forall f ensures Taken(r, f) <==> Taken(m, f) && forall k :: i <= k < i + (n + 1) ==> m.spaces[w].ptes[k] != f {
      assert Taken(r, f) <==> Taken(m1, f) && forall k :: i + 1 <= k < i + 1 + n ==> m1.spaces[w].ptes[k] != f;
      assert forall k :: i + 1 <= k < i + 1 + n ==>
        k in m1.spaces[w].ptes && m1.spaces[w].ptes[k] == m.spaces[w].ptes[k];
    }
  }

  lemma UnmapStep(m: Mem, w: Who, i: nat, own: map<nat, Owner>) returns (own1: map<nat, Owner>)
    requires Inv(m, own, {}) && Present(m, w, i, 1)
    ensures var f := m.spaces[w].ptes[i]; var r := ClearPte(Pfree(m, f), w, i);
      Inv(r, own1, {}) && Unmapped(m, r, w, i, 1) && f % PAGE == 0 && m.kStart <= f && (w.User? <==> f >= m.uStart)
  {
    hide Inv, Unmapped;
    own1 := UnmapOne(m, w, i, own);
    var f := m.spaces[w].ptes[i];
    OwnedPage(m, w, i, own);
    assert Pools(m) by { PoolsOf(m, own); }
    PfreeReleases(m, f);
    UnmappedOnce(m, ClearPte(Pfree(m, f), w, i), w, i);
  }

  lemma PoolsOf(m: Mem, own: map<nat, Owner>)
    requires Inv(m, own, {})
    ensures Pools(m)
  {}

  lemma PresentRest(m: Mem, m1: Mem, w: Who, i: nat, n: nat)
    requires Present(m, w, i, n + 1) && Unmapped(m, m1, w, i, 1)
    ensures Present(m1, w, i + 1, n) && m1.kStart == m.kStart && m1.uStart == m.uStart
  {}

  lemma UnmappedNone(m: Mem, w: Who, i: nat)
    requires w in m.spaces
    ensures Unmapped(m, m, w, i, 0)
  {
    assert m.spaces == m.spaces[w := m.spaces[w]];
  }

  /** No ASSERT of the unmapping loop fires, and the frames go back where they came from. */
  lemma {:induction false} UnmapRunKeeps(m: Mem, w: Who, i: nat, n: nat, own: map<nat, Owner>)
    returns (own1: map<nat, Owner>, r: Mem)
    requires Inv(m, own, {}) && Present(m, w, i, n)
    ensures UnmapRun(m, w, i, n, w.User?) == Ok(r) && Inv(r, own1, {}) && Unmapped(m, r, w, i, n)
    decreases n
  {
    hide Inv, Unmapped, Pfree, ClearPte;
    if n == 0 {
      own1, r := own, m;
      UnmappedNone(m, w, i);
    } else {
      own1 := UnmapStep(m, w, i, own);
      var m1 := ClearPte(Pfree(m, m.spaces[w].ptes[i]), w, i);
      PresentRest(m, m1, w, i, n - 1);
      own1, r := UnmapRunKeeps(m1, w, i + 1, n - 1, own1);
      UnmappedTrans(m, m1, r, w, i, n - 1);
    }
  }

  /** `mfree_page` on present pages never trips an ASSERT and keeps the agreement. */
  lemma MfreeKeeps(m: Mem, w: Who, i: nat, n: nat, own: map<nat, Owner>) returns (own1: map<nat, Owner>, r: Mem)
    requires Inv(m, own, {}) && AllAgree(m) && Present(m, w, i, n) && n >= 1
    ensures MfreePage(m, w, i, n).Ok? && Unmapped(m, r, w, i, n) && w in r.spaces
    ensures MfreePage(m, w, i, n) == Ok(MarkRun(r, w, i, n, false))
    ensures Inv(MarkRun(r, w, i, n, false), own1, {}) && AllAgree(MarkRun(r, w, i, n, false))
  {
    hide Inv, AllAgree, UnmapRun;
    assert Present(m, w, i, 1);
    OwnedPage(m, w, i, own);
    PoolsOf(m, own);
    own1, r := UnmapRunKeeps(m, w, i, n, own);
    MarkRunInv(r, w, i, n, false, own1);
    AgreeAfterUnmap(m, r, w, i, n);
  }

  lemma AgreeAfterUnmap(m: Mem, r: Mem, w: Who, i: nat, n: nat)
    requires AllAgree(m) && Unmapped(m, r, w, i, n)
    ensures AllAgree(MarkRun(r, w, i, n, false))
  {
    var q := MarkRun(r, w, i, n, false);
    assert BitsAgree(m.spaces[w]);
    forall v | v in q.spaces ensures BitsAgree(q.spaces[v]) {
      if v != w { assert q.spaces[v] == m.spaces[v] && BitsAgree(m.spaces[v]); }
    }
  }

  // ---------------------------------------------------------------- free undoes allocate

  lemma SameBits(m: Mem, q: Mem)
    requires Pools(m) && q.kStart == m.kStart && q.uStart == m.uStart && |q.kBits| == |m.kBits|
    requires |q.uBits| == |m.uBits|
    ensures (forall f :: f >= m.uStart ==> Taken(q, f) == Taken(m, f)) ==> q.uBits == m.uBits
    ensures (forall f: nat :: f < m.uStart ==> Taken(q, f) == Taken(m, f)) ==> q.kBits == m.kBits
  {
    if forall f :: f >= m.uStart ==> Taken(q, f) == Taken(m, f) {
      forall j | 0 <= j < |m.uBits| ensures q.uBits[j] == m.uBits[j] { UserBit(m, j); UserBit(q, j); }
    }
    if forall f: nat :: f < m.uStart ==> Taken(q, f) == Taken(m, f) {
      forall j | 0 <= j < |m.kBits| ensures q.kBits[j] == m.kBits[j] { KernelBit(m, j); KernelBit(q, j); }
    }
  }

  lemma UserBit(m: Mem, j: nat)
    requires m.kStart + PAGE * |m.kBits| <= m.uStart && j < |m.uBits|
    ensures Taken(m, m.uStart + PAGE * j) == m.uBits[j]
  {}

  lemma KernelBit(m: Mem, j: nat)
    requires m.kStart + PAGE * |m.kBits| <= m.uStart && j < |m.kBits|
    ensures Taken(m, m.kStart + PAGE * j) == m.kBits[j] && m.kStart + PAGE * j < m.uStart
  {}

  /** Frames after allocating and freeing: those before, plus page tables kept by a process. */
  lemma TakenAfterUndo(m: Mem, r: Mem, r1: Mem, q: Mem, w: Who, i: nat, n: nat, fs: set<nat>, f: nat)
    requires Allocated(m, r, w, i, n, fs) && Unmapped(r, r1, w, i, n) && w in r1.spaces
    requires q == MarkRun(r1, w, i, n, false)
    requires forall k :: k in r.spaces[w].ptes ==> (w.User? <==> r.spaces[w].ptes[k] >= m.uStart)
    ensures Taken(m, f) ==> Taken(q, f)
    ensures w.Kernel? || f >= m.uStart ==> Taken(q, f) == Taken(m, f)
  {
    TakenBits(r1, q, f);
    assert MappedSpace(MarkRun(m, w, i, n, true).spaces[w], r.spaces[w], w, i, n, fs, m.uStart);
  }

  /** `mfree_page` after `malloc_page` restores the virtual bitmap, the page table and the user pool of any
      address space, and for the kernel everything. */
  lemma FreeUndoesAllocate(m: Mem, w: Who, n: nat, r: Mem, i: nat, own: map<nat, Owner>)
    requires Inv(m, own, {}) && AllAgree(m) && w in m.spaces && MallocPage(m, w, n) == Ok((r, i))
    ensures w in r.spaces && MfreePage(r, w, i, n).Ok?
    ensures var q := MfreePage(r, w, i, n).value;
      && w in q.spaces && q.uBits == m.uBits && q.spaces == m.spaces[w := q.spaces[w]]
      && q.spaces[w].vbits == m.spaces[w].vbits && q.spaces[w].ptes == m.spaces[w].ptes
      && (forall f :: Taken(m, f) ==> Taken(q, f))
      && (w.Kernel? ==> q == m)
  {
    assert BitsAgree(m.spaces[w]);
    hide Inv, AllAgree, MallocPage, MfreePage;
    var own1, fs := MallocKeeps(m, w, n, r, i, own);
    assert Present(r, w, i, n) && n >= 1 by { AllocPresent(m, w, n, r, i, fs); }
    var own2, r1 := MfreeKeeps(r, w, i, n, own1);
    var q := MarkRun(r1, w, i, n, false);
    PoolsOf(m, own);
    forall k | k in r.spaces[w].ptes ensures w.User? <==> r.spaces[w].ptes[k] >= m.uStart {
      OwnedPage(r, w, k, own1);
    }
    forall f: nat ensures (Taken(m, f) ==> Taken(q, f)) && (w.Kernel? || f >= m.uStart ==> Taken(q, f) == Taken(m, f)) {
      TakenAfterUndo(m, r, r1, q, w, i, n, fs, f);
    }
    SameBits(m, q);
    UndoSpace(m, r, r1, q, w, i, n, fs);
  }

  lemma AllocPresent(m: Mem, w: Who, n: nat, r: Mem, i: nat, fs: set<nat>)
    requires w in m.spaces && |m.spaces[w].vbits| > 0 && MallocPage(m, w, n) == Ok((r, i))
    requires Allocated(m, r, w, i, n, fs)
    ensures n >= 1 && Present(r, w, i, n) && i in r.spaces[w].ptes
  {}

  lemma UndoSpace(m: Mem, r: Mem, r1: Mem, q: Mem, w: Who, i: nat, n: nat, fs: set<nat>)
    requires Allocated(m, r, w, i, n, fs) && Unmapped(r, r1, w, i, n) && w in r1.spaces
    requires q == MarkRun(r1, w, i, n, false)
    ensures q.spaces == m.spaces[w := q.spaces[w]]
    ensures q.spaces[w].vbits == m.spaces[w].vbits && q.spaces[w].ptes == m.spaces[w].ptes
    ensures w.Kernel? ==> q.spaces[w].tables == m.spaces[w].tables && q.spaces == m.spaces
  {
    hide Taken;
    MarkUndo(m.spaces[w].vbits, i, n);
    var m1 := MarkRun(m, w, i, n, true);
    assert m1.spaces == m.spaces[w := m1.spaces[w]];
    assert q.spaces[w].ptes == m.spaces[w].ptes;
    if w.Kernel? { assert q.spaces[w] == m.spaces[w]; }
  }

  // ---------------------------------------------------------------- initial state

  /** `mem_pool_init` for `allMem` bytes of memory, in 32-bit arithmetic with 16-bit page counts. */
  function MemPoolInit(allMem: nat): Mem {
    var used := PAGE * 256 + 0x10_0000;
    var free := (allMem - used) % 0x1_0000_0000;
    var allPages := (free / PAGE) % 0x1_0000;
    var kPages := allPages / 2;
    var uPages := allPages - kPages;
    var kBytes := kPages / 8;
    Mem(used, used + kPages * PAGE, seq(8 * kBytes, _ => false), seq(8 * (uPages / 8), _ => false),
        map[Kernel := Space(seq(8 * kBytes + 1, _ => false), map[], map[])])
  }

  /** Both pools start empty, are disjoint, and the three structures agree, whatever the memory size. */
  lemma InitAgrees(allMem: nat)
    ensures Inv(MemPoolInit(allMem), map[], {}) && AllAgree(MemPoolInit(allMem))
  {
    var m := MemPoolInit(allMem);
    forall f ensures !Taken(m, f) {}
  }

  /** Every frame lies inside the memory exactly when there are at least two megabytes: below that the
      subtraction wraps around. */
  lemma PoolsInMemory(allMem: nat)
    requires allMem < 0x1_0000_0000
    ensures var m := MemPoolInit(allMem);
      m.uStart + PAGE * |m.uBits| <= allMem <==> allMem >= 0x20_0000
  {
  }

  // ---------------------------------------------------------------- runs

  datatype Op =
    | Alloc(w: Who, n: nat)               // malloc_page
    | Free(w: Who, i: nat, n: nat)        // mfree_page of present pages
    | At(w: Who, i: nat)                  // get_a_page
    | NewProcess(pid: nat)                // create_user_vaddr_bitmap and create_page_dir
    | Fork(parent: nat, child: nat)       // copy_pcb_vaddrbitmap_stack0, create_page_dir and copy_body_stack3

  ghost predicate ValidOp(m: Mem, op: Op) {
    match op
    case Alloc(w, _) => w in m.spaces
    case Free(w, i, n) => n >= 1 && Present(m, w, i, n)
    case At(w, i) => w in m.spaces && i < |m.spaces[w].vbits|
    case NewProcess(pid) => User(pid) !in m.spaces
    case Fork(p, c) => User(p) in m.spaces && User(c) !in m.spaces
  }

  ghost function Do(m: Mem, op: Op): Outcome<Mem>
    requires ValidOp(m, op)
  {
    match op
    case Alloc(w, n) =>
      if |m.spaces[w].vbits| == 0 then Halt
      else (match MallocPage(m, w, n) case Ok((r, _)) => Ok(r) case Null => Ok(m) case Halt => Halt)
    case Free(w, i, n) => MfreePage(m, w, i, n)
    case At(w, i) => GetAPage(m, w, i)
    case NewProcess(pid) => Ok(WithProcess(m, pid, ClearBits()))
    case Fork(p, c) => ForkMem(m, p, c)
  }

  /** `fork`, as far as the memory is concerned. */
  function ForkMem(m: Mem, p: nat, c: nat): Outcome<Mem>
    requires User(p) in m.spaces
  {
    var bits := m.spaces[User(p)].vbits;
    if |bits| < USER_PAGES then Halt else CopyMaps(WithProcess(m, c, bits), c, bits, USER_PAGES)
  }

  function ClearBits(): (b: seq<bool>)
    ensures |b| == USER_PAGES + 1 && forall k :: 0 <= k < |b| ==> !b[k]
  {
    seq(USER_PAGES + 1, _ => false)
  }

  /** A process with no page of its own yet: `create_page_dir` copies the kernel half only. */
  function WithProcess(m: Mem, pid: nat, vbits: seq<bool>): Mem {
    m.(spaces := m.spaces[User(pid) := Space(vbits, map[], map[])])
  }

  /** The memory part of `copy_body_stack3` for the first `n` bits of the parent's bitmap. */
  function CopyMaps(m: Mem, c: nat, bits: seq<bool>, n: nat): (r: Outcome<Mem>)
    requires User(c) in m.spaces && n <= |bits|
    ensures !r.Null? && (r.Ok? ==> r.value.spaces.Keys == m.spaces.Keys)
  {
    if n == 0 then Ok(m)
    else match CopyMaps(m, c, bits, n - 1)
      case Ok(m1) => if bits[n - 1] then MapPage(m1, User(c), n - 1) else Ok(m1)
      case _ => Halt
  }

  lemma GetAPageKeeps(m: Mem, w: Who, i: nat, r: Mem, own: map<nat, Owner>) returns (own1: map<nat, Owner>)
    requires Inv(m, own, {}) && AllAgree(m) && w in m.spaces && i < |m.spaces[w].vbits| && GetAPage(m, w, i) == Ok(r)
    ensures Inv(r, own1, {}) && AllAgree(r)
  {
    hide Inv, Mapped, MapPage, AllAgree;
    MarkRunInv(m, w, i, 1, true, own);
    var m1 := MarkRun(m, w, i, 1, true);
    var fs;
    own1, fs := MapPageKeeps(m1, w, i, own);
    AgreeAfterMap(m, m1, r, w, i, 1, fs);
  }

  lemma NewProcessKeeps(m: Mem, pid: nat, own: map<nat, Owner>)
    requires Inv(m, own, {}) && AllAgree(m) && User(pid) !in m.spaces
    ensures Inv(WithProcess(m, pid, ClearBits()), own, {}) && AllAgree(WithProcess(m, pid, ClearBits()))
  {
    var r := WithProcess(m, pid, ClearBits());
    WithProcessInv(m, pid, ClearBits(), own);
    hide Inv;
    forall v | v in r.spaces ensures BitsAgree(r.spaces[v]) {
      if v != User(pid) { assert BitsAgree(m.spaces[v]); }
    }
  }

  lemma WithProcessInv(m: Mem, pid: nat, vbits: seq<bool>, own: map<nat, Owner>)
    requires Inv(m, own, {}) && User(pid) !in m.spaces
    ensures Inv(WithProcess(m, pid, vbits), own, {})
    ensures forall f :: Taken(WithProcess(m, pid, vbits), f) == Taken(m, f)
  {
    var r := WithProcess(m, pid, vbits);
    forall f ensures Taken(r, f) == Taken(m, f) { TakenBits(m, r, f); }
    forall g | g in own ensures OwnerOk(r, g, own[g]) { assert OwnerOk(m, g, own[g]); }
    forall v, k | v in r.spaces && k in r.spaces[v].ptes ensures PageInv(r, own, v, k) { assert PageInv(m, own, v, k); }
  }

  /** Process `c`, which had no page, has those of the first `n` whose bits are set, each in a frame that was free. */
  ghost predicate Copied(m: Mem, r: Mem, c: nat, bits: seq<bool>, n: nat) {
    && n <= |bits| && User(c) in m.spaces && User(c) in r.spaces
    && r.spaces == m.spaces[User(c) := r.spaces[User(c)]] && r.spaces[User(c)].vbits == m.spaces[User(c)].vbits
    && (forall k :: k in r.spaces[User(c)].ptes <==> 0 <= k < n && bits[k])
    && (forall k :: k in r.spaces[User(c)].ptes ==> !Taken(m, r.spaces[User(c)].ptes[k]))
    && (forall f :: Taken(m, f) ==> Taken(r, f))
  }

  lemma CopiedNone(m: Mem, c: nat, bits: seq<bool>)
    requires User(c) in m.spaces && m.spaces[User(c)].ptes == map[]
    ensures Copied(m, m, c, bits, 0)
  {
    assert m.spaces == m.spaces[User(c) := m.spaces[User(c)]];
  }

  lemma CopiedSkip(m: Mem, r: Mem, c: nat, bits: seq<bool>, n: nat)
    requires Copied(m, r, c, bits, n) && n < |bits| && !bits[n]
    ensures Copied(m, r, c, bits, n + 1)
  {
    hide Taken;
  }

  lemma CopiedMore(m: Mem, u: Mem, r: Mem, c: nat, bits: seq<bool>, n: nat, fs: set<nat>)
    requires Copied(m, u, c, bits, n) && n < |bits| && bits[n] && Mapped(u, r, User(c), n, 1, fs)
    ensures Copied(m, r, c, bits, n + 1)
  {
    hide Taken;
    assert MappedSpace(u.spaces[User(c)], r.spaces[User(c)], User(c), n, 1, fs, u.uStart);
    assert r.spaces == m.spaces[User(c) := r.spaces[User(c)]];
  }

  lemma {:induction false} CopyMapsKeeps(m: Mem, c: nat, bits: seq<bool>, n: nat, r: Mem, own: map<nat, Owner>)
    returns (own1: map<nat, Owner>)
    requires Inv(m, own, {}) && User(c) in m.spaces && m.spaces[User(c)].ptes == map[] && n <= |bits|
    requires CopyMaps(m, c, bits, n) == Ok(r)
    ensures Inv(r, own1, {}) && Copied(m, r, c, bits, n)
  {
    hide Inv, Copied, MapPage, Mapped;
    own1 := own;
    if n == 0 {
      CopiedNone(m, c, bits);
    } else {
      var u := CopyMaps(m, c, bits, n - 1).value;
      own1 := CopyMapsKeeps(m, c, bits, n - 1, u, own);
      if bits[n - 1] {
        var fs;
        own1, fs := MapPageKeeps(u, User(c), n - 1, own1);
        CopiedMore(m, u, r, c, bits, n - 1, fs);
      } else {
        CopiedSkip(m, r, c, bits, n - 1);
      }
    }
  }

  lemma PageAllowed(m: Mem, w: Who, k: nat, own: map<nat, Owner>)
    requires Inv(m, own, {}) && w in m.spaces && k in m.spaces[w].ptes
    ensures Allowed(w, k)
  {
    hide OwnersInv, TablesInv, FramesInv, Allowed;
    assert PageInv(m, own, w, k);
  }

  /** No process has the page at 0xc0000000, nor its bit. */
  lemma TopPageAbsent(m: Mem, p: nat, own: map<nat, Owner>)
    requires Inv(m, own, {}) && AllAgree(m) && User(p) in m.spaces
    ensures |m.spaces[User(p)].vbits| == USER_PAGES + 1
    ensures USER_PAGES !in m.spaces[User(p)].ptes && !m.spaces[User(p)].vbits[USER_PAGES]
  {
    hide Inv;
    assert BitsAgree(m.spaces[User(p)]);
    forall k | k in m.spaces[User(p)].ptes ensures Allowed(User(p), k) { PageAllowed(m, User(p), k, own); }
    assert !Allowed(User(p), USER_PAGES);
  }

  /** `fork` keeps the agreement in every address space, and the child has exactly the parent's pages, in frames that
      were free. */
  lemma ForkKeeps(m: Mem, p: nat, c: nat, r: Mem, own: map<nat, Owner>) returns (own1: map<nat, Owner>)
    requires Inv(m, own, {}) && AllAgree(m) && User(p) in m.spaces && User(c) !in m.spaces && ForkMem(m, p, c) == Ok(r)
    ensures Inv(r, own1, {}) && AllAgree(r) && p != c && User(p) in r.spaces && User(c) in r.spaces
    ensures r.spaces == m.spaces[User(c) := r.spaces[User(c)]]
    ensures r.spaces[User(c)].vbits == m.spaces[User(p)].vbits
    ensures r.spaces[User(c)].ptes.Keys == m.spaces[User(p)].ptes.Keys
    ensures forall k :: k in r.spaces[User(c)].ptes ==> !Taken(m, r.spaces[User(c)].ptes[k])
  {
    hide Inv, CopyMaps, AllAgree, Copied;
    var bits := m.spaces[User(p)].vbits;
    var m1 := WithProcess(m, c, bits);
    TopPageAbsent(m, p, own);
    WithProcessInv(m, c, bits, own);
    own1 := CopyMapsKeeps(m1, c, bits, USER_PAGES, r, own);
    ForkAgrees(m, p, c, m1, r);
  }

  lemma ForkAgrees(m: Mem, p: nat, c: nat, m1: Mem, r: Mem)
    requires AllAgree(m) && User(p) in m.spaces && User(c) !in m.spaces
    requires m1 == WithProcess(m, c, m.spaces[User(p)].vbits)
    requires |m.spaces[User(p)].vbits| == USER_PAGES + 1 && !m.spaces[User(p)].vbits[USER_PAGES]
    requires Copied(m1, r, c, m.spaces[User(p)].vbits, USER_PAGES) && forall f :: Taken(m1, f) == Taken(m, f)
    ensures AllAgree(r) && User(p) in r.spaces && User(c) in r.spaces
    ensures r.spaces == m.spaces[User(c) := r.spaces[User(c)]]
    ensures r.spaces[User(c)].vbits == m.spaces[User(p)].vbits
    ensures r.spaces[User(c)].ptes.Keys == m.spaces[User(p)].ptes.Keys
    ensures forall k :: k in r.spaces[User(c)].ptes ==> !Taken(m, r.spaces[User(c)].ptes[k])
  {
    hide Taken, BitsAgree;
    SamePages(m.spaces[User(p)], r.spaces[User(c)]);
    assert r.spaces == m.spaces[User(c) := r.spaces[User(c)]];
    forall w | w in r.spaces && w != User(c) ensures r.spaces[w] == m.spaces[w] {}
  }

  lemma SamePages(a: Space, b: Space)
    requires BitsAgree(a) && |a.vbits| == USER_PAGES + 1 && !a.vbits[USER_PAGES] && b.vbits == a.vbits
    requires forall k :: k in b.ptes <==> 0 <= k < USER_PAGES && a.vbits[k]
    ensures BitsAgree(b) && b.ptes.Keys == a.ptes.Keys
  {
  }

  lemma DoKeeps(m: Mem, op: Op, r: Mem, own: map<nat, Owner>) returns (own1: map<nat, Owner>)
    requires Inv(m, own, {}) && AllAgree(m) && ValidOp(m, op) && Do(m, op) == Ok(r)
    ensures Inv(r, own1, {}) && AllAgree(r)
  {
    hide Inv, AllAgree, MallocPage, MfreePage, GetAPage, ForkMem;
    own1 := own;
    match op
    case Alloc(w, n) =>
      if MallocPage(m, w, n).Ok? {
        var fs;
        own1, fs := MallocKeeps(m, w, n, r, MallocPage(m, w, n).value.1, own);
      }
    case Free(w, i, n) =>
      var q;
      own1, q := MfreeKeeps(m, w, i, n, own);
    case At(w, i) => own1 := GetAPageKeeps(m, w, i, r, own);
    case NewProcess(pid) => NewProcessKeeps(m, pid, own);
    case Fork(p, c) => own1 := ForkKeeps(m, p, c, r, own);
  }

  /** The states of a run that has not halted. */
  ghost predicate IsRun(ms: seq<Mem>, ops: seq<Op>) {
    && |ms| == |ops| + 1
    && (exists allMem :: ms[0] == MemPoolInit(allMem))
    && forall k :: 0 <= k < |ops| ==> ValidOp(ms[k], ops[k]) && Do(ms[k], ops[k]) == Ok(ms[k + 1])
  }

  lemma {:induction false} RunOwners(ms: seq<Mem>, ops: seq<Op>, k: nat) returns (own: map<nat, Owner>)
    requires IsRun(ms, ops) && k < |ms|
    ensures Inv(ms[k], own, {}) && AllAgree(ms[k])
  {
    hide Inv, AllAgree, Do, MemPoolInit;
    if k == 0 {
      var allMem :| ms[0] == MemPoolInit(allMem);
      InitAgrees(allMem);
      own := map[];
    } else {
      own := RunOwners(ms, ops, k - 1);
      own := DoKeeps(ms[k - 1], ops[k - 1], ms[k], own);
    }
  }

  /** In every reachable state: a virtual bit is set exactly when the page is present; every present page has
      an allocated frame, of the right pool, that no other page uses and that is no page table; every allocated
      frame is in use; and no process has the page at the start of the kernel's half. */
  lemma RunAgrees(ms: seq<Mem>, ops: seq<Op>, k: nat)
    requires IsRun(ms, ops) && k < |ms|
    ensures var m := ms[k];
      && (forall w, i :: w in m.spaces && 0 <= i < |m.spaces[w].vbits| ==>
        (m.spaces[w].vbits[i] <==> i in m.spaces[w].ptes))
      && (forall w, i :: w in m.spaces && i in m.spaces[w].ptes ==>
            Taken(m, m.spaces[w].ptes[i]) && (w.User? <==> m.spaces[w].ptes[i] >= m.uStart))
      && (forall w, i, v, j :: w in m.spaces && v in m.spaces && i in m.spaces[w].ptes && j in m.spaces[v].ptes ==>
            m.spaces[w].ptes[i] == m.spaces[v].ptes[j] ==> w == v && i == j)
      && (forall w, i, v, d :: w in m.spaces && v in m.spaces && i in m.spaces[w].ptes && d in m.spaces[v].tables ==>
            m.spaces[w].ptes[i] != m.spaces[v].tables[d])
      && (forall f :: Taken(m, f) ==>
            (exists w, i :: w in m.spaces && i in m.spaces[w].ptes && m.spaces[w].ptes[i] == f) ||
            (exists w, d :: w in m.spaces && d in m.spaces[w].tables && m.spaces[w].tables[d] == f))
      && (forall w :: w in m.spaces && w.User? ==>
            && |m.spaces[w].vbits| == USER_PAGES + 1
            && USER_PAGES !in m.spaces[w].ptes && !m.spaces[w].vbits[USER_PAGES])
  {
    var own := RunOwners(ms, ops, k);
    var m := ms[k];
    hide Taken;
    forall w, i | w in m.spaces && i in m.spaces[w].ptes
      ensures Taken(m, m.spaces[w].ptes[i]) && (w.User? <==> m.spaces[w].ptes[i] >= m.uStart)
    {
      assert PageInv(m, own, w, i) && OwnerOk(m, m.spaces[w].ptes[i], own[m.spaces[w].ptes[i]]);
    }
    forall w, i, v, j | w in m.spaces && v in m.spaces && i in m.spaces[w].ptes && j in m.spaces[v].ptes &&
        m.spaces[w].ptes[i] == m.spaces[v].ptes[j]
      ensures w == v && i == j
    {
      assert PageInv(m, own, w, i) && PageInv(m, own, v, j);
    }
    forall w, i, v, d | w in m.spaces && v in m.spaces && i in m.spaces[w].ptes && d in m.spaces[v].tables
      ensures m.spaces[w].ptes[i] != m.spaces[v].tables[d]
    {
      assert PageInv(m, own, w, i);
    }
    forall f | Taken(m, f)
      ensures (exists w, i :: w in m.spaces && i in m.spaces[w].ptes && m.spaces[w].ptes[i] == f) ||
              (exists w, d :: w in m.spaces && d in m.spaces[w].tables && m.spaces[w].tables[d] == f)
    {
      assert OwnerOk(m, f, own[f]);
    }
    forall w, i | w in m.spaces && 0 <= i < |m.spaces[w].vbits|
      ensures m.spaces[w].vbits[i] <==> i in m.spaces[w].ptes
    {
      assert BitsAgree(m.spaces[w]);
    }
    forall w | w in m.spaces && w.User?
      ensures |m.spaces[w].vbits| == USER_PAGES + 1 && USER_PAGES !in m.spaces[w].ptes && !m.spaces[w].vbits[USER_PAGES]
    {
      TopPageAbsent(m, w.pid, own);
    }
  }
}
