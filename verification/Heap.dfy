/** memory.c, `sys_malloc` and `sys_free`: seven size classes of blocks carved out of one-page arenas, and
    whole pages for larger requests.

    An arena header of 12 bytes sits at the start of its page; a block is found in its arena by rounding its
    address down to the page. `Heap` is a value of the allocator's variables for one owner, the kernel or a
    process; the class `Allocator` changes them with the loops of the source. */
module Heaps {
  import opened Bitmaps
  import opened Outcomes
  import opened Sequences
  import opened Paging

  const HEADER := 12
  const DESC_CNT := 7

  /** `Small`: size class and number of free blocks; `Large`: number of pages. */
  datatype Arena = Small(desc: nat, cnt: int) | Large(pages: nat)

  /** `free` has one list of block addresses per size class; `arenas` is keyed by page address. */
  datatype Heap = Heap(mem: Mem, w: Who, poolSize: nat, free: seq<seq<nat>>, arenas: map<nat, Arena>)

  function BlockSize(d: nat): nat {
    match d case 0 => 16 case 1 => 32 case 2 => 64 case 3 => 128 case 4 => 256 case 5 => 512 case _ => 1024
  }

  function BlocksPer(d: nat): nat { (PAGE - HEADER) / BlockSize(d) }

  /** `arena2block`. */
  function BlockAddr(a: nat, d: nat, k: nat): nat { a + HEADER + k * BlockSize(d) }

  /** `block2arena`: the address with its low twelve bits cleared. */
  function ArenaOf(b: nat): nat { b - b % PAGE }

  function PageIndex(w: Who, a: nat): nat
    requires a >= Vaddr(w, 0)
  {
    (a - Vaddr(w, 0)) / PAGE
  }

  /** The first class whose blocks are large enough. */
  function ClassOf(size: nat): (d: nat)
    requires size <= 1024
    ensures d < DESC_CNT && size <= BlockSize(d) && (d > 0 ==> BlockSize(d - 1) < size)
  {
    if size <= 16 then 0 else if size <= 32 then 1 else if size <= 64 then 2 else if size <= 128 then 3
    else if size <= 256 then 4 else if size <= 512 then 5 else 6
  }

  /** The blocks of an arena, in the order they are put on the free list. */
  function BlockSeq(a: nat, d: nat, n: nat): seq<nat> { seq(n, k requires 0 <= k => BlockAddr(a, d, k)) }

  /** The list without the blocks of arena `a`. */
  function Without(list: seq<nat>, a: nat): seq<nat> {
    if list == [] then []
    else if ArenaOf(list[0]) == a then Without(list[1..], a)
    else [list[0]] + Without(list[1..], a)
  }

  // ---------------------------------------------------------------- what the routines do

  /** Pop a block and count it off its arena. */
  function TakeBlock(h: Heap, d: nat): Outcome<(Heap, nat)>
    requires d < |h.free| && h.free[d] != []
  {
    var b := h.free[d][0];
    var a := ArenaOf(b);
    if a in h.arenas && h.arenas[a].Small? then
      var arenas := h.arenas[a := h.arenas[a].(cnt := h.arenas[a].cnt - 1)];
      Ok((h.(free := h.free[d := h.free[d][1..]], arenas := arenas), b))
    else Halt
  }

  function NewArena(h: Heap, m: Mem, a: nat, d: nat): Heap
    requires d < |h.free|
  {
    h.(mem := m, free := h.free[d := h.free[d] + BlockSeq(a, d, BlocksPer(d))],
       arenas := h.arenas[a := Small(d, BlocksPer(d))])
  }

  ghost predicate Ready(h: Heap) {
    |h.free| == DESC_CNT && h.w in h.mem.spaces && |h.mem.spaces[h.w].vbits| > 0
  }

  ghost function SysMalloc(h: Heap, size: nat): Outcome<(Heap, nat)>
    requires Ready(h)
  {
    if !(0 < size < h.poolSize) then Null
    else if size > 1024 then
      var n := (size + HEADER + PAGE - 1) / PAGE;
      match MallocPage(h.mem, h.w, n)
      case Ok((m, i)) => Ok((h.(mem := m, arenas := h.arenas[Vaddr(h.w, i) := Large(n)]), Vaddr(h.w, i) + HEADER))
      case Null => Null
      case Halt => Halt
    else
      var d := ClassOf(size);
      if h.free[d] != [] then TakeBlock(h, d)
      else match MallocPage(h.mem, h.w, 1)
        case Ok((m, i)) =>
          var h1 := NewArena(h, m, Vaddr(h.w, i), d);
          if h1.free[d] == [] then Halt else TakeBlock(h1, d)
        case Null => Null
        case Halt => Halt
  }

  /** The arena's pages go back to the page allocator. */
  ghost function DropArena(h: Heap, a: nat, n: nat): Outcome<Heap>
    requires h.w in h.mem.spaces
  {
    if a < Vaddr(h.w, 0) then Halt
    else match MfreePage(h.mem, h.w, PageIndex(h.w, a), n)
      case Ok(m) => Ok(h.(mem := m, arenas := h.arenas - {a}))
      case _ => Halt
  }

  ghost function SysFree(h: Heap, ptr: nat): Outcome<Heap>
    requires Ready(h)
  {
    var a := ArenaOf(ptr);
    if ptr == 0 || (h.w.Kernel? && ptr <= K_HEAP_START) || a !in h.arenas then Halt
    else match h.arenas[a]
      case Large(n) => DropArena(h, a, n)
      case Small(d, cnt) =>
        if d >= |h.free| then Halt
        else
          var list := h.free[d] + [ptr];
          if cnt + 1 == BlocksPer(d) then
            DropArena(h.(free := h.free[d := Without(list, a)]), a, 1)
          else
            Ok(h.(free := h.free[d := list], arenas := h.arenas[a := Small(d, cnt + 1)]))
  }

  // ---------------------------------------------------------------- invariant

  ghost function Blocks(a: nat, d: nat): set<nat> {
    set k: nat {:trigger BlockAddr(a, d, k)} | k < BlocksPer(d) :: BlockAddr(a, d, k)
  }

  /** The addresses of `xs` that lie in the page at `a`. */
  ghost function InArena(xs: set<nat>, a: nat): set<nat> {
    set x | x in xs && ArenaOf(x) == a
  }

  ghost function Elems(list: seq<nat>): set<nat> {
    set x | x in list
  }

  /** The blocks of arena `a` are split into those on the free list, which `cnt` counts, and the live ones. */
  ghost predicate Split(list: seq<nat>, d: nat, cnt: int, live: set<nat>, a: nat) {
    var f := InArena(Elems(list), a);
    Blocks(a, d) == f + InArena(live, a) && f !! InArena(live, a) && cnt == |f|
  }

  ghost predicate ArenaSplit(free: seq<seq<nat>>, arena: Arena, live: set<nat>, a: nat)
    requires |free| == DESC_CNT
  {
    match arena
    case Small(d, cnt) => d < DESC_CNT && Split(free[d], d, cnt, live, a)
    case Large(n) => n >= 1 && InArena(live, a) == {a + HEADER}
  }

  /** Moreover a small arena is never entirely free. */
  ghost predicate ArenaInv(free: seq<seq<nat>>, arena: Arena, live: set<nat>, a: nat)
    requires |free| == DESC_CNT
  {
    ArenaSplit(free, arena, live, a) && (arena.Small? ==> arena.cnt < BlocksPer(arena.desc))
  }

  function Pages(x: Arena): nat { if x.Large? then x.pages else 1 }

  /** The pages of the arenas are allocated, and no two arenas share one. */
  ghost predicate SpanInv(h: Heap)
    requires h.w in h.mem.spaces
  {
    && (forall a :: a in h.arenas ==>
          && a >= Vaddr(h.w, 0) && a % PAGE == 0 && Pages(h.arenas[a]) >= 1
          && PageIndex(h.w, a) + Pages(h.arenas[a]) <= |h.mem.spaces[h.w].vbits|
          && forall k :: PageIndex(h.w, a) <= k < PageIndex(h.w, a) + Pages(h.arenas[a]) ==> h.mem.spaces[h.w].vbits[k])
    && (forall a, b :: a in h.arenas && b in h.arenas && a < b ==> a + PAGE * Pages(h.arenas[a]) <= b)
  }

  ghost predicate ListInv(h: Heap, live: set<nat>) {
    && |h.free| == DESC_CNT
    && (forall d :: 0 <= d < DESC_CNT ==> NoDup(h.free[d]))
    && (forall d: nat, x: nat :: 0 <= d < DESC_CNT && x in h.free[d] ==>
          ArenaOf(x) in h.arenas && h.arenas[ArenaOf(x)].Small? && h.arenas[ArenaOf(x)].desc == d)
    && (forall x :: x in live ==> ArenaOf(x) in h.arenas)
  }

  ghost predicate MemOk(m: Mem) {
    AllAgree(m) && exists own :: Inv(m, own, {})
  }

  ghost predicate HeapInv(h: Heap, live: set<nat>) {
    && MemOk(h.mem) && Ready(h) && ListInv(h, live) && SpanInv(h)
    && forall a :: a in h.arenas ==> ArenaInv(h.free, h.arenas[a], live, a)
  }

  // ---------------------------------------------------------------- geometry

  lemma RoundDown(a: nat, off: nat)
    requires a % PAGE == 0 && off < PAGE
    ensures ArenaOf(a + off) == a
  {}

  lemma BlockFits(d: nat, k: nat)
    requires k < BlocksPer(d)
    ensures HEADER + k * BlockSize(d) + BlockSize(d) <= PAGE
  {
    match d case 0 => case 1 => case 2 => case 3 => case 4 => case 5 => case _ =>
  }

  /** Blocks lie behind the header, inside their page, and `block2arena` finds the page. */
  lemma BlockGeometry(a: nat, d: nat, k: nat)
    requires a % PAGE == 0 && k < BlocksPer(d)
    ensures ArenaOf(BlockAddr(a, d, k)) == a
    ensures a + HEADER <= BlockAddr(a, d, k) && BlockAddr(a, d, k) + BlockSize(d) <= a + PAGE
  {
    BlockFits(d, k);
    RoundDown(a, HEADER + k * BlockSize(d));
  }

  /** Different blocks of an arena do not overlap. */
  lemma BlocksApart(a: nat, d: nat, j: nat, k: nat)
    requires j < k
    ensures BlockAddr(a, d, j) + BlockSize(d) <= BlockAddr(a, d, k)
  {
    match d case 0 => case 1 => case 2 => case 3 => case 4 => case 5 => case _ =>
  }

  ghost function Prefix(a: nat, d: nat, n: nat): set<nat> {
    set k: nat {:trigger BlockAddr(a, d, k)} | k < n :: BlockAddr(a, d, k)
  }

  lemma {:induction false} PrefixCount(a: nat, d: nat, n: nat)
    ensures |Prefix(a, d, n)| == n
  {
    if n == 0 {
      assert Prefix(a, d, 0) == {};
    } else {
      PrefixCount(a, d, n - 1);
      var x := BlockAddr(a, d, n - 1);
      forall k: nat | k < n - 1 ensures BlockAddr(a, d, k) != x { BlocksApart(a, d, k, n - 1); }
      assert Prefix(a, d, n) == Prefix(a, d, n - 1) + {x};
    }
  }

  lemma BlockCount(a: nat, d: nat)
    ensures |Blocks(a, d)| == BlocksPer(d)
  {
    PrefixCount(a, d, BlocksPer(d));
    assert Blocks(a, d) == Prefix(a, d, BlocksPer(d));
  }

  lemma BlocksInArena(a: nat, d: nat)
    requires a % PAGE == 0
    ensures forall x :: x in Blocks(a, d) ==> ArenaOf(x) == a
  {
    forall x | x in Blocks(a, d) ensures ArenaOf(x) == a {
      var k: nat :| k < BlocksPer(d) && x == BlockAddr(a, d, k);
      BlockGeometry(a, d, k);
    }
  }

  // ---------------------------------------------------------------- lists

  lemma PopElems(list: seq<nat>)
    requires list != [] && NoDup(list)
    ensures Elems(list[1..]) == Elems(list) - {list[0]} && NoDup(list[1..]) && list[0] in Elems(list)
  {
    forall x | x in list && x != list[0] ensures x in list[1..] {
      var i :| 0 <= i < |list| && list[i] == x;
      assert list[1..][i - 1] == x;
    }
    assert list[0] !in list[1..];
  }

  lemma AppendElems(list: seq<nat>, x: nat)
    requires NoDup(list) && x !in list
    ensures Elems(list + [x]) == Elems(list) + {x} && NoDup(list + [x])
  {
  }

  lemma {:induction false} WithoutElems(list: seq<nat>, a: nat)
    requires NoDup(list)
    ensures NoDup(Without(list, a))
    ensures forall x :: x in Without(list, a) <==> x in list && ArenaOf(x) != a
  {
    if list != [] {
      var rest := Without(list[1..], a);
      WithoutElems(list[1..], a);
      assert forall x :: x in list <==> x == list[0] || x in list[1..];
      if ArenaOf(list[0]) != a {
        assert forall x :: x in Without(list, a) <==> x == list[0] || x in rest;
        assert list[0] !in list[1..];
      }
    }
  }

  lemma BlockSeqElems(a: nat, d: nat)
    ensures Elems(BlockSeq(a, d, BlocksPer(d))) == Blocks(a, d) && NoDup(BlockSeq(a, d, BlocksPer(d)))
  {
    var n := BlocksPer(d);
    var q := BlockSeq(a, d, n);
    forall i, j | 0 <= i < j < |q| ensures q[i] != q[j] { BlocksApart(a, d, i, j); }
    forall x ensures x in Elems(q) <==> x in Blocks(a, d) {
      if x in Elems(q) {
        var i :| 0 <= i < |q| && q[i] == x;
        assert x == BlockAddr(a, d, i);
      }
      if x in Blocks(a, d) {
        var k: nat :| k < n && x == BlockAddr(a, d, k);
        assert q[k] == x;
      }
    }
  }

  // ---------------------------------------------------------------- one arena

  /** The free lists hold the same blocks outside the page at `a`. */
  ghost predicate SameElsewhere(free: seq<seq<nat>>, free1: seq<seq<nat>>, a: nat)
    requires |free| == DESC_CNT && |free1| == DESC_CNT
  {
    forall d: nat, x: nat :: d < DESC_CNT && ArenaOf(x) != a ==> (x in free1[d] <==> x in free[d])
  }

  /** `free2` is `free1` without the blocks of the page at `a`. */
  ghost predicate Cleared(free1: seq<seq<nat>>, free2: seq<seq<nat>>, a: nat)
    requires |free1| == DESC_CNT && |free2| == DESC_CNT
  {
    forall d: nat, x: nat :: d < DESC_CNT ==> (x in free2[d] <==> x in free1[d] && ArenaOf(x) != a)
  }

  /** The lists and live blocks change only in page `a`: every other arena is as before. */
  lemma OtherArena(free: seq<seq<nat>>, free1: seq<seq<nat>>, arena: Arena, live: set<nat>, live1: set<nat>, a: nat,
      b: nat)
    requires |free| == DESC_CNT && |free1| == DESC_CNT && b != a && ArenaInv(free, arena, live, b)
    requires forall x: nat :: ArenaOf(x) != a ==> (x in live1 <==> x in live)
    requires SameElsewhere(free, free1, a)
    ensures ArenaInv(free1, arena, live1, b)
  {
    assert InArena(live1, b) == InArena(live, b);
    if arena.Small? {
      assert InArena(Elems(free1[arena.desc]), b) == InArena(Elems(free[arena.desc]), b);
    }
  }

  lemma OtherArenas(h: Heap, free1: seq<seq<nat>>, live: set<nat>, live1: set<nat>, a: nat)
    requires |h.free| == DESC_CNT && |free1| == DESC_CNT
    requires forall c :: c in h.arenas && c != a ==> ArenaInv(h.free, h.arenas[c], live, c)
    requires forall x: nat :: ArenaOf(x) != a ==> (x in live1 <==> x in live)
    requires SameElsewhere(h.free, free1, a)
    ensures forall c :: c in h.arenas && c != a ==> ArenaInv(free1, h.arenas[c], live1, c)
  {
    hide ArenaInv, ArenaOf;
    forall c | c in h.arenas && c != a ensures ArenaInv(free1, h.arenas[c], live1, c) {
      OtherArena(h.free, free1, h.arenas[c], live, live1, a, c);
    }
  }

  /** Popping a block moves it from free to live. */
  lemma TakeSplit(list: seq<nat>, d: nat, cnt: int, live: set<nat>, a: nat)
    requires list != [] && NoDup(list) && ArenaOf(list[0]) == a && Split(list, d, cnt, live, a)
    ensures list[0] !in live && cnt - 1 < BlocksPer(d) && NoDup(list[1..])
    ensures Split(list[1..], d, cnt - 1, live + {list[0]}, a)
  {
    var b := list[0];
    PopElems(list);
    BlockCount(a, d);
    var f := InArena(Elems(list), a);
    assert b in f && InArena(Elems(list[1..]), a) == f - {b};
    assert InArena(live + {b}, a) == InArena(live, a) + {b};
    assert b in live ==> b in InArena(live, a);
    Cardinality(f, Blocks(a, d));
  }

  lemma {:induction false} Cardinality(x: set<nat>, y: set<nat>)
    requires x <= y
    ensures |x| <= |y| && (|x| == |y| ==> x == y)
  {
    if x != {} {
      var e :| e in x;
      Cardinality(x - {e}, y - {e});
      assert x == (x - {e}) + {e} && y == (y - {e}) + {e};
    }
  }

  /** Giving a block back moves it from live to free. */
  lemma GiveSplit(list: seq<nat>, d: nat, cnt: int, live: set<nat>, a: nat, b: nat)
    requires NoDup(list) && b in live && ArenaOf(b) == a && Split(list, d, cnt, live, a)
    ensures b !in list && NoDup(list + [b]) && Split(list + [b], d, cnt + 1, live - {b}, a)
  {
    hide Blocks, NoDup, ArenaOf, InArena, Elems;
    var f, l := InArena(Elems(list), a), InArena(live, a);
    InArenaOf(live, a, b);
    MoveAcross(Blocks(a, d), f, l, b);
    NotListed(list, a, b);
    AppendElems(list, b);
    InArenaChange(Elems(list), live, a, b);
  }

  lemma InArenaOf(live: set<nat>, a: nat, b: nat)
    requires ArenaOf(b) == a
    ensures b in live <==> b in InArena(live, a)
  {}

  lemma NotListed(list: seq<nat>, a: nat, b: nat)
    requires ArenaOf(b) == a && b !in InArena(Elems(list), a)
    ensures b !in list
  {}

  lemma InArenaChange(f: set<nat>, live: set<nat>, a: nat, b: nat)
    requires ArenaOf(b) == a
    ensures InArena(f + {b}, a) == InArena(f, a) + {b} && InArena(live - {b}, a) == InArena(live, a) - {b}
  {}

  lemma MoveAcross(all: set<nat>, f: set<nat>, l: set<nat>, b: nat)
    requires all == f + l && f !! l && b in l
    ensures b !in f && all == (f + {b}) + (l - {b}) && (f + {b}) !! (l - {b}) && |f + {b}| == |f| + 1
  {
  }

  /** The counter reaches the arena's size exactly when no block of the arena is live any more. */
  lemma FullArena(list: seq<nat>, d: nat, cnt: int, live: set<nat>, a: nat)
    requires Split(list, d, cnt, live, a)
    ensures cnt <= BlocksPer(d)
    ensures cnt == BlocksPer(d) <==> InArena(live, a) == {}
    ensures cnt == BlocksPer(d) ==> forall k: nat :: k < BlocksPer(d) ==> BlockAddr(a, d, k) in list
  {
    BlockCount(a, d);
    var f := InArena(Elems(list), a);
    Cardinality(f, Blocks(a, d));
    if cnt == BlocksPer(d) {
      forall k: nat | k < BlocksPer(d) ensures BlockAddr(a, d, k) in list {
        assert BlockAddr(a, d, k) in f;
      }
    }
  }

  // ---------------------------------------------------------------- pages

  /** Pages the allocator hands out were not in use, and only they change. */
  lemma PagesTaken(m: Mem, w: Who, n: nat, r: Mem, i: nat)
    requires MemOk(m) && w in m.spaces && |m.spaces[w].vbits| > 0 && MallocPage(m, w, n) == Ok((r, i))
    ensures MemOk(r) && w in r.spaces && n >= 1 && ClearRun(m.spaces[w].vbits, i, n)
    ensures r.spaces[w].vbits == Mark(m.spaces[w].vbits, i, n, true)
  {
    hide Inv, AllAgree;
    var own :| Inv(m, own, {});
    var own1, fs := MallocKeeps(m, w, n, r, i, own);
  }

  /** Pages whose bits are set can be given back without tripping an ASSERT. */
  lemma PagesGiven(m: Mem, w: Who, i: nat, n: nat)
    requires MemOk(m) && w in m.spaces && n >= 1 && i + n <= |m.spaces[w].vbits|
    requires forall k :: i <= k < i + n ==> m.spaces[w].vbits[k]
    ensures MfreePage(m, w, i, n).Ok?
    ensures var r := MfreePage(m, w, i, n).value;
      MemOk(r) && w in r.spaces && r.spaces[w].vbits == Mark(m.spaces[w].vbits, i, n, false)
  {
    assert BitsAgree(m.spaces[w]);
    assert Present(m, w, i, n);
    hide Inv, AllAgree, MfreePage;
    var own :| Inv(m, own, {});
    var own1, r := MfreeKeeps(m, w, i, n, own);
  }

  lemma VaddrAligned(w: Who, i: nat)
    ensures Vaddr(w, i) % PAGE == 0 && PageIndex(w, Vaddr(w, i)) == i && Vaddr(w, i) >= Vaddr(w, 0)
  {
  }

  /** The page run `i .. i + n` and the pages of the arena at `b` do not meet. */
  lemma RunApart(bits: seq<bool>, w: Who, i: nat, n: nat, b: nat, k: nat)
    requires ClearRun(bits, i, n) && n >= 1 && k >= 1 && b >= Vaddr(w, 0) && b % PAGE == 0
    requires PageIndex(w, b) + k <= |bits| && forall p :: PageIndex(w, b) <= p < PageIndex(w, b) + k ==> bits[p]
    ensures Vaddr(w, i) + PAGE * n <= b || b + PAGE * k <= Vaddr(w, i)
  {
    var j := PageIndex(w, b);
    assert b == Vaddr(w, j);
    var p := if i <= j then j else i;
    var common := p < |bits| && bits[p];
  }

  /** A fresh run of pages lies apart from every arena. */
  lemma SpanAdd(h: Heap, m: Mem, i: nat, x: Arena, h1: Heap)
    requires h.w in h.mem.spaces && SpanInv(h) && h.w in m.spaces
    requires ClearRun(h.mem.spaces[h.w].vbits, i, Pages(x)) && Pages(x) >= 1
    requires m.spaces[h.w].vbits == Mark(h.mem.spaces[h.w].vbits, i, Pages(x), true)
    requires h1.w == h.w && h1.mem == m && h1.arenas == h.arenas[Vaddr(h.w, i) := x]
    ensures Vaddr(h.w, i) !in h.arenas && SpanInv(h1)
  {
    hide Vaddr, PageIndex, ClearRun, Mark, SpanInv;
    RunInside(h.mem.spaces[h.w].vbits, i, Pages(x));
    VaddrAligned(h.w, i);
    ApartFromAll(h, i, Pages(x));
    SpanWith(h, m, i, x, h1);
  }

  lemma RunInside(bits: seq<bool>, i: nat, n: nat)
    requires ClearRun(bits, i, n)
    ensures i + n <= |bits|
  {
  }

  /** A clear run is apart from every arena. */
  lemma ApartFromAll(h: Heap, i: nat, n: nat)
    requires h.w in h.mem.spaces && SpanInv(h) && ClearRun(h.mem.spaces[h.w].vbits, i, n) && n >= 1
    ensures forall b :: b in h.arenas ==>
      Vaddr(h.w, i) + PAGE * n <= b || b + PAGE * Pages(h.arenas[b]) <= Vaddr(h.w, i)
  {
    forall b | b in h.arenas ensures Vaddr(h.w, i) + PAGE * n <= b || b + PAGE * Pages(h.arenas[b]) <= Vaddr(h.w, i) {
      RunApart(h.mem.spaces[h.w].vbits, h.w, i, n, b, Pages(h.arenas[b]));
    }
  }

  lemma SpanWith(h: Heap, m: Mem, i: nat, x: Arena, h1: Heap)
    requires h.w in h.mem.spaces && SpanInv(h) && h.w in m.spaces && i + Pages(x) <= |h.mem.spaces[h.w].vbits|
    requires Pages(x) >= 1
    requires m.spaces[h.w].vbits == Mark(h.mem.spaces[h.w].vbits, i, Pages(x), true)
    requires h1.w == h.w && h1.mem == m && h1.arenas == h.arenas[Vaddr(h.w, i) := x]
    requires Vaddr(h.w, i) % PAGE == 0 && Vaddr(h.w, i) >= Vaddr(h.w, 0) && PageIndex(h.w, Vaddr(h.w, i)) == i
    requires forall b :: b in h.arenas ==>
      Vaddr(h.w, i) + PAGE * Pages(x) <= b || b + PAGE * Pages(h.arenas[b]) <= Vaddr(h.w, i)
    ensures Vaddr(h.w, i) !in h.arenas && SpanInv(h1)
  {
    hide Vaddr, PageIndex, Mark;
    var a := Vaddr(h.w, i);
    assert a !in h.arenas;
  }

  // ---------------------------------------------------------------- sys_malloc

  /** The invariant, except that the arena at `x` may be entirely free. */
  ghost predicate HeapPre(h: Heap, live: set<nat>, x: nat) {
    && MemOk(h.mem) && Ready(h) && ListInv(h, live) && SpanInv(h)
    && (forall a :: a in h.arenas && a != x ==> ArenaInv(h.free, h.arenas[a], live, a))
    && (x in h.arenas ==> ArenaSplit(h.free, h.arenas[x], live, x))
  }

  /** Only the arenas of `h1` differ, at `a` and in page count nowhere. */
  lemma SpanSame(h: Heap, h1: Heap)
    requires h.w in h.mem.spaces && SpanInv(h) && h1.w == h.w && h1.mem == h.mem && h1.arenas.Keys == h.arenas.Keys
    requires forall a :: a in h.arenas ==> Pages(h1.arenas[a]) == Pages(h.arenas[a])
    ensures SpanInv(h1)
  {}

  lemma TakeLists(h: Heap, live: set<nat>, d: nat, h1: Heap, b: nat)
    requires ListInv(h, live) && d < DESC_CNT && h.free[d] != [] && b == h.free[d][0]
    requires ArenaOf(b) in h.arenas && h.arenas[ArenaOf(b)].Small? && h.arenas[ArenaOf(b)].desc == d
    requires h1.free == h.free[d := h.free[d][1..]]
    requires h1.arenas == h.arenas[ArenaOf(b) := h.arenas[ArenaOf(b)].(cnt := h.arenas[ArenaOf(b)].cnt - 1)]
    ensures ListInv(h1, live + {b})
    ensures SameElsewhere(h.free, h1.free, ArenaOf(b))
  {
    PopElems(h.free[d]);
    forall x ensures x in h.free[d] <==> x == b || x in h.free[d][1..] {
      assert x in Elems(h.free[d]) <==> x == b || x in Elems(h.free[d][1..]);
    }
  }

  lemma HeadArena(h: Heap, live: set<nat>, d: nat)
    requires ListInv(h, live) && d < DESC_CNT && h.free[d] != []
    ensures var a := ArenaOf(h.free[d][0]); a in h.arenas && h.arenas[a].Small? && h.arenas[a].desc == d
    ensures NoDup(h.free[d])
  {
    assert h.free[d][0] in h.free[d];
  }

  lemma TakeKeeps(h: Heap, live: set<nat>, d: nat)
    requires d < DESC_CNT && |h.free| == DESC_CNT && h.free[d] != [] && HeapPre(h, live, ArenaOf(h.free[d][0]))
    ensures TakeBlock(h, d).Ok?
    ensures var (h1, b) := TakeBlock(h, d).value;
      && b == h.free[d][0] && b !in live && HeapInv(h1, live + {b})
      && ArenaOf(b) in h1.arenas && h1.arenas[ArenaOf(b)].Small? && h1.arenas[ArenaOf(b)].desc == d
  {
    hide MemOk, Split, SpanInv, ListInv, NoDup, ArenaOf;
    var b := h.free[d][0];
    var a := ArenaOf(b);
    HeadArena(h, live, d);
    var h1 := TakeBlock(h, d).value.0;
    TakeSplit(h.free[d], d, h.arenas[a].cnt, live, a);
    TakeLists(h, live, d, h1, b);
    SpanSame(h, h1);
    forall c | c in h1.arenas ensures ArenaInv(h1.free, h1.arenas[c], live + {b}, c) {
      if c != a {
        OtherArena(h.free, h1.free, h.arenas[c], live, live + {b}, a, c);
      }
    }
  }

  lemma NewArenaSplit(h: Heap, live: set<nat>, a: nat, d: nat)
    requires |h.free| == DESC_CNT && d < DESC_CNT && h.free[d] == [] && a % PAGE == 0
    requires forall x :: x in live ==> ArenaOf(x) != a
    ensures Split(h.free[d] + BlockSeq(a, d, BlocksPer(d)), d, BlocksPer(d), live, a)
    ensures forall x :: x in h.free[d] + BlockSeq(a, d, BlocksPer(d)) ==> ArenaOf(x) == a
    ensures NoDup(h.free[d] + BlockSeq(a, d, BlocksPer(d))) && BlocksPer(d) > 0
  {
    var q := BlockSeq(a, d, BlocksPer(d));
    assert h.free[d] + q == q;
    BlockSeqElems(a, d);
    BlockCount(a, d);
    BlocksInArena(a, d);
    forall x | x in q ensures ArenaOf(x) == a { assert x in Elems(q); }
    assert InArena(Elems(q), a) == Blocks(a, d);
    assert InArena(live, a) == {};
  }

  /** A new arena: all its blocks free, everything else as it was. */
  lemma NewKeeps(h: Heap, live: set<nat>, d: nat, m: Mem, i: nat)
    requires HeapInv(h, live) && d < DESC_CNT && h.free[d] == [] && MallocPage(h.mem, h.w, 1) == Ok((m, i))
    ensures var a := Vaddr(h.w, i); var h1 := NewArena(h, m, a, d);
      HeapPre(h1, live, a) && h1.free[d] != [] && ArenaOf(h1.free[d][0]) == a
  {
    hide MallocPage, MemOk, SpanInv, ListInv, ArenaInv, ArenaSplit, ArenaOf, Vaddr, BlockSeq, BlocksPer, NoDup;
    Parts(h, live);
    PagesTaken(h.mem, h.w, 1, m, i);
    var a := Vaddr(h.w, i);
    var h1 := NewArena(h, m, a, d);
    VaddrAligned(h.w, i);
    SpanAdd(h, m, i, Small(d, BlocksPer(d)), h1);
    LiveElsewhere(h, live, a);
    NewArenaSplit(h, live, a, d);
    NewLists(h, live, a, d, h1);
    OtherArenas(h, h1.free, live, live, a);
    NewHead(h1.free[d], h1.free, live, a, d);
  }

  lemma NewHead(list: seq<nat>, free: seq<seq<nat>>, live: set<nat>, a: nat, d: nat)
    requires |free| == DESC_CNT && d < DESC_CNT && free[d] == list && Split(list, d, BlocksPer(d), live, a)
    requires BlocksPer(d) > 0 && (forall x :: x in list ==> ArenaOf(x) == a)
    ensures list != [] && ArenaOf(list[0]) == a && ArenaSplit(free, Small(d, BlocksPer(d)), live, a)
  {
    hide ArenaOf, BlocksPer;
    assert list == [] ==> InArena(Elems(list), a) == {};
    assert list[0] in list;
  }

  lemma LiveElsewhere(h: Heap, live: set<nat>, a: nat)
    requires ListInv(h, live) && a !in h.arenas
    ensures forall x :: x in live ==> ArenaOf(x) != a
  {
    hide ArenaOf, NoDup;
  }

  lemma NewLists(h: Heap, live: set<nat>, a: nat, d: nat, h1: Heap)
    requires ListInv(h, live) && d < DESC_CNT && h.free[d] == [] && a !in h.arenas
    requires h1.free == h.free[d := h.free[d] + BlockSeq(a, d, BlocksPer(d))]
    requires h1.arenas == h.arenas[a := Small(d, BlocksPer(d))]
    requires forall x :: x in h.free[d] + BlockSeq(a, d, BlocksPer(d)) ==> ArenaOf(x) == a
    requires NoDup(h.free[d] + BlockSeq(a, d, BlocksPer(d)))
    ensures ListInv(h1, live)
    ensures SameElsewhere(h.free, h1.free, a)
  {
    assert forall e :: 0 <= e < DESC_CNT && e != d ==> h1.free[e] == h.free[e];
  }

  lemma HeaderOffset(a: nat)
    requires a % PAGE == 0
    ensures ArenaOf(a + HEADER) == a
  {}

  lemma LargeArenas(h: Heap, live: set<nat>, n: nat, m: Mem, a: nat, h1: Heap)
    requires |h.free| == DESC_CNT && ListInv(h, live) && a !in h.arenas && ArenaOf(a + HEADER) == a && n >= 1
    requires forall c :: c in h.arenas ==> ArenaInv(h.free, h.arenas[c], live, c)
    requires h1 == h.(mem := m, arenas := h.arenas[a := Large(n)])
    ensures a + HEADER !in live && ListInv(h1, live + {a + HEADER})
    ensures forall c :: c in h1.arenas ==> ArenaInv(h1.free, h1.arenas[c], live + {a + HEADER}, c)
  {
    hide ArenaOf, Split, NoDup;
    var b := a + HEADER;
    assert forall x :: x in live ==> ArenaOf(x) != a;
    assert InArena(live + {b}, a) == {b};
    forall c | c in h1.arenas ensures ArenaInv(h1.free, h1.arenas[c], live + {b}, c) {
      if c != a { OtherArena(h.free, h1.free, h.arenas[c], live, live + {b}, a, c); }
    }
  }

  lemma LargeKeeps(h: Heap, live: set<nat>, n: nat, m: Mem, i: nat)
    requires HeapInv(h, live) && MallocPage(h.mem, h.w, n) == Ok((m, i))
    ensures var a := Vaddr(h.w, i); var h1 := h.(mem := m, arenas := h.arenas[a := Large(n)]);
      a + HEADER !in live && HeapInv(h1, live + {a + HEADER}) && ArenaOf(a + HEADER) == a
  {
    hide MallocPage, MemOk, ArenaInv, ListInv, SpanInv;
    PagesTaken(h.mem, h.w, n, m, i);
    var a := Vaddr(h.w, i);
    var h1 := h.(mem := m, arenas := h.arenas[a := Large(n)]);
    VaddrAligned(h.w, i);
    SpanAdd(h, m, i, Large(n), h1);
    HeaderOffset(a);
    LargeArenas(h, live, n, m, a, h1);
  }

  /** How many bytes the block at `x` has. */
  ghost function Capacity(h: Heap, x: nat): nat
    requires ArenaOf(x) in h.arenas
  {
    match h.arenas[ArenaOf(x)]
    case Small(d, _) => BlockSize(d)
    case Large(n) => if PAGE * n < HEADER then 0 else PAGE * n - HEADER
  }

  /** What `sys_malloc` promises about its result `b`. */
  ghost predicate GoodBlock(h1: Heap, live: set<nat>, b: nat, size: nat) {
    b !in live && HeapInv(h1, live + {b}) && ArenaOf(b) in h1.arenas && Capacity(h1, b) >= size
  }

  lemma MallocLarge(h: Heap, live: set<nat>, size: nat, n: nat, m: Mem, i: nat)
    requires HeapInv(h, live) && size > 1024 && n == (size + HEADER + PAGE - 1) / PAGE
    requires MallocPage(h.mem, h.w, n) == Ok((m, i))
    ensures GoodBlock(h.(mem := m, arenas := h.arenas[Vaddr(h.w, i) := Large(n)]), live, Vaddr(h.w, i) + HEADER, size)
  {
    hide HeapInv, MallocPage, ArenaOf;
    LargeKeeps(h, live, n, m, i);
  }

  lemma MallocPop(h: Heap, live: set<nat>, size: nat)
    requires HeapInv(h, live) && size <= 1024 && h.free[ClassOf(size)] != []
    ensures TakeBlock(h, ClassOf(size)).Ok?
    ensures var (h1, b) := TakeBlock(h, ClassOf(size)).value; GoodBlock(h1, live, b, size)
  {
    hide HeapInv, ArenaOf, HeapPre, TakeBlock;
    Parts(h, live);
    var d := ClassOf(size);
    PreFromInv(h, live, ArenaOf(h.free[d][0]));
    TakeKeeps(h, live, d);
  }

  lemma MallocNew(h: Heap, live: set<nat>, size: nat, m: Mem, i: nat)
    requires HeapInv(h, live) && size <= 1024 && h.free[ClassOf(size)] == [] && MallocPage(h.mem, h.w, 1) == Ok((m, i))
    ensures var h0 := NewArena(h, m, Vaddr(h.w, i), ClassOf(size));
      h0.free[ClassOf(size)] != [] && TakeBlock(h0, ClassOf(size)).Ok? &&
      var (h1, b) := TakeBlock(h0, ClassOf(size)).value; GoodBlock(h1, live, b, size)
  {
    hide HeapInv, ArenaOf, HeapPre, MallocPage, TakeBlock;
    Parts(h, live);
    var d := ClassOf(size);
    NewKeeps(h, live, d, m, i);
    TakeKeeps(NewArena(h, m, Vaddr(h.w, i), d), live, d);
  }

  /** `sys_malloc` returns a block that was not live and is large enough, and keeps the invariant. */
  lemma MallocKeepsHeap(h: Heap, live: set<nat>, size: nat)
    requires HeapInv(h, live)
    ensures SysMalloc(h, size).Ok? ==> GoodBlock(SysMalloc(h, size).value.0, live, SysMalloc(h, size).value.1, size)
  {
    hide HeapInv, MallocPage, GoodBlock, TakeBlock, NewArena, MemOk, SpanInv, ListInv;
    Parts(h, live);
    if SysMalloc(h, size).Ok? {
      if size > 1024 {
        var n := (size + HEADER + PAGE - 1) / PAGE;
        var (m, i) := MallocPage(h.mem, h.w, n).value;
        MallocLarge(h, live, size, n, m, i);
      } else if h.free[ClassOf(size)] != [] {
        MallocPop(h, live, size);
      } else {
        var (m, i) := MallocPage(h.mem, h.w, 1).value;
        MallocNew(h, live, size, m, i);
      }
    }
  }

  lemma PreFromInv(h: Heap, live: set<nat>, x: nat)
    requires HeapInv(h, live)
    ensures HeapPre(h, live, x)
  {}

  // ---------------------------------------------------------------- sys_free

  /** Nothing of the arena at `a` is on a free list or live. */
  ghost predicate Vacant(h: Heap, live: set<nat>, a: nat) {
    && (forall x :: x in live ==> ArenaOf(x) != a)
    && (forall d: nat, x: nat :: 0 <= d < |h.free| && x in h.free[d] ==> ArenaOf(x) != a)
  }

  lemma SpanDrop(h: Heap, a: nat, m: Mem)
    requires h.w in h.mem.spaces && SpanInv(h) && a in h.arenas && h.w in m.spaces
    requires m.spaces[h.w].vbits == Mark(h.mem.spaces[h.w].vbits, PageIndex(h.w, a), Pages(h.arenas[a]), false)
    ensures SpanInv(h.(mem := m, arenas := h.arenas - {a}))
  {
    var h1 := h.(mem := m, arenas := h.arenas - {a});
    var i, n := PageIndex(h.w, a), Pages(h.arenas[a]);
    forall b | b in h1.arenas
      ensures forall k :: PageIndex(h.w, b) <= k < PageIndex(h.w, b) + Pages(h.arenas[b]) ==> m.spaces[h.w].vbits[k]
    {
      var j := PageIndex(h.w, b);
      assert i + n <= j || j + Pages(h.arenas[b]) <= i by { IndexApart(h.w, a, n, b, Pages(h.arenas[b])); }
    }
  }

  lemma IndexApart(w: Who, a: nat, n: nat, b: nat, k: nat)
    requires a >= Vaddr(w, 0) && b >= Vaddr(w, 0) && a % PAGE == 0 && b % PAGE == 0
    requires a + PAGE * n <= b || b + PAGE * k <= a
    ensures PageIndex(w, a) + n <= PageIndex(w, b) || PageIndex(w, b) + k <= PageIndex(w, a)
  {}

  /** A vacant arena can be dropped: its pages are given back and the rest stays in order. */
  lemma DropKeeps(h: Heap, live: set<nat>, a: nat)
    requires MemOk(h.mem) && Ready(h) && ListInv(h, live) && SpanInv(h) && a in h.arenas && Vacant(h, live, a)
    requires forall c :: c in h.arenas && c != a ==> ArenaInv(h.free, h.arenas[c], live, c)
    ensures DropArena(h, a, Pages(h.arenas[a])).Ok? && HeapInv(DropArena(h, a, Pages(h.arenas[a])).value, live)
    ensures DropArena(h, a, Pages(h.arenas[a])).value.arenas == h.arenas - {a}
  {
    hide MemOk, MfreePage, ArenaInv, ArenaOf, NoDup;
    var i, n := PageIndex(h.w, a), Pages(h.arenas[a]);
    PagesGiven(h.mem, h.w, i, n);
    var m := MfreePage(h.mem, h.w, i, n).value;
    SpanDrop(h, a, m);
  }

  /** The block of a large arena is the only live address in it. */
  lemma LargeLive(h: Heap, live: set<nat>, ptr: nat)
    requires HeapInv(h, live) && ptr in live && ArenaOf(ptr) in h.arenas && h.arenas[ArenaOf(ptr)].Large?
    ensures Vacant(h, live - {ptr}, ArenaOf(ptr))
  {
    var a := ArenaOf(ptr);
    assert ArenaInv(h.free, h.arenas[a], live, a);
    assert ptr in InArena(live, a);
    forall x | x in live - {ptr} ensures ArenaOf(x) != a {
      assert ArenaOf(x) == a ==> x in InArena(live, a);
    }
  }

  lemma FreeLarge(h: Heap, live: set<nat>, ptr: nat, n: nat)
    requires HeapInv(h, live) && ptr in live && ArenaOf(ptr) in h.arenas && h.arenas[ArenaOf(ptr)] == Large(n)
    ensures DropArena(h, ArenaOf(ptr), n).Ok? && HeapInv(DropArena(h, ArenaOf(ptr), n).value, live - {ptr})
  {
    hide MemOk, SpanInv, ArenaOf, NoDup, ArenaInv, DropArena, Vacant;
    var a := ArenaOf(ptr);
    LargeLive(h, live, ptr);
    OtherArenas(h, h.free, live, live - {ptr}, a);
    DropKeeps(h, live - {ptr}, a);
  }

  /** The lists after a block is appended. */
  lemma GiveLists(h: Heap, live: set<nat>, d: nat, ptr: nat, free1: seq<seq<nat>>)
    requires ListInv(h, live) && d < DESC_CNT && ptr !in h.free[d] && free1 == h.free[d := h.free[d] + [ptr]]
    requires ArenaOf(ptr) in h.arenas && h.arenas[ArenaOf(ptr)].Small? && h.arenas[ArenaOf(ptr)].desc == d
    requires NoDup(h.free[d] + [ptr])
    ensures ListInv(h.(free := free1), live - {ptr})
    ensures SameElsewhere(h.free, free1, ArenaOf(ptr))
  {
    hide ArenaOf, NoDup;
    forall e | 0 <= e < DESC_CNT ensures NoDup(free1[e]) {}
  }

  /** What appending the freed block does to its arena and the lists. */
  lemma GiveFacts(h: Heap, live: set<nat>, ptr: nat, a: nat, d: nat, cnt: int)
    requires ListInv(h, live) && ptr in live && a == ArenaOf(ptr) && a in h.arenas && h.arenas[a] == Small(d, cnt)
    requires d < DESC_CNT && Split(h.free[d], d, cnt, live, a)
    ensures var list := h.free[d] + [ptr]; var free1 := h.free[d := list];
      && Split(list, d, cnt + 1, live - {ptr}, a) && cnt + 1 <= BlocksPer(d)
      && (cnt + 1 == BlocksPer(d) <==> InArena(live - {ptr}, a) == {})
      && (cnt + 1 == BlocksPer(d) ==> forall k: nat :: k < BlocksPer(d) ==> BlockAddr(a, d, k) in list)
      && ListInv(h.(free := free1), live - {ptr})
      && SameElsewhere(h.free, free1, a)
  {
    GiveSplit(h.free[d], d, cnt, live, a, ptr);
    FullArena(h.free[d] + [ptr], d, cnt + 1, live - {ptr}, a);
    GiveLists(h, live, d, ptr, h.free[d := h.free[d] + [ptr]]);
    hide Split, ListInv, NoDup, ArenaOf, InArena, BlocksPer;
  }

  /** The lists do not depend on the counters. */
  lemma ListsRecount(h: Heap, h1: Heap, live: set<nat>, a: nat, d: nat, cnt: int)
    requires ListInv(h, live) && a in h.arenas && h.arenas[a].Small? && h.arenas[a].desc == d
    requires h1.free == h.free && h1.arenas == h.arenas[a := Small(d, cnt)]
    ensures ListInv(h1, live)
  {}

  /** `sys_free` of a block whose arena stays. */
  lemma FreeStays(h: Heap, live: set<nat>, ptr: nat, a: nat, d: nat, cnt: int, h1: Heap)
    requires HeapInv(h, live) && ptr in live && a == ArenaOf(ptr) && a in h.arenas && h.arenas[a] == Small(d, cnt)
    requires d < DESC_CNT && cnt + 1 != BlocksPer(d) && Split(h.free[d], d, cnt, live, a)
    requires h1 == h.(free := h.free[d := h.free[d] + [ptr]], arenas := h.arenas[a := Small(d, cnt + 1)])
    ensures HeapInv(h1, live - {ptr})
  {
    hide MemOk, SpanInv, ArenaOf, NoDup, Split, ListInv, BlocksPer, InArena, Elems, Blocks;
    var free1 := h.free[d := h.free[d] + [ptr]];
    GiveFacts(h, live, ptr, a, d, cnt);
    SpanSame(h, h1);
    ListsRecount(h.(free := free1), h1, live - {ptr}, a, d, cnt + 1);
    OtherArenas(h, free1, live, live - {ptr}, a);
  }

  lemma SplitOf(h: Heap, live: set<nat>, a: nat)
    requires HeapInv(h, live) && a in h.arenas && h.arenas[a].Small?
    ensures h.arenas[a].desc < DESC_CNT && Split(h.free[h.arenas[a].desc], h.arenas[a].desc, h.arenas[a].cnt, live, a)
  {
    assert ArenaInv(h.free, h.arenas[a], live, a);
  }

  /** The lists after a whole arena is taken off. */
  lemma ClearLists(h: Heap, live: set<nat>, d: nat, free1: seq<seq<nat>>, list: seq<nat>, a: nat, free2: seq<seq<nat>>)
    requires ListInv(h.(free := free1), live) && d < DESC_CNT && |free1| == DESC_CNT
    requires list == free1[d] && free2 == free1[d := Without(list, a)]
    requires a in h.arenas && h.arenas[a].Small? && h.arenas[a].desc == d
    ensures |free2| == DESC_CNT && ListInv(h.(free := free2), live)
    ensures Cleared(free1, free2, a)
  {
    hide ArenaOf;
    WithoutElems(list, a);
    forall e: nat, x: nat | 0 <= e < DESC_CNT && x in free2[e] ensures x in free1[e] {}
  }

  /** `sys_free` of the last live block of an arena: every block is found on the free list (the ASSERT in the
      loop), all are taken off, and the page is given back. */
  lemma FreeLast(h: Heap, live: set<nat>, ptr: nat, a: nat, d: nat, cnt: int, list: seq<nat>, h2: Heap)
    requires HeapInv(h, live) && ptr in live && a == ArenaOf(ptr) && a in h.arenas && h.arenas[a] == Small(d, cnt)
    requires d < DESC_CNT && cnt + 1 == BlocksPer(d) && Split(h.free[d], d, cnt, live, a)
    requires list == h.free[d] + [ptr] && h2 == h.(free := h.free[d := Without(list, a)])
    ensures forall k: nat :: k < BlocksPer(d) ==> BlockAddr(a, d, k) in list
    ensures DropArena(h2, a, 1).Ok? && HeapInv(DropArena(h2, a, 1).value, live - {ptr})
  {
    hide HeapInv, ListInv, Split, Without, DropArena, BlocksPer, InArena, Elems, SameElsewhere, Cleared;
    ListsOf(h, live);
    var free1 := h.free[d := list];
    GiveFacts(h, live, ptr, a, d, cnt);
    assert h2.free == free1[d := Without(list, a)];
    ClearLists(h, live - {ptr}, d, free1, list, a, h2.free);
    FreeLastDrop(h, live, ptr, a, free1, h2.free);
  }

  lemma ListsOf(h: Heap, live: set<nat>)
    requires HeapInv(h, live)
    ensures |h.free| == DESC_CNT && ListInv(h, live)
  {}

  lemma FreeLastDrop(h: Heap, live: set<nat>, ptr: nat, a: nat, free1: seq<seq<nat>>, free2: seq<seq<nat>>)
    requires HeapInv(h, live) && ptr in live && a == ArenaOf(ptr) && a in h.arenas && h.arenas[a].Small?
    requires |free1| == DESC_CNT && |free2| == DESC_CNT
    requires ListInv(h.(free := free2), live - {ptr}) && InArena(live - {ptr}, a) == {}
    requires SameElsewhere(h.free, free1, a)
    requires Cleared(free1, free2, a)
    ensures DropArena(h.(free := free2), a, 1).Ok? && HeapInv(DropArena(h.(free := free2), a, 1).value, live - {ptr})
  {
    hide MemOk, ArenaOf, NoDup, Split, SpanInv, ArenaInv, DropArena;
    var h2, live1 := h.(free := free2), live - {ptr};
    SpanSame(h, h2);
    forall x | x in live1 ensures ArenaOf(x) != a {
      assert ArenaOf(x) == a ==> x in InArena(live1, a);
    }
    assert Vacant(h2, live1, a);
    OtherArenas(h, free2, live, live1, a);
    DropKeeps(h2, live1, a);
  }

  /** `sys_free` of a live block never trips an ASSERT and keeps the invariant. */
  lemma FreeKeepsHeap(h: Heap, live: set<nat>, ptr: nat)
    requires HeapInv(h, live) && ptr in live
    ensures SysFree(h, ptr).Ok? && HeapInv(SysFree(h, ptr).value, live - {ptr})
  {
    hide HeapInv, ArenaOf, DropArena, Without, Split, BlocksPer, ArenaInv, MemOk, SpanInv;
    var a := ArenaOf(ptr);
    LiveAddress(h, live, ptr);
    match h.arenas[a] {
      case Large(n) => FreeLarge(h, live, ptr, n);
      case Small(d, cnt) =>
        SplitOf(h, live, a);
        var list := h.free[d] + [ptr];
        if cnt + 1 == BlocksPer(d) {
          FreeLast(h, live, ptr, a, d, cnt, list, h.(free := h.free[d := Without(list, a)]));
        } else {
          FreeStays(h, live, ptr, a, d, cnt, h.(free := h.free[d := list], arenas := h.arenas[a := Small(d, cnt + 1)]));
        }
    }
  }

  /** A live address lies above the start of the heap, so the ASSERT on it holds. */
  lemma LiveAddress(h: Heap, live: set<nat>, ptr: nat)
    requires HeapInv(h, live) && ptr in live
    ensures Ready(h) && ArenaOf(ptr) in h.arenas && ptr > Vaddr(h.w, 0) && ptr > 0
    ensures Vaddr(Kernel, 0) == K_HEAP_START
  {
    var a := ArenaOf(ptr);
    assert ArenaInv(h.free, h.arenas[a], live, a) && ptr in InArena(live, a);
    if h.arenas[a].Small? {
      var d := h.arenas[a].desc;
      assert ptr in Blocks(a, d);
      var k: nat :| k < BlocksPer(d) && ptr == BlockAddr(a, d, k);
      BlockGeometry(a, d, k);
    }
  }

  // ---------------------------------------------------------------- theorems about every state

  /** A live block lies behind its arena's header, inside its arena's pages, and those pages are mapped. */
  lemma LiveInsideArena(h: Heap, live: set<nat>, x: nat)
    requires HeapInv(h, live) && x in live
    ensures var a := ArenaOf(x);
      && a in h.arenas && a + HEADER <= x && x + Capacity(h, x) <= a + PAGE * Pages(h.arenas[a])
      && forall k :: PageIndex(h.w, a) <= k < PageIndex(h.w, a) + Pages(h.arenas[a]) ==> k in h.mem.spaces[h.w].ptes
  {
    var a := ArenaOf(x);
    assert ArenaInv(h.free, h.arenas[a], live, a) && x in InArena(live, a);
    assert BitsAgree(h.mem.spaces[h.w]);
    match h.arenas[a] {
      case Large(n) =>
      case Small(d, cnt) =>
        assert x in Blocks(a, d);
        var k: nat :| k < BlocksPer(d) && x == BlockAddr(a, d, k);
        BlockGeometry(a, d, k);
    }
  }

  lemma BlockIndex(h: Heap, live: set<nat>, x: nat) returns (k: nat)
    requires HeapInv(h, live) && x in live && ArenaOf(x) in h.arenas && h.arenas[ArenaOf(x)].Small?
    ensures k < BlocksPer(h.arenas[ArenaOf(x)].desc) && x == BlockAddr(ArenaOf(x), h.arenas[ArenaOf(x)].desc, k)
  {
    var a := ArenaOf(x);
    assert ArenaInv(h.free, h.arenas[a], live, a) && x in InArena(live, a);
    assert x in Blocks(a, h.arenas[a].desc);
    k :| k < BlocksPer(h.arenas[a].desc) && x == BlockAddr(a, h.arenas[a].desc, k);
  }

  lemma SameArenaApart(h: Heap, live: set<nat>, x: nat, y: nat, a: nat)
    requires HeapInv(h, live) && x in live && y in live && x < y && ArenaOf(x) == a == ArenaOf(y) && a in h.arenas
    ensures x + Capacity(h, x) <= y
  {
    hide HeapInv, ArenaOf, BlocksPer;
    if h.arenas[a].Large? {
      assert y in live - {x};
      LargeLive(h, live, x);
    } else {
      var j := BlockIndex(h, live, x);
      var k := BlockIndex(h, live, y);
      if k < j { BlocksApart(a, h.arenas[a].desc, k, j); }
      if j < k { BlocksApart(a, h.arenas[a].desc, j, k); }
    }
  }

  /** Live blocks are pairwise disjoint. */
  lemma LiveDisjoint(h: Heap, live: set<nat>, x: nat, y: nat)
    requires HeapInv(h, live) && x in live && y in live && x < y
    ensures ArenaOf(x) in h.arenas && x + Capacity(h, x) <= y
  {
    LiveInsideArena(h, live, x);
    LiveInsideArena(h, live, y);
    if ArenaOf(y) == ArenaOf(x) {
      SameArenaApart(h, live, x, y, ArenaOf(x));
    } else {
      hide MemOk, ListInv, ArenaInv, Capacity;
    }
  }

  /** The counter of a small arena is the number of its blocks on the free list, and an arena exists only
      while one of its blocks is live. */
  lemma ArenaHasLiveBlock(h: Heap, live: set<nat>, a: nat)
    requires HeapInv(h, live) && a in h.arenas
    ensures InArena(live, a) != {}
    ensures h.arenas[a].Small? ==>
      h.arenas[a].desc < DESC_CNT && h.arenas[a].cnt == |set x | x in h.free[h.arenas[a].desc] && ArenaOf(x) == a|
  {
    assert ArenaInv(h.free, h.arenas[a], live, a);
    if h.arenas[a].Small? {
      var d, cnt := h.arenas[a].desc, h.arenas[a].cnt;
      FullArena(h.free[d], d, cnt, live, a);
      assert InArena(Elems(h.free[d]), a) == set x | x in h.free[d] && ArenaOf(x) == a;
    }
  }

  /** Once nothing is live, no arena and no free block is left. */
  lemma NothingLiveNothingHeld(h: Heap)
    requires HeapInv(h, {})
    ensures h.arenas == map[] && forall d :: 0 <= d < DESC_CNT ==> h.free[d] == []
  {
    forall a | a in h.arenas ensures false {
      ArenaHasLiveBlock(h, {}, a);
    }
    forall d | 0 <= d < DESC_CNT ensures h.free[d] == [] {
      if h.free[d] != [] { HeadArena(h, {}, d); }
    }
  }

  // ---------------------------------------------------------------- conservation of pages

  ghost predicate Covers(h: Heap, a: nat, k: nat) {
    a in h.arenas && a >= Vaddr(h.w, 0) && PageIndex(h.w, a) <= k < PageIndex(h.w, a) + Pages(h.arenas[a])
  }

  ghost predicate ArenaPage(h: Heap, k: nat) {
    exists a :: Covers(h, a, k)
  }

  /** The pages in use are those of `base`, in use by others from the start, and those of the arenas. */
  ghost predicate Conserves(h: Heap, base: seq<bool>) {
    && h.w in h.mem.spaces && |h.mem.spaces[h.w].vbits| == |base|
    && (forall k :: 0 <= k < |base| ==> (h.mem.spaces[h.w].vbits[k] <==> base[k] || ArenaPage(h, k)))
    && (forall k :: 0 <= k < |base| ==> !(base[k] && ArenaPage(h, k)))
  }

  lemma ConserveAdd(h: Heap, h1: Heap, base: seq<bool>, i: nat, x: Arena)
    requires Conserves(h, base) && h1.w == h.w && h.w in h1.mem.spaces
    requires ClearRun(h.mem.spaces[h.w].vbits, i, Pages(x)) && Vaddr(h.w, i) !in h.arenas
    requires h1.mem.spaces[h.w].vbits == Mark(h.mem.spaces[h.w].vbits, i, Pages(x), true)
    requires h1.arenas == h.arenas[Vaddr(h.w, i) := x]
    ensures Conserves(h1, base)
  {
    VaddrAligned(h.w, i);
    var a := Vaddr(h.w, i);
    forall k | 0 <= k < |base| ensures ArenaPage(h1, k) <==> ArenaPage(h, k) || i <= k < i + Pages(x) {
      if i <= k < i + Pages(x) { assert Covers(h1, a, k); }
      if ArenaPage(h, k) {
        var b :| Covers(h, b, k);
        assert Covers(h1, b, k);
      }
      if ArenaPage(h1, k) {
        var b :| Covers(h1, b, k);
        assert b != a ==> Covers(h, b, k);
      }
    }
  }

  lemma DropPage(h: Heap, h1: Heap, a: nat, k: nat)
    requires h.w in h.mem.spaces && SpanInv(h) && a in h.arenas && h1.w == h.w && h1.arenas == h.arenas - {a}
    ensures ArenaPage(h1, k) <==> ArenaPage(h, k) && !Covers(h, a, k)
  {
    if ArenaPage(h1, k) {
      var b :| Covers(h1, b, k);
      CoversApart(h, a, b, k);
    }
    if ArenaPage(h, k) && !Covers(h, a, k) {
      var b :| Covers(h, b, k);
      assert Covers(h1, b, k);
    }
  }

  lemma CoversApart(h: Heap, a: nat, b: nat, k: nat)
    requires h.w in h.mem.spaces && SpanInv(h) && a in h.arenas && b in h.arenas && a != b
    requires PageIndexed(h.w, b) && PageIndex(h.w, b) <= k < PageIndex(h.w, b) + Pages(h.arenas[b])
    ensures Covers(h, b, k) && !Covers(h, a, k)
  {
    IndexApart(h.w, a, Pages(h.arenas[a]), b, Pages(h.arenas[b]));
  }

  predicate PageIndexed(w: Who, a: nat) { a >= Vaddr(w, 0) }

  lemma ConserveDrop(h: Heap, h1: Heap, base: seq<bool>, a: nat)
    requires Conserves(h, base) && SpanInv(h) && a in h.arenas && h1.w == h.w && h.w in h1.mem.spaces
    requires h1.mem.spaces[h.w].vbits == Mark(h.mem.spaces[h.w].vbits, PageIndex(h.w, a), Pages(h.arenas[a]), false)
    requires h1.arenas == h.arenas - {a}
    ensures Conserves(h1, base)
  {
    var i, n := PageIndex(h.w, a), Pages(h.arenas[a]);
    forall k | 0 <= k < |base| ensures ArenaPage(h1, k) <==> ArenaPage(h, k) && !(i <= k < i + n) {
      DropPage(h, h1, a, k);
    }
    forall k | 0 <= k < |base| && i <= k < i + n ensures ArenaPage(h, k) { assert Covers(h, a, k); }
    hide ArenaPage, SpanInv, PageIndex;
  }

  lemma ConserveSame(h: Heap, h1: Heap, base: seq<bool>)
    requires Conserves(h, base) && h1.w == h.w && h1.mem == h.mem && h1.arenas.Keys == h.arenas.Keys
    requires forall a :: a in h.arenas ==> Pages(h1.arenas[a]) == Pages(h.arenas[a])
    ensures Conserves(h1, base)
  {
    forall k | 0 <= k < |base| ensures ArenaPage(h1, k) <==> ArenaPage(h, k) {
      if ArenaPage(h, k) {
        var b :| Covers(h, b, k);
        assert Covers(h1, b, k);
      }
      if ArenaPage(h1, k) {
        var b :| Covers(h1, b, k);
        assert Covers(h, b, k);
      }
    }
  }

  lemma LargeConserves(h: Heap, n: nat, m: Mem, i: nat, base: seq<bool>)
    requires MemOk(h.mem) && Ready(h) && SpanInv(h) && Conserves(h, base) && MallocPage(h.mem, h.w, n) == Ok((m, i))
    ensures Conserves(h.(mem := m, arenas := h.arenas[Vaddr(h.w, i) := Large(n)]), base)
  {
    hide MemOk, MallocPage, SpanInv, Conserves, Vaddr;
    var h1 := h.(mem := m, arenas := h.arenas[Vaddr(h.w, i) := Large(n)]);
    PagesTaken(h.mem, h.w, n, m, i);
    SpanAdd(h, m, i, Large(n), h1);
    ConserveAdd(h, h1, base, i, Large(n));
  }

  lemma NewConserves(h: Heap, d: nat, m: Mem, i: nat, base: seq<bool>)
    requires MemOk(h.mem) && Ready(h) && SpanInv(h) && Conserves(h, base) && d < DESC_CNT
    requires MallocPage(h.mem, h.w, 1) == Ok((m, i))
    ensures Conserves(NewArena(h, m, Vaddr(h.w, i), d), base)
  {
    hide MemOk, MallocPage, SpanInv, Conserves, Vaddr, BlockSeq, BlocksPer;
    var h0 := NewArena(h, m, Vaddr(h.w, i), d);
    PagesTaken(h.mem, h.w, 1, m, i);
    SpanAdd(h, m, i, Small(d, BlocksPer(d)), h0);
    ConserveAdd(h, h0, base, i, Small(d, BlocksPer(d)));
  }

  lemma MallocConserves(h: Heap, live: set<nat>, size: nat, base: seq<bool>)
    requires HeapInv(h, live) && Conserves(h, base) && SysMalloc(h, size).Ok?
    ensures Conserves(SysMalloc(h, size).value.0, base)
  {
    hide HeapInv, MallocPage, Conserves, MemOk, SpanInv, ListInv, Vaddr, TakeBlock;
    Parts(h, live);
    if size > 1024 {
      var n := (size + HEADER + PAGE - 1) / PAGE;
      var (m, i) := MallocPage(h.mem, h.w, n).value;
      LargeConserves(h, n, m, i, base);
    } else if h.free[ClassOf(size)] != [] {
      TakeConserves(h, ClassOf(size), base);
    } else {
      var (m, i) := MallocPage(h.mem, h.w, 1).value;
      NewConserves(h, ClassOf(size), m, i, base);
      TakeConserves(NewArena(h, m, Vaddr(h.w, i), ClassOf(size)), ClassOf(size), base);
    }
  }

  lemma TakeConserves(h: Heap, d: nat, base: seq<bool>)
    requires Conserves(h, base) && d < |h.free| && h.free[d] != [] && TakeBlock(h, d).Ok?
    ensures Conserves(TakeBlock(h, d).value.0, base)
  {
    hide Conserves, ArenaOf;
    ConserveSame(h, TakeBlock(h, d).value.0, base);
  }

  lemma Parts(h: Heap, live: set<nat>)
    requires HeapInv(h, live)
    ensures MemOk(h.mem) && Ready(h) && SpanInv(h) && ListInv(h, live)
  {}

  lemma DropConserves(h: Heap, a: nat, base: seq<bool>)
    requires MemOk(h.mem) && Ready(h) && SpanInv(h) && a in h.arenas && Conserves(h, base)
    ensures DropArena(h, a, Pages(h.arenas[a])).Ok? && Conserves(DropArena(h, a, Pages(h.arenas[a])).value, base)
  {
    var i, n := PageIndex(h.w, a), Pages(h.arenas[a]);
    hide MemOk, MfreePage, Conserves;
    PagesGiven(h.mem, h.w, i, n);
    ConserveDrop(h, DropArena(h, a, n).value, base, a);
  }

  lemma FreeConserves(h: Heap, live: set<nat>, ptr: nat, base: seq<bool>)
    requires HeapInv(h, live) && ptr in live && Conserves(h, base)
    ensures SysFree(h, ptr).Ok? && Conserves(SysFree(h, ptr).value, base)
  {
    hide HeapInv, ArenaOf, DropArena, Without, BlocksPer, Conserves, MemOk, SpanInv;
    LiveAddress(h, live, ptr);
    Parts(h, live);
    var a := ArenaOf(ptr);
    match h.arenas[a] {
      case Large(n) => DropConserves(h, a, base);
      case Small(d, cnt) =>
        SplitOf(h, live, a);
        var list := h.free[d] + [ptr];
        if cnt + 1 == BlocksPer(d) {
          var h1 := h.(free := h.free[d := Without(list, a)]);
          ConserveSame(h, h1, base);
          SpanSame(h, h1);
          DropConserves(h1, a, base);
        } else {
          ConserveSame(h, SysFree(h, ptr).value, base);
        }
    }
  }

  // ---------------------------------------------------------------- runs

  /** `Other` is any page operation that is not the heap's own: of other owners, of `fork`, of kernel code that asks for
      pages. */
  datatype Call = Malloc(size: nat) | Free(ptr: nat) | Other(op: Op)

  ghost predicate Touches(op: Op, w: Who) {
    match op case Alloc(v, _) => v == w case Free(v, _, _) => v == w case At(v, _) => v == w case _ => false
  }

  /** Nobody else gives back the pages of an arena. */
  ghost predicate Spares(h: Heap, op: Op) {
    op.Free? && op.w == h.w ==> forall k: nat :: op.i <= k < op.i + op.n ==> !ArenaPage(h, k)
  }

  /** What `op` does to the virtual pages of `w`: it clears those it frees and no others. */
  lemma DoBits(m: Mem, op: Op, r: Mem, w: Who, own: map<nat, Owner>)
    requires Inv(m, own, {}) && AllAgree(m) && ValidOp(m, op) && Do(m, op) == Ok(r) && w in m.spaces
    ensures w in r.spaces && |r.spaces[w].vbits| == |m.spaces[w].vbits|
    ensures forall k :: 0 <= k < |m.spaces[w].vbits| && m.spaces[w].vbits[k] ==>
      r.spaces[w].vbits[k] || (op.Free? && op.w == w && op.i <= k < op.i + op.n)
    ensures !Touches(op, w) ==> r.spaces[w].vbits == m.spaces[w].vbits
  {
    hide Inv, AllAgree, MallocPage, MfreePage, MapPage, ForkMem, Mapped, Unmapped, Taken;
    match op
    case Alloc(v, n) =>
      if MallocPage(m, v, n).Ok? { AllocBits(m, v, n, r, MallocPage(m, v, n).value.1, w, own); }
    case Free(v, i, n) => FreeBits(m, v, i, n, r, w, own);
    case At(v, i) => AtBits(m, v, i, r, w, own);
    case NewProcess(pid) =>
    case Fork(p, c) => var own1 := ForkKeeps(m, p, c, r, own);
  }

  lemma AllocBits(m: Mem, v: Who, n: nat, r: Mem, i: nat, w: Who, own: map<nat, Owner>)
    requires Inv(m, own, {}) && AllAgree(m) && v in m.spaces && |m.spaces[v].vbits| > 0
    requires MallocPage(m, v, n) == Ok((r, i))
    requires w in m.spaces
    ensures w in r.spaces
    ensures r.spaces[w].vbits == if w == v then Mark(m.spaces[w].vbits, i, n, true) else m.spaces[w].vbits
  {
    hide Inv, AllAgree, MallocPage, Taken;
    var own1, fs := MallocKeeps(m, v, n, r, i, own);
  }

  lemma FreeBits(m: Mem, v: Who, i: nat, n: nat, r: Mem, w: Who, own: map<nat, Owner>)
    requires Inv(m, own, {}) && AllAgree(m) && n >= 1 && Present(m, v, i, n) && MfreePage(m, v, i, n) == Ok(r)
    requires w in m.spaces
    ensures w in r.spaces
    ensures r.spaces[w].vbits == if w == v then Mark(m.spaces[w].vbits, i, n, false) else m.spaces[w].vbits
  {
    hide Inv, AllAgree, MfreePage, Taken;
    var own1, q := MfreeKeeps(m, v, i, n, own);
  }

  lemma AtBits(m: Mem, v: Who, i: nat, r: Mem, w: Who, own: map<nat, Owner>)
    requires Inv(m, own, {}) && v in m.spaces && GetAPage(m, v, i) == Ok(r) && w in m.spaces
    ensures w in r.spaces
    ensures r.spaces[w].vbits == if w == v then Mark(m.spaces[w].vbits, i, 1, true) else m.spaces[w].vbits
  {
    hide Inv, MapPage, Taken;
    MarkRunInv(m, v, i, 1, true, own);
    var own1, fs := MapPageKeeps(MarkRun(m, v, i, 1, true), v, i, own);
  }

  /** The pages in use that are not the heap's. */
  ghost function OthersPages(h: Heap): seq<bool>
    requires h.w in h.mem.spaces
  {
    seq(|h.mem.spaces[h.w].vbits|, k requires 0 <= k < |h.mem.spaces[h.w].vbits| =>
      h.mem.spaces[h.w].vbits[k] && !ArenaPage(h, k))
  }

  /** A page operation of somebody else keeps the heap's invariant. */
  lemma OtherKeeps(h: Heap, live: set<nat>, op: Op, r: Mem, base: seq<bool>)
    requires HeapInv(h, live) && Conserves(h, base) && ValidOp(h.mem, op) && Spares(h, op) && Do(h.mem, op) == Ok(r)
    ensures var h1 := h.(mem := r);
      && HeapInv(h1, live) && h1.w in r.spaces && Conserves(h1, OthersPages(h1))
      && (!Touches(op, h.w) ==> OthersPages(h1) == base)
  {
    hide Inv, AllAgree, Do, ValidOp, Conserves, SpanInv, ListInv, ArenaInv, Spares, OthersPages, Touches, ArenaPage;
    Parts(h, live);
    var own :| Inv(h.mem, own, {});
    DoBits(h.mem, op, r, h.w, own);
    var own1 := DoKeeps(h.mem, op, r, own);
    var h1 := h.(mem := r);
    OtherSpan(h, op, h1);
    assert ListInv(h1, live) by { SameLists(h, h1, live); }
    OtherBase(h, h1, base);
  }

  lemma SameLists(h: Heap, h1: Heap, live: set<nat>)
    requires ListInv(h, live) && h1.free == h.free && h1.arenas == h.arenas
    ensures ListInv(h1, live)
  {
  }

  lemma OtherSpan(h: Heap, op: Op, h1: Heap)
    requires h.w in h.mem.spaces && SpanInv(h) && Spares(h, op) && h1 == h.(mem := h1.mem) && h1.w in h1.mem.spaces
    requires |h1.mem.spaces[h.w].vbits| == |h.mem.spaces[h.w].vbits|
    requires forall k :: 0 <= k < |h.mem.spaces[h.w].vbits| && h.mem.spaces[h.w].vbits[k] ==>
      h1.mem.spaces[h.w].vbits[k] || (op.Free? && op.w == h.w && op.i <= k < op.i + op.n)
    ensures SpanInv(h1)
  {
    forall a, k | a in h.arenas && PageIndex(h.w, a) <= k < PageIndex(h.w, a) + Pages(h.arenas[a])
      ensures h1.mem.spaces[h.w].vbits[k]
    {
      assert Covers(h, a, k);
      assert ArenaPage(h, k);
    }
  }

  lemma OtherBase(h: Heap, h1: Heap, base: seq<bool>)
    requires Conserves(h, base) && h1 == h.(mem := h1.mem) && h1.w in h1.mem.spaces && SpanInv(h1)
    ensures Conserves(h1, OthersPages(h1))
    ensures h1.mem.spaces[h.w].vbits == h.mem.spaces[h.w].vbits ==> OthersPages(h1) == base
  {
    forall k: nat ensures ArenaPage(h1, k) == ArenaPage(h, k) {
      if ArenaPage(h, k) { var a :| Covers(h, a, k); assert Covers(h1, a, k); }
      if ArenaPage(h1, k) { var a :| Covers(h1, a, k); assert Covers(h, a, k); }
    }
    forall k: nat | k < |h1.mem.spaces[h.w].vbits| && ArenaPage(h1, k) ensures h1.mem.spaces[h.w].vbits[k] {
      var a :| Covers(h1, a, k);
    }
  }

  /** A run from `h` with live blocks `live`: every `Free` is of a live block, nobody frees an arena's pages, and no
      call has halted. */
  ghost predicate Legal(h: Heap, live: set<nat>, calls: seq<Call>)
    decreases |calls|
  {
    calls == [] ||
    (Ready(h) && match calls[0]
     case Malloc(n) =>
       (match SysMalloc(h, n)
        case Ok((h1, b)) => Legal(h1, live + {b}, calls[1..])
        case Null => Legal(h, live, calls[1..])
        case Halt => false)
     case Free(p) => p in live && SysFree(h, p).Ok? && Legal(SysFree(h, p).value, live - {p}, calls[1..])
     case Other(op) =>
       && ValidOp(h.mem, op) && Spares(h, op) && Do(h.mem, op).Ok? && h.w in Do(h.mem, op).value.spaces
       && Legal(h.(mem := Do(h.mem, op).value), live, calls[1..]))
  }

  /** The heap, the live blocks and the pages of others at the end; the heap's own calls leave those of others alone. */
  ghost function After(h: Heap, live: set<nat>, base: seq<bool>, calls: seq<Call>): (Heap, set<nat>, seq<bool>)
    requires Legal(h, live, calls)
    decreases |calls|
  {
    if calls == [] then (h, live, base)
    else match calls[0]
      case Malloc(n) =>
        (match SysMalloc(h, n)
         case Ok((h1, b)) => After(h1, live + {b}, base, calls[1..])
         case Null => After(h, live, base, calls[1..]))
      case Free(p) => After(SysFree(h, p).value, live - {p}, base, calls[1..])
      case Other(op) =>
        var h1 := h.(mem := Do(h.mem, op).value);
        After(h1, live, OthersPages(h1), calls[1..])
  }

  /** Every run of valid calls, whatever pages others take and give back in between, keeps the invariant and accounts
      for every page. */
  lemma {:induction false} RunKeepsHeap(h: Heap, live: set<nat>, base: seq<bool>, calls: seq<Call>)
    requires HeapInv(h, live) && Conserves(h, base) && Legal(h, live, calls)
    ensures var (h1, live1, base1) := After(h, live, base, calls); HeapInv(h1, live1) && Conserves(h1, base1)
    decreases |calls|
  {
    hide HeapInv, Conserves, SysMalloc, SysFree, Do, ValidOp, Spares, OthersPages;
    if calls != [] {
      match calls[0] {
        case Malloc(n) =>
          MallocKeepsHeap(h, live, n);
          match SysMalloc(h, n) {
            case Ok(r) =>
              MallocConserves(h, live, n, base);
              RunKeepsHeap(r.0, live + {r.1}, base, calls[1..]);
            case Null => RunKeepsHeap(h, live, base, calls[1..]);
          }
        case Free(p) =>
          FreeKeepsHeap(h, live, p);
          FreeConserves(h, live, p, base);
          RunKeepsHeap(SysFree(h, p).value, live - {p}, base, calls[1..]);
        case Other(op) =>
          var h1 := h.(mem := Do(h.mem, op).value);
          OtherKeeps(h, live, op, h1.mem, base);
          RunKeepsHeap(h1, live, OthersPages(h1), calls[1..]);
      }
    }
  }

  /** Nobody else takes or gives back virtual pages of `w`. */
  ghost predicate OnlyOwn(w: Who, calls: seq<Call>) {
    forall k :: 0 <= k < |calls| && calls[k].Other? ==> !Touches(calls[k].op, w)
  }

  lemma {:induction false} BaseKept(h: Heap, live: set<nat>, base: seq<bool>, calls: seq<Call>)
    requires HeapInv(h, live) && Conserves(h, base) && Legal(h, live, calls) && OnlyOwn(h.w, calls)
    ensures After(h, live, base, calls).2 == base
    decreases |calls|
  {
    hide HeapInv, Conserves, SysMalloc, SysFree, Do, ValidOp, Spares, OthersPages, Touches;
    if calls != [] {
      assert OnlyOwn(h.w, calls[1..]);
      match calls[0] {
        case Malloc(n) =>
          MallocKeepsHeap(h, live, n);
          match SysMalloc(h, n) {
            case Ok(r) =>
              MallocConserves(h, live, n, base);
              SameOwner(h, n);
              BaseKept(r.0, live + {r.1}, base, calls[1..]);
            case Null => BaseKept(h, live, base, calls[1..]);
          }
        case Free(p) =>
          FreeKeepsHeap(h, live, p);
          FreeConserves(h, live, p, base);
          FreeOwner(h, p);
          BaseKept(SysFree(h, p).value, live - {p}, base, calls[1..]);
        case Other(op) =>
          var h1 := h.(mem := Do(h.mem, op).value);
          OtherKeeps(h, live, op, h1.mem, base);
          BaseKept(h1, live, base, calls[1..]);
      }
    }
  }

  lemma SameOwner(h: Heap, n: nat)
    requires Ready(h) && SysMalloc(h, n).Ok?
    ensures SysMalloc(h, n).value.0.w == h.w
  {
    hide MallocPage, ArenaOf;
  }

  lemma FreeOwner(h: Heap, p: nat)
    requires Ready(h) && SysFree(h, p).Ok?
    ensures SysFree(h, p).value.w == h.w
  {
    hide MfreePage, ArenaOf;
  }

  /** Over every run from an empty heap: when everything allocated has been freed, no arena is left and the pages in
      use are those of others; if these took none of this address space, the page bitmap is what it was before the
      first call. */
  lemma EverythingReturned(h: Heap, calls: seq<Call>)
    requires HeapInv(h, {}) && Legal(h, {}, calls) && h.w in h.mem.spaces
    requires After(h, {}, h.mem.spaces[h.w].vbits, calls).1 == {}
    ensures var (h1, _, base) := After(h, {}, h.mem.spaces[h.w].vbits, calls);
      h1.arenas == map[] && h1.w in h1.mem.spaces && h1.mem.spaces[h1.w].vbits == base
    ensures OnlyOwn(h.w, calls) ==> After(h, {}, h.mem.spaces[h.w].vbits, calls).2 == h.mem.spaces[h.w].vbits
  {
    hide HeapInv, Conserves, Legal, After, OnlyOwn;
    StartConserves(h);
    var base := h.mem.spaces[h.w].vbits;
    RunKeepsHeap(h, {}, base, calls);
    EndConserves(After(h, {}, base, calls).0, After(h, {}, base, calls).2);
    if OnlyOwn(h.w, calls) { BaseKept(h, {}, base, calls); }
  }

  lemma StartConserves(h: Heap)
    requires HeapInv(h, {})
    ensures h.w in h.mem.spaces && Conserves(h, h.mem.spaces[h.w].vbits)
  {
    hide HeapInv, MemOk, SpanInv, ListInv;
    Parts(h, {});
    NothingLiveNothingHeld(h);
  }

  lemma EndConserves(h: Heap, base: seq<bool>)
    requires HeapInv(h, {}) && Conserves(h, base)
    ensures h.arenas == map[] && h.w in h.mem.spaces && h.mem.spaces[h.w].vbits == base
  {
    hide HeapInv;
    NothingLiveNothingHeld(h);
    forall k | 0 <= k < |base| ensures h.mem.spaces[h.w].vbits[k] == base[k] { assert !ArenaPage(h, k); }
  }

  /** The heap of an address space after `block_desc_init`. */
  ghost function EmptyHeap(m: Mem, w: Who, poolSize: nat): Heap {
    Heap(m, w, poolSize, seq(DESC_CNT, _ => []), map[])
  }

  lemma EmptyHolds(m: Mem, w: Who, poolSize: nat)
    requires MemOk(m) && w in m.spaces
    ensures HeapInv(EmptyHeap(m, w, poolSize), {})
  {
    assert BitsAgree(m.spaces[w]);
  }

  /** After `mem_pool_init` and `block_desc_init` the kernel's heap is empty and its invariant holds. */
  lemma BootHeap(allMem: nat, poolSize: nat)
    ensures HeapInv(EmptyHeap(MemPoolInit(allMem), Kernel, poolSize), {})
  {
    InitAgrees(allMem);
    EmptyHolds(MemPoolInit(allMem), Kernel, poolSize);
  }

  /** The same for a process that is created in any sound state of the memory. */
  lemma ProcessHeap(m: Mem, pid: nat, poolSize: nat)
    requires MemOk(m) && User(pid) !in m.spaces
    ensures HeapInv(EmptyHeap(WithProcess(m, pid, ClearBits()), User(pid), poolSize), {})
  {
    var own :| Inv(m, own, {});
    NewProcessKeeps(m, pid, own);
    hide Inv, AllAgree;
    EmptyHolds(WithProcess(m, pid, ClearBits()), User(pid), poolSize);
  }
}
