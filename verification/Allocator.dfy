/** memory.c, `sys_malloc` and `sys_free` as code, on top of the page allocator's code. */
module Allocation {
  import opened Outcomes
  import opened Paging
  import opened PageAllocation
  import opened Heaps

  /** The list without `x`: what unlinking an element of a duplicate-free list leaves. */
  function Unlink(list: seq<nat>, x: nat): seq<nat> {
    if list == [] then []
    else if list[0] == x then Unlink(list[1..], x)
    else [list[0]] + Unlink(list[1..], x)
  }

  /** The list without the elements of `xs`. */
  ghost function Minus(list: seq<nat>, xs: set<nat>): seq<nat> {
    if list == [] then []
    else if list[0] in xs then Minus(list[1..], xs)
    else [list[0]] + Minus(list[1..], xs)
  }

  lemma {:induction false} MinusNothing(list: seq<nat>)
    ensures Minus(list, {}) == list
  {
    if list != [] {
      MinusNothing(list[1..]);
      assert list == [list[0]] + list[1..];
    }
  }

  lemma {:induction false} UnlinkMinus(list: seq<nat>, xs: set<nat>, x: nat)
    ensures Unlink(Minus(list, xs), x) == Minus(list, xs + {x})
  {
    if list != [] {
      UnlinkMinus(list[1..], xs, x);
      var rest := Minus(list[1..], xs);
      if list[0] !in xs {
        assert ([list[0]] + rest)[1..] == rest;
      }
    }
  }

  /** Taking off exactly the blocks of an arena is what `Without` says. */
  lemma {:induction false} MinusBlocks(list: seq<nat>, xs: set<nat>, a: nat)
    requires forall x :: x in list ==> (x in xs <==> ArenaOf(x) == a)
    ensures Minus(list, xs) == Without(list, a)
  {
    if list != [] {
      assert forall x :: x in list[1..] ==> x in list;
      assert list[0] in list;
      MinusBlocks(list[1..], xs, a);
    }
  }

  lemma PrefixNext(a: nat, d: nat, k: nat)
    ensures Prefix(a, d, 0) == {} && Prefix(a, d, k + 1) == Prefix(a, d, k) + {BlockAddr(a, d, k)}
  {
  }

  lemma OneClass(size: nat, d: nat)
    requires size <= 1024 && d < DESC_CNT && size <= BlockSize(d) && (d > 0 ==> BlockSize(d - 1) < size)
    ensures d == ClassOf(size)
  {
    match d case 0 => case 1 => case 2 => case 3 => case 4 => case 5 => case _ =>
  }

  class Allocator {
    const pager: PageAllocator
    const w: Who
    const poolSize: nat
    var free: seq<seq<nat>>
    var arenas: map<nat, Arena>

    function View(): Heap
      reads this, pager
    {
      Heap(pager.View(), w, poolSize, free, arenas)
    }

    /** `block_desc_init`, with no arena yet. */
    constructor (pager: PageAllocator, w: Who, poolSize: nat)
      ensures View() == Heap(pager.View(), w, poolSize, seq(DESC_CNT, _ => []), map[]) && this.pager == pager
    {
      this.pager, this.w, this.poolSize := pager, w, poolSize;
      free, arenas := seq(DESC_CNT, _ => []), map[];
    }

    method Take(d: nat) returns (r: Outcome<nat>)
      requires d < |free| && free[d] != []
      modifies this
      ensures match TakeBlock(old(View()), d)
              case Ok((h, b)) => r == Ok(b) && View() == h
              case _ => r == Halt
    {
      var b := free[d][0];
      free := free[d := free[d][1..]];
      var a := ArenaOf(b);
      if a !in arenas || !arenas[a].Small? {
        return Halt;
      }
      arenas := arenas[a := arenas[a].(cnt := arenas[a].cnt - 1)];
      r := Ok(b);
    }

    /** The loop that puts the blocks of a new arena on the free list; none of them may be there. */
    method FillArena(a: nat, d: nat) returns (ok: bool)
      requires d < |free|
      modifies this`free
      ensures ok <==> forall k: nat :: k < BlocksPer(d) ==> BlockAddr(a, d, k) !in old(free)[d]
      ensures ok ==> free == old(free)[d := old(free)[d] + BlockSeq(a, d, BlocksPer(d))]
    {
      var blockIdx := 0;
      assert old(free)[d] + BlockSeq(a, d, 0) == old(free)[d];
      while blockIdx < BlocksPer(d)
        invariant 0 <= blockIdx <= BlocksPer(d)
        invariant free == old(free)[d := old(free)[d] + BlockSeq(a, d, blockIdx)]
        invariant forall k: nat :: k < blockIdx ==> BlockAddr(a, d, k) !in old(free)[d]
      {
        NotYet(a, d, blockIdx);
        if BlockAddr(a, d, blockIdx) in free[d] { return false; }
        assert old(free)[d] + BlockSeq(a, d, blockIdx + 1) ==
          old(free)[d] + BlockSeq(a, d, blockIdx) + [BlockAddr(a, d, blockIdx)];
        free := free[d := free[d] + [BlockAddr(a, d, blockIdx)]];
        blockIdx := blockIdx + 1;
      }
      ok := true;
    }

    method Malloc(size: nat) returns (r: Outcome<nat>)
      requires Ready(View())
      modifies this, pager
      ensures match SysMalloc(old(View()), size)
              case Ok((h, b)) => r == Ok(b) && View() == h
              case Null => r == Null && View() == old(View())
              case Halt => r == Halt
    {
      hide MallocPage, Vaddr, BlockSeq, BlocksPer, ArenaOf;
      if !(0 < size < poolSize) {
        return Null;
      }
      if size > 1024 {
        var pageCnt := (size + HEADER + PAGE - 1) / PAGE;
        r := pager.MallocPage(w, pageCnt);
        if r.Ok? {
          var a := Vaddr(w, r.value);
          arenas := arenas[a := Large(pageCnt)];
          r := Ok(a + HEADER);
        }
      } else {
        var d := FindClass(size);
        if free[d] == [] {
          r := pager.MallocPage(w, 1);
          if !r.Ok? {
            return;
          }
          var a := Vaddr(w, r.value);
          arenas := arenas[a := Small(d, BlocksPer(d))];
          var ok := FillArena(a, d);
          if !ok || free[d] == [] {
            return Halt;
          }
        }
        r := Take(d);
      }
    }

    /** The search for a size class. */
    method FindClass(size: nat) returns (d: nat)
      requires size <= 1024
      ensures d == ClassOf(size)
    {
      d := 0;
      while d < DESC_CNT
        invariant d < DESC_CNT
        invariant forall e :: 0 <= e < d ==> BlockSize(e) < size
      {
        if size <= BlockSize(d) {
          break;
        }
        assert d < 6;
        d := d + 1;
      }
      OneClass(size, d);
    }

    /** The loop that takes the blocks of an empty arena off the free list; each must be found there. */
    method DrainArena(a: nat, d: nat)
      requires d < |free| && a % PAGE == 0
      requires forall k: nat :: k < BlocksPer(d) ==> BlockAddr(a, d, k) in free[d]
      requires forall x :: x in free[d] ==> (ArenaOf(x) == a <==> x in Blocks(a, d))
      modifies this`free
      ensures free == old(free)[d := Without(old(free)[d], a)]
    {
      ghost var list := free[d];
      var blockIdx := 0;
      MinusNothing(list);
      PrefixNext(a, d, 0);
      while blockIdx < BlocksPer(d)
        invariant 0 <= blockIdx <= BlocksPer(d)
        invariant free == old(free)[d := Minus(list, Prefix(a, d, blockIdx))]
      {
        UnlinkMinus(list, Prefix(a, d, blockIdx), BlockAddr(a, d, blockIdx));
        PrefixNext(a, d, blockIdx);
        free := free[d := Unlink(free[d], BlockAddr(a, d, blockIdx))];
        blockIdx := blockIdx + 1;
      }
      assert Prefix(a, d, BlocksPer(d)) == Blocks(a, d);
      MinusBlocks(list, Blocks(a, d), a);
    }

    /** `mfree_page` of an arena. */
    method Drop(a: nat, n: nat) returns (ok: bool)
      requires w in pager.spaces && pager.kStart <= pager.uStart && a >= Vaddr(w, 0)
      requires PageIndex(w, a) + n <= |pager.spaces[w].vbits|
      modifies this`arenas, pager
      ensures match DropArena(old(View()), a, n)
              case Ok(h) => ok && View() == h
              case _ => !ok
    {
      hide Paging.MfreePage;
      ok := pager.MfreePage(w, PageIndex(w, a), n);
      arenas := arenas - {a};
    }

    /** `sys_free` of a live block: no ASSERT fires. */
    method Free(ptr: nat, ghost live: set<nat>) returns (ok: bool)
      requires HeapInv(View(), live) && ptr in live && pager.kStart <= pager.uStart
      modifies this, pager
      ensures ok && SysFree(old(View()), ptr) == Ok(View())
    {
      hide HeapInv, DropArena, ArenaOf, Vaddr, BlocksPer, Without, BlockAddr, Blocks;
      FreeKeepsHeap(View(), live, ptr);
      LiveAddress(View(), live, ptr);
      FreedArena(View(), live, ptr);
      var a := ArenaOf(ptr);
      if arenas[a].Large? {
        ok := Drop(a, arenas[a].pages);
      } else {
        var d, cnt := arenas[a].desc, arenas[a].cnt;
        free := free[d := free[d] + [ptr]];
        if cnt + 1 == BlocksPer(d) {
          DrainArena(a, d);
          assert free == old(free)[d := Without(old(free)[d] + [ptr], a)];
          ok := Drop(a, 1);
        } else {
          arenas := arenas[a := Small(d, cnt + 1)];
          ok := true;
        }
      }
    }
  }

  /** What the code of `sys_free` relies on. */
  lemma FreedArena(h: Heap, live: set<nat>, ptr: nat)
    requires HeapInv(h, live) && ptr in live
    ensures var a := ArenaOf(ptr);
      && a in h.arenas && a % PAGE == 0 && a >= Vaddr(h.w, 0) && h.w in h.mem.spaces
      && PageIndex(h.w, a) + Pages(h.arenas[a]) <= |h.mem.spaces[h.w].vbits|
      && (h.arenas[a].Small? ==> var d := h.arenas[a].desc; var list := h.free[d] + [ptr];
            && d < DESC_CNT
            && (forall x :: x in list ==> (ArenaOf(x) == a <==> x in Blocks(a, d)))
            && (h.arenas[a].cnt + 1 == BlocksPer(d) ==> forall k: nat :: k < BlocksPer(d) ==>
              BlockAddr(a, d, k) in list))
  {
    var a := ArenaOf(ptr);
    Parts(h, live);
    if h.arenas[a].Small? {
      SplitOf(h, live, a);
      var d, cnt := h.arenas[a].desc, h.arenas[a].cnt;
      GiveFacts(h, live, ptr, a, d, cnt);
      BlocksInArena(a, d);
      SplitMembers(h.free[d], d, cnt, live, a, ptr);
    }
  }

  lemma SplitMembers(list: seq<nat>, d: nat, cnt: int, live: set<nat>, a: nat, ptr: nat)
    requires Split(list, d, cnt, live, a) && ptr in live && ArenaOf(ptr) == a
    requires forall x :: x in Blocks(a, d) ==> ArenaOf(x) == a
    ensures forall x :: x in list + [ptr] ==> (ArenaOf(x) == a <==> x in Blocks(a, d))
  {
    forall x | x in list + [ptr] ensures ArenaOf(x) == a <==> x in Blocks(a, d) {
      if ArenaOf(x) == a { assert x in InArena(Elems(list), a) || x in InArena(live, a); }
    }
  }

  /** The blocks of an arena are at different addresses. */
  lemma NotYet(a: nat, d: nat, n: nat)
    ensures BlockAddr(a, d, n) !in BlockSeq(a, d, n)
  {
    forall k: nat | k < n ensures BlockAddr(a, d, k) < BlockAddr(a, d, n) {
      assert (n - k) * BlockSize(d) > 0 && n * BlockSize(d) == k * BlockSize(d) + (n - k) * BlockSize(d);
    }
  }
}
