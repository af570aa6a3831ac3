/** fork.c: the copy of a process's address space.

    The child starts with a copy of the parent's virtual bitmap and an empty user half of the page table.
    `copy_body_stack3` walks the parent's bitmap; for every set bit it copies the page into a kernel buffer,
    switches to the child's page table, maps a fresh frame at the same address, copies the buffer out, and
    switches back. What this does to the memory structures is `ForkMem` of module `Paging`; here are the
    contents of the frames as well. */
module Forking {
  import opened Outcomes
  import opened Paging

  /** Contents of a frame. */
  type Page = seq<nat>

  datatype Machine = Machine(mem: Mem, data: map<nat, Page>)

  /** Every page of the process has contents. */
  ghost predicate HasData(s: Machine, p: nat) {
    && User(p) in s.mem.spaces
    && forall k :: k in s.mem.spaces[User(p)].ptes ==> s.mem.spaces[User(p)].ptes[k] in s.data
  }

  /** `copy_pcb_vaddrbitmap_stack0` and `create_page_dir`: the child has the bitmap and no page. */
  function Begin(s: Machine, p: nat, c: nat): Machine
    requires User(p) in s.mem.spaces
  {
    s.(mem := WithProcess(s.mem, c, s.mem.spaces[User(p)].vbits))
  }

  /** One page of the parent, copied into the child; a page whose bit is set but which is not mapped faults. */
  function CopyPage(s: Machine, p: nat, c: nat, k: nat): (r: Outcome<Machine>)
    requires User(p) in s.mem.spaces && User(c) in s.mem.spaces
    ensures !r.Null? && (r.Ok? ==> r.value.mem.spaces.Keys == s.mem.spaces.Keys)
  {
    var from := s.mem.spaces[User(p)].ptes;
    if k !in from || from[k] !in s.data then Halt
    else match MapPage(s.mem, User(c), k)
      case Ok(m) =>
        if k in m.spaces[User(c)].ptes then Ok(Machine(m, s.data[m.spaces[User(c)].ptes[k] := s.data[from[k]]]))
        else Halt
      case _ => Halt
  }

  /** The state after the first `n` bits of the parent's bitmap. */
  function CopyUpTo(s: Machine, p: nat, c: nat, n: nat): (r: Outcome<Machine>)
    requires User(p) in s.mem.spaces && User(c) in s.mem.spaces && n <= |s.mem.spaces[User(p)].vbits|
    ensures !r.Null? && (r.Ok? ==> r.value.mem.spaces.Keys == s.mem.spaces.Keys)
  {
    if n == 0 then Ok(s)
    else match CopyUpTo(s, p, c, n - 1)
      case Ok(t) => if s.mem.spaces[User(p)].vbits[n - 1] then CopyPage(t, p, c, n - 1) else Ok(t)
      case _ => Halt
  }

  // ---------------------------------------------------------------- the copy

  /** The child's pages have the contents of the parent's, and no frame that was in use has changed. */
  ghost predicate DataCopied(s: Machine, t: Machine, p: nat, c: nat) {
    && User(p) in s.mem.spaces && User(c) in t.mem.spaces
    && SameContents(s.data, s.mem.spaces[User(p)].ptes, t.data, t.mem.spaces[User(c)].ptes)
    && (forall f :: f in s.data && Taken(s.mem, f) ==> f in t.data && t.data[f] == s.data[f])
  }

  predicate SameContents(a: map<nat, Page>, from: map<nat, nat>, b: map<nat, Page>, to: map<nat, nat>) {
    forall k :: k in to ==> k in from && from[k] in a && to[k] in b && b[to[k]] == a[from[k]]
  }

  /** What copying one page does to the contents, in terms of the frame `f` it got. */
  ghost predicate PageCopied(t: Machine, r: Machine, p: nat, c: nat, n: nat, f: nat) {
    && User(p) in t.mem.spaces && User(c) in t.mem.spaces && User(c) in r.mem.spaces
    && n in t.mem.spaces[User(p)].ptes && t.mem.spaces[User(p)].ptes[n] in t.data
    && r.mem.spaces[User(c)].ptes == t.mem.spaces[User(c)].ptes[n := f]
    && r.data == t.data[f := t.data[t.mem.spaces[User(p)].ptes[n]]]
  }

  lemma CopyPageDoes(t: Machine, r: Machine, p: nat, c: nat, n: nat, fs: set<nat>)
    requires User(p) in t.mem.spaces && User(c) in t.mem.spaces && CopyPage(t, p, c, n) == Ok(r)
    requires Mapped(t.mem, r.mem, User(c), n, 1, fs)
    ensures User(c) in r.mem.spaces && n in r.mem.spaces[User(c)].ptes
    ensures PageCopied(t, r, p, c, n, r.mem.spaces[User(c)].ptes[n]) && !Taken(t.mem, r.mem.spaces[User(c)].ptes[n])
  {
    hide MapPage, Taken;
    var a, b := t.mem.spaces[User(c)], r.mem.spaces[User(c)];
    assert MappedSpace(a, b, User(c), n, 1, fs, t.mem.uStart);
    assert n in b.ptes && b.ptes[n] in fs;
    assert b.ptes == a.ptes[n := b.ptes[n]];
  }

  lemma CopyPageMem(t: Machine, r: Machine, p: nat, c: nat, n: nat)
    requires User(p) in t.mem.spaces && User(c) in t.mem.spaces && CopyPage(t, p, c, n) == Ok(r)
    ensures MapPage(t.mem, User(c), n) == Ok(r.mem)
  {
    hide MapPage;
  }

  lemma DataStep(s: Machine, t: Machine, r: Machine, p: nat, c: nat, n: nat, f: nat)
    requires DataCopied(s, t, p, c) && PageCopied(t, r, p, c, n, f) && HasData(s, p)
    requires t.mem.spaces[User(p)] == s.mem.spaces[User(p)]
    requires forall k :: k in t.mem.spaces[User(c)].ptes ==> t.mem.spaces[User(c)].ptes[k] != f
    requires forall k :: k in s.mem.spaces[User(p)].ptes ==> Taken(s.mem, s.mem.spaces[User(p)].ptes[k])
    requires !Taken(s.mem, f)
    ensures DataCopied(s, r, p, c)
  {
    hide Taken;
  }

  lemma AllTaken(m: Mem, w: Who, own: map<nat, Owner>)
    requires Inv(m, own, {}) && w in m.spaces
    ensures forall k :: k in m.spaces[w].ptes ==> Taken(m, m.spaces[w].ptes[k])
  {
    hide Inv, Taken;
    forall k | k in m.spaces[w].ptes ensures Taken(m, m.spaces[w].ptes[k]) { OwnedPage(m, w, k, own); }
  }

  lemma CopiedParts(m: Mem, r: Mem, c: nat, bits: seq<bool>, n: nat, p: nat)
    requires Copied(m, r, c, bits, n) && p != c && User(p) in m.spaces
    ensures User(p) in r.spaces && r.spaces[User(p)] == m.spaces[User(p)] && User(c) in r.spaces
    ensures forall f :: Taken(m, f) ==> Taken(r, f)
  {
    hide Taken;
  }

  /** Where the copy is after `n` bits: memory as `CopyMaps` has it, contents equal. */
  lemma {:induction false} CopyKeeps(s: Machine, p: nat, c: nat, n: nat, t: Machine, own: map<nat, Owner>)
    returns (own1: map<nat, Owner>)
    requires p != c && HasData(s, p) && User(c) in s.mem.spaces && s.mem.spaces[User(c)].ptes == map[]
    requires Inv(s.mem, own, {}) && n <= |s.mem.spaces[User(p)].vbits| && CopyUpTo(s, p, c, n) == Ok(t)
    ensures CopyMaps(s.mem, c, s.mem.spaces[User(p)].vbits, n) == Ok(t.mem)
    ensures Inv(t.mem, own1, {}) && Copied(s.mem, t.mem, c, s.mem.spaces[User(p)].vbits, n) && DataCopied(s, t, p, c)
  {
    hide Inv, CopyPage, Copied, DataCopied, HasData, MapPage;
    DataProcess(s, p);
    var bits := s.mem.spaces[User(p)].vbits;
    if n == 0 {
      own1 := own;
      CopiedNone(s.mem, c, bits);
      NothingCopied(s, p, c);
    } else {
      var u := CopyUpTo(s, p, c, n - 1).value;
      own1 := CopyKeeps(s, p, c, n - 1, u, own);
      if bits[n - 1] {
        CopyPageMem(u, t, p, c, n - 1);
        DataOne(s, u, t, p, c, n - 1, own, own1);
      }
      own1 := CopyMapsKeeps(s.mem, c, bits, n, t.mem, own);
    }
  }

  lemma NothingCopied(s: Machine, p: nat, c: nat)
    requires HasData(s, p) && User(c) in s.mem.spaces && s.mem.spaces[User(c)].ptes == map[]
    ensures DataCopied(s, s, p, c)
  {
    hide Taken;
  }

  lemma DataOne(s: Machine, u: Machine, t: Machine, p: nat, c: nat, n: nat, own: map<nat, Owner>, own1: map<nat, Owner>)
    requires p != c && HasData(s, p) && User(c) in s.mem.spaces && Inv(s.mem, own, {}) && Inv(u.mem, own1, {})
    requires Copied(s.mem, u.mem, c, s.mem.spaces[User(p)].vbits, n) && DataCopied(s, u, p, c)
    requires User(p) in u.mem.spaces && User(c) in u.mem.spaces && CopyPage(u, p, c, n) == Ok(t)
    ensures DataCopied(s, t, p, c)
  {
    hide Inv, CopyPage, Copied, DataCopied, HasData, MapPage, PageCopied, Mapped, Taken;
    DataProcess(s, p);
    CopiedParts(s.mem, u.mem, c, s.mem.spaces[User(p)].vbits, n, p);
    CopyPageMem(u, t, p, c, n);
    var own2, fs := MapPageKeeps(u.mem, User(c), n, own1);
    CopyPageDoes(u, t, p, c, n, fs);
    var f := t.mem.spaces[User(c)].ptes[n];
    AllTaken(u.mem, User(c), own1);
    AllTaken(s.mem, User(p), own);
    DataStep(s, u, t, p, c, n, f);
  }

  /** No frame of the child is used by anybody else, or twice by the child. */
  ghost predicate Unshared(m: Mem, c: nat) {
    User(c) in m.spaces &&
    forall k, w, j :: k in m.spaces[User(c)].ptes && w in m.spaces && j in m.spaces[w].ptes ==>
      m.spaces[User(c)].ptes[k] == m.spaces[w].ptes[j] ==> w == User(c) && j == k
  }

  lemma InvUnshared(m: Mem, c: nat, own: map<nat, Owner>)
    requires Inv(m, own, {}) && User(c) in m.spaces
    ensures Unshared(m, c)
  {
    hide Inv;
    forall k, w, j | k in m.spaces[User(c)].ptes && w in m.spaces && j in m.spaces[w].ptes &&
        m.spaces[User(c)].ptes[k] == m.spaces[w].ptes[j]
      ensures w == User(c) && j == k
    {
      OwnedPage(m, User(c), k, own);
      OwnedPage(m, w, j, own);
    }
  }

  /** The child is a copy: the same pages, in frames that were free and that nobody shares, with the same contents;
      nothing else has changed. */
  ghost predicate IsCopy(s: Machine, t: Machine, p: nat, c: nat) {
    && User(p) in s.mem.spaces && User(c) in t.mem.spaces && User(c) !in s.mem.spaces
    && t.mem.spaces == s.mem.spaces[User(c) := t.mem.spaces[User(c)]]
    && t.mem.spaces[User(c)].vbits == s.mem.spaces[User(p)].vbits
    && t.mem.spaces[User(c)].ptes.Keys == s.mem.spaces[User(p)].ptes.Keys
    && (forall k :: k in t.mem.spaces[User(c)].ptes ==> !Taken(s.mem, t.mem.spaces[User(c)].ptes[k]))
    && Unshared(t.mem, c) && DataCopied(s, t, p, c)
  }

  /** After `copy_body_stack3` the child is a copy of the parent, and in every address space the bitmap, the page table
      and the frames agree as before. */
  lemma ForkCopies(s: Machine, p: nat, c: nat, t: Machine, own: map<nat, Owner>)
    requires HasData(s, p) && User(c) !in s.mem.spaces && Inv(s.mem, own, {}) && AllAgree(s.mem)
    requires USER_PAGES <= |s.mem.spaces[User(p)].vbits| && CopyUpTo(Begin(s, p, c), p, c, USER_PAGES) == Ok(t)
    ensures ForkMem(s.mem, p, c) == Ok(t.mem)
    ensures IsCopy(s, t, p, c) && AllAgree(t.mem) && exists own1 :: Inv(t.mem, own1, {})
  {
    hide Inv, AllAgree, CopyUpTo, CopyMaps, Copied, HasData, DataCopied, Unshared, Taken;
    DataProcess(s, p);
    BeginKeeps(s, p, c, own);
    var s0 := Begin(s, p, c);
    var own0 := CopyKeeps(s0, p, c, USER_PAGES, t, own);
    assert ForkMem(s.mem, p, c) == Ok(t.mem);
    var own1 := ForkKeeps(s.mem, p, c, t.mem, own);
    InvUnshared(t.mem, c, own1);
    SameData(s, s0, t, p, c);
  }

  lemma BeginKeeps(s: Machine, p: nat, c: nat, own: map<nat, Owner>)
    requires HasData(s, p) && User(c) !in s.mem.spaces && Inv(s.mem, own, {})
    ensures p != c && HasData(Begin(s, p, c), p) && Inv(Begin(s, p, c).mem, own, {})
    ensures User(c) in Begin(s, p, c).mem.spaces && Begin(s, p, c).mem.spaces[User(c)].ptes == map[]
    ensures Begin(s, p, c).mem.spaces[User(p)] == s.mem.spaces[User(p)]
    ensures forall f :: Taken(Begin(s, p, c).mem, f) == Taken(s.mem, f)
  {
    hide Inv, Taken;
    WithProcessInv(s.mem, c, s.mem.spaces[User(p)].vbits, own);
  }

  lemma SameData(s: Machine, s0: Machine, t: Machine, p: nat, c: nat)
    requires DataCopied(s0, t, p, c) && s0.data == s.data && User(p) in s.mem.spaces
    requires User(p) in s0.mem.spaces && s0.mem.spaces[User(p)] == s.mem.spaces[User(p)]
    requires forall f :: Taken(s0.mem, f) == Taken(s.mem, f)
    ensures DataCopied(s, t, p, c)
  {
    hide Taken;
  }

  /** So it is for every `fork` in every reachable state. */
  lemma ForkInRun(ms: seq<Mem>, ops: seq<Op>, k: nat, s: Machine, p: nat, c: nat, t: Machine)
    requires IsRun(ms, ops) && k < |ms| && s.mem == ms[k] && HasData(s, p) && User(c) !in s.mem.spaces
    ensures |s.mem.spaces[User(p)].vbits| == USER_PAGES + 1
    ensures CopyUpTo(Begin(s, p, c), p, c, USER_PAGES) == Ok(t) ==> IsCopy(s, t, p, c) && AllAgree(t.mem)
  {
    hide Inv, AllAgree, CopyUpTo, IsCopy, IsRun, HasData;
    var own := RunOwners(ms, ops, k);
    DataProcess(s, p);
    TopPageAbsent(s.mem, p, own);
    if CopyUpTo(Begin(s, p, c), p, c, USER_PAGES) == Ok(t) { ForkCopies(s, p, c, t, own); }
  }

  lemma DataProcess(s: Machine, p: nat)
    requires HasData(s, p)
    ensures User(p) in s.mem.spaces
  {
  }

  // ---------------------------------------------------------------- the code

  class Forker {
    var mem: Mem
    var data: map<nat, Page>

    function View(): Machine
      reads this
    {
      Machine(mem, data)
    }

    /** The body of the inner loop. */
    method CopyBit(p: nat, c: nat, k: nat) returns (ok: bool)
      requires User(p) in mem.spaces && User(c) in mem.spaces
      modifies this
      ensures match CopyPage(old(View()), p, c, k)
              case Ok(t) => ok && View() == t
              case _ => !ok
    {
      hide MapPage;
      var from := mem.spaces[User(p)].ptes;
      if k !in from || from[k] !in data {
        return false;                                  // page fault
      }
      var bufPage := data[from[k]];
      var r := MapPage(mem, User(c), k);
      if !r.Ok? || k !in r.value.spaces[User(c)].ptes {
        return false;
      }
      mem := r.value;
      data := data[mem.spaces[User(c)].ptes[k] := bufPage];
      ok := true;
    }

    /** `copy_body_stack3`: bytes of the parent's bitmap, then bits of a byte that is not zero. */
    method CopyBody(p: nat, c: nat, btmpBytesLen: nat) returns (ok: bool)
      requires p != c && User(p) in mem.spaces && User(c) in mem.spaces
      requires 8 * btmpBytesLen <= |mem.spaces[User(p)].vbits|
      modifies this
      ensures match CopyUpTo(old(View()), p, c, 8 * btmpBytesLen)
              case Ok(t) => ok && View() == t
              case _ => !ok
    {
      hide CopyPage, CopyUpTo;
      ghost var s := View();
      var vbits := mem.spaces[User(p)].vbits;
      CopyStart(s, p, c);
      var idxByte := 0;
      while idxByte < btmpBytesLen
        invariant 0 <= idxByte <= btmpBytesLen && mem.spaces.Keys == s.mem.spaces.Keys
        invariant CopyUpTo(s, p, c, 8 * idxByte) == Ok(View())
      {
        if exists k :: 8 * idxByte <= k < 8 * idxByte + 8 && vbits[k] {
          ok := CopyByte(p, c, 8 * idxByte, vbits, s);
          if !ok {
            HaltStays(s, p, c, 8 * idxByte + 8, 8 * btmpBytesLen);
            return false;
          }
        } else {
          SkipClear(s, p, c, 8 * idxByte, 8, View());
        }
        idxByte := idxByte + 1;
      }
      ok := true;
    }

    /** The inner loop. */
    method CopyByte(p: nat, c: nat, i: nat, vbits: seq<bool>, ghost s: Machine) returns (ok: bool)
      requires User(p) in mem.spaces && User(c) in mem.spaces && mem.spaces.Keys == s.mem.spaces.Keys
      requires vbits == s.mem.spaces[User(p)].vbits && i + 8 <= |vbits| && CopyUpTo(s, p, c, i) == Ok(View())
      modifies this
      ensures ok ==> mem.spaces.Keys == s.mem.spaces.Keys && CopyUpTo(s, p, c, i + 8) == Ok(View())
      ensures !ok ==> CopyUpTo(s, p, c, i + 8) == Halt
    {
      hide CopyPage, CopyUpTo;
      var idxBit := 0;
      while idxBit < 8
        invariant 0 <= idxBit <= 8 && mem.spaces.Keys == s.mem.spaces.Keys
        invariant CopyUpTo(s, p, c, i + idxBit) == Ok(View())
      {
        CopyNext(s, p, c, i + idxBit, View());
        if vbits[i + idxBit] {
          ok := CopyBit(p, c, i + idxBit);
          if !ok {
            HaltStays(s, p, c, i + idxBit + 1, i + 8);
            return false;
          }
        }
        idxBit := idxBit + 1;
      }
      ok := true;
    }
  }

  lemma CopyStart(s: Machine, p: nat, c: nat)
    requires User(p) in s.mem.spaces && User(c) in s.mem.spaces
    ensures CopyUpTo(s, p, c, 0) == Ok(s)
  {
  }

  lemma CopyNext(s: Machine, p: nat, c: nat, n: nat, t: Machine)
    requires User(p) in s.mem.spaces && User(c) in s.mem.spaces && n < |s.mem.spaces[User(p)].vbits|
    requires CopyUpTo(s, p, c, n) == Ok(t)
    ensures User(p) in t.mem.spaces && User(c) in t.mem.spaces
    ensures CopyUpTo(s, p, c, n + 1) == if s.mem.spaces[User(p)].vbits[n] then CopyPage(t, p, c, n) else Ok(t)
  {
    hide CopyPage;
  }

  lemma {:induction false} SkipClear(s: Machine, p: nat, c: nat, n: nat, d: nat, t: Machine)
    requires User(p) in s.mem.spaces && User(c) in s.mem.spaces && n + d <= |s.mem.spaces[User(p)].vbits|
    requires CopyUpTo(s, p, c, n) == Ok(t) && forall k :: n <= k < n + d ==> !s.mem.spaces[User(p)].vbits[k]
    ensures CopyUpTo(s, p, c, n + d) == Ok(t)
    decreases d
  {
    hide CopyPage;
    if d > 0 {
      SkipClear(s, p, c, n, d - 1, t);
      assert !s.mem.spaces[User(p)].vbits[n + d - 1];
    }
  }

  lemma {:induction false} HaltStays(s: Machine, p: nat, c: nat, n: nat, m: nat)
    requires User(p) in s.mem.spaces && User(c) in s.mem.spaces && n <= m <= |s.mem.spaces[User(p)].vbits|
    requires CopyUpTo(s, p, c, n) == Halt
    ensures CopyUpTo(s, p, c, m) == Halt
    decreases m
  {
    hide CopyPage;
    if n < m { HaltStays(s, p, c, n, m - 1); }
  }
}
