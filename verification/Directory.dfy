/** dir.c: directories inside their 12 direct blocks. A block holds 21 slots of 24 bytes; the abstract value of a
    directory is the sequence of its 252 slots, and its entries are the live slots in order. */
module Directories {
  import opened Disks
  import opened BlockMaps

  const ENTRY := 24
  /** 512 / 24. */
  const PER_BLOCK := 21
  const SLOTS := 252

  /** The block of a slot. */
  function BlockOf(i: nat): (k: nat)
    ensures i < SLOTS ==> k < DIRECT
    ensures PER_BLOCK * k <= i < PER_BLOCK * k + PER_BLOCK
  {
    i / PER_BLOCK
  }

  /** `struct dir_entry`; type 0 is FT_UNKNOWN and marks a free slot. */
  datatype Entry = Entry(name: string, no: nat, ftype: nat)

  const EMPTY := Entry("", 0, 0)

  predicate Live(e: Entry) { e.ftype != 0 }

  predicate Dots(e: Entry) { e.name == "." || e.name == ".." }

  /** What `delete_dir_entry` looks for. */
  predicate Matches(e: Entry, no: nat) { Live(e) && !Dots(e) && e.no == no }

  /** The block addresses of the directory and what those blocks hold. */
  datatype Dir = Dir(sectors: seq<Word>, blocks: seq<seq<Entry>>, size: nat)

  predicate Shaped(d: Dir) {
    |d.sectors| == |d.blocks| == DIRECT && forall k :: 0 <= k < DIRECT ==> |d.blocks[k]| == PER_BLOCK
  }

  /** The slots in order; those of a block that is not there are free. */
  function Flat(d: Dir): (f: seq<Entry>)
    requires Shaped(d)
    ensures |f| == SLOTS
  {
    seq(SLOTS, i requires 0 <= i < SLOTS => if d.sectors[BlockOf(i)] ==
      0 then EMPTY else d.blocks[BlockOf(i)][i - PER_BLOCK * BlockOf(i)])
  }

  function Entries(f: seq<Entry>): seq<Entry> {
    if f == [] then [] else Entries(f[..|f| - 1]) + if Live(f[|f| - 1]) then [f[|f| - 1]] else []
  }

  /** "." and ".." are the first two slots and occur nowhere else; free slots are zero; the size counts the live
      ones; a block that is there has a live slot. */
  predicate DirOk(d: Dir) {
    && Shaped(d) && d.sectors[0] != 0 && SlotsOk(Flat(d)) && d.size == ENTRY * |Entries(Flat(d))|
    && forall k :: 1 <= k < DIRECT && d.sectors[k] != 0 ==> Occupied(Flat(d), k)
  }

  predicate Occupied(f: seq<Entry>, k: nat) { exists j: nat :: j < |f| && BlockOf(j) == k && Live(f[j]) }

  predicate SlotsOk(f: seq<Entry>) {
    && |f| == SLOTS && Live(f[0]) && f[0].name == "." && Live(f[1]) && f[1].name == ".."
    && forall i :: 2 <= i < SLOTS ==> !Dots(f[i]) && (Live(f[i]) || f[i] == EMPTY)
  }

  // ---------------------------------------------------------------- entries of a sequence of slots

  lemma {:induction false} EntriesConcat(f: seq<Entry>, g: seq<Entry>)
    ensures Entries(f + g) == Entries(f) + Entries(g)
  {
    if g == [] {
      assert f + g == f;
    } else {
      var n := |g| - 1;
      assert (f + g)[..|f + g| - 1] == f + g[..n];
      EntriesConcat(f, g[..n]);
    }
  }

  lemma EntriesOne(e: Entry)
    ensures Entries([e]) == if Live(e) then [e] else []
  {
    assert [e][..0] == [];
  }

  lemma {:induction false} EntriesSplit(f: seq<Entry>, i: nat)
    requires i < |f|
    ensures Entries(f) == Entries(f[..i]) + (if Live(f[i]) then [f[i]] else []) + Entries(f[i + 1..])
  {
    hide Entries;
    EntriesThree(f[..i], f[i], f[i + 1..]);
    assert f[..i] + [f[i]] + f[i + 1..] == f;
  }

  lemma {:induction false} EntriesThree(f: seq<Entry>, e: Entry, g: seq<Entry>)
    ensures Entries(f + [e] + g) == Entries(f) + (if Live(e) then [e] else []) + Entries(g)
  {
    hide Entries;
    EntriesConcat(f + [e], g);
    EntriesConcat(f, [e]);
    EntriesOne(e);
  }

  /** Filling a free slot inserts the entry at its place among the live ones; clearing a live slot takes it out. */
  lemma {:induction false} FillSlot(f: seq<Entry>, i: nat, e: Entry)
    requires i < |f| && !Live(f[i]) && Live(e)
    ensures Entries(f[i := e]) == Entries(f[..i]) + [e] + Entries(f[i + 1..])
    ensures Entries(f) == Entries(f[..i]) + Entries(f[i + 1..])
  {
    hide Entries;
    EntriesSplit(f, i);
    EntriesSplit(f[i := e], i);
    assert f[i := e][..i] == f[..i] && f[i := e][i + 1..] == f[i + 1..];
  }

  lemma {:induction false} FillKeeps(f: seq<Entry>, i: nat, e: Entry)
    requires SlotsOk(f) && i < SLOTS && !Live(f[i]) && Live(e) && !Dots(e)
    ensures SlotsOk(f[i := e]) && |Entries(f[i := e])| == |Entries(f)| + 1
    ensures multiset(Entries(f[i := e])) == multiset(Entries(f)) + multiset{e}
  {
    FillSlot(f, i, e);
    hide Entries;
  }

  lemma {:induction false} ClearKeeps(f: seq<Entry>, i: nat)
    requires SlotsOk(f) && 2 <= i < SLOTS && Live(f[i])
    ensures SlotsOk(f[i := EMPTY]) && |Entries(f[i := EMPTY])| == |Entries(f)| - 1
    ensures multiset(Entries(f)) == multiset(Entries(f[i := EMPTY])) + multiset{f[i]}
  {
    hide Entries;
    assert f[i := EMPTY][i := f[i]] == f;
    FillSlot(f[i := EMPTY], i, f[i]);
  }

  // ---------------------------------------------------------------- specification of the operations

  /** The slot that an insertion uses. */
  function FirstFree(f: seq<Entry>, from: nat): (i: nat)
    requires from <= |f|
    ensures from <= i <= |f| && (i < |f| ==> !Live(f[i])) && forall k :: from <= k < i ==> Live(f[k])
    decreases |f| - from
  {
    if from == |f| || !Live(f[from]) then from else FirstFree(f, from + 1)
  }

  function FirstMatch(f: seq<Entry>, from: nat, no: nat): (i: nat)
    requires from <= |f|
    ensures from <= i <= |f| && (i < |f| ==> Matches(f[i], no)) && forall k :: from <= k < i ==> !Matches(f[k], no)
    decreases |f| - from
  {
    if from == |f| || Matches(f[from], no) then from else FirstMatch(f, from + 1, no)
  }

  /** A block that was not there gets the entry twice: the slot search runs over the new block as well. */
  predicate Inserted(d: Dir, e: Entry, d1: Dir)
    requires Shaped(d)
  {
    var f, i := Flat(d), FirstFree(Flat(d), 0);
    && Shaped(d1) && i < SLOTS
    && if d.sectors[BlockOf(i)] != 0
       then d1.sectors == d.sectors && Flat(d1) == f[i := e] && d1.size == d.size + ENTRY
       else && i == PER_BLOCK * BlockOf(i) && d1.sectors == d.sectors[BlockOf(i) := d1.sectors[BlockOf(i)]]
            && d1.sectors[BlockOf(i)] != 0 && i + 1 < SLOTS
            && Flat(d1) == f[i := e][i + 1 := e] && d1.size == d.size + 2 * ENTRY
  }

  /** Another match in the block of the first one fails an assertion. */
  predicate Doubled(f: seq<Entry>, no: nat) {
    var i := FirstMatch(f, 0, no);
    i < |f| && exists j: nat :: i < j < |f| && BlockOf(j) == BlockOf(i) && Matches(f[j], no)
  }

  /** Some other slot of the block of slot `i` is live. */
  predicate Shared(f: seq<Entry>, i: nat) {
    exists j: nat :: j < |f| && j != i && BlockOf(j) == BlockOf(i) && Live(f[j])
  }

  predicate Deleted(d: Dir, no: nat, d1: Dir)
    requires Shaped(d)
  {
    var f, i := Flat(d), FirstMatch(Flat(d), 0, no);
    && Shaped(d1) && i < SLOTS && Flat(d1) == f[i := EMPTY] && d1.size == d.size - ENTRY
    && (d1.sectors == d.sectors || (BlockOf(i) != 0 && d1.sectors == d.sectors[BlockOf(i) := 0]))
    && (d1.sectors == d.sectors <==> BlockOf(i) == 0 || Shared(f, i))
  }

  // ---------------------------------------------------------------- what the operations keep

  /** An insertion keeps the directory sound and adds its entry once, or twice where it opens a block. */
  lemma InsertKeeps(d: Dir, e: Entry, d1: Dir)
    requires DirOk(d) && Live(e) && !Dots(e) && Inserted(d, e, d1)
    ensures DirOk(d1)
    ensures multiset(Entries(Flat(d1))) == multiset(Entries(Flat(d))) + if d1.sectors ==
      d.sectors then multiset{e} else multiset{e, e}
  {
    hide Flat, Entries, SlotsOk, BlockOf;
    var f, i := Flat(d), FirstFree(Flat(d), 0);
    FillKeeps(f, i, e);
    if d.sectors[BlockOf(i)] == 0 {
      AbsentFree(d, i + 1);
      FillKeeps(f[i := e], i + 1, e);
    }
  }

  lemma NoMatchInDots(f: seq<Entry>, no: nat)
    requires SlotsOk(f)
    ensures FirstMatch(f, 0, no) >= 2
  {
  }

  /** A deletion keeps the directory sound and takes out exactly the entry it found. */
  lemma DeleteKeeps(d: Dir, no: nat, d1: Dir)
    requires DirOk(d) && Deleted(d, no, d1)
    ensures DirOk(d1)
    ensures var e := Flat(d)[FirstMatch(Flat(d), 0, no)];
      e.no == no && multiset(Entries(Flat(d))) == multiset(Entries(Flat(d1))) + multiset{e}
  {
    hide Flat, Entries, SlotsOk;
    NoMatchInDots(Flat(d), no);
    ClearKeeps(Flat(d), FirstMatch(Flat(d), 0, no));
  }

  lemma AbsentFree(d: Dir, i: nat)
    requires Shaped(d) && i < SLOTS && d.sectors[BlockOf(i)] == 0
    ensures Flat(d)[i] == EMPTY
  {
  }

  // ---------------------------------------------------------------- round trips and runs

  /** The test before the call: the slot that an insertion will use lies in a block that is not there. */
  predicate OpensBlock(d: Dir)
    requires Shaped(d)
  {
    var i := FirstFree(Flat(d), 0);
    i < SLOTS && d.sectors[BlockOf(i)] == 0
  }

  /** A delete right after the insert of a number the directory did not have stops the kernel exactly when the
      insert opened a block; otherwise it puts every slot back as it was. */
  lemma InsertThenDelete(d: Dir, e: Entry, d1: Dir)
    requires DirOk(d) && Live(e) && !Dots(e) && Inserted(d, e, d1) && FirstMatch(Flat(d), 0, e.no) == SLOTS
    ensures Doubled(Flat(d1), e.no) <==> d1.sectors != d.sectors
    ensures d1.sectors != d.sectors <==> OpensBlock(d)
    ensures forall d2: Dir :: d1.sectors == d.sectors && Deleted(d1, e.no, d2) ==>
      Flat(d2) == Flat(d) && d2.size == d.size
  {
    hide Flat, Entries, BlockOf;
    var f, i := Flat(d), FirstFree(Flat(d), 0);
    var f1 := Flat(d1);
    forall k | 0 <= k < i ensures !Matches(f1[k], e.no) { assert !Matches(f[k], e.no); }
    assert Matches(f1[i], e.no) && FirstMatch(f1, 0, e.no) == i;
    assert forall k :: i + 1 < k < SLOTS ==> f1[k] == f[k];
    if d.sectors[BlockOf(i)] == 0 {
      NextSlot(i);
      assert Matches(f1[i + 1], e.no);
    } else {
      assert f[i] == EMPTY && f[i := e][i := EMPTY] == f;
    }
  }

  lemma NextSlot(i: nat)
    requires i == PER_BLOCK * BlockOf(i)
    ensures BlockOf(i + 1) == BlockOf(i)
  {
  }

  datatype Op = Insert(e: Entry) | Delete(no: nat)

  predicate Step(d: Dir, op: Op, d1: Dir)
    requires Shaped(d)
  {
    match op
    case Insert(e) => Live(e) && !Dots(e) && Inserted(d, e, d1)
    case Delete(no) => Deleted(d, no, d1)
  }

  predicate IsRun(ds: seq<Dir>, ops: seq<Op>) {
    |ds| == |ops| + 1 && forall k :: 0 <= k < |ops| ==> Shaped(ds[k]) && Step(ds[k], ops[k], ds[k + 1])
  }

  /** Through every run of insertions and deletions the size is 24 times the number of live slots. */
  lemma {:induction false} RunKeeps(ds: seq<Dir>, ops: seq<Op>)
    requires IsRun(ds, ops) && DirOk(ds[0])
    ensures DirOk(ds[|ops|])
  {
    hide Flat, Inserted, Deleted, SlotsOk, Entries;
    if ops != [] {
      var n := |ops| - 1;
      RunKeeps(ds[..n + 1], ops[..n]);
      match ops[n]
      case Insert(e) => InsertKeeps(ds[n], e, ds[n + 1]);
      case Delete(no) => DeleteKeeps(ds[n], no, ds[n + 1]);
    }
  }

  /** `dir_is_empty` asks the size, and that answers whether any slot but the first two is live; if none is, the
      directory has no block but the first. */
  lemma EmptyMeansDots(d: Dir)
    requires DirOk(d)
    ensures d.size == 2 * ENTRY <==> forall i :: 2 <= i < SLOTS ==> !Live(Flat(d)[i])
    ensures d.size == 2 * ENTRY ==> Entries(Flat(d)) == [Flat(d)[0], Flat(d)[1]]
    ensures d.size == 2 * ENTRY ==> forall k :: 1 <= k < DIRECT ==> d.sectors[k] == 0
  {
    var f := Flat(d);
    hide Flat, Occupied;
    forall k | 1 <= k < DIRECT ensures (forall i :: 2 <= i < SLOTS ==> !Live(f[i])) ==> !Occupied(f, k) {
      NotOccupied(f, k);
    }
    TwoDots(f);
    EntriesConcat(f[..2], f[2..]);
    assert f == f[..2] + f[2..];
    NoEntries(f[2..]);
    assert forall i :: 2 <= i < SLOTS ==> f[2..][i - 2] == f[i];
  }

  lemma NotOccupied(f: seq<Entry>, k: nat)
    requires |f| == SLOTS && 1 <= k
    ensures (forall i :: 2 <= i < SLOTS ==> !Live(f[i])) ==> !Occupied(f, k)
  {
  }

  lemma {:induction false} TwoDots(f: seq<Entry>)
    requires |f| >= 2 && Live(f[0]) && Live(f[1])
    ensures Entries(f[..2]) == [f[0], f[1]]
  {
    assert f[..2] == [f[0]] + [f[1]];
    EntriesConcat([f[0]], [f[1]]);
    EntriesOne(f[0]);
    EntriesOne(f[1]);
  }

  lemma {:induction false} NoEntries(f: seq<Entry>)
    ensures |Entries(f)| == 0 <==> forall i :: 0 <= i < |f| ==> !Live(f[i])
  {
    if f != [] {
      var n := |f| - 1;
      NoEntries(f[..n]);
      assert forall i :: 0 <= i < n ==> f[..n][i] == f[i];
      assert !Live(f[n]) && (forall i :: 0 <= i < n ==> !Live(f[..n][i])) ==> forall i :: 0 <= i < |f| ==> !Live(f[i]);
    }
  }

  // ---------------------------------------------------------------- blocks

  predicate Listed(sectors: seq<Word>, b: int) { b != 0 && exists n :: 0 <= n < |sectors| && sectors[n] == b }

  predicate Distinct(sectors: seq<Word>) {
    forall j, k :: 0 <= j < k < |sectors| && sectors[j] != 0 ==> sectors[j] != sectors[k]
  }

  /** Besides the blocks in `base`, exactly those of the directory are taken, each once. */
  predicate DirBits(a: Area, bits: seq<bool>, base: seq<bool>, sectors: seq<Word>) {
    && |bits| == |base| && Distinct(sectors)
    && (forall k :: 0 <= k < |sectors| && sectors[k] != 0 ==>
      a.start < sectors[k] < a.start + |bits| && !base[sectors[k] - a.start])
    && (forall k :: 0 <= k < |bits| ==> (bits[k] <==> base[k] || Listed(sectors, a.start + k)))
  }

  lemma ListMore(sectors: seq<Word>, k: nat, lba: Word, b: int)
    requires k < |sectors| && sectors[k] == 0 && lba != 0
    ensures Listed(sectors[k := lba], b) <==> Listed(sectors, b) || b == lba
  {
    var s1 := sectors[k := lba];
    assert s1[k] == lba;
    if Listed(sectors, b) {
      var n :| 0 <= n < |sectors| && sectors[n] == b;
      assert s1[n] == b;
    }
  }

  lemma ListLess(sectors: seq<Word>, k: nat, b: int)
    requires k < |sectors| && sectors[k] != 0 && Distinct(sectors)
    ensures Listed(sectors[k := 0], b) <==> Listed(sectors, b) && b != sectors[k]
  {
    var s1 := sectors[k := 0];
    if Listed(sectors, b) && b != sectors[k] {
      var n :| 0 <= n < |sectors| && sectors[n] == b;
      assert s1[n] == b;
    }
  }

  lemma TakeBlock(a: Area, b0: seq<bool>, b1: seq<bool>, base: seq<bool>, sectors: seq<Word>, k: nat, lba: Word)
    requires DirBits(a, b0, base, sectors) && k < |sectors| && sectors[k] == 0 && Alloced(a, b0, b1, lba)
    ensures DirBits(a, b1, base, sectors[k := lba])
  {
    hide Listed;
    forall b: int ensures Listed(sectors[k := lba], b) <==> Listed(sectors, b) || b == lba {
      ListMore(sectors, k, lba, b);
    }
    forall n | 0 <= n < |sectors| ensures sectors[n] != lba {
      AllListed(sectors, n);
      assert lba == a.start + (lba - a.start);
    }
  }

  lemma AllListed(sectors: seq<Word>, n: nat)
    requires n < |sectors|
    ensures sectors[n] != 0 ==> Listed(sectors, sectors[n])
  {
  }

  lemma GiveBlock(a: Area, b0: seq<bool>, base: seq<bool>, sectors: seq<Word>, k: nat)
    requires DirBits(a, b0, base, sectors) && k < |sectors| && sectors[k] != 0
    ensures 0 < sectors[k] - a.start < |b0| && DirBits(a, b0[sectors[k] - a.start := false], base, sectors[k := 0])
  {
    hide Listed;
    forall b: int ensures Listed(sectors[k := 0], b) <==> Listed(sectors, b) && b != sectors[k] {
      ListLess(sectors, k, b);
    }
  }

  // ---------------------------------------------------------------- the root directory

  /** The directory block that `partition_format` writes. */
  function RootBlock(): (b: seq<Entry>)
    ensures |b| == PER_BLOCK
  {
    [Entry(".", 0, 2), Entry("..", 0, 2)] + seq(PER_BLOCK - 2, _ => EMPTY)
  }

  function FormattedRoot(data: Word): (d: Dir)
    ensures Shaped(d)
  {
    Dir([data] + seq<Word>(DIRECT - 1, _ => 0), seq(DIRECT, _ => RootBlock()), 2 * ENTRY)
  }

  /** A formatted partition has a sound, empty root directory. */
  lemma FormattedRootOk(data: Word)
    requires data != 0
    ensures DirOk(FormattedRoot(data)) && Entries(Flat(FormattedRoot(data))) == RootBlock()[..2]
  {
    var d := FormattedRoot(data);
    var f := Flat(d);
    RootSlots(data);
    hide Flat, FormattedRoot;
    TwoDots(f);
    EntriesConcat(f[..2], f[2..]);
    assert f == f[..2] + f[2..];
    NoEntries(f[2..]);
  }

  lemma RootSlots(data: Word)
    requires data != 0
    ensures var f := Flat(FormattedRoot(data)); f[..2] == RootBlock()[..2] && forall i :: 2 <= i < SLOTS ==>
      f[i] == EMPTY
  {
  }

  // ---------------------------------------------------------------- the failing deletion is reachable

  function FillEntry(k: nat): (e: Entry)
    requires k < PER_BLOCK - 1
    ensures Live(e) && !Dots(e) && e.no == k + 1
  {
    Entry([(97 + k) as char], k + 1, 1)
  }

  /** The root directory with `k` entries behind the dots of its first block. */
  function Filled(data: Word, k: nat): (d: Dir)
    requires k <= PER_BLOCK - 2
    ensures Shaped(d)
  {
    FormattedRoot(data).(
      blocks := seq(DIRECT, _ => seq(PER_BLOCK, i requires 0 <= i < PER_BLOCK =>
        if 2 <= i < 2 + k then FillEntry(i - 2) else RootBlock()[i])),
      size := ENTRY * (2 + k))
  }

  lemma FilledFlat(data: Word, k: nat)
    requires data != 0 && k <= PER_BLOCK - 2
    ensures var f := Flat(Filled(data, k));
      && f[0] == RootBlock()[0] && f[1] == RootBlock()[1]
      && forall i :: 2 <= i < SLOTS ==> f[i] == if i < 2 + k then FillEntry(i - 2) else EMPTY
    ensures FirstFree(Flat(Filled(data, k)), 0) == 2 + k && FirstMatch(Flat(Filled(data, k)), 0, k + 1) == SLOTS
  {
    var f := Flat(Filled(data, k));
    forall i: nat | i < SLOTS ensures f[i] ==
      if 2 <= i < 2 + k then FillEntry(i - 2) else if i < 2 then RootBlock()[i] else EMPTY {}
    hide Flat, Filled;
    assert Live(f[0]) && Live(f[1]) && (2 + k < SLOTS ==> !Live(f[2 + k]));
  }

  lemma FilledStep(data: Word, k: nat)
    requires data != 0 && k < PER_BLOCK - 2
    ensures Inserted(Filled(data, k), FillEntry(k), Filled(data, k + 1))
  {
    FilledFlat(data, k);
    FilledFlat(data, k + 1);
    hide Flat, FirstFree;
    assert BlockOf(2 + k) == 0;
    assert Flat(Filled(data, k + 1)) == Flat(Filled(data, k))[2 + k := FillEntry(k)];
  }

  /** The full first block, and the entry twice in a second one at `lba`. */
  function Overfull(data: Word, lba: Word): (d: Dir)
    ensures Shaped(d)
  {
    var d, e := Filled(data, PER_BLOCK - 2), FillEntry(PER_BLOCK - 2);
    d.(sectors := d.sectors[1 := lba],
       blocks := d.blocks[1 := seq(PER_BLOCK, i => if i < 2 then e else EMPTY)],
       size := d.size + 2 * ENTRY)
  }

  lemma OverfullStep(data: Word, lba: Word)
    requires data != 0 && lba != 0
    ensures Inserted(Filled(data, PER_BLOCK - 2), FillEntry(PER_BLOCK - 2), Overfull(data, lba))
    ensures OpensBlock(Filled(data, PER_BLOCK - 2))
  {
    var d, d1, e := Filled(data, PER_BLOCK - 2), Overfull(data, lba), FillEntry(PER_BLOCK - 2);
    FilledFlat(data, PER_BLOCK - 2);
    assert BlockOf(PER_BLOCK) == 1;
    forall i: nat | i < SLOTS ensures Flat(d1)[i] == Flat(d)[PER_BLOCK := e][PER_BLOCK + 1 := e][i] {}
    hide Flat, FirstFree;
    assert Flat(d1) == Flat(d)[PER_BLOCK := e][PER_BLOCK + 1 := e];
  }

  /** From the formatted root directory twenty insertions of different entries lead to a directory in which deleting the
      last one stops the kernel. */
  lemma FailureReachable(data: Word, lba: Word) returns (ds: seq<Dir>, ops: seq<Op>)
    requires data != 0 && lba != 0
    ensures IsRun(ds, ops) && ds[0] == FormattedRoot(data) && |ops| == PER_BLOCK - 1
    ensures forall k :: 0 <= k < |ops| ==> ops[k] == Insert(FillEntry(k))
    ensures DirOk(ds[|ops|]) && Doubled(Flat(ds[|ops|]), ops[|ops| - 1].e.no)
  {
    hide Flat, FirstFree, Inserted, Filled, Overfull, DirOk, Doubled, FormattedRoot;
    var n := PER_BLOCK - 2;
    ds := seq(n + 1, k requires 0 <= k <= n => Filled(data, k)) + [Overfull(data, lba)];
    ops := seq(n + 1, k requires 0 <= k <= n => Insert(FillEntry(k)));
    forall k | 0 <= k <= n ensures Inserted(ds[k], FillEntry(k), ds[k + 1]) {
      if k < n { FilledStep(data, k); } else { OverfullStep(data, lba); }
    }
    FilledNone(data);
    FormattedRootOk(data);
    RunKeeps(ds, ops);
    assert DirOk(Filled(data, n)) by {
      assert IsRun(ds[..n + 1], ops[..n]);
      RunKeeps(ds[..n + 1], ops[..n]);
    }
    FilledFlat(data, n);
    OverfullStep(data, lba);
    InsertThenDelete(Filled(data, n), FillEntry(n), Overfull(data, lba));
  }

  lemma FilledNone(data: Word)
    ensures Filled(data, 0) == FormattedRoot(data)
  {
    forall k | 0 <= k < DIRECT ensures Filled(data, 0).blocks[k] == FormattedRoot(data).blocks[k] {
      assert Filled(data, 0).blocks[k] == RootBlock();
    }
  }
}
