/** dir.c: the block and slot loops over an open directory. */
module DirectoryOps {
  import opened Outcomes
  import opened Disks
  import opened Bitmaps
  import opened BlockMaps
  import opened Directories
  import opened InodeTables
  import opened Files
  import opened DirSectors
  import opened DirDisks
  import Runs = FileRuns

  lemma SlotBlock(k: nat, j: nat)
    requires k < DIRECT && j < PER_BLOCK
    ensures BlockOf(PER_BLOCK * k + j) == k && PER_BLOCK * k + j < SLOTS
  {
  }

  lemma FlatAt(d: Dir, k: nat, j: nat)
    requires Shaped(d) && k < DIRECT && j < PER_BLOCK
    ensures BlockOf(PER_BLOCK * k + j) == k && PER_BLOCK * k + j < SLOTS
    ensures Flat(d)[PER_BLOCK * k + j] == if d.sectors[k] == 0 then EMPTY else d.blocks[k][j]
  {
    SlotBlock(k, j);
  }

  lemma FlatWithSlot(d: Dir, k: nat, j: nat, e: Entry)
    requires Shaped(d) && k < DIRECT && j < PER_BLOCK && d.sectors[k] != 0
    ensures PER_BLOCK * k + j < SLOTS && Flat(WithSlot(d, k, j, e)) == Flat(d)[PER_BLOCK * k + j := e]
  {
    SlotBlock(k, j);
    var d1 := WithSlot(d, k, j, e);
    forall i: nat | i < SLOTS ensures Flat(d1)[i] == Flat(d)[PER_BLOCK * k + j := e][i] {
      if BlockOf(i) != k { assert i != PER_BLOCK * k + j; }
    }
  }

  lemma FlatWithBlock(d: Dir, k: nat, lba: Word, e: Entry)
    requires Shaped(d) && k < DIRECT && d.sectors[k] == 0 && lba != 0
    ensures PER_BLOCK * k < SLOTS && Flat(WithBlock(d, k, lba, NewBlock(e))) == Flat(d)[PER_BLOCK * k := e]
  {
    SlotBlock(k, 0);
    var d1 := WithBlock(d, k, lba, NewBlock(e));
    forall i: nat | i < SLOTS ensures Flat(d1)[i] == Flat(d)[PER_BLOCK * k := e][i] {
      if BlockOf(i) == k {
        FlatAt(d1, k, i - PER_BLOCK * k);
        FlatAt(d, k, i - PER_BLOCK * k);
      }
    }
  }

  /** Every slot of the blocks before `k` is live. */
  predicate FullBefore(d: Dir, k: nat)
    requires Shaped(d) && k <= DIRECT
  {
    forall i :: 0 <= i < PER_BLOCK * k ==> Live(Flat(d)[i])
  }

  lemma FirstFreeIn(f: seq<Entry>, i: nat)
    requires i < |f| && !Live(f[i]) && forall n :: 0 <= n < i ==> Live(f[n])
    ensures FirstFree(f, 0) == i
  {
  }

  lemma FullBlock(d: Dir, k: nat)
    requires Shaped(d) && k < DIRECT && FullBefore(d, k) && d.sectors[k] != 0
    requires forall j :: 0 <= j < PER_BLOCK ==> Live(d.blocks[k][j])
    ensures FullBefore(d, k + 1)
  {
    forall i: nat | PER_BLOCK * k <= i < PER_BLOCK * (k + 1) ensures Live(Flat(d)[i]) {
      FlatAt(d, k, i - PER_BLOCK * k);
    }
  }

  // ---------------------------------------------------------------- blocks of the directory

  /** The block change of an insertion, and of a deletion: what a run of the file system sees of them. */
  function InsertChange(d: Dir): Runs.Change
    requires Shaped(d) && FirstFree(Flat(d), 0) < SLOTS
  {
    var k := BlockOf(FirstFree(Flat(d), 0));
    if d.sectors[k] == 0 then Runs.Take(k) else Runs.Stay
  }

  function DeleteChange(d: Dir, no: nat): Runs.Change
    requires Shaped(d) && FirstMatch(Flat(d), 0, no) < SLOTS
  {
    var i := FirstMatch(Flat(d), 0, no);
    if BlockOf(i) == 0 || Shared(Flat(d), i) then Runs.Stay else Runs.Give(BlockOf(i))
  }

  lemma Fresh(a: Area, b0: seq<bool>, b1: seq<bool>, base: seq<bool>, sectors: seq<Word>, k: nat, lba: Word)
    requires |sectors| == DIRECT && DirBits(a, b0, base, Own(a, sectors)) && k < DIRECT && sectors[k] == 0
    requires Alloced(a, b0, b1, lba)
    ensures Own(a, sectors[k := lba]) == Own(a, sectors)[k := lba] && Own(a, sectors)[k] == 0
    ensures DirBits(a, b1, base, Own(a, sectors[k := lba]))
    ensures Runs.Changed(a, b0, b1, Own(a, sectors), Own(a, sectors[k := lba]), Runs.Take(k))
  {
    hide DirBits, FirstRun;
    TakeBlock(a, b0, b1, base, Own(a, sectors), k, lba);
  }

  lemma Back(a: Area, b0: seq<bool>, base: seq<bool>, sectors: seq<Word>, k: nat)
    requires |sectors| == DIRECT && DirBits(a, b0, base, Own(a, sectors)) && 0 < k < DIRECT && sectors[k] != 0
    ensures Own(a, sectors[k := 0]) == Own(a, sectors)[k := 0] && 0 < sectors[k] - a.start < |b0|
    ensures DirBits(a, b0[sectors[k] - a.start := false], base, Own(a, sectors[k := 0]))
    ensures Runs.Changed(a, b0, b0[sectors[k] - a.start := false], Own(a, sectors), Own(a, sectors[k := 0]),
      Runs.Give(k))
  {
    hide DirBits;
    GiveBlock(a, b0, base, Own(a, sectors), k);
  }

  lemma DeletedChange(a: Area, b0: seq<bool>, b1: seq<bool>, d: Dir, no: nat, d1: Dir)
    requires Shaped(d) && Deleted(d, no, d1)
    requires d1.sectors == d.sectors ==> b1 == b0
    requires d1.sectors != d.sectors ==>
      Runs.Changed(a, b0, b1, Own(a, d.sectors), Own(a, d1.sectors), Runs.Give(BlockOf(FirstMatch(Flat(d), 0, no))))
    ensures Runs.Changed(a, b0, b1, Own(a, d.sectors), Own(a, d1.sectors), DeleteChange(d, no))
  {
    hide Flat, FirstMatch, Own, BlockOf;
  }

  /** In a sound state of the file system the blocks of each directory are accounted for as the operations need it. */
  lemma AccountedFor(a: Area, bits: seq<bool>, own: seq<Word>)
    requires Runs.DirFine(a, bits, own)
    ensures exists base :: DirBits(a, bits, base, own)
  {
    Runs.ListedInArea(a, bits, own);
    Runs.ListedSet(a, bits, own);
    hide Listed, Distinct;
    var base := seq(|bits|, k requires 0 <= k < |bits| => bits[k] && !Listed(own, a.start + k));
    forall k | 0 <= k < |own| && own[k] != 0 ensures a.start < own[k] < a.start + |bits| && !base[own[k] - a.start] {
      AllListed(own, k);
      assert a.start + (own[k] - a.start) == own[k];
    }
    assert DirBits(a, bits, base, own);
  }

  /** The system around the directory: the sectors, the bitmap with the directory's blocks in it, and the reserved first
      block, which only the root has. */
  predicate System(g: Geometry, d: Disk, bits: seq<bool>, base: seq<bool>, no: nat, dir: Dir) {
    && Fits(g, d, bits) && OnDisk(d, dir) && DirBits(g.area, bits, base, Own(g.area, dir.sectors))
    && InArea(g.area, no, dir.sectors)
  }

  predicate InArea(a: Area, no: nat, sectors: seq<Word>)
    requires |sectors| == DIRECT
  {
    (no != 0 ==> sectors[0] != a.start) && forall k :: 0 <= k < DIRECT ==> sectors[k] < a.end
  }

  lemma SystemParts(g: Geometry, d: Disk, bits: seq<bool>, base: seq<bool>, no: nat, dir: Dir)
    requires System(g, d, bits, base, no, dir)
    ensures Shaped(dir) && OnDisk(d, dir) && Placed(g.area, bits, dir.sectors) && Distinct(dir.sectors)
    ensures AreaOk(g.area, bits) && g.area.end <= |d| && DirBits(g.area, bits, base, Own(g.area, dir.sectors))
  {
    hide AreaOk, DirBits, Unpack, Own;
    PlacedFrom(g.area, bits, base, dir.sectors);
  }

  lemma SystemArea(g: Geometry, d: Disk, bits: seq<bool>, base: seq<bool>, no: nat, dir: Dir)
    requires System(g, d, bits, base, no, dir)
    ensures Shaped(dir) && InArea(g.area, no, dir.sectors) && 0 < g.area.start && 0 < g.area.end
  {
    hide DirBits, Unpack, Own;
  }

  class Directory {
    const g: Geometry
    /** The number of its inode. */
    const number: Word
    var bits: seq<bool>
    var disk: Disk
    /** The inode's block addresses and size, and what those blocks hold. */
    var dir: Dir
    var pos: nat

    /** The slots of a block, read from the disk. */
    method ReadBlock(k: nat) returns (es: seq<Entry>)
      requires OnDisk(disk, dir) && k < DIRECT && dir.sectors[k] != 0
      ensures es == dir.blocks[k]
    {
      es := Unpack(disk[dir.sectors[k]]);
    }

    /** A slot of a block in the buffer is overwritten, and the buffer written back. */
    method WriteSlot(k: nat, j: nat, e: Entry)
      requires OnDisk(disk, dir) && Distinct(dir.sectors) && k < DIRECT && j < PER_BLOCK && dir.sectors[k] != 0
      requires EntryFits(e)
      modifies this`dir, this`disk
      ensures dir == WithSlot(old(dir), k, j, e) && OnDisk(disk, dir)
      ensures OnlyBlocks(old(disk), disk, old(dir).sectors, old(dir).sectors)
    {
      SlotStored(disk, dir, k, j, e);
      var s := dir.sectors[k];
      disk := disk[s := WithEntry(disk[s], j, e)];
      dir := WithSlot(dir, k, j, e);
    }

    /** The slot search of `sync_dir_entry` in one block: the slot used, or the number of slots. */
    method PutInBlock(k: nat, e: Entry) returns (j: nat)
      requires OnDisk(disk, dir) && Distinct(dir.sectors) && k < DIRECT && dir.sectors[k] != 0 && EntryFits(e)
      modifies this`dir, this`disk
      ensures j <= PER_BLOCK && forall n :: 0 <= n < j ==> Live(old(dir).blocks[k][n])
      ensures j < PER_BLOCK ==>
        !Live(old(dir).blocks[k][j]) && dir == WithSlot(old(dir), k, j, e).(size := old(dir).size + ENTRY)
      ensures j == PER_BLOCK ==> dir == old(dir) && disk == old(disk)
      ensures OnDisk(disk, dir) && OnlyBlocks(old(disk), disk, old(dir).sectors, old(dir).sectors)
    {
      var es := ReadBlock(k);
      j := 0;
      while j < PER_BLOCK
        invariant j <= PER_BLOCK && dir == old(dir) && disk == old(disk) && forall n :: 0 <= n < j ==> Live(es[n])
      {
        if !Live(es[j]) {
          WriteSlot(k, j, e);
          dir := dir.(size := dir.size + ENTRY);
          SameOnDisk(disk, dir, dir.size);
          return;
        }
        j := j + 1;
      }
    }

    /** A block that is not there: allocate it, write it with the entry in its first slot, and go on to the slot
        search like for any other block. */
    method InsertFresh(k: nat, e: Entry) returns (r: Outcome<bool>)
      requires AreaOk(g.area, bits) && g.area.end <= |disk| && OnDisk(disk, dir) && Placed(g.area, bits, dir.sectors)
      requires Live(e) && EntryFits(e) && k < DIRECT && dir.sectors[k] == 0 && FullBefore(dir, k)
      modifies this`dir, this`bits, this`disk
      ensures FirstFree(Flat(old(dir)), 0) == PER_BLOCK * k && BlockOf(PER_BLOCK * k) == k && PER_BLOCK * k < SLOTS
      ensures !r.Null? && (r.Halt? <==> ClearCount(old(bits)) == 0)
      ensures r.Ok? ==>
        Inserted(old(dir), e, dir) && Alloced(g.area, old(bits), bits, dir.sectors[k])
        && dir.sectors == old(dir).sectors[k := dir.sectors[k]]
      ensures r.Ok? ==> OnDisk(disk, dir) && OnlyBlocks(old(disk), disk, old(dir).sectors, dir.sectors)
    {
      hide Flat, ClearCount, FullBefore, FirstFree, BlockOf, OnlyBlocks, OnDisk, Unpack, WithEntry, EntryFits;
      OnDiskShape(disk, dir);
      FreshFirst(dir, k);
      FirstClear(g.area, bits);
      var n := FirstRun(bits, 0, |bits|, 1);
      if n == -1 { return Halt; }
      bits := bits[n := true];
      var lba := g.area.start + n;
      BlockStored(g.area, old(bits), bits, disk, dir, k, lba, e);
      disk := disk[lba := WithEntry(ZERO_SECTOR, 0, e)];
      dir := WithBlock(dir, k, lba, NewBlock(e)).(size := dir.size + ENTRY);
      SameOnDisk(disk, WithBlock(old(dir), k, lba, NewBlock(e)), dir.size);
      ghost var mid := disk;
      var j := PutInBlock(k, e);
      OnlyBlocksTrans(old(disk), mid, disk, old(dir).sectors, dir.sectors);
      InsertedFresh(old(dir), k, lba, e, dir, j);
      return Ok(true);
    }

    /** `sync_dir_entry`. `Null` stands for going on to the indirect blocks. */
    method Insert(e: Entry, ghost base: seq<bool>) returns (r: Outcome<bool>)
      requires System(g, disk, bits, base, number, dir) && Live(e) && EntryFits(e)
      modifies this`dir, this`bits, this`disk
      ensures r.Halt? <==> old(dir).size % ENTRY != 0 || NeedsBlock(old(dir), old(bits))
      ensures r.Null? <==> old(dir).size % ENTRY == 0 && FirstFree(Flat(old(dir)), 0) == SLOTS
      ensures r.Ok? ==> Inserted(old(dir), e, dir)
      ensures r.Ok? ==> DirBits(g.area, bits, base, Own(g.area, dir.sectors))
      ensures r.Ok? ==> Runs.Changed(g.area, old(bits), bits, Own(g.area, old(dir).sectors), Own(g.area, dir.sectors),
        InsertChange(old(dir)))
      ensures r.Ok? ==> OnDisk(disk, dir) && OnlyBlocks(old(disk), disk, old(dir).sectors, dir.sectors)
    {
      hide Flat, ClearCount, FirstRun, AreaOk, DirBits, Alloced, Own, OnDisk, OnlyBlocks, Placed, System, EntryFits;
      SystemParts(g, disk, bits, base, number, dir);
      if dir.size % ENTRY != 0 { return Halt; }
      var k := 0;
      while k < DIRECT
        invariant k <= DIRECT && dir == old(dir) && bits == old(bits) && disk == old(disk) && FullBefore(dir, k)
      {
        if dir.sectors[k] == 0 {
          r := InsertFresh(k, e);
          if r.Ok? { Fresh(g.area, old(bits), bits, base, old(dir).sectors, k, dir.sectors[k]); }
          return;
        }
        var j := PutInBlock(k, e);
        if j < PER_BLOCK {
          InsertedOld(old(dir), k, j, e);
          return Ok(true);
        }
        FullBlock(dir, k);
        k := k + 1;
      }
      return Null;
    }

    /** `sync_dir_entry` and then `inode_sync`, as in `file_create` and `sys_mkdir`. */
    method InsertAndSync(e: Entry, ghost base: seq<bool>) returns (r: Outcome<bool>)
      requires System(g, disk, bits, base, number, dir) && DirOk(dir) && Live(e) && !Dots(e) && EntryFits(e)
      modifies this`dir, this`bits, this`disk
      ensures r.Halt? <==> NeedsBlock(old(dir), old(bits))
      ensures r.Null? <==> FirstFree(Flat(old(dir)), 0) == SLOTS
      ensures r.Ok? ==> Inserted(old(dir), e, dir) && DirOk(dir)
      ensures r.Ok? ==> System(g, disk, bits, base, number, dir)
      ensures r.Ok? ==> Runs.Changed(g.area, old(bits), bits, Own(g.area, old(dir).sectors), Own(g.area, dir.sectors),
        InsertChange(old(dir)))
      ensures r.Ok? ==>
        Runs.DirDisk(g, old(disk), disk, number, Own(g.area, old(dir).sectors), Own(g.area, dir.sectors))
    {
      hide Flat, ClearCount, FirstRun, AreaOk, DirBits, Own, OnDisk, OnlyBlocks, Placed, System, EntryFits, DirOk;
      hide Inserted;
      hide Runs.Changed, Runs.DirDisk, NeedsBlock, FirstFree, Sync;
      SizeOfEntries(dir);
      r := Insert(e, base);
      if !r.Ok? { return; }
      InsertKeeps(old(dir), e, dir);
      SizeOfEntries(dir);
      SystemArea(g, old(disk), old(bits), base, number, old(dir));
      InsertedArea(g.area, old(bits), bits, number, old(dir), e, dir);
      SyncSystem(g, old(disk), disk, old(bits), bits, base, number, old(dir), dir, InsertChange(old(dir)));
      disk := Sync(disk, g.table, InodeOf(number, dir));
    }

    /** The end of `delete_dir_entry`: the block is given back when its entry is `alone`, or the slot is cleared. */
    method ClearSlot(no: nat, k: nat, j: nat, alone: bool, ghost base: seq<bool>)
      requires System(g, disk, bits, base, number, dir) && DirOk(dir) && k < DIRECT && dir.sectors[k] != 0
      requires j < PER_BLOCK && Matches(dir.blocks[k][j], no) && FirstMatch(Flat(dir), 0, no) == PER_BLOCK * k + j
      requires alone <==> (CountNamed(dir.blocks[k]) == 1
        && !(exists n :: 0 <= n < PER_BLOCK && Live(dir.blocks[k][n]) && dir.blocks[k][n].name == "."))
      requires dir.size >= ENTRY
      modifies this`dir, this`bits, this`disk
      ensures Deleted(old(dir), no, dir) && OnDisk(disk, dir)
      ensures OnlyBlocks(old(disk), disk, old(dir).sectors, dir.sectors)
      ensures DirBits(g.area, bits, base, Own(g.area, dir.sectors))
      ensures Runs.Changed(g.area, old(bits), bits, Own(g.area, old(dir).sectors), Own(g.area, dir.sectors),
        DeleteChange(old(dir), no))
    {
      hide Own, Runs.Changed, DirBits, DirOk, Flat, FirstMatch, Deleted, BlockOf, CountNamed, OnDisk, OnlyBlocks;
      hide Placed, System, EntryFits;
      SystemParts(g, disk, bits, base, number, dir);
      FoundBlock(dir, no, k, j);
      if alone {
        DeletedBlock(dir, no, k, j);
        Back(g.area, bits, base, dir.sectors, k);
        LessOnDisk(disk, dir, k);
        OnlyBlocksNone(disk, dir.sectors, dir.sectors[k := 0]);
        bits := bits[dir.sectors[k] - g.area.start := false];
        dir := dir.(sectors := dir.sectors[k := 0]);
      } else {
        DeletedSlot(dir, no, k, j);
        EmptyFits();
        WriteSlot(k, j, EMPTY);
      }
      SameOnDisk(disk, dir, dir.size - ENTRY);
      dir := dir.(size := dir.size - ENTRY);
      DeletedChange(g.area, old(bits), bits, old(dir), no, dir);
    }

    /** The slot and then the inode: `inode_sync` at the end of `delete_dir_entry`. */
    method DeleteAt(no: nat, k: nat, j: nat, alone: bool, ghost base: seq<bool>)
      requires System(g, disk, bits, base, number, dir) && DirOk(dir) && k < DIRECT && dir.sectors[k] != 0
      requires j < PER_BLOCK && Matches(dir.blocks[k][j], no) && FirstMatch(Flat(dir), 0, no) == PER_BLOCK * k + j
      requires alone <==> (CountNamed(dir.blocks[k]) == 1
        && !(exists n :: 0 <= n < PER_BLOCK && Live(dir.blocks[k][n]) && dir.blocks[k][n].name == "."))
      requires dir.size >= ENTRY
      modifies this`dir, this`bits, this`disk
      ensures Deleted(old(dir), no, dir) && DirOk(dir) && System(g, disk, bits, base, number, dir)
      ensures Runs.Changed(g.area, old(bits), bits, Own(g.area, old(dir).sectors), Own(g.area, dir.sectors),
        DeleteChange(old(dir), no))
      ensures Runs.DirDisk(g, old(disk), disk, number, Own(g.area, old(dir).sectors), Own(g.area, dir.sectors))
    {
      hide Own, Runs.Changed, DirBits, DirOk, Flat, FirstMatch, Deleted, BlockOf, CountNamed, OnDisk, OnlyBlocks;
      hide Placed, System, AreaOk, Runs.DirDisk, Sync, EntryFits, Matches;
      ClearSlot(no, k, j, alone, base);
      DeleteKeeps(old(dir), no, dir);
      SizeOfEntries(dir);
      SystemArea(g, old(disk), old(bits), base, number, old(dir));
      DeletedArea(g.area, number, old(dir), no, dir);
      SyncSystem(g, old(disk), disk, old(bits), bits, base, number, old(dir), dir, DeleteChange(old(dir), no));
      disk := Sync(disk, g.table, InodeOf(number, dir));
    }

    /** `delete_dir_entry`: false when no entry has the number; a second one in the same block fails an assertion. */
    method Delete(no: nat, ghost base: seq<bool>) returns (r: Outcome<bool>)
      requires System(g, disk, bits, base, number, dir) && DirOk(dir)
      modifies this`dir, this`bits, this`disk
      ensures !r.Null? && (r == Ok(false) <==> FirstMatch(Flat(old(dir)), 0, no) == SLOTS)
      ensures r == Ok(false) ==> dir == old(dir) && bits == old(bits) && disk == old(disk)
      ensures r.Halt? <==> Doubled(Flat(old(dir)), no)
      ensures r == Ok(true) ==> Deleted(old(dir), no, dir) && DirOk(dir)
      ensures r == Ok(true) ==> System(g, disk, bits, base, number, dir)
      ensures r == Ok(true) ==> Runs.Changed(g.area, old(bits), bits, Own(g.area, old(dir).sectors),
        Own(g.area, dir.sectors), DeleteChange(old(dir), no))
      ensures r == Ok(true) ==>
        Runs.DirDisk(g, old(disk), disk, number, Own(g.area, old(dir).sectors), Own(g.area, dir.sectors))
    {
      hide Own, Runs.Changed, DirBits, DirOk, Flat, FirstMatch, Doubled, Deleted, BlockOf, NoMatchBefore, Unique;
      hide CountNamed, OnDisk, OnlyBlocks, Placed, System, AreaOk, Runs.DirDisk, Sync, EntryFits;
      OkShape(dir);
      SystemParts(g, disk, bits, base, number, dir);
      NothingBefore(dir, no);
      var k := 0;
      while k < DIRECT
        invariant k <= DIRECT && dir == old(dir) && bits == old(bits) && disk == old(disk) && NoMatchBefore(dir, no, k)
      {
        if dir.sectors[k] == 0 {
          AbsentNoMatch(dir, no, k);
          k := k + 1;
          continue;
        }
        var es := ReadBlock(k);
        var ok, found, cnt, first := ScanBlock(es, no);
        if found < PER_BLOCK { FoundInBlock(dir, no, k, found); }
        if !ok { return Halt; }
        if found == PER_BLOCK {
          NotInBlock(dir, no, k);
          k := k + 1;
          continue;
        }
        EnoughSize(dir, no);
        DeleteAt(no, k, found, cnt == 1 && !first, base);
        return Ok(true);
      }
      NoMatchAnywhere(dir, no);
      return Ok(false);
    }

    /** `dir_read`: skip the entries already returned, then return the next one. */
    method ReadNext() returns (r: Outcome<Entry>)
      requires DirOk(dir) && OnDisk(disk, dir) && pos % ENTRY == 0
      modifies this`pos
      ensures r == NextEntry(Flat(dir), old(pos))
      ensures pos == if r.Ok? then old(pos) + ENTRY else old(pos)
    {
      hide Flat, Entries, BlockOf, SlotsOk;
      var k, cur := 0, 0;
      PassedNone(dir);
      while k < DIRECT
        invariant k <= DIRECT && pos == old(pos) && 0 <= cur <= pos && Passed(dir, PER_BLOCK * k, cur)
      {
        if pos >= dir.size { return Null; }
        if dir.sectors[k] == 0 {
          SkipBlock(dir, k, cur);
          k := k + 1;
          continue;
        }
        var es := ReadBlock(k);
        var j := 0;
        while j < PER_BLOCK
          invariant j <= PER_BLOCK && pos == old(pos) && 0 <= cur <= pos && Passed(dir, PER_BLOCK * k + j, cur)
        {
          var e := es[j];
          PassSlot(dir, k, j, cur);
          if Live(e) {
            if cur < pos {
              cur := cur + ENTRY;
            } else {
              pos := pos + ENTRY;
              return Ok(e);
            }
          }
          j := j + 1;
        }
        k := k + 1;
      }
      PassedAll(dir, cur);
      return Null;
    }

    /** Reading from the start until NULL yields every live slot exactly once, in slot order. */
    method ReadAll() returns (es: seq<Entry>)
      requires DirOk(dir) && OnDisk(disk, dir)
      modifies this`pos
      ensures es == Entries(Flat(dir)) && pos == dir.size
    {
      hide Flat, Entries, SlotsOk;
      es, pos := [], 0;
      ghost var all := Entries(Flat(dir));
      while true
        invariant |es| <= |all| && es == all[..|es|] && pos == ENTRY * |es|
        decreases |all| - |es|
      {
        var r := ReadNext();
        if !r.Ok? { break; }
        assert all[..|es| + 1] == all[..|es|] + [all[|es|]];
        es := es + [r.value];
      }
    }

    /** `dir_is_empty`. */
    method IsEmpty() returns (empty: bool)
      requires DirOk(dir)
      ensures empty <==> forall i :: 2 <= i < SLOTS ==> !Live(Flat(dir)[i])
    {
      EmptyMeansDots(dir);
      return dir.size == 2 * ENTRY;
    }

    /** The assertions of `dir_remove`: no block but the first. On an empty directory they hold. */
    method OnlyFirstBlock() returns (ok: bool)
      requires DirOk(dir)
      ensures ok <==> forall k :: 1 <= k < DIRECT ==> dir.sectors[k] == 0
      ensures dir.size == 2 * ENTRY ==> ok
    {
      EmptyMeansDots(dir);
      hide DirOk;
      for k := 1 to DIRECT
        invariant |dir.sectors| == DIRECT && forall i :: 1 <= i < k ==> dir.sectors[i] == 0
      {
        if dir.sectors[k] != 0 { return false; }
      }
      return true;
    }

    /** `search_dir_entry`: the first slot of a block that is there with that name. Free slots have the empty name, so
        under any other name it is a live entry. */
    method Search(name: string) returns (r: Outcome<Entry>)
      requires DirOk(dir) && OnDisk(disk, dir)
      ensures !r.Halt? && (r.Null? <==> NoHitBefore(dir, name, SLOTS))
      ensures r.Ok? ==>
        exists i: nat :: i < SLOTS && Hit(dir, i, name) && NoHitBefore(dir, name, i) && r.value == Flat(dir)[i]
      ensures r.Ok? && name != "" ==> Live(r.value) && r.value in Entries(Flat(dir))
    {
      hide Flat, DirOk, Entries, BlockOf, Hit;
      OkShape(dir);
      var k := 0;
      while k < DIRECT
        invariant k <= DIRECT && NoHitBefore(dir, name, PER_BLOCK * k)
      {
        if dir.sectors[k] == 0 {
          SkipAbsent(dir, k, name);
          k := k + 1;
          continue;
        }
        var es := ReadBlock(k);
        var j := 0;
        while j < PER_BLOCK
          invariant j <= PER_BLOCK && NoHitBefore(dir, name, PER_BLOCK * k + j)
        {
          SlotHit(dir, k, j, name);
          if es[j].name == name {
            NameFound(dir, PER_BLOCK * k + j);
            return Ok(es[j]);
          }
          j := j + 1;
        }
        k := k + 1;
      }
      return Null;
    }
  }

  // ---------------------------------------------------------------- disk and inode

  lemma OnDiskShape(d: Disk, dir: Dir)
    requires OnDisk(d, dir)
    ensures Shaped(dir)
  {
  }

  lemma SameOnDisk(d: Disk, dir: Dir, size: nat)
    requires OnDisk(d, dir)
    ensures OnDisk(d, dir.(size := size))
  {
    hide Unpack;
  }

  lemma LessOnDisk(d: Disk, dir: Dir, k: nat)
    requires OnDisk(d, dir) && k < DIRECT
    ensures OnDisk(d, dir.(sectors := dir.sectors[k := 0]))
  {
    hide Unpack;
  }

  lemma OnlyBlocksNone(d: Disk, a: seq<Word>, b: seq<Word>)
    ensures OnlyBlocks(d, d, a, b)
  {
  }

  lemma FoundBlock(d: Dir, no: nat, k: nat, j: nat)
    requires Shaped(d) && k < DIRECT && j < PER_BLOCK && FirstMatch(Flat(d), 0, no) == PER_BLOCK * k + j
    ensures BlockOf(FirstMatch(Flat(d), 0, no)) == k
  {
    hide Flat, FirstMatch;
    SlotBlock(k, j);
  }

  lemma EmptyFits()
    ensures EntryFits(EMPTY)
  {
  }

  lemma {:induction false} EntriesAtMost(f: seq<Entry>)
    ensures |Entries(f)| <= |f|
  {
    if f != [] { EntriesAtMost(f[..|f| - 1]); }
  }

  /** The size is a multiple of 24 and fits a word. */
  lemma SizeOfEntries(d: Dir)
    requires DirOk(d)
    ensures Shaped(d) && d.size % ENTRY == 0 && d.size < 0x1_0000_0000
  {
    hide Entries, Occupied, SlotsOk;
    EntriesAtMost(Flat(d));
  }

  lemma AtLeast(a: Area, bits: seq<bool>, base: seq<bool>, sectors: seq<Word>)
    requires |sectors| == DIRECT && DirBits(a, bits, base, Own(a, sectors))
    ensures forall k :: 0 <= k < DIRECT ==> (sectors[k] != 0 ==> a.start <= sectors[k])
    ensures forall k :: 0 <= k < DIRECT ==> (Own(a, sectors)[k] != 0 ==> a.start < Own(a, sectors)[k])
  {
    hide Listed, Distinct;
    assert forall k :: 0 <= k < DIRECT ==> Own(a, sectors)[k] == sectors[k] || sectors[k] == a.start;
  }

  /** The bitmap still protects what it protected. */
  lemma FitsAfter(g: Geometry, d0: Disk, d1: Disk, b0: seq<bool>, b1: seq<bool>, no: nat, sectors: seq<Word>,
      after: seq<Word>, change: Runs.Change)
    requires Fits(g, d0, b0) && |d1| == |d0| && |sectors| == DIRECT && InArea(g.area, no, sectors)
    requires Runs.Changed(g.area, b0, b1, Own(g.area, sectors), after, change)
    requires forall k :: 0 <= k < DIRECT ==> (Own(g.area, sectors)[k] != 0 ==> g.area.start < Own(g.area, sectors)[k])
    ensures Fits(g, d1, b1)
  {
    hide FirstRun;
  }

  lemma SyncSystem(g: Geometry, d0: Disk, d1: Disk, b0: seq<bool>, b1: seq<bool>, base: seq<bool>, no: Word, dir: Dir,
      dir1: Dir, change: Runs.Change)
    requires System(g, d0, b0, base, no, dir) && OnDisk(d1, dir1) && OnlyBlocks(d0, d1, dir.sectors, dir1.sectors)
    requires DirBits(g.area, b1, base, Own(g.area, dir1.sectors)) && dir1.size < 0x1_0000_0000
    requires Runs.Changed(g.area, b0, b1, Own(g.area, dir.sectors), Own(g.area, dir1.sectors), change)
    requires InArea(g.area, no, dir1.sectors)
    ensures TableFits(d1, g.table)
    ensures var d2 := Sync(d1, g.table, InodeOf(no, dir1));
      && Runs.DirDisk(g, d0, d2, no, Own(g.area, dir.sectors), Own(g.area, dir1.sectors))
      && System(g, d2, b1, base, no, dir1)
  {
    hide AreaOk, DirBits, Own, OnDisk, Runs.DirDisk, Sync, Runs.Changed, Listed;
    OnDiskShape(d0, dir);
    OnDiskShape(d1, dir1);
    AtLeast(g.area, b0, base, dir.sectors);
    AtLeast(g.area, b1, base, dir1.sectors);
    SyncDisk(g, b0, d0, d1, no, dir.sectors, dir1);
    FitsAfter(g, d0, Sync(d1, g.table, InodeOf(no, dir1)), b0, b1, no, dir.sectors, Own(g.area, dir1.sectors), change);
  }

  lemma InsertedArea(a: Area, b0: seq<bool>, b1: seq<bool>, no: nat, dir: Dir, e: Entry, dir1: Dir)
    requires DirOk(dir) && Inserted(dir, e, dir1) && InArea(a, no, dir.sectors)
    requires Runs.Changed(a, b0, b1, Own(a, dir.sectors), Own(a, dir1.sectors), InsertChange(dir))
    ensures InArea(a, no, dir1.sectors)
  {
    hide Flat, Entries, SlotsOk, FirstFree, FirstRun, Occupied;
  }

  lemma DeletedArea(a: Area, no: nat, dir: Dir, x: nat, dir1: Dir)
    requires Shaped(dir) && Deleted(dir, x, dir1) && InArea(a, no, dir.sectors) && 0 < a.start && 0 < a.end
    ensures InArea(a, no, dir1.sectors)
  {
    hide Flat, FirstMatch, Shared;
  }

  /** What the two routines ensure is the step that the runs of the file system take. */
  lemma ChangeIsStep(g: Geometry, s: Runs.Fs, no: nat, change: Runs.Change, d1: Disk, b1: seq<bool>, own: seq<Word>)
    requires no in s.dirs && (no == 0 || Runs.Carries(s.disk, g.table, no))
    requires Runs.Changed(g.area, s.bits, b1, s.dirs[no], own, change)
    requires Runs.DirDisk(g, s.disk, d1, no, s.dirs[no], own)
    ensures Runs.ChangeDirStep(g, s, no, change, Runs.Fs(d1, b1, s.ibits, s.files, s.dirs[no := own]))
  {
    hide Runs.Changed, Runs.DirDisk, Runs.Carries;
  }

  /** The block that `partition_format` writes for the root directory, from a cleared buffer. */
  function RootSector(buf: Sector): Sector {
    WithEntry(WithEntry(buf, 0, Entry(".", 0, 2)), 1, Entry("..", 0, 2))
  }

  /** A formatted partition has its root directory on the disk. */
  lemma FormattedSystem(g: Geometry, d: Disk, bits: seq<bool>)
    requires Fits(g, d, bits) && g.area.start < g.area.end
    ensures System(g, d[g.area.start := RootSector(ZERO_SECTOR)], bits, bits, 0, FormattedRoot(g.area.start))
  {
    hide Unpack, WithEntry;
    UnpackZero();
    UnpackWith(ZERO_SECTOR, 0, Entry(".", 0, 2));
    UnpackWith(WithEntry(ZERO_SECTOR, 0, Entry(".", 0, 2)), 1, Entry("..", 0, 2));
    assert Unpack(RootSector(ZERO_SECTOR)) == RootBlock();
    var own := Own(g.area, FormattedRoot(g.area.start).sectors);
    assert forall k :: 0 <= k < DIRECT ==> own[k] == 0;
  }

  // ---------------------------------------------------------------- searching

  /** Slot `i` is in a block that is there and has the name. */
  predicate Hit(d: Dir, i: nat, name: string)
    requires Shaped(d) && i < SLOTS
  {
    d.sectors[BlockOf(i)] != 0 && Flat(d)[i].name == name
  }

  predicate NoHitBefore(d: Dir, name: string, i: nat) {
    Shaped(d) && i <= SLOTS && forall n: nat :: n < i ==> !Hit(d, n, name)
  }

  lemma SlotHit(d: Dir, k: nat, j: nat, name: string)
    requires Shaped(d) && k < DIRECT && j < PER_BLOCK && d.sectors[k] != 0
    ensures PER_BLOCK * k + j < SLOTS && Flat(d)[PER_BLOCK * k + j] == d.blocks[k][j]
    ensures Hit(d, PER_BLOCK * k + j, name) <==> d.blocks[k][j].name == name
  {
    FlatAt(d, k, j);
  }

  lemma SkipAbsent(d: Dir, k: nat, name: string)
    requires Shaped(d) && k < DIRECT
    ensures d.sectors[k] == 0 && NoHitBefore(d, name, PER_BLOCK * k) ==> NoHitBefore(d, name, PER_BLOCK * (k + 1))
  {
    if d.sectors[k] == 0 && NoHitBefore(d, name, PER_BLOCK * k) {
      forall i: nat | PER_BLOCK * k <= i < PER_BLOCK * (k + 1) ensures !Hit(d, i, name) {
        FlatAt(d, k, i - PER_BLOCK * k);
      }
    }
  }

  /** Free slots have no name, so a slot with one is live. */
  lemma NameFound(d: Dir, i: nat)
    requires DirOk(d) && i < SLOTS
    ensures Flat(d)[i].name != "" ==> Live(Flat(d)[i]) && Flat(d)[i] in Entries(Flat(d))
  {
    hide Flat, Entries;
    var f := Flat(d);
    if f[i].name != "" {
      assert Live(f[i]);
      EntriesSplit(f, i);
      assert f[i] in (Entries(f[..i]) + [f[i]] + Entries(f[i + 1..]));
    }
  }

  // ---------------------------------------------------------------- deletion

  predicate Named(e: Entry) { Live(e) && !Dots(e) }

  function CountNamed(es: seq<Entry>): nat {
    if es == [] then 0 else CountNamed(es[..|es| - 1]) + if Named(es[|es| - 1]) then 1 else 0
  }

  lemma {:induction false} CountZero(es: seq<Entry>)
    ensures CountNamed(es) == 0 <==> forall i :: 0 <= i < |es| ==> !Named(es[i])
  {
    if es != [] {
      var n := |es| - 1;
      CountZero(es[..n]);
      assert forall i :: 0 <= i < n ==> es[..n][i] == es[i];
      var rest := forall i :: 0 <= i < n ==> !Named(es[..n][i]);
      assert rest && !Named(es[n]) <==> forall i :: 0 <= i < |es| ==> !Named(es[i]);
    }
  }

  /** The count is 1 exactly when the entry is alone. */
  lemma {:induction false} CountOne(es: seq<Entry>, j: nat)
    requires j < |es| && Named(es[j])
    ensures CountNamed(es) >= 1
    ensures CountNamed(es) == 1 <==> forall i :: 0 <= i < |es| && i != j ==> !Named(es[i])
  {
    var n := |es| - 1;
    assert forall i :: 0 <= i < n ==> es[..n][i] == es[i];
    if j < n {
      CountOne(es[..n], j);
      var rest := forall i :: 0 <= i < n && i != j ==> !Named(es[..n][i]);
      assert rest && !Named(es[n]) <==> forall i :: 0 <= i < |es| && i != j ==> !Named(es[i]);
    } else {
      CountZero(es[..n]);
      var rest := forall i :: 0 <= i < n ==> !Named(es[..n][i]);
      assert rest <==> forall i :: 0 <= i < |es| && i != j ==> !Named(es[i]);
    }
  }

  /** No two entries of the block match. */
  predicate Unique(es: seq<Entry>, no: nat) {
    forall i, j :: 0 <= i < j < |es| ==> !(Matches(es[i], no) && Matches(es[j], no))
  }

  /** The counting pass over a block. It stops the kernel at a second match. */
  method ScanBlock(es: seq<Entry>, no: nat) returns (ok: bool, found: nat, cnt: nat, first: bool)
    requires |es| == PER_BLOCK
    ensures ok <==> Unique(es, no)
    ensures found <= PER_BLOCK && (found < PER_BLOCK ==> Matches(es[found], no)) && (!ok ==> found < PER_BLOCK)
    ensures forall i :: 0 <= i < found ==> !Matches(es[i], no)
    ensures ok ==> cnt == CountNamed(es) && (first <==> exists i :: 0 <= i < |es| && Live(es[i]) && es[i].name == ".")
  {
    found, cnt, first := PER_BLOCK, 0, false;
    var i := 0;
    while i < PER_BLOCK
      invariant i <= PER_BLOCK && cnt == CountNamed(es[..i])
      invariant found == PER_BLOCK ==> forall n :: 0 <= n < i ==> !Matches(es[n], no)
      invariant found < PER_BLOCK ==> found < i && Matches(es[found], no) && forall n :: 0 <= n < i && n != found ==>
        !Matches(es[n], no)
      invariant found <= PER_BLOCK
      invariant first <==> exists n :: 0 <= n < i && Live(es[n]) && es[n].name == "."
    {
      assert es[..i + 1][..i] == es[..i];
      if Live(es[i]) {
        if es[i].name == "." {
          first := true;
        } else if es[i].name != ".." {
          cnt := cnt + 1;
          if es[i].no == no {
            if found != PER_BLOCK { return false, found, cnt, first; }
            found := i;
          }
        }
      }
      i := i + 1;
    }
    assert es[..i] == es;
    ok := true;
  }

  predicate NoMatchBefore(d: Dir, no: nat, k: nat)
    requires Shaped(d) && k <= DIRECT
  {
    forall i :: 0 <= i < PER_BLOCK * k ==> !Matches(Flat(d)[i], no)
  }

  lemma OkShape(d: Dir)
    requires DirOk(d)
    ensures Shaped(d)
  {
  }

  lemma NothingBefore(d: Dir, no: nat)
    requires Shaped(d)
    ensures NoMatchBefore(d, no, 0)
  {
  }

  lemma AbsentNoMatch(d: Dir, no: nat, k: nat)
    requires Shaped(d) && k < DIRECT && NoMatchBefore(d, no, k) && d.sectors[k] == 0
    ensures NoMatchBefore(d, no, k + 1)
  {
    forall i: nat | PER_BLOCK * k <= i < PER_BLOCK * (k + 1) ensures !Matches(Flat(d)[i], no) {
      FlatAt(d, k, i - PER_BLOCK * k);
    }
  }

  lemma NotInBlock(d: Dir, no: nat, k: nat)
    requires Shaped(d) && k < DIRECT && NoMatchBefore(d, no, k) && d.sectors[k] != 0
    requires forall j :: 0 <= j < PER_BLOCK ==> !Matches(d.blocks[k][j], no)
    ensures NoMatchBefore(d, no, k + 1)
  {
    forall i: nat | PER_BLOCK * k <= i < PER_BLOCK * (k + 1) ensures !Matches(Flat(d)[i], no) {
      FlatAt(d, k, i - PER_BLOCK * k);
    }
  }

  lemma NoMatchAnywhere(d: Dir, no: nat)
    requires Shaped(d) && NoMatchBefore(d, no, DIRECT)
    ensures FirstMatch(Flat(d), 0, no) == SLOTS && !Doubled(Flat(d), no)
  {
    hide Flat;
  }

  /** The block that holds the first match decides whether there is a second one in it. */
  lemma FoundInBlock(d: Dir, no: nat, k: nat, j: nat)
    requires Shaped(d) && k < DIRECT && d.sectors[k] != 0 && NoMatchBefore(d, no, k) && j < PER_BLOCK
    requires Matches(d.blocks[k][j], no) && forall n :: 0 <= n < j ==> !Matches(d.blocks[k][n], no)
    ensures FirstMatch(Flat(d), 0, no) == PER_BLOCK * k + j < SLOTS && BlockOf(PER_BLOCK * k + j) == k
    ensures Doubled(Flat(d), no) <==> !Unique(d.blocks[k], no)
  {
    FlatAt(d, k, j);
    var f, i := Flat(d), PER_BLOCK * k + j;
    forall n: nat | n < i ensures !Matches(f[n], no) {
      if PER_BLOCK * k <= n { FlatAt(d, k, n - PER_BLOCK * k); }
    }
    assert FirstMatch(f, 0, no) == i;
    DoubledInBlock(d, no, k, j);
  }

  lemma DoubledInBlock(d: Dir, no: nat, k: nat, j: nat)
    requires Shaped(d) && k < DIRECT && d.sectors[k] != 0 && j < PER_BLOCK
    requires FirstMatch(Flat(d), 0, no) == PER_BLOCK * k + j
    requires Matches(d.blocks[k][j], no) && forall n :: 0 <= n < j ==> !Matches(d.blocks[k][n], no)
    ensures Doubled(Flat(d), no) <==> !Unique(d.blocks[k], no)
  {
    hide Flat, BlockOf, FirstMatch, Matches;
    var f, i, es := Flat(d), PER_BLOCK * k + j, d.blocks[k];
    SlotBlock(k, j);
    if Doubled(f, no) {
      var m: nat :| i < m < |f| && BlockOf(m) == BlockOf(i) && Matches(f[m], no);
      var n := m - PER_BLOCK * k;
      FlatAt(d, k, n);
      assert j < n < |es| && Matches(es[j], no) && Matches(es[n], no);
    }
    if !Unique(es, no) {
      var p, q :| 0 <= p < q < |es| && Matches(es[p], no) && Matches(es[q], no);
      FlatAt(d, k, q);
      assert i < PER_BLOCK * k + q && Matches(f[PER_BLOCK * k + q], no);
    }
  }

  lemma EnoughSize(d: Dir, no: nat)
    requires DirOk(d) && FirstMatch(Flat(d), 0, no) < SLOTS
    ensures d.size >= ENTRY
  {
    hide Flat;
    NoEntries(Flat(d));
    assert Live(Flat(d)[0]);
  }

  lemma SharedInBlock(d: Dir, k: nat, j: nat)
    requires Shaped(d) && k < DIRECT && d.sectors[k] != 0 && j < PER_BLOCK
    ensures Shared(Flat(d), PER_BLOCK * k + j) <==> exists n :: 0 <= n < PER_BLOCK && n != j && Live(d.blocks[k][n])
  {
    var f, i, es := Flat(d), PER_BLOCK * k + j, d.blocks[k];
    hide Flat;
    SlotBlock(k, j);
    if Shared(f, i) {
      var m: nat :| m < |f| && m != i && BlockOf(m) == BlockOf(i) && Live(f[m]);
      FlatAt(d, k, m - PER_BLOCK * k);
    }
    if n :| 0 <= n < PER_BLOCK && n != j && Live(es[n]) {
      FlatAt(d, k, n);
      assert Live(f[PER_BLOCK * k + n]);
    }
  }

  /** Only the first block has dots, so there `first` holds, and elsewhere every live entry counts. */
  lemma DotsInBlock(d: Dir, k: nat)
    requires DirOk(d) && k < DIRECT && d.sectors[k] != 0
    ensures k == 0 <==> exists n :: 0 <= n < PER_BLOCK && Live(d.blocks[k][n]) && d.blocks[k][n].name == "."
    ensures k != 0 ==> forall n :: 0 <= n < PER_BLOCK ==> (Live(d.blocks[k][n]) <==> Named(d.blocks[k][n]))
  {
    var f := Flat(d);
    if k == 0 {
      FlatAt(d, 0, 0);
      assert d.blocks[k][0].name == ".";
    } else {
      forall n: nat | n < PER_BLOCK ensures !Dots(d.blocks[k][n]) { FlatAt(d, k, n); }
    }
  }

  lemma DeletedSlot(d: Dir, no: nat, k: nat, j: nat)
    requires DirOk(d) && k < DIRECT && d.sectors[k] != 0 && j < PER_BLOCK && d.size >= ENTRY
    requires FirstMatch(Flat(d), 0, no) == PER_BLOCK * k + j && Matches(d.blocks[k][j], no)
    requires !(CountNamed(d.blocks[k]) ==
      1 && !(exists n :: 0 <= n < PER_BLOCK && Live(d.blocks[k][n]) && d.blocks[k][n].name == "."))
    ensures Deleted(d, no, WithSlot(d, k, j, EMPTY).(size := d.size - ENTRY))
  {
    DotsInBlock(d, k);
    hide Flat, SlotsOk, FirstMatch, Shared;
    SlotBlock(k, j);
    FlatWithSlot(d, k, j, EMPTY);
    SizeOnly(WithSlot(d, k, j, EMPTY), d.size - ENTRY);
    CountOne(d.blocks[k], j);
    SharedInBlock(d, k, j);
  }

  lemma DeletedBlock(d: Dir, no: nat, k: nat, j: nat)
    requires DirOk(d) && k < DIRECT && d.sectors[k] != 0 && j < PER_BLOCK && d.size >= ENTRY
    requires FirstMatch(Flat(d), 0, no) == PER_BLOCK * k + j && Matches(d.blocks[k][j], no)
    requires CountNamed(d.blocks[k]) == 1
    requires !(exists n :: 0 <= n < PER_BLOCK && Live(d.blocks[k][n]) && d.blocks[k][n].name == ".")
    ensures k != 0 && Deleted(d, no, d.(sectors := d.sectors[k := 0], size := d.size - ENTRY))
  {
    DotsInBlock(d, k);
    CountOne(d.blocks[k], j);
    SharedInBlock(d, k, j);
    FlatWithout(d, k, j);
    hide Flat, SlotsOk, FirstMatch, Shared, CountNamed;
    SlotBlock(k, j);
    SizeOnly(d.(sectors := d.sectors[k := 0]), d.size - ENTRY);
  }

  lemma FlatWithout(d: Dir, k: nat, j: nat)
    requires DirOk(d) && k < DIRECT && d.sectors[k] != 0 && 0 < k && j < PER_BLOCK
    requires forall n :: 0 <= n < PER_BLOCK && n != j ==> !Live(d.blocks[k][n])
    ensures Flat(d.(sectors := d.sectors[k := 0])) == Flat(d)[PER_BLOCK * k + j := EMPTY]
  {
    SlotBlock(k, j);
    var d1 := d.(sectors := d.sectors[k := 0]);
    forall i: nat | i < SLOTS ensures Flat(d1)[i] == Flat(d)[PER_BLOCK * k + j := EMPTY][i] {
      if BlockOf(i) == k {
        FlatAt(d, k, i - PER_BLOCK * k);
        FlatAt(d1, k, i - PER_BLOCK * k);
      }
    }
  }

  // ---------------------------------------------------------------- reading

  /** The entry at byte position `pos` among the live ones. */
  function NextEntry(f: seq<Entry>, pos: nat): Outcome<Entry> {
    var es := Entries(f);
    if pos / ENTRY < |es| then Ok(es[pos / ENTRY]) else Null
  }

  /** The first `i` slots hold `cur / 24` live ones. */
  predicate Passed(d: Dir, i: nat, cur: nat) {
    Shaped(d) && i <= SLOTS && cur == ENTRY * |Entries(Flat(d)[..i])|
  }

  lemma PassedNone(d: Dir)
    requires Shaped(d)
    ensures Passed(d, 0, 0)
  {
  }

  lemma {:induction false} EntryAt(f: seq<Entry>, i: nat)
    requires i < |f|
    ensures Entries(f[..i + 1]) == Entries(f[..i]) + if Live(f[i]) then [f[i]] else []
    ensures Live(f[i]) ==> |Entries(f[..i])| < |Entries(f)| && Entries(f)[|Entries(f[..i])|] == f[i]
  {
    assert f[..i + 1][..i] == f[..i];
    EntriesSplit(f, i);
  }

  lemma {:induction false} PassOne(f: seq<Entry>, i: nat, cur: nat)
    requires i < |f| && cur == ENTRY * |Entries(f[..i])|
    ensures (if Live(f[i]) then cur + ENTRY else cur) == ENTRY * |Entries(f[..i + 1])|
    ensures Live(f[i]) ==> NextEntry(f, cur) == Ok(f[i])
  {
    hide Entries;
    EntryAt(f, i);
    assert cur / ENTRY == |Entries(f[..i])|;
  }

  lemma {:induction false} PassSlot(d: Dir, k: nat, j: nat, cur: nat)
    requires Shaped(d) && k < DIRECT && d.sectors[k] != 0 && j < PER_BLOCK && Passed(d, PER_BLOCK * k + j, cur)
    ensures var e := d.blocks[k][j]; Passed(d, PER_BLOCK * k + j + 1, if Live(e) then cur + ENTRY else cur)
    ensures Live(d.blocks[k][j]) ==> NextEntry(Flat(d), cur) == Ok(d.blocks[k][j])
  {
    hide Flat, Entries, NextEntry, BlockOf;
    FlatAt(d, k, j);
    PassOne(Flat(d), PER_BLOCK * k + j, cur);
  }

  lemma {:induction false} SkipBlock(d: Dir, k: nat, cur: nat)
    requires Shaped(d) && k < DIRECT && d.sectors[k] == 0 && Passed(d, PER_BLOCK * k, cur)
    ensures Passed(d, PER_BLOCK * (k + 1), cur)
  {
    var f := Flat(d);
    var a, b := f[..PER_BLOCK * k], f[PER_BLOCK * k..PER_BLOCK * (k + 1)];
    forall n: nat | n < PER_BLOCK ensures !Live(b[n]) { FlatAt(d, k, n); }
    hide Flat, Entries;
    NoEntries(b);
    EntriesConcat(a, b);
    assert a + b == f[..PER_BLOCK * (k + 1)];
  }

  lemma PassedAll(d: Dir, cur: nat)
    requires DirOk(d) && Passed(d, SLOTS, cur)
    ensures cur == d.size
  {
    hide Entries;
    assert Flat(d)[..SLOTS] == Flat(d);
  }

  /** A new block is needed and none is left. */
  predicate NeedsBlock(d: Dir, bits: seq<bool>)
    requires Shaped(d)
  {
    var i := FirstFree(Flat(d), 0);
    i < SLOTS && d.sectors[BlockOf(i)] == 0 && ClearCount(bits) == 0
  }

  lemma InsertedOld(d: Dir, k: nat, j: nat, e: Entry)
    requires Shaped(d) && k < DIRECT && d.sectors[k] != 0 && FullBefore(d, k) && j < PER_BLOCK
    requires !Live(d.blocks[k][j]) && forall n :: 0 <= n < j ==> Live(d.blocks[k][n])
    ensures Inserted(d, e, WithSlot(d, k, j, e).(size := d.size + ENTRY))
    ensures BlockOf(FirstFree(Flat(d), 0)) == k && FirstFree(Flat(d), 0) < SLOTS
  {
    FlatAt(d, k, j);
    FlatWithSlot(d, k, j, e);
    forall n: nat | n < PER_BLOCK * k + j ensures Live(Flat(d)[n]) {
      if PER_BLOCK * k <= n { FlatAt(d, k, n - PER_BLOCK * k); }
    }
    FirstFreeIn(Flat(d), PER_BLOCK * k + j);
    SizeOnly(WithSlot(d, k, j, e), d.size + ENTRY);
  }

  lemma SizeOnly(d: Dir, size: nat)
    requires Shaped(d)
    ensures Flat(d.(size := size)) == Flat(d)
  {
  }

  lemma FreshFirst(d: Dir, k: nat)
    requires Shaped(d) && k < DIRECT && d.sectors[k] == 0 && FullBefore(d, k)
    ensures FirstFree(Flat(d), 0) == PER_BLOCK * k && BlockOf(PER_BLOCK * k) == k && PER_BLOCK * k + 1 < SLOTS
  {
    FlatAt(d, k, 0);
    FirstFreeIn(Flat(d), PER_BLOCK * k);
  }

  lemma InsertedFresh(d: Dir, k: nat, lba: Word, e: Entry, d1: Dir, j: nat)
    requires Shaped(d) && k < DIRECT && d.sectors[k] == 0 && FullBefore(d, k) && lba != 0 && Live(e)
    requires var d0 := WithBlock(d, k, lba, NewBlock(e)).(size := d.size + ENTRY);
      && j <= PER_BLOCK && (forall n :: 0 <= n < j ==> Live(d0.blocks[k][n]))
      && (j < PER_BLOCK ==> !Live(d0.blocks[k][j]) && d1 == WithSlot(d0, k, j, e).(size := d0.size + ENTRY))
    ensures Inserted(d, e, d1) && d1.sectors == d.sectors[k := lba]
  {
    var d0 := WithBlock(d, k, lba, NewBlock(e)).(size := d.size + ENTRY);
    assert d0.blocks[k][1] == EMPTY;
    assert j == 1;
    FreshFirst(d, k);
    FlatWithBlock(d, k, lba, e);
    SizeOnly(WithBlock(d, k, lba, NewBlock(e)), d.size + ENTRY);
    FlatWithSlot(d0, k, 1, e);
    SizeOnly(WithSlot(d0, k, 1, e), d0.size + ENTRY);
  }
}
