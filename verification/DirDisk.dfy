/** The sectors of a directory on the disk: what they hold, and what writing a slot, a new block or the inode
    changes. */
module DirDisks {
  import opened Disks
  import opened Outcomes
  import opened InodeTables
  import opened BlockMaps
  import opened Files
  import opened Directories
  import opened DirSectors
  import Runs = FileRuns

  function WithSlot(d: Dir, k: nat, j: nat, e: Entry): (r: Dir)
    requires Shaped(d) && k < DIRECT && j < PER_BLOCK
    ensures Shaped(r) && r.sectors == d.sectors && r.size == d.size
  {
    d.(blocks := d.blocks[k := d.blocks[k][j := e]])
  }

  function NewBlock(e: Entry): (b: seq<Entry>)
    ensures |b| == PER_BLOCK && b[0] == e && forall j :: 1 <= j < PER_BLOCK ==> b[j] == EMPTY
  {
    seq(PER_BLOCK, j => if j == 0 then e else EMPTY)
  }

  function WithBlock(d: Dir, k: nat, lba: Word, b: seq<Entry>): (r: Dir)
    requires Shaped(d) && k < DIRECT && |b| == PER_BLOCK
    ensures Shaped(r) && r.sectors == d.sectors[k := lba] && r.size == d.size
  {
    d.(sectors := d.sectors[k := lba], blocks := d.blocks[k := b])
  }

  /** The blocks that come and go: the first block of the root directory is the reserved data sector. */
  function Own(a: Area, sectors: seq<Word>): (own: seq<Word>)
    requires |sectors| == DIRECT
    ensures |own| == DIRECT
  {
    if sectors[0] == a.start then sectors[0 := 0] else sectors
  }

  /** The blocks of the directory hold its slots. */
  predicate OnDisk(d: Disk, dir: Dir) {
    Shaped(dir) && forall k :: 0 <= k < DIRECT && dir.sectors[k] != 0 ==>
      dir.sectors[k] < |d| && Unpack(d[dir.sectors[k]]) == dir.blocks[k]
  }

  /** Only blocks of the directory, before or after, changed. */
  predicate OnlyBlocks(d0: Disk, d1: Disk, a: seq<Word>, b: seq<Word>) {
    |d1| == |d0| && forall s :: 0 <= s < |d0| && d1[s] != d0[s] ==> Listed(a, s) || Listed(b, s)
  }

  /** The blocks are distinct data sectors with their bits set; one may be the reserved sector. */
  predicate Placed(a: Area, bits: seq<bool>, sectors: seq<Word>) {
    && |sectors| == DIRECT && Distinct(sectors)
    && forall k :: 0 <= k < DIRECT && sectors[k] != 0 ==>
      a.start <= sectors[k] < a.start + |bits| && bits[sectors[k] - a.start]
  }

  lemma PlacedFrom(a: Area, bits: seq<bool>, base: seq<bool>, sectors: seq<Word>)
    requires AreaOk(a, bits) && |sectors| == DIRECT && DirBits(a, bits, base, Own(a, sectors))
    ensures Placed(a, bits, sectors)
  {
    hide Listed;
    var own := Own(a, sectors);
    forall k | 0 <= k < DIRECT && sectors[k] != 0
      ensures a.start <= sectors[k] < a.start + |bits| && bits[sectors[k] - a.start]
    {
      if own[k] != 0 {
        AllListed(own, k);
        assert own[k] == a.start + (own[k] - a.start);
      }
    }
    assert forall j, k :: 0 <= j < k < DIRECT && sectors[j] != 0 ==> own[k] == sectors[k];
  }

  /** Writing one slot of a block. */
  lemma SlotStored(d: Disk, dir: Dir, k: nat, j: nat, e: Entry)
    requires OnDisk(d, dir) && Distinct(dir.sectors) && k < DIRECT && j < PER_BLOCK && dir.sectors[k] != 0
    requires EntryFits(e)
    ensures var s := dir.sectors[k]; var d1 := d[s := WithEntry(d[s], j, e)];
      OnDisk(d1, WithSlot(dir, k, j, e)) && OnlyBlocks(d, d1, dir.sectors, dir.sectors)
  {
    hide Unpack, WithEntry;
    UnpackWith(d[dir.sectors[k]], j, e);
    AllListed(dir.sectors, k);
  }

  /** Writing a new block with one entry. */
  lemma BlockStored(a: Area, b0: seq<bool>, b1: seq<bool>, d: Disk, dir: Dir, k: nat, lba: Word, e: Entry)
    requires OnDisk(d, dir) && Placed(a, b0, dir.sectors) && Alloced(a, b0, b1, lba) && k < DIRECT
    requires dir.sectors[k] == 0 && EntryFits(e) && a.end <= |d|
    ensures var d1 := d[lba := WithEntry(ZERO_SECTOR, 0, e)];
      OnDisk(d1, WithBlock(dir, k, lba, NewBlock(e))) && OnlyBlocks(d, d1, dir.sectors, dir.sectors[k := lba])
    ensures Placed(a, b1, dir.sectors[k := lba])
  {
    hide Unpack, WithEntry, Bitmaps.FirstRun;
    UnpackWith(ZERO_SECTOR, 0, e);
    UnpackZero();
    assert Unpack(WithEntry(ZERO_SECTOR, 0, e)) == NewBlock(e);
    AllListed(dir.sectors[k := lba], k);
  }

  lemma OnlyBlocksTrans(d0: Disk, d1: Disk, d2: Disk, a: seq<Word>, b: seq<Word>)
    requires OnlyBlocks(d0, d1, a, b) && OnlyBlocks(d1, d2, b, b)
    ensures OnlyBlocks(d0, d2, a, b)
  {
    hide Listed;
  }

  // ---------------------------------------------------------------- the inode

  /** The inode of the directory, as `inode_sync` writes it. */
  function InodeOf(no: Word, dir: Dir): (i: Inode)
    requires Shaped(dir) && dir.size < 0x1_0000_0000
    ensures WellFormed(i)
  {
    Inode(no, dir.size, 0, false, dir.sectors + [0], 0, 0)
  }

  /** Sectors outside the table do not matter for a slot. */
  lemma SlotSame(d0: Disk, d1: Disk, table: nat, x: nat)
    requires TableFits(d0, table) && |d1| == |d0| && x < MAX_FILES
    requires forall s :: table <= s < table + TABLE_SECTS ==> d1[s] == d0[s]
    ensures Slot(d1, table, x) == Slot(d0, table, x)
  {
    forall j | 0 <= j < INODE_SIZE ensures Slot(d1, table, x)[j] == Slot(d0, table, x)[j] {
      InTable(x, j);
    }
  }

  /** The blocks of the directory and then its inode are written: that is all a run of the file system sees. */
  lemma SyncDisk(g: Geometry, bits: seq<bool>, d0: Disk, d1: Disk, no: Word, a: seq<Word>, dir: Dir)
    requires Fits(g, d0, bits) && OnlyBlocks(d0, d1, a, dir.sectors) && |a| == DIRECT && OnDisk(d1, dir)
    requires dir.size < 0x1_0000_0000 && (no != 0 ==> dir.sectors[0] != g.area.start)
    requires forall k :: 0 <= k < DIRECT ==> (a[k] != 0 ==> g.area.start <= a[k])
    requires forall k :: 0 <= k < DIRECT ==> (dir.sectors[k] != 0 ==> g.area.start <= dir.sectors[k])
    ensures var d2 := Sync(d1, g.table, InodeOf(no, dir));
      OnDisk(d2, dir) && Runs.DirDisk(g, d0, d2, no, Own(g.area, a), Own(g.area, dir.sectors))
  {
    hide Slot, Sync, Encode, Words, Unpack, AreaOk, Load;
    var i := InodeOf(no, dir);
    var d2 := Sync(d1, g.table, i);
    TableKept(g, d0, d1, a, dir.sectors);
    forall x | 0 <= x < MAX_FILES && x != no % 256 ensures Slot(d2, g.table, x) == Slot(d0, g.table, x) {
      SyncChangesOneSlot(d1, g.table, i, x);
      SlotSame(d0, d1, g.table, x);
    }
    SyncChangesOneSlot(d1, g.table, i, no % 256);
    LoadOfSlot(d2, g.table, no % 256, i);
    forall s | 0 <= s < |d0| && d2[s] != d0[s]
      ensures Listed(Own(g.area, a), s) || Listed(Own(g.area, dir.sectors), s) || s == g.area.start
        || g.table <= s < g.table + TABLE_SECTS
    {
      OwnListed(g.area, a, s);
      OwnListed(g.area, dir.sectors, s);
    }
  }

  lemma TableKept(g: Geometry, d0: Disk, d1: Disk, a: seq<Word>, b: seq<Word>)
    requires OnlyBlocks(d0, d1, a, b) && g.table + TABLE_SECTS <= g.area.start <= |d0| && |a| == |b| == DIRECT
    requires forall k :: 0 <= k < DIRECT ==> (a[k] != 0 ==> g.area.start <= a[k])
    requires forall k :: 0 <= k < DIRECT ==> (b[k] != 0 ==> g.area.start <= b[k])
    ensures forall s :: g.table <= s < g.table + TABLE_SECTS ==> d1[s] == d0[s]
  {
  }

  lemma OwnListed(a: Area, sectors: seq<Word>, s: int)
    requires |sectors| == DIRECT
    ensures Listed(sectors, s) ==> Listed(Own(a, sectors), s) || s == a.start
  {
    if Listed(sectors, s) && s != a.start {
      var n :| 0 <= n < |sectors| && sectors[n] == s;
      assert Own(a, sectors)[n] == s;
    }
  }
}
