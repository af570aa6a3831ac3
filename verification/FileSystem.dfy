/** file.c: `file_write` and `file_read` as they work, on the in-memory bitmap, the open inode and the disk. */
module FileSystems {
  import opened Outcomes
  import opened Disks
  import opened Bitmaps
  import opened InodeTables
  import opened BlockMaps
  import opened Files
  import opened FileRuns

  /** An inode in memory; descriptors may share it. */
  class OpenInode {
    var node: Inode
    constructor (node: Inode) ensures this.node == node { this.node := node; }
  }

  /** `struct file`. */
  class File {
    var pos: Word
    const inode: OpenInode
    constructor (inode: OpenInode) ensures this.inode == inode && pos == 0 { this.inode, pos := inode, 0; }
  }

  /** Blocks that growing from `has` to `will` blocks takes: data blocks and, at the crossing, the table. */
  function Needed(has: nat, will: nat): nat
    requires has <= will
  {
    will - has + if has <= DIRECT < will then 1 else 0
  }

  predicate OnlySectors(i0: Inode, i1: Inode) { i1 == i0.(sectors := i1.sectors) }

  function WithSector(i: Inode, k: nat, lba: Word): (r: Inode)
    requires k < |i.sectors|
    ensures r.sectors == i.sectors[k := lba] && OnlySectors(i, r)
  {
    i.(sectors := i.sectors[k := lba])
  }

  /** `all` holds the addresses from block `lo` on, and the inode the direct ones. */
  predicate Gathered(sectors: seq<Word>, all: seq<Word>, m: seq<Word>, lo: nat) {
    && |sectors| == 13 && |all| == |m| == MAP_LEN
    && sectors[..DIRECT] == m[..DIRECT] && all[DIRECT..] == m[DIRECT..]
    && forall k :: lo <= k < DIRECT ==> all[k] == m[k]
  }

  /** After the blocks of a file have grown from `has` to `will`. */
  ghost predicate Grown(g: Geometry, d0: Disk, b0: seq<bool>, i0: Inode, d1: Disk, b1: seq<bool>, i1: Inode, has: nat,
      will: nat)
    requires WellFormed(i0) && TableOf(i0) < |d0|
  {
    && |d1| == |d0| && Fits(g, d1, b1) && WellFormed(i1) && TableOf(i1) < |d1|
    && OnlySectors(i0, i1)
    && GoodMap(g.area, b1, MapOf(d1, i1), TableOf(i1), will)
    && (TableOf(i1) != 0 <==> will > DIRECT)
    && has <= will <= MAP_LEN && MapOf(d1, i1)[..has] == MapOf(d0, i0)[..has]
    && Took(g.area, b0, b1, MapOf(d0, i0), TableOf(i0), MapOf(d1, i1), TableOf(i1))
    && forall s :: 0 <= s < |d0| && (s == 0 || s != TableOf(i1)) ==> d1[s] == d0[s]
  }

  lemma NoTableZeros(a: Area, bits: seq<bool>, m: seq<Word>, n: nat)
    requires GoodMap(a, bits, m, 0, n) && n <= DIRECT
    ensures m[DIRECT..] == Zeros(MAP_LEN - DIRECT)
    ensures forall k :: n <= k < DIRECT ==> m[k] == 0
  {
  }

  lemma TableInDisk(a: Area, bits: seq<bool>, m: seq<Word>, t: Word, n: nat, d: Disk)
    requires GoodMap(a, bits, m, t, n) && t != 0 && a.end <= |d|
    ensures t < |d|
  {
  }

  lemma MapIs(d: Disk, i: Inode, m: seq<Word>, all: seq<Word>, lo: nat)
    requires WellFormed(i) && TableOf(i) < |d| && Gathered(i.sectors, all, m, lo)
    requires if TableOf(i) == 0 then m[DIRECT..] == Zeros(MAP_LEN - DIRECT) else d[TableOf(i)] == Encode(m[DIRECT..])
    ensures MapOf(d, i) == m
    ensures forall hi :: lo <= hi <= MAP_LEN ==> all[lo..hi] == m[lo..hi]
  {
    if TableOf(i) != 0 { DecodeEncode(m[DIRECT..]); }
    assert m == m[..DIRECT] + m[DIRECT..];
    forall k | DIRECT <= k < MAP_LEN ensures all[k] == m[k] {
      assert all[DIRECT..][k - DIRECT] == m[DIRECT..][k - DIRECT];
    }
  }

  lemma GrownDirect(g: Geometry, d: Disk, b0: seq<bool>, i0: Inode, b1: seq<bool>, i1: Inode, has: nat, will: nat,
      all: seq<Word>, m: seq<Word>)
    requires Fits(g, d, b0) && AreaOk(g.area, b1) && WellFormed(i0) && TableOf(i0) == 0 && 1 <= has <= will <= DIRECT
    requires OnlySectors(i0, i1) && WellFormed(i1) && TableOf(i1) == 0
    requires GoodMap(g.area, b1, m, 0, will) && m[..has] == MapOf(d, i0)[..has]
    requires Took(g.area, b0, b1, MapOf(d, i0), 0, m, 0) && Gathered(i1.sectors, all, m, has - 1)
    ensures Grown(g, d, b0, i0, d, b1, i1, has, will)
    ensures all[has - 1..will] == MapOf(d, i1)[has - 1..will]
  {
    NoTableZeros(g.area, b1, m, will);
    MapIs(d, i1, m, all, has - 1);
  }

  lemma GrownTable(g: Geometry, d0: Disk, b0: seq<bool>, i0: Inode, d1: Disk, b1: seq<bool>, i1: Inode, has: nat,
      will: nat, all: seq<Word>, m: seq<Word>)
    requires Fits(g, d0, b0) && AreaOk(g.area, b1) && WellFormed(i0) && TableOf(i0) < |d0|
    requires 1 <= has <= will <= MAP_LEN && DIRECT < will
    requires OnlySectors(i0, i1) && WellFormed(i1) && 0 != TableOf(i1) < |d0|
    requires GoodMap(g.area, b1, m, TableOf(i1), will) && m[..has] == MapOf(d0, i0)[..has]
    requires Took(g.area, b0, b1, MapOf(d0, i0), TableOf(i0), m, TableOf(i1)) && Gathered(i1.sectors, all, m, has - 1)
    requires |all| == MAP_LEN && d1 == d0[TableOf(i1) := Encode(all[DIRECT..])]
    ensures Grown(g, d0, b0, i0, d1, b1, i1, has, will)
    ensures all[has - 1..will] == MapOf(d1, i1)[has - 1..will]
  {
    hide GoodMap, Took, Encode, MapOf;
    MapIs(d1, i1, m, all, has - 1);
  }

  /** The addresses of the blocks that bytes `from .. to` go into. */
  predicate Agree(all: seq<Word>, m: seq<Word>, from: nat, to: nat, n: nat) {
    |all| == |m| == MAP_LEN && to / SECTOR < n <= MAP_LEN && forall k :: from / SECTOR <= k < n ==> all[k] == m[k]
  }

  lemma AgreeSlice(all: seq<Word>, m: seq<Word>, from: nat, to: nat)
    requires |all| == |m| == MAP_LEN && from <= to < MAX_BYTES
    requires all[BlocksFor(from) - 1..BlocksFor(to)] == m[BlocksFor(from) - 1..BlocksFor(to)]
    ensures Agree(all, m, from, to, BlocksFor(to))
  {
    var lo, hi := BlocksFor(from) - 1, BlocksFor(to);
    forall k | lo <= k < hi ensures all[k] == m[k] { assert all[lo..hi][k - lo] == m[lo..hi][k - lo]; }
  }

  predicate AtBlockEnd(size: nat) { size % SECTOR == 0 }

  /** 32-bit arithmetic. */
  function Wrap(x: int): Word { x % 0x1_0000_0000 }

  lemma ChunkArith(size: nat, left: nat, chunk: nat)
    requires 0 < left && chunk == if left < SECTOR - size % SECTOR then left else SECTOR - size % SECTOR
    ensures 0 < chunk <= left && size % SECTOR + chunk <= SECTOR
    ensures chunk == left || (size + chunk) % SECTOR == 0
    ensures size / SECTOR <= (size + left) / SECTOR
    ensures Wrap(Wrap(size - 1) + chunk) == Wrap(size + chunk - 1)
  {
  }

  /** Outside the first `n` blocks of `m` the disks agree. */
  predicate SameBut(d0: Disk, d1: Disk, m: seq<Word>, n: nat) {
    |d1| == |d0| && n <= |m| && forall s :: 0 <= s < |d0| && s !in m[..n] ==> d1[s] == d0[s]
  }

  lemma BlockOnDisk(d: Disk, m: seq<Word>, n: nat, k: nat)
    requires DistinctBlocks(d, m, n) && k < n
    ensures m[k] < |d|
  {
  }

  lemma SameButNothing(d: Disk, m: seq<Word>, n: nat)
    requires DistinctBlocks(d, m, n)
    ensures SameBut(d, d, m, n)
  {
  }

  lemma SameButTrans(d0: Disk, d1: Disk, d2: Disk, m: seq<Word>, n: nat)
    requires SameBut(d0, d1, m, n) && SameBut(d1, d2, m, n)
    ensures SameBut(d0, d2, m, n)
  {
  }

  lemma StorePart(d: Disk, m: seq<Word>, n: nat, bs: seq<Byte>, buf: seq<Byte>, w: nat, chunk: nat, io: Sector)
    requires DistinctBlocks(d, m, n) && w + chunk <= |buf| && Stored(d, m, bs + buf[..w])
    requires (|bs| + w) / SECTOR < n && (|bs| + w) % SECTOR + chunk <= SECTOR
    requires (|bs| + w) % SECTOR == 0 || io == d[m[(|bs| + w) / SECTOR]]
    ensures var size := |bs| + w; var d1 := d[m[size / SECTOR] := Splice(io, size % SECTOR, buf[w..w + chunk])];
      Stored(d1, m, bs + buf[..w + chunk]) && DistinctBlocks(d1, m, n)
  {
    StoreChunk(d, m, n, bs + buf[..w], io, buf[w..w + chunk]);
    assert bs + buf[..w] + buf[w..w + chunk] == bs + buf[..w + chunk];
  }

  // ---- putting the phases of a write together ----

  /** A file between the allocation of its blocks and the update of its size. */
  predicate Ready(g: Geometry, d: Disk, bits: seq<bool>, i: Inode, n: nat) {
    && Fits(g, d, bits) && WellFormed(i) && TableOf(i) < |d|
    && GoodMap(g.area, bits, MapOf(d, i), TableOf(i), n)
    && (TableOf(i) != 0 <==> n > DIRECT)
  }

  /** After the first block of a file exists. */
  ghost predicate Prepared(g: Geometry, d: Disk, b0: seq<bool>, i0: Inode, b1: seq<bool>, i1: Inode)
    requires WellFormed(i0) && TableOf(i0) < |d|
  {
    && OnlySectors(i0, i1) && (i0.sectors[0] != 0 ==> i1 == i0)
    && Ready(g, d, b1, i1, BlocksFor(i1.size))
    && Took(g.area, b0, b1, MapOf(d, i0), TableOf(i0), MapOf(d, i1), TableOf(i1))
  }

  lemma FirstBlock(g: Geometry, d: Disk, b0: seq<bool>, b1: seq<bool>, i: Inode, lba: Word)
    requires Fits(g, d, b0) && Good(g.area, d, b0, i) && i.sectors[0] == 0 && Alloced(g.area, b0, b1, lba)
    ensures Prepared(g, d, b0, i, b1, WithSector(i, 0, lba))
  {
    var m := MapOf(d, i);
    var i1 := WithSector(i, 0, lba);
    assert MapOf(d, i1) == m[0 := lba];
    AddEntry(g.area, b0, b1, m, 0, 0, lba);
    TookEntry(g.area, b0, b1, m, 0, 0, lba);
  }

  lemma PreparedParts(g: Geometry, d: Disk, b0: seq<bool>, i0: Inode, b1: seq<bool>, i1: Inode)
    requires WellFormed(i0) && TableOf(i0) < |d| && Prepared(g, d, b0, i0, b1, i1)
    ensures OnlySectors(i0, i1) && i1.size == i0.size && (i0.sectors[0] != 0 ==> i1 == i0)
    ensures Fits(g, d, b1) && WellFormed(i1) && TableOf(i1) < |d|
    ensures GoodMap(g.area, b1, MapOf(d, i1), TableOf(i1), BlocksFor(i1.size))
    ensures TableOf(i1) != 0 <==> BlocksFor(i1.size) > DIRECT
    ensures Took(g.area, b0, b1, MapOf(d, i0), TableOf(i0), MapOf(d, i1), TableOf(i1))
  {
    hide GoodMap, MapOf, BlocksFor, Fits, Took;
  }

  lemma GoodParts(g: Geometry, d: Disk, bits: seq<bool>, i: Inode)
    requires Fits(g, d, bits) && Good(g.area, d, bits, i)
    ensures WellFormed(i) && TableOf(i) < |d| && i.size < MAX_BYTES && (i.sectors[0] == 0 ==> i.size == 0)
    ensures AreaOk(g.area, bits)
    ensures g.table + TABLE_SECTS <= g.area.start <= g.area.end <= |d|
  {
  }

  lemma GrownParts(g: Geometry, d0: Disk, b0: seq<bool>, i0: Inode, d1: Disk, b1: seq<bool>, i1: Inode, has: nat,
      will: nat)
    requires WellFormed(i0) && TableOf(i0) < |d0| && Grown(g, d0, b0, i0, d1, b1, i1, has, will)
    ensures |d1| == |d0| && g.area.end <= |d1| && WellFormed(i1) && TableOf(i1) < |d1| && i1.size == i0.size
    ensures GoodMap(g.area, b1, MapOf(d1, i1), TableOf(i1), will)
    ensures has <= will <= MAP_LEN && MapOf(d1, i1)[..has] == MapOf(d0, i0)[..has]
    ensures forall s :: 0 <= s < |d0| && (s == 0 || s != TableOf(i1)) ==> d1[s] == d0[s]
  {
    hide GoodMap, MapOf, Took;
  }

  lemma LaterBlock(g: Geometry, d: Disk, bits: seq<bool>, i: Inode)
    requires Fits(g, d, bits) && Good(g.area, d, bits, i) && i.sectors[0] != 0
    ensures Prepared(g, d, bits, i, bits, i)
  {
    hide MapOf, GoodMap, Took;
    TookNothing(g.area, bits, MapOf(d, i), TableOf(i), BlockCount(i));
  }

  lemma StoredBefore(a: Area, d: Disk, bits: seq<bool>, i0: Inode, i1: Inode)
    requires Good(a, d, bits, i0) && WellFormed(i1) && TableOf(i1) < |d| && (i0.sectors[0] != 0 ==> i1 == i0)
    ensures Stored(d, MapOf(d, i1), Content(a, d, bits, i0))
  {
  }

  lemma StillStored(a: Area, bits: seq<bool>, d0: Disk, d1: Disk, m0: seq<Word>, m1: seq<Word>, t: Word, has: nat,
      n: nat, bs: seq<Byte>)
    requires |m0| == MAP_LEN && GoodMap(a, bits, m1, t, n) && has <= n && m1[..has] == m0[..has] && |d1| == |d0|
    requires forall s :: 0 <= s < |d0| && (s == 0 || s != t) ==> d1[s] == d0[s]
    requires BlocksFor(|bs|) <= has && Stored(d0, m0, bs)
    ensures Stored(d1, m1, bs)
  {
    forall o | 0 <= o < |bs|
      ensures o / SECTOR < MAP_LEN && m1[o / SECTOR] < |d1| && d1[m1[o / SECTOR]][o % SECTOR] == bs[o]
    {
      var k := o / SECTOR;
      assert d0[m0[k]][o % SECTOR] == bs[o];
      assert k <= |bs| / SECTOR;
      KeptEntry(a, bits, m0, m1, t, has, n, k);
    }
  }

  lemma KeptEntry(a: Area, bits: seq<bool>, m0: seq<Word>, m1: seq<Word>, t: Word, has: nat, n: nat, k: nat)
    requires |m0| == MAP_LEN && GoodMap(a, bits, m1, t, n) && has <= n && m1[..has] == m0[..has] && k < has
    ensures m1[k] == m0[k] && m1[k] != 0 && m1[k] != t
  {
    assert m1[..has][k] == m0[..has][k];
    assert IsBlock(a, bits, m1[k]);
  }

  lemma BlocksDistinct(a: Area, bits: seq<bool>, m: seq<Word>, t: Word, n: nat, d: Disk)
    requires GoodMap(a, bits, m, t, n) && a.end <= |d|
    ensures DistinctBlocks(d, m, n)
    ensures t != 0 ==> t !in m[..n]
    ensures forall s: int :: s in m[..n] ==> Owns(m, t, s)
    ensures forall s: int :: Owns(m, t, s) ==> a.start < s
  {
  }

  /** Writing data blocks and the inode's slot leaves the block map alone. */
  lemma MapUntouched(g: Geometry, d1: Disk, bits: seq<bool>, i1: Inode, n: nat, d2: Disk, i2: Inode)
    requires Ready(g, d1, bits, i1, n) && SameBut(d1, d2, MapOf(d1, i1), n) && i2 == i1.(size := i2.size)
    ensures MapOf(d2, i2) == MapOf(d1, i1)
    ensures MapOf(Sync(d2, g.table, i2), i2) == MapOf(d1, i1)
  {
    hide Sync;
    BlocksDistinct(g.area, bits, MapOf(d1, i1), TableOf(i1), n, d1);
  }

  lemma SlotLocal(d0: Disk, d1: Disk, table: nat, no: nat)
    requires TableFits(d0, table) && |d1| == |d0| && no < MAX_FILES
    requires forall s :: table <= s < table + TABLE_SECTS ==> d1[s] == d0[s]
    ensures Slot(d1, table, no) == Slot(d0, table, no)
  {
    forall j | 0 <= j < INODE_SIZE ensures Slot(d1, table, no)[j] == Slot(d0, table, no)[j] {
      var o := no * INODE_SIZE + j;
      assert o < MAX_FILES * INODE_SIZE;
      assert o / SECTOR < TABLE_SECTS;
      assert Slot(d1, table, no)[j] == TableByte(d1, table, o) && Slot(d0, table, no)[j] == TableByte(d0, table, o);
    }
  }

  lemma SlotsAfterSync(g: Geometry, d0: Disk, d2: Disk, i2: Inode)
    requires TableFits(d0, g.table) && |d2| == |d0| && WellFormed(i2)
    requires forall s :: g.table <= s < g.table + TABLE_SECTS ==> d2[s] == d0[s]
    ensures SlotsAfter(g, d0, Sync(d2, g.table, i2), i2)
  {
    hide Slot, Sync, Encode;
    forall no | 0 <= no < MAX_FILES && no != i2.no % 256
      ensures Slot(Sync(d2, g.table, i2), g.table, no) == Slot(d0, g.table, no)
    {
      SyncChangesOneSlot(d2, g.table, i2, no);
      SlotLocal(d0, d2, g.table, no);
    }
    SyncChangesOneSlot(d2, g.table, i2, i2.no % 256);
  }

  lemma FinalGood(a: Area, bits: seq<bool>, d2: Disk, i2: Inode, d4: Disk, i3: Inode, will: nat)
    requires WellFormed(i2) && TableOf(i2) < |d2| == |d4| && a.end <= |d2| && i3 == i2.(size := i3.size)
    requires GoodMap(a, bits, MapOf(d2, i2), TableOf(i2), will) && (TableOf(i2) != 0 <==> will > DIRECT)
    requires MapOf(d4, i3) == MapOf(d2, i2) && i3.size < MAX_BYTES && will == BlocksFor(i3.size)
    ensures Good(a, d4, bits, i3) && i3.sectors[0] != 0
  {
    hide MapOf, GoodMap;
    MapStart(a, bits, d2, i2, will);
  }

  lemma MapStart(a: Area, bits: seq<bool>, d: Disk, i: Inode, n: nat)
    requires WellFormed(i) && TableOf(i) < |d| && GoodMap(a, bits, MapOf(d, i), TableOf(i), n) && 0 < n
    ensures i.sectors[0] != 0
  {
    assert MapOf(d, i)[0] == i.sectors[0];
    assert IsBlock(a, bits, MapOf(d, i)[0]);
  }

  lemma FinalFrame(g: Geometry, d0: Disk, d2: Disk, d3: Disk, i3: Inode, m: seq<Word>, t: Word, n: nat)
    requires |d2| == |d0| && g.table + TABLE_SECTS <= g.area.start <= |d0| && WellFormed(i3)
    requires forall s :: 0 <= s < |d0| && (s == 0 || s != t) ==> d2[s] == d0[s]
    requires SameBut(d2, d3, m, n)
    requires forall s: int :: s in m[..n] ==> Owns(m, t, s)
    requires forall s: int :: Owns(m, t, s) ==> g.area.start < s
    ensures OnlyOwn(g, d0, Sync(d3, g.table, i3), m, t) && SlotsAfter(g, d0, Sync(d3, g.table, i3), i3)
  {
    hide Sync;
    forall s | 0 <= s < |d0| && !Owns(m, t, s) ensures d3[s] == d0[s] {}
    SlotsAfterSync(g, d0, d3, i3);
  }

  lemma FinalStored(a: Area, bits: seq<bool>, d3: Disk, d4: Disk, m: seq<Word>, t: Word, n: nat, table: nat,
      bs: seq<Byte>)
    requires GoodMap(a, bits, m, t, n) && |d4| == |d3| && Stored(d3, m, bs) && |bs| / SECTOR < n
    requires table + TABLE_SECTS <= a.start
    requires forall s :: 0 <= s < |d3| && !(table <= s < table + TABLE_SECTS) ==> d4[s] == d3[s]
    ensures Stored(d4, m, bs)
  {
    forall o | 0 <= o < |bs| ensures m[o / SECTOR] < |d4| && d4[m[o / SECTOR]][o % SECTOR] == bs[o] {
      assert d3[m[o / SECTOR]][o % SECTOR] == bs[o];
      assert IsBlock(a, bits, m[o / SECTOR]);
    }
  }

  /** From the phases to the contract of the whole write. */
  lemma PhasesMakeWrite(g: Geometry, d0: Disk, b0: seq<bool>, i0: Inode, b1: seq<bool>, i1: Inode, has: nat, will: nat,
                        d2: Disk, b2: seq<bool>, i2: Inode, buf: seq<Byte>, d3: Disk, i3: Inode)
    requires Fits(g, d0, b0) && Good(g.area, d0, b0, i0) && WellFormed(i1) && TableOf(i1) < |d0|
    requires OnlySectors(i0, i1) && has == BlocksFor(i0.size)
    requires Took(g.area, b0, b1, MapOf(d0, i0), TableOf(i0), MapOf(d0, i1), TableOf(i1))
    requires Grown(g, d0, b1, i1, d2, b2, i2, has, will)
    requires SameBut(d2, d3, MapOf(d2, i2), will) && i3 == i2.(size := i3.size)
    requires i3.size == i0.size + |buf| < MAX_BYTES && will == BlocksFor(i3.size)
    requires Stored(d3, MapOf(d2, i2), Content(g.area, d0, b0, i0) + buf)
    ensures Wrote(g, d0, b0, i0, buf, Sync(d3, g.table, i3), b2, i3)
  {
    var d4 := Sync(d3, g.table, i3);
    hide Sync;
    var m, t := MapOf(d2, i2), TableOf(i2);
    assert Ready(g, d2, b2, i2, will);
    MapUntouched(g, d2, b2, i2, will, d3, i3);
    TookTrans(g.area, b0, b1, b2, MapOf(d0, i0), TableOf(i0), MapOf(d0, i1), TableOf(i1), m, t);
    BlocksDistinct(g.area, b2, m, t, will, d2);
    FinalGood(g.area, b2, d2, i2, d4, i3, will);
    hide MapOf, Content, Grown, Took, GoodMap, Ready;
    FinalFrame(g, d0, d2, d3, i3, m, t, will);
    FinalStored(g.area, b2, d3, d4, m, t, will, g.table, Content(g.area, d0, b0, i0) + buf);
    hide Stored, Good, OnlyOwn;
    StoredIsContent(g.area, d4, b2, i3, Content(g.area, d0, b0, i0) + buf);
  }

  lemma SizeArith(size: nat, count: nat)
    requires size < MAX_BYTES && count <= 0xc000_0000
    ensures Wrap(size + count) == size + count
    ensures BlocksFor(size + count) > MAP_LEN <==> size + count >= MAX_BYTES
    ensures 1 <= BlocksFor(size) <= BlocksFor(size + count) && BlocksFor(0) == 1
  {
  }

  /** When a write stops the kernel: exactly at the size limit, or when the free blocks do not suffice. */
  predicate Stops(bits: seq<bool>, i: Inode, count: nat)
    requires WellFormed(i)
  {
    var size := i.size + count;
    size == MAX_BYTES || (size < MAX_BYTES && ClearCount(bits) < Needed(BlockCount(i), BlocksFor(size)))
  }

  lemma StopsCases(bits: seq<bool>, i: Inode, count: nat)
    requires WellFormed(i) && i.size < MAX_BYTES && (i.sectors[0] == 0 ==> i.size == 0)
    ensures i.size + count > MAX_BYTES ==> !Stops(bits, i, count)
    ensures i.size + count == MAX_BYTES ==> Stops(bits, i, count)
    ensures i.size + count <= MAX_BYTES && i.sectors[0] == 0 && ClearCount(bits) == 0 ==> Stops(bits, i, count)
    ensures BlocksFor(i.size) <= BlocksFor(i.size + count)
    ensures i.size + count < MAX_BYTES ==> (Stops(bits, i, count) <==>
      ClearCount(bits) - (if i.sectors[0] == 0 then 1 else 0) < Needed(BlocksFor(i.size), BlocksFor(i.size + count)))
  {
    hide ClearCount;
  }

  // ---- reading ----

  /** What a read at `pos` promises: the part of the content from there on, -1 at the end of the file. The block
      that holds the end of the part must be below 139, and an empty write to an empty file leaves a position
      no read survives. */
  function ReadResult(content: seq<Byte>, pos: nat, count: nat): Outcome<seq<Byte>> {
    if pos > |content| then Halt
    else
      var n := if count <= |content| - pos then count else |content| - pos;
      if n < count && n == 0 then Null
      else if (pos + n) / SECTOR >= 139 then Halt
      else Ok(content[pos..pos + n])
  }

  /** After every run, a read inside a file returns the bytes written there, all of them that were asked for and
      exist, provided it ends below block 139; at the end of the file it returns -1. */
  lemma ReadAfterRun(g: Geometry, ss: seq<Fs>, ops: seq<Op>, base: seq<bool>, ibase: seq<bool>, no: nat, pos: nat,
      count: nat)
    requires IsRun(g, ss, ops) && FsInv(g, ss[0], base, ibase) && ss[0].files == map[] && no in ss[|ops|].files
    requires pos <= |Log(ops, no)| && 0 < count
    ensures FileOk(g, ss[|ops|], no) && |Log(ops, no)| < MAX_BYTES
    ensures var log := Log(ops, no); var end := if pos + count <= |log| then pos + count else |log|;
      ReadResult(ContentOf(g, ss[|ops|], no), pos, count) ==
        if pos == |log| then Null else if end / SECTOR < 139 then Ok(log[pos..end]) else Halt
  {
    hide FsInv, FileRuns.Step, Content, Slot, Encode, Words, MapOf, GoodMap, IsRun, Log, HoldsNumber, Carries;
    RunKeeps(g, ss, ops, base, ibase);
  }

  // ---- the routines as steps of a run ----

  /** What `CreateInode` ensures is a step of a run. */
  lemma CreateIsStep(g: Geometry, s: Fs, d1: Disk, ibits: seq<bool>)
    requires TableFits(s.disk, g.table) && FirstRun(s.ibits, 0, |s.ibits|, 1) != -1
    requires var no := FirstRun(s.ibits, 0, |s.ibits|, 1);
      no < |s.ibits| && ibits == s.ibits[no := true] && d1 == Sync(s.disk, g.table, NewInode(no))
    ensures var no := FirstRun(s.ibits, 0, |s.ibits|, 1);
      FileRuns.Step(g, s, Create(no), Fs(d1, s.bits, ibits, s.files[no := NewInode(no)], s.dirs))
  {
    hide Sync, FirstRun;
  }

  /** So is what `FileWrite` ensures when it succeeds. */
  lemma WriteIsStep(g: Geometry, s: Fs, no: nat, buf: seq<Byte>, d1: Disk, b1: seq<bool>, node: Inode)
    requires no in s.files && Fits(g, s.disk, s.bits) && Good(g.area, s.disk, s.bits, s.files[no])
    requires Wrote(g, s.disk, s.bits, s.files[no], buf, d1, b1, node)
    ensures FileRuns.Step(g, s, Write(no, buf), Fs(d1, b1, s.ibits, s.files[no := node], s.dirs))
  {
    hide Wrote, Fits, Good;
  }

  /** So is what `InodeRelease` ensures of the inode that is read from the slot of a file. */
  lemma ReleaseIsStep(g: Geometry, s: Fs, no: nat, d1: Disk, b1: seq<bool>, ibits: seq<bool>)
    requires no in s.files && Carries(s.disk, g.table, no) && no < |s.ibits|
    requires var i := Load(s.disk, g.table, no).value;
      Fits(g, s.disk, s.bits) && Good(g.area, s.disk, s.bits, i) &&
      Released(g.area, s.bits, b1, MapOf(s.disk, i), TableOf(i))
    requires d1 == Delete(s.disk, g.table, no).value && ibits == s.ibits[no := false]
    ensures FileRuns.Step(g, s, Release(no), Fs(d1, b1, ibits, s.files - {no}, s.dirs))
  {
    hide Fits, Good, Released, MapOf, Delete, Load;
  }

  predicate Covers(all: seq<Word>, m: seq<Word>, start: nat, end: nat) {
    |all| == |m| == MAP_LEN && end < MAP_LEN && forall k :: start <= k <= end ==> all[k] == m[k]
  }

  /** How many bytes `file_read` decides to read, in its 32-bit arithmetic. */
  function Clip(size: Word, pos: Word, count: nat): Word
    requires count <= 0xc000_0000
  {
    if Wrap(pos + count) > size then Wrap(size - pos) else count
  }

  lemma ReadArith(size: Word, pos: Word, count: nat)
    requires size < MAX_BYTES && count <= 0xc000_0000 && (pos <= size || pos == 0xffff_ffff)
    ensures pos <= size ==>
      Wrap(pos + count) == pos + count && Wrap(pos + Clip(size, pos, count)) == pos + Clip(size, pos, count)
    ensures pos <= size ==> Clip(size, pos, count) == if count <= size - pos then count else size - pos
    ensures pos > size ==> Wrap(size - pos) != 0 && pos / SECTOR >= 139
  {
  }

  lemma WithinBlock(at: nat, j: nat)
    requires at % SECTOR + j < SECTOR
    ensures (at + j) / SECTOR == at / SECTOR && (at + j) % SECTOR == at % SECTOR + j
  {
  }

  lemma ReadChunk(d: Disk, m: seq<Word>, all: seq<Word>, bs: seq<Byte>, at: nat, chunk: nat, p: nat, n: nat)
    requires |m| == MAP_LEN && Stored(d, m, bs) && p <= at < p + n <= |bs| < MAX_BYTES
    requires Covers(all, m, p / SECTOR, (p + n) / SECTOR)
    requires at % SECTOR + chunk <= SECTOR && at + chunk <= p + n
    ensures at / SECTOR < MAP_LEN && |all| == MAP_LEN && all[at / SECTOR] < |d|
    ensures bs[p..at] + d[all[at / SECTOR]][at % SECTOR..at % SECTOR + chunk] == bs[p..at + chunk]
  {
    var k, off := at / SECTOR, at % SECTOR;
    assert all[k] == m[k];
    BlockPart(d, m, bs, at, chunk);
    assert bs[p..at] + bs[at..at + chunk] == bs[p..at + chunk];
  }

  lemma BlockPart(d: Disk, m: seq<Word>, bs: seq<Byte>, at: nat, chunk: nat)
    requires |m| == MAP_LEN && Stored(d, m, bs) && at < |bs| && at % SECTOR + chunk <= SECTOR && at + chunk <= |bs|
    ensures at / SECTOR < MAP_LEN && m[at / SECTOR] < |d|
    ensures d[m[at / SECTOR]][at % SECTOR..at % SECTOR + chunk] == bs[at..at + chunk]
  {
    assert d[m[at / SECTOR]][at % SECTOR] == bs[at];
    var part := d[m[at / SECTOR]][at % SECTOR..at % SECTOR + chunk];
    forall j | 0 <= j < chunk ensures part[j] == bs[at..at + chunk][j] {
      WithinBlock(at, j);
      assert d[m[(at + j) / SECTOR]][(at + j) % SECTOR] == bs[at + j];
    }
  }

  // ---- releasing ----

  lemma GoodMapOf(a: Area, d: Disk, bits: seq<bool>, i: Inode)
    requires Good(a, d, bits, i)
    ensures GoodMap(a, bits, MapOf(d, i), TableOf(i), BlockCount(i)) && (TableOf(i) == 0 ==> BlockCount(i) <= DIRECT)
  {
    hide GoodMap, MapOf;
  }

  lemma MapBuffer(d: Disk, i: Inode)
    requires WellFormed(i) && TableOf(i) < |d|
    ensures MapOf(d, i) == i.sectors[..DIRECT] + if TableOf(i) ==
      0 then Zeros(MAP_LEN - DIRECT) else Decode(d[TableOf(i)])
  {
  }

  lemma TableBit(a: Area, bits: seq<bool>, m: seq<Word>, t: Word, n: nat)
    requires GoodMap(a, bits, m, t, n) && t != 0
    ensures 0 < t - a.start < |bits|
  {
  }

  /** The table's bit and those of the first `k` entries are clear, all others as before. */
  ghost predicate Cleared(a: Area, b0: seq<bool>, b1: seq<bool>, m: seq<Word>, t: Word, k: nat) {
    |b1| == |b0| && k <= |m|
      && forall j :: 0 <= j < |b0| ==> (b1[j] <==> b0[j] && !Owns(m[..k], t, a.start + j))
  }

  lemma ClearedTable(a: Area, b0: seq<bool>, b1: seq<bool>, m: seq<Word>, t: Word)
    requires t == 0 ==> b1 == b0
    requires t != 0 ==> 0 < t - a.start < |b0| && b1 == b0[t - a.start := false]
    ensures Cleared(a, b0, b1, m, t, 0)
  {
  }

  lemma OwnsPrefix(m: seq<Word>, t: Word, k: nat, b: int)
    requires k < |m|
    ensures Owns(m[..k + 1], t, b) <==> Owns(m[..k], t, b) || (b != 0 && b == m[k])
  {
    assert m[..k + 1] == m[..k] + [m[k]];
  }

  lemma ClearedStep(a: Area, b0: seq<bool>, b1: seq<bool>, m: seq<Word>, t: Word, n: nat, k: nat)
    requires GoodMap(a, b0, m, t, n) && k < MAP_LEN && Cleared(a, b0, b1, m, t, k)
    ensures m[k] == 0 ==> Cleared(a, b0, b1, m, t, k + 1)
    ensures m[k] != 0 ==> 0 < m[k] - a.start < |b1| && Cleared(a, b0, b1[m[k] - a.start := false], m, t, k + 1)
  {
    forall b: int ensures Owns(m[..k + 1], t, b) <==> Owns(m[..k], t, b) || (b != 0 && b == m[k]) {
      OwnsPrefix(m, t, k, b);
    }
  }

  lemma AllCleared(a: Area, b0: seq<bool>, b1: seq<bool>, m: seq<Word>, t: Word, n: nat, cnt: nat)
    requires GoodMap(a, b0, m, t, n) && n <= cnt <= MAP_LEN && Cleared(a, b0, b1, m, t, cnt)
    ensures Released(a, b0, b1, m, t)
  {
    forall b: int ensures Owns(m[..cnt], t, b) <==> Owns(m, t, b) {
      if b in m && b != 0 {
        var k :| 0 <= k < |m| && m[k] == b;
        assert m[..cnt][k] == b;
      }
    }
  }

  class FileSystem {
    const g: Geometry
    var disk: Disk
    var bits: seq<bool>
    var ibits: seq<bool>

    /** `block_bitmap_alloc`; `bitmap_scan` stops the kernel when no bit is clear. */
    method BlockAlloc() returns (ok: bool, lba: Word)
      requires AreaOk(g.area, bits)
      modifies this`bits
      ensures ok <==> ClearCount(old(bits)) > 0
      ensures ok ==> Alloced(g.area, old(bits), bits, lba) && AreaOk(g.area, bits)
      ensures ok ==> ClearCount(bits) == ClearCount(old(bits)) - 1
    {
      FirstClear(g.area, bits);
      var k := FirstRun(bits, 0, |bits|, 1);
      if k == -1 { return false, 0; }
      ClearAfter(bits, k);
      bits := bits[k := true];
      return true, g.area.start + k;
    }

    /** The loops that add blocks `from .. to`: a direct one goes into the inode, and all go into `all`. */
    method AddBlocks(inode: OpenInode, all0: seq<Word>, from: nat, to: nat, lo: nat, ghost m0: seq<Word>, ghost t: Word)
      returns (ok: bool, all: seq<Word>, ghost m: seq<Word>)
      requires AreaOk(g.area, bits) && GoodMap(g.area, bits, m0, t, from) && from <= to <= MAP_LEN
      requires Gathered(inode.node.sectors, all0, m0, lo)
      modifies this`bits, inode`node
      ensures ok <==> ClearCount(old(bits)) >= to - from
      ensures ok ==>
        && AreaOk(g.area, bits) && GoodMap(g.area, bits, m, t, to) && m[..from] == m0[..from]
        && Took(g.area, old(bits), bits, m0, t, m, t)
        && Gathered(inode.node.sectors, all, m, lo)
        && OnlySectors(old(inode.node), inode.node)
        && inode.node.sectors[DIRECT] == old(inode.node.sectors[DIRECT])
    {
      hide Took, ClearCount, FirstRun;
      all, m := all0, m0;
      var k := from;
      TookNothing(g.area, bits, m0, t, from);
      while k < to
        invariant from <= k <= to
        invariant AreaOk(g.area, bits) && GoodMap(g.area, bits, m, t, k) && m[..from] == m0[..from]
        invariant Took(g.area, old(bits), bits, m0, t, m, t)
        invariant Gathered(inode.node.sectors, all, m, lo)
        invariant OnlySectors(old(inode.node), inode.node)
        invariant inode.node.sectors[DIRECT] == old(inode.node.sectors[DIRECT])
        invariant ClearCount(bits) == ClearCount(old(bits)) - (k - from)
      {
        ghost var was := bits;
        var got, lba := BlockAlloc();
        if !got { return false, all, m; }
        AddEntry(g.area, was, bits, m, t, k, lba);
        TookEntry(g.area, was, bits, m, t, k, lba);
        TookTrans(g.area, old(bits), was, bits, m0, t, m, t, m[k := lba], t);
        if k < DIRECT {
          assert inode.node.sectors[k] == m[..DIRECT][k] == 0;
          inode.node := WithSector(inode.node, k, lba);
        }
        all := all[k := lba];
        m := m[k := lba];
        k := k + 1;
      }
      ok := true;
    }

    /** The middle of `file_write`: the address of the block being filled and of every new one, with the new
        blocks allocated and the indirect table created or rewritten where there are any. */
    method Collect(inode: OpenInode, has: nat, will: nat) returns (ok: bool, all: seq<Word>)
      requires Fits(g, disk, bits) && 1 <= has <= will <= MAP_LEN
      requires WellFormed(inode.node) && TableOf(inode.node) < |disk|
      requires GoodMap(g.area, bits, MapOf(disk, inode.node), TableOf(inode.node), has)
      requires TableOf(inode.node) != 0 <==> has > DIRECT
      modifies this`disk, this`bits, inode`node
      ensures ok <==> ClearCount(old(bits)) >= Needed(has, will)
      ensures ok ==> Grown(g, old(disk), old(bits), old(inode.node), disk, bits, inode.node, has, will)
      ensures ok ==> |all| == MAP_LEN && all[has - 1..will] == MapOf(disk, inode.node)[has - 1..will]
    {
      hide GoodMap, Took, ClearCount, Grown, MapOf;
      if will == has {
        all := CollectNone(inode, has);
        return true, all;
      }
      if will <= DIRECT {
        ok, all := CollectDirect(inode, has, will);
      } else if has <= DIRECT {
        ok, all := CollectCrossing(inode, has, will);
      } else {
        ok, all := CollectIndirect(inode, has, will);
      }
    }

    /** No new block. */
    method CollectNone(inode: OpenInode, has: nat) returns (all: seq<Word>)
      requires Fits(g, disk, bits) && 1 <= has <= MAP_LEN
      requires WellFormed(inode.node) && TableOf(inode.node) < |disk|
      requires GoodMap(g.area, bits, MapOf(disk, inode.node), TableOf(inode.node), has)
      requires TableOf(inode.node) != 0 <==> has > DIRECT
      ensures Grown(g, disk, bits, inode.node, disk, bits, inode.node, has, has)
      ensures |all| == MAP_LEN && all[has - 1..has] == MapOf(disk, inode.node)[has - 1..has]
    {
      hide GoodMap, Took;
      TookNothing(g.area, bits, MapOf(disk, inode.node), TableOf(inode.node), has);
      if has <= DIRECT {
        all := Zeros(MAP_LEN)[has - 1 := inode.node.sectors[has - 1]];
      } else {
        all := Zeros(DIRECT) + Decode(disk[inode.node.sectors[DIRECT]]);
      }
    }

    /** Case 1: the direct blocks suffice. */
    method CollectDirect(inode: OpenInode, has: nat, will: nat) returns (ok: bool, all: seq<Word>)
      requires Fits(g, disk, bits) && 1 <= has < will <= DIRECT
      requires WellFormed(inode.node) && TableOf(inode.node) == 0
      requires GoodMap(g.area, bits, MapOf(disk, inode.node), TableOf(inode.node), has)
      modifies this`bits, inode`node
      ensures ok <==> ClearCount(old(bits)) >= Needed(has, will)
      ensures ok ==> Grown(g, disk, old(bits), old(inode.node), disk, bits, inode.node, has, will)
      ensures ok ==> |all| == MAP_LEN && all[has - 1..will] == MapOf(disk, inode.node)[has - 1..will]
    {
      hide GoodMap, Took, ClearCount, Grown;
      ghost var b0, i0, m0 := bits, inode.node, MapOf(disk, inode.node);
      NoTableZeros(g.area, bits, m0, has);
      all := Zeros(MAP_LEN)[has - 1 := inode.node.sectors[has - 1]];
      ghost var m;
      ok, all, m := AddBlocks(inode, all, has, will, has - 1, m0, 0);
      if ok { GrownDirect(g, disk, b0, i0, bits, inode.node, has, will, all, m); }
    }

    /** Case 2: the first indirect block, so the table comes into being before the blocks. */
    method CollectCrossing(inode: OpenInode, has: nat, will: nat) returns (ok: bool, all: seq<Word>)
      requires Fits(g, disk, bits) && 1 <= has <= DIRECT < will <= MAP_LEN
      requires WellFormed(inode.node) && TableOf(inode.node) == 0
      requires GoodMap(g.area, bits, MapOf(disk, inode.node), TableOf(inode.node), has)
      modifies this`disk, this`bits, inode`node
      ensures ok <==> ClearCount(old(bits)) >= Needed(has, will)
      ensures ok ==> Grown(g, old(disk), old(bits), old(inode.node), disk, bits, inode.node, has, will)
      ensures ok ==> |all| == MAP_LEN && all[has - 1..will] == MapOf(disk, inode.node)[has - 1..will]
    {
      hide GoodMap, Took, ClearCount, Grown, Encode, Alloced;
      ghost var d0, b0, i0, m0 := disk, bits, inode.node, MapOf(disk, inode.node);
      NoTableZeros(g.area, bits, m0, has);
      all := Zeros(MAP_LEN)[has - 1 := inode.node.sectors[has - 1]];
      var lba;
      ok, lba := BlockAlloc();
      if !ok { return; }
      AddTable(g.area, b0, bits, m0, has, lba);
      TookTable(g.area, b0, bits, m0, has, lba);
      inode.node := WithSector(inode.node, DIRECT, lba);
      ghost var b1 := bits;
      ghost var m;
      ok, all, m := AddBlocks(inode, all, has, will, has - 1, m0, lba);
      if !ok { return; }
      TookTrans(g.area, b0, b1, bits, m0, 0, m0, lba, m, lba);
      TableInDisk(g.area, bits, m, lba, will, disk);
      disk := disk[lba := Encode(all[DIRECT..])];
      GrownTable(g, d0, b0, i0, disk, bits, inode.node, has, will, all, m);
    }

    /** Case 3: the table is read, extended and written back. */
    method CollectIndirect(inode: OpenInode, has: nat, will: nat) returns (ok: bool, all: seq<Word>)
      requires Fits(g, disk, bits) && DIRECT < has < will <= MAP_LEN
      requires WellFormed(inode.node) && 0 != TableOf(inode.node) < |disk|
      requires GoodMap(g.area, bits, MapOf(disk, inode.node), TableOf(inode.node), has)
      modifies this`disk, this`bits, inode`node
      ensures ok <==> ClearCount(old(bits)) >= Needed(has, will)
      ensures ok ==> Grown(g, old(disk), old(bits), old(inode.node), disk, bits, inode.node, has, will)
      ensures ok ==> |all| == MAP_LEN && all[has - 1..will] == MapOf(disk, inode.node)[has - 1..will]
    {
      hide GoodMap, Took, ClearCount, Grown, Encode, Decode;
      ghost var d0, b0, i0, m0 := disk, bits, inode.node, MapOf(disk, inode.node);
      var t := inode.node.sectors[DIRECT];
      all := Zeros(DIRECT) + Decode(disk[t]);
      ghost var m;
      ok, all, m := AddBlocks(inode, all, has, will, has - 1, m0, t);
      if !ok { return; }
      TableInDisk(g.area, bits, m, t, will, disk);
      disk := disk[t := Encode(all[DIRECT..])];
      GrownTable(g, d0, b0, i0, disk, bits, inode.node, has, will, all, m);
    }

    /** One pass: as much of the rest of `buf` as the block at the end of the file can take. */
    method WriteChunk(size: nat, all: seq<Word>, buf: seq<Byte>, written: nat, first: bool, ghost m: seq<Word>,
        ghost n: nat, ghost bs: seq<Byte>)
      returns (chunk: nat)
      requires written < |buf| && size == |bs| + written
      requires |m| == MAP_LEN && DistinctBlocks(disk, m, n) && Stored(disk, m, bs + buf[..written])
      requires Agree(all, m, |bs|, |bs + buf|, n)
      requires first || AtBlockEnd(size)
      modifies this`disk
      ensures 0 < chunk <= |buf| - written && (written + chunk == |buf| || AtBlockEnd(size + chunk))
      ensures DistinctBlocks(disk, m, n) && Stored(disk, m, bs + buf[..written + chunk])
      ensures SameBut(old(disk), disk, m, n)
      ensures Wrap(Wrap(size - 1) + chunk) == Wrap(size + chunk - 1)
    {
      hide Stored, DistinctBlocks, Splice, Wrap;
      var k, off := size / SECTOR, size % SECTOR;
      var left := SECTOR - off;
      chunk := if |buf| - written < left then |buf| - written else left;
      ChunkArith(size, |buf| - written, chunk);
      assert |bs + buf| == size + (|buf| - written);
      assert |bs| / SECTOR <= k < n;
      var lba := all[k];
      BlockOnDisk(disk, m, n, k);
      assert m[..n][k] == lba;
      var io: Sector := ZERO_SECTOR;
      if first { io := disk[lba]; }
      StorePart(disk, m, n, bs, buf, written, chunk, io);
      disk := disk[lba := Splice(io, off, buf[written..written + chunk])];
    }

    /** The write loop: each pass fills the block that holds the end of the file. Only the first pass keeps what
        the block held before. */
    method Fill(file: File, all: seq<Word>, buf: seq<Byte>, ghost m: seq<Word>, ghost n: nat, ghost bs: seq<Byte>)
      requires |bs| == file.inode.node.size && |bs| + |buf| < MAX_BYTES
      requires |m| == MAP_LEN && DistinctBlocks(disk, m, n) && Stored(disk, m, bs)
      requires Agree(all, m, |bs|, |bs + buf|, n)
      modifies this`disk, file`pos, file.inode`node
      ensures file.inode.node == old(file.inode.node).(size := |bs + buf|)
      ensures file.pos == Wrap(file.inode.node.size - 1)
      ensures |disk| == |old(disk)| && Stored(disk, m, bs + buf)
      ensures SameBut(old(disk), disk, m, n)
    {
      hide Stored, DistinctBlocks, SameBut, Wrap, Agree, AtBlockEnd;
      SameButNothing(disk, m, n);
      var first, written := true, 0;
      file.pos := Wrap(file.inode.node.size - 1);
      assert bs + buf[..0] == bs;
      while written < |buf|
        invariant 0 <= written <= |buf| && |bs| + written < MAX_BYTES
        invariant file.inode.node == old(file.inode.node).(size := |bs| + written)
        invariant file.pos == Wrap(file.inode.node.size - 1)
        invariant first || written == |buf| || AtBlockEnd(file.inode.node.size)
        invariant |disk| == |old(disk)| && DistinctBlocks(disk, m, n) && Stored(disk, m, bs + buf[..written])
        invariant SameBut(old(disk), disk, m, n)
      {
        ghost var before := disk;
        var size := file.inode.node.size;
        var chunk := WriteChunk(size, all, buf, written, first, m, n, bs);
        SameButTrans(old(disk), before, disk, m, n);
        first := false;
        file.inode.node := file.inode.node.(size := size + chunk);
        file.pos := Wrap(file.pos + chunk);
        written := written + chunk;
      }
      assert buf[..written] == buf;
    }

    /** `file_write`: -1 when the size limit would be passed; a failed assertion exactly at the limit, or a full
        bitmap, stops the kernel; otherwise the bytes are appended. */
    method FileWrite(file: File, buf: seq<Byte>) returns (r: Outcome<nat>)
      requires Fits(g, disk, bits) && Good(g.area, disk, bits, file.inode.node) && |buf| <= 0xc000_0000
      modifies this`disk, this`bits, file`pos, file.inode`node
      ensures r.Null? <==> old(file.inode.node.size) + |buf| > MAX_BYTES
      ensures r.Null? ==>
        disk == old(disk) && bits == old(bits) && file.pos == old(file.pos) && file.inode.node == old(file.inode.node)
      ensures r.Halt? <==> Stops(old(bits), old(file.inode.node), |buf|)
      ensures r.Ok? ==> r.value == |buf| && file.pos == Wrap(file.inode.node.size - 1)
      ensures r.Ok? ==> Wrote(g, old(disk), old(bits), old(file.inode.node), buf, disk, bits, file.inode.node)
    {
      hide Good, Fits, ClearCount, Wrote, Wrap, BlocksFor, Prepared, Stops, Needed, AreaOk, GoodMap, Took, MapOf;
      var inode := file.inode;
      GoodParts(g, disk, bits, inode.node);
      ghost var d0, b0, i0 := disk, bits, inode.node;
      var size := inode.node.size;
      SizeArith(size, |buf|);
      StopsCases(bits, i0, |buf|);
      if Wrap(size + |buf|) > MAX_BYTES { return Null; }
      var ok := FirstBlockOf(inode);
      if !ok { return Halt; }
      if BlocksFor(size + |buf|) > MAP_LEN { return Halt; }
      PreparedParts(g, disk, b0, i0, bits, inode.node);
      ok := Append(file, buf, b0, i0);
      r := if ok then Ok(|buf|) else Halt;
    }

    /** What follows once the file has a block: more blocks, the data, the inode. */
    method Append(file: File, buf: seq<Byte>, ghost b0: seq<bool>, ghost i0: Inode) returns (ok: bool)
      requires Fits(g, disk, b0) && Good(g.area, disk, b0, i0) && Prepared(g, disk, b0, i0, bits, file.inode.node)
      requires file.inode.node.size + |buf| < MAX_BYTES
      modifies this`disk, this`bits, file`pos, file.inode`node
      ensures ok <==> ClearCount(old(bits)) >= Needed(BlocksFor(i0.size), BlocksFor(i0.size + |buf|))
      ensures ok ==> file.pos == Wrap(file.inode.node.size - 1)
      ensures ok ==> Wrote(g, old(disk), b0, i0, buf, disk, bits, file.inode.node)
    {
      hide Good, GoodMap, Took, Stored, ClearCount, Content, Wrote, SameBut, Wrap, BlocksFor, MapOf, AreaOk, Sync;
      hide Needed;
      hide DistinctBlocks, Agree, Fits, Prepared, Grown;
      GoodParts(g, disk, b0, i0);
      PreparedParts(g, disk, b0, i0, bits, file.inode.node);
      var inode := file.inode;
      ghost var d0, b1, i1, bs := disk, bits, inode.node, Content(g.area, disk, b0, i0);
      SizeArith(i0.size, |buf|);
      StoredBefore(g.area, d0, b0, i0, i1);
      var has := BlocksFor(inode.node.size);
      var will := BlocksFor(inode.node.size + |buf|);
      var all;
      ok, all := Collect(inode, has, will);
      if !ok { return; }
      ghost var d2, b2, i2 := disk, bits, inode.node;
      GrownParts(g, d0, b1, i1, d2, b2, i2, has, will);
      ghost var m, t := MapOf(d2, i2), TableOf(i2);
      StillStored(g.area, b2, d0, d2, MapOf(d0, i1), m, t, has, will, bs);
      BlocksDistinct(g.area, b2, m, t, will, d2);
      assert |bs + buf| == i0.size + |buf|;
      AgreeSlice(all, m, |bs|, |bs + buf|);
      Fill(file, all, buf, m, will, bs);
      PhasesMakeWrite(g, d0, b0, i0, b1, i1, has, will, d2, b2, i2, buf, disk, inode.node);
      disk := Sync(disk, g.table, inode.node);
    }

    /** The first write to a file gives it its first block. */
    method FirstBlockOf(inode: OpenInode) returns (ok: bool)
      requires Fits(g, disk, bits) && Good(g.area, disk, bits, inode.node)
      modifies this`bits, inode`node
      ensures !ok <==> old(inode.node.sectors[0]) == 0 && ClearCount(old(bits)) == 0
      ensures ok ==> ClearCount(bits) == ClearCount(old(bits)) - if old(inode.node.sectors[0]) == 0 then 1 else 0
      ensures ok ==> Prepared(g, disk, old(bits), old(inode.node), bits, inode.node)
    {
      hide Good, Prepared, ClearCount, Fits, Alloced;
      ghost var b0, i0 := bits, inode.node;
      GoodParts(g, disk, bits, inode.node);
      if inode.node.sectors[0] == 0 {
        var lba;
        ok, lba := BlockAlloc();
        if !ok { return; }
        FirstBlock(g, disk, b0, bits, i0, lba);
        inode.node := WithSector(inode.node, 0, lba);
      } else {
        LaterBlock(g, disk, bits, inode.node);
        ok := true;
      }
    }

    /** `file_read`: the bytes from the position on, clipped at the end of the file. */
    method FileRead(file: File, count: nat) returns (r: Outcome<seq<Byte>>)
      requires Fits(g, disk, bits) && Good(g.area, disk, bits, file.inode.node) && count <= 0xc000_0000
      requires file.pos <= file.inode.node.size || file.pos == 0xffff_ffff
      modifies file`pos
      ensures r == ReadResult(Content(g.area, disk, bits, file.inode.node), old(file.pos), count)
      ensures r.Null? ==> file.pos == old(file.pos)
      ensures r.Ok? ==> file.pos == old(file.pos) + |r.value|
    {
      hide Good, Fits, Content, Stored, MapOf, Covers, Wrap, AreaOk;
      var inode := file.inode;
      GoodParts(g, disk, bits, inode.node);
      var pos, size, n := file.pos, inode.node.size, count;
      ReadArith(size, pos, count);
      if Wrap(pos + count) > size {
        n := Wrap(size - pos);
        if n == 0 { return Null; }
      }
      var start, end := pos / SECTOR, Wrap(pos + n) / SECTOR;
      if !(start < 139 && end < 139) { return Halt; }
      var all := Gather(inode, start, end, pos + n);
      var data := ReadBlocks(file, all, n, MapOf(disk, inode.node), Content(g.area, disk, bits, inode.node));
      r := Ok(data);
    }

    /** The addresses of blocks `start ..= end`, from the inode and, if any is indirect, from the table. */
    method Gather(inode: OpenInode, start: nat, end: nat, ghost upto: nat) returns (all: seq<Word>)
      requires Fits(g, disk, bits) && Good(g.area, disk, bits, inode.node)
      requires upto <= inode.node.size && start <= end == upto / SECTOR < 139
      ensures Covers(all, MapOf(disk, inode.node), start, end)
    {
      hide GoodMap, Decode;
      all := Zeros(MAP_LEN);
      var k := start;
      if end < DIRECT {
        while k <= end
          invariant start <= k <= end + 1 && |all| == MAP_LEN
          invariant forall j :: start <= j < k ==> all[j] == inode.node.sectors[j]
        {
          all := all[k := inode.node.sectors[k]];
          k := k + 1;
        }
      } else {
        while k < DIRECT
          invariant start <= k && (k <= DIRECT || k == start) && |all| == MAP_LEN
          invariant forall j :: start <= j < k && j < DIRECT ==> all[j] == inode.node.sectors[j]
        {
          all := all[k := inode.node.sectors[k]];
          k := k + 1;
        }
        assert inode.node.sectors[DIRECT] != 0;
        all := all[..DIRECT] + Decode(disk[inode.node.sectors[DIRECT]]);
      }
    }

    /** The read loop. */
    method ReadBlocks(file: File, all: seq<Word>, n: nat, ghost m: seq<Word>,
        ghost bs: seq<Byte>) returns (data: seq<Byte>)
      requires |m| == MAP_LEN && Stored(disk, m, bs) && file.pos + n <= |bs| < MAX_BYTES
      requires Covers(all, m, file.pos / SECTOR, (file.pos + n) / SECTOR)
      modifies file`pos
      ensures data == bs[old(file.pos)..old(file.pos) + n] && file.pos == old(file.pos) + n
    {
      hide Stored, Covers;
      data := [];
      ghost var p := file.pos;
      while |data| < n
        invariant |data| <= n && file.pos == p + |data| && data == bs[p..p + |data|]
      {
        var k, off := file.pos / SECTOR, file.pos % SECTOR;
        var left := SECTOR - off;
        var chunk := if n - |data| < left then n - |data| else left;
        ReadChunk(disk, m, all, bs, file.pos, chunk, p, n);
        data := data + disk[all[k]][off..off + chunk];
        file.pos := file.pos + chunk;
      }
    }

    /** `inode_bitmap_alloc`. */
    method InodeAlloc() returns (ok: bool, no: nat)
      modifies this`ibits
      ensures !ok <==> ClearCount(old(ibits)) == 0
      ensures ok ==>
        no == FirstRun(old(ibits), 0, |old(ibits)|, 1) && no < |old(ibits)| && ibits == old(ibits)[no := true]
    {
      NoneClear(ibits);
      var k := FirstRun(ibits, 0, |ibits|, 1);
      forall j: nat | j < |ibits| && !ibits[j] ensures ClearRun(ibits, j, 1) {}
      if k == -1 { return false, 0; }
      assert ClearRun(ibits, k, 1) && !ibits[k];
      ibits := ibits[k := true];
      return true, k;
    }

    /** The part of `file_create` that makes the inode: a number, `inode_init`, and `inode_sync`. */
    method CreateInode() returns (ok: bool, node: Inode)
      requires TableFits(disk, g.table) && |ibits| <= MAX_FILES
      modifies this`ibits, this`disk
      ensures !ok <==> ClearCount(old(ibits)) == 0
      ensures ok ==> var no := FirstRun(old(ibits), 0, |old(ibits)|, 1);
        0 <= no < |old(ibits)| && node == NewInode(no) && ibits == old(ibits)[no := true] && disk ==
          Sync(old(disk), g.table, NewInode(no))
    {
      hide ClearCount, FirstRun, Sync;
      var no;
      ok, no := InodeAlloc();
      node := NewInode(0);
      if !ok { return; }
      var sectors: seq<Word> := [];
      while |sectors| < 13
        invariant |sectors| <= 13 && forall k :: 0 <= k < |sectors| ==> sectors[k] == 0
      {
        sectors := sectors + [0];
      }
      node := Inode(no, 0, 0, false, sectors, 0, 0);
      assert sectors == Zeros(13);
      disk := Sync(disk, g.table, node);
    }

    /** The part of `inode_release` that gives blocks back, first the indirect table and then the blocks it and
        the inode name. */
    method ReleaseBlocks(node: Inode)
      requires Fits(g, disk, bits) && Good(g.area, disk, bits, node)
      modifies this`bits
      ensures Released(g.area, old(bits), bits, MapOf(disk, node), TableOf(node))
    {
      hide Good, Fits, MapOf, GoodMap, Released, Cleared, AreaOk, Decode;
      GoodParts(g, disk, bits, node);
      GoodMapOf(g.area, disk, bits, node);
      ghost var m, n := MapOf(disk, node), BlockCount(node);
      var t := node.sectors[DIRECT];
      var all, cnt := node.sectors[..DIRECT] + Zeros(MAP_LEN - DIRECT), DIRECT;
      MapBuffer(disk, node);
      if t != 0 {
        all, cnt := node.sectors[..DIRECT] + Decode(disk[t]), MAP_LEN;
        TableBit(g.area, bits, m, t, n);
        bits := bits[t - g.area.start := false];
      }
      ClearedTable(g.area, old(bits), bits, m, t);
      var k := 0;
      while k < cnt
        invariant 0 <= k <= cnt <= MAP_LEN && |bits| == |old(bits)|
        invariant Cleared(g.area, old(bits), bits, m, t, k)
      {
        ClearedStep(g.area, old(bits), bits, m, t, n, k);
        if all[k] != 0 { bits := bits[all[k] - g.area.start := false]; }
        k := k + 1;
      }
      AllCleared(g.area, old(bits), bits, m, t, n, cnt);
    }

    /** `inode_release` of the inode that `inode_open` returned. */
    method InodeRelease(no: Word, node: Inode) returns (ok: bool)
      requires Fits(g, disk, bits) && Good(g.area, disk, bits, node) && no < |ibits|
      modifies this`bits, this`ibits, this`disk
      ensures ok <==> node.no == no && no < MAX_FILES
      ensures ok ==> Released(g.area, old(bits), bits, MapOf(old(disk), node), TableOf(node))
      ensures ok ==> ibits == old(ibits)[no := false] && disk == Delete(old(disk), g.table, no).value
    {
      hide Good, Fits, MapOf, AreaOk, Released, Patch;
      GoodParts(g, disk, bits, node);
      if node.no != no { return false; }
      ReleaseBlocks(node);
      ibits := ibits[no := false];
      if no >= MAX_FILES { return false; }
      disk := Patch(disk, g.table, no, seq<Byte>(INODE_SIZE, _ => 0));
      return true;
    }
  }
}
