/** fs.c: where `partition_format` puts things and what it writes into the block bitmap. */
module Layouts {
  import opened Disks
  import opened Bitmaps
  import opened InodeTables
  import opened BlockMaps
  import opened Files
  import opened Ide
  import opened Outcomes
  import Dirs = Directories
  import Runs = FileRuns

  const BITS_PER_SECTOR := 4096
  /** Boot sector, super block, inode bitmap and inode table. */
  const USED := 1 + 1 + 1 + TABLE_SECTS

  function DivRoundUp(x: nat, y: nat): nat
    requires 0 < y
  {
    (x + y - 1) / y
  }

  /** The super block's account of the partition that starts at `base`. */
  datatype Layout = Layout(
    base: nat, sects: nat, bitLen: nat, bitmapLba: nat, bitmapSects: nat,
    inodeBitmapLba: nat, tableLba: nat, dataLba: nat)

  /** The arithmetic of `partition_format`; the subtraction is 32-bit. */
  function Format(base: nat, sects: nat): Layout {
    var free := (sects - USED) % 0x1_0000_0000;
    var bitLen := free - DivRoundUp(free, BITS_PER_SECTOR);
    var bitmapSects := DivRoundUp(bitLen, BITS_PER_SECTOR);
    var inodeBitmap := base + 2 + bitmapSects;
    Layout(base, sects, bitLen, base + 2, bitmapSects, inodeBitmap, inodeBitmap + 1, inodeBitmap + 1 + TABLE_SECTS)
  }

  /** Boot sector, super block, block bitmap, inode bitmap, inode table and data follow each other without overlap
      and end inside the partition; the bitmap has a bit for each data sector and is written at all. */
  predicate Sound(l: Layout) {
    && l.base + 2 == l.bitmapLba && 0 < l.bitmapSects
    && l.bitmapLba + l.bitmapSects == l.inodeBitmapLba
    && l.inodeBitmapLba + 1 == l.tableLba
    && l.tableLba + TABLE_SECTS == l.dataLba
    && 0 < l.bitLen <= l.bitmapSects * BITS_PER_SECTOR
    && l.dataLba + l.bitLen <= l.base + l.sects
  }

  /** The layout is sound exactly from 613 sectors on. */
  lemma SoundFrom(base: nat, sects: nat)
    requires sects < 0x1_0000_0000
    ensures Sound(Format(base, sects)) <==> sects >= USED + 2
  {
    if sects >= USED {
      EnoughSectors(sects - USED);
    }
  }

  /** At most one sector of the partition is left over, and one more for every 8 GB. */
  lemma NothingWasted(base: nat, sects: nat)
    requires USED + 2 <= sects < 0x1_0000_0000
    ensures var l := Format(base, sects);
      base + sects - 1 - sects / 0x100_0000 <= l.dataLba + l.bitLen <= base + sects
  {
    var free := sects - USED;
    assert free % 0x1_0000_0000 == free;
    Leftover(free);
  }

  lemma Leftover(free: nat)
    ensures var n := DivRoundUp(free, BITS_PER_SECTOR);
      n <= free && n - 1 - free / 0x100_0000 <= DivRoundUp(free - n, BITS_PER_SECTOR) <= n
  {
    var n := DivRoundUp(free, BITS_PER_SECTOR);
    if n > 0 {
      var q := n - 1;
      assert BITS_PER_SECTOR * q < free <= BITS_PER_SECTOR * n;
      assert free - n >= (BITS_PER_SECTOR - 1) * q;
      var a, b := q / BITS_PER_SECTOR, q % BITS_PER_SECTOR;
      assert (BITS_PER_SECTOR - 1) * q == BITS_PER_SECTOR * (q - a) - b;
      Rounded(free - n, q - a);
      assert a <= free / 0x100_0000;
    }
  }

  lemma Rounded(x: nat, m: nat)
    requires x > BITS_PER_SECTOR * (m - 1)
    ensures DivRoundUp(x, BITS_PER_SECTOR) >= m
  {
  }

  lemma EnoughSectors(free: nat)
    ensures var n := DivRoundUp(free, BITS_PER_SECTOR); n <= free && (0 < free - n <==> 2 <= free)
    ensures var n := DivRoundUp(free, BITS_PER_SECTOR); var m := DivRoundUp(free - n, BITS_PER_SECTOR);
      m <= n && free - n <= m * BITS_PER_SECTOR && (0 < m <==> 2 <= free)
  {
  }

  // ---------------------------------------------------------------- the block bitmap

  /** The bits that end up in the bitmap: those past the data sectors, and bit 0 for the root directory, unless
      clearing the last byte wiped it out. */
  predicate FormatBit(bitLen: nat, k: nat) { bitLen <= k || (k == 0 && 8 <= bitLen) }

  lemma ByteBits(k: nat)
    requires k < 8
    ensures (0 as bv8) & Mask(k) == 0
    ensures (0xff as bv8) & Mask(k) != 0
    ensures (0x01 as bv8) & Mask(k) != 0 <==> k == 0
  {
    MaskValues(k);
  }

  /** Every byte of the buffer is as the format wants it. */
  predicate ByteDone(bytes: seq<bv8>, bitLen: nat, b: nat)
    requires b < |bytes|
  {
    forall k: nat :: k < 8 ==> (bytes[b] & Mask(k) != 0 <==> FormatBit(bitLen, 8 * b + k))
  }

  lemma DoneBits(bytes: seq<bv8>, bitLen: nat, n: nat)
    requires n <= |bytes| && forall b: nat :: b < n ==> ByteDone(bytes, bitLen, b)
    ensures forall i: nat :: i < 8 * n ==> (BitAt(bytes, i) <==> FormatBit(bitLen, i))
  {
    forall i: nat | i < 8 * n ensures BitAt(bytes, i) <==> FormatBit(bitLen, i) {
      assert ByteDone(bytes, bitLen, i / 8);
      assert i == 8 * (i / 8) + i % 8;
    }
  }

  /** How far the `memset` over the end of the bitmap reaches. */
  function FillEnd(bitLen: nat): nat { bitLen / 8 + SECTOR - bitLen / 8 % SECTOR }

  /** Steps 2 of `partition_format`: mark bit 0, set everything from the last byte to the end of its sector, then
      clear the bits of the last byte that stand for blocks. */
  method FillBitmap(buf: array<bv8>, bitLen: nat)
    requires FillEnd(bitLen) <= buf.Length && forall i :: 0 <= i < buf.Length ==> buf[i] == 0
    modifies buf
    ensures forall i: nat :: i < 8 * FillEnd(bitLen) ==> (BitAt(buf[..], i) <==> FormatBit(bitLen, i))
  {
    buf[0] := buf[0] | 0x01;
    var last, end := bitLen / 8, FillEnd(bitLen);
    forall i | last <= i < end { buf[i] := 0xff; }
    var k := 0;
    ByteBits(0);
    while k < bitLen % 8
      invariant k <= bitLen % 8
      invariant forall j: nat :: j < 8 ==> (buf[last] & Mask(j) != 0 <==> k <= j)
      invariant forall i :: 0 <= i < last ==> buf[i] == if i == 0 then 1 else 0
      invariant forall i :: last < i < end ==> buf[i] == 0xff
    {
      forall j: nat | j < 8 ensures buf[last] & !Mask(k) & Mask(j) != 0 <==> j != k && buf[last] & Mask(j) != 0 {
        MaskSetsOneBit(buf[last], k, j);
      }
      buf[last] := buf[last] & !Mask(k);
      k := k + 1;
    }
    forall b: nat | b < end ensures ByteDone(buf[..], bitLen, b) {
      forall j: nat | j < 8 ensures buf[b] & Mask(j) != 0 <==> FormatBit(bitLen, 8 * b + j) { ByteBits(j); }
    }
    DoneBits(buf[..], bitLen, end);
  }

  /** The buffer is as large as the largest region; the `memset` stays inside it unless the bitmap is the largest
      and ends exactly at a sector. No disk the driver supports is that large. */
  function BufferBytes(l: Layout): nat {
    (if l.bitmapSects >= TABLE_SECTS then l.bitmapSects else TABLE_SECTS) * SECTOR
  }

  lemma BufferSuffices(base: nat, sects: nat)
    requires USED + 2 <= sects < 0x1_0000_0000
    ensures var l := Format(base, sects);
      FillEnd(l.bitLen) <= BufferBytes(l) <==> !(l.bitLen % BITS_PER_SECTOR == 0 && TABLE_SECTS <= l.bitmapSects)
    ensures sects <= MAX_LBA + 1 ==> var l := Format(base, sects); FillEnd(l.bitLen) <= BufferBytes(l)
  {
    EnoughSectors(sects - USED);
    FillSectors(Format(base, sects).bitLen);
  }

  lemma FillSectors(bitLen: nat)
    requires 0 < bitLen
    ensures var n := DivRoundUp(bitLen, BITS_PER_SECTOR);
      FillEnd(bitLen) == (if bitLen % BITS_PER_SECTOR == 0 then n + 1 else n) * SECTOR
  {
    var q, r := bitLen / BITS_PER_SECTOR, bitLen % BITS_PER_SECTOR;
    assert bitLen == BITS_PER_SECTOR * q + r;
    RoundUp(q, r);
    ByteOfBit(q, r);
  }

  lemma RoundUp(q: nat, r: nat)
    requires r < BITS_PER_SECTOR
    ensures DivRoundUp(BITS_PER_SECTOR * q + r, BITS_PER_SECTOR) == if r == 0 then q else q + 1
  {
  }

  lemma ByteOfBit(q: nat, r: nat)
    requires r < BITS_PER_SECTOR
    ensures (BITS_PER_SECTOR * q + r) / 8 == SECTOR * q + r / 8 && r / 8 < SECTOR
    ensures (SECTOR * q + r / 8) % SECTOR == r / 8
  {
  }

  /** The bitmap that `mount_partition` reads back: all sectors of it, and the fill reaches all of them. */
  function Mounted(l: Layout): (bits: seq<bool>)
    ensures |bits| == BITS_PER_SECTOR * l.bitmapSects
  {
    seq(BITS_PER_SECTOR * l.bitmapSects, k requires 0 <= k < BITS_PER_SECTOR * l.bitmapSects => FormatBit(l.bitLen, k))
  }

  lemma FillCoversBitmap(base: nat, sects: nat)
    requires USED + 2 <= sects < 0x1_0000_0000
    ensures var l := Format(base, sects); BITS_PER_SECTOR * l.bitmapSects <= 8 * FillEnd(l.bitLen)
  {
    EnoughSectors(sects - USED);
    FillSectors(Format(base, sects).bitLen);
  }

  function DataArea(l: Layout): Area { Area(l.dataLba, l.dataLba + l.bitLen) }

  /** From 620 sectors on, and not below, the root directory's block is reserved and every bit past the data sectors
      is set: what allocation and all file operations rest on. */
  lemma AreaOkFrom(base: nat, sects: nat)
    requires USED + 2 <= sects < 0x1_0000_0000 && base + sects <= 0x1_0000_0000
    ensures AreaOk(DataArea(Format(base, sects)), Mounted(Format(base, sects))) <==> sects >= USED + 9
  {
    var l := Format(base, sects);
    SoundFrom(base, sects);
    EightBlocks(sects - USED);
    assert l.bitLen < 8 ==> !Mounted(l)[0];
  }

  lemma EightBlocks(free: nat)
    ensures free - DivRoundUp(free, BITS_PER_SECTOR) >= 8 <==> free >= 9
  {
  }

  lemma FormattedFits(base: nat, sects: nat, d: Disk)
    requires USED + 9 <= sects < 0x1_0000_0000 && base + sects <= |d| <= 0x1_0000_0000
    ensures var l := Format(base, sects); Fits(Geometry(l.tableLba, DataArea(l)), d, Mounted(l))
  {
    SoundFrom(base, sects);
    AreaOkFrom(base, sects);
    hide AreaOk, Format, Mounted;
  }

  /** Every block that a partition hands out is a data sector of it, taken for the first time and not the root
      directory's. */
  lemma AllocationsInside(l: Layout, bits: seq<bool>, b1: seq<bool>, lba: Word)
    requires Sound(l) && AreaOk(DataArea(l), bits) && Alloced(DataArea(l), bits, b1, lba)
    ensures l.dataLba < lba < l.dataLba + l.bitLen <= l.base + l.sects && !bits[lba - l.dataLba]
    ensures AreaOk(DataArea(l), b1)
  {
  }

  /** With 1 to 7 data sectors the first block handed out is the root directory's own. */
  lemma SmallPartition(base: nat, sects: nat)
    requires USED + 2 <= sects < USED + 9
    ensures FirstRun(Mounted(Format(base, sects)), 0, |Mounted(Format(base, sects))|, 1) == 0
  {
    var l := Format(base, sects);
    SoundFrom(base, sects);
    EightBlocks(sects - USED);
    assert ClearRun(Mounted(l), 0, 1);
  }

  /** The inode bitmap that `partition_format` writes: number 0 is the root directory. */
  function RootBits(): (bits: seq<bool>)
    ensures |bits| == MAX_FILES && bits[0] && forall k :: 1 <= k < MAX_FILES ==> !bits[k]
  {
    seq(MAX_FILES, k => k == 0)
  }

  /** The root directory's inode, as `partition_format` fills it in. */
  function RootInode(data: Word): (i: Inode)
    ensures WellFormed(i)
  {
    Inode(0, 2 * Dirs.ENTRY, 0, false, [data] + Zeros(12), 0, 0)
  }

  /** The buffer that is written over the inode table: zero but for the root directory's inode. */
  function TableBuffer(data: Word): (bs: seq<Byte>)
    ensures |bs| == TABLE_SECTS * SECTOR
  {
    var zero := seq<Byte>(TABLE_SECTS * SECTOR, _ => 0);
    Splice(zero, 0, Encode(Words(RootInode(data))))
  }

  /** The disk after the inode table is written. */
  function WithTable(d: Disk, table: nat, data: Word): (d1: Disk)
    requires TableFits(d, table)
    ensures |d1| == |d| && forall s :: 0 <= s < |d| && !(table <= s < table + TABLE_SECTS) ==> d1[s] == d[s]
  {
    seq(|d|, s requires 0 <= s < |d| => TableSector(d, table, data, s))
  }

  function TableSector(d: Disk, table: nat, data: Word, s: nat): Sector
    requires s < |d|
  {
    if table <= s < table + TABLE_SECTS
    then TableBuffer(data)[SECTOR * (s - table)..SECTOR * (s - table) + SECTOR]
    else d[s]
  }

  lemma TableByteOf(d: Disk, table: nat, data: Word, o: nat)
    requires TableFits(d, table) && o < TABLE_SECTS * SECTOR
    ensures TableByte(WithTable(d, table, data), table, o) == TableBuffer(data)[o]
  {
    hide TableBuffer;
    var q := o / SECTOR;
    assert q < TABLE_SECTS;
  }

  /** Opening the root directory finds its inode; every other slot is zero and carries no number but 0. */
  lemma FormattedTable(d: Disk, table: nat, data: Word, x: nat)
    requires TableFits(d, table) && x < MAX_FILES
    ensures var d1 := WithTable(d, table, data);
      if x == 0 then Load(d1, table, 0) == Ok(RootInode(data).(opens := 1))
      else Slot(d1, table, x) == seq<Byte>(INODE_SIZE, _ => 0) && !Runs.Carries(d1, table, x)
  {
    hide TableBuffer, WithTable, TableByte, Encode, Words;
    var d1 := WithTable(d, table, data);
    forall j | 0 <= j < INODE_SIZE ensures Slot(d1, table, x)[j] == TableBuffer(data)[x * INODE_SIZE + j] {
      SlotByte(d1, table, x, j);
      TableByteOf(d, table, data, x * INODE_SIZE + j);
    }
    BufferSlot(data, x);
    if x == 0 {
      LoadOfSlot(d1, table, 0, RootInode(data));
    } else {
      ZeroSlot(d1, table, x);
    }
  }

  lemma BufferSlot(data: Word, x: nat)
    requires x < MAX_FILES
    ensures x * INODE_SIZE + INODE_SIZE <= TABLE_SECTS * SECTOR
    ensures TableBuffer(data)[x * INODE_SIZE..x * INODE_SIZE + INODE_SIZE] ==
      if x == 0 then Encode(Words(RootInode(data))) else seq<Byte>(INODE_SIZE, _ => 0)
  {
    hide Encode, Words, Splice;
    InTable(x, INODE_SIZE - 1);
  }

  lemma ZeroSlot(d: Disk, table: nat, x: nat)
    requires TableFits(d, table) && 0 < x < MAX_FILES && Slot(d, table, x) == seq<Byte>(INODE_SIZE, _ => 0)
    ensures !Runs.Carries(d, table, x)
  {
    hide Slot, ReadSlot;
    assert Decode(seq<Byte>(INODE_SIZE, _ => 0))[0] == 0;
  }

  /** A partition that was formatted on disk `d` and mounted; the root directory lives in the reserved block. */
  function MountedFs(l: Layout, d: Disk): Runs.Fs
    requires TableFits(d, l.tableLba) && l.dataLba < 0x1_0000_0000
  {
    Runs.Fs(WithTable(d, l.tableLba, l.dataLba), Mounted(l), RootBits(), map[], map[0 := Zeros(DIRECT)])
  }

  /** From 620 sectors on, the invariant of the file system holds when a formatted partition is mounted. */
  lemma FormattedInv(base: nat, sects: nat, d: Disk)
    requires USED + 9 <= sects < 0x1_0000_0000 && base + sects <= |d| <= 0x1_0000_0000
    ensures var l := Format(base, sects);
      && TableFits(d, l.tableLba) && l.dataLba < 0x1_0000_0000
      && Runs.FsInv(Geometry(l.tableLba, DataArea(l)), MountedFs(l, d), Mounted(l), seq(MAX_FILES, _ => false))
      && Runs.DirsHold(Geometry(l.tableLba, DataArea(l)), MountedFs(l, d), [])
  {
    hide Format, Mounted, DataArea, Runs.FsInv, AreaOk, WithTable, Runs.Carries, Runs.HoldsDir;
    SoundFrom(base, sects);
    var l := Format(base, sects);
    FormattedFits(base, sects, d);
    FormatPlace(base, sects);
    var d1 := WithTable(d, l.tableLba, l.dataLba);
    FormattedFits(base, sects, d1);
    forall x: nat | 0 < x < MAX_FILES ensures !Runs.Carries(d1, l.tableLba, x) {
      FormattedTable(d, l.tableLba, l.dataLba, x);
    }
    RootHolds(d1, l.tableLba);
    RootCarries(d, l.tableLba, l.dataLba);
    Runs.StartInv(Geometry(l.tableLba, DataArea(l)), MountedFs(l, d), seq(MAX_FILES, _ => false));
  }

  lemma RootCarries(d: Disk, table: nat, data: Word)
    requires TableFits(d, table)
    ensures Runs.Carries(WithTable(d, table, data), table, 0)
  {
    hide WithTable, Load;
    FormattedTable(d, table, data, 0);
  }

  lemma FormatPlace(base: nat, sects: nat)
    ensures Format(base, sects).base == base && Format(base, sects).sects == sects
  {
  }

  lemma RootHolds(d: Disk, table: nat)
    requires TableFits(d, table)
    ensures Runs.HoldsDir(d, table, 0, 0, Zeros(DIRECT))
  {
  }
}
