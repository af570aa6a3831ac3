/** inode.c: the on-disk inode table, whose 76-byte slots may straddle two sectors. */
module InodeTables {
  import opened Disks
  import opened Outcomes

  const INODE_SIZE := 76
  const MAX_FILES := 4096
  /** Sectors of the table: 4096 slots of 76 bytes, rounded up. */
  const TABLE_SECTS := (INODE_SIZE * MAX_FILES + SECTOR - 1) / SECTOR

  /** `struct inode`; `prev` and `next` are its link in the list of open inodes. */
  datatype Inode = Inode(no: Word, size: Word, opens: Word, deny: bool, sectors: seq<Word>, prev: Word, next: Word)

  predicate WellFormed(i: Inode) { |i.sectors| == 13 }

  /** The structure as memory holds it. */
  function Words(i: Inode): (ws: seq<Word>)
    requires WellFormed(i)
    ensures |ws| == 19
  {
    [i.no, i.size, i.opens, if i.deny then 1 else 0] + i.sectors + [i.prev, i.next]
  }

  function OfWords(ws: seq<Word>): Inode
    requires |ws| == 19
  {
    Inode(ws[0], ws[1], ws[2], ws[3] != 0, ws[4..17], ws[17], ws[18])
  }

  lemma OfWordsWords(i: Inode)
    requires WellFormed(i)
    ensures OfWords(Words(i)) == i
  {
    assert Words(i)[4..17] == i.sectors;
  }

  /** What `inode_sync` writes: the fields that mean something on disk only. */
  function Pure(i: Inode): Inode { i.(opens := 0, deny := false, prev := 0, next := 0) }

  /** `struct inode_position`, relative to the start of the table. */
  datatype Position = Position(twoSec: bool, sec: nat, off: nat)

  function Locate(no: nat): Position {
    var o := no * INODE_SIZE;
    Position(SECTOR - o % SECTOR < INODE_SIZE, o / SECTOR, o % SECTOR)
  }

  /** Byte `o` of the table that starts at sector `table`. */
  function TableByte(d: Disk, table: nat, o: nat): Byte
    requires table + o / SECTOR < |d|
  {
    d[table + o / SECTOR][o % SECTOR]
  }

  predicate TableFits(d: Disk, table: nat) { table + TABLE_SECTS <= |d| }

  function Slot(d: Disk, table: nat, no: nat): (bs: seq<Byte>)
    requires TableFits(d, table) && no < MAX_FILES
    ensures |bs| == INODE_SIZE
  {
    seq<Byte>(INODE_SIZE, j requires 0 <= j < INODE_SIZE => TableByte(d, table, no * INODE_SIZE + j))
  }

  /** Every slot lies inside the table, and inside the one or two sectors that `inode_locate` names; slots do
      not overlap. */
  lemma SlotGeometry(no: nat, other: nat)
    requires no < MAX_FILES && other < MAX_FILES
    ensures var p := Locate(no); var n := if p.twoSec then 2 else 1;
      && p.sec * SECTOR + p.off == no * INODE_SIZE && p.off + INODE_SIZE <= n * SECTOR && p.sec + n <= TABLE_SECTS
      && (p.twoSec <==> no * INODE_SIZE / SECTOR != (no * INODE_SIZE + INODE_SIZE - 1) / SECTOR)
    ensures no < other ==> no * INODE_SIZE + INODE_SIZE <= other * INODE_SIZE
  {
  }

  /** One or two adjacent sectors as the buffer of a read. */
  function ReadSectors(d: Disk, lba: nat, n: nat): (bs: seq<Byte>)
    requires lba + n <= |d| && 1 <= n <= 2
    ensures |bs| == n * SECTOR
    ensures forall i :: 0 <= i < n * SECTOR ==> bs[i] == d[lba + i / SECTOR][i % SECTOR]
  {
    var a: seq<Byte> := d[lba];
    if n == 1 then a else
    var b: seq<Byte> := d[lba + 1];
    a + b
  }

  function WriteSectors(d: Disk, lba: nat, bs: seq<Byte>, n: nat): (r: Disk)
    requires lba + n <= |d| && 1 <= n <= 2 && |bs| == n * SECTOR
    ensures |r| == |d|
    ensures forall s :: 0 <= s < |d| && !(lba <= s < lba + n) ==> r[s] == d[s]
    ensures forall i :: 0 <= i < n * SECTOR ==> r[lba + i / SECTOR][i % SECTOR] == bs[i]
  {
    if n == 1 then d[lba := bs[..SECTOR]] else d[lba := bs[..SECTOR]][lba + 1 := bs[SECTOR..]]
  }

  /** The bytes of slot `no`, as `inode_open` picks them out of the sectors it reads. */
  function ReadSlot(d: Disk, table: nat, no: nat): (bs: seq<Byte>)
    requires TableFits(d, table) && no < MAX_FILES
    ensures bs == Slot(d, table, no)
  {
    SlotGeometry(no, no);
    var p := Locate(no);
    ReadSlotBytes(d, table, no);
    ReadSectors(d, table + p.sec, if p.twoSec then 2 else 1)[p.off..p.off + INODE_SIZE]
  }

  lemma OffsetInSectors(sec: nat, i: nat)
    ensures (sec * SECTOR + i) / SECTOR == sec + i / SECTOR && (sec * SECTOR + i) % SECTOR == i % SECTOR
  {
  }

  lemma ReadSlotBytes(d: Disk, table: nat, no: nat)
    requires TableFits(d, table) && no < MAX_FILES
    ensures var p := Locate(no); var n := if p.twoSec then 2 else 1;
      && table + p.sec + n <= |d| && p.off + INODE_SIZE <= n * SECTOR
      && ReadSectors(d, table + p.sec, n)[p.off..p.off + INODE_SIZE] == Slot(d, table, no)
  {
    hide Locate, ReadSectors, TableByte, Slot;
    SlotGeometry(no, no);
    var p := Locate(no);
    var n := if p.twoSec then 2 else 1;
    var buf := ReadSectors(d, table + p.sec, n);
    forall j | 0 <= j < INODE_SIZE ensures buf[p.off..p.off + INODE_SIZE][j] == Slot(d, table, no)[j] {
      ReadByte(d, table, p.sec, n, p.off + j);
      assert p.sec * SECTOR + (p.off + j) == no * INODE_SIZE + j;
      SlotByte(d, table, no, j);
      assert buf[p.off..p.off + INODE_SIZE][j] == buf[p.off + j];
    }
  }

  lemma SlotByte(d: Disk, table: nat, no: nat, j: nat)
    requires TableFits(d, table) && no < MAX_FILES && j < INODE_SIZE
    ensures (no * INODE_SIZE + j) / SECTOR < TABLE_SECTS
    ensures Slot(d, table, no)[j] == TableByte(d, table, no * INODE_SIZE + j)
  {
    hide TableByte;
    InTable(no, j);
  }

  lemma InTable(no: nat, j: nat)
    requires no < MAX_FILES && j < INODE_SIZE
    ensures (no * INODE_SIZE + j) / SECTOR < TABLE_SECTS
  {
    assert no * INODE_SIZE + j < MAX_FILES * INODE_SIZE;
  }

  lemma ReadByte(d: Disk, table: nat, sec: nat, n: nat, i: nat)
    requires table + sec + n <= |d| && 1 <= n <= 2 && i < n * SECTOR
    ensures ReadSectors(d, table + sec, n)[i] == TableByte(d, table, sec * SECTOR + i)
  {
    hide ReadSectors;
    OffsetInSectors(sec, i);
    var buf := ReadSectors(d, table + sec, n);
    assert buf[i] == d[table + sec + i / SECTOR][i % SECTOR];
  }

  /** Read, overwrite the slot in the buffer, write back: the pattern of `inode_sync` and `inode_delete`. */
  function Patch(d: Disk, table: nat, no: nat, src: seq<Byte>): (r: Disk)
    requires TableFits(d, table) && no < MAX_FILES && |src| == INODE_SIZE
    ensures |r| == |d|
    ensures forall s :: 0 <= s < |d| && !(table <= s < table + TABLE_SECTS) ==> r[s] == d[s]
  {
    SlotGeometry(no, no);
    var p := Locate(no);
    var n := if p.twoSec then 2 else 1;
    WriteSectors(d, table + p.sec, Splice(ReadSectors(d, table + p.sec, n), p.off, src), n)
  }

  /** Exactly the bytes of the slot change. */
  lemma PatchBytes(d: Disk, table: nat, no: nat, src: seq<Byte>, o: nat)
    requires TableFits(d, table) && no < MAX_FILES && |src| == INODE_SIZE && o < TABLE_SECTS * SECTOR
    ensures TableByte(Patch(d, table, no, src), table, o) ==
      if no * INODE_SIZE <= o < no * INODE_SIZE + INODE_SIZE then src[o - no * INODE_SIZE] else TableByte(d, table, o)
  {
    hide TableByte, ReadSectors, WriteSectors, Splice, Locate;
    SlotGeometry(no, no);
    var p := Locate(no);
    PatchedByte(d, table, p.sec, if p.twoSec then 2 else 1, p.off, src, o);
  }

  lemma PatchedByte(d: Disk, table: nat, sec: nat, n: nat, off: nat, src: seq<Byte>, o: nat)
    requires TableFits(d, table) && sec + n <= TABLE_SECTS && 1 <= n <= 2 && off + |src| <= n * SECTOR
    requires o < TABLE_SECTS * SECTOR
    ensures TableByte(WriteSectors(d, table + sec, Splice(ReadSectors(d, table + sec, n), off, src), n), table, o) ==
      if sec * SECTOR + off <= o < sec * SECTOR + off + |src| then src[o - sec * SECTOR - off]
      else TableByte(d, table, o)
  {
    hide ReadSectors, WriteSectors, Splice;
    if sec <= o / SECTOR < sec + n {
      hide TableByte;
      SplicedByte(d, table, sec, n, off, src, o - sec * SECTOR);
    }
  }

  lemma SplicedByte(d: Disk, table: nat, sec: nat, n: nat, off: nat, src: seq<Byte>, i: nat)
    requires table + sec + n <= |d| && 1 <= n <= 2 && off + |src| <= n * SECTOR && i < n * SECTOR
    ensures var d1 := WriteSectors(d, table + sec, Splice(ReadSectors(d, table + sec, n), off, src), n);
      TableByte(d1, table, sec * SECTOR + i) ==
      if off <= i < off + |src| then src[i - off] else TableByte(d, table, sec * SECTOR + i)
  {
    hide ReadSectors, WriteSectors, Splice;
    OffsetInSectors(sec, i);
    var buf := ReadSectors(d, table + sec, n);
    assert buf[i] == TableByte(d, table, sec * SECTOR + i);
    var out := Splice(buf, off, src);
    assert out[i] == if off <= i < off + |src| then src[i - off] else buf[i];
  }

  lemma PatchSlots(d: Disk, table: nat, no: nat, src: seq<Byte>, other: nat)
    requires TableFits(d, table) && no < MAX_FILES && |src| == INODE_SIZE && other < MAX_FILES
    ensures Slot(Patch(d, table, no, src), table, other) == if other == no then src else Slot(d, table, other)
  {
    hide Patch, TableByte;
    var r := Patch(d, table, no, src);
    SlotGeometry(no, other);
    SlotGeometry(other, no);
    forall j | 0 <= j < INODE_SIZE
      ensures Slot(r, table, other)[j] == if other == no then src[j] else Slot(d, table, other)[j]
    {
      PatchBytes(d, table, no, src, other * INODE_SIZE + j);
    }
  }

  /** Every slot but `no`, and every sector outside the table, is as before. */
  predicate OtherSlotsKept(d0: Disk, d1: Disk, table: nat, no: nat) {
    && TableFits(d0, table) && |d1| == |d0|
    && (forall x :: 0 <= x < MAX_FILES && x != no ==> Slot(d1, table, x) == Slot(d0, table, x))
    && (forall s :: 0 <= s < |d0| && !(table <= s < table + TABLE_SECTS) ==> d1[s] == d0[s])
  }

  lemma SlotsAfterPatch(d: Disk, table: nat, no: nat, src: seq<Byte>)
    requires TableFits(d, table) && no < MAX_FILES && |src| == INODE_SIZE
    ensures Slot(Patch(d, table, no, src), table, no) == src && OtherSlotsKept(d, Patch(d, table, no, src), table, no)
  {
    hide Slot, Patch;
    PatchSlots(d, table, no, src, no);
    forall x | 0 <= x < MAX_FILES && x != no ensures Slot(Patch(d, table, no, src), table, x) == Slot(d, table, x) {
      PatchSlots(d, table, no, src, x);
    }
  }

  /** `inode_sync`: the number passes through a `uint8_t`. */
  function Sync(d: Disk, table: nat, i: Inode): (r: Disk)
    requires TableFits(d, table) && WellFormed(i)
    ensures |r| == |d|
    ensures forall s :: 0 <= s < |d| && !(table <= s < table + TABLE_SECTS) ==> r[s] == d[s]
  {
    Patch(d, table, i.no % 256, Encode(Words(Pure(i))))
  }

  /** What a fresh `inode_open` makes of the slot; `inode_locate` asserts the bound. */
  function Load(d: Disk, table: nat, no: nat): Outcome<Inode>
    requires TableFits(d, table)
  {
    if no >= MAX_FILES then Halt else Ok(OfWords(Decode(ReadSlot(d, table, no))).(opens := 1))
  }

  function Delete(d: Disk, table: nat, no: nat): Outcome<Disk>
    requires TableFits(d, table)
  {
    if no >= MAX_FILES then Halt else Ok(Patch(d, table, no, seq<Byte>(INODE_SIZE, _ => 0)))
  }

  lemma LoadOfSlot(d: Disk, table: nat, no: nat, i: Inode)
    requires TableFits(d, table) && no < MAX_FILES && WellFormed(i) && Slot(d, table, no) == Encode(Words(i))
    ensures Load(d, table, no) == Ok(i.(opens := 1))
  {
    hide Slot, Encode, Decode, Words, OfWords;
    OfWordsWords(i);
    DecodeEncode(Words(i));
  }

  /** An inode numbered below 256 reads back with its number, size and block table, whether or not its slot
      straddles sectors. */
  lemma SyncThenOpen(d: Disk, table: nat, i: Inode)
    requires TableFits(d, table) && WellFormed(i) && i.no < 256
    ensures Load(Sync(d, table, i), table, i.no) == Ok(Inode(i.no, i.size, 1, false, i.sectors, 0, 0))
  {
    hide Slot, Encode, Patch, Load;
    PatchSlots(d, table, i.no, Encode(Words(Pure(i))), i.no);
    LoadOfSlot(Sync(d, table, i), table, i.no, Pure(i));
  }

  /** The slot that `inode_sync` writes is the number's low byte, and no other slot changes. */
  lemma SyncChangesOneSlot(d: Disk, table: nat, i: Inode, other: nat)
    requires TableFits(d, table) && WellFormed(i) && other < MAX_FILES
    ensures other != i.no % 256 ==> Slot(Sync(d, table, i), table, other) == Slot(d, table, other)
    ensures other == i.no % 256 ==> Slot(Sync(d, table, i), table, other) == Encode(Words(Pure(i)))
  {
    hide Slot, Encode, Patch;
    PatchSlots(d, table, i.no % 256, Encode(Words(Pure(i))), other);
  }

  /** From number 256 on, the inode's own slot keeps its old bytes and another inode's slot is overwritten with
      the wrong number: opening that one afterwards yields an inode that says it is `i.no`. */
  lemma SyncOfLargeNumber(d: Disk, table: nat, i: Inode)
    requires TableFits(d, table) && WellFormed(i) && 256 <= i.no < MAX_FILES
    ensures Load(Sync(d, table, i), table, i.no) == Load(d, table, i.no)
    ensures Load(Sync(d, table, i), table, i.no % 256) == Ok(Pure(i).(opens := 1))
  {
    hide Slot, Encode, Patch, Words, OfWords, Decode;
    SyncChangesOneSlot(d, table, i, i.no);
    SyncChangesOneSlot(d, table, i, i.no % 256);
    LoadOfSlot(Sync(d, table, i), table, i.no % 256, Pure(i));
  }

  lemma DeleteThenOpen(d: Disk, table: nat, no: nat, other: nat)
    requires TableFits(d, table) && no < MAX_FILES && other < MAX_FILES
    ensures Load(Delete(d, table, no).value, table, no) == Ok(Inode(0, 0, 1, false, seq(13, _ => 0), 0, 0))
    ensures other != no ==> Load(Delete(d, table, no).value, table, other) == Load(d, table, other)
  {
    hide Slot, Patch;
    var zero := seq<Byte>(INODE_SIZE, _ => 0);
    PatchSlots(d, table, no, zero, no);
    PatchSlots(d, table, no, zero, other);
    assert Decode(zero) == seq<Word>(19, _ => 0);
    assert OfWords(Decode(zero)).sectors == seq(13, _ => 0);
  }

  // ---- the list of open inodes ----

  predicate Absent(open: seq<Inode>, no: Word) { forall k :: 0 <= k < |open| ==> open[k].no != no }

  predicate OpenListValid(open: seq<Inode>) {
    && (forall k :: 0 <= k < |open| ==> 1 <= open[k].opens)
    && (forall j, k :: 0 <= j < k < |open| ==> open[j].no != open[k].no)
  }

  function Opened(open: seq<Inode>, k: nat): seq<Inode>
    requires k < |open| && open[k].opens < 0xffff_ffff
  {
    open[k := open[k].(opens := open[k].opens + 1)]
  }

  /** `inode_close` of the inode at position `k`. */
  function Closed(open: seq<Inode>, k: nat): seq<Inode>
    requires k < |open| && 1 <= open[k].opens
  {
    if open[k].opens == 1 then open[..k] + open[k + 1..] else open[k := open[k].(opens := open[k].opens - 1)]
  }

  lemma CloseUndoesShare(open: seq<Inode>, k: nat)
    requires OpenListValid(open) && k < |open| && open[k].opens < 0xffff_ffff
    ensures OpenListValid(Opened(open, k)) && Closed(Opened(open, k), k) == open
  {
  }

  lemma CloseUndoesLoad(open: seq<Inode>, i: Inode)
    requires i.opens == 1
    ensures Closed([i] + open, 0) == open
  {
    assert ([i] + open)[1..] == open;
  }

  lemma LoadKeepsList(open: seq<Inode>, i: Inode)
    requires i.opens == 1 && OpenListValid(open) && Absent(open, i.no)
    ensures OpenListValid([i] + open)
  {
    var l := [i] + open;
    forall j, k | 0 <= j < k < |l| ensures l[j].no != l[k].no {
      assert l[k] == open[k - 1];
    }
  }

  lemma CloseKeeps(open: seq<Inode>, k: nat)
    requires OpenListValid(open) && k < |open|
    ensures OpenListValid(Closed(open, k))
  {
  }

  /** The open inodes of a mounted partition and the disk under them. */
  class InodeStore {
    const table: nat
    var disk: Disk
    var open: seq<Inode>

    constructor (table: nat, disk: Disk)
      ensures this.table == table && this.disk == disk && open == []
    {
      this.table, this.disk, open := table, disk, [];
    }

    /** `inode_open`: the position of the inode in the list, or a failed assertion. An inode that is open is
        shared and only counted; any other is read from its slot and put in front. */
    method Open(no: Word) returns (ok: bool, k: nat)
      requires TableFits(disk, table)
      requires forall j :: 0 <= j < |open| ==> open[j].opens < 0xffff_ffff
      modifies this`open
      ensures !ok <==> Absent(old(open), no) && MAX_FILES <= no
      ensures !ok ==> open == old(open)
      ensures ok ==> k < |open|
      ensures ok && !Absent(old(open), no) ==>
        && k < |old(open)| && old(open)[k].no == no && open == Opened(old(open), k)
      ensures ok && Absent(old(open), no) ==> k == 0 && open == [Load(disk, table, no).value] + old(open)
      ensures ok && OpenListValid(old(open)) ==> 1 <= open[k].opens && Closed(open, k) == old(open)
      ensures OpenListValid(old(open)) && (no < MAX_FILES ==> Load(disk, table, no).value.no == no) ==>
        OpenListValid(open)
    {
      hide OpenListValid, Closed;
      k := 0;
      while k < |open|
        invariant k <= |open| && open == old(open)
        invariant Absent(open[..k], no)
      {
        if open[k].no == no {
          if OpenListValid(open) { CloseUndoesShare(open, k); }
          open := open[k := open[k].(opens := open[k].opens + 1)];
          return true, k;
        }
        k := k + 1;
      }
      assert open[..k] == open;
      var l := Load(disk, table, no);
      if l.Halt? { return false, 0; }
      CloseUndoesLoad(open, l.value);
      if OpenListValid(open) && l.value.no == no { LoadKeepsList(open, l.value); }
      open := [l.value] + open;
      return true, 0;
    }

    method Close(k: nat)
      requires k < |open| && 1 <= open[k].opens
      modifies this`open
      ensures open == Closed(old(open), k)
      ensures OpenListValid(old(open)) ==> OpenListValid(open)
    {
      if OpenListValid(open) { CloseKeeps(open, k); }
      open := open[k := open[k].(opens := open[k].opens - 1)];
      if open[k].opens == 0 { open := open[..k] + open[k + 1..]; }
    }

    /** `inode_sync` of the open inode at position `k`: the slot of the number's low byte holds the inode's number, size
        and blocks, and no other slot and no sector outside the table changes. Below 256 that is the inode's own
        slot, and a later `inode_open` finds it there. */
    method WriteBack(k: nat)
      requires TableFits(disk, table) && k < |open| && WellFormed(open[k])
      modifies this`disk
      ensures disk == Sync(old(disk), table, open[k])
      ensures Slot(disk, table, open[k].no % 256) == Encode(Words(Pure(open[k])))
      ensures OtherSlotsKept(old(disk), disk, table, open[k].no % 256)
      ensures open[k].no < 256 ==>
        Load(disk, table, open[k].no) == Ok(Inode(open[k].no, open[k].size, 1, false, open[k].sectors, 0, 0))
    {
      hide Slot, Encode, Words, Patch, Load;
      var pure := open[k].(opens := 0, deny := false);
      pure := pure.(prev := 0, next := 0);
      var no := open[k].no % 256;
      SlotsAfterPatch(disk, table, no, Encode(Words(pure)));
      if open[k].no < 256 { SyncThenOpen(disk, table, open[k]); }
      disk := Patch(disk, table, no, Encode(Words(pure)));
    }

    /** `inode_delete`: the slot is cleared, so that opening it finds an empty inode, and no other slot and no sector
        outside the table changes; numbers from 4096 on fail the assertion. */
    method Erase(no: Word) returns (ok: bool)
      requires TableFits(disk, table)
      modifies this`disk
      ensures ok <==> no < MAX_FILES
      ensures disk == if ok then Delete(old(disk), table, no).value else old(disk)
      ensures ok ==> Load(disk, table, no) == Ok(Inode(0, 0, 1, false, seq(13, _ => 0), 0, 0))
      ensures ok ==> OtherSlotsKept(old(disk), disk, table, no)
    {
      hide Slot, Patch, Load;
      ok := no < MAX_FILES;
      if ok {
        SlotsAfterPatch(disk, table, no, seq<Byte>(INODE_SIZE, _ => 0));
        DeleteThenOpen(disk, table, no, no);
        disk := Patch(disk, table, no, seq<Byte>(INODE_SIZE, _ => 0));
      }
    }
  }
}
