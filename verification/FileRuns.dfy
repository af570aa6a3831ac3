/** Runs of the file system: any order of creations, writes and releases of regular files, and of directories that come,
    grow, shrink and go in between, all on the same two bitmaps and the same disk. A step promises only what its
    routine promises from a sound state; that every state is sound is proved. */
module FileRuns {
  import opened Disks
  import opened Outcomes
  import opened Bitmaps
  import opened InodeTables
  import opened BlockMaps
  import opened Files
  import Dirs = Directories

  /** The two in-memory bitmaps, the disk, the regular files, and the block addresses of the directories. */
  datatype Fs = Fs(disk: Disk, bits: seq<bool>, ibits: seq<bool>, files: map<nat, Inode>, dirs: map<nat, seq<Word>>)

  /** What an insertion or deletion does to the blocks of a directory. */
  datatype Change = Stay | Take(k: nat) | Give(k: nat)

  datatype Op =
    | Create(no: nat)
    | Write(no: nat, buf: seq<Byte>)
    | Release(no: nat)
    | MakeDir(no: nat)
    | ChangeDir(no: nat, change: Change)
    | RemoveDir(no: nat)

  /** `inode_init`. */
  function NewInode(no: nat): (i: Inode)
    ensures WellFormed(i)
  {
    Inode(no % 0x1_0000_0000, 0, 0, false, Zeros(13), 0, 0)
  }

  ghost predicate Released(a: Area, b0: seq<bool>, b1: seq<bool>, m: seq<Word>, t: Word) {
    |b1| == |b0| && forall k :: 0 <= k < |b0| ==> (b1[k] <==> b0[k] && !Owns(m, t, a.start + k))
  }

  /** Slot `no` of the table holds an inode with number `no`: the assertion of `inode_release`, and what any other
      routine expects of `inode_open`. */
  predicate Carries(d: Disk, table: nat, no: nat) {
    TableFits(d, table) && no < MAX_FILES && Load(d, table, no).value.no == no
  }

  /** The slot of the low byte, which `inode_sync` writes, holds an inode with number `no`. */
  predicate CarriesAt(d: Disk, table: nat, no: nat) {
    TableFits(d, table) && Load(d, table, no % 256).value.no == no
  }

  /** `inode_bitmap_alloc`, `inode_init` and `inode_sync`. */
  ghost predicate CreateStep(g: Geometry, s: Fs, no: nat, s1: Fs) {
    && no == FirstRun(s.ibits, 0, |s.ibits|, 1)
    && s1.bits == s.bits && s1.dirs == s.dirs && s1.ibits == s.ibits[no := true] && s1.files ==
      s.files[no := NewInode(no)]
    && (TableFits(s.disk, g.table) ==> s1.disk == Sync(s.disk, g.table, NewInode(no)))
  }

  /** A `file_write` that succeeds. */
  ghost predicate WriteStep(g: Geometry, s: Fs, no: nat, buf: seq<Byte>, s1: Fs) {
    && no in s.files && no in s1.files && s1.files == s.files[no := s1.files[no]]
    && s1.ibits == s.ibits && s1.dirs == s.dirs
    && (Fits(g, s.disk, s.bits) && Good(g.area, s.disk, s.bits, s.files[no]) ==>
          Wrote(g, s.disk, s.bits, s.files[no], buf, s1.disk, s1.bits, s1.files[no]))
  }

  /** `inode_release` of a file that is not open: what is released is the inode found in its slot, which must carry the
      number. */
  ghost predicate ReleaseStep(g: Geometry, s: Fs, no: nat, s1: Fs) {
    && no in s.files && s1.files == s.files - {no} && s1.dirs == s.dirs && Carries(s.disk, g.table, no)
    && var i := Load(s.disk, g.table, no).value;
      (Fits(g, s.disk, s.bits) && Good(g.area, s.disk, s.bits, i) && no < |s.ibits| ==>
          && Released(g.area, s.bits, s1.bits, MapOf(s.disk, i), TableOf(i))
          && s1.disk == Delete(s.disk, g.table, no).value && s1.ibits == s.ibits[no := false])
  }

  /** The sectors a directory writes: its blocks, before and after, and its slot in the inode table. The first block of
      the root is the reserved data sector; it is no part of the list. */
  ghost predicate DirDisk(g: Geometry, d0: Disk, d1: Disk, no: nat, a: seq<Word>, b: seq<Word>) {
    && TableFits(d0, g.table) && |d1| == |d0|
    && (forall s :: 0 <= s < |d0| && d1[s] != d0[s] ==>
          Dirs.Listed(a, s) || Dirs.Listed(b, s) || s == g.area.start || g.table <= s < g.table + TABLE_SECTS)
    && (forall x :: 0 <= x < MAX_FILES && x != no % 256 ==> Slot(d1, g.table, x) == Slot(d0, g.table, x))
    && CarriesAt(d1, g.table, no) && HoldsDir(d1, g.table, no % 256, no, b)
  }

  /** The inode in the slot has the blocks of the directory. The root, which is never removed, has its reserved block as
      well. */
  predicate HoldsDir(d: Disk, table: nat, slot: nat, no: nat, sectors: seq<Word>)
    requires TableFits(d, table) && slot < MAX_FILES
  {
    no != 0 ==> Load(d, table, slot).value.sectors == sectors + [0]
  }

  predicate DirFine(a: Area, bits: seq<bool>, sectors: seq<Word>) {
    |sectors| == DIRECT && Dirs.Distinct(sectors) && forall k :: 0 <= k < DIRECT && sectors[k] != 0 ==>
      IsBlock(a, bits, sectors[k])
  }

  /** `sys_mkdir`: a number and a first block. */
  ghost predicate MakeDirStep(g: Geometry, s: Fs, no: nat, s1: Fs) {
    && no == FirstRun(s.ibits, 0, |s.ibits|, 1) && no in s1.dirs
    && s1.files == s.files && s1.dirs == s.dirs[no := s1.dirs[no]] && s1.ibits == s.ibits[no := true]
    && (Fits(g, s.disk, s.bits) ==>
          && |s1.dirs[no]| == DIRECT && s1.dirs[no] == Zeros(DIRECT)[0 := s1.dirs[no][0]]
          && Alloced(g.area, s.bits, s1.bits, s1.dirs[no][0])
          && DirDisk(g, s.disk, s1.disk, no, Zeros(DIRECT), s1.dirs[no]))
  }

  /** `sync_dir_entry` or `delete_dir_entry`, with the block it takes or gives back. The root directory is always open;
      any other is opened from its slot. */
  ghost predicate ChangeDirStep(g: Geometry, s: Fs, no: nat, change: Change, s1: Fs) {
    && no in s.dirs && no in s1.dirs && s1.files == s.files && s1.dirs == s.dirs[no := s1.dirs[no]]
    && s1.ibits == s.ibits && (no == 0 || Carries(s.disk, g.table, no))
    && (Fits(g, s.disk, s.bits) && DirFine(g.area, s.bits, s.dirs[no]) ==>
          && DirDisk(g, s.disk, s1.disk, no, s.dirs[no], s1.dirs[no])
          && Changed(g.area, s.bits, s1.bits, s.dirs[no], s1.dirs[no], change))
  }

  ghost predicate Changed(a: Area, b0: seq<bool>, b1: seq<bool>, before: seq<Word>, after: seq<Word>, change: Change) {
    match change
    case Stay => after == before && b1 == b0
    case Take(k) =>
      k < |before| == |after| && before[k] == 0 && after == before[k := after[k]] && Alloced(a, b0, b1, after[k])
    case Give(k) =>
      && k < |before| && before[k] != 0 && after == before[k := 0]
      && 0 <= before[k] - a.start < |b0| && b1 == b0[before[k] - a.start := false]
  }

  /** `inode_release` of a directory, which is not the root; `dir_remove` asserts that the inode from its slot has no
      table of indirect blocks. */
  ghost predicate RemoveDirStep(g: Geometry, s: Fs, no: nat, s1: Fs) {
    && no in s.dirs && no != 0 && s1.dirs == s.dirs - {no} && s1.files == s.files && Carries(s.disk, g.table, no)
    && var m := Load(s.disk, g.table, no).value.sectors;
      (Fits(g, s.disk, s.bits) && DirFine(g.area, s.bits, m[..DIRECT]) && m[DIRECT] == 0 && no < |s.ibits| ==>
          && Released(g.area, s.bits, s1.bits, m[..DIRECT], 0)
          && s1.disk == Delete(s.disk, g.table, no).value && s1.ibits == s.ibits[no := false])
  }

  ghost predicate Step(g: Geometry, s: Fs, op: Op, s1: Fs) {
    match op
    case Create(no) => CreateStep(g, s, no, s1)
    case Write(no, buf) => WriteStep(g, s, no, buf, s1)
    case Release(no) => ReleaseStep(g, s, no, s1)
    case MakeDir(no) => MakeDirStep(g, s, no, s1)
    case ChangeDir(no, change) => ChangeDirStep(g, s, no, change, s1)
    case RemoveDir(no) => RemoveDirStep(g, s, no, s1)
  }

  // ---------------------------------------------------------------- the invariant

  ghost predicate FileOwner(s: Fs, no: nat, b: int) {
    && no in s.files && WellFormed(s.files[no]) && TableOf(s.files[no]) < |s.disk|
    && Owns(MapOf(s.disk, s.files[no]), TableOf(s.files[no]), b)
  }

  /** Block `b` belongs to the file or directory with number `no`. */
  ghost predicate Owner(s: Fs, no: nat, b: int) {
    FileOwner(s, no, b) || (no in s.dirs && Dirs.Listed(s.dirs[no], b))
  }

  /** The file is sound, and if its slot carries its number, the slot is up to date. */
  ghost predicate FileOk(g: Geometry, s: Fs, no: nat) {
    && no in s.files && no < MAX_FILES && s.files[no].no == no && TableFits(s.disk, g.table)
    && Good(g.area, s.disk, s.bits, s.files[no])
    && (Carries(s.disk, g.table, no) ==> Slot(s.disk, g.table, no) == Encode(Words(Pure(s.files[no]))))
  }

  ghost predicate DirOk(g: Geometry, s: Fs, no: nat) {
    && no in s.dirs && no < MAX_FILES && DirFine(g.area, s.bits, s.dirs[no])
    && (Carries(s.disk, g.table, no) ==> HoldsDir(s.disk, g.table, no, no, s.dirs[no]))
  }

  ghost predicate AllOk(g: Geometry, s: Fs) {
    && s.files.Keys !! s.dirs.Keys
    && (forall no :: no in s.files ==> FileOk(g, s, no))
    && (forall no :: no in s.dirs ==> DirOk(g, s, no))
  }

  ghost predicate OneOwner(s: Fs) {
    forall x: nat, y: nat, b: int :: Owner(s, x, b) && Owner(s, y, b) ==> x == y
  }

  ghost predicate Owned(s: Fs, b: int) { exists x: nat :: Owner(s, x, b) }

  /** A block is taken if it was in `base` or a file or directory owns it, never both. */
  ghost predicate BlockBits(a: Area, s: Fs, base: seq<bool>) {
    && |base| == |s.bits|
    && (forall k :: 0 <= k < |base| ==> (s.bits[k] <==> base[k] || Owned(s, a.start + k)))
    && (forall k :: 0 <= k < |base| && base[k] ==> !Owned(s, a.start + k))
  }

  predicate Numbered(s: Fs, k: nat) { k in s.files || k in s.dirs }

  ghost predicate InodeBits(s: Fs, ibase: seq<bool>) {
    && |ibase| == |s.ibits| <= MAX_FILES
    && (forall no: nat :: Numbered(s, no) ==> no < |ibase|)
    && forall k: nat :: k < |ibase| ==> (s.ibits[k] <==> ibase[k] || Numbered(s, k)) && !(ibase[k] && Numbered(s, k))
  }

  /** No slot from 256 on carries its number: `inode_sync` never writes there. */
  ghost predicate StaleSlots(d: Disk, table: nat) {
    forall x: nat :: 256 <= x < MAX_FILES ==> !Carries(d, table, x)
  }

  /** `base` and `ibase` are the bits set for other reasons from the start. */
  ghost predicate FsInv(g: Geometry, s: Fs, base: seq<bool>, ibase: seq<bool>) {
    && Fits(g, s.disk, s.bits) && AllOk(g, s) && OneOwner(s) && BlockBits(g.area, s, base) && InodeBits(s, ibase)
    && StaleSlots(s.disk, g.table)
  }

  ghost function ContentOf(g: Geometry, s: Fs, no: nat): seq<Byte>
    requires FileOk(g, s, no)
  {
    Content(g.area, s.disk, s.bits, s.files[no])
  }

  // ---------------------------------------------------------------- what a step of `no` may do

  /** The other files and directories are in place, sectors change only in blocks of `no`, the bits follow what `no`
      owns, and the blocks it gets were free. */
  ghost predicate Effect(g: Geometry, s: Fs, s1: Fs, no: nat) {
    && TableFits(s.disk, g.table) && |s1.disk| == |s.disk| && |s1.bits| == |s.bits|
    && OthersSame(s, s1, no)
    && (forall b: int :: g.area.start < b < |s.disk| && s1.disk[b] != s.disk[b] ==> Owner(s, no, b) || Owner(s1, no, b))
    && BitsFollow(g.area, s, s1, no)
    && (forall b: int :: Owner(s1, no, b) ==> g.area.start < b < g.area.end && b - g.area.start < |s.bits|)
    && SlotsKept(g.table, s.disk, s1.disk, no)
  }

  /** Only the slot of the low byte changes, and for a number from 256 on it then carries that number. */
  predicate SlotsKept(table: nat, d0: Disk, d1: Disk, no: nat) {
    && TableFits(d0, table) && |d1| == |d0|
    && (forall x :: 0 <= x < MAX_FILES && x != no % 256 ==> Slot(d1, table, x) == Slot(d0, table, x))
    && (256 <= no ==> CarriesAt(d1, table, no))
  }

  predicate OthersSame(s: Fs, s1: Fs, no: nat) {
    && (forall x :: x in s.files && x != no ==> x in s1.files && s1.files[x] == s.files[x])
    && (forall x :: x in s1.files && x != no ==> x in s.files)
    && (forall x :: x in s.dirs && x != no ==> x in s1.dirs && s1.dirs[x] == s.dirs[x])
    && (forall x :: x in s1.dirs && x != no ==> x in s.dirs)
  }

  ghost predicate BitsFollow(a: Area, s: Fs, s1: Fs, no: nat) {
    && |s1.bits| == |s.bits|
    && (forall k :: 0 <= k < |s.bits| ==>
          (s1.bits[k] <==> Owner(s1, no, a.start + k) || (s.bits[k] && !Owner(s, no, a.start + k))))
    && (forall k :: 0 <= k < |s.bits| && s.bits[k] && Owner(s1, no, a.start + k) ==> Owner(s, no, a.start + k))
  }

  /** File `x` is the same file before and after. */
  ghost predicate Kept(g: Geometry, s: Fs, s1: Fs, x: nat) {
    && FileOk(g, s, x) && FileOk(g, s1, x) && s1.files[x] == s.files[x]
    && MapOf(s1.disk, s.files[x]) == MapOf(s.disk, s.files[x])
    && ContentOf(g, s1, x) == ContentOf(g, s, x)
  }

  lemma FileOwnerOf(g: Geometry, s: Fs, x: nat)
    requires FileOk(g, s, x)
    ensures WellFormed(s.files[x]) && TableOf(s.files[x]) < |s.disk|
    ensures forall b: int :: FileOwner(s, x, b) <==> Owns(MapOf(s.disk, s.files[x]), TableOf(s.files[x]), b)
  {
    hide MapOf, Owns, GoodMap, Slot, Encode;
  }

  /** A block that is owned is a data sector with its bit set. */
  lemma OwnerBlock(g: Geometry, s: Fs, x: nat, b: int)
    requires AllOk(g, s) && Owner(s, x, b)
    ensures g.area.start < b < g.area.end && b - g.area.start < |s.bits| && s.bits[b - g.area.start]
  {
    hide MapOf, GoodMap, Slot, Encode, Owns;
    if FileOwner(s, x, b) {
      FileOwnerOf(g, s, x);
      OwnedIsBlock(g.area, s.bits, MapOf(s.disk, s.files[x]), TableOf(s.files[x]), BlockCount(s.files[x]), b);
    } else {
      var n :| 0 <= n < |s.dirs[x]| && s.dirs[x][n] == b;
    }
  }

  lemma SlotDecides(d0: Disk, d1: Disk, table: nat, x: nat)
    requires TableFits(d0, table) && |d1| == |d0| && x < MAX_FILES
    ensures Slot(d1, table, x) == Slot(d0, table, x) ==>
      Load(d1, table, x) == Load(d0, table, x) && (Carries(d1, table, x) <==> Carries(d0, table, x))
  {
    hide Slot, ReadSlot, Decode, OfWords;
  }

  /** After a step of `no` the slot of another number is as before, or does not carry that number. */
  lemma OtherSlot(table: nat, d0: Disk, d1: Disk, no: nat, x: nat)
    requires SlotsKept(table, d0, d1, no) && x != no && x < MAX_FILES
    ensures Slot(d1, table, x) == Slot(d0, table, x) || !Carries(d1, table, x)
  {
    hide Slot, Load;
  }

  lemma KeepSlot(g: Geometry, s: Fs, d1: Disk, x: nat)
    requires FileOk(g, s, x) && |d1| == |s.disk|
    requires Slot(d1, g.table, x) == Slot(s.disk, g.table, x) || !Carries(d1, g.table, x)
    ensures Carries(d1, g.table, x) ==> Slot(d1, g.table, x) == Encode(Words(Pure(s.files[x])))
  {
    hide Slot, Encode, Words, Good, Carries;
    SlotDecides(s.disk, d1, g.table, x);
  }

  /** The sectors and bits of a file are as before. */
  ghost predicate Untouched(a: Area, s: Fs, s1: Fs, x: nat) {
    && |s1.disk| == |s.disk| && |s1.bits| == |s.bits|
    && (forall b: int :: 0 <= b < |s.disk| && FileOwner(s, x, b) ==> s1.disk[b] == s.disk[b])
    && (forall k :: 0 <= k < |s.bits| && FileOwner(s, x, a.start + k) ==> s1.bits[k])
  }

  lemma KeepContent(g: Geometry, s: Fs, s1: Fs, x: nat)
    requires FileOk(g, s, x) && Untouched(g.area, s, s1, x)
    ensures var i := s.files[x];
      && Good(g.area, s1.disk, s1.bits, i) && MapOf(s1.disk, i) == MapOf(s.disk, i)
      && Content(g.area, s1.disk, s1.bits, i) == ContentOf(g, s, x)
  {
    hide Slot, Encode, Words, Good, MapOf, Owns, Content, Carries;
    FileOwnerOf(g, s, x);
    SectorsDecide(g.area, s.disk, s.bits, s1.disk, s1.bits, s.files[x]);
  }

  /** What is needed for a file to be kept: its sectors, its bits and its slot. */
  lemma KeepFile(g: Geometry, s: Fs, s1: Fs, x: nat)
    requires FileOk(g, s, x) && x in s1.files && s1.files[x] == s.files[x] && Untouched(g.area, s, s1, x)
    requires Slot(s1.disk, g.table, x) == Slot(s.disk, g.table, x) || !Carries(s1.disk, g.table, x)
    ensures Kept(g, s, s1, x)
  {
    hide Slot, Encode, Words, Good, MapOf, Content, Carries, FileOwner;
    KeepContent(g, s, s1, x);
    KeepSlot(g, s, s1.disk, x);
  }

  /** Nothing that another number owns changes. */
  lemma OwnedUnchanged(g: Geometry, s: Fs, s1: Fs, no: nat, x: nat, b: int)
    requires AllOk(g, s) && OneOwner(s) && Effect(g, s, s1, no) && x != no && Owner(s, x, b)
    ensures b - g.area.start < |s.bits| && g.area.start < b && s1.bits[b - g.area.start] && !Owner(s1, no, b)
    ensures b < |s.disk| ==> s1.disk[b] == s.disk[b]
  {
    hide Owner, AllOk, Slot, OthersSame;
    OwnerBlock(g, s, x, b);
    assert !Owner(s, no, b);
    assert b == g.area.start + (b - g.area.start);
  }

  lemma EffectKeepsFile(g: Geometry, s: Fs, s1: Fs, no: nat, x: nat)
    requires AllOk(g, s) && OneOwner(s) && Effect(g, s, s1, no) && x in s.files && x != no
    ensures Kept(g, s, s1, x)
  {
    hide FileOwner, OneOwner, FileOk, Kept, Slot, BitsFollow, Carries, SlotsKept;
    forall b: int | 0 <= b < |s.disk| && FileOwner(s, x, b) ensures s1.disk[b] == s.disk[b] {
      OwnedUnchanged(g, s, s1, no, x, b);
    }
    forall k | 0 <= k < |s.bits| && FileOwner(s, x, g.area.start + k) ensures s1.bits[k] {
      OwnedUnchanged(g, s, s1, no, x, g.area.start + k);
    }
    Number(g, s, x);
    OtherSlot(g.table, s.disk, s1.disk, no, x);
    KeepFile(g, s, s1, x);
  }

  lemma Number(g: Geometry, s: Fs, x: nat)
    requires FileOk(g, s, x)
    ensures x < MAX_FILES
  {
  }

  lemma KeptOwner(g: Geometry, s: Fs, s1: Fs, x: nat, b: int)
    requires Kept(g, s, s1, x)
    ensures FileOwner(s1, x, b) <==> FileOwner(s, x, b)
  {
    hide Slot, Encode, Content, GoodMap;
  }

  ghost predicate OthersOwn(s: Fs, s1: Fs, no: nat) {
    forall x: nat, b: int :: x != no ==> (Owner(s1, x, b) <==> Owner(s, x, b))
  }

  lemma EffectOthersOwn(g: Geometry, s: Fs, s1: Fs, no: nat)
    requires AllOk(g, s) && OneOwner(s) && Effect(g, s, s1, no)
    ensures OthersOwn(s, s1, no)
  {
    hide FileOwner, AllOk, OneOwner, Kept, Slot, BitsFollow;
    forall x: nat, b: int | x != no ensures Owner(s1, x, b) <==> Owner(s, x, b) {
      if x in s.files {
        EffectKeepsFile(g, s, s1, no, x);
        KeptOwner(g, s, s1, x, b);
      } else {
        NoFileOwner(s, x, b);
        NoFileOwner(s1, x, b);
      }
    }
  }

  lemma NoFileOwner(s: Fs, x: nat, b: int)
    requires x !in s.files
    ensures !FileOwner(s, x, b)
  {
  }

  lemma EffectOneOwner(g: Geometry, s: Fs, s1: Fs, no: nat)
    requires AllOk(g, s) && OneOwner(s) && Effect(g, s, s1, no) && OthersOwn(s, s1, no)
    ensures OneOwner(s1)
  {
    hide Owner, AllOk, Slot, OthersSame, Effect;
    forall x: nat, y: nat, b: int | Owner(s1, x, b) && Owner(s1, y, b) ensures x == y {
      var z := if x == no then y else x;
      if z != no { OwnedUnchanged(g, s, s1, no, z, b); }
    }
  }

  lemma EffectBits(a: Area, s: Fs, s1: Fs, no: nat, base: seq<bool>)
    requires BlockBits(a, s, base) && BitsFollow(a, s, s1, no) && OthersOwn(s, s1, no) && OneOwner(s)
    ensures BlockBits(a, s1, base)
  {
    hide Owner;
    forall b: int ensures Owned(s1, b) <==> Owner(s1, no, b) || (Owned(s, b) && !Owner(s, no, b)) {
      if Owned(s1, b) && !Owner(s1, no, b) {
        var x: nat :| Owner(s1, x, b);
        assert x != no && Owner(s, x, b);
      }
      if Owned(s, b) && !Owner(s, no, b) {
        var x: nat :| Owner(s, x, b);
        assert x != no && Owner(s1, x, b);
      }
    }
    forall k | 0 <= k < |base| && base[k] ensures !Owner(s, no, a.start + k) { assert !Owned(s, a.start + k); }
  }

  lemma EffectFits(g: Geometry, s: Fs, s1: Fs, no: nat)
    requires Fits(g, s.disk, s.bits) && AllOk(g, s) && Effect(g, s, s1, no)
    ensures Fits(g, s1.disk, s1.bits)
  {
    hide Owner, AllOk, Slot, OthersSame;
    forall k | 0 <= k < |s.bits| && (k == 0 || g.area.end <= g.area.start + k) ensures s1.bits[k] {
      if Owner(s, no, g.area.start + k) { OwnerBlock(g, s, no, g.area.start + k); }
    }
  }

  lemma EffectKeepsDir(g: Geometry, s: Fs, s1: Fs, no: nat, x: nat)
    requires AllOk(g, s) && OneOwner(s) && Effect(g, s, s1, no) && x in s.dirs && x != no
    ensures DirOk(g, s1, x) && s1.dirs[x] == s.dirs[x]
    ensures forall b: int :: 0 <= b < |s.disk| && Dirs.Listed(s.dirs[x], b) ==> s1.disk[b] == s.disk[b]
  {
    hide FileOwner, OneOwner, Slot, BitsFollow, FileOk, Carries, SlotsKept, HoldsDir;
    assert DirOk(g, s, x);
    OtherSlot(g.table, s.disk, s1.disk, no, x);
    SlotDecides(s.disk, s1.disk, g.table, x);
    SameHolds(s.disk, s1.disk, g.table, x, s.dirs[x]);
    forall k | 0 <= k < DIRECT && s.dirs[x][k] != 0 ensures IsBlock(g.area, s1.bits, s.dirs[x][k]) {
      assert Dirs.Listed(s.dirs[x], s.dirs[x][k]);
      OwnedUnchanged(g, s, s1, no, x, s.dirs[x][k]);
    }
    forall b: int | 0 <= b < |s.disk| && Dirs.Listed(s.dirs[x], b) ensures s1.disk[b] == s.disk[b] {
      OwnedUnchanged(g, s, s1, no, x, b);
    }
  }

  lemma SameHolds(d0: Disk, d1: Disk, table: nat, x: nat, sectors: seq<Word>)
    requires TableFits(d0, table) && |d1| == |d0| && x < MAX_FILES
    ensures Load(d1, table, x) == Load(d0, table, x) && HoldsDir(d0, table, x, x, sectors) ==>
      HoldsDir(d1, table, x, x, sectors)
  {
    hide Load;
  }

  lemma KeepsStale(table: nat, d0: Disk, d1: Disk, no: nat)
    requires StaleSlots(d0, table) && SlotsKept(table, d0, d1, no)
    ensures StaleSlots(d1, table)
  {
    hide Slot, Load, Carries;
    forall x: nat | 256 <= x < MAX_FILES ensures !Carries(d1, table, x) { SlotDecides(d0, d1, table, x); }
  }

  /** What a step leaves alone: every other file, and the blocks of every other directory. */
  ghost predicate OthersKept(g: Geometry, s: Fs, s1: Fs, no: nat) {
    && OthersSame(s, s1, no) && SlotsKept(g.table, s.disk, s1.disk, no)
    && (forall x :: x in s.files && x != no ==> Kept(g, s, s1, x))
    && (forall x, b: int :: x in s.dirs && x != no && 0 <= b < |s.disk| && Dirs.Listed(s.dirs[x], b) ==>
      s1.disk[b] == s.disk[b])
  }

  /** From an effect and the soundness of `no` itself to the invariant. */
  lemma EffectKeeps(g: Geometry, s: Fs, s1: Fs, no: nat, base: seq<bool>, ibase: seq<bool>)
    requires FsInv(g, s, base, ibase) && Effect(g, s, s1, no) && InodeBits(s1, ibase)
    requires no in s1.files ==> FileOk(g, s1, no) && no !in s1.dirs
    requires no in s1.dirs ==> DirOk(g, s1, no)
    ensures FsInv(g, s1, base, ibase) && OthersKept(g, s, s1, no)
  {
    hide FileOk, DirOk, BlockBits, Owner, OneOwner, Fits, OthersOwn, InodeBits, Kept, BitsFollow, Slot, SlotsKept;
    hide StaleSlots;
    KeepsStale(g.table, s.disk, s1.disk, no);
    forall x | x in s.files && x != no ensures Kept(g, s, s1, x) && FileOk(g, s1, x) {
      EffectKeepsFile(g, s, s1, no, x);
      KeptOk(g, s, s1, x);
    }
    forall x | x in s.dirs && x != no
      ensures DirOk(g, s1, x)
      ensures forall b: int :: 0 <= b < |s.disk| && Dirs.Listed(s.dirs[x], b) ==> s1.disk[b] == s.disk[b]
    {
      EffectKeepsDir(g, s, s1, no, x);
    }
    EffectOthersOwn(g, s, s1, no);
    EffectOneOwner(g, s, s1, no);
    EffectBits(g.area, s, s1, no, base);
    EffectFits(g, s, s1, no);
  }

  lemma KeptOk(g: Geometry, s: Fs, s1: Fs, x: nat)
    requires Kept(g, s, s1, x)
    ensures FileOk(g, s1, x)
  {
  }

  // ---------------------------------------------------------------- files

  /** What a write leaves of the sectors, bits and slots that are not the file's. */
  lemma WroteParts(g: Geometry, d0: Disk, b0: seq<bool>, i0: Inode, buf: seq<Byte>, d1: Disk, b1: seq<bool>, i1: Inode,
      b: int, x: nat)
    requires Fits(g, d0, b0) && Good(g.area, d0, b0, i0) && Wrote(g, d0, b0, i0, buf, d1, b1, i1)
    ensures |d1| == |d0| && |b1| == |b0| && WellFormed(i1) && TableOf(i1) < |d1|
    ensures Owns(MapOf(d0, i0), TableOf(i0), b) ==> Owns(MapOf(d1, i1), TableOf(i1), b)
    ensures 0 <= b - g.area.start < |b0| ==>
      && (b1[b - g.area.start] <==> b0[b - g.area.start] || Owns(MapOf(d1, i1), TableOf(i1), b))
      && (b0[b - g.area.start] && Owns(MapOf(d1, i1), TableOf(i1), b) ==> Owns(MapOf(d0, i0), TableOf(i0), b))
    ensures g.area.start <= b < |d0| && !Owns(MapOf(d1, i1), TableOf(i1), b) ==> d1[b] == d0[b]
    ensures x < MAX_FILES && x != i0.no % 256 ==> Slot(d1, g.table, x) == Slot(d0, g.table, x)
  {
    hide GoodMap, MapOf, Content, AreaOk, Slot, Encode, Words, Owns;
    var m0, t0, m1, t1 := MapOf(d0, i0), TableOf(i0), MapOf(d1, i1), TableOf(i1);
    assert Took(g.area, b0, b1, m0, t0, m1, t1) && OnlyOwn(g, d0, d1, m1, t1);
    if 0 <= b - g.area.start < |b0| { assert b == g.area.start + (b - g.area.start); }
  }

  lemma WrittenOk(g: Geometry, s: Fs, no: nat, buf: seq<Byte>, s1: Fs)
    requires Fits(g, s.disk, s.bits) && FileOk(g, s, no) && WriteStep(g, s, no, buf, s1)
    requires StaleSlots(s.disk, g.table)
    ensures FileOk(g, s1, no)
    ensures ContentOf(g, s1, no) == ContentOf(g, s, no) + buf
  {
    hide GoodMap, MapOf, Content, AreaOk, Slot, Encode, Words, Took, Load, Carries;
    SlotDecides(s.disk, s1.disk, g.table, no);
  }

  /** For a number that is a file and not a directory, the owner of a block is the file. */
  lemma OnlyFile(g: Geometry, s: Fs, no: nat)
    requires FileOk(g, s, no) && no !in s.dirs
    ensures WellFormed(s.files[no]) && TableOf(s.files[no]) < |s.disk|
    ensures forall b: int :: Owner(s, no, b) <==> Owns(MapOf(s.disk, s.files[no]), TableOf(s.files[no]), b)
  {
    hide MapOf, Owns, FileOk;
    FileOwnerOf(g, s, no);
  }

  lemma UpdateSame(s: Fs, s1: Fs, no: nat)
    requires no in s1.files && s1.files == s.files[no := s1.files[no]] && s1.dirs == s.dirs
    ensures OthersSame(s, s1, no)
  {
  }

  /** The slot that a write brings up to date. */
  lemma WrittenSlot(g: Geometry, s: Fs, no: nat, buf: seq<Byte>, s1: Fs)
    requires Fits(g, s.disk, s.bits) && FileOk(g, s, no) && WriteStep(g, s, no, buf, s1)
    ensures TableFits(s1.disk, g.table) && Slot(s1.disk, g.table, no % 256) == Encode(Words(Pure(s1.files[no])))
    ensures Load(s1.disk, g.table, no % 256) == Ok(Pure(s1.files[no]).(opens := 1))
    ensures CarriesAt(s1.disk, g.table, no)
  {
    hide GoodMap, MapOf, Content, AreaOk, Slot, Encode, Words, Took, Load, Carries;
    LoadOfSlot(s1.disk, g.table, no % 256, Pure(s1.files[no]));
  }

  lemma WriteEffect(g: Geometry, s: Fs, no: nat, buf: seq<Byte>, s1: Fs)
    requires Fits(g, s.disk, s.bits) && FileOk(g, s, no) && FileOk(g, s1, no) && no !in s.dirs
    requires WriteStep(g, s, no, buf, s1)
    ensures Effect(g, s, s1, no)
  {
    hide Wrote, Good, MapOf, Owns, Slot, Encode, Words, AreaOk, Owner, OthersSame, Load, Carries, CarriesAt;
    assert OthersSame(s, s1, no) by { UpdateSame(s, s1, no); }
    var i0, i1, start := s.files[no], s1.files[no], g.area.start;
    OnlyFile(g, s, no);
    OnlyFile(g, s1, no);
    WroteParts(g, s.disk, s.bits, i0, buf, s1.disk, s1.bits, i1, 0, 0);
    forall b: int | g.area.start < b < |s.disk| && s1.disk[b] != s.disk[b] ensures Owner(s, no, b) || Owner(s1, no, b) {
      WroteParts(g, s.disk, s.bits, i0, buf, s1.disk, s1.bits, i1, b, 0);
    }
    forall k | 0 <= k < |s.bits|
      ensures s1.bits[k] <==> Owner(s1, no, start + k) || (s.bits[k] && !Owner(s, no, start + k))
    {
      WroteParts(g, s.disk, s.bits, i0, buf, s1.disk, s1.bits, i1, start + k, 0);
    }
    forall k | 0 <= k < |s.bits| && s.bits[k] && Owner(s1, no, start + k) ensures Owner(s, no, start + k) {
      WroteParts(g, s.disk, s.bits, i0, buf, s1.disk, s1.bits, i1, start + k, 0);
    }
    forall b: int | Owner(s1, no, b) ensures start < b < g.area.end && b - start < |s.bits| {
      FileBlock(g, s1, no, b);
    }
    forall x | 0 <= x < MAX_FILES && x != no % 256 ensures Slot(s1.disk, g.table, x) == Slot(s.disk, g.table, x) {
      WroteParts(g, s.disk, s.bits, i0, buf, s1.disk, s1.bits, i1, 0, x);
    }
    WrittenSlot(g, s, no, buf, s1);
  }

  lemma FileBlock(g: Geometry, s: Fs, no: nat, b: int)
    requires FileOk(g, s, no) && Owns(MapOf(s.disk, s.files[no]), TableOf(s.files[no]), b)
    ensures g.area.start < b < g.area.end && b - g.area.start < |s.bits|
  {
    hide MapOf, GoodMap, Slot, Encode, Owns;
    OwnedIsBlock(g.area, s.bits, MapOf(s.disk, s.files[no]), TableOf(s.files[no]), BlockCount(s.files[no]), b);
  }

  /** A write keeps the invariant, appends to its own file, and leaves everything else as it was. */
  lemma WriteKeeps(g: Geometry, s: Fs, no: nat, buf: seq<Byte>, s1: Fs, base: seq<bool>, ibase: seq<bool>)
    requires FsInv(g, s, base, ibase) && WriteStep(g, s, no, buf, s1)
    ensures FsInv(g, s1, base, ibase) && OthersKept(g, s, s1, no)
    ensures FileOk(g, s, no) && FileOk(g, s1, no) && CarriesAt(s1.disk, g.table, no)
    ensures ContentOf(g, s1, no) == ContentOf(g, s, no) + buf
  {
    hide FileOk, DirOk, BlockBits, Wrote, OneOwner, Good, Fits, Effect, ContentOf, OthersKept, StaleSlots;
    hide Load, Carries;
    WrittenOk(g, s, no, buf, s1);
    WrittenSlot(g, s, no, buf, s1);
    WriteEffect(g, s, no, buf, s1);
    assert InodeBits(s1, ibase) by { SameNumbers(s, s1, ibase); }
    EffectKeeps(g, s, s1, no, base, ibase);
  }

  lemma SameNumbers(s: Fs, s1: Fs, ibase: seq<bool>)
    requires InodeBits(s, ibase) && s1.ibits == s.ibits && forall k: nat :: Numbered(s1, k) == Numbered(s, k)
    ensures InodeBits(s1, ibase)
  {
    hide Numbered;
  }

  lemma NewOwnsNothing(d: Disk, no: nat, b: int)
    requires 0 < |d|
    ensures MapOf(d, NewInode(no)) == Zeros(MAP_LEN) && !Owns(MapOf(d, NewInode(no)), 0, b)
  {
    assert MapOf(d, NewInode(no)) == Zeros(MAP_LEN);
  }

  lemma NewIsGood(a: Area, d: Disk, bits: seq<bool>, no: nat)
    requires 0 < |d| && a.end <= |d|
    ensures Good(a, d, bits, NewInode(no)) && Content(a, d, bits, NewInode(no)) == []
  {
    NewOwnsNothing(d, no, 0);
    hide MapOf;
  }

  lemma CreatedOk(g: Geometry, s: Fs, no: nat, s1: Fs)
    requires CreateStep(g, s, no, s1) && Fits(g, s.disk, s.bits) && no < MAX_FILES
    requires StaleSlots(s.disk, g.table)
    ensures FileOk(g, s1, no) && ContentOf(g, s1, no) == [] && CarriesAt(s1.disk, g.table, no)
    ensures forall b: int :: !FileOwner(s1, no, b)
    ensures |s1.disk| == |s.disk| && forall b :: g.area.start <= b < |s.disk| ==> s1.disk[b] == s.disk[b]
    ensures forall x :: 0 <= x < MAX_FILES && x != no % 256 ==> Slot(s1.disk, g.table, x) == Slot(s.disk, g.table, x)
  {
    hide Slot, Sync, Encode, Words, MapOf, Good, Content, FirstRun, AreaOk, Load, Carries;
    var i := NewInode(no);
    SyncChangesOneSlot(s.disk, g.table, i, no % 256);
    LoadOfSlot(s1.disk, g.table, no % 256, i);
    SyncChangesOneSlot(s.disk, g.table, i, no);
    SlotDecides(s.disk, s1.disk, g.table, no);
    NewIsGood(g.area, s1.disk, s1.bits, no);
    assert Pure(i) == i;
    forall b: int ensures !FileOwner(s1, no, b) { NewOwnsNothing(s1.disk, no, b); }
    forall x | 0 <= x < MAX_FILES && x != no % 256 ensures Slot(s1.disk, g.table, x) == Slot(s.disk, g.table, x) {
      SyncChangesOneSlot(s.disk, g.table, i, x);
    }
  }

  /** The number is new: its bit was clear. */
  lemma FreshNumber(s: Fs, no: nat, s1: Fs, ibase: seq<bool>)
    requires no == FirstRun(s.ibits, 0, |s.ibits|, 1) && s1.ibits == s.ibits[no := true] && InodeBits(s, ibase)
    requires forall k: nat :: Numbered(s1, k) <==> Numbered(s, k) || k == no
    ensures no < MAX_FILES && !Numbered(s, no) && InodeBits(s1, ibase)
  {
    hide Numbered;
    assert ClearRun(s.ibits, no, 1) && !s.ibits[no];
  }

  lemma CreateKeeps(g: Geometry, s: Fs, no: nat, s1: Fs, base: seq<bool>, ibase: seq<bool>)
    requires FsInv(g, s, base, ibase) && CreateStep(g, s, no, s1)
    ensures FsInv(g, s1, base, ibase) && OthersKept(g, s, s1, no)
    ensures no !in s.files && FileOk(g, s1, no) && ContentOf(g, s1, no) == [] && CarriesAt(s1.disk, g.table, no)
  {
    hide FileOk, DirOk, BlockBits, OneOwner, Effect, ContentOf;
    hide Sync, InodeBits, FirstRun, OthersKept, FileOwner, Slot, AreaOk, StaleSlots, Load, Carries, CarriesAt;
    FreshNumber(s, no, s1, ibase);
    CreatedOk(g, s, no, s1);
    forall b: int ensures !Owner(s, no, b) && !Owner(s1, no, b) { NoFileOwner(s, no, b); }
    NothingOwned(g, s, s1, no);
    EffectKeeps(g, s, s1, no, base, ibase);
  }

  lemma NothingOwned(g: Geometry, s: Fs, s1: Fs, no: nat)
    requires TableFits(s.disk, g.table) && OthersSame(s, s1, no) && s1.bits == s.bits && |s1.disk| == |s.disk|
    requires forall b :: g.area.start <= b < |s.disk| ==> s1.disk[b] == s.disk[b]
    requires forall b: int :: !Owner(s, no, b) && !Owner(s1, no, b)
    requires SlotsKept(g.table, s.disk, s1.disk, no)
    ensures Effect(g, s, s1, no)
  {
    hide Owner, Slot, SlotsKept;
  }

  /** Clearing a slot changes no data sector and no other slot. */
  lemma DeleteFrame(g: Geometry, d: Disk, no: nat)
    requires TableFits(d, g.table) && no < MAX_FILES && g.table + TABLE_SECTS <= g.area.start
    ensures var d1 := Delete(d, g.table, no).value;
      && |d1| == |d| && (forall b :: g.area.start <= b < |d| ==> d1[b] == d[b])
      && (forall x :: 0 <= x < MAX_FILES && x != no ==> Slot(d1, g.table, x) == Slot(d, g.table, x))
  {
    hide Slot, Patch;
    SlotsAfterPatch(d, g.table, no, seq<Byte>(INODE_SIZE, _ => 0));
  }

  /** After a release the number owns nothing and its blocks are free. */
  lemma ReleasedEffect(g: Geometry, s: Fs, s1: Fs, no: nat)
    requires TableFits(s.disk, g.table) && OthersSame(s, s1, no) && !Numbered(s1, no) && no < MAX_FILES
    requires g.table + TABLE_SECTS <= g.area.start && s1.disk == Delete(s.disk, g.table, no).value
    requires |s1.bits| == |s.bits| && StaleSlots(s.disk, g.table) && Carries(s.disk, g.table, no)
    requires forall k :: 0 <= k < |s.bits| ==> (s1.bits[k] <==> s.bits[k] && !Owner(s, no, g.area.start + k))
    ensures Effect(g, s, s1, no)
  {
    hide Slot, Patch, Owner, Delete, Carries;
    DeleteFrame(g, s.disk, no);
    NotNumbered(s1, no);
  }

  lemma NotNumbered(s: Fs, no: nat)
    requires !Numbered(s, no)
    ensures forall b: int :: !Owner(s, no, b)
  {
  }

  lemma LessNumber(s: Fs, no: nat, s1: Fs, ibase: seq<bool>)
    requires InodeBits(s, ibase) && Numbered(s, no) && no < |s.ibits| && s1.ibits == s.ibits[no := false]
    requires forall k: nat :: Numbered(s1, k) <==> Numbered(s, k) && k != no
    ensures InodeBits(s1, ibase)
  {
    hide Numbered;
  }

  /** The inode of a file that a slot with its number holds has the same size and blocks. */
  lemma CarriedFile(g: Geometry, s: Fs, no: nat)
    requires FileOk(g, s, no) && Carries(s.disk, g.table, no)
    ensures var i := Load(s.disk, g.table, no).value;
      && Good(g.area, s.disk, s.bits, i) && MapOf(s.disk, i) == MapOf(s.disk, s.files[no])
      && TableOf(i) == TableOf(s.files[no]) && Content(g.area, s.disk, s.bits, i) == ContentOf(g, s, no)
  {
    hide Slot, Encode, Words, Good, MapOf, Content, Load;
    var i := s.files[no];
    FileOwnerOf(g, s, no);
    LoadOfSlot(s.disk, g.table, no, Pure(i));
    SameMap(s.disk, i, Pure(i).(opens := 1));
    SameFile(g.area, s.disk, s.bits, i, Pure(i).(opens := 1));
  }

  lemma ReleaseKeeps(g: Geometry, s: Fs, no: nat, s1: Fs, base: seq<bool>, ibase: seq<bool>)
    requires FsInv(g, s, base, ibase) && ReleaseStep(g, s, no, s1)
    ensures FsInv(g, s1, base, ibase) && OthersKept(g, s, s1, no)
  {
    hide DirOk, BlockBits, Owner, OneOwner, MapOf, Owns, Good, StaleSlots, Load, Carries, FileOk;
    hide Slot, Encode, Delete, Effect, AreaOk, OthersKept, InodeBits;
    assert FileOk(g, s, no);
    CarriedFile(g, s, no);
    NumberBound(s, no, ibase);
    OnlyFile(g, s, no);
    LessNumber(s, no, s1, ibase);
    ReleasedEffect(g, s, s1, no);
    EffectKeeps(g, s, s1, no, base, ibase);
  }

  lemma NumberBound(s: Fs, no: nat, ibase: seq<bool>)
    requires InodeBits(s, ibase) && Numbered(s, no)
    ensures no < |s.ibits| <= MAX_FILES
  {
  }

  // ---------------------------------------------------------------- directories

  lemma OnlyDir(s: Fs, no: nat)
    requires no in s.dirs && no !in s.files
    ensures forall b: int :: Owner(s, no, b) <==> Dirs.Listed(s.dirs[no], b)
  {
  }

  /** The blocks of a directory in terms of the list of its addresses. */
  lemma DirEffect(g: Geometry, s: Fs, s1: Fs, no: nat, a: seq<Word>)
    requires Fits(g, s.disk, s.bits) && OthersSame(s, s1, no) && no !in s1.files && no in s1.dirs
    requires |s1.bits| == |s.bits|
    requires DirDisk(g, s.disk, s1.disk, no, a, s1.dirs[no])
    requires forall b: int :: Owner(s, no, b) <==> Dirs.Listed(a, b)
    requires DirFine(g.area, s1.bits, s1.dirs[no])
    requires forall k :: 0 <= k < |s.bits| ==>
      (s1.bits[k] <==> Dirs.Listed(s1.dirs[no], g.area.start + k) || (s.bits[k] && !Dirs.Listed(a, g.area.start + k)))
    requires forall k :: 0 <= k < |s.bits| && s.bits[k] && Dirs.Listed(s1.dirs[no], g.area.start + k) ==>
      Dirs.Listed(a, g.area.start + k)
    ensures Effect(g, s, s1, no)
  {
    hide Slot, Owner, AreaOk, OthersSame, Dirs.Listed, DirFine, HoldsDir, Load, SlotsKept;
    OnlyDir(s1, no);
    ListedInArea(g.area, s1.bits, s1.dirs[no]);
    assert BitsFollow(g.area, s, s1, no);
    DirSlots(g, s.disk, s1.disk, no, a, s1.dirs[no]);
  }

  lemma DirSlots(g: Geometry, d0: Disk, d1: Disk, no: nat, a: seq<Word>, b: seq<Word>)
    requires DirDisk(g, d0, d1, no, a, b)
    ensures SlotsKept(g.table, d0, d1, no)
  {
    hide Slot, Dirs.Listed, Load, HoldsDir;
  }

  /** The slot of a directory after the routine that writes it. */
  lemma WrittenDir(g: Geometry, d0: Disk, d1: Disk, no: nat, a: seq<Word>, b: seq<Word>)
    requires DirDisk(g, d0, d1, no, a, b) && StaleSlots(d0, g.table) && no < MAX_FILES
    ensures Carries(d1, g.table, no) ==> HoldsDir(d1, g.table, no, no, b)
  {
    hide Slot, Dirs.Listed, HoldsDir, Carries, Load;
    SlotDecides(d0, d1, g.table, no);
  }

  lemma ListedInArea(a: Area, bits: seq<bool>, sectors: seq<Word>)
    requires DirFine(a, bits, sectors)
    ensures forall b: int :: Dirs.Listed(sectors, b) ==> a.start < b < a.end && b - a.start < |bits|
  {
    hide Dirs.Distinct;
    forall b: int | Dirs.Listed(sectors, b) ensures a.start < b < a.end && b - a.start < |bits| {
      var n :| 0 <= n < |sectors| && sectors[n] == b;
    }
  }

  /** Taking or giving back a block, in terms of the list. */
  lemma ChangedBits(a: Area, b0: seq<bool>, b1: seq<bool>, before: seq<Word>, after: seq<Word>, change: Change)
    requires DirFine(a, b0, before) && Changed(a, b0, b1, before, after, change)
    ensures |b1| == |b0| && DirFine(a, b1, after)
    ensures forall k :: 0 <= k < |b0| ==>
      (b1[k] <==> Dirs.Listed(after, a.start + k) || (b0[k] && !Dirs.Listed(before, a.start + k)))
    ensures forall k :: 0 <= k < |b0| && b0[k] && Dirs.Listed(after, a.start + k) ==> Dirs.Listed(before, a.start + k)
  {
    ListedSet(a, b0, before);
    hide Dirs.Listed, FirstRun;
    match change
    case Stay =>
    case Take(n) =>
      forall b: int ensures Dirs.Listed(after, b) <==> Dirs.Listed(before, b) || b == after[n] {
        Dirs.ListMore(before, n, after[n], b);
      }
      assert forall j :: 0 <= j < DIRECT && j != n ==> after[j] == before[j];
    case Give(n) =>
      forall b: int ensures Dirs.Listed(after, b) <==> Dirs.Listed(before, b) && b != before[n] {
        Dirs.ListLess(before, n, b);
      }
      assert forall j :: 0 <= j < DIRECT && j != n ==> after[j] == before[j];
  }

  lemma ListedSet(a: Area, bits: seq<bool>, sectors: seq<Word>)
    requires DirFine(a, bits, sectors)
    ensures forall k :: 0 <= k < |bits| && Dirs.Listed(sectors, a.start + k) ==> bits[k]
  {
    hide Dirs.Distinct;
  }

  lemma ChangeDirKeeps(g: Geometry, s: Fs, no: nat, change: Change, s1: Fs, base: seq<bool>, ibase: seq<bool>)
    requires FsInv(g, s, base, ibase) && ChangeDirStep(g, s, no, change, s1)
    ensures FsInv(g, s1, base, ibase) && OthersKept(g, s, s1, no)
  {
    hide FileOk, BlockBits, OneOwner, DirFine, Slot, Effect;
    hide Changed, DirDisk, Dirs.Listed, Owner, OthersKept, InodeBits, AreaOk, StaleSlots, HoldsDir, Carries;
    assert DirOk(g, s, no);
    WrittenDir(g, s.disk, s1.disk, no, s.dirs[no], s1.dirs[no]);
    ChangedBits(g.area, s.bits, s1.bits, s.dirs[no], s1.dirs[no], change);
    OnlyDir(s, no);
    DirEffect(g, s, s1, no, s.dirs[no]);
    assert InodeBits(s1, ibase) by { SameNumbers(s, s1, ibase); }
    EffectKeeps(g, s, s1, no, base, ibase);
  }

  lemma NoneListed(b: int)
    ensures !Dirs.Listed(Zeros(DIRECT), b)
  {
  }

  lemma MakeDirKeeps(g: Geometry, s: Fs, no: nat, s1: Fs, base: seq<bool>, ibase: seq<bool>)
    requires FsInv(g, s, base, ibase) && MakeDirStep(g, s, no, s1)
    ensures FsInv(g, s1, base, ibase) && OthersKept(g, s, s1, no)
  {
    hide FileOk, BlockBits, OneOwner, DirFine, Slot, Effect, DirDisk, Dirs.Listed, Owner, OthersKept, InodeBits, AreaOk;
    hide FirstRun, Alloced, Zeros, StaleSlots, HoldsDir, Carries;
    FreshNumber(s, no, s1, ibase);
    WrittenDir(g, s.disk, s1.disk, no, Zeros(DIRECT), s1.dirs[no]);
    NotNumbered(s, no);
    forall b: int ensures !Dirs.Listed(Zeros(DIRECT), b) { NoneListed(b); }
    NewDir(g.area, s.bits, s1.bits, s1.dirs[no]);
    DirEffect(g, s, s1, no, Zeros(DIRECT));
    EffectKeeps(g, s, s1, no, base, ibase);
  }

  lemma NewDir(a: Area, b0: seq<bool>, b1: seq<bool>, sectors: seq<Word>)
    requires |sectors| == DIRECT && sectors == Zeros(DIRECT)[0 := sectors[0]] && Alloced(a, b0, b1, sectors[0])
    ensures |b1| == |b0| && DirFine(a, b1, sectors)
    ensures forall k :: 0 <= k < |b0| ==>
      (b1[k] <==> Dirs.Listed(sectors, a.start + k) || (b0[k] && !Dirs.Listed(Zeros(DIRECT), a.start + k)))
    ensures forall k :: 0 <= k < |b0| && b0[k] && Dirs.Listed(sectors, a.start + k) ==>
      Dirs.Listed(Zeros(DIRECT), a.start + k)
  {
    assert DirFine(a, b0, Zeros(DIRECT));
    assert Changed(a, b0, b1, Zeros(DIRECT), sectors, Take(0));
    ChangedBits(a, b0, b1, Zeros(DIRECT), sectors, Take(0));
  }

  lemma CarriedDir(g: Geometry, s: Fs, no: nat)
    requires DirOk(g, s, no) && Carries(s.disk, g.table, no) && no != 0
    ensures var m := Load(s.disk, g.table, no).value.sectors; |m| == 13 && m[..DIRECT] == s.dirs[no] && m[DIRECT] == 0
  {
    hide Load, Dirs.Distinct;
  }

  lemma RemoveDirKeeps(g: Geometry, s: Fs, no: nat, s1: Fs, base: seq<bool>, ibase: seq<bool>)
    requires FsInv(g, s, base, ibase) && RemoveDirStep(g, s, no, s1)
    ensures FsInv(g, s1, base, ibase) && OthersKept(g, s, s1, no)
  {
    hide FileOk, BlockBits, Owner, OneOwner, Slot, Delete, StaleSlots, Load, Carries;
    hide Effect, AreaOk, OthersKept, InodeBits, Owns, Dirs.Listed, DirFine;
    assert DirOk(g, s, no);
    NumberBound(s, no, ibase);
    CarriedDir(g, s, no);
    OnlyDir(s, no);
    forall b: int ensures Owns(s.dirs[no], 0, b) <==> Dirs.Listed(s.dirs[no], b) { OwnsIsListed(s.dirs[no], b); }
    LessNumber(s, no, s1, ibase);
    ReleasedEffect(g, s, s1, no);
    EffectKeeps(g, s, s1, no, base, ibase);
  }

  lemma OwnsIsListed(m: seq<Word>, b: int)
    ensures Owns(m, 0, b) <==> Dirs.Listed(m, b)
  {
  }

  // ---------------------------------------------------------------- runs

  /** The bytes a file should hold after `ops`: what was written to it since it was created. */
  function Log(ops: seq<Op>, no: nat): seq<Byte> {
    if ops == [] then []
    else
      var before, op := Log(ops[..|ops| - 1], no), ops[|ops| - 1];
      if op.no != no then before
      else match op
        case Write(_, buf) => before + buf
        case _ => []
  }

  /** The number whose inode was last written to slot `k`. */
  function Last(ops: seq<Op>, k: nat): nat {
    if ops == [] then k
    else
      var no := ops[|ops| - 1].no;
      if no % 256 == k then no else Last(ops[..|ops| - 1], k)
  }

  ghost predicate IsRun(g: Geometry, ss: seq<Fs>, ops: seq<Op>) {
    |ss| == |ops| + 1 && forall k :: 0 <= k < |ops| ==> Step(g, ss[k], ops[k], ss[k + 1])
  }

  /** Every file has the bytes of the log, and its slot carries its number until another number with the same low byte
      is written there. */
  ghost predicate Holds(g: Geometry, s: Fs, ops: seq<Op>) {
    forall no :: no in s.files ==> HoldsFile(g, s, ops, no) && HoldsNumber(s.disk, g.table, ops, no)
  }

  /** The slot of a file after a step of another number. */
  lemma SlotHolds(table: nat, d0: Disk, d1: Disk, ops: seq<Op>, op: Op, x: nat)
    requires SlotsKept(table, d0, d1, op.no) && x != op.no && HoldsNumber(d0, table, ops, x)
    ensures HoldsNumber(d1, table, ops + [op], x)
  {
    hide Slot, Load;
    assert (ops + [op])[..|ops|] == ops;
    if x < 256 { SlotDecides(d0, d1, table, x); }
  }

  predicate HoldsNumber(d: Disk, table: nat, ops: seq<Op>, no: nat) {
    no < 256 ==> (Carries(d, table, no) <==> Last(ops, no) == no)
  }

  ghost predicate HoldsFile(g: Geometry, s: Fs, ops: seq<Op>, no: nat) {
    FileOk(g, s, no) && ContentOf(g, s, no) == Log(ops, no)
  }

  lemma KeptHolds(g: Geometry, s: Fs, s1: Fs, ops: seq<Op>, op: Op)
    requires Holds(g, s, ops) && OthersKept(g, s, s1, op.no)
    requires op.no in s1.files ==> HoldsFile(g, s1, ops + [op], op.no) && CarriesAt(s1.disk, g.table, op.no)
    ensures Holds(g, s1, ops + [op])
  {
    hide HoldsFile, HoldsNumber, Kept, SlotsKept, CarriesAt;
    forall x | x in s1.files ensures HoldsFile(g, s1, ops + [op], x) && HoldsNumber(s1.disk, g.table, ops + [op], x) {
      if x == op.no {
        OwnHolds(g, s1, ops, op);
      } else {
        KeptFile(g, s, s1, ops, op, x);
        SlotHolds(g.table, s.disk, s1.disk, ops, op, x);
      }
    }
  }

  lemma OwnHolds(g: Geometry, s1: Fs, ops: seq<Op>, op: Op)
    requires CarriesAt(s1.disk, g.table, op.no)
    ensures HoldsNumber(s1.disk, g.table, ops + [op], op.no)
  {
    hide Load;
  }

  lemma KeptFile(g: Geometry, s: Fs, s1: Fs, ops: seq<Op>, op: Op, x: nat)
    requires HoldsFile(g, s, ops, x) && Kept(g, s, s1, x) && x != op.no
    ensures HoldsFile(g, s1, ops + [op], x)
  {
    hide FileOk, ContentOf;
    assert (ops + [op])[..|ops|] == ops;
  }

  lemma StepKeeps(g: Geometry, s: Fs, ops: seq<Op>, op: Op, s1: Fs, base: seq<bool>, ibase: seq<bool>)
    requires FsInv(g, s, base, ibase) && Holds(g, s, ops) && Step(g, s, op, s1)
    ensures FsInv(g, s1, base, ibase) && Holds(g, s1, ops + [op]) && OthersKept(g, s, s1, op.no)
  {
    hide FsInv, ContentOf, FileOk, CreateStep, WriteStep;
    hide ReleaseStep, MakeDirStep, ChangeDirStep, RemoveDirStep, OthersKept;
    assert (ops + [op])[..|ops|] == ops;
    StepFiles(g, s, op, s1, base, ibase);
    match op {
      case Create(no) => CreateKeeps(g, s, no, s1, base, ibase);
      case Write(no, buf) => WriteKeeps(g, s, no, buf, s1, base, ibase);
      case Release(no) => ReleaseKeeps(g, s, no, s1, base, ibase);
      case MakeDir(no) => MakeDirKeeps(g, s, no, s1, base, ibase);
      case ChangeDir(no, change) => ChangeDirKeeps(g, s, no, change, s1, base, ibase);
      case RemoveDir(no) => RemoveDirKeeps(g, s, no, s1, base, ibase);
    }
    KeptHolds(g, s, s1, ops, op);
  }

  /** Which number is a file after a step. */
  lemma StepFiles(g: Geometry, s: Fs, op: Op, s1: Fs, base: seq<bool>, ibase: seq<bool>)
    requires FsInv(g, s, base, ibase) && Step(g, s, op, s1)
    ensures op.Write? ==> op.no in s.files
    ensures op.Release? || op.MakeDir? || op.ChangeDir? || op.RemoveDir? ==> op.no !in s1.files
  {
    hide FileOk, BlockBits, OneOwner, Wrote, Released, DirDisk, DirFine, Fits, Good, Sync, FirstRun, InodeBits;
    if op.MakeDir? { FreshNumber(s, op.no, s1, ibase); }
  }

  /** Files refine byte sequences that only grow: in every state of every run the invariant holds and each file
      contains exactly what was written to it, whatever was done to the other files and to the directories. */
  lemma {:induction false} RunKeeps(g: Geometry, ss: seq<Fs>, ops: seq<Op>, base: seq<bool>, ibase: seq<bool>)
    requires IsRun(g, ss, ops) && FsInv(g, ss[0], base, ibase) && ss[0].files == map[]
    ensures FsInv(g, ss[|ops|], base, ibase) && Holds(g, ss[|ops|], ops)
  {
    hide FsInv, Step, OthersKept;
    if ops != [] {
      var n := |ops| - 1;
      RunKeeps(g, ss[..n + 1], ops[..n], base, ibase);
      StepKeeps(g, ss[n], ops[..n], ops[n], ss[n + 1], base, ibase);
      assert ops[..n] + [ops[n]] == ops;
    }
  }

  /** Conservation: once every file of the run is released and the directories have the blocks they had at the start,
      both bitmaps are what they were. */
  lemma BitmapsRestored(g: Geometry, ss: seq<Fs>, ops: seq<Op>, base: seq<bool>, ibase: seq<bool>)
    requires IsRun(g, ss, ops) && FsInv(g, ss[0], base, ibase)
    requires ss[0].files == map[] && ss[|ops|].files == map[] && ss[|ops|].dirs == ss[0].dirs
    ensures ss[|ops|].bits == ss[0].bits && ss[|ops|].ibits == ss[0].ibits
  {
    hide Step, Fits, AllOk, OneOwner;
    var s, z := ss[0], ss[|ops|];
    RunKeeps(g, ss, ops, base, ibase);
    SameOwned(s, z);
  }

  lemma SameOwned(s: Fs, z: Fs)
    requires s.files == map[] && z.files == map[] && z.dirs == s.dirs
    ensures forall b: int :: Owned(s, b) <==> Owned(z, b)
    ensures forall k: nat :: Numbered(s, k) == Numbered(z, k)
  {
    hide Dirs.Listed;
    forall b: int ensures Owned(s, b) <==> Owned(z, b) {
      forall x: nat ensures Owner(s, x, b) <==> Owner(z, x, b) {}
    }
  }

  /** A file system with no file, and with directories that own no listed block. */
  lemma StartInv(g: Geometry, s: Fs, ibase: seq<bool>)
    requires Fits(g, s.disk, s.bits) && s.files == map[] && InodeBits(s, ibase) && StaleSlots(s.disk, g.table)
    requires forall x :: x in s.dirs ==>
      && s.dirs[x] == Zeros(DIRECT)
      && (Carries(s.disk, g.table, x) ==> HoldsDir(s.disk, g.table, x, x, Zeros(DIRECT)))
    ensures FsInv(g, s, s.bits, ibase)
  {
    hide Fits;
    forall x | x in s.dirs ensures DirOk(g, s, x) { assert Numbered(s, x); }
    forall x: nat, b: int ensures !Owner(s, x, b) { NoneListed(b); }
    forall b: int ensures !Owned(s, b) {}
  }

  /** Reading the inode from the disk yields the file with content `bs`. */
  ghost predicate OpensWith(g: Geometry, s: Fs, no: nat, bs: seq<Byte>) {
    TableFits(s.disk, g.table) &&
    match Load(s.disk, g.table, no)
    case Ok(i) => i.no == no && Good(g.area, s.disk, s.bits, i) && Content(g.area, s.disk, s.bits, i) == bs
    case _ => false
  }

  /** A file that is closed and opened again comes back from its slot in the table with the same content, and can be
      released, exactly when its number is below 256 and no other number with the same low byte was written after it. */
  lemma ReopenedContent(g: Geometry, ss: seq<Fs>, ops: seq<Op>, base: seq<bool>, ibase: seq<bool>, no: nat)
    requires IsRun(g, ss, ops) && FsInv(g, ss[0], base, ibase) && ss[0].files == map[] && no in ss[|ops|].files
    ensures OpensWith(g, ss[|ops|], no, Log(ops, no)) <==> no < 256 && Last(ops, no) == no
    ensures Carries(ss[|ops|].disk, g.table, no) <==> no < 256 && Last(ops, no) == no
  {
    hide Fits, AllOk, OneOwner, BlockBits, InodeBits, Step, Good, Load, ContentOf, Content;
    RunKeeps(g, ss, ops, base, ibase);
    var s := ss[|ops|];
    FileNumber(g, s, no);
    if Carries(s.disk, g.table, no) { CarriedFile(g, s, no); }
  }

  lemma FileNumber(g: Geometry, s: Fs, no: nat)
    requires FileOk(g, s, no)
    ensures no < MAX_FILES && TableFits(s.disk, g.table) && Load(s.disk, g.table, no).Ok?
  {
    hide Good, Slot, Encode, Words;
  }

  /** The slot of every directory carries its number, until another number is written there. */
  ghost predicate DirsHold(g: Geometry, s: Fs, ops: seq<Op>) {
    forall no :: no in s.dirs ==> HoldsNumber(s.disk, g.table, ops, no)
  }

  /** Which number is a directory after a step, and that its slot is written. */
  lemma StepDir(g: Geometry, s: Fs, op: Op, s1: Fs, base: seq<bool>, ibase: seq<bool>)
    requires FsInv(g, s, base, ibase) && Step(g, s, op, s1) && op.no in s1.dirs
    ensures CarriesAt(s1.disk, g.table, op.no)
  {
    hide FileOk, BlockBits, OneOwner, Wrote, Released, DirFine, Good, Sync, FirstRun, InodeBits, Load, Slot, CarriesAt;
    hide Changed, HoldsDir, Carries, StaleSlots, AreaOk, Alloced;
    if op.Create? { FreshNumber(s, op.no, s1, ibase); }
    if op.ChangeDir? { assert DirOk(g, s, op.no); }
  }

  lemma StepDirs(g: Geometry, s: Fs, ops: seq<Op>, op: Op, s1: Fs, base: seq<bool>, ibase: seq<bool>)
    requires FsInv(g, s, base, ibase) && Step(g, s, op, s1) && OthersKept(g, s, s1, op.no) && DirsHold(g, s, ops)
    ensures DirsHold(g, s1, ops + [op])
  {
    hide FsInv, Step, HoldsNumber, Kept, SlotsKept, CarriesAt;
    forall x | x in s1.dirs ensures HoldsNumber(s1.disk, g.table, ops + [op], x) {
      if x == op.no {
        StepDir(g, s, op, s1, base, ibase);
        OwnHolds(g, s1, ops, op);
      } else {
        SlotHolds(g.table, s.disk, s1.disk, ops, op, x);
      }
    }
  }

  lemma {:induction false} RunDirs(g: Geometry, ss: seq<Fs>, ops: seq<Op>, base: seq<bool>, ibase: seq<bool>)
    requires IsRun(g, ss, ops) && FsInv(g, ss[0], base, ibase) && ss[0].files == map[] && DirsHold(g, ss[0], [])
    ensures DirsHold(g, ss[|ops|], ops)
  {
    hide FsInv, Step, DirsHold, Holds, OthersKept;
    if ops != [] {
      var n := |ops| - 1;
      assert IsRun(g, ss[..n + 1], ops[..n]);
      RunDirs(g, ss[..n + 1], ops[..n], base, ibase);
      RunKeeps(g, ss[..n + 1], ops[..n], base, ibase);
      StepKeeps(g, ss[n], ops[..n], ops[n], ss[n + 1], base, ibase);
      StepDirs(g, ss[n], ops[..n], ops[n], ss[n + 1], base, ibase);
      assert ops[..n] + [ops[n]] == ops;
    }
  }

  /** Reading the inode from the disk yields the directory with its blocks. */
  predicate OpensDir(g: Geometry, s: Fs, no: nat) {
    no in s.dirs && Carries(s.disk, g.table, no) && HoldsDir(s.disk, g.table, no, no, s.dirs[no])
  }

  /** So it is for directories, if it is for those of the start: opened from the disk they have their blocks, and can be
      released, exactly when the number is below 256 and no other with the same low byte was written after it. */
  lemma ReopenedDir(g: Geometry, ss: seq<Fs>, ops: seq<Op>, base: seq<bool>, ibase: seq<bool>, no: nat)
    requires IsRun(g, ss, ops) && FsInv(g, ss[0], base, ibase) && ss[0].files == map[] && no in ss[|ops|].dirs
    requires DirsHold(g, ss[0], [])
    ensures OpensDir(g, ss[|ops|], no) <==> no < 256 && Last(ops, no) == no
    ensures Carries(ss[|ops|].disk, g.table, no) <==> no < 256 && Last(ops, no) == no
  {
    hide Fits, BlockBits, OneOwner, InodeBits, Step, DirFine, FileOk, HoldsDir, Holds, Carries;
    RunKeeps(g, ss, ops, base, ibase);
    RunDirs(g, ss, ops, base, ibase);
    assert DirOk(g, ss[|ops|], no);
  }

  /** In particular while no other number with the same low byte occurs in the run. */
  lemma {:induction false} LastOwn(ops: seq<Op>, no: nat)
    requires forall k :: 0 <= k < |ops| && ops[k].no % 256 == no ==> ops[k].no == no
    ensures Last(ops, no) == no
  {
    if ops != [] { LastOwn(ops[..|ops| - 1], no); }
  }

  lemma SameMap(d: Disk, i: Inode, j: Inode)
    requires WellFormed(i) && TableOf(i) < |d| && j.sectors == i.sectors
    ensures WellFormed(j) && MapOf(d, j) == MapOf(d, i)
  {
  }

  lemma SameFile(a: Area, d: Disk, bits: seq<bool>, i: Inode, j: Inode)
    requires Good(a, d, bits, i) && j.size == i.size && j.sectors == i.sectors
    ensures Good(a, d, bits, j) && Content(a, d, bits, j) == Content(a, d, bits, i)
  {
    hide MapOf, GoodMap, Stored, Content;
    SameMap(d, i, j);
    StoredIsContent(a, d, bits, j, Content(a, d, bits, i));
  }

  /** The same disk with numbers from 256 on: the file keeps its content in memory, but its slot is not written. */
  lemma LargeNumberNotReopened(g: Geometry, s: Fs, no: nat, s1: Fs)
    requires CreateStep(g, s, no, s1) && TableFits(s.disk, g.table) && 256 <= no < MAX_FILES
    ensures Load(s1.disk, g.table, no) == Load(s.disk, g.table, no)
    ensures Load(s1.disk, g.table, no % 256) == Ok(Pure(NewInode(no)).(opens := 1))
  {
    hide Load, Sync, FirstRun;
    SyncOfLargeNumber(s.disk, g.table, NewInode(no));
  }
}
