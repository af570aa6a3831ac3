/** file.c and inode.c: regular files. What an inode and the disk say a file contains, what `file_write` may
    change, and what follows for every run of creations, writes and releases. */
module Files {
  import opened Disks
  import opened InodeTables
  import opened BlockMaps

  /** The largest size a file can reach: one more byte fails an assertion of `file_write`. */
  const MAX_BYTES := SECTOR * MAP_LEN

  function Zeros(n: nat): (z: seq<Word>)
    ensures |z| == n && forall k :: 0 <= k < n ==> z[k] == 0
  {
    seq<Word>(n, _ => 0)
  }

  /** The 140 block addresses of an inode: 12 direct ones, then those in the indirect table. */
  function MapOf(d: Disk, i: Inode): (m: seq<Word>)
    requires WellFormed(i) && i.sectors[DIRECT] < |d|
    ensures |m| == MAP_LEN
  {
    i.sectors[..DIRECT] + if i.sectors[DIRECT] == 0 then Zeros(MAP_LEN - DIRECT) else Decode(d[i.sectors[DIRECT]])
  }

  function TableOf(i: Inode): Word
    requires WellFormed(i)
  {
    i.sectors[DIRECT]
  }

  function BlocksFor(size: nat): nat { size / SECTOR + 1 }

  /** A file that was ever written has one block more than its full ones. */
  function BlockCount(i: Inode): nat
    requires WellFormed(i)
  {
    if i.sectors[0] == 0 then 0 else BlocksFor(i.size)
  }

  /** Where things are on the disk. */
  datatype Geometry = Geometry(table: nat, area: Area)

  predicate Fits(g: Geometry, d: Disk, bits: seq<bool>) {
    AreaOk(g.area, bits) && g.table + TABLE_SECTS <= g.area.start <= g.area.end <= |d|
  }

  /** The invariant of a file. */
  predicate Good(a: Area, d: Disk, bits: seq<bool>, i: Inode) {
    && WellFormed(i) && TableOf(i) < |d| && a.end <= |d|
    && i.size < MAX_BYTES && (i.sectors[0] == 0 ==> i.size == 0)
    && GoodMap(a, bits, MapOf(d, i), TableOf(i), BlockCount(i))
    && (TableOf(i) != 0 <==> BlockCount(i) > DIRECT)
  }

  /** The bytes `bs` are in the blocks of `m`, in order. */
  predicate Stored(d: Disk, m: seq<Word>, bs: seq<Byte>)
    requires |m| == MAP_LEN
  {
    forall o :: 0 <= o < |bs| ==> o / SECTOR < MAP_LEN && m[o / SECTOR] < |d| && d[m[o / SECTOR]][o % SECTOR] == bs[o]
  }

  /** What the file contains. */
  function Content(a: Area, d: Disk, bits: seq<bool>, i: Inode): (bs: seq<Byte>)
    requires Good(a, d, bits, i)
    ensures |bs| == i.size
    ensures Stored(d, MapOf(d, i), bs)
  {
    seq<Byte>(i.size, o requires 0 <= o < i.size => BlockByte(a, d, bits, MapOf(d, i), TableOf(i), BlockCount(i), o))
  }

  function BlockByte(a: Area, d: Disk, bits: seq<bool>, m: seq<Word>, t: Word, n: nat, o: nat): (b: Byte)
    requires GoodMap(a, bits, m, t, n) && o / SECTOR < n && a.end <= |d|
    ensures m[o / SECTOR] < |d| && b == d[m[o / SECTOR]][o % SECTOR]
  {
    assert IsBlock(a, bits, m[o / SECTOR]);
    d[m[o / SECTOR]][o % SECTOR]
  }

  lemma StoredIsContent(a: Area, d: Disk, bits: seq<bool>, i: Inode, bs: seq<Byte>)
    requires Good(a, d, bits, i) && |bs| == i.size && Stored(d, MapOf(d, i), bs)
    ensures Content(a, d, bits, i) == bs
  {
    var m := MapOf(d, i);
    hide Good, MapOf;
    var c := Content(a, d, bits, i);
    hide Content;
    forall o | 0 <= o < i.size ensures c[o] == bs[o] { assert d[m[o / SECTOR]][o % SECTOR] == bs[o]; }
  }

  predicate DistinctBlocks(d: Disk, m: seq<Word>, n: nat) {
    && n <= |m| == MAP_LEN
    && (forall k :: 0 <= k < n ==> m[k] < |d|)
    && forall j, k :: 0 <= j < k < n ==> m[j] != m[k]
  }

  /** One pass of the write loop: a chunk goes behind the bytes already stored. */
  lemma StoreChunk(d: Disk, m: seq<Word>, n: nat, bs: seq<Byte>, io: Sector, chunk: seq<Byte>)
    requires DistinctBlocks(d, m, n) && |bs| / SECTOR < n && Stored(d, m, bs)
    requires var off := |bs| % SECTOR; off + |chunk| <= SECTOR && io[..off] == d[m[|bs| / SECTOR]][..off]
    ensures Stored(d[m[|bs| / SECTOR] := Splice(io, |bs| % SECTOR, chunk)], m, bs + chunk)
  {
    var k, off := |bs| / SECTOR, |bs| % SECTOR;
    var old_: seq<Byte> := d[m[k]];
    var s := Splice(io, off, chunk);
    var d1 := d[m[k] := s];
    hide Splice;
    forall o | 0 <= o < |bs + chunk|
      ensures o / SECTOR < MAP_LEN && m[o / SECTOR] < |d1| && d1[m[o / SECTOR]][o % SECTOR] == (bs + chunk)[o]
    {
      if o < |bs| {
        assert d[m[o / SECTOR]][o % SECTOR] == bs[o];
        if o / SECTOR == k {
          assert o % SECTOR < off;
          assert io[..off][o % SECTOR] == old_[..off][o % SECTOR];
        } else {
          assert m[o / SECTOR] != m[k];
        }
      } else {
        assert o / SECTOR == k && o % SECTOR - off == o - |bs|;
      }
    }
  }

  // ---------------------------------------------------------------- one write

  /** What a successful `file_write` of `buf` does: it appends, takes the blocks it needs from the free ones,
      changes no sector but the file's own and the inode's slot in the table. */
  ghost predicate Wrote(g: Geometry, d0: Disk, b0: seq<bool>, i0: Inode, buf: seq<Byte>, d1: Disk, b1: seq<bool>,
      i1: Inode)
    requires Good(g.area, d0, b0, i0) && Fits(g, d0, b0)
  {
    && |d1| == |d0| && Good(g.area, d1, b1, i1)
    && i1.no == i0.no && i1.sectors[0] != 0
    && Content(g.area, d1, b1, i1) == Content(g.area, d0, b0, i0) + buf
    && Took(g.area, b0, b1, MapOf(d0, i0), TableOf(i0), MapOf(d1, i1), TableOf(i1))
    && OnlyOwn(g, d0, d1, MapOf(d1, i1), TableOf(i1))
    && SlotsAfter(g, d0, d1, i1)
  }

  ghost predicate OnlyOwn(g: Geometry, d0: Disk, d1: Disk, m: seq<Word>, t: Word) {
    && |d1| == |d0|
    && forall s :: 0 <= s < |d0| && !Owns(m, t, s) && !(g.table <= s < g.table + TABLE_SECTS) ==> d1[s] == d0[s]
  }

  predicate SlotsAfter(g: Geometry, d0: Disk, d1: Disk, i1: Inode)
    requires g.table + TABLE_SECTS <= |d0| == |d1| && WellFormed(i1)
  {
    && Slot(d1, g.table, i1.no % 256) == Encode(Words(Pure(i1)))
    && forall no :: 0 <= no < MAX_FILES && no != i1.no % 256 ==> Slot(d1, g.table, no) == Slot(d0, g.table, no)
  }

  // ---------------------------------------------------------------- other files

  /** A file keeps its blocks, its content and its invariant on a disk that agrees on the sectors it owns. */
  lemma SectorsDecide(a: Area, d0: Disk, b0: seq<bool>, d1: Disk, b1: seq<bool>, j: Inode)
    requires Good(a, d0, b0, j) && |d1| == |d0| && |b1| == |b0|
    requires forall b: int :: 0 <= b < |d0| && Owns(MapOf(d0, j), TableOf(j), b) ==> d1[b] == d0[b]
    requires forall k :: 0 <= k < |b0| && Owns(MapOf(d0, j), TableOf(j), a.start + k) ==> b1[k]
    ensures MapOf(d1, j) == MapOf(d0, j) && Good(a, d1, b1, j)
    ensures Content(a, d1, b1, j) == Content(a, d0, b0, j)
  {
    MapKept(d0, d1, j);
    var m, t := MapOf(d0, j), TableOf(j);
    hide MapOf;
    StillGoodMap(a, b0, b1, m, t, BlockCount(j));
    hide GoodMap;
    var bs := Content(a, d0, b0, j);
    hide Content;
    StoredKept(a, b0, d0, d1, m, t, BlockCount(j), bs);
    StoredIsContent(a, d1, b1, j, bs);
  }

  lemma MapKept(d0: Disk, d1: Disk, j: Inode)
    requires WellFormed(j) && TableOf(j) < |d0| == |d1|
    requires TableOf(j) != 0 ==> d1[TableOf(j)] == d0[TableOf(j)]
    ensures MapOf(d1, j) == MapOf(d0, j)
  {
  }

  lemma StillGoodMap(a: Area, b0: seq<bool>, b1: seq<bool>, m: seq<Word>, t: Word, n: nat)
    requires GoodMap(a, b0, m, t, n) && |b1| == |b0|
    requires forall k :: 0 <= k < |b0| && Owns(m, t, a.start + k) ==> b1[k]
    ensures GoodMap(a, b1, m, t, n)
  {
    forall b: Word | Owns(m, t, b) ensures IsBlock(a, b1, b) {
      OwnedIsBlock(a, b0, m, t, n, b);
      assert Owns(m, t, a.start + (b - a.start));
    }
  }

  lemma StoredKept(a: Area, bits: seq<bool>, d0: Disk, d1: Disk, m: seq<Word>, t: Word, n: nat, bs: seq<Byte>)
    requires GoodMap(a, bits, m, t, n) && |d1| == |d0| && Stored(d0, m, bs) && (bs == [] || BlocksFor(|bs|) <= n)
    requires forall b: int :: 0 <= b < |d0| && Owns(m, t, b) ==> d1[b] == d0[b]
    ensures Stored(d1, m, bs)
  {
    forall o | 0 <= o < |bs| ensures m[o / SECTOR] < |d1| && d1[m[o / SECTOR]][o % SECTOR] == bs[o] {
      var k := o / SECTOR;
      assert d0[m[k]][o % SECTOR] == bs[o];
      assert IsBlock(a, bits, m[k]);
      assert Owns(m, t, m[k]);
    }
  }
}
