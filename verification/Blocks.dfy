/** Block maps: which data sectors an inode owns, and how they come from the block bitmap. */
module BlockMaps {
  import opened Disks
  import opened Bitmaps

  const DIRECT := 12
  const MAP_LEN := 140

  /** The data sectors of a partition: bit `k` of the block bitmap stands for sector `start + k`. */
  datatype Area = Area(start: nat, end: nat)

  /** Bit 0 is reserved and no bit past the data sectors is clear. */
  predicate AreaOk(a: Area, bits: seq<bool>) {
    && 0 < a.start && a.end <= 0x1_0000_0000
    && 0 < |bits| && bits[0]
    && forall k :: 0 <= k < |bits| && a.end <= a.start + k ==> bits[k]
  }

  /** A data sector that the bitmap says is taken. */
  predicate IsBlock(a: Area, bits: seq<bool>, b: Word) {
    a.start < b < a.end && b - a.start < |bits| && bits[b - a.start]
  }

  /** The first `n` entries of `m` are distinct taken blocks and the rest are 0; the indirect table `t`, if any,
      is a taken block of its own. */
  predicate GoodMap(a: Area, bits: seq<bool>, m: seq<Word>, t: Word, n: nat) {
    && |m| == MAP_LEN && n <= MAP_LEN
    && (forall k :: 0 <= k < n ==> IsBlock(a, bits, m[k]))
    && (forall k :: n <= k < MAP_LEN ==> m[k] == 0)
    && (forall j, k :: 0 <= j < k < n ==> m[j] != m[k])
    && (t != 0 ==> IsBlock(a, bits, t) && forall k :: 0 <= k < n ==> m[k] != t)
  }

  predicate Owns(m: seq<Word>, t: Word, b: int) { b != 0 && (b == t || b in m) }

  /** The bitmap went from `b0` to `b1` by taking exactly the blocks of `(m, t)`, those new being clear before. */
  ghost predicate Took(a: Area, b0: seq<bool>, b1: seq<bool>, m0: seq<Word>, t0: Word, m: seq<Word>, t: Word) {
    && |b1| == |b0|
    && (forall k :: 0 <= k < |b0| ==> (b1[k] <==> b0[k] || Owns(m, t, a.start + k)))
    && (forall k :: 0 <= k < |b0| && b0[k] && Owns(m, t, a.start + k) ==> Owns(m0, t0, a.start + k))
    && (forall b :: Owns(m0, t0, b) ==> Owns(m, t, b))
  }

  /** One run of `block_bitmap_alloc`: the first clear bit is taken. */
  predicate Alloced(a: Area, b0: seq<bool>, b1: seq<bool>, lba: Word) {
    && a.start < lba < a.end && lba - a.start < |b0| && !b0[lba - a.start]
    && b1 == b0[lba - a.start := true]
    && lba - a.start == FirstRun(b0, 0, |b0|, 1)
  }

  lemma AddEntry(a: Area, b0: seq<bool>, b1: seq<bool>, m: seq<Word>, t: Word, n: nat, lba: Word)
    requires GoodMap(a, b0, m, t, n) && n < MAP_LEN && Alloced(a, b0, b1, lba)
    ensures GoodMap(a, b1, m[n := lba], t, n + 1)
  {
    assert forall k :: 0 <= k < n ==> m[k] != lba;
  }

  lemma AddTable(a: Area, b0: seq<bool>, b1: seq<bool>, m: seq<Word>, n: nat, lba: Word)
    requires GoodMap(a, b0, m, 0, n) && Alloced(a, b0, b1, lba)
    ensures GoodMap(a, b1, m, lba, n)
  {
  }

  lemma TookNothing(a: Area, b: seq<bool>, m: seq<Word>, t: Word, n: nat)
    requires GoodMap(a, b, m, t, n)
    ensures Took(a, b, b, m, t, m, t)
  {
    forall k | 0 <= k < |b| && Owns(m, t, a.start + k) ensures b[k] { OwnedIsBlock(a, b, m, t, n, a.start + k); }
  }

  lemma OwnedIsBlock(a: Area, bits: seq<bool>, m: seq<Word>, t: Word, n: nat, b: int)
    requires GoodMap(a, bits, m, t, n) && Owns(m, t, b)
    ensures 0 <= b < 0x1_0000_0000 && IsBlock(a, bits, b)
  {
  }

  lemma OwnsAfterEntry(m: seq<Word>, t: Word, n: nat, lba: Word, b: int)
    requires n < |m| && m[n] == 0 && lba != 0
    ensures Owns(m[n := lba], t, b) <==> Owns(m, t, b) || b == lba
  {
    if b in m && b != 0 {
      var k :| 0 <= k < |m| && m[k] == b;
      assert m[n := lba][k] == b;
    }
    assert m[n := lba][n] == lba;
  }

  lemma TookEntry(a: Area, b0: seq<bool>, b1: seq<bool>, m: seq<Word>, t: Word, n: nat, lba: Word)
    requires GoodMap(a, b0, m, t, n) && n < MAP_LEN && Alloced(a, b0, b1, lba)
    ensures Took(a, b0, b1, m, t, m[n := lba], t)
  {
    assert m[n] == 0;
    hide GoodMap;
    TookNothing(a, b0, m, t, n);
    forall b ensures Owns(m[n := lba], t, b) <==> Owns(m, t, b) || b == lba { OwnsAfterEntry(m, t, n, lba, b); }
  }

  lemma TookTable(a: Area, b0: seq<bool>, b1: seq<bool>, m: seq<Word>, n: nat, lba: Word)
    requires GoodMap(a, b0, m, 0, n) && Alloced(a, b0, b1, lba)
    ensures Took(a, b0, b1, m, 0, m, lba)
  {
    TookNothing(a, b0, m, 0, n);
  }

  lemma TookTrans(a: Area, b0: seq<bool>, b1: seq<bool>, b2: seq<bool>, m0: seq<Word>, t0: Word, m1: seq<Word>,
      t1: Word, m2: seq<Word>, t2: Word)
    requires Took(a, b0, b1, m0, t0, m1, t1) && Took(a, b1, b2, m1, t1, m2, t2)
    ensures Took(a, b0, b2, m0, t0, m2, t2)
  {
    hide Owns;
  }

  lemma FirstClear(a: Area, bits: seq<bool>)
    requires AreaOk(a, bits)
    ensures var k := FirstRun(bits, 0, |bits|, 1); k != -1 <==> ClearCount(bits) > 0
    ensures var k := FirstRun(bits, 0, |bits|, 1); k != -1 ==> 0 < k < |bits| && !bits[k] && a.start + k < a.end
  {
    NoneClear(bits);
    var k := FirstRun(bits, 0, |bits|, 1);
    forall j: nat | j < |bits| && !bits[j] ensures ClearRun(bits, j, 1) {}
    if k != -1 { assert ClearRun(bits, k, 1) && k < |bits| && !bits[k]; }
  }
}
