/** The allocation bitmap shared by the page pools and the file system.

    `FirstRun` is the reference definition of "first fit"; `Bitmap.Scan` is the byte-and-mask
    search of the kernel, proved to compute it. The other modules hold a bitmap as the
    sequence of its bits and allocate with `FirstRun`. */
module Bitmaps {
  import opened Outcomes

  // ---------------------------------------------------------------- reference definition

  /** Bits `s .. s + n` exist and are all clear. */
  predicate ClearRun(b: seq<bool>, s: nat, n: nat) {
    s + n <= |b| && forall j :: s <= j < s + n ==> !b[j]
  }

  predicate AllSet(b: seq<bool>, n: nat)
    requires n <= |b|
  {
    forall j :: 0 <= j < n ==> b[j]
  }

  /** The least `s >= from` such that `cnt` clear bits start at `s` and end before `lim`; -1 when
      there is none. */
  function FirstRun(b: seq<bool>, from: nat, lim: nat, cnt: nat): (r: int)
    requires lim <= |b|
    ensures r == -1 || from <= r
    ensures r != -1 ==> r + cnt <= lim && ClearRun(b, r, cnt)
    ensures forall s :: from <= s && s + cnt <= lim && ClearRun(b, s, cnt) ==> r != -1 && r <= s
    decreases lim + 1 - from
  {
    if from + cnt > lim then -1
    else if ClearRun(b, from, cnt) then from
    else FirstRun(b, from + 1, lim, cnt)
  }

  /** The two properties in the contract of `FirstRun` determine its value. */
  lemma FirstRunUnique(b: seq<bool>, from: nat, lim: nat, cnt: nat, r: int)
    requires lim <= |b|
    requires r == -1 || (from <= r && r + cnt <= lim && ClearRun(b, r, cnt))
    requires forall s :: from <= s && s + cnt <= lim && ClearRun(b, s, cnt) ==> r != -1 && r <= s
    ensures r == FirstRun(b, from, lim, cnt)
  {
    var f := FirstRun(b, from, lim, cnt);
    if r != -1 { assert ClearRun(b, r, cnt); }
    if f != -1 { assert ClearRun(b, f, cnt); }
  }

  // ---------------------------------------------------------------- how many bits are clear

  function ClearCount(bits: seq<bool>): nat {
    if bits == [] then 0 else ClearCount(bits[..|bits| - 1]) + if bits[|bits| - 1] then 0 else 1
  }

  lemma {:induction false} ClearAfter(bits: seq<bool>, k: nat)
    requires k < |bits| && !bits[k]
    ensures ClearCount(bits) == ClearCount(bits[k := true]) + 1
  {
    var n := |bits| - 1;
    if k < n {
      ClearAfter(bits[..n], k);
      assert bits[k := true][..n] == bits[..n][k := true];
    } else {
      assert bits[k := true][..n] == bits[..n];
    }
  }

  lemma {:induction false} NoneClear(bits: seq<bool>)
    ensures ClearCount(bits) == 0 <==> forall k :: 0 <= k < |bits| ==> bits[k]
  {
    if bits != [] {
      var n := |bits| - 1;
      NoneClear(bits[..n]);
      assert forall k :: 0 <= k < n ==> bits[..n][k] == bits[k];
      assert (forall k :: 0 <= k < |bits| ==> bits[k]) <==> (forall k :: 0 <= k < n ==> bits[..n][k]) && bits[n];
    }
  }

  /** `b` with `n` bits from `i` on replaced by `v`. */
  function Mark(b: seq<bool>, i: nat, n: nat, v: bool): (r: seq<bool>)
    ensures |r| == |b|
    ensures forall k :: 0 <= k < |b| ==> r[k] == if i <= k < i + n then v else b[k]
  {
    seq(|b|, k requires 0 <= k < |b| => if i <= k < i + n then v else b[k])
  }

  /** Taking a clear run and giving it back restores the bitmap. */
  lemma MarkUndo(b: seq<bool>, i: nat, n: nat)
    requires ClearRun(b, i, n)
    ensures Mark(Mark(b, i, n, true), i, n, false) == b
  {
    var c := Mark(Mark(b, i, n, true), i, n, false);
    forall k | 0 <= k < |b| ensures c[k] == b[k] {}
  }

  // ---------------------------------------------------------------- bytes and masks

  function Mask(k: nat): bv8
    requires k < 8
  {
    (1 as bv8) << k
  }

  /** Bit `i` of a byte array, as `bitmap_scan_test` reads it. */
  predicate BitAt(bytes: seq<bv8>, i: nat)
    requires i / 8 < |bytes|
  {
    bytes[i / 8] & Mask(i % 8) != 0
  }

  lemma MaskValues(k: nat)
    requires k < 8
    ensures Mask(k) == (match k case 0 => 1 case 1 => 2 case 2 => 4 case 3 => 8
                                case 4 => 16 case 5 => 32 case 6 => 64 case _ => 128)
  {
    match k
    case 0 => case 1 => case 2 => case 3 => case 4 => case 5 => case 6 => case _ =>
  }

  /** Or-ing a mask in sets that bit and no other; and-ing its complement clears it and no other. */
  lemma MaskSetsOneBit(x: bv8, k: nat, m: nat)
    requires k < 8 && m < 8
    ensures (x | Mask(k)) & Mask(m) != 0 <==> m == k || x & Mask(m) != 0
    ensures (x & !Mask(k)) & Mask(m) != 0 <==> m != k && x & Mask(m) != 0
  {
    MaskValues(k);
    MaskValues(m);
  }

  /** A byte other than 0xff has a clear bit. */
  lemma NotFullHasClearBit(x: bv8)
    ensures x == 0xff <==> forall k: nat | k < 8 :: x & Mask(k) != 0
  {
    MaskValues(0); MaskValues(1); MaskValues(2); MaskValues(3);
    MaskValues(4); MaskValues(5); MaskValues(6); MaskValues(7);
    if forall k: nat | k < 8 :: x & Mask(k) != 0 {
      assert x & Mask(0) != 0 && x & Mask(1) != 0 && x & Mask(2) != 0 && x & Mask(3) != 0;
      assert x & Mask(4) != 0 && x & Mask(5) != 0 && x & Mask(6) != 0 && x & Mask(7) != 0;
    }
  }

  lemma FullBytesHaveSetBits(bytes: seq<bv8>, n: nat)
    requires n <= |bytes| && forall b :: 0 <= b < n ==> bytes[b] == 0xff
    ensures forall j: nat :: j < 8 * n ==> BitAt(bytes, j)
  {
    forall j: nat | j < 8 * n ensures BitAt(bytes, j) {
      NotFullHasClearBit(bytes[j / 8]);
    }
  }

  /** The inner loop of `bitmap_scan`, on the byte it looks at. */
  method LowestClear(x: bv8) returns (k: nat)
    requires x != 0xff
    ensures k < 8 && x & Mask(k) == 0
    ensures forall j: nat :: j < k ==> x & Mask(j) != 0
  {
    NotFullHasClearBit(x);
    ghost var clear: nat :| clear < 8 && x & Mask(clear) == 0;
    k := 0;
    while x & Mask(k) != 0
      invariant k <= clear
      invariant forall j: nat :: j < k ==> x & Mask(j) != 0
      decreases clear - k
    {
      k := k + 1;
    }
  }

  lemma BitsOfByte(bytes: seq<bv8>, b: nat, k: nat)
    requires b < |bytes| && k < 8 && bytes[b] & Mask(k) == 0 && forall j: nat :: j < k ==> bytes[b] & Mask(j) != 0
    ensures !BitAt(bytes, 8 * b + k) && forall j: nat :: 8 * b <= j < 8 * b + k ==> BitAt(bytes, j)
  {
    hide Mask;
    assert (8 * b + k) / 8 == b && (8 * b + k) % 8 == k;
    forall j: nat | 8 * b <= j < 8 * b + k ensures BitAt(bytes, j) {
      assert j / 8 == b && j % 8 == j - 8 * b;
      assert bytes[b] & Mask(j - 8 * b) != 0;
    }
  }

  class Bitmap {
    /** Memory behind the bitmap. `bytes` of them belong to it; the search also reads the byte after. */
    const bits: array<bv8>
    const bytes: nat

    ghost predicate Valid() {
      bytes < bits.Length && 8 * bits.Length < 0x8000_0000
    }

    ghost function Bits(): (b: seq<bool>)
      requires Valid()
      reads bits
      ensures |b| == 8 * bits.Length
    {
      seq(8 * bits.Length, i requires 0 <= i < 8 * bits.Length reads bits => BitAt(bits[..], i))
    }

    constructor (size: nat)
      requires 8 * (size + 1) < 0x8000_0000
      ensures Valid() && fresh(bits) && bytes == size && bits.Length == size + 1
      ensures forall i :: 0 <= i < |Bits()| ==> !Bits()[i]
    {
      bytes := size;
      bits := new bv8[size + 1](_ => 0);
    }

    method Test(i: nat) returns (r: bool)
      requires Valid() && i < 8 * bits.Length
      ensures r == Bits()[i]
    {
      r := bits[i / 8] & Mask(i % 8) != 0;
    }

    method Set(i: nat, value: bool)
      requires Valid() && i < 8 * bits.Length
      modifies bits
      ensures Bits() == old(Bits())[i := value]
    {
      ghost var was := bits[..];
      if value {
        bits[i / 8] := bits[i / 8] | Mask(i % 8);
      } else {
        bits[i / 8] := bits[i / 8] & !Mask(i % 8);
      }
      forall j | 0 <= j < 8 * bits.Length
        ensures BitAt(bits[..], j) == if j == i then value else BitAt(was, j)
      {
        if j / 8 == i / 8 {
          MaskSetsOneBit(was[i / 8], i % 8, j % 8);
        }
      }
    }

    /** Skip full bytes, then the set bits of the first byte that is not full. */
    method FirstFree() returns (r: Outcome<nat>)
      requires Valid()
      ensures r.Halt? || r.Ok?
      ensures r.Halt? <==> AllSet(Bits(), 8 * bytes)
      ensures r.Ok? ==> r.value < 8 * bytes && !Bits()[r.value] && forall j :: 0 <= j < r.value ==> Bits()[j]
    {
      var idxByte := 0;
      while bits[idxByte] == 0xff && idxByte < bytes
        invariant 0 <= idxByte <= bytes
        invariant forall b :: 0 <= b < idxByte ==> bits[b] == 0xff
        decreases bytes - idxByte
      {
        idxByte := idxByte + 1;
      }
      FullBytesHaveSetBits(bits[..], idxByte);
      if idxByte >= bytes {
        return Halt;
      }
      var idxBit := LowestClear(bits[idxByte]);
      r := Ok(8 * idxByte + idxBit);
      BitsOfByte(bits[..], idxByte, idxBit);
      assert !BitAt(bits[..], r.value) && !Bits()[r.value];
    }

    /** The counting loop of `bitmap_scan`, entered at the first clear bit. */
    method CountFrom(start: nat, cnt: nat, ghost b: seq<bool>) returns (r: Outcome<nat>)
      requires Valid() && b == Bits() && cnt > 1 && start < 8 * bytes
      requires !b[start] && forall j :: 0 <= j < start ==> b[j]
      ensures r.Ok? ==> r.value == FirstRun(b, 0, 8 * bytes + 1, cnt)
      ensures !r.Ok? ==> r.Null? && FirstRun(b, 0, 8 * bytes + 1, cnt) == -1
    {
      hide BitAt, FirstRun;
      LeastStart(b, start, cnt);
      var bitLeft, nextBit, count := 8 * bytes - start, start + 1, 1;
      r := Null;
      while bitLeft > 0
        invariant 0 <= bitLeft && nextBit + bitLeft == 8 * bytes + 1
        invariant 0 <= count < cnt && start <= nextBit - count
        invariant ClearRun(b, nextBit - count, count)
        invariant nextBit - count == 0 || b[nextBit - count - 1]
        invariant forall s: nat :: s + cnt <= nextBit ==> !ClearRun(b, s, cnt)
        invariant r == Null
      {
        bitLeft := bitLeft - 1;
        var used := Test(nextBit);
        if !used {
          count := count + 1;
        } else {
          count := 0;
        }
        if count == cnt {
          r := Ok(nextBit - cnt + 1);
          FirstRunUnique(b, 0, 8 * bytes + 1, cnt, r.value);
          return;
        }
        NoRunEndsHere(b, nextBit + 1, count, cnt);
        nextBit := nextBit + 1;
      }
      FirstRunUnique(b, 0, 8 * bytes + 1, cnt, -1);
    }

    /** `bitmap_scan`. A single bit is looked for among the bitmap's own bits; a longer run may also
        use the bit just past its end. */
    method Scan(cnt: nat) returns (r: Outcome<nat>)
      requires Valid() && cnt < 0x1_0000_0000
      ensures r.Halt? <==> AllSet(Bits(), 8 * bytes)
      ensures r.Ok? && cnt == 1 ==> r.value == FirstRun(Bits(), 0, 8 * bytes, 1)
      ensures r.Ok? && cnt != 1 ==> cnt > 1 && r.value == FirstRun(Bits(), 0, 8 * bytes + 1, cnt)
      ensures r.Null? ==> cnt == 0 || (cnt > 1 && FirstRun(Bits(), 0, 8 * bytes + 1, cnt) == -1)
    {
      ghost var b := Bits();
      r := FirstFree();
      hide BitAt, AllSet;
      if r.Halt? {
        return;
      }
      var start := r.value;
      assert b == Bits() && !b[start];
      LeastStart(b, start, cnt);
      if cnt == 1 {
        FirstRunUnique(b, 0, 8 * bytes, 1, start);
        return;
      }
      var bitLeft := 8 * bytes - start;
      if bitLeft < (cnt - 1) % 0x1_0000_0000 {
        return Null;
      }
      r := CountFrom(start, cnt, b);
    }
  }

  /** If the clear run ending at `e` is only `count < cnt` long, no run of `cnt` ends there. */
  lemma NoRunEndsHere(b: seq<bool>, e: nat, count: nat, cnt: nat)
    requires count < cnt && count <= e <= |b|
    requires e - count == 0 || b[e - count - 1]
    ensures forall s: nat | s + cnt == e :: !ClearRun(b, s, cnt)
  {
  }

  lemma LeastStart(b: seq<bool>, start: nat, cnt: nat)
    requires start < |b| && !b[start] && forall j :: 0 <= j < start ==> b[j]
    ensures ClearRun(b, start, 1)
    ensures cnt > 0 ==> forall s: nat | ClearRun(b, s, cnt) :: start <= s
  {
    forall s: nat | ClearRun(b, s, cnt) && cnt > 0 ensures start <= s { assert !b[s]; }
  }

  /** A found run lies inside the bitmap when one bit was asked for or the bit past the end is set. */
  lemma RunInRange(b: seq<bool>, n: nat, cnt: nat)
    requires n < |b| && cnt > 1 && b[n]
    ensures FirstRun(b, 0, n + 1, cnt) == FirstRun(b, 0, n, cnt)
  {
    var r := FirstRun(b, 0, n + 1, cnt);
    assert r != -1 ==> !b[r + cnt - 1];
    FirstRunUnique(b, 0, n, cnt, r);
  }

  /** Otherwise it reaches outside exactly when no run fits inside and the last `cnt - 1` bits and
      the one past the end are clear. */
  lemma RunOutOfRange(b: seq<bool>, n: nat, cnt: nat)
    requires n < |b| && cnt > 1
    ensures FirstRun(b, 0, n + 1, cnt) + cnt == n + 1 && FirstRun(b, 0, n + 1, cnt) != -1 <==>
      FirstRun(b, 0, n, cnt) == -1 && cnt <= n + 1 && ClearRun(b, n + 1 - cnt, cnt)
  {
    var r := FirstRun(b, 0, n + 1, cnt);
    if FirstRun(b, 0, n, cnt) != -1 {
      assert ClearRun(b, FirstRun(b, 0, n, cnt), cnt);
    } else if cnt <= n + 1 && ClearRun(b, n + 1 - cnt, cnt) {
      assert r <= n + 1 - cnt && ClearRun(b, r, cnt);
    }
  }
}
