/** ide.c: transfers of many sectors in commands of at most 256. The handshake with the interrupt handler is in
    `IdeHandshake`. */
module Ide {
  import opened Disks

  /** The driver supports an 80 MB disk. */
  const MAX_LBA := 80 * 1024 * 1024 / 512 - 1
  const BATCH := 256

  /** The sector count as its 8-bit register holds it, and the number of sectors the drive and the copy loop make
      of it. */
  function CountRegister(n: nat): Byte { n % 256 }
  function SectorsMeant(reg: Byte): nat { if reg == 0 then 256 else reg }

  lemma RegisterFaithful(n: nat)
    requires 1 <= n <= BATCH
    ensures SectorsMeant(CountRegister(n)) == n
  {
  }

  /** No assertion of the driver fails: something is asked for and every command starts on the disk. */
  predicate Accepts(lba: nat, cnt: nat) { 0 < cnt && lba + LastStart(cnt) <= MAX_LBA }

  /** Where the last of the commands for `n` sectors starts. */
  function LastStart(n: nat): nat
    requires 0 < n
  {
    (n - 1) / BATCH * BATCH
  }

  lemma Batches(done: nat, op: nat, cnt: nat)
    requires done % BATCH == 0 && 1 <= op <= BATCH && done + op <= cnt
    ensures LastStart(done + op) == done <= LastStart(cnt)
  {
  }

  lemma NextBatch(done: nat)
    requires done % BATCH == 0
    ensures (done + BATCH) % BATCH == 0
  {
  }

  /** Sector `j` of a buffer. */
  function SectorOf(buf: seq<Byte>, j: nat): Sector
    requires SECTOR * j + SECTOR <= |buf|
  {
    buf[SECTOR * j..SECTOR * j + SECTOR]
  }

  /** Sectors `from .. from + n` of a buffer, in order. */
  function FromBuffer(buf: seq<Byte>, from: nat, n: nat): (d: Disk)
    requires SECTOR * (from + n) <= |buf|
    ensures |d| == n && forall j :: 0 <= j < n ==> d[j] == SectorOf(buf, from + j)
  {
    if n == 0 then [] else FromBuffer(buf, from, n - 1) + [SectorOf(buf, from + n - 1)]
  }

  lemma BufferJoin(buf: seq<Byte>, done: nat, n: nat)
    requires SECTOR * (done + n) <= |buf|
    ensures FromBuffer(buf, 0, done) + FromBuffer(buf, done, n) == FromBuffer(buf, 0, done + n)
  {
    hide SectorOf, FromBuffer;
  }

  function Overwritten(d: Disk, lba: nat, ss: Disk): (r: Disk)
    requires lba + |ss| <= |d|
    ensures |r| == |d|
    ensures forall k :: 0 <= k < |d| ==> r[k] == if lba <= k < lba + |ss| then ss[k - lba] else d[k]
  {
    d[..lba] + ss + d[lba + |ss|..]
  }

  lemma NothingOverwritten(d: Disk, lba: nat, ss: Disk)
    requires lba <= |d| && ss == []
    ensures Overwritten(d, lba, ss) == d
  {
  }

  lemma OverwriteMore(d: Disk, lba: nat, a: Disk, b: Disk)
    requires lba + |a| + |b| <= |d|
    ensures Overwritten(Overwritten(d, lba, a), lba + |a|, b) == Overwritten(d, lba, a + b)
  {
    hide Overwritten;
  }

  /** `d` is `d0` with the first `done` sectors of the buffer written from `lba` on. */
  predicate Transferred(d0: Disk, d: Disk, lba: nat, buf: seq<Byte>, done: nat) {
    && SECTOR * done <= |buf| && lba + done <= |d0| == |d|
    && d == Overwritten(d0, lba, FromBuffer(buf, 0, done))
  }

  lemma TransferMore(d0: Disk, d: Disk, lba: nat, buf: seq<Byte>, done: nat, n: nat)
    requires Transferred(d0, d, lba, buf, done) && SECTOR * (done + n) <= |buf| && lba + done + n <= |d0|
    ensures Transferred(d0, Overwritten(d, lba + done, FromBuffer(buf, done, n)), lba, buf, done + n)
  {
    hide FromBuffer, Overwritten, SectorOf;
    BufferJoin(buf, done, n);
    OverwriteMore(d0, lba, FromBuffer(buf, 0, done), FromBuffer(buf, done, n));
  }

  lemma TransferNone(d: Disk, lba: nat, buf: seq<Byte>)
    requires lba <= |d|
    ensures Transferred(d, d, lba, buf, 0)
  {
    NothingOverwritten(d, lba, FromBuffer(buf, 0, 0));
  }

  lemma TransferredSectors(d0: Disk, d: Disk, lba: nat, buf: seq<Byte>, done: nat)
    requires Transferred(d0, d, lba, buf, done)
    ensures |d| == |d0| && forall k :: lba <= k < lba + done ==> d[k] == SectorOf(buf, k - lba)
    ensures forall k :: 0 <= k < |d| && !(lba <= k < lba + done) ==> d[k] == d0[k]
  {
    hide FromBuffer, Overwritten, SectorOf;
  }

  class Drive {
    var sectors: Disk

    /** `ide_read`: sector `lba + k` arrives at byte `512 * k` of the buffer. */
    method Read(lba: nat, buf: array<Byte>, cnt: nat) returns (ok: bool)
      requires lba + cnt <= |sectors| && SECTOR * cnt <= buf.Length
      modifies buf
      ensures ok <==> Accepts(lba, cnt)
      ensures ok ==> forall i :: 0 <= i < SECTOR * cnt ==> buf[i] == sectors[lba + i / SECTOR][i % SECTOR]
      ensures forall i :: SECTOR * cnt <= i < buf.Length ==> buf[i] == old(buf[i])
    {
      hide LastStart, SectorsMeant, CountRegister;
      if cnt > 0 { Batches(0, if cnt < BATCH then cnt else BATCH, cnt); }
      if lba > MAX_LBA || cnt == 0 { return false; }
      var done := 0;
      while done < cnt
        invariant done <= cnt && (done % BATCH == 0 || done == cnt)
        invariant done == 0 || lba + LastStart(done) <= MAX_LBA
        invariant forall i :: 0 <= i < SECTOR * done ==> buf[i] == sectors[lba + i / SECTOR][i % SECTOR]
        invariant forall i :: SECTOR * cnt <= i < buf.Length ==> buf[i] == old(buf[i])
      {
        var op := if done + BATCH <= cnt then BATCH else cnt - done;
        Batches(done, op, cnt);
        if lba + done > MAX_LBA { return false; }
        RegisterFaithful(op);
        NextBatch(done);
        var n := SectorsMeant(CountRegister(op));
        forall i | SECTOR * done <= i < SECTOR * (done + n) {
          buf[i] := sectors[lba + i / SECTOR][i % SECTOR];
        }
        done := done + op;
      }
      return true;
    }

    /** `ide_write`: the mirror image. */
    method Write(lba: nat, buf: array<Byte>, cnt: nat) returns (ok: bool)
      requires lba + cnt <= |sectors| && SECTOR * cnt <= buf.Length
      modifies this
      ensures ok <==> Accepts(lba, cnt)
      ensures |sectors| == |old(sectors)|
      ensures ok ==> forall k :: lba <= k < lba + cnt ==> sectors[k] == SectorOf(buf[..], k - lba)
      ensures forall k :: 0 <= k < |sectors| && !(lba <= k < lba + cnt) ==> sectors[k] == old(sectors)[k]
    {
      hide LastStart, SectorsMeant, CountRegister, FromBuffer, Overwritten, SectorOf, Transferred;
      if cnt > 0 { Batches(0, if cnt < BATCH then cnt else BATCH, cnt); }
      if lba > MAX_LBA || cnt == 0 { return false; }
      var done, bytes := 0, buf[..];
      TransferNone(sectors, lba, bytes);
      while done < cnt
        invariant done <= cnt && (done % BATCH == 0 || done == cnt)
        invariant done == 0 || lba + LastStart(done) <= MAX_LBA
        invariant Transferred(old(sectors), sectors, lba, bytes, done)
      {
        var op := if done + BATCH <= cnt then BATCH else cnt - done;
        Batches(done, op, cnt);
        TransferredSectors(old(sectors), sectors, lba, bytes, done);
        if lba + done > MAX_LBA { return false; }
        RegisterFaithful(op);
        NextBatch(done);
        var n := SectorsMeant(CountRegister(op));
        TransferMore(old(sectors), sectors, lba, bytes, done, n);
        sectors := Overwritten(sectors, lba + done, FromBuffer(bytes, done, n));
        done := done + op;
      }
      TransferredSectors(old(sectors), sectors, lba, bytes, done);
      return true;
    }
  }
}
