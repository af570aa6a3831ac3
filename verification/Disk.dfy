/** Sectors, disks, and little-endian 32-bit words in sectors. */
module Disks {

  type Byte = x: int | 0 <= x < 256

  const SECTOR := 512

  type Sector = s: seq<Byte> | |s| == SECTOR witness seq(SECTOR, _ => 0)

  /** A disk is addressed by sector number (LBA). */
  type Disk = seq<Sector>

  const ZERO_SECTOR: Sector := seq(SECTOR, _ => 0)

  type Word = x: int | 0 <= x < 0x1_0000_0000

  function ByteOf(x: Word, k: nat): Byte
    requires k < 4
  {
    match k case 0 => x % 256 case 1 => x / 256 % 256 case 2 => x / 256 / 256 % 256 case _ => x / 256 / 256 / 256
  }

  function Join(a: Byte, b: Byte, c: Byte, d: Byte): Word {
    a as int + 256 * (b as int + 256 * (c as int + 256 * (d as int)))
  }

  /** The words in memory order. */
  function Encode(ws: seq<Word>): (bs: seq<Byte>)
    ensures |bs| == 4 * |ws|
  {
    seq(4 * |ws|, j requires 0 <= j < 4 * |ws| => ByteOf(ws[j / 4], j % 4))
  }

  function WordAt(bs: seq<Byte>, i: nat): Word
    requires 4 * i + 4 <= |bs|
  {
    Join(bs[4 * i], bs[4 * i + 1], bs[4 * i + 2], bs[4 * i + 3])
  }

  function Decode(bs: seq<Byte>): (ws: seq<Word>)
    ensures |ws| == |bs| / 4
  {
    seq(|bs| / 4, i requires 0 <= i < |bs| / 4 => WordAt(bs, i))
  }

  lemma WordBytes(x: Word)
    ensures Join(ByteOf(x, 0), ByteOf(x, 1), ByteOf(x, 2), ByteOf(x, 3)) == x
  {
  }

  lemma WordAtEncode(ws: seq<Word>, i: nat)
    requires i < |ws|
    ensures WordAt(Encode(ws), i) == ws[i]
  {
    hide Join, ByteOf;
    var bs := Encode(ws);
    forall k: nat | k < 4 ensures bs[4 * i + k] == ByteOf(ws[i], k) {
      assert (4 * i + k) / 4 == i && (4 * i + k) % 4 == k;
    }
    assert bs[4 * i + 0] == ByteOf(ws[i], 0);
    WordBytes(ws[i]);
  }

  /** Words survive being written to bytes and read back. */
  lemma DecodeEncode(ws: seq<Word>)
    ensures Decode(Encode(ws)) == ws
  {
    hide WordAt, Encode;
    forall i | 0 <= i < |ws| ensures WordAt(Encode(ws), i) == ws[i] { WordAtEncode(ws, i); }
  }

  /** Overwrite part of a buffer: `memcpy` into it at `off`. */
  function Splice(buf: seq<Byte>, off: nat, src: seq<Byte>): (r: seq<Byte>)
    requires off + |src| <= |buf|
    ensures |r| == |buf|
    ensures forall i :: 0 <= i < |buf| ==> r[i] == if off <= i < off + |src| then src[i - off] else buf[i]
  {
    buf[..off] + src + buf[off + |src|..]
  }
}
