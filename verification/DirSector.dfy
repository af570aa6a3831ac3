/** The 24 bytes of a directory entry, and the 21 entries of a sector. */
module DirSectors {
  import opened Disks
  import opened Directories

  /** Length of the name field. */
  const NAME := 16

  predicate NameFits(name: string) { |name| < NAME && forall i :: 0 <= i < |name| ==> 0 < name[i] as int < 256 }

  /** What `struct dir_entry` can hold, with the zero that ends the name. */
  predicate EntryFits(e: Entry) { NameFits(e.name) && e.no < 0x1_0000_0000 && e.ftype < 0x1_0000_0000 }

  /** The name field: the characters and then zeros. */
  function NameBytes(name: string): (bs: seq<Byte>)
    requires NameFits(name)
    ensures |bs| == NAME && forall i :: 0 <= i < NAME ==> bs[i] == if i < |name| then name[i] as int else 0
  {
    seq<Byte>(NAME, i requires 0 <= i < NAME => CharAt(name, i))
  }

  function CharAt(name: string, i: nat): Byte
    requires NameFits(name)
  {
    if i < |name| then name[i] as int else 0
  }

  /** The characters before the first zero. */
  function CString(bs: seq<Byte>): (s: string)
    ensures |s| <= |bs|
  {
    if bs == [] || bs[0] == 0 then "" else [bs[0] as char] + CString(bs[1..])
  }

  lemma {:induction false} CStringOf(bs: seq<Byte>, name: string)
    requires |name| < |bs| && bs[|name|] == 0
    requires forall i :: 0 <= i < |name| ==> 0 < name[i] as int < 256 && bs[i] == name[i] as int
    ensures CString(bs) == name
  {
    if name != "" {
      CStringOf(bs[1..], name[1..]);
      assert [name[0]] + name[1..] == name;
    }
  }

  function EntryBytes(e: Entry): (bs: seq<Byte>)
    requires EntryFits(e)
    ensures |bs| == ENTRY
  {
    NameBytes(e.name) + Encode([e.no, e.ftype])
  }

  function BytesEntry(bs: seq<Byte>): (e: Entry)
    requires |bs| == ENTRY
  {
    var ws := Decode(bs[NAME..]);
    Entry(CString(bs[..NAME]), ws[0], ws[1])
  }

  /** An entry survives being written and read back. */
  lemma EntryRound(e: Entry)
    requires EntryFits(e)
    ensures BytesEntry(EntryBytes(e)) == e
  {
    hide Encode, Decode, NameBytes, CString;
    var ws: seq<Word> := [e.no, e.ftype];
    var bs := EntryBytes(e);
    assert bs[..NAME] == NameBytes(e.name) && bs[NAME..] == Encode(ws);
    CStringOf(NameBytes(e.name), e.name);
    DecodeEncode(ws);
  }

  /** The slots of a sector. */
  function Unpack(s: Sector): (es: seq<Entry>)
    ensures |es| == PER_BLOCK
  {
    seq(PER_BLOCK, i requires 0 <= i < PER_BLOCK => BytesEntry(SlotBytes(s, i)))
  }

  function SlotBytes(s: Sector, i: nat): (bs: seq<Byte>)
    requires i < PER_BLOCK
    ensures |bs| == ENTRY
  {
    s[ENTRY * i..ENTRY * i + ENTRY]
  }

  /** The sector with slot `j` overwritten. */
  function WithEntry(s: Sector, j: nat, e: Entry): Sector
    requires j < PER_BLOCK && EntryFits(e)
  {
    Splice(s, ENTRY * j, EntryBytes(e))
  }

  /** Overwriting the bytes of a slot changes that slot and no other. */
  lemma UnpackWith(s: Sector, j: nat, e: Entry)
    requires j < PER_BLOCK && EntryFits(e)
    ensures Unpack(WithEntry(s, j, e)) == Unpack(s)[j := e]
  {
    hide BytesEntry, EntryBytes;
    EntryRound(e);
    forall i: nat | i < PER_BLOCK
      ensures SlotBytes(WithEntry(s, j, e), i) == if i == j then EntryBytes(e) else SlotBytes(s, i)
    {
      SlotApart(s, j, e, i);
    }
  }

  lemma SlotApart(s: Sector, j: nat, e: Entry, i: nat)
    requires j < PER_BLOCK && EntryFits(e) && i < PER_BLOCK
    ensures SlotBytes(WithEntry(s, j, e), i) == if i == j then EntryBytes(e) else SlotBytes(s, i)
  {
    hide EntryBytes, Splice;
    var r, src := WithEntry(s, j, e), EntryBytes(e);
    forall k | 0 <= k < ENTRY
      ensures SlotBytes(r, i)[k] == if i == j then src[k] else SlotBytes(s, i)[k]
    {
      assert SlotBytes(r, i)[k] == r[ENTRY * i + k] && SlotBytes(s, i)[k] == s[ENTRY * i + k];
    }
    assert i == j ==> SlotBytes(r, i) == src;
    assert i != j ==> SlotBytes(r, i) == SlotBytes(s, i);
  }

  /** The free entry is 24 zeros: what `memset` leaves of a deleted one. */
  lemma EmptyBytes()
    ensures EntryBytes(EMPTY) == seq<Byte>(ENTRY, _ => 0)
  {
    var ws: seq<Word> := [0, 0];
    forall j | 0 <= j < 8 ensures Encode(ws)[j] == 0 { ZeroByte(ws, j); }
    hide Encode, NameBytes;
  }

  lemma ZeroByte(ws: seq<Word>, j: nat)
    requires ws == [0, 0] && j < 8
    ensures Encode(ws)[j] == 0
  {
    assert ws[j / 4] == 0;
  }

  /** A sector of zeros has free slots only. */
  lemma UnpackZero()
    ensures Unpack(ZERO_SECTOR) == seq(PER_BLOCK, _ => EMPTY)
  {
    hide BytesEntry, EntryBytes;
    EmptyBytes();
    EntryRound(EMPTY);
    forall i: nat | i < PER_BLOCK ensures SlotBytes(ZERO_SECTOR, i) == EntryBytes(EMPTY) {}
  }
}
