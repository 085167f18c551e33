/**
 * The legacy MBR of gen_ptable: the 16-byte partition entry, the four entries filled from the plan,
 * and the first sector of the output, which holds the disk signature, the table and the 55 AA mark.
 */
module Mbr {
  import opened Bytes
  import opened Chs
  import opened Layout
  import opened Disk

  /** The legacy table has four entries. */
  const MaxEntries: nat := 4

  /** struct pte: boot flag, CHS of the first sector, type, CHS of the last sector, start and length in sectors. */
  datatype Entry = Entry(active: byte, chsStart: seq<byte>, typ: byte, chsEnd: seq<byte>, start: u32, length: u32) {
    predicate Valid() {
      |chsStart| == 3 && |chsEnd| == 3
    }
  }

  /** An entry left as memset cleared it. */
  const Empty: Entry := Entry(0, [0, 0, 0], 0, [0, 0, 0], 0, 0)

  /** The entry's 16 bytes, the two 32-bit fields little-endian. */
  function Encode(e: Entry): (bs: seq<byte>)
    requires e.Valid()
    ensures |bs| == 16
    ensures bs[0] == e.active && bs[1..4] == e.chsStart && bs[4] == e.typ && bs[5..8] == e.chsEnd
    ensures bs[8..12] == LE(e.start, 4) && bs[12..16] == LE(e.length, 4)
  {
    var x, y := LE(e.start, 4), LE(e.length, 4);
    var bs := [e.active] + e.chsStart + [e.typ] + e.chsEnd + x + y;
    assert bs[8..12] == x && bs[12..16] == y;
    bs
  }

  function Decode(bs: seq<byte>): (e: Entry)
    requires |bs| == 16
    ensures e.Valid()
  {
    Pow256Values();
    Entry(bs[0], bs[1..4], bs[4], bs[5..8], FromLE(bs[8..12]), FromLE(bs[12..16]))
  }

  lemma DecodeEncode(e: Entry)
    requires e.Valid()
    ensures Decode(Encode(e)) == e
  {
    Pow256Values();
    FromLEOfLE(e.start, 4);
    FromLEOfLE(e.length, 4);
  }

  lemma EncodeDecode(bs: seq<byte>)
    requires |bs| == 16
    ensures Encode(Decode(bs)) == bs
  {
    var e := Decode(bs);
    LEOfFromLE(bs[8..12]);
    LEOfFromLE(bs[12..16]);
    SameFields(Encode(e), bs);
  }

  /** Two 16-byte strings that agree field by field are equal. */
  lemma SameFields(a: seq<byte>, b: seq<byte>)
    requires |a| == 16 && |b| == 16
    requires a[0] == b[0] && a[1..4] == b[1..4] && a[4] == b[4] && a[5..8] == b[5..8]
    requires a[8..12] == b[8..12] && a[12..16] == b[12..16]
    ensures a == b
  {
    forall k | 0 <= k < 16
      ensures a[k] == b[k]
    {
      if 1 <= k < 4 {
        assert a[k] == a[1..4][k - 1] && b[k] == b[1..4][k - 1];
      } else if 5 <= k < 8 {
        assert a[k] == a[5..8][k - 5] && b[k] == b[5..8][k - 5];
      } else if 8 <= k < 12 {
        assert a[k] == a[8..12][k - 8] && b[k] == b[8..12][k - 8];
      } else if 12 <= k {
        assert a[k] == a[12..16][k - 12] && b[k] == b[12..16][k - 12];
      }
    }
  }

  /** A cleared entry is sixteen zero bytes. */
  lemma EmptyIsZero()
    ensures Encode(Empty) == Zeros(16)
  {
    var bs := Encode(Empty);
    assert LE(0, 4) == [0, 0, 0, 0];
    assert bs == [0, 0, 0, 0, 0, 0, 0, 0] + LE(0, 4) + LE(0, 4);
  }

  /**
   * The entry gen_ptable writes for slot i: cleared when the request was skipped, otherwise the boot
   * flag 0x80 exactly when i+1 is the active slot, the request's type, and the start and length of the
   * placement truncated to 32 bits, with the CHS addresses of its first and last sector.
   */
  function LegacyEntry(i: nat, slot: Slot, q: Request, geo: Geometry, active: int): (e: Entry)
    requires geo.Valid()
    requires slot.Placed? ==> slot.at.End() > 0
    ensures e.Valid()
    ensures e.active == 0x80 <==> slot.Placed? && i + 1 == active
    ensures e.active == 0 || e.active == 0x80
    ensures slot.Skipped? ==> e == Empty
    ensures slot.Placed? ==> e.typ == q.typ && e.start == U32(slot.at.start) && e.length == U32(slot.at.len)
  {
    match slot
    case Skipped => Empty
    case Placed(p) =>
      Entry(if i + 1 == active then 0x80 else 0, ToChs(p.start, geo.heads, geo.sectors), q.typ,
            ToChs(p.End() - 1, geo.heads, geo.sectors), U32(p.start), U32(p.len))
  }

  /**
   * Below cylinder 1024, with at most 256 heads and 63 sectors per track, the CHS fields of an entry
   * decode to its first and last sector.
   */
  lemma LegacyEntryChs(i: nat, p: Placement, q: Request, geo: Geometry, active: int)
    requires geo.Valid() && geo.heads <= 256 && geo.sectors <= 63
    requires p.len > 0 && p.End() - 1 < 1024 * geo.heads * geo.sectors
    ensures Linear(Unpack(LegacyEntry(i, Placed(p), q, geo, active).chsStart), geo.heads, geo.sectors) == p.start
    ensures Linear(Unpack(LegacyEntry(i, Placed(p), q, geo, active).chsEnd), geo.heads, geo.sectors) == p.End() - 1
  {
    var e := LegacyEntry(i, Placed(p), q, geo, active);
    assert e.chsStart == ToChs(p.start, geo.heads, geo.sectors);
    assert e.chsEnd == ToChs(p.End() - 1, geo.heads, geo.sectors);
    ToChsLinear(p.start, geo.heads, geo.sectors);
    ToChsLinear(p.End() - 1, geo.heads, geo.sectors);
  }

  /** The four entries of gen_ptable; slots past the requests stay cleared. */
  function Table(l: Layout, reqs: seq<Request>, geo: Geometry, active: int): (t: seq<Entry>)
    requires geo.Valid() && |reqs| <= 4 && Sound(reqs, geo, l)
    ensures |t| == 4
    ensures forall i :: 0 <= i < 4 ==> t[i].Valid()
    ensures forall i :: |reqs| <= i < 4 ==> t[i] == Empty
  {
    seq(4, i requires 0 <= i < 4 =>
      if i < |reqs| then LegacyEntry(i, l.slots[i], reqs[i], geo, active) else Empty)
  }

  /** At most one entry carries the boot flag, and it is the active slot's, when that slot was placed. */
  lemma OneActive(l: Layout, reqs: seq<Request>, geo: Geometry, active: int, i: nat)
    requires geo.Valid() && |reqs| <= 4 && Sound(reqs, geo, l) && i < 4
    ensures Table(l, reqs, geo, active)[i].active == 0x80 <==> i + 1 == active && i < |reqs| && reqs[i].sizeKb != 0
    ensures Table(l, reqs, geo, active)[i].active != 0x80 ==> Table(l, reqs, geo, active)[i].active == 0
  {
  }

  /** The 64 bytes of the four entries, in order. */
  function EncodeTable(t: seq<Entry>): (bs: seq<byte>)
    requires |t| == 4 && forall i :: 0 <= i < 4 ==> t[i].Valid()
    ensures |bs| == 64
  {
    var parts := seq(4, i requires 0 <= i < 4 => Encode(t[i]));
    JoinLength(parts, 16);
    Join(parts)
  }

  /** Entry i of the table is found at byte 16*i. */
  lemma TableAt(t: seq<Entry>, i: nat)
    requires |t| == 4 && forall j :: 0 <= j < 4 ==> t[j].Valid()
    requires i < 4
    ensures EncodeTable(t)[16 * i..16 * i + 16] == Encode(t[i])
  {
    var parts := seq(4, j requires 0 <= j < 4 => Encode(t[j]));
    JoinAt(parts, 16, i, 16 * i);
  }

  /** The three writes of gen_ptable: the signature at 440, the table at 446 and 55 AA at 510. */
  function Writes(signature: u32, t: seq<Entry>): (ws: seq<Write>)
    requires |t| == 4 && forall i :: 0 <= i < 4 ==> t[i].Valid()
    ensures Ascending(ws)
  {
    [Write(440, LE(signature, 4)), Write(446, EncodeTable(t)), Write(510, [0x55, 0xAA])]
  }

  /** The boot sector those writes leave in the output. */
  function Sector(signature: u32, t: seq<Entry>): (img: seq<byte>)
    requires |t| == 4 && forall i :: 0 <= i < 4 ==> t[i].Valid()
    ensures |img| == 512
  {
    Image(Writes(signature, t))
  }

  /** Read the four entries back out of a boot sector. */
  function ReadTable(sector: seq<byte>): (t: seq<Entry>)
    requires |sector| == 512
    ensures |t| == 4 && forall i :: 0 <= i < 4 ==> t[i].Valid()
  {
    seq(4, i requires 0 <= i < 4 => Decode(sector[446 + 16 * i..462 + 16 * i]))
  }

  /** The sector holds the signature at 440 and the 55 AA boot mark at 510. */
  lemma SectorMarks(signature: u32, t: seq<Entry>)
    requires |t| == 4 && forall i :: 0 <= i < 4 ==> t[i].Valid()
    ensures FromLE(Sector(signature, t)[440..444]) == signature
    ensures Sector(signature, t)[510] == 0x55 && Sector(signature, t)[511] == 0xAA
  {
    var ws := Writes(signature, t);
    ReadBack(ws, 0);
    ReadBack(ws, 2);
    Pow256Values();
    FromLEOfLE(signature, 4);
    assert Sector(signature, t)[510..512] == [0x55, 0xAA];
  }

  /** Everything before the table other than the signature is zero. */
  lemma SectorZeros(signature: u32, t: seq<Entry>, k: nat)
    requires |t| == 4 && forall i :: 0 <= i < 4 ==> t[i].Valid()
    requires k < 440 || 444 <= k < 446
    ensures Sector(signature, t)[k] == 0
  {
    Hole(Writes(signature, t), k);
  }

  /** The table reads back unchanged from offset 446. */
  lemma SectorTable(signature: u32, t: seq<Entry>)
    requires |t| == 4 && forall i :: 0 <= i < 4 ==> t[i].Valid()
    ensures ReadTable(Sector(signature, t)) == t
  {
    var img := Sector(signature, t);
    ReadBack(Writes(signature, t), 1);
    forall i | 0 <= i < 4
      ensures ReadTable(img)[i] == t[i]
    {
      EntryAt(img, t, i);
    }
  }

  /** Entry i of a table laid at byte 446 decodes from bytes 446+16i to 462+16i. */
  lemma EntryAt(img: seq<byte>, t: seq<Entry>, i: nat)
    requires |t| == 4 && forall j :: 0 <= j < 4 ==> t[j].Valid()
    requires |img| == 512 && img[446..510] == EncodeTable(t) && i < 4
    ensures Decode(img[446 + 16 * i..462 + 16 * i]) == t[i]
  {
    assert img[446 + 16 * i..462 + 16 * i] == EncodeTable(t)[16 * i..16 * i + 16] by {
      SliceWithin(img, 446, EncodeTable(t), 16 * i, 16 * i + 16);
    }
    TableAt(t, i);
    DecodeEncode(t[i]);
  }

  /** A sector with the signature at 440 and the 55 AA mark at 510 reads back that signature and mark. */
  lemma Marks(img: seq<byte>, signature: u32)
    requires |img| >= 512 && img[440..444] == LE(signature, 4) && img[510..512] == [0x55, 0xAA]
    ensures FromLE(img[440..444]) == signature && img[510] == 0x55 && img[511] == 0xAA
  {
    Pow256Values();
    FromLEOfLE(signature, 4);
    assert img[510..512][0] == img[510] && img[510..512][1] == img[511];
  }
}
