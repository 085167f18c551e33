/**
 * The GUID partition table of gen_gptable (section 5.3 of the UEFI specification): the 128-byte
 * entries, the 128-entry array with the BIOS boot partition in its last slot, the primary and backup
 * headers with their CRCs, the protective MBR entry, and the positioned writes of the output.
 * The CRC-32 routine is not part of this model: it is a parameter `crc`, the value gpt_crc32 stores.
 */
module Gpt {
  import opened Results
  import opened Bytes
  import Arith
  import opened Guids
  import opened Chs
  import opened Rounding
  import opened Layout
  import opened Disk
  import Mbr

  /** "EFI PART" read as a little-endian 64-bit number. */
  const Signature: u64 := 0x5452415020494645
  /** Revision 1.0. */
  const Revision: u32 := 0x0001_0000
  const HeaderSize: nat := 92
  const EntrySize: nat := 128
  const EntryCount: nat := 128
  /** The sectors taken by the entry array: 128 entries of 128 bytes. */
  const EntrySectors: nat := 32
  /** LBA 0 holds the protective MBR, LBA 1 the header, LBA 2..33 the entries. */
  const FirstUsable: nat := 34

  const NoGuid: Guid := seq(16, _ => 0)

  /** struct gpte: type GUID, partition GUID, first and last LBA, attributes and the UTF-16 name. */
  datatype Entry = Entry(typ: Guid, guid: Guid, start: u64, end: u64, attr: u64, name: seq<byte>) {
    predicate Valid() {
      |name| == 72
    }
  }

  /** An entry left as memset cleared it. */
  const Empty: Entry := Entry(NoGuid, NoGuid, 0, 0, 0, Zeros(72))

  /** Bytes 32..56 of an entry: first LBA, last LBA and attributes. */
  function EntryNumbers(e: Entry): (bs: seq<byte>)
    ensures |bs| == 24
    ensures bs[0..8] == LE(e.start, 8) && bs[8..16] == LE(e.end, 8) && bs[16..24] == LE(e.attr, 8)
  {
    var a, b, c := LE(e.start, 8), LE(e.end, 8), LE(e.attr, 8);
    Slices3(a, b, c);
    a + b + c
  }

  /** The entry's 128 bytes: the two GUIDs as stored, the numbers little-endian, then the name. */
  function EncodeEntry(e: Entry): (bs: seq<byte>)
    requires e.Valid()
    ensures |bs| == EntrySize
    ensures bs[0..16] == e.typ && bs[16..32] == e.guid && bs[32..56] == EntryNumbers(e) && bs[56..128] == e.name
  {
    var t: seq<byte>, g: seq<byte>, n := e.typ, e.guid, EntryNumbers(e);
    Slices4(t, g, n, e.name);
    t + g + n + e.name
  }

  function DecodeEntry(bs: seq<byte>): (e: Entry)
    requires |bs| == EntrySize
    ensures e.Valid()
  {
    Pow256Values();
    Entry(bs[0..16], bs[16..32], FromLE(bs[32..40]), FromLE(bs[40..48]), FromLE(bs[48..56]), bs[56..128])
  }

  lemma DecodeEncodeEntry(e: Entry)
    requires e.Valid()
    ensures DecodeEntry(EncodeEntry(e)) == e
  {
    var bs := EncodeEntry(e);
    var n := EntryNumbers(e);
    assert bs[32..40] == n[0..8] && bs[40..48] == n[8..16] && bs[48..56] == n[16..24];
    Pow256Values();
    FromLEOfLE(e.start, 8);
    FromLEOfLE(e.end, 8);
    FromLEOfLE(e.attr, 8);
  }

  lemma EncodeDecodeEntry(bs: seq<byte>)
    requires |bs| == EntrySize
    ensures EncodeEntry(DecodeEntry(bs)) == bs
  {
    var e := DecodeEntry(bs);
    LEOfFromLE(bs[32..40]);
    LEOfFromLE(bs[40..48]);
    LEOfFromLE(bs[48..56]);
    Split3(bs[32..56], 8, 16);
    assert EntryNumbers(e) == bs[32..56];
    Split4(bs, 16, 32, 56);
  }

  /** Slot i of a placed request: ESP for type 0xEF or the active slot, Basic Data otherwise. */
  function PartitionEntry(i: nat, p: Placement, q: Request, disk: Guid, active: int): (e: Entry)
    requires p.len > 0
    ensures e.Valid()
    ensures e.typ == EspType <==> q.typ == 0xEF || i + 1 == active
    ensures e.typ == EspType || e.typ == DataType
    ensures e.guid == Derive(disk, i)
    ensures e.start == U64(p.start) && e.end == U64(p.End() - 1) && e.attr == 0
  {
    EspBytes();
    DataBytes();
    assert EspType[0] != DataType[0];
    Entry(if q.typ == 0xEF || i + 1 == active then EspType else DataType, Derive(disk, i),
          U64(p.start), U64(p.End() - 1), 0, Zeros(72))
  }

  /** The last sector of the BIOS boot partition: one track, rounded up to the alignment if one is set. */
  function BiosEnd(geo: Geometry): (r: nat)
    requires geo.Valid()
    ensures r + 1 == Start(0, geo)
  {
    (if geo.kbAlign != 0 then RoundToKb(geo.sectors, geo.kbAlign) else geo.sectors) - 1
  }

  /** The BIOS boot entry gen_gptable puts in the last slot, over whatever was there. */
  function BiosEntry(geo: Geometry, disk: Guid): (e: Entry)
    requires geo.Valid()
    ensures e.Valid()
    ensures e.typ == BiosType && e.guid == Derive(disk, EntryCount - 1)
    ensures e.start == FirstUsable && e.end == U64(BiosEnd(geo))
  {
    Entry(BiosType, Derive(disk, EntryCount - 1), FirstUsable, U64(BiosEnd(geo)), 0, Zeros(72))
  }

  /** The 128 entries: the placed requests in their own slots, the BIOS entry in slot 127, the rest cleared. */
  function Entries(l: Layout, reqs: seq<Request>, geo: Geometry, disk: Guid, active: int): (es: seq<Entry>)
    requires geo.Valid() && |reqs| <= EntryCount && Sound(reqs, geo, l)
    ensures |es| == EntryCount
    ensures forall i :: 0 <= i < EntryCount ==> es[i].Valid()
  {
    seq(EntryCount, i requires 0 <= i < EntryCount =>
      if i == EntryCount - 1 then BiosEntry(geo, disk)
      else if i < |reqs| && l.slots[i].Placed? then PartitionEntry(i, l.slots[i].at, reqs[i], disk, active)
      else Empty)
  }

  /**
   * What slot i of the array holds: the BIOS entry in slot 127; below it, the entry of a placed
   * request, whose sectors are the placement's, or a cleared entry for a skipped or absent request.
   */
  lemma EntryAt(l: Layout, reqs: seq<Request>, geo: Geometry, disk: Guid, active: int, i: nat)
    requires geo.Valid() && |reqs| <= EntryCount && Sound(reqs, geo, l) && i < EntryCount
    ensures i == EntryCount - 1 ==> Entries(l, reqs, geo, disk, active)[i] == BiosEntry(geo, disk)
    ensures i < EntryCount - 1 && (i >= |reqs| || reqs[i].sizeKb == 0) ==> Entries(l, reqs, geo, disk, active)[i] == Empty
    ensures i < EntryCount - 1 && i < |reqs| && reqs[i].sizeKb != 0 ==>
      var e := Entries(l, reqs, geo, disk, active)[i];
      && e.guid == Derive(disk, i)
      && (e.typ == EspType <==> reqs[i].typ == 0xEF || i + 1 == active)
      && e.start == U64(l.slots[i].at.start)
      && e.end == U64(l.slots[i].at.End() - 1)
  {
  }

  /** A slot that holds an entry: the BIOS slot, or the slot of a request that was placed. */
  predicate Used(reqs: seq<Request>, i: nat) {
    i == EntryCount - 1 || (i < |reqs| && reqs[i].sizeKb != 0)
  }

  /** A used slot holds the GUID derived from the disk GUID and its slot number. */
  lemma EntryGuid(l: Layout, reqs: seq<Request>, geo: Geometry, disk: Guid, active: int, i: nat)
    requires geo.Valid() && |reqs| <= EntryCount && Sound(reqs, geo, l)
    requires i < EntryCount && Used(reqs, i)
    ensures Entries(l, reqs, geo, disk, active)[i].guid == Derive(disk, i)
  {
    EntryAt(l, reqs, geo, disk, active, i);
  }

  /** No two used slots share a partition GUID. */
  lemma GuidsDistinct(l: Layout, reqs: seq<Request>, geo: Geometry, disk: Guid, active: int, i: nat, j: nat)
    requires geo.Valid() && |reqs| <= EntryCount && Sound(reqs, geo, l)
    requires i < j < EntryCount && Used(reqs, i) && Used(reqs, j)
    ensures Entries(l, reqs, geo, disk, active)[i].guid != Entries(l, reqs, geo, disk, active)[j].guid
  {
    EntryGuid(l, reqs, geo, disk, active, i);
    EntryGuid(l, reqs, geo, disk, active, j);
    DeriveDistinct(disk, i, j);
  }

  /** The BIOS boot partition ends on the sector before the first placed partition. */
  lemma BiosAdjacent(l: Layout, reqs: seq<Request>, geo: Geometry, skipNull: bool, disk: Guid, active: int, i: nat)
    requires geo.Valid() && |reqs| <= EntryCount && i < |reqs|
    requires Plan(reqs, geo, skipNull) == Ok(l)
    requires reqs[i].sizeKb != 0 && forall j :: 0 <= j < i ==> reqs[j].sizeKb == 0
    requires BiosEnd(geo) < U64_LIMIT
    ensures Sound(reqs, geo, l)
    ensures Entries(l, reqs, geo, disk, active)[EntryCount - 1].end + 1 == l.slots[i].at.start
  {
    PlanSound(reqs, geo, skipNull);
    FirstStart(reqs, geo, skipNull, i);
    EntryAt(l, reqs, geo, disk, active, EntryCount - 1);
    assert BiosEntry(geo, disk).end == BiosEnd(geo);
  }

  /** The 16384 bytes of the entry array. */
  function EncodeEntries(es: seq<Entry>): (bs: seq<byte>)
    requires |es| == EntryCount && forall i :: 0 <= i < EntryCount ==> es[i].Valid()
    ensures |bs| == 16384
  {
    var parts := seq(EntryCount, i requires 0 <= i < EntryCount => EncodeEntry(es[i]));
    JoinLength(parts, EntrySize);
    Join(parts)
  }

  /** Entry i of the array is found at byte 128*i. */
  lemma EntriesAt(es: seq<Entry>, i: nat)
    requires |es| == EntryCount && forall j :: 0 <= j < EntryCount ==> es[j].Valid()
    requires i < EntryCount
    ensures DecodeEntry(EncodeEntries(es)[128 * i..128 * i + 128]) == es[i]
  {
    var parts := seq(EntryCount, j requires 0 <= j < EntryCount => EncodeEntry(es[j]));
    JoinAt(parts, EntrySize, i, 128 * i);
    DecodeEncodeEntry(es[i]);
  }

  // ----- the header -----

  /** struct gpth, all integer fields little-endian. */
  datatype Header = Header(
    signature: u64, revision: u32, size: u32, crc32: u32, reserved: u32,
    self: u64, alternate: u64, firstUsable: u64, lastUsable: u64,
    diskGuid: Guid, firstEntry: u64, entryCount: u32, entrySize: u32, entryCrc: u32)

  /** The first 16 bytes: signature, revision and header size. */
  function Magic(h: Header): (bs: seq<byte>)
    ensures |bs| == 16
    ensures bs[0..8] == LE(h.signature, 8) && bs[8..12] == LE(h.revision, 4) && bs[12..16] == LE(h.size, 4)
  {
    var x, y, z := LE(h.signature, 8), LE(h.revision, 4), LE(h.size, 4);
    Slices3(x, y, z);
    x + y + z
  }

  /** Bytes 16..24: the header CRC and the reserved word. */
  function Check(h: Header): (bs: seq<byte>)
    ensures |bs| == 8
    ensures bs[0..4] == LE(h.crc32, 4) && bs[4..8] == LE(h.reserved, 4)
  {
    var x, y := LE(h.crc32, 4), LE(h.reserved, 4);
    var bs := x + y;
    assert bs[0..4] == x && bs[4..8] == y;
    bs
  }

  /** Bytes 24..56: this header's LBA, the other header's LBA, the usable range. */
  function Lbas(h: Header): (bs: seq<byte>)
    ensures |bs| == 32
    ensures bs[0..8] == LE(h.self, 8) && bs[8..16] == LE(h.alternate, 8)
    ensures bs[16..24] == LE(h.firstUsable, 8) && bs[24..32] == LE(h.lastUsable, 8)
  {
    var w, x, y, z := LE(h.self, 8), LE(h.alternate, 8), LE(h.firstUsable, 8), LE(h.lastUsable, 8);
    Slices4(w, x, y, z);
    w + x + y + z
  }

  /** Bytes 72..92: where the entries are, how many, how large, and their CRC. */
  function Array(h: Header): (bs: seq<byte>)
    ensures |bs| == 20
    ensures bs[0..8] == LE(h.firstEntry, 8) && bs[8..12] == LE(h.entryCount, 4)
    ensures bs[12..16] == LE(h.entrySize, 4) && bs[16..20] == LE(h.entryCrc, 4)
  {
    var w, x, y, z := LE(h.firstEntry, 8), LE(h.entryCount, 4), LE(h.entrySize, 4), LE(h.entryCrc, 4);
    Slices4(w, x, y, z);
    w + x + y + z
  }

  /** The 92 header bytes the tool writes and checksums. */
  function EncodeHeader(h: Header): (bs: seq<byte>)
    ensures |bs| == HeaderSize
    ensures bs[0..16] == Magic(h) && bs[16..24] == Check(h) && bs[24..56] == Lbas(h)
    ensures bs[56..72] == h.diskGuid && bs[72..92] == Array(h)
  {
    var m, c, l, g: seq<byte>, a := Magic(h), Check(h), Lbas(h), h.diskGuid, Array(h);
    var front := m + c;
    Slices4(front, l, g, a);
    assert front[0..16] == m && front[16..24] == c;
    front + l + g + a
  }

  function DecodeHeader(bs: seq<byte>): (h: Header)
    requires |bs| == HeaderSize
  {
    Pow256Values();
    var m, c, l, a := bs[0..16], bs[16..24], bs[24..56], bs[72..92];
    Header(
      FromLE(m[0..8]), FromLE(m[8..12]), FromLE(m[12..16]), FromLE(c[0..4]), FromLE(c[4..8]),
      FromLE(l[0..8]), FromLE(l[8..16]), FromLE(l[16..24]), FromLE(l[24..32]),
      bs[56..72], FromLE(a[0..8]), FromLE(a[8..12]), FromLE(a[12..16]), FromLE(a[16..20]))
  }

  lemma DecodeEncodeHeader(h: Header)
    ensures DecodeHeader(EncodeHeader(h)) == h
  {
    var bs := EncodeHeader(h);
    var m, c, l, a := bs[0..16], bs[16..24], bs[24..56], bs[72..92];
    assert m == Magic(h) && c == Check(h) && l == Lbas(h) && a == Array(h);
    Pow256Values();
    FromLEOfLE(h.signature, 8);
    FromLEOfLE(h.revision, 4);
    FromLEOfLE(h.size, 4);
    FromLEOfLE(h.crc32, 4);
    FromLEOfLE(h.reserved, 4);
    FromLEOfLE(h.self, 8);
    FromLEOfLE(h.alternate, 8);
    FromLEOfLE(h.firstUsable, 8);
    FromLEOfLE(h.lastUsable, 8);
    FromLEOfLE(h.firstEntry, 8);
    FromLEOfLE(h.entryCount, 4);
    FromLEOfLE(h.entrySize, 4);
    FromLEOfLE(h.entryCrc, 4);
  }

  /** The header's CRC field holds the CRC of the header bytes taken with that field zero. */
  predicate CrcValid(h: Header, crc: seq<byte> -> u32) {
    h.crc32 == crc(EncodeHeader(h.(crc32 := 0)))
  }

  /** Set the CRC field: zero it, checksum the 92 bytes, store the result. */
  function Seal(h: Header, crc: seq<byte> -> u32): (s: Header)
    ensures CrcValid(s, crc)
    ensures s.(crc32 := h.crc32) == h
  {
    h.(crc32 := crc(EncodeHeader(h.(crc32 := 0))))
  }

  /** Sealing is idempotent: an already valid header is left as it is. */
  lemma SealValid(h: Header, crc: seq<byte> -> u32)
    requires CrcValid(h, crc)
    ensures Seal(h, crc) == h
  {
  }

  /**
   * The primary header at LBA 1 of a disk whose last sector is `end`: the backup at `end`, usable
   * sectors from 34 up to the sector before the backup entries, the entries at LBA 2, the disk GUID,
   * and both CRCs.
   */
  function Primary(disk: Guid, end: nat, entryCrc: u32, crc: seq<byte> -> u32): (h: Header)
    ensures CrcValid(h, crc)
    ensures h.signature == Signature && h.revision == Revision && h.size == HeaderSize && h.reserved == 0
    ensures h.self == 1 && h.alternate == U64(end) && h.firstEntry == 2
    ensures h.firstUsable == FirstUsable && h.lastUsable == U64(end - EntrySectors - 1)
    ensures h.entryCount == EntryCount && h.entrySize == EntrySize && h.entryCrc == entryCrc && h.diskGuid == disk
  {
    Seal(Header(Signature, Revision, HeaderSize, 0, 0, 1, U64(end), FirstUsable, U64(end - EntrySectors - 1),
                disk, 2, EntryCount, EntrySize, entryCrc), crc)
  }

  /** The backup header at LBA `end`: self and alternate swapped, the entries 32 sectors before it, CRC redone. */
  function Backup(h: Header, end: nat, crc: seq<byte> -> u32): (b: Header)
    ensures CrcValid(b, crc)
    ensures b.self == h.alternate && b.alternate == h.self && b.firstEntry == U64(end - EntrySectors)
    ensures b.(self := h.self, alternate := h.alternate, firstEntry := h.firstEntry, crc32 := h.crc32) == h
  {
    Seal(h.(self := h.alternate, alternate := h.self, firstEntry := U64(end - EntrySectors)), crc)
  }

  /** The low four bytes of the signature, "EFI ". */
  lemma SignatureLow()
    ensures LE(Signature, 8) == [0x45, 0x46, 0x49, 0x20] + LE(0x54524150, 4)
  {
    LEStep(0x5452415020494645, 8);
    LEStep(0x54524150204946, 7);
    LEStep(0x545241502049, 6);
    LEStep(0x5452415020, 5);
  }

  /** The high four bytes, "PART". */
  lemma SignatureHigh()
    ensures LE(0x54524150, 4) == [0x50, 0x41, 0x52, 0x54]
  {
    LEStep(0x54524150, 4);
    LEStep(0x545241, 3);
    LEStep(0x5452, 2);
    LEStep(0x54, 1);
  }

  lemma SignatureBytes()
    ensures LE(Signature, 8) == [0x45, 0x46, 0x49, 0x20, 0x50, 0x41, 0x52, 0x54]
  {
    SignatureLow();
    SignatureHigh();
  }

  /** The signature is stored as the ASCII text "EFI PART". */
  lemma SignatureText(h: Header)
    requires h.signature == Signature
    ensures EncodeHeader(h)[0..8] == [0x45, 0x46, 0x49, 0x20, 0x50, 0x41, 0x52, 0x54]
  {
    var m := Magic(h);
    var bs := EncodeHeader(h);
    assert bs[0..8] == m[0..8];
    SignatureBytes();
  }

  /** A partition placed before the cursor lies in the usable range of a disk ending one track past it. */
  lemma InsideUsable(p: Placement, cursor: nat, geo: Geometry)
    requires geo.Valid() && geo.sectors >= FirstUsable
    requires p.len > 0 && p.start >= geo.sectors && p.End() <= cursor
    requires cursor + geo.sectors < U64_LIMIT
    ensures FirstUsable <= p.start
    ensures p.End() - 1 <= Primary(NoGuid, cursor + geo.sectors - 1, 0, _ => 0).lastUsable
  {
  }

  /**
   * With fewer than 34 sectors per track and no alignment, the first partition starts at LBA
   * `sectors`: inside the header and entry array area, below first_usable.
   */
  lemma ShortTrackStart(reqs: seq<Request>, geo: Geometry, skipNull: bool, i: nat)
    requires geo.Valid() && geo.kbAlign == 0 && geo.sectors < FirstUsable
    requires i < |reqs| && Plan(reqs, geo, skipNull).Ok?
    requires reqs[i].sizeKb != 0 && forall j :: 0 <= j < i ==> reqs[j].sizeKb == 0
    ensures Plan(reqs, geo, skipNull).value.slots[i].Placed?
    ensures Plan(reqs, geo, skipNull).value.slots[i].at.start == geo.sectors < FirstUsable
  {
    FirstStart(reqs, geo, skipNull, i);
  }

  /** The smallest such case: 4 heads, 32 sectors, one 64 KB partition starting at LBA 32, in the entry array. */
  lemma ShortTrackExample()
    ensures Plan([Request(64, 0x83)], Geometry(4, 32, 0), false).Ok?
    ensures Plan([Request(64, 0x83)], Geometry(4, 32, 0), false).value.slots[0].at.start == 32
    ensures 2 <= 32 < FirstUsable
  {
    CylinderExample();
  }

  // ----- the protective MBR and the writes -----

  /**
   * The single MBR entry of a GPT disk: type 0xEE from LBA 1 to `end`, its length truncated to 32
   * bits. The boot flag is never set by the tool, so its value is a parameter here.
   */
  function Protective(end: nat, geo: Geometry, flag: byte): (e: Mbr.Entry)
    requires geo.Valid()
    ensures e.Valid() && e.typ == 0xEE && e.start == 1 && e.length == U32(end) && e.active == flag
    ensures e.chsStart == ToChs(1, geo.heads, geo.sectors) && e.chsEnd == ToChs(end, geo.heads, geo.sectors)
  {
    Mbr.Entry(flag, ToChs(1, geo.heads, geo.sectors), 0xEE, ToChs(end, geo.heads, geo.sectors), 1, U32(end))
  }

  /** Encoded tables of the sizes the tool writes. */
  predicate Sized(pmbr: seq<byte>, primary: seq<byte>, entries: seq<byte>, backup: seq<byte>) {
    |pmbr| == 16 && |primary| == HeaderSize && |entries| == 16384 && |backup| == HeaderSize
  }

  /**
   * The eight writes of gen_gptable, in order: signature, protective entry and boot mark in sector 0,
   * the primary header at 512 and the entries at 1024, then the backup entries, the backup header at
   * the last sector `end`, and a zero byte ending that sector. The tables come in already encoded.
   */
  function Writes(signature: u32, pmbr: seq<byte>, primary: seq<byte>, entries: seq<byte>, backup: seq<byte>, end: nat): (ws: seq<Write>)
    ensures |ws| == 8
    ensures ws[1].data == pmbr && ws[3].data == primary && ws[4].data == ws[5].data == entries && ws[6].data == backup
    ensures Sized(pmbr, primary, entries, backup) && end >= 66 ==> Ascending(ws)
    ensures ws[7].Stop() == (end + 1) * 512
  {
    var at := end * 512;
    [ Write(440, LE(signature, 4)), Write(446, pmbr), Write(510, [0x55, 0xAA]),
      Write(512, primary), Write(1024, entries),
      Write(at - 16384, entries), Write(at, backup), Write(at + 511, [0]) ]
  }

  /**
   * From a last sector of 66 on, the backup entries clear the primary ones, the writes are in ascending
   * order, and the file ends with sector `end`.
   */
  lemma WritesAscending(signature: u32, pmbr: seq<byte>, primary: seq<byte>, entries: seq<byte>, backup: seq<byte>, end: nat)
    requires Sized(pmbr, primary, entries, backup)
    requires end >= 66
    ensures Ascending(Writes(signature, pmbr, primary, entries, backup, end))
    ensures |Image(Writes(signature, pmbr, primary, entries, backup, end))| == (end + 1) * 512
  {
    assert end * 512 >= 33792;
  }

  /** Below 66 the two entry arrays overlap. */
  lemma WritesOverlap(signature: u32, pmbr: seq<byte>, primary: seq<byte>, entries: seq<byte>, backup: seq<byte>, end: nat)
    requires Sized(pmbr, primary, entries, backup)
    requires end < 66
    ensures !Ascending(Writes(signature, pmbr, primary, entries, backup, end))
  {
    var ws := Writes(signature, pmbr, primary, entries, backup, end);
    assert ws[4] == Write(1024, entries) && ws[5] == Write(end * 512 - 16384, entries);
  }

  /** Each table reads back from the file at the offset it was written to. */
  lemma WritesRead(signature: u32, pmbr: seq<byte>, primary: seq<byte>, entries: seq<byte>, backup: seq<byte>, end: nat)
    requires Sized(pmbr, primary, entries, backup)
    requires end >= 66
    ensures var img, at := Image(Writes(signature, pmbr, primary, entries, backup, end)), end * 512;
      && |img| == at + 512
      && img[440..444] == LE(signature, 4) && img[446..462] == pmbr && img[510..512] == [0x55, 0xAA]
      && img[512..604] == primary && img[1024..17408] == entries
      && img[at - 16384..at] == entries && img[at..at + 92] == backup
  {
    var ws := Writes(signature, pmbr, primary, entries, backup, end);
    WritesAscending(signature, pmbr, primary, entries, backup, end);
    ReadBack(ws, 0);
    ReadBack(ws, 1);
    ReadBack(ws, 2);
    ReadBack(ws, 3);
    ReadBack(ws, 4);
    ReadBack(ws, 5);
    ReadBack(ws, 6);
  }

  /** The encodings gen_gptable writes, from the tables they encode. */
  function Encoded(signature: u32, pmbr: Mbr.Entry, primary: Header, es: seq<Entry>, backup: Header, end: nat): (ws: seq<Write>)
    requires pmbr.Valid() && |es| == EntryCount && forall i :: 0 <= i < EntryCount ==> es[i].Valid()
    ensures end >= 66 ==> Ascending(ws)
  {
    Writes(signature, Mbr.Encode(pmbr), EncodeHeader(primary), EncodeEntries(es), EncodeHeader(backup), end)
  }

  /** A header found encoded at byte `at` of a file reads back from there. */
  lemma HeaderAt(img: seq<byte>, at: nat, h: Header)
    requires at + HeaderSize <= |img| && img[at..at + 92] == EncodeHeader(h)
    ensures DecodeHeader(img[at..at + 92]) == h
  {
    DecodeEncodeHeader(h);
  }

  /**
   * An encoded array that ends at byte `at` of the file holds entry i 128*i bytes after its start:
   * the primary copy ends at 17408, the backup copy at end*512.
   */
  lemma ArrayEntry(img: seq<byte>, es: seq<Entry>, at: nat, i: nat)
    requires |es| == EntryCount && forall j :: 0 <= j < EntryCount ==> es[j].Valid()
    requires 16384 <= at <= |img| && img[at - 16384..at] == EncodeEntries(es) && i < EntryCount
    ensures DecodeEntry(img[at - 16384 + 128 * i..at - 16384 + 128 * i + 128]) == es[i]
  {
    EntryWithin(img, at - 16384, at, es, i, 128 * i);
  }

  /** An entry array found at `off` holds entry i at off + 128*i. */
  lemma EntryWithin(img: seq<byte>, off: nat, hi: nat, es: seq<Entry>, i: nat, lo: nat)
    requires |es| == EntryCount && forall j :: 0 <= j < EntryCount ==> es[j].Valid()
    requires i < EntryCount && lo == 128 * i
    requires off + 16384 == hi <= |img| && img[off..hi] == EncodeEntries(es)
    ensures DecodeEntry(img[off + lo..off + lo + 128]) == es[i]
  {
    var ent := EncodeEntries(es);
    assert lo + 128 <= 16384 by {
      Arith.MulLe(128, i, 127);
    }
    assert img[off + lo..off + lo + 128] == ent[lo..lo + 128] by {
      SliceWithin(img, off, ent, lo, lo + 128);
    }
    EntriesAt(es, i);
  }
}
