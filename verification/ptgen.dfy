/**
 * The tool end to end: main's settings select gen_ptable or gen_gptable, which plan the partitions,
 * print two lines per placed partition and write the tables into the output file. The CRC-32 routine
 * and the boot flag byte of the protective entry, which the tool never sets, are parameters.
 */
module Ptgen {
  import opened Results
  import opened Bytes
  import opened Layout
  import opened Disk
  import Mbr
  import Gpt
  import Options

  /** What a successful run leaves behind: the lines on stdout and the writes into the output file. */
  datatype Output = Output(lines: seq<nat>, writes: seq<Write>)

  /** Why a run fails: main rejected its options, or a partition had size zero while `-n` was off. */
  datatype Error = Rejected(why: Options.Failure) | BadSize(index: nat)

  // ----- gen_ptable -----

  /** gen_ptable: plan the partitions, then write the signature, the four entries and the boot mark. */
  function GenPtable(signature: u32, reqs: seq<Request>, geo: Geometry, skipNull: bool, active: int): (r: Result<Output, PlanError>)
    requires geo.Valid() && |reqs| <= Mbr.MaxEntries
    ensures r.Ok? <==> Plan(reqs, geo, skipNull).Ok?
    ensures r.Err? ==> r.error == Plan(reqs, geo, skipNull).error
    ensures r.Ok? ==> Ascending(r.value.writes) && |Image(r.value.writes)| == 512
    ensures r.Ok? ==> Unreport(r.value.lines) == Placements(Plan(reqs, geo, skipNull).value.slots)
    ensures r.Ok? ==> r.value.lines == Report(Placements(Plan(reqs, geo, skipNull).value.slots))
  {
    var l :- Plan(reqs, geo, skipNull);
    PlanSound(reqs, geo, skipNull);
    UnreportReport(Placements(l.slots));
    Ok(Output(Lines(l), Mbr.Writes(signature, Mbr.Table(l, reqs, geo, active))))
  }

  /** The file gen_ptable leaves is one sector whose table reads back as the entries built from the plan. */
  lemma PtableFile(signature: u32, reqs: seq<Request>, geo: Geometry, skipNull: bool, active: int)
    requires geo.Valid() && |reqs| <= Mbr.MaxEntries
    requires GenPtable(signature, reqs, geo, skipNull, active).Ok?
    ensures Plan(reqs, geo, skipNull).Ok? && Sound(reqs, geo, Plan(reqs, geo, skipNull).value)
    ensures var img := Image(GenPtable(signature, reqs, geo, skipNull, active).value.writes);
      && |img| == 512
      && Mbr.ReadTable(img) == Mbr.Table(Plan(reqs, geo, skipNull).value, reqs, geo, active)
      && FromLE(img[440..444]) == signature && img[510] == 0x55 && img[511] == 0xAA
  {
    var l := Plan(reqs, geo, skipNull).value;
    PlanSound(reqs, geo, skipNull);
    var t := Mbr.Table(l, reqs, geo, active);
    Mbr.SectorTable(signature, t);
    Mbr.SectorMarks(signature, t);
  }

  // ----- gen_gptable -----

  /** The tables of gen_gptable: protective MBR entry, primary header, entry array, backup header, last sector. */
  datatype Tables = Tables(pmbr: Mbr.Entry, primary: Gpt.Header, es: seq<Gpt.Entry>, backup: Gpt.Header, end: nat) {
    predicate Valid() {
      pmbr.Valid() && |es| == Gpt.EntryCount && forall i :: 0 <= i < Gpt.EntryCount ==> es[i].Valid()
    }
  }

  /**
   * The tables for a sound layout: the disk ends one track after the last partition; the primary
   * header points at the backup in the last sector and carries the CRC of the entry array; the backup
   * header points back at LBA 1 and at the backup array just before it; both headers carry a valid CRC.
   */
  function GptTables(l: Layout, reqs: seq<Request>, geo: Geometry, disk: Guid, active: int, crc: seq<byte> -> u32, flag: byte): (t: Tables)
    requires geo.Valid() && |reqs| <= Gpt.EntryCount && Sound(reqs, geo, l)
    ensures t.Valid()
    ensures t.end + 1 == l.cursor + geo.sectors
    ensures t.es == Gpt.Entries(l, reqs, geo, disk, active) && t.pmbr == Gpt.Protective(t.end, geo, flag)
    ensures t.primary.entryCrc == crc(Gpt.EncodeEntries(t.es)) && t.backup.entryCrc == t.primary.entryCrc
    ensures Gpt.CrcValid(t.primary, crc) && Gpt.CrcValid(t.backup, crc)
    ensures t.primary.self == 1 && t.primary.alternate == U64(t.end)
    ensures t.backup.self == t.primary.alternate && t.backup.alternate == t.primary.self
    ensures t.primary.firstEntry == 2 && t.backup.firstEntry == U64(t.end - Gpt.EntrySectors)
    ensures t.primary.diskGuid == disk && t.backup.diskGuid == disk
    ensures t.primary.firstUsable == t.backup.firstUsable && t.primary.lastUsable == t.backup.lastUsable
  {
    var end := l.cursor + geo.sectors - 1;
    var es := Gpt.Entries(l, reqs, geo, disk, active);
    var primary := Gpt.Primary(disk, end, crc(Gpt.EncodeEntries(es)), crc);
    Tables(Gpt.Protective(end, geo, flag), primary, es, Gpt.Backup(primary, end, crc), end)
  }

  /** The writes of gen_gptable for those tables. */
  function GptWrites(signature: u32, t: Tables): (ws: seq<Write>)
    requires t.Valid()
    ensures t.end >= 66 ==> Ascending(ws)
  {
    Gpt.Encoded(signature, t.pmbr, t.primary, t.es, t.backup, t.end)
  }

  /** gen_gptable: plan the partitions, build the tables and write them. */
  function GenGpt(signature: u32, disk: Guid, reqs: seq<Request>, geo: Geometry, skipNull: bool, active: int,
                  crc: seq<byte> -> u32, flag: byte): (r: Result<Output, PlanError>)
    requires geo.Valid() && |reqs| <= Gpt.EntryCount
    ensures r.Ok? <==> Plan(reqs, geo, skipNull).Ok?
    ensures r.Err? ==> r.error == Plan(reqs, geo, skipNull).error
    ensures r.Ok? ==> Unreport(r.value.lines) == Placements(Plan(reqs, geo, skipNull).value.slots)
    ensures r.Ok? ==> r.value.lines == Report(Placements(Plan(reqs, geo, skipNull).value.slots))
    ensures r.Ok? && Plan(reqs, geo, skipNull).value.cursor + geo.sectors >= 67 ==> Ascending(r.value.writes)
  {
    var l :- Plan(reqs, geo, skipNull);
    PlanSound(reqs, geo, skipNull);
    UnreportReport(Placements(l.slots));
    Ok(Output(Lines(l), GptWrites(signature, GptTables(l, reqs, geo, disk, active, crc, flag))))
  }

  /** Sector 0, the primary header at LBA 1 and the primary array from LBA 2, as gen_gptable writes them. */
  predicate LaidFront(img: seq<byte>, signature: u32, pm: seq<byte>, ph: seq<byte>, en: seq<byte>) {
    && |img| >= 17408
    && img[440..444] == LE(signature, 4) && img[446..462] == pm && img[510..512] == [0x55, 0xAA]
    && img[512..604] == ph && img[1024..17408] == en
  }

  /** The backup array just before the last sector `end` and the backup header in it, which ends the file. */
  predicate LaidBack(img: seq<byte>, en: seq<byte>, bh: seq<byte>, end: nat) {
    && end >= 66
    && |img| == (end + 1) * 512
    && img[end * 512 - 16384..end * 512] == en && img[end * 512..end * 512 + 92] == bh
  }

  /** The writes of gen_gptable lay out the front of any tables of the right sizes that way. */
  lemma WritesLaidFront(signature: u32, pm: seq<byte>, ph: seq<byte>, en: seq<byte>, bh: seq<byte>, end: nat)
    requires Gpt.Sized(pm, ph, en, bh) && end >= 66
    ensures LaidFront(Image(Gpt.Writes(signature, pm, ph, en, bh, end)), signature, pm, ph, en)
  {
    Gpt.WritesRead(signature, pm, ph, en, bh, end);
  }

  /** ... and the back. */
  lemma WritesLaidBack(signature: u32, pm: seq<byte>, ph: seq<byte>, en: seq<byte>, bh: seq<byte>, end: nat)
    requires Gpt.Sized(pm, ph, en, bh) && end >= 66
    ensures LaidBack(Image(Gpt.Writes(signature, pm, ph, en, bh, end)), en, bh, end)
  {
    Gpt.WritesRead(signature, pm, ph, en, bh, end);
  }

  /** Sector 0 of the file holds the signature, the protective entry of t and the boot mark. */
  predicate BootAt(img: seq<byte>, signature: u32, t: Tables) {
    && |img| >= 512
    && img[440..444] == LE(signature, 4) && Mbr.Decode(img[446..462]) == t.pmbr && img[510..512] == [0x55, 0xAA]
  }

  /** LBA 1 holds the primary header of t. */
  predicate PrimaryAt(img: seq<byte>, t: Tables) {
    |img| >= 604 && Gpt.DecodeHeader(img[512..604]) == t.primary
  }

  /** The last sector `end` holds the backup header of t and ends the file. */
  predicate BackupAt(img: seq<byte>, t: Tables) {
    t.end >= 66 && |img| == (t.end + 1) * 512 && Gpt.DecodeHeader(img[t.end * 512..t.end * 512 + 92]) == t.backup
  }

  /** The 16384 bytes before byte `at` hold the encoded entry array of t. */
  predicate ArrayAt(img: seq<byte>, at: nat, t: Tables)
    requires t.Valid()
  {
    16384 <= at <= |img| && img[at - 16384..at] == Gpt.EncodeEntries(t.es)
  }

  /** A file holding the tables t where gen_gptable puts them: the primary array ends at byte 17408, the backup array at the last sector. */
  predicate Holds(img: seq<byte>, signature: u32, t: Tables) {
    && t.Valid()
    && BootAt(img, signature, t) && PrimaryAt(img, t) && ArrayAt(img, 17408, t)
    && BackupAt(img, t) && ArrayAt(img, t.end * 512, t)
  }

  /** The writes for the tables, with the encodings named. */
  lemma WritesOfTables(signature: u32, t: Tables)
    requires t.Valid()
    ensures GptWrites(signature, t) ==
      Gpt.Writes(signature, Mbr.Encode(t.pmbr), Gpt.EncodeHeader(t.primary), Gpt.EncodeEntries(t.es), Gpt.EncodeHeader(t.backup), t.end)
  {
  }

  /** The writes lay out the encoded tables at the start of the file. */
  lemma FrontLaid(signature: u32, t: Tables)
    requires t.Valid() && t.end >= 66
    ensures LaidFront(Image(GptWrites(signature, t)), signature, Mbr.Encode(t.pmbr), Gpt.EncodeHeader(t.primary), Gpt.EncodeEntries(t.es))
  {
    var pm, ph, en, bh := Mbr.Encode(t.pmbr), Gpt.EncodeHeader(t.primary), Gpt.EncodeEntries(t.es), Gpt.EncodeHeader(t.backup);
    WritesOfTables(signature, t);
    WritesLaidFront(signature, pm, ph, en, bh, t.end);
  }

  /** The writes lay out the encoded backup tables at the end of the file. */
  lemma BackLaid(signature: u32, t: Tables)
    requires t.Valid() && t.end >= 66
    ensures LaidBack(Image(GptWrites(signature, t)), Gpt.EncodeEntries(t.es), Gpt.EncodeHeader(t.backup), t.end)
  {
    var pm, ph, en, bh := Mbr.Encode(t.pmbr), Gpt.EncodeHeader(t.primary), Gpt.EncodeEntries(t.es), Gpt.EncodeHeader(t.backup);
    WritesOfTables(signature, t);
    WritesLaidBack(signature, pm, ph, en, bh, t.end);
  }

  /** An encoded protective entry laid out in sector 0 reads back as the entry. */
  lemma BootOfLaid(img: seq<byte>, signature: u32, t: Tables, ph: seq<byte>, en: seq<byte>)
    requires t.Valid() && LaidFront(img, signature, Mbr.Encode(t.pmbr), ph, en)
    ensures BootAt(img, signature, t)
  {
    Mbr.DecodeEncode(t.pmbr);
  }

  /** An encoded primary header laid out at LBA 1 reads back as the header. */
  lemma PrimaryOfLaid(img: seq<byte>, signature: u32, t: Tables, pm: seq<byte>, en: seq<byte>)
    requires LaidFront(img, signature, pm, Gpt.EncodeHeader(t.primary), en)
    ensures PrimaryAt(img, t)
  {
    Gpt.HeaderAt(img, 512, t.primary);
  }

  /** An encoded backup header laid out in the last sector reads back as the header. */
  lemma BackupOfLaid(img: seq<byte>, t: Tables, en: seq<byte>)
    requires LaidBack(img, en, Gpt.EncodeHeader(t.backup), t.end)
    ensures BackupAt(img, t)
  {
    Gpt.HeaderAt(img, t.end * 512, t.backup);
  }

  /** From a last sector of 66 on, the file of the writes holds the tables. */
  lemma WritesHold(signature: u32, t: Tables)
    requires t.Valid() && t.end >= 66
    ensures Holds(Image(GptWrites(signature, t)), signature, t)
  {
    var img := Image(GptWrites(signature, t));
    var pm, ph, en, bh := Mbr.Encode(t.pmbr), Gpt.EncodeHeader(t.primary), Gpt.EncodeEntries(t.es), Gpt.EncodeHeader(t.backup);
    FrontLaid(signature, t);
    BootOfLaid(img, signature, t, ph, en);
    PrimaryOfLaid(img, signature, t, pm, en);
    BackLaid(signature, t);
    BackupOfLaid(img, t, en);
  }

  /** Sector 0 reads back the signature and the boot mark. */
  lemma GptBoot(img: seq<byte>, signature: u32, t: Tables)
    requires BootAt(img, signature, t)
    ensures FromLE(img[440..444]) == signature
    ensures img[510] == 0x55 && img[511] == 0xAA
  {
    Mbr.Marks(img, signature);
  }

  /** The header at LBA 1 carries a valid CRC and the CRC of the array at LBA 2 as the file holds it. */
  lemma PrimaryCrc(img: seq<byte>, t: Tables, crc: seq<byte> -> u32)
    requires t.Valid() && PrimaryAt(img, t) && ArrayAt(img, 17408, t)
    requires Gpt.CrcValid(t.primary, crc) && t.primary.entryCrc == crc(Gpt.EncodeEntries(t.es))
    ensures Gpt.CrcValid(Gpt.DecodeHeader(img[512..604]), crc)
    ensures Gpt.DecodeHeader(img[512..604]).entryCrc == crc(img[1024..17408])
  {
  }

  /** The header in the last sector carries a valid CRC and the CRC of the backup array as the file holds it. */
  lemma BackupCrc(img: seq<byte>, t: Tables, crc: seq<byte> -> u32)
    requires t.Valid() && BackupAt(img, t) && ArrayAt(img, t.end * 512, t)
    requires Gpt.CrcValid(t.backup, crc) && t.backup.entryCrc == crc(Gpt.EncodeEntries(t.es))
    ensures Gpt.CrcValid(Gpt.DecodeHeader(img[t.end * 512..t.end * 512 + 92]), crc)
    ensures Gpt.DecodeHeader(img[t.end * 512..t.end * 512 + 92]).entryCrc == crc(img[t.end * 512 - 16384..t.end * 512])
  {
  }

  /** The backup array is byte for byte the primary one. */
  lemma ArraysAgree(img: seq<byte>, t: Tables)
    requires t.Valid() && ArrayAt(img, 17408, t) && ArrayAt(img, t.end * 512, t)
    ensures img[t.end * 512 - 16384..t.end * 512] == img[1024..17408]
  {
  }

  /** Entry i reads back from an array of the file, 128*i bytes after its start. */
  lemma EntryRead(img: seq<byte>, at: nat, t: Tables, i: nat)
    requires t.Valid() && ArrayAt(img, at, t) && i < Gpt.EntryCount
    ensures Gpt.DecodeEntry(img[at - 16384 + 128 * i..at - 16384 + 128 * i + 128]) == t.es[i]
  {
    Gpt.ArrayEntry(img, t.es, at, i);
  }

  // ----- main -----

  /** The geometry main passes on through its globals. */
  function Geo(s: Options.Settings): (geo: Geometry)
    requires s.heads > 0 && s.sectors > 0
    ensures geo.Valid() && geo.heads == s.heads && geo.sectors == s.sectors && geo.kbAlign == s.kbAlign
  {
    Geometry(s.heads, s.sectors, s.kbAlign)
  }

  /** main: settle the options, then generate a GPT when `-g` was given and a legacy table otherwise. */
  function Run(opts: seq<Options.Opt>, operands: nat, crc: seq<byte> -> u32, flag: byte): (r: Result<Output, Error>)
    ensures Options.Settle(opts, operands).Err? ==> r == Err(Rejected(Options.Settle(opts, operands).error))
    ensures Options.Settle(opts, operands).Ok? ==>
      var s := Options.Settle(opts, operands).value;
      && (r.Ok? <==> Plan(s.parts, Geo(s), s.skipNull).Ok?)
      && (r.Err? ==> r.error == BadSize(Plan(s.parts, Geo(s), s.skipNull).error.index))
      && (r.Ok? ==> Unreport(r.value.lines) == Placements(Plan(s.parts, Geo(s), s.skipNull).value.slots))
      && (r.Ok? ==> r.value.lines == Report(Placements(Plan(s.parts, Geo(s), s.skipNull).value.slots)))
  {
    var s :- Options.Settle(opts, operands).MapFailure(f => Rejected(f));
    var geo := Geo(s);
    var out: Result<Output, PlanError> :=
      if s.gpt then GenGpt(s.signature, s.guid, s.parts, geo, s.skipNull, s.active, crc, flag)
      else GenPtable(s.signature, s.parts, geo, s.skipNull, s.active);
    out.MapFailure((e: PlanError) => BadSize(e.index))
  }

  /** A successful run is the output of the generator its settings select. */
  lemma RunDispatch(opts: seq<Options.Opt>, operands: nat, crc: seq<byte> -> u32, flag: byte, s: Options.Settings)
    requires Options.Settle(opts, operands) == Ok(s)
    requires Run(opts, operands, crc, flag).Ok?
    ensures s.gpt ==> GenGpt(s.signature, s.guid, s.parts, Geo(s), s.skipNull, s.active, crc, flag).Ok?
    ensures s.gpt ==> Run(opts, operands, crc, flag).value == GenGpt(s.signature, s.guid, s.parts, Geo(s), s.skipNull, s.active, crc, flag).value
    ensures !s.gpt ==> GenPtable(s.signature, s.parts, Geo(s), s.skipNull, s.active).Ok?
    ensures !s.gpt ==> Run(opts, operands, crc, flag).value == GenPtable(s.signature, s.parts, Geo(s), s.skipNull, s.active).value
  {
  }

  /** Without `-g` the output file is the legacy sector whose table holds the planned partitions. */
  lemma RunLegacy(opts: seq<Options.Opt>, operands: nat, crc: seq<byte> -> u32, flag: byte, s: Options.Settings, out: Output)
    requires Options.Settle(opts, operands) == Ok(s) && !s.gpt
    requires Run(opts, operands, crc, flag) == Ok(out)
    ensures |s.parts| <= Mbr.MaxEntries && Plan(s.parts, Geo(s), s.skipNull).Ok?
    ensures Sound(s.parts, Geo(s), Plan(s.parts, Geo(s), s.skipNull).value)
    ensures Ascending(out.writes)
    ensures Mbr.ReadTable(Image(out.writes)) == Mbr.Table(Plan(s.parts, Geo(s), s.skipNull).value, s.parts, Geo(s), s.active)
  {
    RunDispatch(opts, operands, crc, flag, s);
    PtableFile(s.signature, s.parts, Geo(s), s.skipNull, s.active);
  }

  /**
   * The file gen_gptable leaves, once the disk ends at sector 66 or later, holds the protective MBR,
   * both headers and both arrays built from the plan.
   */
  lemma GptOutput(signature: u32, disk: Guid, reqs: seq<Request>, geo: Geometry, skipNull: bool, active: int,
                  crc: seq<byte> -> u32, flag: byte)
    requires geo.Valid() && |reqs| <= Gpt.EntryCount
    requires Plan(reqs, geo, skipNull).Ok? && Plan(reqs, geo, skipNull).value.cursor + geo.sectors >= 67
    ensures Sound(reqs, geo, Plan(reqs, geo, skipNull).value)
    ensures GenGpt(signature, disk, reqs, geo, skipNull, active, crc, flag).Ok?
    ensures var t := GptTables(Plan(reqs, geo, skipNull).value, reqs, geo, disk, active, crc, flag);
      var ws := GenGpt(signature, disk, reqs, geo, skipNull, active, crc, flag).value.writes;
      Ascending(ws) && Holds(Image(ws), signature, t)
  {
    var l := Plan(reqs, geo, skipNull).value;
    PlanSound(reqs, geo, skipNull);
    WritesHold(signature, GptTables(l, reqs, geo, disk, active, crc, flag));
  }

  /** With `-g`, a disk ending at sector 66 or later receives those tables. */
  lemma RunGpt(opts: seq<Options.Opt>, operands: nat, crc: seq<byte> -> u32, flag: byte, s: Options.Settings, out: Output)
    requires Options.Settle(opts, operands) == Ok(s) && s.gpt
    requires Run(opts, operands, crc, flag) == Ok(out)
    requires Plan(s.parts, Geo(s), s.skipNull).Ok? && Plan(s.parts, Geo(s), s.skipNull).value.cursor + s.sectors >= 67
    ensures Sound(s.parts, Geo(s), Plan(s.parts, Geo(s), s.skipNull).value)
    ensures Ascending(out.writes)
    ensures var t := GptTables(Plan(s.parts, Geo(s), s.skipNull).value, s.parts, Geo(s), s.guid, s.active, crc, flag);
      Holds(Image(out.writes), s.signature, t)
  {
    RunDispatch(opts, operands, crc, flag, s);
    GptOutput(s.signature, s.guid, s.parts, Geo(s), s.skipNull, s.active, crc, flag);
  }
}
