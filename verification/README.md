# ptgen: a Dafny model of OpenWrt's partition table generator

`ptgen` (tools/firmware-utils/src/ptgen.c in OpenWrt) writes the partition table of a firmware
image. It can write either a legacy DOS/MBR table with up to four primary partitions or a GUID
partition table (GPT) with up to 128 entries. Partition sizes arrive as `-p` options (kilobytes,
with an optional `k`/`m`/`g` suffix). The program places each partition one track after the
previous one, rounded up to a cylinder or to a `-l` kilobyte boundary. It prints each partition's
start and length in bytes on standard output and writes the table to the `-o` file.

This project models that core as pure functions over immutable data and proves what it computes:

- `Rounding`, `Chs`: round_to_cyl, round_to_kb and to_chs. They cover the smallest-multiple
  properties of the roundings and the round trip of cylinder/head/sector addresses below cylinder 1024.
- `SizeParse`: to_kbytes. Plain numbers, the three suffixes, bad suffixes and trailing garbage.
- `Guids`: GUID_INIT, guid_parse and guid_print. Parsing a canonical GUID and printing it again
  gives the upper-cased text. Printing any GUID and parsing it again gives the GUID. The four
  built-in GUIDs print as their well-known texts. Per-partition GUIDs are derived from the disk GUID.
- `Layout`: the placement loop shared by gen_ptable and gen_gptable. It covers the error for a zero
  size, the `-n` skip, the soundness of the placements (alignment, order, gaps) and the printed lines.
- `Disk`: the output file as the result of a sequence of `lseek` + `write` calls on a truncated file.
- `Mbr`: struct pte, its 16-byte encoding, the table gen_ptable builds and the 512-byte sector it writes.
- `Gpt`: struct gpte and struct gpth with their encodings, the entry array, the BIOS boot entry,
  the protective MBR entry, the primary and backup headers with their CRCs, and the eight writes.
- `Options`: main's option loop. Every option is modelled with its C conversion: the `(int)` cast,
  the `(char)` truncation, the `-a` range check and the partition-count check. The usage failure
  after the loop is modelled too.
- `Ptgen`: gen_ptable, gen_gptable and main's dispatch, with what the written file holds.
- `Results`, `Bytes`, `CStrings`, `Arith`: a result type, little-endian codecs, the C-string view
  of a character sequence (text up to the first NUL) and arithmetic helper lemmas.

CRC-32 (`cyg_crc32_accumulate`) is a parameter `crc: seq<byte> -> u32` that stands for the finished
gpt_crc32 value. The contents of the protective MBR entry's `active` byte are undefined in the C
code, so that byte is a parameter as well (`flag`). The host is taken to be little-endian
(ptgen.c:37-45), so `cpu_to_le` is the identity. The signature, the revision and the CRC fields,
which the code stores without conversion, are little-endian like the rest.

Some behaviour of the code is worth knowing before reading the model:

- With 4 heads and 32 sectors per track, a 64 KB partition gets length 224 sectors (114688 bytes).
  round_to_cyl always moves on to the next cylinder boundary, even from a boundary
  (`Layout.CylinderExample`).
- GPT mode accepts 128 `-p` options (the check is `part > 127`). The 128th entry is then
  overwritten by the BIOS boot entry (`Gpt.EntryAt`).
- guid_parse accepts non-hex characters; only a short string or running into the terminator
  fails (`Guids.Parse`).
- The GUID of the BIOS boot entry adds 128 to byte 15 of the disk GUID, which flips the top bit of
  that byte (`Guids.Derive`).
- With `-g`, no `-l` and fewer than 34 sectors per track, the first partition starts at LBA
  `sectors`. That is below first_usable (34), inside the header and entry array area
  (`Gpt.ShortTrackStart`).
- The limit of four MBR partitions is checked against the `-g` state when each `-p` is seen. Five
  `-p` options followed by `-g` fail; `-g` followed by five `-p` options succeeds (`Options.GptTooLate`).
- The default disk GUID is built from the default signature `0x5452574F`. `-S` does not change it
  (`Guids.DefaultDiskText`).

## Model

| member | source | states |
|---|---|---|
| Rounding.CDiv | tools/firmware-utils/src/ptgen.c:191-193 | C's `/` on a signed long: the remainder has the sign of the dividend and is smaller than the divisor in magnitude, so (0 - 1) / k is 0 |
| Rounding.RoundToCyl | tools/firmware-utils/src/ptgen.c:183-188 | the result is a multiple of the cylinder size, strictly above the sector and at most one cylinder above it; a sector already on a boundary moves a whole cylinder on |
| Rounding.RoundToCylLeast | tools/firmware-utils/src/ptgen.c:183-188 | round_to_cyl gives the least cylinder multiple strictly above the sector |
| Rounding.RoundToKb | tools/firmware-utils/src/ptgen.c:191-193 | for a positive sector: a multiple of kb_align, at least the sector and less than one alignment above it; sector 0 gives kb_align (or 0 when kb_align is 1) because of C's truncating division |
| Rounding.RoundToKbLeast | tools/firmware-utils/src/ptgen.c:191-193 | round_to_kb gives the least multiple of kb_align that is not below a positive sector |
| Rounding.RoundToKbIdempotent | tools/firmware-utils/src/ptgen.c:191-193 | an aligned sector is a fixed point, and rounding twice is rounding once |
| Chs.CylHighBits | tools/firmware-utils/src/ptgen.c:176 | `(c >> 2) & 0xC0` keeps exactly bits 8 and 9 of the cylinder, in bits 6 and 7 of the byte |
| Chs.Split | tools/firmware-utils/src/ptgen.c:169-173 | the 1-based sector, head and cylinder of a linear sector are in range and recombine to that sector |
| Chs.Pack | tools/firmware-utils/src/ptgen.c:175-177 | the 3 CHS bytes: head, then sector with cylinder bits 8-9 on top, then the low cylinder byte |
| Chs.PackSector | tools/firmware-utils/src/ptgen.c:176 | or-ing a sector below 64 with the high cylinder bits keeps both fields separate |
| Chs.ToChs | tools/firmware-utils/src/ptgen.c:165-180 | to_chs stores the head, the low cylinder byte, and, for at most 63 sectors per track, the 1-based sector and the cylinder's bits 8-9 |
| Chs.Unpack | tools/firmware-utils/src/ptgen.c:175-177 | the inverse reading of the three bytes yields a 10-bit cylinder, 8-bit head and 6-bit sector |
| Chs.UnpackPack | tools/firmware-utils/src/ptgen.c:175-177 | packing then unpacking returns the address with the cylinder reduced modulo 1024 |
| Chs.UnpackPackExact | tools/firmware-utils/src/ptgen.c:175-177 | an address inside the CHS ranges survives packing and unpacking unchanged |
| Chs.ToChsLinear | tools/firmware-utils/src/ptgen.c:165-180 | below cylinder 1024, with at most 256 heads and 63 sectors per track, the stored CHS bytes decode back to the same linear sector |
| SizeParse.DigitsLen | tools/firmware-utils/src/ptgen.c:141 | the number ends at the first non-digit: everything before it is a digit |
| SizeParse.Exponent | tools/firmware-utils/src/ptgen.c:142-148 | the suffix switch yields an exponent in 0..2, or -1 for a rejected suffix |
| SizeParse.ToKbytes | tools/firmware-utils/src/ptgen.c:135-162 | text that does not start with a digit gives size 0 |
| SizeParse.ToKbytesPlain | tools/firmware-utils/src/ptgen.c:141-160 | a decimal number with no suffix is read as that many kilobytes |
| SizeParse.ToKbytesUnit | tools/firmware-utils/src/ptgen.c:142-161 | a number followed by k, m or g in either case is multiplied by 1, 1024 or 1048576 |
| SizeParse.ToKbytesBadSuffix | tools/firmware-utils/src/ptgen.c:142-147 | any other non-digit character after the number gives 0 |
| SizeParse.ToKbytesGarbage | tools/firmware-utils/src/ptgen.c:150-156 | any character after a valid suffix gives 0 |
| Guids.GuidInit | tools/firmware-utils/src/ptgen.c:47-51 | UUID_LE keeps the last eight bytes in the order given (the first three fields are stored little-endian) |
| Guids.Derive | tools/firmware-utils/src/ptgen.c:337-338 | a derived GUID equals the disk GUID except byte 15, which is increased by i + 1 modulo 256 |
| Guids.DeriveInjective | tools/firmware-utils/src/ptgen.c:337-338 | two slots derive the same GUID exactly when their numbers agree modulo 256 |
| Guids.DeriveDistinct | tools/firmware-utils/src/ptgen.c:337-338 | the slots below 256 all get different GUIDs |
| Guids.PairValue | tools/firmware-utils/src/ptgen.c:214-215 | strtol on two hex digits gives their value 16 * high + low |
| Guids.ReadPairs | tools/firmware-utils/src/ptgen.c:209-217 | the loop yields the remaining bytes or fails on the terminator; it cannot fail on a long NUL-free string |
| Guids.Swap | tools/firmware-utils/src/ptgen.c:218-220 | the byte swaps touch only the first eight bytes |
| Guids.Parse | tools/firmware-utils/src/ptgen.c:202-222 | a string shorter than 36 characters is rejected as too short, and only that string; a string of 47 or more characters is always accepted |
| Guids.Hex2 | tools/firmware-utils/src/ptgen.c:227 | `%02X` prints two characters |
| Guids.Hex | tools/firmware-utils/src/ptgen.c:227-231 | a run of bytes prints as two characters each |
| Guids.Print | tools/firmware-utils/src/ptgen.c:225-233 | the printed line is 36 characters and a newline |
| Guids.ReadCanonical | tools/firmware-utils/src/ptgen.c:209-217 | on a canonical 8-4-4-4-12 string the loop reads the five hex groups, skipping the hyphens |
| Guids.ParseCanonical | tools/firmware-utils/src/ptgen.c:202-222 | a canonical string parses to the byte-swapped value of its five hex groups |
| Guids.HexOfPairs | tools/firmware-utils/src/ptgen.c:214-215 | reading hex pairs and printing them again gives the text upper-cased |
| Guids.PairsOfHex | tools/firmware-utils/src/ptgen.c:227-231 | printing bytes in hex and reading the pairs back gives the bytes |
| Guids.ParseThenPrint | tools/firmware-utils/src/ptgen.c:202-233 | a canonical string is accepted, and guid_print prints it back upper-cased |
| Guids.PrintGrouped | tools/firmware-utils/src/ptgen.c:225-233 | guid_print's output is a canonical GUID with hyphens at 8, 13, 18 and 23 and no NUL |
| Guids.PrintThenParse | tools/firmware-utils/src/ptgen.c:202-233 | parsing what guid_print prints gives back the same GUID, for every GUID |
| Guids.PrintInit | tools/firmware-utils/src/ptgen.c:49-50 | a GUID built by GUID_INIT prints its first three fields big-endian, then the eight bytes in order |
| Guids.EspBytes | tools/firmware-utils/src/ptgen.c:56-58 | the EFI system partition type's sixteen stored bytes |
| Guids.EspText | tools/firmware-utils/src/ptgen.c:56-58 | the ESP type prints as C12A7328-F81F-11D2-BA4B-00A0C93EC93B |
| Guids.DataBytes | tools/firmware-utils/src/ptgen.c:60-62 | the basic data partition type's sixteen stored bytes |
| Guids.DataText | tools/firmware-utils/src/ptgen.c:60-62 | the data type prints as EBD0A0A2-B9E5-4433-87C0-68B6B72699C7 |
| Guids.BiosBytes | tools/firmware-utils/src/ptgen.c:64-66 | the BIOS boot partition type's sixteen stored bytes |
| Guids.BiosText | tools/firmware-utils/src/ptgen.c:64-66 | the BIOS boot type prints as 21686148-6449-6E6F-744E-656564454649 |
| Guids.DefaultDiskBytes | tools/firmware-utils/src/ptgen.c:450-452 | the default disk GUID's stored bytes begin with the default signature 'OWRT' in little-endian order |
| Guids.DefaultDiskText | tools/firmware-utils/src/ptgen.c:450-452 | the default disk GUID prints as 5452574F-2211-4433-5566-778899AABB00 |
| Guids.HyphensRunOut | tools/firmware-utils/src/ptgen.c:207-213 | 36 hyphens pass the length check, but the scan then reaches the terminator and fails |
| Layout.Start | tools/firmware-utils/src/ptgen.c:254-256 | a partition starts at least one track after the cursor; with -l it is aligned and less than one alignment further on |
| Layout.StartLeast | tools/firmware-utils/src/ptgen.c:254-256 | with -l the start is the first aligned sector at least one track after the cursor |
| Layout.Place | tools/firmware-utils/src/ptgen.c:254-262 | a placement covers at least the requested size; with -l exactly that size, without it it ends on a cylinder boundary at most one cylinder past the size |
| Layout.PlaceLeastCylinder | tools/firmware-utils/src/ptgen.c:259-261 | without -l the partition ends at the first cylinder boundary strictly after its requested size |
| Layout.Plan | tools/firmware-utils/src/ptgen.c:243-271 | the loop gives one slot per request, or fails at the first zero size when -n is off, and only then |
| Layout.SkipNeverFails | tools/firmware-utils/src/ptgen.c:244-249 | with -n the loop never fails |
| Layout.PlanPrefix | tools/firmware-utils/src/ptgen.c:243-271 | the plan of a prefix of the requests is the prefix of the plan, with a cursor no further on |
| Layout.SlotRule | tools/firmware-utils/src/ptgen.c:243-262 | slot i is skipped for a zero size and otherwise placed from the cursor that the requests before it leave |
| Layout.PlanSound | tools/firmware-utils/src/ptgen.c:243-271 | the placed partitions fit their requests, lie in increasing order with free sectors between them and end by the cursor; skipped slots are exactly the zero sizes |
| Layout.SkippedCursor | tools/firmware-utils/src/ptgen.c:244-246 | when every size is zero, the cursor stays at 0 |
| Layout.FirstStart | tools/firmware-utils/src/ptgen.c:254-256 | the first placed partition starts one track in (aligned when -l is set), whatever was skipped before it |
| Layout.SkipIsFilter | tools/firmware-utils/src/ptgen.c:244-246 | with -n, the placements are those of the list with the zero sizes removed |
| Layout.SkipIrrelevant | tools/firmware-utils/src/ptgen.c:244-249 | without zero sizes, -n makes no difference |
| Layout.Report | tools/firmware-utils/src/ptgen.c:269-270 | two printed lines per placed partition |
| Layout.ReportAt | tools/firmware-utils/src/ptgen.c:269-270 | line 2k is partition k's start in bytes and line 2k+1 its length in bytes |
| Layout.UnreportReport | tools/firmware-utils/src/ptgen.c:269-270 | the placements can be read back from the printed lines |
| Layout.CylinderExample | tools/firmware-utils/src/ptgen.c:254-270 | 64 KB on 4 heads and 32 sectors starts at sector 32 with 224 sectors, printed as 16384 and 114688 |
| Layout.AlignedExample | tools/firmware-utils/src/ptgen.c:254-262 | with -l 64 the same request starts at sector 128 with exactly 128 sectors |
| Disk.Image | tools/firmware-utils/src/ptgen.c:273-293 | a truncated file written in ascending order is as long as the end of its last write |
| Disk.ReadBack | tools/firmware-utils/src/ptgen.c:278-293 | every write's bytes can be read back at its offset |
| Disk.Hole | tools/firmware-utils/src/ptgen.c:273-293 | a byte that no write covers reads as zero |
| Mbr.Encode | tools/firmware-utils/src/ptgen.c:74-81 | struct pte's 16 bytes: flag, CHS start, type, CHS end, then start and length little-endian |
| Mbr.Decode | tools/firmware-utils/src/ptgen.c:74-81 | any 16 bytes read as a well-formed entry |
| Mbr.DecodeEncode | tools/firmware-utils/src/ptgen.c:74-81 | decoding an encoded entry gives the entry back |
| Mbr.EncodeDecode | tools/firmware-utils/src/ptgen.c:74-81 | encoding a decoded entry gives the 16 bytes back |
| Mbr.EmptyIsZero | tools/firmware-utils/src/ptgen.c:242 | a cleared entry encodes as sixteen zero bytes |
| Mbr.LegacyEntry | tools/firmware-utils/src/ptgen.c:251-262 | the entry is active (0x80) exactly for a placed slot whose number is -a, and inactive (0) otherwise; it carries the type and the 32-bit start and length; a skipped slot stays cleared |
| Mbr.LegacyEntryChs | tools/firmware-utils/src/ptgen.c:264-265 | below cylinder 1024, the CHS fields address the first and the last sector of the partition |
| Mbr.Table | tools/firmware-utils/src/ptgen.c:242-266 | four entries, with those past the requests cleared |
| Mbr.OneActive | tools/firmware-utils/src/ptgen.c:251 | entry i is active exactly when i + 1 is -a and its request was placed, so at most one is |
| Mbr.EncodeTable | tools/firmware-utils/src/ptgen.c:284-285 | the table is 64 bytes |
| Mbr.TableAt | tools/firmware-utils/src/ptgen.c:284-285 | entry i sits at bytes 16i..16i+16 of the table |
| Mbr.Writes | tools/firmware-utils/src/ptgen.c:278-293 | gen_ptable's three writes go to ascending offsets |
| Mbr.Sector | tools/firmware-utils/src/ptgen.c:273-293 | the file is exactly one 512-byte sector |
| Mbr.ReadTable | tools/firmware-utils/src/ptgen.c:284-285 | reading the four entries back from a sector gives well-formed entries |
| Mbr.SectorMarks | tools/firmware-utils/src/ptgen.c:278-293 | the sector holds the disk signature at 440 and 55 AA at 510 |
| Mbr.SectorZeros | tools/firmware-utils/src/ptgen.c:273-293 | the boot code area and bytes 444-445 are zero |
| Mbr.SectorTable | tools/firmware-utils/src/ptgen.c:284-288 | the table read back from the sector is the table written |
| Gpt.EncodeEntry | tools/firmware-utils/src/ptgen.c:107-114 | struct gpte's 128 bytes: type, GUID, start, end, attributes, name |
| Gpt.DecodeEntry | tools/firmware-utils/src/ptgen.c:107-114 | any 128 bytes read as a well-formed entry |
| Gpt.DecodeEncodeEntry | tools/firmware-utils/src/ptgen.c:107-114 | decoding an encoded entry gives the entry back |
| Gpt.EncodeDecodeEntry | tools/firmware-utils/src/ptgen.c:107-114 | encoding a decoded entry gives the 128 bytes back |
| Gpt.PartitionEntry | tools/firmware-utils/src/ptgen.c:328-343 | the type is ESP exactly for type 0xEF or the -a slot, otherwise basic data; the GUID is derived from the slot; the entry spans the placement's first to last sector |
| Gpt.BiosEnd | tools/firmware-utils/src/ptgen.c:352 | the BIOS boot entry ends just before the first partition's start position |
| Gpt.BiosEntry | tools/firmware-utils/src/ptgen.c:351-355 | the BIOS boot entry has the BIOS type, slot 127's derived GUID, starts at LBA 34 and ends at BiosEnd |
| Gpt.Entries | tools/firmware-utils/src/ptgen.c:320-355 | the array has 128 well-formed entries |
| Gpt.EntryAt | tools/firmware-utils/src/ptgen.c:320-355 | slot 127 is the BIOS entry even when a 128th partition was requested; below it, a placed request's entry and a cleared entry otherwise |
| Gpt.EntryGuid | tools/firmware-utils/src/ptgen.c:337-338 | every used slot carries the GUID derived from its number |
| Gpt.GuidsDistinct | tools/firmware-utils/src/ptgen.c:337-338 | two used slots, the BIOS slot included, never share a GUID |
| Gpt.BiosAdjacent | tools/firmware-utils/src/ptgen.c:351-352 | the first placed partition starts right after the BIOS boot entry |
| Gpt.EncodeEntries | tools/firmware-utils/src/ptgen.c:399-400 | the array is 16384 bytes |
| Gpt.EntriesAt | tools/firmware-utils/src/ptgen.c:399-400 | entry i decodes from bytes 128i..128i+128 of the array |
| Gpt.EncodeHeader | tools/firmware-utils/src/ptgen.c:89-104 | struct gpth's 92 packed bytes, field by field in declaration order |
| Gpt.DecodeEncodeHeader | tools/firmware-utils/src/ptgen.c:89-104 | decoding an encoded header gives the header back |
| Gpt.Seal | tools/firmware-utils/src/ptgen.c:410-411 | sealing sets only the header CRC, and afterwards the CRC matches the header with its CRC field zeroed |
| Gpt.SealValid | tools/firmware-utils/src/ptgen.c:410-411 | sealing a header whose CRC already matches changes nothing |
| Gpt.Primary | tools/firmware-utils/src/ptgen.c:305-368 | the primary header: signature, revision 1.0, size 92, self 1, backup at end, array at LBA 2, usable 34..end-33, 128 entries of 128 bytes, the array CRC and a valid header CRC |
| Gpt.Backup | tools/firmware-utils/src/ptgen.c:406-411 | the backup swaps self and alternate, points at the array 32 sectors before end, keeps every other field and has a valid CRC |
| Gpt.SignatureText | tools/firmware-utils/src/ptgen.c:53 | the header starts with the bytes of "EFI PART" |
| Gpt.InsideUsable | tools/firmware-utils/src/ptgen.c:310-365 | with at least 34 sectors per track, every placed partition lies within first_usable..last_usable |
| Gpt.ShortTrackStart | tools/firmware-utils/src/ptgen.c:328-330 | with fewer than 34 sectors per track and no -l, the first placed partition starts at LBA sectors, below first_usable |
| Gpt.ShortTrackExample | tools/firmware-utils/src/ptgen.c:328-330 | with 4 heads and 32 sectors, a 64 KB partition starts at LBA 32, inside the primary entry array at LBA 2..33 |
| Gpt.Protective | tools/firmware-utils/src/ptgen.c:359-363 | the protective entry has type 0xEE, starts at LBA 1, has length end truncated to 32 bits and CHS of 1 and end |
| Gpt.Writes | tools/firmware-utils/src/ptgen.c:375-429 | eight writes: signature, protective entry, boot mark, primary header, the array twice, backup header, and a last byte that makes the file end + 1 sectors long; ascending once end is at least 66 |
| Gpt.WritesAscending | tools/firmware-utils/src/ptgen.c:413-429 | from end 66 on, the writes do not overlap and the file is end + 1 sectors |
| Gpt.WritesOverlap | tools/firmware-utils/src/ptgen.c:399-417 | below end 66 the backup array overlaps the earlier writes |
| Gpt.WritesRead | tools/firmware-utils/src/ptgen.c:375-429 | each structure can be read back at its offset: 440, 446, 510, 512, 1024 and the two at the end |
| Ptgen.GenPtable | tools/firmware-utils/src/ptgen.c:236-298 | gen_ptable fails exactly when the loop does, with its index; otherwise the lines are each placement's start and length in bytes (Report) and the file is one sector |
| Ptgen.PtableFile | tools/firmware-utils/src/ptgen.c:273-298 | the written sector holds the signature, the boot mark and the table of the sound layout |
| Ptgen.GptTables | tools/firmware-utils/src/ptgen.c:305-411 | the disk ends one track past the cursor; both headers carry the array CRC, a valid CRC and the disk GUID and point at each other |
| Ptgen.GptWrites | tools/firmware-utils/src/ptgen.c:375-429 | the writes of gen_gptable are ascending from end 66 on |
| Ptgen.GenGpt | tools/firmware-utils/src/ptgen.c:302-435 | gen_gptable fails exactly when the loop does; otherwise the lines are each placement's start and length in bytes (Report) |
| Ptgen.WritesHold | tools/firmware-utils/src/ptgen.c:375-429 | the file holds sector 0, the primary header and array, and the backup array and header |
| Ptgen.GptBoot | tools/firmware-utils/src/ptgen.c:375-391 | the GPT file's sector 0 carries the signature and the boot mark |
| Ptgen.PrimaryCrc | tools/firmware-utils/src/ptgen.c:365-368 | the primary header read from LBA 1 has a valid CRC, and its array CRC is the CRC of the bytes at LBA 2..33 |
| Ptgen.BackupCrc | tools/firmware-utils/src/ptgen.c:406-411 | the backup header read from the last sector has a valid CRC and the CRC of the array before it |
| Ptgen.ArraysAgree | tools/firmware-utils/src/ptgen.c:399-417 | the two copies of the array in the file are byte-identical |
| Ptgen.EntryRead | tools/firmware-utils/src/ptgen.c:399-417 | entry i can be decoded back from either copy |
| Ptgen.Geo | tools/firmware-utils/src/ptgen.c:119-121 | the geometry uses the settled heads, sectors and alignment |
| Options.S32 | tools/firmware-utils/src/ptgen.c:468-472 | the `(int)` cast gives the 32-bit signed value congruent to the input modulo 2^32 |
| Options.S32Values | tools/firmware-utils/src/ptgen.c:468-472 | small values are kept, values from 2^31 to 2^32 turn negative, and the cast has period 2^32 |
| Options.Apply | tools/firmware-utils/src/ptgen.c:454-506 | only -p, -G and unknown options fail, each with its own failure; -p alone changes the partitions and -h alone the heads |
| Options.Configure | tools/firmware-utils/src/ptgen.c:454-507 | the settings after the option loop keep at most 128 partitions (4 without -g), an active slot in 0..4 and an even sector alignment |
| Options.Finish | tools/firmware-utils/src/ptgen.c:508-510 | usage is printed exactly when operands remain, heads or sectors are not positive, or no output is named |
| Options.Settle | tools/firmware-utils/src/ptgen.c:454-510 | settled settings have positive heads and sectors and an output file |
| Options.ConfigureStep | tools/firmware-utils/src/ptgen.c:454-507 | options are applied one by one, and the first failure ends the loop |
| Options.PartLimit | tools/firmware-utils/src/ptgen.c:474-478 | -p fails exactly when 128 partitions exist, or 4 without -g |
| Options.PartRecords | tools/firmware-utils/src/ptgen.c:479-480 | an accepted -p appends its size in kilobytes with the current type |
| Options.TypeThenPart | tools/firmware-utils/src/ptgen.c:479-483 | -t v then -p records type v modulo 256 |
| Options.ActiveChoice | tools/firmware-utils/src/ptgen.c:485-489 | -a keeps 0..4 and turns other values in int range into 0; after the cast, 2^32 + 2 is 2 |
| Options.GuidOption | tools/firmware-utils/src/ptgen.c:496-502 | -G succeeds exactly when guid_parse does, and then sets the disk GUID to the parsed value |
| Options.GuidOptionPrinted | tools/firmware-utils/src/ptgen.c:496-502 | -G with guid_print's output sets that very GUID |
| Options.HeadsLastWins | tools/firmware-utils/src/ptgen.c:468-470 | a later -h overrides an earlier one |
| Options.HeadsUnset | tools/firmware-utils/src/ptgen.c:119 | without -h the heads stay at -1 |
| Options.NoHeadsUsage | tools/firmware-utils/src/ptgen.c:508-510 | without -h the program stops with usage |
| Options.RepeatPart | tools/firmware-utils/src/ptgen.c:474-481 | k more -p options within the limit append k equal requests |
| Options.GptTooLate | tools/firmware-utils/src/ptgen.c:465-481 | five -p before -g fail; -g before five -p accepts all five |
| Ptgen.Run | tools/firmware-utils/src/ptgen.c:445-517 | main fails with the option failure, or with the index of the first zero size; otherwise it prints each placement's start and length in bytes (Report) |
| Ptgen.RunDispatch | tools/firmware-utils/src/ptgen.c:512-516 | a successful run's output is that of gen_gptable with -g and of gen_ptable without |
| Ptgen.RunLegacy | tools/firmware-utils/src/ptgen.c:512-516 | without -g the file's sector holds the MBR table of the sound layout |
| Ptgen.GptOutput | tools/firmware-utils/src/ptgen.c:302-435 | gen_gptable's file, for a disk ending at sector 66 or later, holds all its tables where they belong |
| Ptgen.RunGpt | tools/firmware-utils/src/ptgen.c:512-516 | with -g and a disk ending at sector 66 or later, the file holds the GPT tables of the sound layout |

## Left out

- Writing the file: open failures, short writes and partial output are left out. The model gives the writes and the file image they produce, and the lines written to stdout before an error are not modelled.
- The `-v` diagnostics and every other stderr message, and `usage`'s text, are left out. They are output only.
- `cyg_crc32_accumulate` is not part of this model. gpt_crc32 is a parameter.
- getopt's argument scanning is left out. Options arrive as a sequence of parsed options, plus the count of operands left over.
- strtoul in the numeric options is left out: -h, -s, -t, -a, -l and -S receive the number strtoul returned. The C conversions applied to that number are modelled.
- SizeParse.ToKbytes: the result is unbounded. The C keeps it in a `long` filled by strtoul, which saturates at ULONG_MAX, and `result * (2 << ...)` overflows once the value reaches 2^63; such sizes are not modelled.
- SizeParse.ToKbytesPlain: its result is claimed for every number; in the C, numbers of 2^64 and more read as ULONG_MAX, because strtoul saturates.
- SizeParse.ToKbytesUnit: its result is claimed for every number; the C product overflows a `long` from 2^63 on.
- SizeParse.ToKbytes: it reads decimal digits only. strtoul with base 0 also skips leading white space, accepts a sign, and reads `0x` hex and leading-zero octal; those inputs are not modelled.
- Guids.Parse: from seven hyphens at pair positions on, a pair can start on the last character of a 36-character string; guid_parse then reads past the terminator. The model treats every position past the string as the terminator instead.
- Guids.Parse: arguments (the `-G` text, and the `-p` sizes read by SizeParse.ToKbytes) are taken as sequences of single-byte characters. The C counts bytes, so a multi-byte UTF-8 character counts as several characters there; such text is not modelled.
- Guids.ParseThenPrint: it is proved for canonical 8-4-4-4-12 strings only. guid_parse also accepts other layouts of sixteen hex pairs (for example 32 digits with no hyphens), which print back the same way; those are not covered.
- Layout.Plan: gen_ptable holds `start` and `len` in a 32-bit int. The model keeps them unbounded, so MBR layouts beyond 2^31 sectors differ from the C. The C's `heads * sectors` is also an int product, and its overflow is not modelled.
- Layout.Plan: gen_gptable's cursor `start + parts[i].size * 2` is an `unsigned long long` that wraps at 2^64. The model keeps it unbounded.
- Layout.Report: the printed byte offsets are unbounded. The C's 64-bit products wrap beyond 2^63 bytes.
- `-l` values of 2^30 kilobytes or more are left out (type AlignKb). For them `(int)strtoul * 2` overflows an int.
- Gpt.WritesOverlap: below end sector 66 the writes overlap. The model only states that; it does not describe the resulting file. For end below 32, the C offset `end * 512 - 16384` is unsigned and wraps, that lseek fails, and the backup array goes to the current offset 17408, so it does not overwrite the front; the backup header at `end * 512` and the zero byte at `end * 512 + 511` do (with end 0 that byte clears the 0xAA mark). The model writes the backup array at a negative offset instead.
- Gpt.Protective: the entry's `active` byte is uninitialised stack memory in the C and is a parameter here. The length is end truncated to 32 bits, as the code does, not saturated as the UEFI specification asks.
- Ptgen.RunGpt: it states the file's contents only for disks ending at sector 66 or later, where the writes do not overlap.
- Big-endian hosts are left out. With them, `cpu_to_le` swaps bytes and the unconverted signature, revision and CRC fields would differ.
