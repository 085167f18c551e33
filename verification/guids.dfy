/**
 * GUIDs in the mixed-endian on-disk layout of the UEFI specification (Appendix A):
 * guid_parse, guid_print, the GUID_INIT constants and the per-partition derivation.
 */
module Guids {
  import opened Bytes
  import opened CStrings
  import opened Results
  import Arith

  /** GUID_INIT(a, b, c, d0..d7): a, b and c little-endian, then the eight d bytes as given. */
  function GuidInit(a: u32, b: u16, c: u16, d: seq<byte>): (g: Guid)
    requires |d| == 8
    ensures g[8..] == d
  {
    LE(a, 4) + LE(b, 2) + LE(c, 2) + d
  }

  const EspType: Guid := GuidInit(0xC12A7328, 0xF81F, 0x11d2, [0xBA, 0x4B, 0x00, 0xA0, 0xC9, 0x3E, 0xC9, 0x3B])
  const DataType: Guid := GuidInit(0xEBD0A0A2, 0xB9E5, 0x4433, [0x87, 0xC0, 0x68, 0xB6, 0xB7, 0x26, 0x99, 0xC7])
  const BiosType: Guid := GuidInit(0x21686148, 0x6449, 0x6E6F, [0x74, 0x4E, 0x65, 0x65, 0x64, 0x45, 0x46, 0x49])

  /** The disk GUID used when none is given, built from the default 'OWRT' signature. */
  const DefaultDiskGuid: Guid := GuidInit(0x5452574F, 0x2211, 0x4433, [0x55, 0x66, 0x77, 0x88, 0x99, 0xAA, 0xBB, 0x00])

  /** The GUID of partition slot i: the disk GUID with byte 15 increased by i + 1, wrapping at 256. */
  function Derive(disk: Guid, i: nat): (g: Guid)
    ensures g[..15] == disk[..15]
    ensures (g[15] - disk[15] - i - 1) % 256 == 0
  {
    disk[15 := (disk[15] + i + 1) % 256]
  }

  /** Two slots get the same GUID exactly when their numbers agree modulo 256. */
  lemma DeriveInjective(disk: Guid, i: nat, j: nat)
    ensures Derive(disk, i) == Derive(disk, j) <==> i % 256 == j % 256
  {
    Arith.ModEq(disk[15] + i + 1, disk[15] + j + 1, 256);
    Arith.ModEq(i, j, 256);
    if Derive(disk, i) == Derive(disk, j) {
      assert Derive(disk, i)[15] == Derive(disk, j)[15];
    }
  }

  /** Slot numbers below 256 give distinct GUIDs. */
  lemma DeriveDistinct(disk: Guid, i: nat, j: nat)
    requires i < j < 256
    ensures Derive(disk, i) != Derive(disk, j)
  {
    assert Derive(disk, i)[15] != Derive(disk, j)[15];
  }

  // ----- guid_parse -----

  predicate IsHex(c: char) {
    '0' <= c <= '9' || 'a' <= c <= 'f' || 'A' <= c <= 'F'
  }

  function HexValue(c: char): (v: nat)
    requires IsHex(c)
    ensures v < 16
  {
    if '0' <= c <= '9' then c as int - '0' as int
    else if 'a' <= c <= 'f' then c as int - 'a' as int + 10
    else c as int - 'A' as int + 10
  }

  /** isspace in the C locale. */
  predicate IsSpace(c: char) {
    c == ' ' || c == '\t' || c == '\n' || c == '\r' || c as int == 11 || c as int == 12
  }

  /**
   * strtol(b, 0, 16) on the buffer {c0, c1, 0, 0}, stored into a uint8_t: it skips one leading
   * space, takes one sign, reads hex digits and stops at the first other character.
   */
  function PairValue(c0: char, c1: char): (v: byte)
    ensures IsHex(c0) && IsHex(c1) ==> v == 16 * HexValue(c0) + HexValue(c1)
  {
    if IsHex(c0) then
      if IsHex(c1) then 16 * HexValue(c0) + HexValue(c1) else HexValue(c0)
    else if IsSpace(c0) || c0 == '+' then
      if IsHex(c1) then HexValue(c1) else 0
    else if c0 == '-' then
      if IsHex(c1) then (256 - HexValue(c1)) % 256 else 0
    else
      0
  }

  datatype GuidError = TooShort | EndOfString

  /**
   * The loop of guid_parse from byte i with the cursor at p: skip one '-', fail on the
   * terminator, convert the next two characters.
   */
  function ReadPairs(s: string, i: nat, p: nat): (r: Result<seq<byte>, GuidError>)
    requires i <= 16
    ensures r.Ok? ==> |r.value| == 16 - i
    ensures r.Err? ==> r.error == EndOfString
    ensures NoNul(s) && |s| >= 47 && p <= 3 * i ==> r.Ok?
    decreases 16 - i
  {
    if i == 16 then Ok([])
    else
      var q := if At(s, p) == '-' then p + 1 else p;
      if At(s, q) == '\0' then Err(EndOfString)
      else
        match ReadPairs(s, i + 1, q + 2)
        case Err(e) => Err(e)
        case Ok(rest) => Ok([PairValue(At(s, q), At(s, q + 1))] + rest)
  }

  /** The three byte swaps: the first four bytes reversed, then the next two pairs. */
  function Swap(raw: seq<byte>): (g: Guid)
    requires |raw| == 16
    ensures g[8..] == raw[8..]
  {
    [raw[3], raw[2], raw[1], raw[0], raw[5], raw[4], raw[7], raw[6]] + raw[8..]
  }

  /**
   * guid_parse: fails when the string is shorter than 36 characters or when the scan of the
   * sixteen byte pairs reaches its end; non-hex characters are not rejected.
   */
  function Parse(buf: string): (r: Result<Guid, GuidError>)
    ensures StrLen(buf) < 36 <==> r == Err(TooShort)
    ensures StrLen(buf) >= 47 ==> r.Ok?
  {
    var s := CString(buf);
    if |s| < 36 then Err(TooShort)
    else
      var raw :- ReadPairs(s, 0, 0);
      Ok(Swap(raw))
  }

  // ----- guid_print -----

  function HexDigit(v: nat): (c: char)
    requires v < 16
    ensures IsHex(c) && HexValue(c) == v
  {
    if v < 10 then ('0' as int + v) as char else ('A' as int + v - 10) as char
  }

  /** `%02X`. */
  function Hex2(b: byte): (t: string)
    ensures |t| == 2
  {
    [HexDigit(b / 16), HexDigit(b % 16)]
  }

  function Hex(bs: seq<byte>): (t: string)
    ensures |t| == 2 * |bs|
  {
    if bs == [] then "" else Hex2(bs[0]) + Hex(bs[1..])
  }

  lemma {:induction false} HexAllHex(bs: seq<byte>)
    ensures AllHex(Hex(bs))
  {
    if bs != [] {
      HexAllHex(bs[1..]);
      assert Hex(bs) == Hex2(bs[0]) + Hex(bs[1..]);
    }
  }

  /** Five digit groups joined by hyphens. */
  function Dashed(a: string, b: string, c: string, d: string, e: string): string {
    a + "-" + b + "-" + c + "-" + d + "-" + e
  }

  /** guid_print: the 8-4-4-4-12 upper-case text, the first three groups byte-swapped, and a newline. */
  function Print(g: Guid): (t: string)
    ensures |t| == 37
  {
    Dashed(Hex([g[3], g[2], g[1], g[0]]), Hex([g[5], g[4]]), Hex([g[7], g[6]]), Hex(g[8..10]), Hex(g[10..16])) + "\n"
  }

  // ----- round trips -----

  predicate IsHyphenPos(k: int) {
    k == 8 || k == 13 || k == 18 || k == 23
  }

  /** The first 36 characters have the 8-4-4-4-12 hyphenated hex form. */
  predicate Canonical(s: string) {
    && |s| >= 36
    && forall k :: 0 <= k < 36 ==> if IsHyphenPos(k) then s[k] == '-' else IsHex(s[k])
  }

  function ToUpper(c: char): char {
    if 'a' <= c <= 'z' then (c as int - 32) as char else c
  }

  function Upper(s: string): (t: string)
    ensures |t| == |s| && forall k :: 0 <= k < |s| ==> t[k] == ToUpper(s[k])
  {
    seq(|s|, k requires 0 <= k < |s| => ToUpper(s[k]))
  }

  /** The bytes of a run of hex digit pairs. */
  function Pairs(t: string): (bs: seq<byte>)
    ensures |bs| == |t| / 2
  {
    if |t| < 2 then [] else [PairValue(t[0], t[1])] + Pairs(t[2..])
  }

  predicate AllHex(t: string) {
    forall k :: 0 <= k < |t| ==> IsHex(t[k])
  }

  /** One step of the scan over a hex digit at the cursor (after an optional hyphen). */
  lemma ReadStep(s: string, i: nat, p: nat, start: nat, rest: seq<byte>)
    requires i < 16
    requires start == p || (start == p + 1 && At(s, p) == '-')
    requires start == p ==> At(s, p) != '-'
    requires start + 2 <= |s| && IsHex(s[start])
    requires ReadPairs(s, i + 1, start + 2) == Ok(rest)
    ensures ReadPairs(s, i, p) == Ok([PairValue(s[start], s[start + 1])] + rest)
  {
    assert At(s, start) == s[start] && At(s, start + 1) == s[start + 1];
  }

  /** The first pair of a run of k pairs, then the other k-1. */
  lemma PairsFirst(s: string, start: nat, k: nat)
    requires 1 <= k && start + 2 * k <= |s|
    ensures Pairs(s[start..start + 2 * k]) == [PairValue(s[start], s[start + 1])] + Pairs(s[start + 2..start + 2 * k])
  {
    var t := s[start..start + 2 * k];
    assert t[0] == s[start] && t[1] == s[start + 1];
    assert t[2..] == s[start + 2..start + 2 * k];
  }

  /** Reading k hex pairs (after one optional hyphen) consumes them and moves on. */
  lemma {:induction false} ReadGroup(s: string, i: nat, p: nat, start: nat, k: nat, rest: seq<byte>)
    requires 1 <= k && i + k <= 16
    requires start == p || (start == p + 1 && At(s, p) == '-')
    requires start == p ==> At(s, p) != '-'
    requires start + 2 * k <= |s| && AllHex(s[start..start + 2 * k])
    requires ReadPairs(s, i + k, start + 2 * k) == Ok(rest)
    ensures ReadPairs(s, i, p) == Ok(Pairs(s[start..start + 2 * k]) + rest)
    decreases k
  {
    GroupHead(s, start, k);
    if k == 1 {
      ReadStep(s, i, p, start, rest);
    } else {
      assert At(s, start + 2) == s[start + 2];
      ReadGroup(s, i + 1, start + 2, start + 2, k - 1, rest);
      GroupStep(s, i, p, start, k, rest);
    }
  }

  /** The step of ReadGroup: one pair read in front of the other k-1. */
  lemma GroupStep(s: string, i: nat, p: nat, start: nat, k: nat, rest: seq<byte>)
    requires 1 < k && i + k <= 16
    requires start == p || (start == p + 1 && At(s, p) == '-')
    requires start == p ==> At(s, p) != '-'
    requires start + 2 * k <= |s| && IsHex(s[start])
    requires Pairs(s[start..start + 2 * k]) == [PairValue(s[start], s[start + 1])] + Pairs(s[start + 2..start + 2 * k])
    requires ReadPairs(s, i + 1, start + 2) == Ok(Pairs(s[start + 2..start + 2 * k]) + rest)
    ensures ReadPairs(s, i, p) == Ok(Pairs(s[start..start + 2 * k]) + rest)
  {
    var head, tail := [PairValue(s[start], s[start + 1])], Pairs(s[start + 2..start + 2 * k]);
    ReadStep(s, i, p, start, tail + rest);
    assert head + tail + rest == head + (tail + rest);
  }

  /** A run of k hex pairs: its first pair is hex, and so is the rest of the run. */
  lemma GroupHead(s: string, start: nat, k: nat)
    requires 1 <= k && start + 2 * k <= |s| && AllHex(s[start..start + 2 * k])
    ensures IsHex(s[start]) && AllHex(s[start + 2..start + 2 * k])
    ensures k > 1 ==> IsHex(s[start + 2])
    ensures Pairs(s[start..start + 2 * k]) == [PairValue(s[start], s[start + 1])] + Pairs(s[start + 2..start + 2 * k])
    ensures k == 1 ==> Pairs(s[start..start + 2 * k]) == [PairValue(s[start], s[start + 1])]
  {
    var t := s[start..start + 2 * k];
    var t' := s[start + 2..start + 2 * k];
    assert t[0] == s[start];
    forall j | 0 <= j < |t'|
      ensures IsHex(t'[j])
    {
      assert t'[j] == t[j + 2];
    }
    if k > 1 {
      assert t'[0] == s[start + 2];
    }
    PairsFirst(s, start, k);
  }

  /** The five digit groups are hex and separated by hyphens. */
  predicate Grouped(s: string) {
    && |s| >= 36
    && AllHex(s[0..8]) && AllHex(s[9..13]) && AllHex(s[14..18]) && AllHex(s[19..23]) && AllHex(s[24..36])
    && s[8] == '-' && s[13] == '-' && s[18] == '-' && s[23] == '-' && s[0] != '-'
  }

  lemma CanonicalGroups(s: string)
    requires Canonical(s)
    ensures Grouped(s)
  {
    assert !IsHyphenPos(0) && IsHyphenPos(8) && IsHyphenPos(13) && IsHyphenPos(18) && IsHyphenPos(23);
    HexRange(s, 0, 8);
    HexRange(s, 9, 13);
    HexRange(s, 14, 18);
    HexRange(s, 19, 23);
    HexRange(s, 24, 36);
  }

  lemma HexRange(s: string, a: nat, b: nat)
    requires Canonical(s) && a <= b <= 36
    requires forall k :: a <= k < b ==> !IsHyphenPos(k)
    ensures AllHex(s[a..b])
  {
    forall j | 0 <= j < b - a
      ensures IsHex(s[a..b][j])
    {
      assert s[a..b][j] == s[a + j];
      assert !IsHyphenPos(a + j);
    }
  }

  /** The scan from the second hyphen reads the last three groups. */
  lemma ReadLastGroups(s: string)
    requires Grouped(s) && NoNul(s)
    ensures ReadPairs(s, 6, 13) == Ok(Pairs(s[14..18]) + (Pairs(s[19..23]) + Pairs(s[24..36])))
  {
    var p5 := Pairs(s[24..36]);
    var p4 := Pairs(s[19..23]);
    assert At(s, 23) == '-' && At(s, 18) == '-' && At(s, 13) == '-';
    assert ReadPairs(s, 16, 36) == Ok([]);
    ReadGroup(s, 10, 23, 24, 6, []);
    assert p5 + [] == p5;
    ReadGroup(s, 8, 18, 19, 2, p5);
    ReadGroup(s, 6, 13, 14, 2, p4 + p5);
  }

  lemma SeqAssoc5(a: seq<byte>, b: seq<byte>, c: seq<byte>, d: seq<byte>, e: seq<byte>)
    ensures a + (b + (c + (d + e))) == a + b + c + d + e
  {
  }

  /** On a canonical C string the scan reads the five groups in order. */
  lemma ReadCanonical(s: string)
    requires Grouped(s) && NoNul(s)
    ensures ReadPairs(s, 0, 0) == Ok(Pairs(s[0..8]) + Pairs(s[9..13]) + Pairs(s[14..18])
                                     + Pairs(s[19..23]) + Pairs(s[24..36]))
  {
    var p5 := Pairs(s[24..36]);
    var p4 := Pairs(s[19..23]);
    var p3 := Pairs(s[14..18]);
    var p2 := Pairs(s[9..13]);
    var p1 := Pairs(s[0..8]);
    assert At(s, 8) == '-' && At(s, 0) != '-';
    ReadLastGroups(s);
    ReadGroup(s, 4, 8, 9, 2, p3 + (p4 + p5));
    ReadGroup(s, 0, 0, 0, 4, p2 + (p3 + (p4 + p5)));
    SeqAssoc5(p1, p2, p3, p4, p5);
  }

  /** A canonical string parses to the byte swap of its five digit groups read in order. */
  lemma ParseCanonical(buf: string)
    requires Canonical(buf)
    ensures Parse(buf) == Ok(Swap(Pairs(buf[0..8]) + Pairs(buf[9..13]) + Pairs(buf[14..18])
                                  + Pairs(buf[19..23]) + Pairs(buf[24..36])))
  {
    var s := CString(buf);
    CanonicalCString(buf);
    CanonicalGroups(s);
    ReadCanonical(s);
    assert Parse(buf) == Ok(Swap(ReadPairs(s, 0, 0).value));
  }

  /** A canonical buffer has no NUL among its first 36 characters, so its C string agrees there. */
  lemma CanonicalCString(buf: string)
    requires Canonical(buf)
    ensures Canonical(CString(buf)) && |CString(buf)| >= 36
    ensures CString(buf)[0..8] == buf[0..8] && CString(buf)[9..13] == buf[9..13]
    ensures CString(buf)[14..18] == buf[14..18] && CString(buf)[19..23] == buf[19..23]
    ensures CString(buf)[24..36] == buf[24..36]
  {
    var n := StrLen(buf);
    assert n >= 36;
    var s := CString(buf);
    assert s[..36] == buf[..36];
    forall k | 0 <= k < 36
      ensures if IsHyphenPos(k) then s[k] == '-' else IsHex(s[k])
    {
      assert s[k] == buf[k];
    }
    assert s[0..8] == s[..36][0..8] && buf[0..8] == buf[..36][0..8];
    assert s[9..13] == s[..36][9..13] && buf[9..13] == buf[..36][9..13];
    assert s[14..18] == s[..36][14..18] && buf[14..18] == buf[..36][14..18];
    assert s[19..23] == s[..36][19..23] && buf[19..23] == buf[..36][19..23];
    assert s[24..36] == s[..36][24..36] && buf[24..36] == buf[..36][24..36];
  }

  lemma {:induction false} HexOfPairs(t: string)
    requires AllHex(t) && |t| % 2 == 0
    ensures Hex(Pairs(t)) == Upper(t)
    decreases |t|
  {
    if |t| >= 2 {
      HexFirstPair(t);
      HexSuffix(t, 2);
      HexOfPairs(t[2..]);
      assert t == t[..2] + t[2..];
      UpperAppend(t[..2], t[2..]);
    }
  }

  /** The first pair of a hex run prints as its two digits in upper case, in front of the rest. */
  lemma HexFirstPair(t: string)
    requires AllHex(t) && |t| >= 2
    ensures Hex(Pairs(t)) == Upper(t[..2]) + Hex(Pairs(t[2..]))
  {
    var v := PairValue(t[0], t[1]);
    assert Hex(Pairs(t)) == Hex2(v) + Hex(Pairs(t[2..])) by {
      assert Pairs(t) == [v] + Pairs(t[2..]);
      HexCons(v, Pairs(t[2..]));
    }
    assert Hex2(v) == Upper(t[..2]) by {
      HexPair(t[0], t[1]);
      var u := Upper(t[..2]);
      assert u[0] == ToUpper(t[0]) && u[1] == ToUpper(t[1]);
    }
  }

  lemma HexSuffix(t: string, k: nat)
    requires AllHex(t) && k <= |t|
    ensures AllHex(t[k..])
  {
    forall j | 0 <= j < |t| - k
      ensures IsHex(t[k..][j])
    {
      assert t[k..][j] == t[j + k];
    }
  }

  lemma HexCons(b: byte, bs: seq<byte>)
    ensures Hex([b] + bs) == Hex2(b) + Hex(bs)
  {
    assert ([b] + bs)[1..] == bs;
  }

  /** Two hex digits print back as themselves in upper case. */
  lemma HexPair(c0: char, c1: char)
    requires IsHex(c0) && IsHex(c1)
    ensures Hex2(PairValue(c0, c1)) == [ToUpper(c0), ToUpper(c1)]
  {
    var v := PairValue(c0, c1);
    Arith.DivModUnique(v, 16, HexValue(c0), HexValue(c1));
    DigitOfValue(c0);
    DigitOfValue(c1);
  }

  /** Printing the value of a hex digit gives the digit in upper case. */
  lemma DigitOfValue(c: char)
    requires IsHex(c)
    ensures HexDigit(HexValue(c)) == ToUpper(c)
  {
  }

  lemma {:induction false} PairsOfHex(bs: seq<byte>)
    ensures Pairs(Hex(bs)) == bs
  {
    if bs != [] {
      var t := Hex(bs);
      assert t[2..] == Hex(bs[1..]);
      assert PairValue(t[0], t[1]) == bs[0];
      PairsOfHex(bs[1..]);
    }
  }

  /** The text of the five groups, read back from the bytes the scan produced and swapped. */
  lemma PrintSwap(p1: seq<byte>, p2: seq<byte>, p3: seq<byte>, p4: seq<byte>, p5: seq<byte>)
    requires |p1| == 4 && |p2| == 2 && |p3| == 2 && |p4| == 2 && |p5| == 6
    ensures Print(Swap(p1 + p2 + p3 + p4 + p5)) == Dashed(Hex(p1), Hex(p2), Hex(p3), Hex(p4), Hex(p5)) + "\n"
  {
    var raw := p1 + p2 + p3 + p4 + p5;
    var g := Swap(raw);
    SwapGroups(p1, p2, p3, p4, p5);
    assert Print(g) == Dashed(Hex([g[3], g[2], g[1], g[0]]), Hex([g[5], g[4]]), Hex([g[7], g[6]]), Hex(g[8..10]), Hex(g[10..16])) + "\n";
  }

  lemma SwapGroups(p1: seq<byte>, p2: seq<byte>, p3: seq<byte>, p4: seq<byte>, p5: seq<byte>)
    requires |p1| == 4 && |p2| == 2 && |p3| == 2 && |p4| == 2 && |p5| == 6
    ensures var g := Swap(p1 + p2 + p3 + p4 + p5);
      [g[3], g[2], g[1], g[0]] == p1 && [g[5], g[4]] == p2 && [g[7], g[6]] == p3 && g[8..10] == p4 && g[10..16] == p5
  {
    var raw := p1 + p2 + p3 + p4 + p5;
    assert raw[..4] == p1 && raw[4..6] == p2 && raw[6..8] == p3 && raw[8..10] == p4 && raw[10..] == p5;
    var g := Swap(raw);
    assert [g[3], g[2], g[1], g[0]] == raw[..4];
    assert [g[5], g[4]] == raw[4..6];
    assert [g[7], g[6]] == raw[6..8];
    assert g[8..10] == raw[8..10];
    assert g[10..16] == raw[10..];
  }

  lemma UpperAppend(a: string, b: string)
    ensures Upper(a + b) == Upper(a) + Upper(b)
  {
  }

  /** Upper case of a grouped string, group by group. */
  lemma UpperGroups(s: string)
    requires Grouped(s)
    ensures Upper(s[..36]) == Dashed(Upper(s[0..8]), Upper(s[9..13]), Upper(s[14..18]), Upper(s[19..23]), Upper(s[24..36]))
  {
    assert s[..36] == Dashed(s[0..8], s[9..13], s[14..18], s[19..23], s[24..36]);
    assert Upper("-") == "-";
    var d := Dashed(s[0..8], s[9..13], s[14..18], s[19..23], s[24..36]);
    UpperAppend(s[0..8], "-" + s[9..13] + "-" + s[14..18] + "-" + s[19..23] + "-" + s[24..36]);
    assert Upper(d) == Dashed(Upper(s[0..8]), Upper(s[9..13]), Upper(s[14..18]), Upper(s[19..23]), Upper(s[24..36]));
  }

  /** Parsing a canonical string and printing the result gives the string back in upper case. */
  lemma ParseThenPrint(buf: string)
    requires Canonical(buf)
    ensures Parse(buf).Ok?
    ensures Print(Parse(buf).value) == Upper(buf[..36]) + "\n"
  {
    ParseCanonical(buf);
    CanonicalGroups(buf);
    var t1, t2, t3, t4, t5 := buf[0..8], buf[9..13], buf[14..18], buf[19..23], buf[24..36];
    HexOfPairs(t1);
    HexOfPairs(t2);
    HexOfPairs(t3);
    HexOfPairs(t4);
    HexOfPairs(t5);
    PrintSwap(Pairs(t1), Pairs(t2), Pairs(t3), Pairs(t4), Pairs(t5));
    UpperGroups(buf);
  }

  /** The groups of a dashed text sit at the canonical positions. */
  lemma DashedSlices(a: string, b: string, c: string, d: string, e: string, tail: string)
    requires |a| == 8 && |b| == 4 && |c| == 4 && |d| == 4 && |e| == 12
    ensures var t := Dashed(a, b, c, d, e) + tail;
      && t[0..8] == a && t[9..13] == b && t[14..18] == c && t[19..23] == d && t[24..36] == e
      && t[8] == '-' && t[13] == '-' && t[18] == '-' && t[23] == '-'
  {
  }

  /** The printed text has the grouped form, with the byte-swapped groups at their positions. */
  lemma PrintGrouped(g: Guid)
    ensures Grouped(Print(g)) && NoNul(Print(g))
    ensures var t := Print(g);
      && t[0..8] == Hex([g[3], g[2], g[1], g[0]]) && t[9..13] == Hex([g[5], g[4]])
      && t[14..18] == Hex([g[7], g[6]]) && t[19..23] == Hex(g[8..10]) && t[24..36] == Hex(g[10..16])
  {
    var t := Print(g);
    var h1, h2, h3, h4, h5 := Hex([g[3], g[2], g[1], g[0]]), Hex([g[5], g[4]]), Hex([g[7], g[6]]), Hex(g[8..10]), Hex(g[10..16]);
    assert t == Dashed(h1, h2, h3, h4, h5) + "\n";
    HexAllHex([g[3], g[2], g[1], g[0]]);
    HexAllHex([g[5], g[4]]);
    HexAllHex([g[7], g[6]]);
    HexAllHex(g[8..10]);
    HexAllHex(g[10..16]);
    DashedSlices(h1, h2, h3, h4, h5, "\n");
    assert t[0] == h1[0];
    forall k | 0 <= k < |t|
      ensures t[k] != '\0'
    {
      NoNulDashed(h1, h2, h3, h4, h5, k);
    }
  }

  /** Printing a GUID and parsing the text gives the same GUID. */
  lemma PrintThenParse(g: Guid)
    ensures Parse(Print(g)) == Ok(g)
  {
    var t := Print(g);
    var q1, q2, q3, q4, q5 := [g[3], g[2], g[1], g[0]], [g[5], g[4]], [g[7], g[6]], g[8..10], g[10..16];
    PrintGrouped(g);
    CStringNoNul(t);
    ReadCanonical(t);
    PairsOfHex(q1);
    PairsOfHex(q2);
    PairsOfHex(q3);
    PairsOfHex(q4);
    PairsOfHex(q5);
    var raw := Pairs(t[0..8]) + Pairs(t[9..13]) + Pairs(t[14..18]) + Pairs(t[19..23]) + Pairs(t[24..36]);
    assert raw == q1 + q2 + q3 + q4 + q5;
    assert Parse(t) == Ok(Swap(raw));
    SwapBack(g);
  }

  lemma SwapBack(g: Guid)
    ensures Swap([g[3], g[2], g[1], g[0]] + [g[5], g[4]] + [g[7], g[6]] + g[8..10] + g[10..16]) == g
  {
    var raw := [g[3], g[2], g[1], g[0]] + [g[5], g[4]] + [g[7], g[6]] + g[8..10] + g[10..16];
    assert raw[8..] == g[8..];
  }

  lemma NoNulDashed(h1: string, h2: string, h3: string, h4: string, h5: string, k: nat)
    requires AllHex(h1) && AllHex(h2) && AllHex(h3) && AllHex(h4) && AllHex(h5)
    requires k < |Dashed(h1, h2, h3, h4, h5) + "\n"|
    ensures (Dashed(h1, h2, h3, h4, h5) + "\n")[k] != '\0'
  {
  }

  /** GUID_INIT's three integer fields print most significant byte first, the rest in order. */
  lemma PrintInit(a: u32, b: u16, c: u16, d: seq<byte>)
    requires |d| == 8
    ensures var la, lb, lc := LE(a, 4), LE(b, 2), LE(c, 2);
      Print(GuidInit(a, b, c, d))
        == Dashed(Hex([la[3], la[2], la[1], la[0]]), Hex([lb[1], lb[0]]), Hex([lc[1], lc[0]]), Hex(d[..2]), Hex(d[2..])) + "\n"
  {
    var g := GuidInit(a, b, c, d);
    var la, lb, lc := LE(a, 4), LE(b, 2), LE(c, 2);
    assert g[..4] == la && g[4..6] == lb && g[6..8] == lc && g[8..] == d;
    assert g[8..10] == d[..2] && g[10..16] == d[2..];
  }

  /** Print only looks at its five groups. */
  lemma PrintGroups(g: Guid, a: string, b: string, c: string, d: string, e: string)
    requires Hex([g[3], g[2], g[1], g[0]]) == a && Hex([g[5], g[4]]) == b && Hex([g[7], g[6]]) == c
    requires Hex(g[8..10]) == d && Hex(g[10..16]) == e
    ensures Print(g) == Dashed(a, b, c, d, e) + "\n"
  {
  }

  lemma EspBytes()
    ensures EspType == [0x28, 0x73, 0x2A, 0xC1, 0x1F, 0xF8, 0xD2, 0x11, 0xBA, 0x4B, 0x00, 0xA0, 0xC9, 0x3E, 0xC9, 0x3B]
  {
    Pow256Values();
  }

  lemma EspGroups(g: Guid)
    requires g == [0x28, 0x73, 0x2A, 0xC1, 0x1F, 0xF8, 0xD2, 0x11, 0xBA, 0x4B, 0x00, 0xA0, 0xC9, 0x3E, 0xC9, 0x3B]
    ensures [g[3], g[2], g[1], g[0]] == [0xC1, 0x2A, 0x73, 0x28] && [g[5], g[4]] == [0xF8, 0x1F] && [g[7], g[6]] == [0x11, 0xD2]
    ensures g[8..10] == [0xBA, 0x4B] && g[10..16] == [0x00, 0xA0, 0xC9, 0x3E, 0xC9, 0x3B]
  {
  }

  lemma EspHexTime()
    ensures Hex([0xC1, 0x2A, 0x73, 0x28]) == "C12A7328"
  {
    assert Hex2(0x28) == "28"; assert Hex2(0x2A) == "2A"; assert Hex2(0x73) == "73"; assert Hex2(0xC1) == "C1";
  }

  lemma EspHexMid()
    ensures Hex([0xF8, 0x1F]) == "F81F" && Hex([0x11, 0xD2]) == "11D2" && Hex([0xBA, 0x4B]) == "BA4B"
  {
    assert Hex2(0x11) == "11"; assert Hex2(0x1F) == "1F"; assert Hex2(0x4B) == "4B"; assert Hex2(0xBA) == "BA"; assert Hex2(0xD2) == "D2"; assert Hex2(0xF8) == "F8";
  }

  lemma EspHexNode()
    ensures Hex([0x00, 0xA0, 0xC9, 0x3E, 0xC9, 0x3B]) == "00A0C93EC93B"
  {
    assert Hex2(0x00) == "00"; assert Hex2(0x3B) == "3B"; assert Hex2(0x3E) == "3E"; assert Hex2(0xA0) == "A0"; assert Hex2(0xC9) == "C9";
  }

  lemma EspDashed()
    ensures Dashed("C12A7328", "F81F", "11D2", "BA4B", "00A0C93EC93B") + "\n" == "C12A7328-F81F-11D2-BA4B-00A0C93EC93B\n"
  {
  }

  /** The partition type GUIDs and the default disk GUID print as their registered text. */
  lemma EspText()
    ensures Print(EspType) == "C12A7328-F81F-11D2-BA4B-00A0C93EC93B\n"
  {
    EspBytes();
    EspGroups(EspType);
    EspHexTime();
    EspHexMid();
    EspHexNode();
    EspDashed();
    PrintGroups(EspType, "C12A7328", "F81F", "11D2", "BA4B", "00A0C93EC93B");
  }

  lemma DataBytes()
    ensures DataType == [0xA2, 0xA0, 0xD0, 0xEB, 0xE5, 0xB9, 0x33, 0x44, 0x87, 0xC0, 0x68, 0xB6, 0xB7, 0x26, 0x99, 0xC7]
  {
    Pow256Values();
  }

  lemma DataGroups(g: Guid)
    requires g == [0xA2, 0xA0, 0xD0, 0xEB, 0xE5, 0xB9, 0x33, 0x44, 0x87, 0xC0, 0x68, 0xB6, 0xB7, 0x26, 0x99, 0xC7]
    ensures [g[3], g[2], g[1], g[0]] == [0xEB, 0xD0, 0xA0, 0xA2] && [g[5], g[4]] == [0xB9, 0xE5] && [g[7], g[6]] == [0x44, 0x33]
    ensures g[8..10] == [0x87, 0xC0] && g[10..16] == [0x68, 0xB6, 0xB7, 0x26, 0x99, 0xC7]
  {
  }

  lemma DataHexTime()
    ensures Hex([0xEB, 0xD0, 0xA0, 0xA2]) == "EBD0A0A2"
  {
    assert Hex2(0xA0) == "A0"; assert Hex2(0xA2) == "A2"; assert Hex2(0xD0) == "D0"; assert Hex2(0xEB) == "EB";
  }

  lemma DataHexMid()
    ensures Hex([0xB9, 0xE5]) == "B9E5" && Hex([0x44, 0x33]) == "4433" && Hex([0x87, 0xC0]) == "87C0"
  {
    assert Hex2(0x33) == "33"; assert Hex2(0x44) == "44"; assert Hex2(0x87) == "87"; assert Hex2(0xB9) == "B9"; assert Hex2(0xC0) == "C0"; assert Hex2(0xE5) == "E5";
  }

  lemma DataHexNode()
    ensures Hex([0x68, 0xB6, 0xB7, 0x26, 0x99, 0xC7]) == "68B6B72699C7"
  {
    assert Hex2(0x26) == "26"; assert Hex2(0x68) == "68"; assert Hex2(0x99) == "99"; assert Hex2(0xB6) == "B6"; assert Hex2(0xB7) == "B7"; assert Hex2(0xC7) == "C7";
  }

  lemma DataDashed()
    ensures Dashed("EBD0A0A2", "B9E5", "4433", "87C0", "68B6B72699C7") + "\n" == "EBD0A0A2-B9E5-4433-87C0-68B6B72699C7\n"
  {
  }

  lemma DataText()
    ensures Print(DataType) == "EBD0A0A2-B9E5-4433-87C0-68B6B72699C7\n"
  {
    DataBytes();
    DataGroups(DataType);
    DataHexTime();
    DataHexMid();
    DataHexNode();
    DataDashed();
    PrintGroups(DataType, "EBD0A0A2", "B9E5", "4433", "87C0", "68B6B72699C7");
  }

  lemma BiosBytes()
    ensures BiosType == [0x48, 0x61, 0x68, 0x21, 0x49, 0x64, 0x6F, 0x6E, 0x74, 0x4E, 0x65, 0x65, 0x64, 0x45, 0x46, 0x49]
  {
    Pow256Values();
  }

  lemma BiosGroups(g: Guid)
    requires g == [0x48, 0x61, 0x68, 0x21, 0x49, 0x64, 0x6F, 0x6E, 0x74, 0x4E, 0x65, 0x65, 0x64, 0x45, 0x46, 0x49]
    ensures [g[3], g[2], g[1], g[0]] == [0x21, 0x68, 0x61, 0x48] && [g[5], g[4]] == [0x64, 0x49] && [g[7], g[6]] == [0x6E, 0x6F]
    ensures g[8..10] == [0x74, 0x4E] && g[10..16] == [0x65, 0x65, 0x64, 0x45, 0x46, 0x49]
  {
  }

  lemma BiosHexTime()
    ensures Hex([0x21, 0x68, 0x61, 0x48]) == "21686148"
  {
    assert Hex2(0x21) == "21"; assert Hex2(0x48) == "48"; assert Hex2(0x61) == "61"; assert Hex2(0x68) == "68";
  }

  lemma BiosHexMid()
    ensures Hex([0x64, 0x49]) == "6449" && Hex([0x6E, 0x6F]) == "6E6F" && Hex([0x74, 0x4E]) == "744E"
  {
    assert Hex2(0x49) == "49"; assert Hex2(0x4E) == "4E"; assert Hex2(0x64) == "64"; assert Hex2(0x6E) == "6E"; assert Hex2(0x6F) == "6F"; assert Hex2(0x74) == "74";
  }

  lemma BiosHexNode()
    ensures Hex([0x65, 0x65, 0x64, 0x45, 0x46, 0x49]) == "656564454649"
  {
    assert Hex2(0x45) == "45"; assert Hex2(0x46) == "46"; assert Hex2(0x49) == "49"; assert Hex2(0x64) == "64"; assert Hex2(0x65) == "65";
  }

  lemma BiosDashed()
    ensures Dashed("21686148", "6449", "6E6F", "744E", "656564454649") + "\n" == "21686148-6449-6E6F-744E-656564454649\n"
  {
  }

  lemma BiosText()
    ensures Print(BiosType) == "21686148-6449-6E6F-744E-656564454649\n"
  {
    BiosBytes();
    BiosGroups(BiosType);
    BiosHexTime();
    BiosHexMid();
    BiosHexNode();
    BiosDashed();
    PrintGroups(BiosType, "21686148", "6449", "6E6F", "744E", "656564454649");
  }

  lemma DefaultDiskBytes()
    ensures DefaultDiskGuid == [0x4F, 0x57, 0x52, 0x54, 0x11, 0x22, 0x33, 0x44, 0x55, 0x66, 0x77, 0x88, 0x99, 0xAA, 0xBB, 0x00]
  {
    Pow256Values();
  }

  lemma DefaultDiskGroups(g: Guid)
    requires g == [0x4F, 0x57, 0x52, 0x54, 0x11, 0x22, 0x33, 0x44, 0x55, 0x66, 0x77, 0x88, 0x99, 0xAA, 0xBB, 0x00]
    ensures [g[3], g[2], g[1], g[0]] == [0x54, 0x52, 0x57, 0x4F] && [g[5], g[4]] == [0x22, 0x11] && [g[7], g[6]] == [0x44, 0x33]
    ensures g[8..10] == [0x55, 0x66] && g[10..16] == [0x77, 0x88, 0x99, 0xAA, 0xBB, 0x00]
  {
  }

  lemma DefaultDiskHexTime()
    ensures Hex([0x54, 0x52, 0x57, 0x4F]) == "5452574F"
  {
    assert Hex2(0x4F) == "4F"; assert Hex2(0x52) == "52"; assert Hex2(0x54) == "54"; assert Hex2(0x57) == "57";
  }

  lemma DefaultDiskHexMid()
    ensures Hex([0x22, 0x11]) == "2211" && Hex([0x44, 0x33]) == "4433" && Hex([0x55, 0x66]) == "5566"
  {
    assert Hex2(0x11) == "11"; assert Hex2(0x22) == "22"; assert Hex2(0x33) == "33"; assert Hex2(0x44) == "44"; assert Hex2(0x55) == "55"; assert Hex2(0x66) == "66";
  }

  lemma DefaultDiskHexNode()
    ensures Hex([0x77, 0x88, 0x99, 0xAA, 0xBB, 0x00]) == "778899AABB00"
  {
    assert Hex2(0x00) == "00"; assert Hex2(0x77) == "77"; assert Hex2(0x88) == "88"; assert Hex2(0x99) == "99"; assert Hex2(0xAA) == "AA"; assert Hex2(0xBB) == "BB";
  }

  lemma DefaultDiskDashed()
    ensures Dashed("5452574F", "2211", "4433", "5566", "778899AABB00") + "\n" == "5452574F-2211-4433-5566-778899AABB00\n"
  {
  }

  lemma DefaultDiskText()
    ensures Print(DefaultDiskGuid) == "5452574F-2211-4433-5566-778899AABB00\n"
  {
    DefaultDiskBytes();
    DefaultDiskGroups(DefaultDiskGuid);
    DefaultDiskHexTime();
    DefaultDiskHexMid();
    DefaultDiskHexNode();
    DefaultDiskDashed();
    PrintGroups(DefaultDiskGuid, "5452574F", "2211", "4433", "5566", "778899AABB00");
  }

  /** A string of 36 hyphens is long enough but the scan runs off its end. */
  lemma HyphensRunOut()
    ensures Parse(seq(36, _ => '-')) == Err(EndOfString)
  {
    var h: string := seq(36, _ => '-');
    CStringNoNul(h);
    HyphenScan(h, 0);
  }

  lemma {:induction false} HyphenScan(h: string, i: nat)
    requires h == seq(36, _ => '-') && i <= 12
    ensures ReadPairs(h, i, 3 * i) == Err(EndOfString)
    decreases 12 - i
  {
    if i < 12 {
      HyphenScan(h, i + 1);
    }
  }
}
