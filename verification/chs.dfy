/** to_chs: a linear sector number as the 3-byte cylinder/head/sector field of a legacy partition entry. */
module Chs {
  import opened Bytes
  import Arith

  /** `(c >> 2) & 0xC0`: bits 8 and 9 of the cylinder moved to bits 6 and 7. */
  function CylHighBits(c: nat): (r: byte)
    ensures r % 64 == 0 && r / 64 == c / 256 % 4
  {
    var q := c / 4;
    assert c / 256 == q / 64;
    assert q == 256 * (q / 256) + q % 256;
    assert q % 256 == 64 * (q % 256 / 64) + q % 256 % 64;
    assert q / 64 == 4 * (q / 256) + q % 256 / 64;
    q % 256 / 64 * 64
  }

  /** A cylinder/head/sector address; sectors count from 1. */
  datatype Address = Address(cylinder: nat, head: nat, sector: nat)

  /** The sector number an address denotes for the given geometry. */
  function Linear(a: Address, heads: nat, sectors: nat): int {
    (a.cylinder * heads + a.head) * sectors + a.sector - 1
  }

  /** Splits a linear sector number into cylinder, head and 1-based sector for geometry heads x sectors. */
  function Split(sect: nat, heads: nat, sectors: nat): (a: Address)
    requires heads > 0 && sectors > 0
    ensures 1 <= a.sector <= sectors && a.head < heads
    ensures a.sector == sect % sectors + 1
    ensures a.head == sect / sectors % heads
    ensures a.cylinder == sect / (sectors * heads)
    ensures Linear(a, heads, sectors) == sect
  {
    var t := sect / sectors;
    var a := Address(t / heads, t % heads, sect % sectors + 1);
    Arith.DivDiv(sect, sectors, heads);
    assert t == heads * a.cylinder + a.head;
    assert sect == sectors * t + sect % sectors;
    assert (a.cylinder * heads + a.head) * sectors == sectors * t;
    a
  }

  /** The legacy 3-byte field: head, then sector with cylinder bits 8-9 in bits 6-7, then the low cylinder byte. */
  function Pack(a: Address): (chs: seq<byte>)
    ensures |chs| == 3
    ensures chs[0] == a.head % 256 && chs[2] == a.cylinder % 256
    ensures a.sector < 64 ==> chs[1] % 64 == a.sector && chs[1] / 64 == a.cylinder / 256 % 4
  {
    var b1 := Or8(a.sector % 256, CylHighBits(a.cylinder));
    if a.sector < 64 then
      assert a.sector % 256 == a.sector;
      PackSector(a.sector, a.cylinder);
      assert b1 % 64 == a.sector;
      [a.head % 256, b1, a.cylinder % 256]
    else
      [a.head % 256, b1, a.cylinder % 256]
  }

  /** to_chs. */
  function ToChs(sect: nat, heads: nat, sectors: nat): (chs: seq<byte>)
    requires heads > 0 && sectors > 0
    ensures |chs| == 3
    ensures chs[0] == sect / sectors % heads % 256
    ensures chs[2] == sect / (sectors * heads) % 256
    ensures sectors <= 63 ==> chs[1] % 64 == sect % sectors + 1
    ensures sectors <= 63 ==> chs[1] / 64 == sect / (sectors * heads) / 256 % 4
  {
    Pack(Split(sect, heads, sectors))
  }

  /** A sector number below 64 and the high cylinder bits share the middle byte without overlapping. */
  lemma PackSector(s: nat, c: nat)
    requires s < 64
    ensures Or8(s, CylHighBits(c)) % 64 == s
    ensures Or8(s, CylHighBits(c)) / 64 == c / 256 % 4
  {
    var x := CylHighBits(c);
    var k := x / 64;
    assert x == 64 * k;
    assert Or8(s, x) == s + 64 * k;
    Arith.DivModUnique(s + 64 * k, 64, k, s);
  }

  /** The field as a legacy reader unpacks it. */
  function Unpack(chs: seq<byte>): (a: Address)
    requires |chs| == 3
    ensures a.cylinder < 1024 && a.head < 256 && a.sector < 64
  {
    Address(chs[2] as int + 256 * (chs[1] as int / 64), chs[0], chs[1] % 64)
  }

  /** Unpacking recovers head and sector exactly and the cylinder modulo 1024. */
  lemma UnpackPack(a: Address)
    requires a.head < 256 && a.sector < 64
    ensures Unpack(Pack(a)) == a.(cylinder := a.cylinder % 1024)
  {
    var chs := Pack(a);
    CylinderLow10(a.cylinder, chs[2], chs[1] as int / 64);
  }

  /**
   * For geometries the legacy field can hold (at most 63 sectors, 256 heads) the encoding
   * is exact below cylinder 1024: unpacking it and converting back gives the sector number.
   */
  lemma ToChsLinear(sect: nat, heads: nat, sectors: nat)
    requires 0 < heads <= 256 && 0 < sectors <= 63
    requires sect < 1024 * heads * sectors
    ensures Unpack(ToChs(sect, heads, sectors)) == Split(sect, heads, sectors)
    ensures Linear(Unpack(ToChs(sect, heads, sectors)), heads, sectors) == sect
  {
    var a := Split(sect, heads, sectors);
    CylinderBelow1024(sect, heads, sectors);
    UnpackPackExact(a);
  }

  /** Below cylinder 1024 unpacking recovers the whole address. */
  lemma UnpackPackExact(a: Address)
    requires a.cylinder < 1024 && a.head < 256 && a.sector < 64
    ensures Unpack(Pack(a)) == a
  {
    UnpackPack(a);
    Arith.DivModUnique(a.cylinder, 1024, 0, a.cylinder);
  }

  /** The low byte and the two high bits put back together give the cylinder modulo 1024. */
  lemma CylinderLow10(c: nat, low: int, high: int)
    requires low == c % 256 && high == c / 256 % 4
    ensures low + 256 * high == c % 1024
  {
    var q := c / 256;
    assert c == 256 * q + low;
    assert q == 4 * (q / 4) + high;
    assert c / 1024 == q / 4 by { Arith.DivDiv(c, 256, 4); }
    Arith.DivModUnique(c, 1024, q / 4, low + 256 * high);
  }

  lemma CylinderBelow1024(sect: nat, heads: nat, sectors: nat)
    requires heads > 0 && sectors > 0 && sect < 1024 * heads * sectors
    ensures sect / (sectors * heads) < 1024
  {
    var cyl := sectors * heads;
    assert 1024 * heads * sectors == 1024 * cyl;
    var c := sect / cyl;
    assert cyl * c <= sect;
    Arith.MulCancelLt(cyl, c, 1024);
  }
}
