/** Fixed-width integers and explicit little-endian packing, in place of the host-order struct stores. */
module Bytes {
  import Arith

  type byte = b: int | 0 <= b < 256
  type u16 = x: int | 0 <= x < 0x1_0000
  type u32 = x: int | 0 <= x < 0x1_0000_0000
  type u64 = x: int | 0 <= x < 0x1_0000_0000_0000_0000

  const U32_LIMIT: int := 0x1_0000_0000
  const U64_LIMIT: int := 0x1_0000_0000_0000_0000

  /** Storing into a uint32_t field keeps the low 32 bits. */
  function U32(x: int): (r: u32)
    ensures 0 <= x < U32_LIMIT ==> r == x
    ensures (r - x) % U32_LIMIT == 0
  {
    x % U32_LIMIT
  }

  /** Unsigned 64-bit arithmetic wraps modulo 2^64. */
  function U64(x: int): (r: u64)
    ensures 0 <= x < U64_LIMIT ==> r == x
    ensures (r - x) % U64_LIMIT == 0
  {
    x % U64_LIMIT
  }

  function Pow256(n: nat): (r: nat)
    ensures r > 0
  {
    if n == 0 then 1 else 256 * Pow256(n - 1)
  }

  lemma Pow256Values()
    ensures Pow256(2) == 0x1_0000
    ensures Pow256(4) == U32_LIMIT
    ensures Pow256(8) == U64_LIMIT
  {
    assert Pow256(1) == 256;
    assert Pow256(2) == 0x1_0000;
    assert Pow256(3) == 0x100_0000;
    assert Pow256(4) == U32_LIMIT;
    assert Pow256(5) == 0x100_0000_0000;
    assert Pow256(6) == 0x1_0000_0000_0000;
    assert Pow256(7) == 0x100_0000_0000_0000;
  }

  function Pow2(n: nat): (r: nat)
    ensures r > 0
  {
    if n == 0 then 1 else 2 * Pow2(n - 1)
  }

  /** Bitwise OR of the low n bits of a and b. */
  function OrBits(a: nat, b: nat, n: nat): (r: nat)
    ensures r < Pow2(n)
  {
    if n == 0 then 0
    else (if a % 2 == 1 || b % 2 == 1 then 1 else 0) + 2 * OrBits(a / 2, b / 2, n - 1)
  }

  lemma {:induction false} OrBitsZero(b: nat, n: nat)
    requires b < Pow2(n)
    ensures OrBits(0, b, n) == b
  {
    if n > 0 {
      OrBitsZero(b / 2, n - 1);
    }
  }

  /** OR of values whose set bits do not overlap is their sum. */
  lemma {:induction false} OrBitsDisjoint(a: nat, m: nat, k: nat, n: nat)
    requires k <= n && a < Pow2(k) && m * Pow2(k) < Pow2(n)
    ensures OrBits(a, m * Pow2(k), n) == a + m * Pow2(k)
  {
    if k == 0 {
      OrBitsZero(m, n);
    } else {
      var x := m * Pow2(k - 1);
      assert m * Pow2(k) == 2 * x;
      OrBitsDisjoint(a / 2, m, k - 1, n - 1);
    }
  }

  /** `a | b` on two bytes. */
  function Or8(a: byte, b: byte): (r: byte)
    ensures a < 64 && b % 64 == 0 ==> r == a + b
  {
    assert Pow2(8) == 256 by { assert Pow2(6) == 64; }
    var r := OrBits(a, b, 8);
    if a < 64 && b % 64 == 0 then
      assert Pow2(6) == 64;
      assert b == (b / 64) * Pow2(6);
      OrBitsDisjoint(a, b / 64, 6, 8);
      r
    else
      r
  }

  /** The n bytes of x, least significant first (the low n bytes when x is wider). */
  function LE(x: nat, n: nat): (r: seq<byte>)
    ensures |r| == n
    decreases n
  {
    if n == 0 then [] else [x % 256] + LE(x / 256, n - 1)
  }

  /** A GUID as the 16 bytes it occupies on disk. */
  type Guid = g: seq<byte> | |g| == 16 witness seq(16, _ => 0)

  /** One step of the encoding: the low byte, then the rest. */
  lemma LEStep(x: nat, n: nat)
    requires n > 0
    ensures LE(x, n) == [x % 256] + LE(x / 256, n - 1)
  {
  }

  /** Reads a little-endian unsigned integer. */
  function FromLE(bs: seq<byte>): (r: nat)
    ensures r < Pow256(|bs|)
  {
    if bs == [] then 0 else bs[0] + 256 * FromLE(bs[1..])
  }

  /** Encoding then decoding is the identity on values that fit. */
  lemma {:induction false} FromLEOfLE(x: nat, n: nat)
    requires x < Pow256(n)
    ensures FromLE(LE(x, n)) == x
    decreases n
  {
    if n > 0 {
      assert x / 256 < Pow256(n - 1);
      FromLEOfLE(x / 256, n - 1);
      assert LE(x, n)[1..] == LE(x / 256, n - 1);
    }
  }

  /** Decoding then encoding is the identity on byte strings. */
  lemma {:induction false} LEOfFromLE(bs: seq<byte>)
    ensures LE(FromLE(bs), |bs|) == bs
  {
    if bs != [] {
      var x := FromLE(bs);
      assert x % 256 == bs[0] && x / 256 == FromLE(bs[1..]);
      LEOfFromLE(bs[1..]);
    }
  }

  /** Little-endian encoding is injective on values that fit. */
  lemma LEInjective(x: nat, y: nat, n: nat)
    requires x < Pow256(n) && y < Pow256(n)
    ensures LE(x, n) == LE(y, n) ==> x == y
  {
    FromLEOfLE(x, n);
    FromLEOfLE(y, n);
  }

  function Zeros(n: nat): (r: seq<byte>)
    ensures |r| == n
    ensures forall i :: 0 <= i < n ==> r[i] == 0
  {
    seq(n, _ => 0)
  }

  /** Byte strings laid end to end, as consecutive fields or table entries are in memory. */
  function Join(parts: seq<seq<byte>>): (bs: seq<byte>)
  {
    if parts == [] then [] else parts[0] + Join(parts[1..])
  }

  lemma {:induction false} JoinLength(parts: seq<seq<byte>>, w: nat)
    requires forall j :: 0 <= j < |parts| ==> |parts[j]| == w
    ensures |Join(parts)| == w * |parts|
  {
    if parts != [] {
      JoinLength(parts[1..], w);
    }
  }

  /** A slice that lies past a prefix is a slice of what follows it. */
  lemma SliceAfter(a: seq<byte>, rest: seq<byte>, lo: nat, hi: nat)
    requires |a| <= lo <= hi <= |a| + |rest|
    ensures (a + rest)[lo..hi] == rest[lo - |a|..hi - |a|]
  {
  }

  /** The pieces of a concatenation are its slices at the running offsets. */
  lemma Slices3(a: seq<byte>, b: seq<byte>, c: seq<byte>)
    ensures var s := a + b + c;
      && s[0..|a|] == a && s[|a|..|a| + |b|] == b && s[|a| + |b|..|a| + |b| + |c|] == c
  {
  }

  lemma Slices4(a: seq<byte>, b: seq<byte>, c: seq<byte>, d: seq<byte>)
    ensures var s := a + b + c + d;
      && s[0..|a|] == a && s[|a|..|a| + |b|] == b && s[|a| + |b|..|a| + |b| + |c|] == c
      && s[|a| + |b| + |c|..|a| + |b| + |c| + |d|] == d
  {
    Slices3(a, b, c);
    assert (a + b + c + d)[0..|a| + |b| + |c|] == a + b + c;
  }

  /** A sequence is the concatenation of its slices at the given cuts. */
  lemma Split3(s: seq<byte>, i: nat, j: nat)
    requires i <= j <= |s|
    ensures s == s[0..i] + s[i..j] + s[j..]
  {
  }

  lemma Split4(s: seq<byte>, i: nat, j: nat, k: nat)
    requires i <= j <= k <= |s|
    ensures s == s[0..i] + s[i..j] + s[j..k] + s[k..]
  {
    Split3(s[0..k], i, j);
    assert s[0..k][0..i] == s[0..i] && s[0..k][i..j] == s[i..j] && s[0..k][j..] == s[j..k];
  }

  /** A slice of a piece found at offset `off` is the slice of the whole at the shifted bounds. */
  lemma SliceWithin(s: seq<byte>, off: nat, piece: seq<byte>, lo: nat, hi: nat)
    requires off + |piece| <= |s| && s[off..off + |piece|] == piece
    requires lo <= hi <= |piece|
    ensures s[off + lo..off + hi] == piece[lo..hi]
  {
    forall k | 0 <= k < hi - lo
      ensures s[off + lo..off + hi][k] == piece[lo..hi][k]
    {
      assert s[off + lo..off + hi][k] == s[off..off + |piece|][lo + k];
    }
  }

  lemma MulStep(w: nat, i: nat)
    requires i > 0
    ensures w * i == w + w * (i - 1)
  {
  }

  /** Part i of parts of equal width w sits at offset w*i. */
  lemma {:induction false} JoinAt(parts: seq<seq<byte>>, w: nat, i: nat, off: nat)
    requires forall j :: 0 <= j < |parts| ==> |parts[j]| == w
    requires i < |parts| && off == w * i
    ensures off + w <= |Join(parts)|
    ensures Join(parts)[off..off + w] == parts[i]
  {
    var tail := parts[1..];
    var rest := Join(tail);
    assert Join(parts) == parts[0] + rest;
    if i > 0 {
      assert forall j :: 0 <= j < |tail| ==> tail[j] == parts[j + 1];
      MulStep(w, i);
      JoinAt(tail, w, i - 1, off - w);
      SliceAfter(parts[0], rest, off, off + w);
    }
  }
}
