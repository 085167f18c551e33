/** The two rounding helpers of the planner: to the next cylinder, and up to the kilobyte alignment. */
module Rounding {
  import Arith

  /** C integer division: truncates toward zero, so the remainder takes the sign of the dividend. */
  function CDiv(a: int, b: int): (q: int)
    requires b > 0
    ensures a >= 0 ==> 0 <= a - q * b < b
    ensures a < 0 ==> -b < a - q * b <= 0
  {
    if a >= 0 then
      a / b
    else
      var q := -((-a) / b);
      assert -a == b * ((-a) / b) + (-a) % b;
      q
  }

  /** round_to_cyl: the next multiple of the cylinder size heads*sectors, strictly above sect. */
  function RoundToCyl(sect: nat, heads: nat, sectors: nat): (r: nat)
    requires heads > 0 && sectors > 0
    ensures r % (heads * sectors) == 0
    ensures sect < r <= sect + heads * sectors
    ensures sect % (heads * sectors) == 0 ==> r == sect + heads * sectors
  {
    var cyl := heads * sectors;
    assert sect + cyl - sect % cyl == (sect / cyl + 1) * cyl by {
      assert sect == cyl * (sect / cyl) + sect % cyl;
    }
    Arith.RoundUp(sect, cyl);
    sect + cyl - sect % cyl
  }

  /** No multiple of the cylinder size lies strictly between sect and its rounding. */
  lemma RoundToCylLeast(sect: nat, heads: nat, sectors: nat, m: nat)
    requires heads > 0 && sectors > 0
    requires m % (heads * sectors) == 0 && m > sect
    ensures RoundToCyl(sect, heads, sectors) <= m
  {
    Arith.MultipleOrder(heads * sectors, RoundToCyl(sect, heads, sectors), m);
  }

  /** round_to_kb: ((sect - 1) / kb_align + 1) * kb_align with C division. */
  function RoundToKb(sect: nat, kbAlign: nat): (r: nat)
    requires kbAlign > 0
    ensures sect >= 1 ==> r % kbAlign == 0 && sect <= r < sect + kbAlign
    ensures sect == 0 ==> r == (if kbAlign == 1 then 0 else kbAlign)
  {
    var q := CDiv(sect - 1, kbAlign);
    if sect >= 1 then
      assert q == (sect - 1) / kbAlign;
      Arith.RoundUp(sect - 1, kbAlign);
      (q + 1) * kbAlign
    else
      (q + 1) * kbAlign
  }

  /** For positive sectors the rounding is the least multiple of kb_align that is not below sect. */
  lemma RoundToKbLeast(sect: nat, kbAlign: nat, m: nat)
    requires kbAlign > 0 && sect >= 1
    requires m % kbAlign == 0 && m >= sect
    ensures RoundToKb(sect, kbAlign) <= m
  {
    Arith.MultipleOrder(kbAlign, RoundToKb(sect, kbAlign), m);
  }

  /** A positive multiple of kb_align is left where it is, so rounding twice is rounding once. */
  lemma RoundToKbIdempotent(sect: nat, kbAlign: nat)
    requires kbAlign > 0 && sect >= 1
    ensures sect % kbAlign == 0 ==> RoundToKb(sect, kbAlign) == sect
    ensures RoundToKb(RoundToKb(sect, kbAlign), kbAlign) == RoundToKb(sect, kbAlign)
  {
    if sect % kbAlign == 0 {
      RoundToKbLeast(sect, kbAlign, sect);
    }
    var r := RoundToKb(sect, kbAlign);
    RoundToKbLeast(r, kbAlign, r);
  }
}
