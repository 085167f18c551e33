/**
 * The planner loop that gen_ptable and gen_gptable share: each requested partition is placed after
 * the previous one, a track of `sectors` further on, and either its start is rounded up to the
 * kilobyte alignment or its end is rounded up to the next cylinder. The planner also produces the
 * two numbers per partition that the tool prints, start and length in bytes.
 */
module Layout {
  import opened Results
  import opened Bytes
  import opened Rounding

  /** One `-p` option: the size in kilobytes and the partition type in force when it was given. */
  datatype Request = Request(sizeKb: nat, typ: byte)

  /** The disk geometry; `kbAlign` is the alignment in sectors, 0 meaning "align to cylinders". */
  datatype Geometry = Geometry(heads: nat, sectors: nat, kbAlign: nat) {
    predicate Valid() {
      heads > 0 && sectors > 0
    }

    function Cylinder(): nat {
      heads * sectors
    }
  }

  /** A partition placed on the disk, in sectors. */
  datatype Placement = Placement(start: nat, len: nat) {
    /** The first sector after the partition. */
    function End(): nat {
      start + len
    }
  }

  /** What became of one request: skipped (zero size with `-n`) or placed. */
  datatype Slot = Skipped | Placed(at: Placement)

  /** The slots, index for index with the requests, and the cursor after the last placed partition. */
  datatype Layout = Layout(slots: seq<Slot>, cursor: nat)

  /** "Invalid size in partition i": a zero-sized request while skipping is off. */
  datatype PlanError = InvalidSize(index: nat)

  /** Where the partition after `cursor` starts: one track further on, rounded up to the alignment if one is set. */
  function Start(cursor: nat, geo: Geometry): (s: nat)
    requires geo.Valid()
    ensures cursor + geo.sectors <= s
    ensures geo.kbAlign == 0 ==> s == cursor + geo.sectors
    ensures geo.kbAlign != 0 ==> s % geo.kbAlign == 0 && s < cursor + geo.sectors + geo.kbAlign
  {
    if geo.kbAlign != 0 then RoundToKb(cursor + geo.sectors, geo.kbAlign) else cursor + geo.sectors
  }

  /** With an alignment set, the start is the first aligned sector at least one track past the cursor. */
  lemma StartLeast(cursor: nat, geo: Geometry, m: nat)
    requires geo.Valid() && geo.kbAlign != 0
    requires m % geo.kbAlign == 0 && m >= cursor + geo.sectors
    ensures Start(cursor, geo) <= m
  {
    RoundToKbLeast(cursor + geo.sectors, geo.kbAlign, m);
  }

  /** Place a request of `sizeKb` kilobytes (two sectors each) after `cursor`. */
  function Place(cursor: nat, sizeKb: nat, geo: Geometry): (p: Placement)
    requires geo.Valid()
    ensures p.start == Start(cursor, geo)
    ensures p.len >= 2 * sizeKb
    ensures geo.kbAlign != 0 ==> p.len == 2 * sizeKb
    ensures geo.kbAlign == 0 ==> p.End() % geo.Cylinder() == 0 && p.End() <= p.start + 2 * sizeKb + geo.Cylinder()
  {
    var s := Start(cursor, geo);
    var sect := if geo.kbAlign == 0 then RoundToCyl(s + 2 * sizeKb, geo.heads, geo.sectors) else s + 2 * sizeKb;
    Placement(s, sect - s)
  }

  /** With cylinder alignment the partition ends at the first cylinder boundary strictly after its data. */
  lemma PlaceLeastCylinder(cursor: nat, sizeKb: nat, geo: Geometry, m: nat)
    requires geo.Valid() && geo.kbAlign == 0
    requires m % geo.Cylinder() == 0 && m > Start(cursor, geo) + 2 * sizeKb
    ensures Place(cursor, sizeKb, geo).End() <= m
  {
    RoundToCylLeast(Start(cursor, geo) + 2 * sizeKb, geo.heads, geo.sectors, m);
  }

  /**
   * The planner loop over the requests, in order. The first zero-sized request fails the whole plan
   * unless `skipNull` is set, in which case its slot is skipped and the cursor stays where it was.
   */
  function Plan(reqs: seq<Request>, geo: Geometry, skipNull: bool): (r: Result<Layout, PlanError>)
    requires geo.Valid()
    ensures r.Ok? ==> |r.value.slots| == |reqs|
    ensures r.Ok? ==> skipNull || forall j :: 0 <= j < |reqs| ==> reqs[j].sizeKb != 0
    ensures r.Err? ==> !skipNull && r.error.index < |reqs| && reqs[r.error.index].sizeKb == 0
    ensures r.Err? ==> forall j :: 0 <= j < r.error.index ==> reqs[j].sizeKb != 0
    decreases |reqs|
  {
    if reqs == [] then
      Ok(Layout([], 0))
    else
      var n := |reqs| - 1;
      assert forall j :: 0 <= j < n ==> reqs[..n][j] == reqs[j];
      var prev :- Plan(reqs[..n], geo, skipNull);
      if reqs[n].sizeKb == 0 then
        if skipNull then Ok(Layout(prev.slots + [Skipped], prev.cursor)) else Err(InvalidSize(n))
      else
        var p := Place(prev.cursor, reqs[n].sizeKb, geo);
        Ok(Layout(prev.slots + [Placed(p)], p.End()))
  }

  /** With skipping on, the plan never fails. */
  lemma {:induction false} SkipNeverFails(reqs: seq<Request>, geo: Geometry)
    requires geo.Valid()
    ensures Plan(reqs, geo, true).Ok?
    decreases |reqs|
  {
    if reqs != [] {
      SkipNeverFails(reqs[..|reqs| - 1], geo);
    }
  }

  /** Planning a prefix of the requests gives a prefix of the plan: the loop never looks ahead. */
  lemma {:induction false} PlanPrefix(reqs: seq<Request>, geo: Geometry, skipNull: bool, k: nat)
    requires geo.Valid() && k <= |reqs|
    requires Plan(reqs, geo, skipNull).Ok?
    ensures Plan(reqs[..k], geo, skipNull).Ok?
    ensures Plan(reqs[..k], geo, skipNull).value.slots == Plan(reqs, geo, skipNull).value.slots[..k]
    ensures Plan(reqs[..k], geo, skipNull).value.cursor <= Plan(reqs, geo, skipNull).value.cursor
    decreases |reqs| - k
  {
    if k < |reqs| {
      var front := reqs[..|reqs| - 1];
      assert front[..k] == reqs[..k];
      PlanLast(reqs, geo, skipNull);
      PlanPrefix(front, geo, skipNull, k);
      var full, prev := Plan(reqs, geo, skipNull).value, Plan(front, geo, skipNull).value;
      assert full.slots[..k] == prev.slots[..k];
    } else {
      assert reqs[..k] == reqs;
    }
  }

  /** The last step of the loop extends the plan of the other requests and does not move the cursor back. */
  lemma PlanLast(reqs: seq<Request>, geo: Geometry, skipNull: bool)
    requires geo.Valid() && reqs != []
    requires Plan(reqs, geo, skipNull).Ok?
    ensures Plan(reqs[..|reqs| - 1], geo, skipNull).Ok?
    ensures Plan(reqs[..|reqs| - 1], geo, skipNull).value.slots == Plan(reqs, geo, skipNull).value.slots[..|reqs| - 1]
    ensures Plan(reqs[..|reqs| - 1], geo, skipNull).value.cursor <= Plan(reqs, geo, skipNull).value.cursor
  {
    var n := |reqs| - 1;
    var prev := Plan(reqs[..n], geo, skipNull).value;
    var full := Plan(reqs, geo, skipNull).value;
    assert full.slots[..n] == prev.slots;
  }

  /**
   * Slot i is decided by request i and the cursor left by the requests before it: skipped when
   * the size is zero, and otherwise placed one track after that cursor.
   */
  lemma SlotRule(reqs: seq<Request>, geo: Geometry, skipNull: bool, i: nat)
    requires geo.Valid() && i < |reqs|
    requires Plan(reqs, geo, skipNull).Ok?
    ensures Plan(reqs[..i], geo, skipNull).Ok?
    ensures Plan(reqs, geo, skipNull).value.slots[i]
      == if reqs[i].sizeKb == 0 then Skipped
         else Placed(Place(Plan(reqs[..i], geo, skipNull).value.cursor, reqs[i].sizeKb, geo))
  {
    PlanPrefix(reqs, geo, skipNull, i + 1);
    var front := reqs[..i + 1];
    assert front[..i] == reqs[..i];
    assert front[i] == reqs[i];
    var full := Plan(reqs, geo, skipNull).value;
    assert full.slots[..i + 1][i] == full.slots[i];
  }

  /** What the planner guarantees about one placed partition. */
  predicate Fits(p: Placement, q: Request, geo: Geometry)
    requires geo.Valid()
  {
    && p.start >= geo.sectors
    && p.len >= 2 * q.sizeKb
    && (geo.kbAlign == 0 ==> p.End() % geo.Cylinder() == 0)
    && (geo.kbAlign != 0 ==> p.start % geo.kbAlign == 0 && p.len == 2 * q.sizeKb)
  }

  /**
   * A sound layout: a slot per request, skipped exactly for the zero sizes, every placed partition
   * fitting its request and ending by the cursor, and the placed partitions in increasing order
   * with at least one free sector between consecutive ones.
   */
  predicate Sound(reqs: seq<Request>, geo: Geometry, l: Layout)
    requires geo.Valid()
  {
    && |l.slots| == |reqs|
    && (forall i :: 0 <= i < |reqs| ==> (l.slots[i].Skipped? <==> reqs[i].sizeKb == 0))
    && (forall i :: 0 <= i < |reqs| && l.slots[i].Placed? ==> Fits(l.slots[i].at, reqs[i], geo) && l.slots[i].at.End() <= l.cursor)
    && (forall i, j :: 0 <= i < j < |reqs| && l.slots[i].Placed? && l.slots[j].Placed? ==> l.slots[i].at.End() < l.slots[j].at.start)
  }

  /** The step of PlanSound: a sound layout extended by one more request is still sound. */
  lemma SoundStep(reqs: seq<Request>, geo: Geometry, prev: Layout, l: Layout)
    requires geo.Valid() && reqs != []
    requires Sound(reqs[..|reqs| - 1], geo, prev)
    requires reqs[|reqs| - 1].sizeKb == 0 ==> l == Layout(prev.slots + [Skipped], prev.cursor)
    requires reqs[|reqs| - 1].sizeKb != 0 ==>
      l == Layout(prev.slots + [Placed(Place(prev.cursor, reqs[|reqs| - 1].sizeKb, geo))], Place(prev.cursor, reqs[|reqs| - 1].sizeKb, geo).End())
    ensures Sound(reqs, geo, l)
  {
    var n := |reqs| - 1;
    if reqs[n].sizeKb == 0 {
      SoundSkip(reqs, geo, prev);
    } else {
      SoundPlace(reqs, geo, prev);
    }
  }

  /** A skipped request keeps a sound layout sound. */
  lemma SoundSkip(reqs: seq<Request>, geo: Geometry, prev: Layout)
    requires geo.Valid() && reqs != [] && reqs[|reqs| - 1].sizeKb == 0
    requires Sound(reqs[..|reqs| - 1], geo, prev)
    ensures Sound(reqs, geo, Layout(prev.slots + [Skipped], prev.cursor))
  {
    var n := |reqs| - 1;
    var l := Layout(prev.slots + [Skipped], prev.cursor);
    forall i | 0 <= i < n
      ensures l.slots[i] == prev.slots[i] && reqs[i] == reqs[..n][i]
    {
    }
  }

  /** A placed request keeps a sound layout sound: it starts past the cursor, so after every earlier partition. */
  lemma SoundPlace(reqs: seq<Request>, geo: Geometry, prev: Layout)
    requires geo.Valid() && reqs != [] && reqs[|reqs| - 1].sizeKb != 0
    requires Sound(reqs[..|reqs| - 1], geo, prev)
    ensures var p := Place(prev.cursor, reqs[|reqs| - 1].sizeKb, geo);
      Sound(reqs, geo, Layout(prev.slots + [Placed(p)], p.End()))
  {
    var n := |reqs| - 1;
    var p := Place(prev.cursor, reqs[n].sizeKb, geo);
    var l := Layout(prev.slots + [Placed(p)], p.End());
    forall i | 0 <= i < n
      ensures l.slots[i] == prev.slots[i] && reqs[i] == reqs[..n][i]
    {
    }
    assert prev.cursor < p.start;
    forall i | 0 <= i < n && l.slots[i].Placed?
      ensures l.slots[i].at.End() < l.slots[n].at.start
    {
      assert prev.slots[i].at.End() <= prev.cursor;
    }
  }

  lemma {:induction false} PlanSound(reqs: seq<Request>, geo: Geometry, skipNull: bool)
    requires geo.Valid()
    requires Plan(reqs, geo, skipNull).Ok?
    ensures Sound(reqs, geo, Plan(reqs, geo, skipNull).value)
    decreases |reqs|
  {
    if reqs != [] {
      var front := reqs[..|reqs| - 1];
      PlanSound(front, geo, skipNull);
      SoundStep(reqs, geo, Plan(front, geo, skipNull).value, Plan(reqs, geo, skipNull).value);
    }
  }

  /** Zero-sized requests that were skipped leave the cursor at sector 0. */
  lemma {:induction false} SkippedCursor(reqs: seq<Request>, geo: Geometry, skipNull: bool)
    requires geo.Valid()
    requires Plan(reqs, geo, skipNull).Ok?
    requires forall j :: 0 <= j < |reqs| ==> reqs[j].sizeKb == 0
    ensures Plan(reqs, geo, skipNull).value.cursor == 0
    decreases |reqs|
  {
    if reqs != [] {
      var front := reqs[..|reqs| - 1];
      assert forall j :: 0 <= j < |front| ==> front[j] == reqs[j];
      SkippedCursor(front, geo, skipNull);
    }
  }

  /** The first placed partition starts at Start(0): one track in, rounded to the alignment. */
  lemma FirstStart(reqs: seq<Request>, geo: Geometry, skipNull: bool, i: nat)
    requires geo.Valid() && i < |reqs|
    requires Plan(reqs, geo, skipNull).Ok?
    requires reqs[i].sizeKb != 0 && forall j :: 0 <= j < i ==> reqs[j].sizeKb == 0
    ensures Plan(reqs, geo, skipNull).value.slots[i] == Placed(Place(0, reqs[i].sizeKb, geo))
    ensures Plan(reqs, geo, skipNull).value.slots[i].at.start == Start(0, geo)
  {
    SlotRule(reqs, geo, skipNull, i);
    var front := reqs[..i];
    assert forall j :: 0 <= j < |front| ==> front[j] == reqs[j];
    SkippedCursor(front, geo, skipNull);
  }

  /** The placed partitions in slot order. */
  function Placements(slots: seq<Slot>): (ps: seq<Placement>)
    ensures |ps| <= |slots|
    decreases |slots|
  {
    if slots == [] then []
    else
      var n := |slots| - 1;
      Placements(slots[..n]) + (if slots[n].Placed? then [slots[n].at] else [])
  }

  /** The requests with a non-zero size, in order. */
  function NonZero(reqs: seq<Request>): (rs: seq<Request>)
    ensures forall j :: 0 <= j < |rs| ==> rs[j].sizeKb != 0
    ensures |rs| <= |reqs|
    decreases |reqs|
  {
    if reqs == [] then []
    else
      var n := |reqs| - 1;
      NonZero(reqs[..n]) + (if reqs[n].sizeKb != 0 then [reqs[n]] else [])
  }

  /**
   * Skipping a zero-sized request leaves no trace: planning with `-n` places exactly the partitions,
   * at exactly the offsets, that planning the non-zero requests alone would.
   */
  lemma {:induction false} SkipIsFilter(reqs: seq<Request>, geo: Geometry)
    requires geo.Valid()
    ensures Plan(reqs, geo, true).Ok? && Plan(NonZero(reqs), geo, false).Ok?
    ensures Placements(Plan(reqs, geo, true).value.slots) == Placements(Plan(NonZero(reqs), geo, false).value.slots)
    ensures Plan(reqs, geo, true).value.cursor == Plan(NonZero(reqs), geo, false).value.cursor
    decreases |reqs|
  {
    if reqs == [] {
    } else {
      var n := |reqs| - 1;
      var front := reqs[..n];
      SkipIsFilter(front, geo);
      var l := Plan(reqs, geo, true).value;
      var prev := Plan(front, geo, true).value;
      var nz := NonZero(front);
      var m := Plan(nz, geo, false).value;
      assert l.slots[..n] == prev.slots;
      if reqs[n].sizeKb == 0 {
        assert NonZero(reqs) == nz;
      } else {
        var rs := NonZero(reqs);
        assert rs == nz + [reqs[n]];
        assert rs[..|nz|] == nz;
        var p := Place(prev.cursor, reqs[n].sizeKb, geo);
        var mr := Plan(rs, geo, false).value;
        assert mr.slots == m.slots + [Placed(p)];
        assert mr.slots[..|mr.slots| - 1] == m.slots;
      }
    }
  }

  /** Without zero-sized requests the `-n` flag makes no difference. */
  lemma {:induction false} SkipIrrelevant(reqs: seq<Request>, geo: Geometry)
    requires geo.Valid()
    requires forall j :: 0 <= j < |reqs| ==> reqs[j].sizeKb != 0
    ensures Plan(reqs, geo, true) == Plan(reqs, geo, false)
    decreases |reqs|
  {
    if reqs != [] {
      SkipIrrelevant(reqs[..|reqs| - 1], geo);
    }
  }

  /** The lines printed on stdout: start and length of each placed partition, in bytes. */
  function Report(ps: seq<Placement>): (lines: seq<nat>)
    ensures |lines| == 2 * |ps|
  {
    if ps == [] then [] else [ps[0].start * 512, ps[0].len * 512] + Report(ps[1..])
  }

  lemma {:induction false} ReportAt(ps: seq<Placement>, k: nat)
    requires k < |ps|
    ensures Report(ps)[2 * k] == ps[k].start * 512 && Report(ps)[2 * k + 1] == ps[k].len * 512
  {
    if k > 0 {
      ReportAt(ps[1..], k - 1);
    }
  }

  /** Read the printed lines back as placements. */
  function Unreport(lines: seq<nat>): (ps: seq<Placement>)
    ensures |ps| == |lines| / 2
  {
    if |lines| < 2 then [] else [Placement(lines[0] / 512, lines[1] / 512)] + Unreport(lines[2..])
  }

  /** The printed lines determine the partitions: nothing is lost in the output. */
  lemma {:induction false} UnreportReport(ps: seq<Placement>)
    ensures Unreport(Report(ps)) == ps
  {
    if ps != [] {
      var lines := Report(ps);
      assert lines[2..] == Report(ps[1..]);
      UnreportReport(ps[1..]);
    }
  }

  /** The stdout of a successful plan. */
  function Lines(l: Layout): seq<nat> {
    Report(Placements(l.slots))
  }

  /** heads 4, sectors 32, one 64 KB partition: start 16384 bytes, and the end moves to the second cylinder. */
  lemma CylinderExample()
    ensures Plan([Request(64, 0x83)], Geometry(4, 32, 0), false) == Ok(Layout([Placed(Placement(32, 224))], 256))
    ensures Lines(Layout([Placed(Placement(32, 224))], 256)) == [16384, 114688]
  {
    var reqs := [Request(64, 0x83)];
    assert reqs[..0] == [];
    var geo := Geometry(4, 32, 0);
    assert Plan(reqs[..0], geo, false) == Ok(Layout([], 0));
    assert Start(0, geo) == 32;
    assert RoundToCyl(160, 4, 32) == 256;
    assert Place(0, 64, geo) == Placement(32, 224);
    var slots := [Placed(Placement(32, 224))];
    assert [] + slots == slots;
    assert slots[..0] == [];
  }

  /** The same request with `-l 64` (an alignment of 128 sectors): the start moves up to sector 128. */
  lemma AlignedExample()
    ensures Plan([Request(64, 0x83)], Geometry(4, 32, 128), false) == Ok(Layout([Placed(Placement(128, 128))], 256))
  {
    var reqs := [Request(64, 0x83)];
    assert reqs[..0] == [];
    var geo := Geometry(4, 32, 128);
    assert Plan(reqs[..0], geo, false) == Ok(Layout([], 0));
    assert RoundToKb(32, 128) == 128;
    assert Place(0, 64, geo) == Placement(128, 128);
    assert [] + [Placed(Placement(128, 128))] == [Placed(Placement(128, 128))];
  }
}
