/**
 * The option loop of main. Each option updates the settings in the order given; `-p` checks the
 * partition count against the `-g` flag as it stands at that moment; after the loop the tool insists
 * on positive heads and sectors, an output file and no operands. Numeric arguments arrive here as the
 * value strtoul produced from the text.
 */
module Options {
  import opened Results
  import opened Bytes
  import opened Guids
  import opened SizeParse
  import opened Layout

  /** GPT_ENTRY_NUM, the size of the `parts` array. */
  const MaxGptParts: nat := 128
  /** The legacy table has four entries. */
  const MaxMbrParts: nat := 4
  /** The default signature, 'OWRT' read little-endian. */
  const DefaultSignature: u32 := 0x5452574F

  /** The `(int)` cast of an unsigned long: its low 32 bits as a two's-complement number. */
  function S32(v: nat): (r: int)
    ensures -0x8000_0000 <= r < 0x8000_0000
    ensures (r - v) % U32_LIMIT == 0
  {
    var w := v % U32_LIMIT;
    if w < 0x8000_0000 then w else w - U32_LIMIT
  }

  /** The cast keeps every value an int can hold and turns the top of the range negative. */
  lemma S32Values(v: nat)
    ensures v < 0x8000_0000 ==> S32(v) == v
    ensures 0x8000_0000 <= v < U32_LIMIT ==> S32(v) == v - U32_LIMIT
    ensures S32(v + U32_LIMIT) == S32(v)
  {
  }

  /** A `-l` argument small enough that twice it fits an int. */
  type AlignKb = k: nat | k < 0x4000_0000

  /** One command-line option with the value of its argument. */
  datatype Opt =
    | Output(name: string)     // -o
    | Verbose                  // -v
    | SkipNull                 // -n
    | UseGpt                   // -g
    | Heads(v: nat)            // -h
    | Sectors(v: nat)          // -s
    | Part(size: string)       // -p
    | Type(v: nat)             // -t
    | Active(v: nat)           // -a
    | Align(kb: AlignKb)       // -l
    | SetSignature(v: nat)     // -S
    | SetGuid(text: string)    // -G
    | Unknown                  // an option getopt does not know

  /** The globals and locals of main that the options set. */
  datatype Settings = Settings(
    output: Option<string>,
    verbose: nat,
    skipNull: bool,
    gpt: bool,
    heads: int,
    sectors: int,
    parts: seq<Request>,
    typ: byte,
    active: int,
    kbAlign: nat,
    signature: u32,
    guid: Guid)

  /** Their initial values. */
  const Defaults: Settings :=
    Settings(None, 0, false, false, -1, -1, [], 0x83, 1, 0, DefaultSignature, DefaultDiskGuid)

  /** The ways main exits with failure before planning. */
  datatype Failure = TooManyPartitions | InvalidGuid | Usage

  /** What main maintains about the settings: a partition array within its bound and an active slot in 0..4. */
  predicate Bounded(s: Settings) {
    && |s.parts| <= MaxGptParts
    && (!s.gpt ==> |s.parts| <= MaxMbrParts)
    && 0 <= s.active <= 4
    && s.kbAlign % 2 == 0
  }

  /** One pass of the option switch. */
  function Apply(s: Settings, o: Opt): (r: Result<Settings, Failure>)
    ensures Bounded(s) && r.Ok? ==> Bounded(r.value)
    ensures r.Err? ==> (o.Part? && r.error == TooManyPartitions) || (o.SetGuid? && r.error == InvalidGuid) || (o.Unknown? && r.error == Usage)
    ensures r.Ok? && !o.Part? ==> r.value.parts == s.parts
    ensures r.Ok? && !o.Heads? ==> r.value.heads == s.heads
  {
    match o
    case Output(name) => Ok(s.(output := Some(name)))
    case Verbose => Ok(s.(verbose := s.verbose + 1))
    case SkipNull => Ok(s.(skipNull := true))
    case UseGpt => Ok(s.(gpt := true))
    case Heads(v) => Ok(s.(heads := S32(v)))
    case Sectors(v) => Ok(s.(sectors := S32(v)))
    case Part(size) =>
      if |s.parts| > MaxGptParts - 1 || (!s.gpt && |s.parts| > 3) then Err(TooManyPartitions)
      else Ok(s.(parts := s.parts + [Request(ToKbytes(size), s.typ)]))
    case Type(v) => Ok(s.(typ := v % 256))
    case Active(v) =>
      var a := S32(v);
      Ok(s.(active := if a < 0 || a > 4 then 0 else a))
    case Align(kb) => Ok(s.(kbAlign := 2 * kb))
    case SetSignature(v) => Ok(s.(signature := U32(v)))
    case SetGuid(text) =>
      var g := Parse(text);
      if g.Ok? then Ok(s.(guid := g.value)) else Err(InvalidGuid)
    case Unknown => Err(Usage)
  }

  /** The option loop over the options in command-line order. */
  function Configure(opts: seq<Opt>): (r: Result<Settings, Failure>)
    ensures r.Ok? ==> Bounded(r.value)
    decreases |opts|
  {
    if opts == [] then Ok(Defaults)
    else
      var s :- Configure(opts[..|opts| - 1]);
      Apply(s, opts[|opts| - 1])
  }

  /** The check after the loop: no operands left, heads and sectors positive, an output file named. */
  function Finish(s: Settings, operands: nat): (r: Result<Settings, Failure>)
    ensures r.Ok? <==> operands == 0 && s.heads > 0 && s.sectors > 0 && s.output.Some?
    ensures r.Ok? ==> r.value == s
    ensures r.Err? ==> r.error == Usage
  {
    if operands != 0 || s.heads <= 0 || s.sectors <= 0 || s.output.None? then Err(Usage) else Ok(s)
  }

  /** main up to the choice of table: the option loop, then the final check. */
  function Settle(opts: seq<Opt>, operands: nat): (r: Result<Settings, Failure>)
    ensures r.Ok? ==> Bounded(r.value) && r.value.heads > 0 && r.value.sectors > 0 && r.value.output.Some?
  {
    var s :- Configure(opts);
    Finish(s, operands)
  }

  // ----- properties of the option loop -----

  /** The loop stops at the first failing option, and otherwise runs through the options one by one. */
  lemma ConfigureStep(opts: seq<Opt>, o: Opt)
    ensures Configure(opts + [o]) == (if Configure(opts).Err? then Configure(opts) else Apply(Configure(opts).value, o))
  {
    assert (opts + [o])[..|opts|] == opts;
  }

  /** `-p` fails exactly when 128 partitions are recorded, or four without `-g` seen so far. */
  lemma PartLimit(s: Settings, size: string)
    ensures Apply(s, Part(size)).Err? <==> |s.parts| >= MaxGptParts || (!s.gpt && |s.parts| >= MaxMbrParts)
  {
  }

  /** An accepted `-p` appends its size in kilobytes with the type set by the last `-t`. */
  lemma PartRecords(s: Settings, size: string)
    requires |s.parts| < MaxGptParts && (s.gpt || |s.parts| < MaxMbrParts)
    ensures Apply(s, Part(size)) == Ok(s.(parts := s.parts + [Request(ToKbytes(size), s.typ)]))
  {
  }

  /** `-t` takes the low byte of its value, which the next `-p` records. */
  lemma TypeThenPart(s: Settings, v: nat, size: string)
    requires Bounded(s) && |s.parts| < MaxMbrParts
    ensures Apply(s, Type(v)).Ok? && Apply(Apply(s, Type(v)).value, Part(size)).Ok?
    ensures Apply(Apply(s, Type(v)).value, Part(size)).value.parts[|s.parts|] == Request(ToKbytes(size), v % 256)
  {
  }

  /** `-a` keeps 0..4, and a value outside that range (as an int) selects no active partition. */
  lemma ActiveChoice(s: Settings, v: nat)
    ensures Apply(s, Active(v)).Ok?
    ensures v <= 4 ==> Apply(s, Active(v)).value.active == v
    ensures 4 < v < 0x8000_0000 ==> Apply(s, Active(v)).value.active == 0
    ensures v == U32_LIMIT + 2 ==> Apply(s, Active(v)).value.active == 2
  {
    S32Values(2);
  }

  /** `-G` is accepted exactly when guid_parse accepts the text, and then it sets the disk GUID. */
  lemma GuidOption(s: Settings, text: string)
    ensures Apply(s, SetGuid(text)).Ok? <==> Parse(text).Ok?
    ensures Parse(text).Ok? ==> Apply(s, SetGuid(text)).value == s.(guid := Parse(text).value)
  {
    var g := Parse(text);
    assert Apply(s, SetGuid(text)) == if g.Ok? then Ok(s.(guid := g.value)) else Err(InvalidGuid);
  }

  /** The GUID guid_print writes is accepted back by `-G` and gives the same disk GUID. */
  lemma GuidOptionPrinted(s: Settings, g: Guid)
    ensures Apply(s, SetGuid(Print(g))) == Ok(s.(guid := g))
  {
    var t := Print(g);
    PrintThenParse(g);
    GuidOption(s, t);
  }

  /** Of two `-h` options the second wins. */
  lemma HeadsLastWins(s: Settings, a: nat, b: nat)
    ensures Apply(s, Heads(a)).Ok?
    ensures Apply(Apply(s, Heads(a)).value, Heads(b)) == Apply(s, Heads(b))
  {
  }

  /** The heads stay at -1 while no `-h` has been seen. */
  lemma {:induction false} HeadsUnset(opts: seq<Opt>)
    requires forall k :: 0 <= k < |opts| ==> !opts[k].Heads?
    requires Configure(opts).Ok?
    ensures Configure(opts).value.heads == -1
    decreases |opts|
  {
    if opts != [] {
      var front := opts[..|opts| - 1];
      assert forall k :: 0 <= k < |front| ==> front[k] == opts[k];
      HeadsUnset(front);
    }
  }

  /** Without `-h` main stops with the usage message. */
  lemma NoHeadsUsage(opts: seq<Opt>, operands: nat)
    requires forall k :: 0 <= k < |opts| ==> !opts[k].Heads?
    ensures Settle(opts, operands).Err?
  {
    if Configure(opts).Ok? {
      HeadsUnset(opts);
    }
  }

  /** k more `-p` options within the bound record k more requests of the current type. */
  lemma {:induction false} RepeatPart(pre: seq<Opt>, s: Settings, t: string, k: nat)
    requires Configure(pre) == Ok(s)
    requires |s.parts| + k <= (if s.gpt then MaxGptParts else MaxMbrParts)
    ensures Configure(pre + seq(k, _ => Part(t))) == Ok(s.(parts := s.parts + seq(k, _ => Request(ToKbytes(t), s.typ))))
    decreases k
  {
    var q := Request(ToKbytes(t), s.typ);
    if k == 0 {
      assert pre + seq(k, _ => Part(t)) == pre;
      assert s.parts + seq(k, _ => q) == s.parts;
    } else {
      var front := pre + seq(k - 1, _ => Part(t));
      RepeatPart(pre, s, t, k - 1);
      var prev := s.(parts := s.parts + seq(k - 1, _ => q));
      assert pre + seq(k, _ => Part(t)) == front + [Part(t)];
      ConfigureStep(front, Part(t));
      PartRecords(prev, t);
      assert prev.parts + [q] == s.parts + seq(k, _ => q);
    }
  }

  /** `-g` given after the fifth `-p` comes too late: the fifth `-p` has already failed. */
  lemma GptTooLate(t: string)
    ensures Configure([Part(t), Part(t), Part(t), Part(t), Part(t), UseGpt]) == Err(TooManyPartitions)
    ensures Configure([UseGpt, Part(t), Part(t), Part(t), Part(t), Part(t)]).Ok?
    ensures Configure([UseGpt, Part(t), Part(t), Part(t), Part(t), Part(t)]).value.parts == seq(5, _ => Request(ToKbytes(t), 0x83))
  {
    FifthPartFails(t);
    GptFirst(t);
  }

  lemma FifthPartFails(t: string)
    ensures Configure([Part(t), Part(t), Part(t), Part(t), Part(t), UseGpt]) == Err(TooManyPartitions)
  {
    var p := Part(t);
    var four := seq(4, _ => p);
    RepeatPart([], Defaults, t, 4);
    assert [] + four == four;
    ConfigureStep(four, p);
    assert Configure(four + [p]) == Err(TooManyPartitions);
    ConfigureStep(four + [p], UseGpt);
    assert four + [p] + [UseGpt] == [p, p, p, p, p, UseGpt];
  }

  lemma GptFirst(t: string)
    ensures Configure([UseGpt, Part(t), Part(t), Part(t), Part(t), Part(t)]).Ok?
    ensures Configure([UseGpt, Part(t), Part(t), Part(t), Part(t), Part(t)]).value.parts == seq(5, _ => Request(ToKbytes(t), 0x83))
  {
    var p, g := Part(t), UseGpt;
    ConfigureStep([], g);
    assert [] + [g] == [g];
    RepeatPart([g], Defaults.(gpt := true), t, 5);
    assert [g] + seq(5, _ => p) == [g, p, p, p, p, p];
  }
}
