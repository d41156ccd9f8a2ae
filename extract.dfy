/**
 * parse_latency_data (analyze.py lines 6-35): one pass over the report's
 * lines that tests each line against the three shapes independently and
 * accumulates a list of latency samples and two dicts. Reading the file is
 * left out: the method receives the lines that readlines() would return.
 */
module Extract {
  import opened Text
  import opened Patterns
  import opened Counts

  /** The three accumulators parse_latency_data returns. */
  datatype Tally = Tally(latencies: seq<real>, drivers: Counts, cores: Counts)

  function Init(): Tally {
    Tally([], Empty(), Empty())
  }

  /** What the three searches find on one line: two leftmost matches and every core fragment. */
  datatype LineMatch = LineMatch(bucket: Option<Bucket>, driver: Option<DriverTotal>, cores: seq<CoreUsage>)

  /** The groups of a search result, without the offset where it was found. */
  function Groups<T>(r: Option<Found<T>>): Option<T> {
    match r
    case Some(f) => Some(f.value)
    case None => None
  }

  function MatchLine(line: string): LineMatch {
    LineMatch(Groups(Search(HistogramAt, line)), Groups(Search(DriverAt, line)), FindAllCores(line))
  }

  /** `(lower_bound + upper_bound) / 2`, exactly. */
  function Midpoint(b: Bucket): real {
    (b.lower as real + b.upper as real) / 2.0
  }

  /** `[x] * n` */
  function Repeat(x: real, n: nat): (r: seq<real>)
    ensures |r| == n
    ensures forall k :: 0 <= k < n ==> r[k] == x
  {
    if n == 0 then [] else [x] + Repeat(x, n - 1)
  }

  /** What `latencies.extend([avg_latency] * count)` adds, when the line matched. */
  function Samples(b: Option<Bucket>): seq<real> {
    match b
    case Some(b) => Repeat(Midpoint(b), b.count)
    case None => []
  }

  /** `driver_latencies[driver] = driver_latencies.get(driver, 0) + count`, when the line matched. */
  function AddDriver(c: Counts, d: Option<DriverTotal>): Counts {
    match d
    case Some(d) => c.Put(d.driver, c.Get(d.driver) + d.count)
    case None => c
  }

  /** The updates `core_latencies[core] = core_latencies.get(core, 0) + latency`, one per fragment. */
  function UsageHits(us: seq<CoreUsage>): (r: seq<Hit>)
    ensures |r| == |us|
    ensures forall i :: 0 <= i < |us| ==> r[i] == Hit(us[i].core, us[i].usec)
  {
    if us == [] then [] else [Hit(us[0].core, us[0].usec)] + UsageHits(us[1..])
  }

  /** One iteration of the loop over the lines. */
  function Step(acc: Tally, m: LineMatch): Tally {
    Tally(acc.latencies + Samples(m.bucket),
          AddDriver(acc.drivers, m.driver),
          AddAll(acc.cores, UsageHits(m.cores)))
  }

  /** The loop, continued from `acc` over `lines`. */
  function Fold(acc: Tally, lines: seq<string>): Tally
    decreases |lines|
  {
    if lines == [] then acc else Fold(Step(acc, MatchLine(lines[0])), lines[1..])
  }

  /** What parse_latency_data returns for the lines of a report. */
  function Parse(lines: seq<string>): Tally {
    Fold(Init(), lines)
  }

  method ParseLatencyData(lines: seq<string>)
      returns (latencies: seq<real>, driverLatencies: Counts, coreLatencies: Counts)
    ensures Tally(latencies, driverLatencies, coreLatencies) == Parse(lines)
  {
    latencies, driverLatencies, coreLatencies := [], Empty(), Empty();
    for i := 0 to |lines|
      invariant Fold(Tally(latencies, driverLatencies, coreLatencies), lines[i..]) == Parse(lines)
    {
      var line := lines[i];
      ghost var before := Tally(latencies, driverLatencies, coreLatencies);
      var histogram := Search(HistogramAt, line);
      var driverMatch := Search(DriverAt, line);
      var coreMatch := FindAllCores(line);
      latencies, driverLatencies, coreLatencies :=
        Accumulate(histogram, driverMatch, coreMatch, latencies, driverLatencies, coreLatencies);
      FoldFront(before, lines, i);
    }
  }

  /** The updates of one iteration, made from what the three searches found on the line. */
  method Accumulate(histogram: Option<Found<Bucket>>, driverMatch: Option<Found<DriverTotal>>,
                    coreMatch: seq<CoreUsage>,
                    latencies: seq<real>, driverLatencies: Counts, coreLatencies: Counts)
      returns (latencies': seq<real>, driverLatencies': Counts, coreLatencies': Counts)
    ensures Tally(latencies', driverLatencies', coreLatencies')
         == Step(Tally(latencies, driverLatencies, coreLatencies),
                 LineMatch(Groups(histogram), Groups(driverMatch), coreMatch))
  {
    latencies', driverLatencies' := latencies, driverLatencies;

    if histogram.Some? {
      var b := histogram.value.value;
      var avgLatency := Midpoint(b);
      latencies' := latencies' + Repeat(avgLatency, b.count);
    } else {
      assert latencies' + [] == latencies';
    }
    assert latencies' == latencies + Samples(Groups(histogram));

    if driverMatch.Some? {
      var count, driver := driverMatch.value.value.count, driverMatch.value.value.driver;
      driverLatencies' := driverLatencies'.Put(driver, driverLatencies'.Get(driver) + count);
    }
    assert driverLatencies' == AddDriver(driverLatencies, Groups(driverMatch));

    coreLatencies' := AddUsages(coreLatencies, coreMatch);
  }

  /** The loop over the core fragments of one line, in the order they occur. */
  method AddUsages(coreLatencies: Counts, coreMatch: seq<CoreUsage>) returns (coreLatencies': Counts)
    ensures coreLatencies' == AddAll(coreLatencies, UsageHits(coreMatch))
  {
    coreLatencies' := coreLatencies;
    for j := 0 to |coreMatch|
      invariant AddAll(coreLatencies', UsageHits(coreMatch[j..])) == AddAll(coreLatencies, UsageHits(coreMatch))
    {
      var core, latency := coreMatch[j].core, coreMatch[j].usec;
      UsagesStep(coreLatencies', coreMatch, j);
      coreLatencies' := coreLatencies'.Put(core, coreLatencies'.Get(core) + latency);
    }
    assert UsageHits(coreMatch[|coreMatch|..]) == [];
  }

  /** One turn of the loop over the fragments of a line. */
  lemma UsagesStep(c: Counts, us: seq<CoreUsage>, j: nat)
    requires j < |us|
    ensures AddAll(c, UsageHits(us[j..]))
         == AddAll(c.Put(us[j].core, c.Get(us[j].core) + us[j].usec), UsageHits(us[j + 1..]))
  {
    var t := us[j..];
    assert t[0] == us[j] && t[1..] == us[j + 1..];
    UsageHitsCons(t);
    AddAllCons(c, Hit(us[j].core, us[j].usec), UsageHits(us[j + 1..]));
  }

  lemma UsageHitsCons(us: seq<CoreUsage>)
    requires us != []
    ensures UsageHits(us) == [Hit(us[0].core, us[0].usec)] + UsageHits(us[1..])
  {
  }

  // ---------------------------------------------------------------------
  // The pass is a left fold.

  /** Parsing `xs + ys` is parsing `xs` and continuing from its result over `ys`. */
  lemma {:induction false} FoldAppend(acc: Tally, xs: seq<string>, ys: seq<string>)
    ensures Fold(acc, xs + ys) == Fold(Fold(acc, xs), ys)
    decreases |xs|
  {
    if xs == [] {
      assert xs + ys == ys;
    } else {
      assert (xs + ys)[0] == xs[0];
      assert (xs + ys)[1..] == xs[1..] + ys;
      FoldAppend(Step(acc, MatchLine(xs[0])), xs[1..], ys);
    }
  }

  lemma FoldFront(acc: Tally, lines: seq<string>, i: nat)
    requires i < |lines|
    ensures Fold(acc, lines[i..]) == Fold(Step(acc, MatchLine(lines[i])), lines[i + 1..])
  {
    assert lines[i..][1..] == lines[i + 1..];
  }

  lemma ParseSnoc(lines: seq<string>, line: string)
    ensures Parse(lines + [line]) == Step(Parse(lines), MatchLine(line))
  {
    FoldAppend(Init(), lines, [line]);
    assert Fold(Parse(lines), [line]) == Fold(Step(Parse(lines), MatchLine(line)), []);
  }

  // ---------------------------------------------------------------------
  // One line.

  /**
   * A histogram line appends exactly `count` copies of its midpoint at the
   * end and leaves the earlier samples alone; any other line adds nothing.
   */
  lemma HistogramStep(acc: Tally, m: LineMatch)
    ensures m.bucket.None? ==> Step(acc, m).latencies == acc.latencies
    ensures m.bucket.Some? ==>
      var b, before, after := m.bucket.value, acc.latencies, Step(acc, m).latencies;
      && |after| == |before| + b.count
      && after[..|before|] == before
      && forall k :: |before| <= k < |after| ==> after[k] == Midpoint(b)
  {
    if m.bucket.None? {
      assert acc.latencies + [] == acc.latencies;
    }
  }

  /** A driver line adds its count to its module's total and changes no other total. */
  lemma DriverStep(acc: Tally, m: LineMatch, driver: string)
    ensures Step(acc, m).drivers.Get(driver) == acc.drivers.Get(driver) + DriverShare(m.driver, driver)
  {
    if m.driver.Some? {
      PutFacts(acc.drivers, m.driver.value.driver, acc.drivers.Get(m.driver.value.driver) + m.driver.value.count);
    }
  }

  /** A line that matches none of the shapes leaves all three accumulators as they were. */
  lemma UnmatchedStep(acc: Tally, m: LineMatch)
    requires m.bucket.None? && m.driver.None? && m.cores == []
    ensures Step(acc, m) == acc
  {
    assert acc.latencies + [] == acc.latencies;
  }

  // ---------------------------------------------------------------------
  // Independent descriptions of the three results, by file order.

  function LastOf(lines: seq<string>): string
    requires lines != []
  {
    lines[|lines| - 1]
  }

  function InitOf(lines: seq<string>): seq<string>
    requires lines != []
  {
    lines[..|lines| - 1]
  }

  function BucketCount(b: Option<Bucket>): nat {
    match b
    case Some(b) => b.count
    case None => 0
  }

  /** The sum of the counts of the matching histogram lines. */
  function CountSum(lines: seq<string>): nat {
    if lines == [] then 0
    else CountSum(InitOf(lines)) + BucketCount(MatchLine(LastOf(lines)).bucket)
  }

  function PositiveMidpoint(b: Option<Bucket>): seq<real> {
    match b
    case Some(b) => if b.count > 0 then [Midpoint(b)] else []
    case None => []
  }

  /** The midpoints of the matching histogram lines whose count is positive, in file order. */
  function PositiveMidpoints(lines: seq<string>): seq<real> {
    if lines == [] then []
    else PositiveMidpoints(InitOf(lines)) + PositiveMidpoint(MatchLine(LastOf(lines)).bucket)
  }

  function DriverName(d: Option<DriverTotal>): seq<string> {
    match d
    case Some(d) => [d.driver]
    case None => []
  }

  /** The module names of the matching driver lines, in file order, repeats included. */
  function DriverNames(lines: seq<string>): seq<string> {
    if lines == [] then []
    else DriverNames(InitOf(lines)) + DriverName(MatchLine(LastOf(lines)).driver)
  }

  /** What a line's driver match adds to the total of `driver`. */
  function DriverShare(d: Option<DriverTotal>, driver: string): nat {
    match d
    case Some(d) => if d.driver == driver then d.count else 0
    case None => 0
  }

  /** The sum of N over the lines whose leftmost driver match names `driver`. */
  function DriverSum(lines: seq<string>, driver: string): nat {
    if lines == [] then 0
    else DriverSum(InitOf(lines), driver) + DriverShare(MatchLine(LastOf(lines)).driver, driver)
  }

  /** The sum of M over all fragments for `core`, on all lines. */
  function CoreSum(lines: seq<string>, core: string): nat {
    if lines == [] then 0
    else CoreSum(InitOf(lines), core) + Total(UsageHits(MatchLine(LastOf(lines)).cores), core)
  }

  /** The cores of all fragments, line by line and left to right, repeats included. */
  function CoreNames(lines: seq<string>): seq<string> {
    if lines == [] then []
    else CoreNames(InitOf(lines)) + HitKeys(UsageHits(MatchLine(LastOf(lines)).cores))
  }

  lemma SnocParts(lines: seq<string>)
    requires lines != []
    ensures lines == InitOf(lines) + [LastOf(lines)]
  {
  }

  /** The number of samples is the sum of the counts of the histogram lines. */
  lemma {:induction false} SampleCount(lines: seq<string>)
    ensures |Parse(lines).latencies| == CountSum(lines)
  {
    if lines != [] {
      SnocParts(lines);
      SampleCount(InitOf(lines));
      ParseSnoc(InitOf(lines), LastOf(lines));
    }
  }

  /** A value is a sample exactly when it is the midpoint of a histogram line with a positive count. */
  lemma {:induction false} SampleValues(lines: seq<string>)
    ensures forall x :: x in Parse(lines).latencies <==> x in PositiveMidpoints(lines)
  {
    if lines != [] {
      SnocParts(lines);
      SampleValues(InitOf(lines));
      ParseSnoc(InitOf(lines), LastOf(lines));
      var p := Parse(InitOf(lines)).latencies;
      var s := Samples(MatchLine(LastOf(lines)).bucket);
      assert forall x :: x in p + s <==> x in p || x in s;
    }
  }

  /** Each driver's total is the sum of N over the lines that name it. */
  lemma {:induction false} DriverTotals(lines: seq<string>, driver: string)
    ensures Parse(lines).drivers.Get(driver) == DriverSum(lines, driver)
  {
    if lines != [] {
      SnocParts(lines);
      DriverTotals(InitOf(lines), driver);
      ParseSnoc(InitOf(lines), LastOf(lines));
      DriverStep(Parse(InitOf(lines)), MatchLine(LastOf(lines)), driver);
    }
  }

  /** Each core's total is the sum of M over every fragment for it, several per line included. */
  lemma {:induction false} CoreTotals(lines: seq<string>, core: string)
    ensures Parse(lines).cores.Get(core) == CoreSum(lines, core)
  {
    if lines != [] {
      SnocParts(lines);
      CoreTotals(InitOf(lines), core);
      ParseSnoc(InitOf(lines), LastOf(lines));
      var us := MatchLine(LastOf(lines)).cores;
      AddAllGet(Parse(InitOf(lines)).cores, UsageHits(us), core);
    }
  }

  /**
   * The driver dict is well formed, its keys are exactly the drivers seen,
   * and they stand in the order in which each was first seen.
   */
  lemma {:induction false} DriverKeys(lines: seq<string>)
    ensures KeysOf(Parse(lines).drivers, DriverNames(lines))
  {
    if lines != [] {
      SnocParts(lines);
      DriverKeys(InitOf(lines));
      ParseSnoc(InitOf(lines), LastOf(lines));
      var c, d := Parse(InitOf(lines)).drivers, MatchLine(LastOf(lines)).driver;
      assert Parse(lines).drivers == AddDriver(c, d);
      assert DriverNames(lines) == DriverNames(InitOf(lines)) + DriverName(d);
      AddDriverKeys(c, DriverNames(InitOf(lines)), d);
    }
  }

  lemma AddDriverKeys(c: Counts, names: seq<string>, d: Option<DriverTotal>)
    requires KeysOf(c, names)
    ensures KeysOf(AddDriver(c, d), names + DriverName(d))
  {
    if d.Some? {
      PutKeys(c, names, d.value.driver, c.Get(d.value.driver) + d.value.count);
    } else {
      assert names + DriverName(d) == names;
    }
  }

  /** Drivers are listed in the order in which they first appear in the report. */
  lemma DriverKeysFirstSeen(lines: seq<string>)
    ensures var keys := Parse(lines).drivers.keys;
      forall i, j :: 0 <= i < j < |keys| ==>
        keys[i] in DriverNames(lines) && keys[j] in DriverNames(lines) &&
        FirstIndex(DriverNames(lines), keys[i]) < FirstIndex(DriverNames(lines), keys[j])
  {
    DriverKeys(lines);
    DedupFirstSeen(DriverNames(lines));
  }

  /** The core dict is well formed and its keys are the cores of the fragments seen, each once, in first-seen order. */
  lemma {:induction false} CoreKeys(lines: seq<string>)
    ensures KeysOf(Parse(lines).cores, CoreNames(lines))
  {
    if lines != [] {
      SnocParts(lines);
      CoreKeys(InitOf(lines));
      ParseSnoc(InitOf(lines), LastOf(lines));
      var us := MatchLine(LastOf(lines)).cores;
      AddAllKeys(Parse(InitOf(lines)).cores, CoreNames(InitOf(lines)), UsageHits(us));
    }
  }
}
