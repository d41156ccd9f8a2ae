/**
 * display_results (analyze.py lines 37-71): what is written to the
 * output file. The numeric statistics block (lines 55-63) is kept as one
 * piece that carries its first figure, the highest latency; the driver
 * ranking and every fixed text are modelled exactly.
 */
module Report {
  import opened Text
  import opened Counts
  import opened Ranking
  import opened Extract

  const ResultsHeader := "\n===== LATENCY RESULTS =====\n"
  const NoLatencyData := "No latency data found.\n"
  const DriverHeader := "===== DRIVER LATENCY CONTRIBUTION =====\n"
  const NoDriverData := "No driver latency data found.\n"
  const Occurrences := " occurrences\n"

  /** One `file.write`, or the block of formatted statistics with its highest latency. */
  datatype Piece = Written(text: string) | Statistics(highest: real)

  /**
   * What display_results leaves behind: the pieces written, or the
   * StatisticsError that `statistics` raises on a single sample, before
   * anything is written to the truncated file.
   */
  datatype Outcome = Output(pieces: seq<Piece>) | StatisticsError

  /** `max(latencies)` */
  function MaxOf(s: seq<real>): (m: real)
    requires s != []
    ensures m in s
    ensures forall x :: x in s ==> x <= m
  {
    if |s| == 1 then s[0]
    else
      var m' := MaxOf(s[1..]);
      assert forall x :: x in s ==> x == s[0] || x in s[1..] by {
        assert s == [s[0]] + s[1..];
      }
      if s[0] >= m' then s[0] else m'
  }

  /** The maximum depends only on which values occur. */
  lemma MaxOfSameValues(a: seq<real>, b: seq<real>)
    requires forall x :: x in a <==> x in b
    ensures a != [] <==> b != []
    ensures a != [] ==> MaxOf(a) == MaxOf(b)
  {
    if a != [] {
      var x := a[0];
      assert x in a;
      assert x in b;
    }
    if b != [] {
      var y := b[0];
      assert y in b;
      assert y in a;
    }
  }

  /**
   * The highest latency of a report is the largest midpoint among the
   * histogram buckets with a positive count, and there is one exactly when
   * some bucket has a positive count.
   */
  lemma MaxSample(lines: seq<string>)
    ensures Parse(lines).latencies != [] <==> PositiveMidpoints(lines) != []
    ensures Parse(lines).latencies != [] ==>
              MaxOf(Parse(lines).latencies) == MaxOf(PositiveMidpoints(lines))
  {
    SampleValues(lines);
    MaxOfSameValues(Parse(lines).latencies, PositiveMidpoints(lines));
  }

  /** `f"{driver}: {count} occurrences\n"` */
  function DriverLine(e: Entry): string {
    e.0 + ": " + Decimal(e.1) + Occurrences
  }

  /** The number written at the end of `s`, read from the back, and the text before it. */
  function TrailingNumber(s: string): Option<Scan<nat>> {
    if s == [] || !IsDigit(s[|s| - 1]) then None
    else
      var digit := s[|s| - 1] as int - '0' as int;
      match TrailingNumber(s[..|s| - 1])
      case None => Some(Scan(digit, s[..|s| - 1]))
      case Some(r) => Some(Scan(r.value * 10 + digit, r.rest))
  }

  /** The number is the whole run of digits at the end, up to text that does not end in a digit. */
  lemma {:induction false} TrailingNumberOf(a: string, d: string)
    requires d != [] && AllIn(d, Digit)
    requires a == [] || !IsDigit(a[|a| - 1])
    ensures TrailingNumber(a + d) == Some(Scan(Value(d), a))
    decreases |d|
  {
    var s, d' := a + d, d[..|d| - 1];
    assert s[..|s| - 1] == a + d';
    assert s[|s| - 1] == d[|d| - 1];
    if d' == [] {
      assert a + d' == a;
    } else {
      TrailingNumberOf(a, d');
    }
  }

  /** Reads a driver line back: the name before the last `": "`, then the count. */
  function ParseDriverLine(s: string): Option<Entry> {
    if |s| < |Occurrences| || s[|s| - |Occurrences|..] != Occurrences then None
    else
      var count :- TrailingNumber(s[..|s| - |Occurrences|]);
      var before := count.rest;
      if |before| < 2 || before[|before| - 2..] != ": " then None
      else Some((before[..|before| - 2], count.value))
  }

  /** Every driver line reads back as the entry it was written from, whatever the name. */
  lemma DriverLineRoundTrip(e: Entry)
    ensures ParseDriverLine(DriverLine(e)) == Some(e)
  {
    var s, d := DriverLine(e), Decimal(e.1);
    var a := e.0 + ": ";
    assert s == (a + d) + Occurrences;
    assert s[..|s| - |Occurrences|] == a + d;
    assert s[|s| - |Occurrences|..] == Occurrences;
    TrailingNumberOf(a, d);
    assert a[|a| - 2..] == ": " && a[..|a| - 2] == e.0;
  }

  /** The text written when there are no drivers is not a driver line. */
  lemma NoDriverDataIsNoDriverLine()
    ensures ParseDriverLine(NoDriverData).None?
  {
    assert NoDriverData[|NoDriverData| - |Occurrences|..] != Occurrences by {
      assert NoDriverData[|NoDriverData| - 2] == '.';
    }
  }

  /** One written line per listed entry. */
  function DriverLines(es: seq<Entry>): (r: seq<Piece>)
    ensures |r| == |es|
    ensures forall i :: 0 <= i < |es| ==> r[i] == Written(DriverLine(es[i]))
  {
    if es == [] then [] else [Written(DriverLine(es[0]))] + DriverLines(es[1..])
  }

  /** The writes that follow the driver header (lines 66-71). */
  function DriverSection(drivers: Counts): seq<Piece>
    requires drivers.Valid()
  {
    if drivers.keys == [] then [Written(NoDriverData)] else DriverLines(Top(drivers.Items()))
  }

  /** The first three writes when there are at least two samples. */
  function Heading(latencies: seq<real>): seq<Piece>
    requires latencies != []
  {
    [Written(ResultsHeader), Statistics(MaxOf(latencies)), Written(DriverHeader)]
  }

  /**
   * display_results. With no samples it writes only the header and "No
   * latency data found."; with a single sample `statistics` raises; with
   * more it writes the statistics, the driver header and either the top
   * ten drivers or "No driver latency data found.".
   */
  method DisplayResults(latencies: seq<real>, drivers: Counts) returns (r: Outcome)
    requires drivers.Valid()
    ensures latencies == [] <==> r == Output([Written(ResultsHeader), Written(NoLatencyData)])
    ensures |latencies| == 1 <==> r.StatisticsError?
    ensures |latencies| >= 2 ==> r == Output(Heading(latencies) + DriverSection(drivers))
  {
    if latencies == [] {
      return Output([Written(ResultsHeader), Written(NoLatencyData)]);
    }
    if |latencies| < 2 {
      return StatisticsError;
    }
    var highest := MaxOf(latencies);
    var section := [Written(NoDriverData)];
    if drivers.keys != [] {
      var top := Top(drivers.Items());
      section := [];
      for i := 0 to |top|
        invariant |section| == i
        invariant forall k :: 0 <= k < i ==> section[k] == Written(DriverLine(top[k]))
      {
        section := section + [Written(DriverLine(top[i]))];
      }
      assert section == DriverLines(top);
    }
    r := Output([Written(ResultsHeader), Statistics(highest), Written(DriverHeader)] + section);
  }

  // ---------------------------------------------------------------------
  // The driver section of a parsed report.

  /** The dict's items list every driver in the order its name was first seen. */
  lemma DriverItemsOrdered(lines: seq<string>)
    ensures KeysOf(Parse(lines).drivers, DriverNames(lines))
    ensures Ordered(Parse(lines).drivers.Items(), DriverNames(lines))
  {
    DriverKeys(lines);
    DriverKeysFirstSeen(lines);
    ItemsOrdered(Parse(lines).drivers, DriverNames(lines));
  }

  lemma ItemsOrdered(d: Counts, names: seq<string>)
    requires KeysOf(d, names)
    requires forall i, j :: 0 <= i < j < |d.keys| ==>
               d.keys[i] in names && d.keys[j] in names &&
               FirstIndex(names, d.keys[i]) < FirstIndex(names, d.keys[j])
    ensures Ordered(d.Items(), names)
  {
    var items := d.Items();
    assert forall i :: 0 <= i < |items| ==> items[i].0 == d.keys[i] && d.keys[i] in d.vals;
  }

  /** An entry of the items is a key with its value. */
  lemma ItemGet(d: Counts, e: Entry)
    requires d.Valid() && e in multiset(d.Items())
    ensures e.0 in d.keys && e.1 == d.Get(e.0)
  {
    var k :| 0 <= k < |d.Items()| && d.Items()[k] == e;
  }

  /** "No driver latency data found." is written exactly when the history of names is empty. */
  lemma SectionEmpty(d: Counts, names: seq<string>)
    requires KeysOf(d, names)
    ensures DriverSection(d) == [Written(NoDriverData)] <==> names == []
  {
    assert d.keys == [] <==> names == [] by {
      if names != [] {
        assert names[0] in d.vals;
      }
    }
    if d.keys != [] {
      var top := Top(d.Items());
      TopProperties(d.Items());
      NoDriverDataIsNoDriverLine();
      DriverLineRoundTrip(top[0]);
    }
  }

  /** Every line of a non-empty driver section reads back as a listed key with its value. */
  lemma SectionLines(d: Counts)
    requires d.Valid() && d.keys != []
    ensures var top := Top(d.Items());
      && |DriverSection(d)| == |top| == Min(TopN, |d.keys|)
      && forall i :: 0 <= i < |top| ==>
           && DriverSection(d)[i].Written?
           && ParseDriverLine(DriverSection(d)[i].text) == Some(top[i])
           && top[i].0 in d.keys
           && top[i].1 == d.Get(top[i].0)
  {
    var top := Top(d.Items());
    TopProperties(d.Items());
    forall i | 0 <= i < |top|
      ensures ParseDriverLine(DriverLine(top[i])) == Some(top[i])
      ensures top[i].0 in d.keys && top[i].1 == d.Get(top[i].0)
    {
      DriverLineRoundTrip(top[i]);
      assert top[i] in multiset(top);
      ItemGet(d, top[i]);
    }
  }

  /**
   * The listed drivers of a dict whose items are in first-seen order: by
   * non-increasing value, ties in first-seen order, no omitted driver
   * above a listed one.
   */
  lemma SectionRanked(d: Counts, names: seq<string>)
    requires d.Valid() && Ordered(d.Items(), names)
    ensures var top := Top(d.Items());
      && Sorted(top)
      && (forall c :: Ordered(ByCount(top, c), names))
      && (forall i, j :: 0 <= i < |top| && 0 <= j < |Omitted(d.Items())| ==>
            top[i].1 >= Omitted(d.Items())[j].1)
  {
    TopProperties(d.Items());
    forall c ensures Ordered(ByCount(Top(d.Items()), c), names) {
      TopTies(d.Items(), names, c);
    }
  }

  /**
   * For a parsed report: the driver section is "No driver latency data
   * found." exactly when no line names a driver, and every listed driver
   * is a name seen in the report, shown with the sum of its counts.
   */
  lemma ReportedDrivers(lines: seq<string>)
    ensures Parse(lines).drivers.Valid()
    ensures DriverSection(Parse(lines).drivers) == [Written(NoDriverData)] <==> DriverNames(lines) == []
    ensures var top := Top(Parse(lines).drivers.Items());
      forall i :: 0 <= i < |top| ==>
        && ParseDriverLine(DriverSection(Parse(lines).drivers)[i].text) == Some(top[i])
        && top[i].0 in DriverNames(lines)
        && top[i].1 == DriverSum(lines, top[i].0)
  {
    DriverItemsOrdered(lines);
    var d, names := Parse(lines).drivers, DriverNames(lines);
    SectionEmpty(d, names);
    if d.keys != [] {
      SectionLines(d);
    }
    var top := Top(d.Items());
    forall i | 0 <= i < |top| ensures top[i].0 in names && top[i].1 == DriverSum(lines, top[i].0) {
      DriverTotals(lines, top[i].0);
    }
  }
}
