/**
 * The three line shapes that parse_latency_data recognises (analyze.py,
 * lines 17, 24 and 30), written as recognisers over the remaining text of
 * a line, together with the re.search and re.findall scans that apply them.
 *
 * Every quantifier in the three shapes is deterministic: a greedy `\s*`,
 * `\s+`, `\d+` or `\S+` is always followed by text its class excludes, so
 * backtracking into it can never succeed, and each recogniser takes the
 * longest run. The one lazy `.*?` is tried at every gap length from zero up,
 * and `.` does not match a newline.
 */
module Patterns {
  import opened Text

  /** The groups of `Elapsed Time, >\s*(\d+) usecs AND <=\s*(\d+) usecs,\s*(\d+),`. */
  datatype Bucket = Bucket(lower: nat, upper: nat, count: nat)

  /** The groups of `Total = (\d+) for module (\S+)`. */
  datatype DriverTotal = DriverTotal(count: nat, driver: string)

  /** The groups of one `CPU (\d+) Usage,.*?(\d+)\s+usec,` fragment; the core stays text. */
  datatype CoreUsage = CoreUsage(core: string, usec: nat)

  /** A match and the offset in the line where it starts. */
  datatype Found<+T> = Found(at: nat, value: T)

  const HistogramHead := "Elapsed Time, >"
  const HistogramMiddle := " usecs AND <="
  const HistogramTail := " usecs,"
  const HistogramEnd := ","
  const DriverHead := "Total = "
  const DriverMiddle := " for module "
  const CoreHead := "CPU "
  const CoreMiddle := " Usage,"
  const CoreTail := "usec,"

  /**
   * re.search: the match of `at` at the leftmost offset of `t` where it
   * matches, offset |t| (the empty rest) included; None when there is none.
   */
  function Search<T>(at: string -> Option<T>, t: string): (r: Option<Found<T>>)
    ensures r.Some? ==> r.value.at <= |t| && at(t[r.value.at..]) == Some(r.value.value)
    ensures forall j :: 0 <= j <= |t| && (r.None? || j < r.value.at) ==> at(t[j..]).None?
    decreases |t|
  {
    assert t[0..] == t;
    match at(t)
    case Some(v) => Some(Found(0, v))
    case None =>
      if t == [] then None
      else
        assert forall j :: 1 <= j <= |t| ==> t[1..][j - 1..] == t[j..];
        match Search(at, t[1..])
        case Some(f) => Some(Found(f.at + 1, f.value))
        case None => None
  }

  /** `\s*(\d+)` followed by the literal `lit`: the number and the text after `lit`. */
  function SpacedField(t: string, lit: string): Option<Scan<nat>> {
    var n :- Number(SkipSpaces(t));
    var rest :- Literal(n.rest, lit);
    Some(Scan(n.value, rest))
  }

  /** The histogram shape matched at the front of `t`. */
  function HistogramAt(t: string): Option<Bucket> {
    var t1 :- Literal(t, HistogramHead);
    var lower :- SpacedField(t1, HistogramMiddle);
    var upper :- SpacedField(lower.rest, HistogramTail);
    var count :- SpacedField(upper.rest, HistogramEnd);
    Some(Bucket(lower.value, upper.value, count.value))
  }

  /** The driver shape matched at the front of `t`; `\S+` is greedy and ends the shape. */
  function DriverAt(t: string): Option<DriverTotal> {
    var t1 :- Literal(t, DriverHead);
    var count :- Number(t1);
    var t2 :- Literal(count.rest, DriverMiddle);
    var n := RunLength(t2, NonSpace);
    if n == 0 then None else Some(DriverTotal(count.value, t2[..n]))
  }

  /** `(\d+)\s+usec,` at the front of `t`: the latency and the text after it. */
  function LatencyAt(t: string): (r: Option<Scan<nat>>)
    ensures r.Some? ==> |r.value.rest| < |t|
  {
    var latency :- Number(t);
    var blanks := RunLength(latency.rest, Space);
    if blanks == 0 then None
    else
      var t1 :- Literal(latency.rest[blanks..], CoreTail);
      Some(Scan(latency.value, t1))
  }

  /** No newline among the first `n` characters of `t`. */
  predicate NoNewline(t: string, n: nat)
    requires n <= |t|
  {
    forall j :: 0 <= j < n ==> t[j] != '\n'
  }

  /**
   * A lazy `.*?` followed by `at`: the match of `at` after the shortest gap
   * that makes it match; the gap never contains a newline.
   */
  function Shortest<T>(at: string -> Option<T>, t: string): (r: Option<Found<T>>)
    ensures r.Some? ==> r.value.at <= |t| && NoNewline(t, r.value.at)
    ensures r.Some? ==> at(t[r.value.at..]) == Some(r.value.value)
    ensures forall j :: 0 <= j <= |t| && NoNewline(t, j) && (r.None? || j < r.value.at) ==>
              at(t[j..]).None?
    decreases |t|
  {
    assert t[0..] == t;
    match at(t)
    case Some(v) => Some(Found(0, v))
    case None =>
      if t == [] || t[0] == '\n' then None
      else
        assert forall j :: 1 <= j <= |t| ==> t[1..][j - 1..] == t[j..];
        match Shortest(at, t[1..])
        case Some(f) => Some(Found(f.at + 1, f.value))
        case None => None
  }

  /** `.*?(\d+)\s+usec,`: the latency after the shortest gap, and the text after "usec,". */
  function LazyLatency(t: string): Option<Found<Scan<nat>>> {
    Shortest(LatencyAt, t)
  }

  /** One per-core fragment matched at the front of `t`, and the text after it. */
  function CoreAt(t: string): (r: Option<Scan<CoreUsage>>)
    ensures r.Some? ==> |r.value.rest| < |t|
    ensures r.Some? ==> r.value.value.core != [] && AllIn(r.value.value.core, Digit)
  {
    var t1 :- Literal(t, CoreHead);
    var core :- Digits(t1);
    var t2 :- Literal(core.rest, CoreMiddle);
    var latency :- LazyLatency(t2);
    Some(Scan(CoreUsage(core.value, latency.value.value), latency.value.rest))
  }

  /**
   * re.findall: every non-overlapping fragment, left to right; after a
   * match the scan resumes where the match ended, otherwise one further on.
   */
  function FindAllCores(t: string): (r: seq<CoreUsage>)
    ensures forall u :: u in r ==> u.core != [] && AllIn(u.core, Digit)
    decreases |t|
  {
    match CoreAt(t)
    case Some(m) => [m.value] + FindAllCores(m.rest)
    case None => if t == [] then [] else FindAllCores(t[1..])
  }

  // ---------------------------------------------------------------------
  // Report lines as they may be laid out, and proofs that each recogniser
  // reads them back; the canonical layout that str() would write is one case.

  /** One `\s*(\d+)` field: any run of whitespace, then a non-empty block of digits. */
  datatype Field = Field(pad: string, digits: string) {
    predicate Valid() {
      AllIn(pad, Space) && digits != [] && AllIn(digits, Digit)
    }
  }

  /** A single blank and the decimal text of `n`. */
  function Canonical(n: nat): (f: Field)
    ensures f.Valid() && Value(f.digits) == n
  {
    assert AllIn(" ", Space);
    Field(" ", Decimal(n))
  }

  /** `\s*(\d+)` followed by `lit` reads any padding and any digits; the number is their value. */
  lemma SpacedFieldOf(f: Field, lit: string, rest: string)
    requires f.Valid() && lit != [] && !IsDigit(lit[0])
    ensures SpacedField(f.pad + f.digits + lit + rest, lit) == Some(Scan(Value(f.digits), rest))
  {
    var after := f.digits + (lit + rest);
    assert f.pad + f.digits + lit + rest == f.pad + after;
    assert after[0] == f.digits[0];
    RunLengthOf(f.pad, after, Space);
    assert (f.pad + after)[|f.pad|..] == after;
    DigitsOf(f.digits, lit + rest);
    LiteralText(lit, rest);
  }

  /** Conversely, whatever `\s*(\d+)lit` matches is a field followed by `lit`. */
  lemma SpacedFieldShape(t: string, lit: string) returns (f: Field, rest: string)
    requires SpacedField(t, lit).Some?
    ensures f.Valid() && t == f.pad + f.digits + lit + rest
    ensures SpacedField(t, lit) == Some(Scan(Value(f.digits), rest))
  {
    var n := RunLength(t, Space);
    var d := Digits(SkipSpaces(t)).value;
    rest := Literal(d.rest, lit).value;
    SpacedFieldParts(t, lit, d, rest);
    LiteralFacts(d.rest, lit);
    f := Field(t[..n], d.value);
    Concat(t, t[..n], SkipSpaces(t), d.value, d.rest, lit, rest);
  }

  lemma SpacedFieldParts(t: string, lit: string, d: Scan<string>, rest: string)
    requires Digits(SkipSpaces(t)) == Some(d)
    requires Literal(d.rest, lit) == Some(rest)
    ensures SpacedField(t, lit) == Some(Scan(Value(d.value), rest))
  {
  }

  lemma Concat(t: string, pad: string, u: string, digits: string, r: string, lit: string, rest: string)
    requires t == pad + u && u == digits + r && r == lit + rest
    ensures t == pad + digits + lit + rest
  {
  }

  /** A bucket line laid out with any padding before each number. */
  function HistogramLine(lower: Field, upper: Field, count: Field): string {
    HistogramHead
      + (lower.pad + lower.digits + HistogramMiddle)
      + (upper.pad + upper.digits + HistogramTail)
      + (count.pad + count.digits + HistogramEnd)
  }

  /** The histogram recogniser reads the three numbers of any bucket line, whatever follows it. */
  lemma HistogramAtLine(lower: Field, upper: Field, count: Field, rest: string)
    requires lower.Valid() && upper.Valid() && count.Valid()
    ensures HistogramAt(HistogramLine(lower, upper, count) + rest)
         == Some(Bucket(Value(lower.digits), Value(upper.digits), Value(count.digits)))
  {
    var r3 := rest;
    var r2 := count.pad + count.digits + HistogramEnd + r3;
    var r1 := upper.pad + upper.digits + HistogramTail + r2;
    var r0 := lower.pad + lower.digits + HistogramMiddle + r1;
    Regroup(HistogramHead, lower.pad + lower.digits + HistogramMiddle, upper.pad + upper.digits + HistogramTail,
            count.pad + count.digits + HistogramEnd, rest);
    LiteralText(HistogramHead, r0);
    SpacedFieldOf(lower, HistogramMiddle, r1);
    SpacedFieldOf(upper, HistogramTail, r2);
    SpacedFieldOf(count, HistogramEnd, r3);
    HistogramAtParts(HistogramHead + r0, r0, Scan(Value(lower.digits), r1),
                     Scan(Value(upper.digits), r2), Scan(Value(count.digits), r3));
  }

  /** Conversely, every text the histogram shape matches at its front is a bucket line and what follows it. */
  lemma HistogramAtShape(t: string) returns (lower: Field, upper: Field, count: Field, rest: string)
    requires HistogramAt(t).Some?
    ensures lower.Valid() && upper.Valid() && count.Valid()
    ensures t == HistogramLine(lower, upper, count) + rest
    ensures HistogramAt(t) == Some(Bucket(Value(lower.digits), Value(upper.digits), Value(count.digits)))
  {
    var t1 := Literal(t, HistogramHead).value;
    LiteralFacts(t, HistogramHead);
    var r1, r2;
    lower, r1 := SpacedFieldShape(t1, HistogramMiddle);
    upper, r2 := SpacedFieldShape(r1, HistogramTail);
    count, rest := SpacedFieldShape(r2, HistogramEnd);
    Regroup(HistogramHead, lower.pad + lower.digits + HistogramMiddle, upper.pad + upper.digits + HistogramTail,
            count.pad + count.digits + HistogramEnd, rest);
  }

  lemma Regroup(a: string, b: string, c: string, d: string, e: string)
    ensures a + b + c + d + e == a + (b + (c + (d + e)))
  {
  }

  lemma HistogramAtParts(t: string, t1: string, lower: Scan<nat>, upper: Scan<nat>, count: Scan<nat>)
    requires Literal(t, HistogramHead) == Some(t1)
    requires SpacedField(t1, HistogramMiddle) == Some(lower)
    requires SpacedField(lower.rest, HistogramTail) == Some(upper)
    requires SpacedField(upper.rest, HistogramEnd) == Some(count)
    ensures HistogramAt(t) == Some(Bucket(lower.value, upper.value, count.value))
  {
  }

  /** A bucket line as written with one blank before each number. */
  function HistogramText(b: Bucket): string {
    HistogramLine(Canonical(b.lower), Canonical(b.upper), Canonical(b.count))
  }

  /** In particular the canonical line of a bucket is read back as that bucket. */
  lemma HistogramAtText(b: Bucket, rest: string)
    ensures HistogramAt(HistogramText(b) + rest) == Some(b)
  {
    HistogramAtLine(Canonical(b.lower), Canonical(b.upper), Canonical(b.count), rest);
  }

  /** The driver recogniser reads any block of digits and a whitespace-free module name that whitespace or the end of the line ends. */
  lemma DriverAtOf(d: string, name: string, rest: string)
    requires d != [] && AllIn(d, Digit)
    requires name != [] && AllIn(name, NonSpace)
    requires rest == [] || IsSpace(rest[0])
    ensures DriverAt(DriverHead + d + DriverMiddle + name + rest) == Some(DriverTotal(Value(d), name))
  {
    var r2 := name + rest;
    var r1 := DriverMiddle + r2;
    var r0 := d + r1;
    assert DriverHead + d + DriverMiddle + name + rest == DriverHead + r0;
    LiteralText(DriverHead, r0);
    DigitsOf(d, r1);
    LiteralText(DriverMiddle, r2);
    RunLengthOf(name, rest, NonSpace);
    assert r2[..|name|] == name;
  }

  /** Conversely, every text the driver shape matches at its front is such a line followed by the rest. */
  lemma DriverAtShape(t: string) returns (d: string, name: string, rest: string)
    requires DriverAt(t).Some?
    ensures d != [] && AllIn(d, Digit)
    ensures name != [] && AllIn(name, NonSpace)
    ensures rest == [] || IsSpace(rest[0])
    ensures t == DriverHead + d + DriverMiddle + name + rest
    ensures DriverAt(t) == Some(DriverTotal(Value(d), name))
  {
    var t1 := Literal(t, DriverHead).value;
    var count := Digits(t1).value;
    var t2 := Literal(count.rest, DriverMiddle).value;
    LiteralFacts(t, DriverHead);
    LiteralFacts(count.rest, DriverMiddle);
    DriverAtParts(t, t1, count, t2);
    d := count.value;
    name, rest := RunSplit(t2, NonSpace);
    Concat(t, DriverHead, t1, d, count.rest, DriverMiddle, t2);
    Concat5(t, DriverHead + d + DriverMiddle, t2, name, rest);
  }

  /** A greedy run of class `k` splits the text into the run and what follows it. */
  lemma RunSplit(t: string, k: Class) returns (run: string, rest: string)
    ensures run == t[..RunLength(t, k)] && AllIn(run, k)
    ensures rest == [] || !In(rest[0], k)
    ensures t == run + rest
  {
    var n := RunLength(t, k);
    run, rest := t[..n], t[n..];
    assert t == run + rest;
  }

  lemma Concat5(t: string, front: string, u: string, run: string, rest: string)
    requires t == front + u && u == run + rest
    ensures t == front + run + rest
  {
  }

  lemma DriverAtParts(t: string, t1: string, count: Scan<string>, t2: string)
    requires Literal(t, DriverHead) == Some(t1)
    requires Digits(t1) == Some(count)
    requires Literal(count.rest, DriverMiddle) == Some(t2)
    ensures DriverAt(t) == if RunLength(t2, NonSpace) == 0 then None
                           else Some(DriverTotal(Value(count.value), t2[..RunLength(t2, NonSpace)]))
  {
  }

  function DriverText(d: DriverTotal): string {
    DriverHead + Decimal(d.count) + DriverMiddle + d.driver
  }

  /** In particular a driver line with its count written by str() is read back as its count and name. */
  lemma DriverAtText(d: DriverTotal, rest: string)
    requires d.driver != [] && AllIn(d.driver, NonSpace)
    requires rest == [] || IsSpace(rest[0])
    ensures DriverAt(DriverText(d) + rest) == Some(d)
  {
    DriverAtOf(Decimal(d.count), d.driver, rest);
  }

  /** `(\d+)` takes a whole block of digits that a non-digit ends. */
  lemma DigitsOf(d: string, rest: string)
    requires d != [] && AllIn(d, Digit)
    requires rest == [] || !IsDigit(rest[0])
    ensures Digits(d + rest) == Some(Scan(d, rest))
  {
    RunLengthOf(d, rest, Digit);
    assert (d + rest)[..|d|] == d;
    assert (d + rest)[|d|..] == rest;
  }

  /** `(\d+)\s+usec,` reads any block of digits and any non-empty run of whitespace before "usec,". */
  lemma LatencyAtOf(d: string, blanks: string, rest: string)
    requires d != [] && AllIn(d, Digit)
    requires blanks != [] && AllIn(blanks, Space)
    ensures LatencyAt(d + blanks + CoreTail + rest) == Some(Scan(Value(d), rest))
  {
    var tail := CoreTail + rest;
    var r := blanks + tail;
    assert d + blanks + CoreTail + rest == d + r;
    assert r[0] == blanks[0];
    DigitsOf(d, r);
    assert tail[0] == 'u';
    RunLengthOf(blanks, tail, Space);
    assert r[|blanks|..] == tail;
    LiteralText(CoreTail, rest);
    LatencyAtParts(d + r, Scan(Value(d), r), |blanks|, rest);
  }

  lemma LatencyAtParts(t: string, latency: Scan<nat>, blanks: nat, rest: string)
    requires Number(t) == Some(latency)
    requires blanks > 0 && RunLength(latency.rest, Space) == blanks
    requires Literal(latency.rest[blanks..], CoreTail) == Some(rest)
    ensures LatencyAt(t) == Some(Scan(latency.value, rest))
  {
  }

  /** The lazy gap ends at the first offset where `at` matches, when no newline comes before it. */
  lemma ShortestAt<T>(at: string -> Option<T>, gap: string, s: string, v: T)
    requires forall j :: 0 <= j < |gap| ==> gap[j] != '\n'
    requires forall j :: 0 <= j < |gap| ==> at((gap + s)[j..]).None?
    requires at(s) == Some(v)
    ensures Shortest(at, gap + s) == Some(Found(|gap|, v))
  {
    var t := gap + s;
    assert t[|gap|..] == s;
    assert NoNewline(t, |gap|);
  }

  /** A gap in which the lazy `.*?` cannot stop early: no newline and no digit. */
  predicate PlainGap(gap: string) {
    forall j :: 0 <= j < |gap| ==> gap[j] != '\n' && !IsDigit(gap[j])
  }

  /** After "Usage," the lazy gap runs over any plain text up to the latency's first digit. */
  lemma LazyLatencyOf(gap: string, d: string, blanks: string, rest: string)
    requires PlainGap(gap)
    requires d != [] && AllIn(d, Digit)
    requires blanks != [] && AllIn(blanks, Space)
    ensures LazyLatency(gap + (d + blanks + CoreTail + rest)) == Some(Found(|gap|, Scan(Value(d), rest)))
  {
    var s := d + blanks + CoreTail + rest;
    forall j | 0 <= j < |gap| ensures LatencyAt((gap + s)[j..]).None? {
      assert (gap + s)[j..][0] == gap[j];
    }
    LatencyAtOf(d, blanks, rest);
    ShortestAt(LatencyAt, gap, s, Scan(Value(d), rest));
  }

  /**
   * One per-core fragment as it may be laid out: text in front of it without
   * a 'C' (so no earlier fragment can start there), the core, a plain gap
   * after "Usage,", the latency's digits and the whitespace before "usec,".
   */
  datatype CoreLayout = CoreLayout(lead: string, core: string, gap: string, digits: string, blanks: string) {
    predicate Valid() {
      && (forall j :: 0 <= j < |lead| ==> lead[j] != 'C')
      && core != [] && AllIn(core, Digit)
      && PlainGap(gap)
      && digits != [] && AllIn(digits, Digit)
      && blanks != [] && AllIn(blanks, Space)
    }

    /** The fragment itself, from "CPU" to "usec,". */
    function Fragment(): string {
      CoreHead + core + CoreMiddle + gap + digits + blanks + CoreTail
    }

    function Usage(): CoreUsage
      requires Valid()
    {
      CoreUsage(core, Value(digits))
    }
  }

  /** A fragment is recognised with its core and latency, and the scan resumes right after it. */
  lemma CoreAtOf(l: CoreLayout, rest: string)
    requires l.Valid()
    ensures CoreAt(l.Fragment() + rest) == Some(Scan(l.Usage(), rest))
  {
    var r2 := l.gap + (l.digits + l.blanks + CoreTail + rest);
    var r1 := CoreMiddle + r2;
    var r0 := l.core + r1;
    assert l.Fragment() + rest == CoreHead + r0;
    LiteralText(CoreHead, r0);
    DigitsOf(l.core, r1);
    LiteralText(CoreMiddle, r2);
    LazyLatencyOf(l.gap, l.digits, l.blanks, rest);
    CoreAtParts(CoreHead + r0, r0, Scan(l.core, r1), r2, Found(|l.gap|, Scan(Value(l.digits), rest)));
  }

  lemma CoreAtParts(t: string, t1: string, core: Scan<string>, t2: string, latency: Found<Scan<nat>>)
    requires Literal(t, CoreHead) == Some(t1)
    requires Digits(t1) == Some(core)
    requires Literal(core.rest, CoreMiddle) == Some(t2)
    requires LazyLatency(t2) == Some(latency)
    ensures CoreAt(t) == Some(Scan(CoreUsage(core.value, latency.value.value), latency.value.rest))
  {
  }

  /** re.findall takes the leftmost match, where re.search finds it, and goes on after its end. */
  lemma {:induction false} FindAllCoresSearch(t: string)
    ensures Search(CoreAt, t).None? ==> FindAllCores(t) == []
    ensures Search(CoreAt, t).Some? ==>
      var m := Search(CoreAt, t).value.value;
      FindAllCores(t) == [m.value] + FindAllCores(m.rest)
    decreases |t|
  {
    if CoreAt(t).None? && t != [] {
      FindAllCoresSearch(t[1..]);
    }
  }

  /** re.search finds the first offset where `at` matches. */
  lemma SearchAt<T>(at: string -> Option<T>, t: string, k: nat, v: T)
    requires k <= |t| && at(t[k..]) == Some(v)
    requires forall j :: 0 <= j < k ==> at(t[j..]).None?
    ensures Search(at, t) == Some(Found(k, v))
  {
  }

  /** No fragment starts inside a lead without a 'C'. */
  lemma NoCoreInLead(lead: string, s: string)
    requires forall j :: 0 <= j < |lead| ==> lead[j] != 'C'
    ensures forall j :: 0 <= j < |lead| ==> CoreAt((lead + s)[j..]).None?
  {
    forall j | 0 <= j < |lead| ensures CoreAt((lead + s)[j..]).None? {
      var t := (lead + s)[j..];
      assert t[0] == lead[j];
      NoCoreAt(t);
    }
  }

  lemma NoCoreAt(t: string)
    requires t != [] && t[0] != 'C'
    ensures CoreAt(t).None?
  {
    assert |CoreHead| <= |t| ==> t[..|CoreHead|][0] != CoreHead[0];
    assert Literal(t, CoreHead).None?;
  }

  /** A fragment with its lead in front is found where the fragment starts. */
  lemma FindAllCoresOf(l: CoreLayout, rest: string)
    requires l.Valid()
    ensures FindAllCores(l.lead + l.Fragment() + rest) == [l.Usage()] + FindAllCores(rest)
  {
    var s := l.Fragment() + rest;
    var t := l.lead + s;
    assert l.lead + l.Fragment() + rest == t;
    assert t[|l.lead|..] == s;
    CoreAtOf(l, rest);
    NoCoreInLead(l.lead, s);
    SearchAt(CoreAt, t, |l.lead|, Scan(l.Usage(), rest));
    FindAllCoresSearch(t);
  }

  function LayoutsText(ls: seq<CoreLayout>): string {
    if ls == [] then [] else ls[0].lead + ls[0].Fragment() + LayoutsText(ls[1..])
  }

  function Usages(ls: seq<CoreLayout>): (r: seq<CoreUsage>)
    requires forall l :: l in ls ==> l.Valid()
    ensures |r| == |ls| && forall i :: 0 <= i < |ls| ==> r[i] == ls[i].Usage()
  {
    if ls == [] then [] else [ls[0].Usage()] + Usages(ls[1..])
  }

  /** A line made of fragments, each with its lead, yields every fragment in order, then whatever the rest holds. */
  lemma {:induction false} FindAllCoresLine(ls: seq<CoreLayout>, rest: string)
    requires forall l :: l in ls ==> l.Valid()
    ensures FindAllCores(LayoutsText(ls) + rest) == Usages(ls) + FindAllCores(rest)
  {
    if ls == [] {
      assert LayoutsText(ls) + rest == rest;
    } else {
      var tail := LayoutsText(ls[1..]) + rest;
      assert LayoutsText(ls) == ls[0].lead + ls[0].Fragment() + LayoutsText(ls[1..]);
      assert LayoutsText(ls) + rest == ls[0].lead + ls[0].Fragment() + tail;
      FindAllCoresOf(ls[0], tail);
      FindAllCoresLine(ls[1..], rest);
      assert Usages(ls) == [ls[0].Usage()] + Usages(ls[1..]);
    }
  }

  /** A fragment as written with one blank on each side of the latency. */
  function CoreText(u: CoreUsage): string {
    CoreHead + u.core + CoreMiddle + " " + Decimal(u.usec) + " " + CoreTail
  }

  /** In particular a canonical fragment is recognised with its core and latency. */
  lemma CoreAtText(u: CoreUsage, rest: string)
    requires u.core != [] && AllIn(u.core, Digit)
    ensures CoreAt(CoreText(u) + rest) == Some(Scan(u, rest))
  {
    var l := CoreLayout([], u.core, " ", Decimal(u.usec), " ");
    assert AllIn(" ", Space);
    assert l.Fragment() == CoreText(u);
    CoreAtOf(l, rest);
  }

  function CoresText(us: seq<CoreUsage>): string {
    if us == [] then [] else CoreText(us[0]) + CoresText(us[1..])
  }

  /** A line made of canonical fragments back to back yields every one of them, in order. */
  lemma {:induction false} FindAllCoresText(us: seq<CoreUsage>)
    requires forall u :: u in us ==> u.core != [] && AllIn(u.core, Digit)
    ensures FindAllCores(CoresText(us)) == us
  {
    if us != [] {
      CoreAtText(us[0], CoresText(us[1..]));
      FindAllCoresText(us[1..]);
    }
  }
}
