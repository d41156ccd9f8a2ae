# Latency report analyzer, modelled in Dafny

`analyze.py` reads a DPC/ISR latency report produced by XPerf and writes a
summary. This project models its core:

- **parse_latency_data** (`extract.dfy`, with `text.dfy`, `patterns.dfy`
  and `counts.dfy`). This is the single pass over the report lines. Each
  line is tried against three shapes:
  - the histogram bucket `Elapsed Time, > L usecs AND <= U usecs, N,`,
    which appends `N` copies of the midpoint `(L + U) / 2` to the samples;
  - the driver total `Total = N for module NAME`, which adds `N` to the
    driver's entry in a dict;
  - every `CPU K Usage, … M usec,` fragment, which adds `M` to core `K`'s
    entry in a second dict.

  The recognisers are functions over the rest of the line:
  - `Search` is `re.search`: the leftmost position where the shape matches.
  - `Shortest` is the lazy `.*?`: the shortest gap without a newline.
  - `FindAllCores` is `re.findall`: matches taken one after another,
    without overlap.

  The dicts are `Counts`: a map together with the keys in insertion order.
  The pass itself is a method whose loops are proved equal to `Parse`, a
  left fold of one step per line. Separate all-inputs lemmas state what
  `Parse` computes:
  - the sample count;
  - the sample values;
  - driver and core totals as sums over the file;
  - the keys as the names seen, in first-seen order.
- **display_results** (`report.dfy`, with `ranking.dfy`). The method
  returns what is written to the output file:
  - the empty-data branch;
  - a `StatisticsError` outcome when there is a single sample (see below);
  - otherwise:
    - the results header;
    - a statistics piece that carries the highest latency (`max`);
    - the driver header;
    - then either "No driver latency data found." or the ten drivers with
      the highest totals.

  The ranking is `sorted(items, key=count, reverse=True)[:10]`, modelled by
  `SortDesc`, a stable descending insertion sort. Lemmas prove it is a
  permutation, sorted and stable. They also prove it is the only sequence
  that is both sorted and stable. The listed ten are proved to form a
  prefix that keeps ties in first-seen order, and no omitted driver
  outranks a listed one. Every written driver line reads back, through
  `ParseDriverLine`, as the name and count it was written from.

With exactly one sample, `statistics.quantiles` raises `StatisticsError`
before Python 3.13, and `statistics.stdev` raises it in every version.
Either way it happens before anything is written to the freshly truncated
output file. `DisplayResults` returns `StatisticsError` in that case.

## Model

| member | source | states |
|---|---|---|
| Text.IsSpace | analyze.py:17 | Definition of `\s` as exactly the characters for which `str.isspace` holds; RunLength, SpacedFieldOf and LatencyAtOf rest on it. |
| Text.IsDigit | analyze.py:17 | Definition of `\d`, restricted to the ASCII digits; Digits and DigitsOf rest on it. |
| Text.RunLength | analyze.py:17 | The greedy run of one character class at the front: every character in it is of the class, and the next one is not. |
| Text.Literal | analyze.py:17 | Definition of matching the literal text of a shape at the front; LiteralText and LiteralFacts state it both ways. |
| Text.SkipSpaces | analyze.py:17 | `\s*`: what is skipped is all whitespace, and what remains is the suffix after it, which does not start with whitespace. |
| Text.Digits | analyze.py:17 | `(\d+)` succeeds exactly when the text starts with a digit. It yields the whole run of digits, with a non-digit or the end after it, and the run plus the rest is the text. |
| Text.Value | analyze.py:19 | Definition of `int()` on a block of ASCII digits; Decimal and TrailingNumberOf state it reads back what `str()` writes. |
| Text.Number | analyze.py:17 | `(\d+)` with `int()`: fails exactly when the text does not start with a digit, and otherwise consumes at least one character. |
| Text.Decimal | analyze.py:69 | `str()` of a count is non-empty digits whose value is the count, in canonical form: "0" for zero, and no leading zero otherwise. |
| Text.NumberOf | analyze.py:17 | `(\d+)` with `int()` reads any non-empty block of digits that a non-digit or the end ends, as its value, and returns the rest. |
| Text.NumberOfDecimal | analyze.py:17 | `(\d+)` with `int()` reads back the decimal text of a number when a non-digit follows. |
| Patterns.Search | analyze.py:17 | `re.search`: the match lies at a position where the shape matches, and the shape matches at no earlier position. None means it matches nowhere, the end of the line included. |
| Patterns.HistogramAt | analyze.py:17 | Definition of the histogram shape; what it accepts is stated by HistogramAtLine and HistogramAtShape. |
| Patterns.SpacedField | analyze.py:17 | Definition of `\s*(\d+)` followed by a literal; SpacedFieldOf and SpacedFieldShape state what it accepts. |
| Patterns.SpacedFieldOf | analyze.py:17 | `\s*(\d+)` followed by a literal that does not start with a digit reads any run of whitespace and any non-empty digits, and the number is their value. |
| Patterns.SpacedFieldShape | analyze.py:17 | Conversely, whatever `\s*(\d+)` and the literal match is whitespace, digits, the literal and the rest, and the number is the value of those digits. |
| Patterns.HistogramAtLine | analyze.py:17 | Any bucket line, with any whitespace (none, several blanks, tabs) before each number and any digits, is read back as the values of its three numbers, whatever follows it. |
| Patterns.HistogramAtShape | analyze.py:17 | Conversely, every text the histogram shape matches at its front is such a bucket line followed by the rest, with the bucket made of the values of its digits. |
| Patterns.HistogramAtText | analyze.py:17 | In particular, the line written with one blank before each number is read back as its bucket. |
| Patterns.DriverAt | analyze.py:24 | Definition of the driver shape; DriverAtText states what it reads back. |
| Patterns.DriverAtOf | analyze.py:24 | Any block of digits, zero-padded ones included, and any non-empty whitespace-free module name that whitespace or the end of the line ends, are read back as the value of the digits and the name. |
| Patterns.DriverAtShape | analyze.py:24 | Conversely, every text the driver shape matches at its front is such a line followed by the rest, which is empty or starts with whitespace. |
| Patterns.DriverAtText | analyze.py:24 | In particular, a driver line with its count written by `str()` is read back as its count and module name. |
| Patterns.LatencyAt | analyze.py:30 | `(\d+)\s+usec,` consumes at least one character. |
| Patterns.Shortest | analyze.py:30 | Lazy `.*?`: the chosen gap has no newline and the shape matches after it, and no shorter newline-free gap is followed by a match. |
| Patterns.CoreAt | analyze.py:30 | One `CPU K Usage,…M usec,` match: the core is non-empty digits, and the text consumed is non-empty. |
| Patterns.LazyLatency | analyze.py:30 | Definition of `.*?(\d+)\s+usec,` as the lazy gap followed by the latency shape; LazyLatencyOf and Shortest state what it accepts. |
| Patterns.LatencyAtOf | analyze.py:30 | `(\d+)\s+usec,` reads any non-empty digits followed by any non-empty run of whitespace and `usec,`, and the latency is their value. |
| Patterns.ShortestAt | analyze.py:30 | The lazy gap ends at the first offset where the shape after it matches, when no newline comes before that offset. |
| Patterns.LazyLatencyOf | analyze.py:30 | After `Usage,`, the lazy gap runs over any text without a newline or a digit, up to the first digit of the latency, and the latency is recovered. |
| Patterns.CoreAtOf | analyze.py:30 | Any `CPU K Usage,…M   usec,` fragment with such a gap and any whitespace before `usec,` is recognised with its core and latency, and the scan resumes right after it. |
| Patterns.CoreAtText | analyze.py:30 | In particular, a fragment written with one blank on each side of the latency is recognised with its core and latency, whatever follows. |
| Patterns.FindAllCores | analyze.py:30 | `re.findall`: every fragment's core is non-empty digits. |
| Patterns.FindAllCoresSearch | analyze.py:30 | `re.findall` takes the leftmost match, the one `re.search` finds, and continues after its end. With no match anywhere it returns no fragments. |
| Patterns.FindAllCoresOf | analyze.py:30 | Text without a 'C' in front of a fragment is skipped: the fragment is the first one found, and the scan goes on after it. |
| Patterns.FindAllCoresLine | analyze.py:30 | A line made of fragments, each with its own text in front, yields every fragment in order, followed by whatever the rest of the line yields. |
| Patterns.FindAllCoresText | analyze.py:30 | In particular, canonical fragments written back to back yield every one of them, in order. |
| Counts.Empty | analyze.py:9-10 | `{}`: a well-formed dict with no keys. |
| Counts.AddAll | analyze.py:32-33 | Definition of the updates `d[k] = d.get(k, 0) + amount`, applied front to back; AddAllGet and AddAllKeys state their effect on values and keys. |
| Counts.Counts.Get | analyze.py:27 | Definition of `d.get(k, 0)`; PutFacts and AddAllGet state its behaviour under updates. |
| Counts.Counts.Put | analyze.py:27 | Definition of `d[k] = v`; PutFacts and PutKeys state what it changes and where the key goes. |
| Counts.Counts.Items | analyze.py:67 | `dict.items()`: one pair per key, in insertion order, each key with its value. |
| Counts.PutFacts | analyze.py:27 | `d[k] = v`: the dict stays well formed, k holds v, every other key is unchanged, and k is the only key added. |
| Counts.AddAllGet | analyze.py:31-33 | Accumulating hits adds to each key the sum of its amounts. |
| Counts.Dedup | analyze.py:27 | The distinct names of a history: no repeats, and the same members as the history. |
| Counts.DedupFirstSeen | analyze.py:27 | Dedup lists names in the order of their first occurrence. |
| Counts.PutKeys | analyze.py:27 | One `d[k] = …` extends the key history by k, keeping keys in first-insertion order. |
| Counts.AddAllKeys | analyze.py:31-33 | Accumulating hits extends the key history by the keys hit, in order. |
| Extract.Groups | analyze.py:19 | Definition of `match.groups()`: the groups of a search result, without the offset. |
| Extract.MatchLine | analyze.py:17-30 | Definition of the three searches a line is put through; the step lemmas state what each finding does. |
| Extract.UsageHits | analyze.py:32-33 | One update per fragment, in order, with the fragment's core and latency. |
| Extract.Midpoint | analyze.py:20 | Definition of `(lower_bound + upper_bound) / 2` as an exact real; SampleValues states which midpoints become samples. |
| Extract.Repeat | analyze.py:21 | `[x] * n` has length n, and every element is x. |
| Extract.Samples | analyze.py:19-21 | Definition of what one line adds to the samples; HistogramStep states it. |
| Extract.AddDriver | analyze.py:25-27 | Definition of one driver update; DriverStep and DriverKeys state its effect on totals and keys. |
| Extract.Step | analyze.py:16-33 | Definition of one iteration over a line's matches; HistogramStep, DriverStep and UnmatchedStep state its effects. |
| Extract.Fold | analyze.py:15-33 | Definition of the loop over the lines, continued from given accumulators; FoldAppend states that it is a left fold. |
| Extract.Parse | analyze.py:15-35 | Definition of the whole pass as a fold of Step; SampleCount, SampleValues, DriverTotals, CoreTotals, DriverKeys and CoreKeys state what it computes. |
| Extract.ParseLatencyData | analyze.py:6-35 | The loop over the lines returns exactly `Parse(lines)`, the left fold of one step per line from empty values. |
| Extract.Accumulate | analyze.py:16-33 | One iteration's updates to the three accumulators equal `Step` applied to what the three searches found. |
| Extract.AddUsages | analyze.py:31-33 | The inner loop over the findall fragments adds each fragment's latency to its core, front to back. |
| Extract.FoldAppend | analyze.py:15-33 | The pass is a left fold: parsing `xs + ys` continues from the result for `xs`. |
| Extract.ParseSnoc | analyze.py:15-33 | One more line applies one more step to the result so far. |
| Extract.HistogramStep | analyze.py:17-21 | A histogram line appends exactly `count` copies of its midpoint at the end, with none for count 0. Earlier samples are kept, and a line without a bucket adds nothing. |
| Extract.DriverStep | analyze.py:24-27 | A driver line adds its count to its module's total and changes no other total. |
| Extract.UnmatchedStep | analyze.py:15-33 | A line that matches no shape leaves all three accumulators unchanged. |
| Extract.SampleCount | analyze.py:19-21 | The number of samples is the sum of the bucket counts over the file. |
| Extract.SampleValues | analyze.py:19-21 | A value is a sample exactly when it is the midpoint of some bucket whose count is positive. |
| Extract.DriverTotals | analyze.py:24-27 | Each driver's total is the sum of the counts of its `Total = … for module` lines. |
| Extract.CoreTotals | analyze.py:30-33 | Each core's total is the sum of the latencies of all its fragments, several per line included. |
| Extract.DriverKeys | analyze.py:24-27 | The driver dict's keys are exactly the module names seen, without repeats, in first-seen order. |
| Extract.DriverKeysFirstSeen | analyze.py:27 | Earlier keys of the driver dict were first seen earlier in the file. |
| Extract.CoreKeys | analyze.py:30-33 | The core dict's keys are exactly the core numbers seen, without repeats, in first-seen order. |
| Ranking.Insert | analyze.py:67 | An insertion step adds exactly one entry, giving the old entries plus x as a multiset. |
| Ranking.SortDesc | analyze.py:67 | The sort returns a permutation of the entries. |
| Ranking.InsertSorted | analyze.py:67 | Inserting into a sorted sequence keeps it sorted by non-increasing count. |
| Ranking.SortDescSorted | analyze.py:67 | The sort's result has non-increasing counts. |
| Ranking.InsertByCount | analyze.py:67 | Insertion moves x past larger counts only, so among equal counts x comes first. |
| Ranking.SortDescStable | analyze.py:67 | Stability under `reverse=True`: the entries of each count keep their original order. |
| Ranking.SortedByCountUnique | analyze.py:67 | Two sorted sequences that agree on the entries of every count, in order, are equal. |
| Ranking.SortDescSpec | analyze.py:67 | SortDesc is a sorted, stable permutation, and every sorted sequence that is stable with respect to the input equals it. |
| Ranking.TopProperties | analyze.py:67-68 | `[:10]` has min(10, n) entries. Listed plus omitted entries make up all entries, and the list is sorted. Listed and omitted entries of each count together give that count's entries in input order, and no omitted count exceeds a listed one. |
| Ranking.Top | analyze.py:67-68 | Definition of `sorted(...)[:10]`; TopProperties and TopTies state its properties. |
| Ranking.ByCountOrdered | analyze.py:67 | Keeping only one count preserves first-seen order. |
| Ranking.TopTies | analyze.py:67-68 | When the items are in first-seen order, the listed entries of each count are too. |
| Report.MaxOf | analyze.py:45 | `max`: the result is one of the samples and no sample is larger. |
| Report.MaxOfSameValues | analyze.py:45 | The maximum depends only on which values occur. |
| Report.MaxSample | analyze.py:45 | The highest latency is the largest midpoint among buckets with a positive count. There is one exactly when such a bucket exists. |
| Report.DriverLine | analyze.py:69 | Definition of `f"{driver}: {count} occurrences\n"`; DriverLineRoundTrip states that it reads back. |
| Report.TrailingNumberOf | analyze.py:69 | The number at the end of written text is read back whole. |
| Report.DriverLineRoundTrip | analyze.py:69 | Every `"{driver}: {count} occurrences\n"` line reads back as its driver and count, whatever the name. |
| Report.NoDriverDataIsNoDriverLine | analyze.py:71 | "No driver latency data found." is not a driver line. |
| Report.DisplayResults | analyze.py:37-71 | No samples: exactly the header and "No latency data found.", and only then. One sample: StatisticsError, and only then. More: header, statistics with the highest latency, driver header, then the driver section. |
| Report.DriverItemsOrdered | analyze.py:27 | The driver dict's items are in first-seen order of the names in the file. |
| Report.Heading | analyze.py:54-65 | Definition of the first writes when there are samples: results header, statistics, driver header; DisplayResults states where they go. |
| Report.DriverLines | analyze.py:68-69 | One written line per listed entry, in order, each the driver line of its entry. |
| Report.DriverSection | analyze.py:66-71 | Definition of the writes after the driver header; SectionEmpty, SectionLines, SectionRanked and ReportedDrivers state their properties. |
| Report.SectionEmpty | analyze.py:66-71 | "No driver latency data found." is written exactly when the dict has no keys. |
| Report.SectionLines | analyze.py:66-69 | With drivers present there are min(10, n) lines. Each reads back as a listed key with its total. |
| Report.SectionRanked | analyze.py:67-68 | The listed drivers are by non-increasing total, with ties in first-seen order. No omitted driver has a larger total than a listed one. |
| Report.ReportedDrivers | analyze.py:66-71 | For a parsed report, "No driver latency data found." is written exactly when no line names a driver. Every listed line reads back as a module seen in the report, with the sum of its counts. |

## Left out

- File I/O and the command line: opening and reading the report (lines 12-13), opening the output (line 39), and `main` (lines 73-88). `ParseLatencyData` takes the lines as a parameter. As with `readlines()`, a line may end in `"\n"`, and the lazy gap in the core shape never crosses one.
- Mean, median, quantiles and standard deviation (lines 46-52), and their `.2f` formatting. They are floating-point numerics done by the `statistics` library, which is not part of this model.
- Report.DisplayResults: the block written by lines 55-63 is one `Statistics` piece. It carries only the highest latency, not the other figures or the text of those lines.
- Report.DisplayResults: the StatisticsError outcome stands for the exception. Which call raises it depends on the Python version, and that is not modelled.
- Errors on very large numbers. `int()` of a capture longer than 4300 digits raises ValueError on current CPython (lines 19, 27 and 33). `(lower_bound + upper_bound) / 2` raises OverflowError once the midpoint exceeds the largest float, about 1.8e308 (line 20). `[avg_latency] * count` raises OverflowError or MemoryError for huge counts (line 21). `Value`, `Midpoint` and `Repeat` always succeed, so the model has no error outcome for any of these.
- Text.Decimal: always succeeds. The f-string at line 69 formats `{count}` with `str()`, which raises ValueError on current CPython once a driver total has more than 4300 digits. Two `Total = … for module x` lines whose counts have 4300 digits each can reach that: each `int()` at line 27 succeeds, but the sum has 4301 digits.
- Report.DriverLine: always succeeds, for the same reason, so a driver line with a total over 4300 digits is modelled as written rather than as the ValueError line 69 raises.
- Report.DisplayResults: with at least two samples, the model promises the whole driver section. In the source, a total over 4300 digits makes line 69 raise ValueError. By then the header, the statistics block and any earlier driver lines are already written. There is no outcome for this exception.
- Floating point: midpoints `(L + U) / 2` are exact reals. Python's float rounding is not modelled. The midpoint is exact when `L + U <= 2^53`. Above that bound, even a midpoint below 2^53 can round: `L + U = 2^53 + 1` gives 2^52 + 0.5, which CPython stores as 2^52.
- `\d` is modelled as ASCII digits only. Python also accepts other Unicode decimal digits, and `int()` converts them. `\s` is modelled as exactly the characters of `str.isspace`.
- General regular-expression semantics: only the three patterns of the source are modelled, each by its own recogniser.
- `core_latencies` is accumulated, and its totals and keys are proved. `display_results` receives it but never uses it, so `DisplayResults` does not take it.
- Extract.ParseLatencyData: the source does the histogram update before the driver search and is otherwise interleaved. The model runs the three searches on a line first, then makes the updates. The results are the same because the searches only read the line.
- Extract.ParseLatencyData: there is no separate lemma for running the pass twice, since a lemma cannot call a method. Both runs return `Parse(lines)`, so they agree.
- Report.DisplayResults requires the dict to be well formed (`Valid`). In Python that always holds, because every parsed dict satisfies it (`Extract.DriverKeys`).
- Patterns.CoreAtOf: the read-back covers gaps after `Usage,` that contain no digit. In a gap with digits the lazy `.*?` may stop early. For such a gap only the general contracts of `Shortest` and `ShortestAt` apply.
- Patterns.FindAllCoresLine: the text in front of each fragment is required to contain no 'C'. Other text is handled by `FindAllCoresSearch`, through the leftmost match that `Search` returns. There is no converse for the core shape like `HistogramAtShape`.
