/**
 * The driver ranking of display_results (analyze.py lines 67-68):
 * `sorted(driver_latencies.items(), key=lambda x: x[1], reverse=True)[:10]`.
 * Python's sort is stable also when `reverse=True`, so entries with equal
 * counts stay in the order of the dict, which is first-seen order.
 */
module Ranking {
  import opened Counts

  /** A `(driver, count)` pair of `driver_latencies.items()`. */
  type Entry = (string, nat)

  /** How many drivers are listed. */
  const TopN := 10

  /** Non-increasing counts. */
  predicate Sorted(s: seq<Entry>) {
    forall i, j :: 0 <= i < j < |s| ==> s[i].1 >= s[j].1
  }

  /** The entries with count `c`, in their order in `s`. */
  function ByCount(s: seq<Entry>, c: nat): seq<Entry> {
    if s == [] then []
    else (if s[0].1 == c then [s[0]] else []) + ByCount(s[1..], c)
  }

  /** `x` goes in front of the first entry whose count is not larger than its own. */
  function Insert(x: Entry, t: seq<Entry>): (r: seq<Entry>)
    ensures |r| == |t| + 1
    ensures multiset(r) == multiset(t) + multiset{x}
  {
    if t == [] || t[0].1 <= x.1 then [x] + t
    else
      assert t == [t[0]] + t[1..];
      [t[0]] + Insert(x, t[1..])
  }

  /** A stable sort by descending count (insertion sort from the back). */
  function SortDesc(s: seq<Entry>): (r: seq<Entry>)
    ensures |r| == |s|
    ensures multiset(r) == multiset(s)
  {
    if s == [] then []
    else
      assert s == [s[0]] + s[1..];
      Insert(s[0], SortDesc(s[1..]))
  }

  lemma {:induction false} InsertSorted(x: Entry, t: seq<Entry>)
    requires Sorted(t)
    ensures Sorted(Insert(x, t))
  {
    if t == [] || t[0].1 <= x.1 {
      SortedCons(x, t);
    } else {
      var r := Insert(x, t[1..]);
      SortedTail(t);
      InsertSorted(x, t[1..]);
      forall e | e in r ensures e.1 <= t[0].1 {
        InsertMember(x, t[1..], e);
      }
      SortedCons(t[0], r);
    }
  }

  lemma InsertMember(x: Entry, t: seq<Entry>, e: Entry)
    requires e in Insert(x, t)
    ensures e == x || e in t
  {
    assert e in multiset(Insert(x, t));
  }

  /** A sorted sequence with an entry put in front that is at least as large as all of it. */
  lemma SortedCons(x: Entry, r: seq<Entry>)
    requires Sorted(r)
    requires forall e :: e in r ==> e.1 <= x.1
    ensures Sorted([x] + r)
  {
    var full := [x] + r;
    forall i, j | 0 <= i < j < |full| ensures full[i].1 >= full[j].1 {
      assert full[j] == r[j - 1];
      if i > 0 {
        assert full[i] == r[i - 1];
      }
    }
  }

  /** The tail of a sorted sequence is sorted and below its head. */
  lemma SortedTail(s: seq<Entry>)
    requires Sorted(s) && s != []
    ensures Sorted(s[1..])
    ensures forall e :: e in s[1..] ==> e.1 <= s[0].1
  {
    assert forall i :: 0 <= i < |s| - 1 ==> s[1..][i] == s[i + 1];
  }

  lemma {:induction false} SortDescSorted(s: seq<Entry>)
    ensures Sorted(SortDesc(s))
  {
    if s != [] {
      SortDescSorted(s[1..]);
      InsertSorted(s[0], SortDesc(s[1..]));
    }
  }

  /** Inserting moves `x` only past entries with a larger count, so no entry with its count. */
  lemma {:induction false} InsertByCount(x: Entry, t: seq<Entry>, c: nat)
    ensures ByCount(Insert(x, t), c) == (if x.1 == c then [x] else []) + ByCount(t, c)
  {
    if t != [] && t[0].1 > x.1 {
      var r := Insert(x, t[1..]);
      InsertByCount(x, t[1..], c);
      ByCountCons(t[0], r, c);
      ByCountCons(t[0], t[1..], c);
      assert [t[0]] + t[1..] == t;
    } else {
      ByCountCons(x, t, c);
    }
  }

  /** Stability: the entries of each count come out in the order they went in. */
  lemma {:induction false} SortDescStable(s: seq<Entry>, c: nat)
    ensures ByCount(SortDesc(s), c) == ByCount(s, c)
  {
    if s != [] {
      SortDescStable(s[1..], c);
      InsertByCount(s[0], SortDesc(s[1..]), c);
    }
  }

  lemma {:induction false} ByCountAppend(a: seq<Entry>, b: seq<Entry>, c: nat)
    ensures ByCount(a + b, c) == ByCount(a, c) + ByCount(b, c)
  {
    if a == [] {
      assert a + b == b;
    } else {
      assert (a + b)[0] == a[0];
      assert (a + b)[1..] == a[1..] + b;
      ByCountAppend(a[1..], b, c);
    }
  }

  lemma ByCountCons(x: Entry, t: seq<Entry>, c: nat)
    ensures ByCount([x] + t, c) == (if x.1 == c then [x] else []) + ByCount(t, c)
  {
    assert ([x] + t)[1..] == t;
  }

  lemma {:induction false} ByCountMember(s: seq<Entry>, c: nat, e: Entry)
    requires e in ByCount(s, c)
    ensures e in s && e.1 == c
  {
    if s[0] != e || s[0].1 != c {
      ByCountMember(s[1..], c, e);
    }
  }

  lemma ByCountHead(s: seq<Entry>)
    requires s != []
    ensures ByCount(s, s[0].1) == [s[0]] + ByCount(s[1..], s[0].1)
    ensures forall c :: c != s[0].1 ==> ByCount(s, c) == ByCount(s[1..], c)
  {
  }

  /** In a sorted sequence nothing has a count above the first entry's. */
  lemma ByCountAboveHead(s: seq<Entry>, c: nat)
    requires Sorted(s) && s != [] && c > s[0].1
    ensures ByCount(s, c) == []
  {
    assert forall i :: 0 <= i < |s| ==> s[i].1 <= s[0].1;
    ByCountAbsent(s, c);
  }

  lemma {:induction false} ByCountAbsent(s: seq<Entry>, c: nat)
    requires forall i :: 0 <= i < |s| ==> s[i].1 != c
    ensures ByCount(s, c) == []
  {
    if s != [] {
      assert forall i :: 0 <= i < |s| - 1 ==> s[1..][i] == s[i + 1];
      ByCountAbsent(s[1..], c);
    }
  }

  /** Both sequences list the entries of every count in the same order. */
  ghost predicate SameByCount(a: seq<Entry>, b: seq<Entry>) {
    forall c :: ByCount(a, c) == ByCount(b, c)
  }

  /**
   * A sorted sequence is determined by its entries of each count: any
   * two sorted sequences that agree on every ByCount are equal.
   */
  lemma {:induction false} SortedByCountUnique(a: seq<Entry>, b: seq<Entry>)
    requires Sorted(a) && Sorted(b)
    requires SameByCount(a, b)
    ensures a == b
    decreases |a| + |b|
  {
    if a == [] && b != [] {
      ByCountHead(b);
      assert false;
    } else if a != [] && b == [] {
      ByCountHead(a);
      assert false;
    } else if a != [] && b != [] {
      SameHeads(a, b);
      SameTails(a, b);
      SortedTail(a);
      SortedTail(b);
      SortedByCountUnique(a[1..], b[1..]);
      assert a == [a[0]] + a[1..] && b == [b[0]] + b[1..];
    }
  }

  lemma SameHeads(a: seq<Entry>, b: seq<Entry>)
    requires Sorted(a) && Sorted(b) && a != [] && b != []
    requires SameByCount(a, b)
    ensures a[0] == b[0]
  {
    ByCountHead(a);
    ByCountHead(b);
    if a[0].1 > b[0].1 {
      ByCountAboveHead(b, a[0].1);
      assert false;
    } else if b[0].1 > a[0].1 {
      ByCountAboveHead(a, b[0].1);
      assert false;
    }
    assert a[0] == ByCount(a, a[0].1)[0] == ByCount(b, a[0].1)[0] == b[0];
  }

  lemma SameTails(a: seq<Entry>, b: seq<Entry>)
    requires a != [] && b != [] && a[0] == b[0]
    requires SameByCount(a, b)
    ensures SameByCount(a[1..], b[1..])
  {
    forall c ensures ByCount(a[1..], c) == ByCount(b[1..], c) {
      ByCountCons(a[0], a[1..], c);
      ByCountCons(b[0], b[1..], c);
      assert [a[0]] + a[1..] == a && [b[0]] + b[1..] == b;
      assert ByCount(a, c) == ByCount(b, c);
      var h := if a[0].1 == c then [a[0]] else [];
      assert (h + ByCount(a[1..], c))[|h|..] == ByCount(a[1..], c);
      assert (h + ByCount(b[1..], c))[|h|..] == ByCount(b[1..], c);
    }
  }

  /**
   * SortDesc is the stable descending sort: a permutation with
   * non-increasing counts that keeps equal counts in their order, and the
   * only sequence with the last two properties.
   */
  lemma SortDescSpec(s: seq<Entry>)
    ensures multiset(SortDesc(s)) == multiset(s)
    ensures Sorted(SortDesc(s))
    ensures SameByCount(SortDesc(s), s)
    ensures forall r :: Sorted(r) && SameByCount(r, s) ==> r == SortDesc(s)
  {
    SortDescSorted(s);
    forall c ensures ByCount(SortDesc(s), c) == ByCount(s, c) {
      SortDescStable(s, c);
    }
    forall r | Sorted(r) && SameByCount(r, s) ensures r == SortDesc(s) {
      SortedByCountUnique(r, SortDesc(s));
    }
  }

  function Min(a: int, b: int): int {
    if a <= b then a else b
  }

  /** `sorted(...)[:10]` */
  function Top(entries: seq<Entry>): seq<Entry> {
    SortDesc(entries)[..Min(TopN, |entries|)]
  }

  /** The entries that the slice leaves out. */
  function Omitted(entries: seq<Entry>): seq<Entry> {
    SortDesc(entries)[Min(TopN, |entries|)..]
  }

  lemma SplitSorted(r: seq<Entry>, k: nat)
    requires Sorted(r) && k <= |r|
    ensures Sorted(r[..k])
    ensures forall i, j :: 0 <= i < k && 0 <= j < |r| - k ==> r[..k][i].1 >= r[k..][j].1
  {
    assert forall i :: 0 <= i < k ==> r[..k][i] == r[i];
    assert forall j :: 0 <= j < |r| - k ==> r[k..][j] == r[k + j];
  }

  lemma SplitMultiset(r: seq<Entry>, k: nat)
    requires k <= |r|
    ensures multiset(r[..k]) + multiset(r[k..]) == multiset(r)
  {
    assert r == r[..k] + r[k..];
  }

  lemma SplitByCount(r: seq<Entry>, k: nat)
    requires k <= |r|
    ensures forall c :: ByCount(r[..k], c) + ByCount(r[k..], c) == ByCount(r, c)
  {
    forall c ensures ByCount(r[..k], c) + ByCount(r[k..], c) == ByCount(r, c) {
      ByCountAppend(r[..k], r[k..], c);
      assert r == r[..k] + r[k..];
    }
  }

  /**
   * The listed drivers: at most ten, by non-increasing count, ties in the
   * order of the dict, together with the omitted ones a permutation of all
   * entries, and no omitted count larger than a listed one.
   */
  lemma TopProperties(entries: seq<Entry>)
    ensures |Top(entries)| == Min(TopN, |entries|)
    ensures multiset(Top(entries)) + multiset(Omitted(entries)) == multiset(entries)
    ensures Sorted(Top(entries))
    ensures forall c :: ByCount(Top(entries), c) + ByCount(Omitted(entries), c) == ByCount(entries, c)
    ensures forall i, j :: 0 <= i < |Top(entries)| && 0 <= j < |Omitted(entries)| ==>
              Top(entries)[i].1 >= Omitted(entries)[j].1
  {
    var r, k := SortDesc(entries), Min(TopN, |entries|);
    SortDescSpec(entries);
    SplitSorted(r, k);
    SplitMultiset(r, k);
    SplitByCount(r, k);
  }

  // ---------------------------------------------------------------------
  // Ties in first-seen order.

  /** The names of `s` are among `names`, and `s` lists them in the order they first occur there. */
  predicate Ordered(s: seq<Entry>, names: seq<string>) {
    && (forall i :: 0 <= i < |s| ==> s[i].0 in names)
    && (forall i, j :: 0 <= i < j < |s| ==> FirstIndex(names, s[i].0) < FirstIndex(names, s[j].0))
  }

  lemma {:induction false} ByCountOrdered(s: seq<Entry>, names: seq<string>, c: nat)
    requires Ordered(s, names)
    ensures Ordered(ByCount(s, c), names)
  {
    if s != [] {
      var t := s[1..];
      OrderedTail(s, names);
      ByCountOrdered(t, names, c);
      ByCountCons(s[0], t, c);
      assert [s[0]] + t == s;
      if s[0].1 == c {
        var r := ByCount(t, c);
        forall e | e in r ensures e.0 in names && FirstIndex(names, s[0].0) < FirstIndex(names, e.0) {
          ByCountMember(t, c, e);
        }
        OrderedCons(s[0], r, names);
      }
    }
  }

  /** The tail of an ordered sequence is ordered and comes after its head. */
  lemma OrderedTail(s: seq<Entry>, names: seq<string>)
    requires Ordered(s, names) && s != []
    ensures Ordered(s[1..], names)
    ensures forall e :: e in s[1..] ==> e.0 in names && FirstIndex(names, s[0].0) < FirstIndex(names, e.0)
  {
    assert forall i :: 0 <= i < |s| - 1 ==> s[1..][i] == s[i + 1];
  }

  lemma OrderedCons(x: Entry, r: seq<Entry>, names: seq<string>)
    requires Ordered(r, names) && x.0 in names
    requires forall e :: e in r ==> e.0 in names && FirstIndex(names, x.0) < FirstIndex(names, e.0)
    ensures Ordered([x] + r, names)
  {
    var full := [x] + r;
    assert forall i :: 1 <= i < |full| ==> full[i] == r[i - 1];
    assert forall i :: 1 <= i < |full| ==> full[i] in r;
  }

  lemma PrefixOrdered(s: seq<Entry>, t: seq<Entry>, names: seq<string>)
    requires Ordered(s + t, names)
    ensures Ordered(s, names)
  {
    assert forall i :: 0 <= i < |s| ==> s[i] == (s + t)[i];
  }

  /**
   * When `entries` is in first-seen order, the listed entries of each
   * count are too: a tie is broken by which name was seen first.
   */
  lemma TopTies(entries: seq<Entry>, names: seq<string>, c: nat)
    requires Ordered(entries, names)
    ensures Ordered(ByCount(Top(entries), c), names)
  {
    TopProperties(entries);
    ByCountOrdered(entries, names, c);
    PrefixOrdered(ByCount(Top(entries), c), ByCount(Omitted(entries), c), names);
  }
}
