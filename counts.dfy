/**
 * The Python dicts that parse_latency_data accumulates into
 * (driver_latencies and core_latencies, analyze.py lines 9-10). A dict
 * remembers the order in which its keys were first inserted, and the
 * driver ranking depends on that order, so the model keeps the key
 * sequence next to the map.
 */
module Counts {

  predicate Distinct(s: seq<string>) {
    forall i, j :: 0 <= i < j < |s| ==> s[i] != s[j]
  }

  /** One accumulation step `d[key] = d.get(key, 0) + amount`. */
  datatype Hit = Hit(key: string, amount: nat)

  /** A dict from str to a non-negative int, with its keys in insertion order. */
  datatype Counts = Counts(keys: seq<string>, vals: map<string, nat>) {

    ghost predicate Valid() {
      && Distinct(keys)
      && (forall k :: k in vals <==> k in keys)
    }

    /** `d.get(k, 0)` */
    function Get(k: string): nat {
      if k in vals then vals[k] else 0
    }

    /** `d[k] = v`: a key already present keeps its place, a new key goes last. */
    function Put(k: string, v: nat): Counts {
      if k in vals then Counts(keys, vals[k := v]) else Counts(keys + [k], vals[k := v])
    }

    /** `d.items()`: the (key, value) pairs in insertion order. */
    function Items(): (r: seq<(string, nat)>)
      requires Valid()
      ensures |r| == |keys|
      ensures forall i :: 0 <= i < |r| ==> r[i] == (keys[i], vals[keys[i]])
    {
      ItemsOf(keys, vals)
    }
  }

  function ItemsOf(ks: seq<string>, vals: map<string, nat>): (r: seq<(string, nat)>)
    requires forall k :: k in ks ==> k in vals
    ensures |r| == |ks|
    ensures forall i :: 0 <= i < |r| ==> r[i] == (ks[i], vals[ks[i]])
  {
    if ks == [] then [] else [(ks[0], vals[ks[0]])] + ItemsOf(ks[1..], vals)
  }

  /** After `d[k] = v` the dict is still well formed, `k` holds `v`, every other key is unchanged. */
  lemma PutFacts(c: Counts, k: string, v: nat)
    ensures c.Valid() ==> c.Put(k, v).Valid()
    ensures c.Put(k, v).Get(k) == v
    ensures forall k' :: k' != k ==> c.Put(k, v).Get(k') == c.Get(k')
    ensures forall k' :: k' in c.Put(k, v).vals <==> k' in c.vals || k' == k
  {
  }

  /** `{}` */
  function Empty(): (c: Counts)
    ensures c.Valid() && c.keys == [] && c.vals == map[]
  {
    Counts([], map[])
  }

  /** The hits applied one after another, front to back, as the source's loops do. */
  function AddAll(c: Counts, hs: seq<Hit>): Counts
    decreases |hs|
  {
    if hs == [] then c
    else AddAll(c.Put(hs[0].key, c.Get(hs[0].key) + hs[0].amount), hs[1..])
  }

  lemma AddAllCons(c: Counts, h: Hit, hs: seq<Hit>)
    ensures AddAll(c, [h] + hs) == AddAll(c.Put(h.key, c.Get(h.key) + h.amount), hs)
  {
    assert ([h] + hs)[1..] == hs;
  }

  /** The sum of the amounts of the hits on key `k`. */
  function Total(hs: seq<Hit>, k: string): nat {
    if hs == [] then 0
    else (if hs[0].key == k then hs[0].amount else 0) + Total(hs[1..], k)
  }

  function HitKeys(hs: seq<Hit>): (r: seq<string>)
    ensures |r| == |hs| && forall i :: 0 <= i < |hs| ==> r[i] == hs[i].key
  {
    if hs == [] then [] else [hs[0].key] + HitKeys(hs[1..])
  }

  /** After accumulation, each key holds what it held plus the sum of its hits. */
  lemma {:induction false} AddAllGet(c: Counts, hs: seq<Hit>, k: string)
    ensures AddAll(c, hs).Get(k) == c.Get(k) + Total(hs, k)
    decreases |hs|
  {
    if hs != [] {
      PutFacts(c, hs[0].key, c.Get(hs[0].key) + hs[0].amount);
      AddAllGet(c.Put(hs[0].key, c.Get(hs[0].key) + hs[0].amount), hs[1..], k);
    }
  }

  // ---------------------------------------------------------------------
  // Insertion order.

  /** The distinct elements of `s`, each where it first occurs. */
  function Dedup(s: seq<string>): (r: seq<string>)
    ensures Distinct(r)
    ensures forall x :: x in r <==> x in s
  {
    if s == [] then []
    else
      var r := Dedup(s[..|s| - 1]);
      var x := s[|s| - 1];
      assert forall y :: y in s <==> y in s[..|s| - 1] || y == x by {
        assert s == s[..|s| - 1] + [x];
      }
      if x in r then r else r + [x]
  }

  function FirstIndex(s: seq<string>, x: string): (i: nat)
    requires x in s
    ensures i < |s| && s[i] == x
    ensures forall j :: 0 <= j < i ==> s[j] != x
  {
    if s[0] == x then 0 else 1 + FirstIndex(s[1..], x)
  }

  lemma FirstIndexPrefix(p: seq<string>, q: seq<string>, x: string)
    requires x in p
    ensures FirstIndex(p + q, x) == FirstIndex(p, x)
  {
    var i := FirstIndex(p, x);
    var k := FirstIndex(p + q, x);
    assert (p + q)[i] == x;
    assert forall j :: 0 <= j < |p| ==> (p + q)[j] == p[j];
  }

  /** Dedup lists keys by their first occurrence: earlier in the result means seen earlier. */
  lemma {:induction false} DedupFirstSeen(s: seq<string>)
    ensures forall i, j :: 0 <= i < j < |Dedup(s)| ==>
              FirstIndex(s, Dedup(s)[i]) < FirstIndex(s, Dedup(s)[j])
  {
    if s != [] {
      var p, x := s[..|s| - 1], s[|s| - 1];
      assert s == p + [x];
      DedupFirstSeen(p);
      var r := Dedup(p);
      forall y | y in p ensures FirstIndex(s, y) == FirstIndex(p, y) {
        FirstIndexPrefix(p, [x], y);
      }
      if x !in r {
        assert FirstIndex(s, x) == |p|;
      }
    }
  }

  /** The keys of a dict are the distinct names of a history, in the order of their first occurrence. */
  ghost predicate KeysOf(c: Counts, names: seq<string>) {
    c.Valid() && (forall x :: x in c.vals <==> x in names) && c.keys == Dedup(names)
  }

  /** Putting a key extends the history by that key: it is new and goes last, or it is already listed. */
  lemma PutKeys(c: Counts, names: seq<string>, k: string, v: nat)
    requires KeysOf(c, names)
    ensures KeysOf(c.Put(k, v), names + [k])
  {
    PutFacts(c, k, v);
    assert (names + [k])[..|names|] == names;
  }

  /** Accumulating hits extends the history by the keys hit, in order. */
  lemma {:induction false} AddAllKeys(c: Counts, names: seq<string>, hs: seq<Hit>)
    requires KeysOf(c, names)
    ensures KeysOf(AddAll(c, hs), names + HitKeys(hs))
    decreases |hs|
  {
    if hs == [] {
      assert names + HitKeys(hs) == names;
    } else {
      var h := hs[0];
      PutKeys(c, names, h.key, c.Get(h.key) + h.amount);
      AddAllKeys(c.Put(h.key, c.Get(h.key) + h.amount), names + [h.key], hs[1..]);
      AddAllUnfold(c, names, hs);
    }
  }

  lemma AddAllUnfold(c: Counts, names: seq<string>, hs: seq<Hit>)
    requires hs != []
    ensures AddAll(c, hs) == AddAll(c.Put(hs[0].key, c.Get(hs[0].key) + hs[0].amount), hs[1..])
    ensures names + [hs[0].key] + HitKeys(hs[1..]) == names + HitKeys(hs)
  {
  }
}
