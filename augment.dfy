/**
 * Label-frequency bookkeeping of the augmentation driver
 * (grants_tagger_light/augmentation/augment.py): counting the labels of each
 * record, merging the per-record counts, sorting them by descending count,
 * choosing the labels below `min_examples` and collecting the planned
 * generation calls.
 */
module LabelCounts {
  import opened Text
  import opened Collections
  import opened Corpus

  /** A Python dict from labels to counts: its keys in insertion order and
      the mapping itself. */
  datatype Counter = Counter(keys: seq<Label>, counts: map<Label, int>) {
    ghost predicate Valid() {
      Distinct(keys) && forall k :: k in counts <==> k in keys
    }
  }

  /** A `(label, count)` pair of `dict.items()`. */
  type Item = (Label, int)

  // ---------------------------------------------------------------------
  // Year filters (lines 88-91)
  // ---------------------------------------------------------------------

  /** The two `dset.filter` calls on `str(year)`; a `None` year list behaves
      like an empty one. */
  function FilterYears(dset: seq<Record>, trainYears: seq<string>, testYears: seq<string>): (kept: seq<Record>)
    ensures |kept| <= |dset|
    ensures forall r :: r in kept <==>
      && r in dset
      && (|trainYears| == 0 || IntToString(r.year) in trainYears)
      && (|testYears| == 0 || IntToString(r.year) !in testYears)
  {
    var afterTrain :=
      if |trainYears| > 0 then Filter(dset, (r: Record) => IntToString(r.year) in trainYears) else dset;
    if |testYears| > 0 then Filter(afterTrain, (r: Record) => IntToString(r.year) !in testYears) else afterTrain
  }

  /** Because `str` is injective on integers, a year list written as the
      strings of some years keeps exactly the records of those years. */
  lemma FilterYearsByValue(dset: seq<Record>, years: seq<int>, r: Record)
    requires |years| > 0
    ensures r in FilterYears(dset, seq(|years|, i requires 0 <= i < |years| => IntToString(years[i])), [])
        <==> r in dset && r.year in years
  {
    var train := seq(|years|, i requires 0 <= i < |years| => IntToString(years[i]));
    if IntToString(r.year) in train {
      var i :| 0 <= i < |years| && train[i] == IntToString(r.year);
      IntToStringInjective(years[i], r.year);
    }
    if r.year in years {
      var i :| 0 <= i < |years| && years[i] == r.year;
      assert train[i] == IntToString(r.year);
    }
  }

  // ---------------------------------------------------------------------
  // _count_elements_in_sublist (lines 20-27)
  // ---------------------------------------------------------------------

  /** The dict `_count_elements_in_sublist(labels)` returns: keys in order of
      first occurrence, each mapped to its number of occurrences. */
  function Tally(labels: seq<Label>): (c: Counter)
    ensures c.Valid()
  {
    Counter(FirstOccurrences(labels), map x | x in labels :: multiset(labels)[x])
  }

  method CountElements(labels: seq<Label>) returns (c: Counter)
    ensures c.Valid() && c == Tally(labels)
    ensures c.keys == FirstOccurrences(labels)
    ensures forall x :: x in c.counts <==> x in labels
    ensures forall x :: x in c.counts ==> c.counts[x] == multiset(labels)[x] >= 1
  {
    var keys: seq<Label> := [];
    var counts: map<Label, int> := map[];
    for i := 0 to |labels|
      invariant keys == FirstOccurrences(labels[..i])
      invariant forall x :: x in counts <==> x in labels[..i]
      invariant forall x :: Get(counts, x) == multiset(labels[..i])[x]
    {
      // `counts[e] += 1` when `e` is a key, `counts[e] = 1` otherwise
      CountStep(labels, i, keys, counts);
      keys := KeysAfter(keys, counts, labels[i]);
      counts := Bump(counts, labels[i], 1);
    }
    assert labels[..|labels|] == labels;
    c := Counter(keys, counts);
    assert forall x :: x in counts ==> counts[x] == Get(counts, x);
    assert counts == Tally(labels).counts;
  }

  /** What one pass of the loop in `_count_elements_in_sublist` keeps: from
      the counts of `labels[..i]` to those of `labels[..i + 1]`. */
  lemma CountStep(labels: seq<Label>, i: nat, keys: seq<Label>, counts: map<Label, int>)
    requires i < |labels|
    requires keys == FirstOccurrences(labels[..i])
    requires forall x :: x in counts <==> x in labels[..i]
    requires forall x :: Get(counts, x) == multiset(labels[..i])[x]
    ensures KeysAfter(keys, counts, labels[i]) == FirstOccurrences(labels[..i + 1])
    ensures forall x :: x in Bump(counts, labels[i], 1) <==> x in labels[..i + 1]
    ensures forall x :: Get(Bump(counts, labels[i], 1), x) == multiset(labels[..i + 1])[x]
  {
    var pre, e := labels[..i], labels[i];
    assert labels[..i + 1] == pre + [e];
    FirstOccurrencesSnoc(pre, e);
    CountValuesStep(pre, e, counts);
  }

  lemma CountValuesStep(pre: seq<Label>, e: Label, counts: map<Label, int>)
    requires forall x :: x in counts <==> x in pre
    requires forall x :: Get(counts, x) == multiset(pre)[x]
    ensures forall x :: x in Bump(counts, e, 1) <==> x in pre + [e]
    ensures forall x :: Get(Bump(counts, e, 1), x) == multiset(pre + [e])[x]
  {
    var next := Bump(counts, e, 1);
    assert multiset(pre + [e]) == multiset(pre) + multiset{e};
    forall x
      ensures x in next <==> x in pre + [e]
      ensures Get(next, x) == multiset(pre + [e])[x]
    {
      assert x in pre + [e] <==> x in pre || x == e;
      if x != e {
        assert x in next <==> x in counts;
        assert Get(next, x) == Get(counts, x);
      }
    }
  }

  // ---------------------------------------------------------------------
  // _merge_dicts (lines 30-38)
  // ---------------------------------------------------------------------

  /** The keys of the dicts of `ds`, dict after dict, each in its own order. */
  function ConcatKeys(ds: seq<Counter>): seq<Label> {
    if ds == [] then [] else ConcatKeys(ds[..|ds| - 1]) + ds[|ds| - 1].keys
  }

  /** The sum of the values the dicts of `ds` hold for `k` (0 when none does). */
  function SumAt(ds: seq<Counter>, k: Label): int {
    if ds == [] then 0
    else SumAt(ds[..|ds| - 1], k) + (if k in ds[|ds| - 1].counts then ds[|ds| - 1].counts[k] else 0)
  }

  lemma {:induction false} ConcatKeysMembership(ds: seq<Counter>, k: Label)
    requires forall i :: 0 <= i < |ds| ==> ds[i].Valid()
    ensures k in ConcatKeys(ds) <==> exists i :: 0 <= i < |ds| && k in ds[i].counts
    ensures k !in ConcatKeys(ds) ==> SumAt(ds, k) == 0
    decreases |ds|
  {
    if ds != [] {
      var n := |ds| - 1;
      ConcatKeysMembership(ds[..n], k);
      assert forall i :: 0 <= i < n ==> ds[..n][i] == ds[i];
    }
  }

  lemma LastStep(ds: seq<Counter>, j: nat)
    requires j < |ds|
    ensures ConcatKeys(ds[..j + 1]) == ConcatKeys(ds[..j]) + ds[j].keys
    ensures forall k :: SumAt(ds[..j + 1], k) == SumAt(ds[..j], k) + (if k in ds[j].counts then ds[j].counts[k] else 0)
  {
    assert ds[..j + 1][..j] == ds[..j];
  }

  /** The value a dict holds for `k`, 0 when it has none (`d.get(k, 0)`). */
  function Get(counts: map<Label, int>, k: Label): int {
    if k in counts then counts[k] else 0
  }

  lemma PrefixStep(prefix: seq<Label>, ks: seq<Label>, m: nat)
    requires m < |ks|
    ensures prefix + ks[..m + 1] == (prefix + ks[..m]) + [ks[m]]
    ensures forall k :: k in ks[..m + 1] <==> k in ks[..m] || k == ks[m]
  {
    assert ks[..m + 1] == ks[..m] + [ks[m]];
  }

  /** `d[key] = d.get(key, 0) + v` */
  function Bump(counts: map<Label, int>, key: Label, v: int): map<Label, int> {
    counts[key := Get(counts, key) + v]
  }

  /** The key order after that assignment: a new key goes at the end. */
  function KeysAfter(keys: seq<Label>, counts: map<Label, int>, key: Label): seq<Label> {
    if key in counts then keys else keys + [key]
  }

  /** The running dict after the inner loop of `_merge_dicts` has added the
      keys `ks` of a dict with values `dc`: each key's value is added to what
      the running dict holds for it, a key it does not hold goes at its end. */
  function AddEntries(keys: seq<Label>, counts: map<Label, int>, ks: seq<Label>, dc: map<Label, int>): (seq<Label>, map<Label, int>) {
    if ks == [] then (keys, counts)
    else
      var prev := AddEntries(keys, counts, ks[..|ks| - 1], dc);
      var key := ks[|ks| - 1];
      (KeysAfter(prev.0, prev.1, key), Bump(prev.1, key, Get(dc, key)))
  }

  /** What one pass of the inner loop of `_merge_dicts` keeps: from the
      entries of `ks[..m]` added to `before` to those of `ks[..m + 1]`. */
  lemma AddStep(keys: seq<Label>, counts: map<Label, int>, before: map<Label, int>, ks: seq<Label>, dc: map<Label, int>,
                prefix: seq<Label>, m: nat)
    requires Distinct(ks) && m < |ks|
    requires keys == FirstOccurrences(prefix + ks[..m])
    requires forall k :: k in counts <==> k in prefix + ks[..m]
    requires forall k :: Get(counts, k) == Get(before, k) + (if k in ks[..m] then Get(dc, k) else 0)
    ensures KeysAfter(keys, counts, ks[m]) == FirstOccurrences(prefix + ks[..m + 1])
    ensures forall k :: k in Bump(counts, ks[m], Get(dc, ks[m])) <==> k in prefix + ks[..m + 1]
    ensures forall k :: Get(Bump(counts, ks[m], Get(dc, ks[m])), k) == Get(before, k) + (if k in ks[..m + 1] then Get(dc, k) else 0)
  {
    var key := ks[m];
    var next := Bump(counts, key, Get(dc, key));
    PrefixStep(prefix, ks, m);
    FirstOccurrencesSnoc(prefix + ks[..m], key);
    assert key !in ks[..m];
    forall k
      ensures k in next <==> k in prefix + ks[..m + 1]
      ensures Get(next, k) == Get(before, k) + (if k in ks[..m + 1] then Get(dc, k) else 0)
    {
      assert k in (prefix + ks[..m]) + [key] <==> k in prefix + ks[..m] || k == key;
      if k != key {
        assert k in next <==> k in counts;
        assert Get(next, k) == Get(counts, k);
      }
    }
  }

  /** Adding distinct keys `ks` to a dict whose keys are those of `prefix`,
      in order of first occurrence, keeps the keys in order of first
      occurrence of `prefix + ks` and adds each key's value. */
  lemma {:induction false} AddEntriesSpec(keys: seq<Label>, counts: map<Label, int>, ks: seq<Label>, dc: map<Label, int>,
                                          prefix: seq<Label>)
    requires Distinct(ks)
    requires keys == FirstOccurrences(prefix)
    requires forall k :: k in counts <==> k in prefix
    ensures AddEntries(keys, counts, ks, dc).0 == FirstOccurrences(prefix + ks)
    ensures forall k :: k in AddEntries(keys, counts, ks, dc).1 <==> k in prefix + ks
    ensures forall k :: Get(AddEntries(keys, counts, ks, dc).1, k) == Get(counts, k) + (if k in ks then Get(dc, k) else 0)
    decreases |ks|
  {
    if ks == [] {
      assert prefix + ks == prefix;
    } else {
      var n := |ks| - 1;
      var init := ks[..n];
      DistinctPrefix(ks, n);
      AddEntriesSpec(keys, counts, init, dc, prefix);
      var p := AddEntries(keys, counts, init, dc);
      var q := AddEntries(keys, counts, ks, dc);
      assert ks[..n + 1] == ks;
      AddStep(p.0, p.1, counts, ks, dc, prefix, n);
    }
  }

  lemma DistinctPrefix(ks: seq<Label>, n: nat)
    requires Distinct(ks) && n <= |ks|
    ensures Distinct(ks[..n])
  {
    forall i, j | 0 <= i < j < n
      ensures ks[..n][i] != ks[..n][j]
    {
      assert ks[..n][i] == ks[i] && ks[..n][j] == ks[j];
    }
  }

  /** One pass of the outer loop of `_merge_dicts`: adds the entries of `d`
      to the running dict, new keys at its end (AddEntriesSpec says what
      that makes of the keys and the values). */
  method AddCounter(keys: seq<Label>, counts: map<Label, int>, d: Counter)
    returns (keys': seq<Label>, counts': map<Label, int>)
    requires d.Valid()
    ensures (keys', counts') == AddEntries(keys, counts, d.keys, d.counts)
  {
    keys', counts' := keys, counts;
    for m := 0 to |d.keys|
      invariant (keys', counts') == AddEntries(keys, counts, d.keys[..m], d.counts)
    {
      var key := d.keys[m];
      assert d.keys[..m + 1][..m] == d.keys[..m];
      keys' := KeysAfter(keys', counts', key);
      counts' := Bump(counts', key, d.counts[key]);
    }
    assert d.keys[..|d.keys|] == d.keys;
  }

  method MergeCounters(ds: seq<Counter>) returns (merged: Counter)
    requires forall i :: 0 <= i < |ds| ==> ds[i].Valid()
    ensures merged.Valid()
    ensures merged.keys == FirstOccurrences(ConcatKeys(ds))
    ensures forall k :: k in merged.counts <==> k in ConcatKeys(ds)
    ensures forall k :: k in merged.counts <==> exists i :: 0 <= i < |ds| && k in ds[i].counts
    ensures forall k :: k in merged.counts ==> merged.counts[k] == SumAt(ds, k)
  {
    var keys: seq<Label> := [];
    var counts: map<Label, int> := map[];
    for j := 0 to |ds|
      invariant keys == FirstOccurrences(ConcatKeys(ds[..j]))
      invariant forall k :: k in counts <==> k in ConcatKeys(ds[..j])
      invariant forall k :: Get(counts, k) == SumAt(ds[..j], k)
    {
      forall k | k !in counts
        ensures SumAt(ds[..j], k) == 0
      {
        ConcatKeysMembership(ds[..j], k);
      }
      AddEntriesSpec(keys, counts, ds[j].keys, ds[j].counts, ConcatKeys(ds[..j]));
      keys, counts := AddCounter(keys, counts, ds[j]);
      LastStep(ds, j);
    }
    assert ds[..|ds|] == ds;
    forall k
      ensures k in counts <==> exists i :: 0 <= i < |ds| && k in ds[i].counts
    {
      ConcatKeysMembership(ds, k);
    }
    assert forall k :: k in counts ==> counts[k] == Get(counts, k);
    merged := Counter(keys, counts);
  }

  /** `pool.map(_count_elements_in_sublist, labels)`: one count dict per record. */
  function Tallies(labelLists: seq<seq<Label>>): (ds: seq<Counter>)
    ensures |ds| == |labelLists|
    ensures forall i :: 0 <= i < |ds| ==> ds[i] == Tally(labelLists[i]) && ds[i].Valid()
  {
    seq(|labelLists|, i requires 0 <= i < |labelLists| => Tally(labelLists[i]))
  }

  /** Merging the per-record counts counts the concatenation of all the
      records' label lists. */
  lemma {:induction false} MergedTalliesCountConcatenation(labelLists: seq<seq<Label>>, k: Label)
    ensures SumAt(Tallies(labelLists), k) == multiset(Flatten(labelLists))[k]
    ensures k in ConcatKeys(Tallies(labelLists)) <==> k in Flatten(labelLists)
    decreases |labelLists|
  {
    if labelLists != [] {
      var n := |labelLists| - 1;
      var ds := Tallies(labelLists);
      var last := labelLists[n];
      TalliesPrefix(labelLists, n);
      MergedTalliesCountConcatenation(labelLists[..n], k);
      assert SumAt(ds, k) == SumAt(ds[..n], k) + Get(ds[n].counts, k);
      assert ConcatKeys(ds) == ConcatKeys(ds[..n]) + ds[n].keys;
      TallyAt(last, k);
      assert Flatten(labelLists) == Flatten(labelLists[..n]) + last;
    }
  }

  lemma TalliesPrefix(labelLists: seq<seq<Label>>, n: nat)
    requires n <= |labelLists|
    ensures Tallies(labelLists)[..n] == Tallies(labelLists[..n])
  {
  }

  lemma TallyAt(labels: seq<Label>, k: Label)
    ensures Get(Tally(labels).counts, k) == multiset(labels)[k]
    ensures k in Tally(labels).keys <==> k in labels
  {
    if k !in labels {
      assert multiset(labels)[k] == 0;
    }
  }

  /** The merged key order is the order of first appearance over all records. */
  lemma {:induction false} MergedTalliesKeyOrder(labelLists: seq<seq<Label>>)
    ensures FirstOccurrences(ConcatKeys(Tallies(labelLists))) == FirstOccurrences(Flatten(labelLists))
    decreases |labelLists|
  {
    if labelLists != [] {
      var n := |labelLists| - 1;
      var ds := Tallies(labelLists);
      assert ds[..n] == Tallies(labelLists[..n]);
      var prev := ConcatKeys(Tallies(labelLists[..n]));
      var last := labelLists[n];
      MergedTalliesKeyOrder(labelLists[..n]);
      assert ConcatKeys(ds) == prev + FirstOccurrences(last);
      FirstOccurrencesAppendRight(prev, last);
      FirstOccurrencesAppendLeft(prev, last);
      FirstOccurrencesAppendLeft(Flatten(labelLists[..n]), last);
    }
  }

  /** The merged counts do not depend on the order of the records. */
  lemma MergeOrderIrrelevant(labelLists: seq<seq<Label>>, reordered: seq<seq<Label>>, k: Label)
    requires multiset(labelLists) == multiset(reordered)
    ensures SumAt(Tallies(labelLists), k) == SumAt(Tallies(reordered), k)
    ensures k in ConcatKeys(Tallies(labelLists)) <==> k in ConcatKeys(Tallies(reordered))
  {
    MergedTalliesCountConcatenation(labelLists, k);
    MergedTalliesCountConcatenation(reordered, k);
    FlattenPermutation(labelLists, reordered);
    assert k in Flatten(labelLists) <==> k in multiset(Flatten(labelLists));
    assert k in Flatten(reordered) <==> k in multiset(Flatten(reordered));
  }

  lemma {:induction false} FirstOccurrencesOfDistinct(s: seq<Label>)
    requires Distinct(s)
    ensures FirstOccurrences(s) == s
  {
    if s != [] {
      var n := |s| - 1;
      FirstOccurrencesOfDistinct(s[..n]);
      assert s == s[..n] + [s[n]];
    }
  }

  lemma {:induction false} FirstOccurrencesAppendLeft(a: seq<Label>, b: seq<Label>)
    ensures FirstOccurrences(a + b) == FirstOccurrences(FirstOccurrences(a) + b)
    decreases |b|
  {
    if b == [] {
      assert a + b == a;
      assert FirstOccurrences(a) + b == FirstOccurrences(a);
      FirstOccurrencesOfDistinct(FirstOccurrences(a));
    } else {
      var n := |b| - 1;
      FirstOccurrencesAppendLeft(a, b[..n]);
      assert (a + b)[..|a + b| - 1] == a + b[..n];
      var fa := FirstOccurrences(a);
      assert (fa + b)[..|fa + b| - 1] == fa + b[..n];
    }
  }

  lemma FirstOccurrencesSnoc(s: seq<Label>, e: Label)
    ensures FirstOccurrences(s + [e]) == if e in s then FirstOccurrences(s) else FirstOccurrences(s) + [e]
  {
    assert (s + [e])[..|s|] == s;
  }

  lemma {:induction false} FirstOccurrencesAppendRight(a: seq<Label>, b: seq<Label>)
    ensures FirstOccurrences(a + FirstOccurrences(b)) == FirstOccurrences(a + b)
    decreases |b|
  {
    if b == [] {
      assert a + b == a;
      assert a + FirstOccurrences(b) == a;
    } else {
      var n := |b| - 1;
      var b' := b[..n];
      FirstOccurrencesAppendRight(a, b');
      assert b == b' + [b[n]];
      assert a + b == (a + b') + [b[n]];
      AppendRightStep(a, b', b[n]);
    }
  }

  /** One more label at the end of `b`, given the property for `b`. */
  lemma AppendRightStep(a: seq<Label>, b: seq<Label>, e: Label)
    requires FirstOccurrences(a + FirstOccurrences(b)) == FirstOccurrences(a + b)
    ensures FirstOccurrences(a + FirstOccurrences(b + [e])) == FirstOccurrences((a + b) + [e])
  {
    FirstOccurrencesSnoc(b, e);
    FirstOccurrencesSnoc(a + b, e);
    if e in b {
      assert e in a + b;
    } else {
      AppendRightNew(a, b, e);
    }
  }

  /** The step where `e` is new to `b`: it is appended on both sides, unless `a` has it. */
  lemma AppendRightNew(a: seq<Label>, b: seq<Label>, e: Label)
    requires e !in b
    requires FirstOccurrences(a + FirstOccurrences(b)) == FirstOccurrences(a + b)
    ensures FirstOccurrences(a + (FirstOccurrences(b) + [e])) == FirstOccurrences((a + b) + [e])
  {
    var q := FirstOccurrences(b);
    assert a + (q + [e]) == (a + q) + [e];
    assert e in a + q <==> e in a;
    assert e in a + b <==> e in a;
    FirstOccurrencesSnoc(a + q, e);
    FirstOccurrencesSnoc(a + b, e);
  }

  // ---------------------------------------------------------------------
  // sorted(merged.items(), key=count, reverse=True) (lines 100-101)
  // ---------------------------------------------------------------------

  /** `dict.items()` in key order. */
  function Items(c: Counter): seq<Item>
    requires forall k :: k in c.keys ==> k in c.counts
  {
    seq(|c.keys|, i requires 0 <= i < |c.keys| => (c.keys[i], c.counts[c.keys[i]]))
  }

  predicate NonIncreasing(items: seq<Item>) {
    forall i, j :: 0 <= i < j < |items| ==> items[i].1 >= items[j].1
  }

  /** Inserts `x` before the first item whose count is not larger, so that an
      item keeps its place ahead of later items with the same count. */
  function InsertByCount(x: Item, sorted: seq<Item>): (r: seq<Item>)
    ensures |r| == |sorted| + 1
  {
    if sorted == [] then [x]
    else if x.1 >= sorted[0].1 then [x] + sorted
    else [sorted[0]] + InsertByCount(x, sorted[1..])
  }

  /** Python's stable `sorted(items, key=lambda x: x[1], reverse=True)`. */
  function SortByCount(items: seq<Item>): (sorted: seq<Item>)
    ensures |sorted| == |items|
  {
    if items == [] then [] else InsertByCount(items[0], SortByCount(items[1..]))
  }

  /** The items of count `n`, in order. */
  function WithCount(items: seq<Item>, n: int): seq<Item> {
    if items == [] then [] else (if items[0].1 == n then [items[0]] else []) + WithCount(items[1..], n)
  }

  lemma {:induction false} InsertByCountMultiset(x: Item, s: seq<Item>)
    ensures multiset(InsertByCount(x, s)) == multiset(s) + multiset{x}
    decreases |s|
  {
    if s != [] && x.1 < s[0].1 {
      InsertByCountMultiset(x, s[1..]);
      assert s == [s[0]] + s[1..];
    }
  }

  /** An item no smaller than the head of a non-increasing list can go in front. */
  lemma ConsNonIncreasing(h: Item, rest: seq<Item>)
    requires NonIncreasing(rest)
    requires rest != [] ==> rest[0].1 <= h.1
    ensures NonIncreasing([h] + rest)
  {
    var r := [h] + rest;
    forall i, j | 0 <= i < j < |r|
      ensures r[i].1 >= r[j].1
    {
      if i > 0 {
        assert r[i] == rest[i - 1] && r[j] == rest[j - 1];
      } else {
        assert r[j] == rest[j - 1];
        assert rest[0].1 >= rest[j - 1].1 || j == 1;
      }
    }
  }

  lemma {:induction false} InsertByCountNonIncreasing(x: Item, s: seq<Item>)
    requires NonIncreasing(s)
    ensures NonIncreasing(InsertByCount(x, s))
    decreases |s|
  {
    if s == [] {
    } else if x.1 >= s[0].1 {
      ConsNonIncreasing(x, s);
    } else {
      var tail := s[1..];
      assert NonIncreasing(tail) by {
        forall i, j | 0 <= i < j < |tail|
          ensures tail[i].1 >= tail[j].1
        {
          assert tail[i] == s[i + 1] && tail[j] == s[j + 1];
        }
      }
      InsertByCountNonIncreasing(x, tail);
      var rest := InsertByCount(x, tail);
      assert rest[0] == x || rest[0] == tail[0];
      ConsNonIncreasing(s[0], rest);
    }
  }

  lemma {:induction false} InsertByCountStable(x: Item, s: seq<Item>, n: int)
    ensures WithCount(InsertByCount(x, s), n) == WithCount([x] + s, n)
    decreases |s|
  {
    assert ([x] + s)[1..] == s;
    if s != [] && x.1 < s[0].1 {
      var rest := s[1..];
      InsertByCountStable(x, rest, n);
      assert ([s[0]] + InsertByCount(x, rest))[1..] == InsertByCount(x, rest);
      assert ([x] + rest)[1..] == rest;
    }
  }

  /** The sorted list is a permutation of the items. */
  lemma {:induction false} SortByCountPermutation(items: seq<Item>)
    ensures multiset(SortByCount(items)) == multiset(items)
  {
    if items != [] {
      SortByCountPermutation(items[1..]);
      InsertByCountMultiset(items[0], SortByCount(items[1..]));
      assert items == [items[0]] + items[1..];
    }
  }

  /** The sorted list is in non-increasing order of count. */
  lemma {:induction false} SortByCountNonIncreasing(items: seq<Item>)
    ensures NonIncreasing(SortByCount(items))
  {
    if items != [] {
      SortByCountNonIncreasing(items[1..]);
      InsertByCountNonIncreasing(items[0], SortByCount(items[1..]));
    }
  }

  /** The sort is stable: items of equal count keep their relative order. */
  lemma {:induction false} SortByCountStable(items: seq<Item>, n: int)
    ensures WithCount(SortByCount(items), n) == WithCount(items, n)
  {
    if items != [] {
      SortByCountStable(items[1..], n);
      InsertByCountStable(items[0], SortByCount(items[1..]), n);
      assert ([items[0]] + SortByCount(items[1..]))[1..] == SortByCount(items[1..]);
    }
  }

  // ---------------------------------------------------------------------
  // tags_to_augment and tags_to_augment_counts (lines 106-107)
  // ---------------------------------------------------------------------

  /** The items whose count is below `minExamples`, in their order. */
  function Below(items: seq<Item>, minExamples: int): (r: seq<Item>)
    ensures |r| <= |items|
    ensures forall it :: it in r <==> it in items && it.1 < minExamples
  {
    if items == [] then []
    else
      assert forall it :: it in items <==> it == items[0] || it in items[1..] by {
        assert items == [items[0]] + items[1..];
      }
      (if items[0].1 < minExamples then [items[0]] else []) + Below(items[1..], minExamples)
  }

  lemma {:induction false} BelowNonIncreasing(items: seq<Item>, minExamples: int)
    requires NonIncreasing(items)
    ensures NonIncreasing(Below(items, minExamples))
  {
    if items != [] {
      var rest := Below(items[1..], minExamples);
      BelowNonIncreasing(items[1..], minExamples);
      if items[0].1 < minExamples {
        var r := [items[0]] + rest;
        forall i, j | 0 <= i < j < |r|
          ensures r[i].1 >= r[j].1
        {
          if i > 0 {
            assert r[i] == rest[i - 1] && r[j] == rest[j - 1];
          } else {
            assert r[j] in rest;
            var k :| 1 <= k < |items| && items[k] == r[j];
          }
        }
      }
    }
  }

  /** The first components: `[k for k, v in items]`. */
  function LabelsOf(items: seq<Item>): seq<Label> {
    seq(|items|, i requires 0 <= i < |items| => items[i].0)
  }

  lemma LabelsOfCons(h: Item, r: seq<Item>)
    ensures LabelsOf([h] + r) == [h.0] + LabelsOf(r)
  {
    assert forall i :: 0 <= i < |r| ==> ([h] + r)[i + 1] == r[i];
  }

  lemma DistinctCons(x: Label, r: seq<Label>)
    ensures Distinct([x] + r) <==> x !in r && Distinct(r)
  {
    var s := [x] + r;
    if x in r {
      var k :| 0 <= k < |r| && r[k] == x;
      assert s[0] == s[k + 1];
    }
    if Distinct(s) {
      forall i, j | 0 <= i < j < |r|
        ensures r[i] != r[j]
      {
        assert r[i] == s[i + 1] && r[j] == s[j + 1];
      }
    }
  }

  /** The labels of `dict.items()` are the dictionary's keys. */
  lemma ItemsLabels(c: Counter)
    requires c.Valid()
    ensures LabelsOf(Items(c)) == c.keys && Distinct(LabelsOf(Items(c)))
  {
  }

  /** Inserting an item adds its label, and a new label keeps the labels distinct. */
  lemma {:induction false} InsertByCountLabels(x: Item, s: seq<Item>)
    ensures forall t :: t in LabelsOf(InsertByCount(x, s)) <==> t == x.0 || t in LabelsOf(s)
    ensures Distinct(LabelsOf(s)) && x.0 !in LabelsOf(s) ==> Distinct(LabelsOf(InsertByCount(x, s)))
    decreases |s|
  {
    if s == [] || x.1 >= s[0].1 {
      assert InsertByCount(x, s) == [x] + s;
      LabelsOfCons(x, s);
      DistinctCons(x.0, LabelsOf(s));
    } else {
      var rest := InsertByCount(x, s[1..]);
      assert s == [s[0]] + s[1..];
      LabelsOfCons(s[0], s[1..]);
      LabelsOfCons(s[0], rest);
      InsertByCountLabels(x, s[1..]);
      DistinctCons(s[0].0, LabelsOf(s[1..]));
      DistinctCons(s[0].0, LabelsOf(rest));
    }
  }

  /** Sorting keeps the labels, and keeps them distinct. */
  lemma {:induction false} SortByCountLabels(items: seq<Item>)
    ensures forall t :: t in LabelsOf(SortByCount(items)) <==> t in LabelsOf(items)
    ensures Distinct(LabelsOf(items)) ==> Distinct(LabelsOf(SortByCount(items)))
  {
    if items != [] {
      assert items == [items[0]] + items[1..];
      LabelsOfCons(items[0], items[1..]);
      DistinctCons(items[0].0, LabelsOf(items[1..]));
      SortByCountLabels(items[1..]);
      InsertByCountLabels(items[0], SortByCount(items[1..]));
    }
  }

  /** Selecting items keeps only labels that were there, and keeps them distinct. */
  lemma {:induction false} BelowLabels(items: seq<Item>, minExamples: int)
    ensures forall t :: t in LabelsOf(Below(items, minExamples)) ==> t in LabelsOf(items)
    ensures Distinct(LabelsOf(items)) ==> Distinct(LabelsOf(Below(items, minExamples)))
  {
    if items != [] {
      var rest := Below(items[1..], minExamples);
      assert items == [items[0]] + items[1..];
      LabelsOfCons(items[0], items[1..]);
      DistinctCons(items[0].0, LabelsOf(items[1..]));
      BelowLabels(items[1..], minExamples);
      if items[0].1 < minExamples {
        LabelsOfCons(items[0], rest);
        DistinctCons(items[0].0, LabelsOf(rest));
      } else {
        assert Below(items, minExamples) == rest;
      }
    }
  }

  /** `dict(items)`: a later pair overrides an earlier one with the same key. */
  function ItemsToMap(items: seq<Item>): (m: map<Label, int>)
    ensures forall k :: k in m <==> exists i :: 0 <= i < |items| && items[i].0 == k
    ensures forall k :: k in m ==> (k, m[k]) in items
  {
    if items == [] then map[]
    else
      var n := |items| - 1;
      var prev := ItemsToMap(items[..n]);
      assert forall i :: 0 <= i < n ==> items[..n][i] == items[i];
      prev[items[n].0 := items[n].1]
  }

  // ---------------------------------------------------------------------
  // The collect_concurrent_calls loop (lines 125-132)
  // ---------------------------------------------------------------------

  function Max(a: int, b: int): int { if a >= b then a else b }
  function Min(a: int, b: int): int { if a <= b then a else b }

  /** Line 132 as written: the tuple holds the label's count and its deficit,
      although the consumer reads its first component as the label. */
  function AsWrittenCall(count: int, minExamples: int): (call: (int, int))
    ensures call.1 + call.0 == minExamples
  {
    (count, minExamples - count)
  }

  /** As written, two different labels with the same count give the same
      planned call, so the call cannot say which label it is for; with the
      label first they differ. */
  lemma AsWrittenCallLosesLabel(t1: Label, t2: Label, counts: map<Label, int>, minExamples: int)
    requires t1 in counts && t2 in counts && t1 != t2 && counts[t1] == counts[t2]
    ensures AsWrittenCall(counts[t1], minExamples) == AsWrittenCall(counts[t2], minExamples)
    ensures PlannedCall(t1, counts[t1], minExamples) != PlannedCall(t2, counts[t2], minExamples)
  {
  }

  /** The planned call for a label: the label and its deficit. */
  function PlannedCall(t: Label, count: int, minExamples: int): (call: (Label, int))
    ensures call.0 == t && call.1 + count == minExamples
  {
    (t, minExamples - count)
  }

  /** The loop over `tags_to_augment`. Below the cap a label with count below
      the threshold gets a planned call. Once the list holds
      `concurrent_calls` entries, the next label reaches the `_generate`
      branch, whose call raises `TypeError` (it passes a keyword `generate`
      does not accept), so the loop and `augment` end there: `raised`. */
  method PlanCalls(tags: seq<Label>, tagCounts: map<Label, int>, minExamples: int, concurrentCalls: int)
    returns (calls: seq<(Label, int)>, raised: bool)
    requires forall t :: t in tags ==> t in tagCounts
    ensures |calls| <= Max(concurrentCalls, 0)
    ensures forall c :: c in calls ==> c.0 in tags && c.1 == minExamples - tagCounts[c.0] && c.1 >= 1
    // the branch is reached only with the list full
    ensures raised ==> |calls| == Max(concurrentCalls, 0)
    // without the raise every label below the threshold has its call
    ensures !raised ==> forall t :: t in tags && tagCounts[t] < minExamples ==>
      (t, minExamples - tagCounts[t]) in calls
    ensures (forall t :: t in tags ==> tagCounts[t] < minExamples) ==>
      var k := Min(|tags|, Max(concurrentCalls, 0));
      && |calls| == k
      && (forall i :: 0 <= i < k ==> calls[i] == (tags[i], minExamples - tagCounts[tags[i]]))
      && (raised <==> |tags| > Max(concurrentCalls, 0))
  {
    calls, raised := [], false;
    ghost var allBelow := forall t :: t in tags ==> tagCounts[t] < minExamples;
    for i := 0 to |tags|
      invariant |calls| <= Max(concurrentCalls, 0)
      invariant forall c :: c in calls ==> c.0 in tags && c.1 == minExamples - tagCounts[c.0] && c.1 >= 1
      invariant forall t :: t in tags[..i] && tagCounts[t] < minExamples ==>
        (t, minExamples - tagCounts[t]) in calls
      invariant allBelow ==>
        var k := Min(i, Max(concurrentCalls, 0));
        && |calls| == k
        && (forall j :: 0 <= j < k ==> calls[j] == (tags[j], minExamples - tagCounts[tags[j]]))
      invariant allBelow ==> i <= Max(concurrentCalls, 0)
    {
      var t := tags[i];
      if |calls| >= concurrentCalls {
        // _generate(collect_concurrent_calls, ...) raises TypeError
        raised := true;
        break;
      } else if tagCounts[t] < minExamples {
        calls := calls + [PlannedCall(t, tagCounts[t], minExamples)];
      }
    }
  }

  // ---------------------------------------------------------------------
  // The body of augment from the year filters to the planned calls (88-132)
  // ---------------------------------------------------------------------

  /** Every label of every record, in corpus order. */
  function CorpusLabels(dset: seq<Record>): seq<Label> {
    Flatten(MeshMajors(dset))
  }

  function MeshMajors(dset: seq<Record>): seq<seq<Label>> {
    seq(|dset|, i requires 0 <= i < |dset| => dset[i].meshMajor)
  }

  /** The merged per-record counts are the label counts of the whole corpus. */
  lemma MergedCountsAreCorpusCounts(labelLists: seq<seq<Label>>, merged: Counter)
    requires merged.keys == FirstOccurrences(ConcatKeys(Tallies(labelLists)))
    requires forall k :: k in merged.counts <==> k in ConcatKeys(Tallies(labelLists))
    requires forall k :: k in merged.counts ==> merged.counts[k] == SumAt(Tallies(labelLists), k)
    ensures merged.keys == FirstOccurrences(Flatten(labelLists))
    ensures forall t :: t in merged.counts <==> t in Flatten(labelLists)
    ensures forall t :: t in merged.counts ==> merged.counts[t] == multiset(Flatten(labelLists))[t] >= 1
  {
    MergedTalliesKeyOrder(labelLists);
    forall t
      ensures t in merged.counts <==> t in Flatten(labelLists)
      ensures t in merged.counts ==> merged.counts[t] == multiset(Flatten(labelLists))[t] >= 1
    {
      MergedCountAt(labelLists, t);
    }
  }

  lemma MergedCountAt(labelLists: seq<seq<Label>>, t: Label)
    ensures t in ConcatKeys(Tallies(labelLists)) <==> t in Flatten(labelLists)
    ensures t in Flatten(labelLists) ==> SumAt(Tallies(labelLists), t) == multiset(Flatten(labelLists))[t] >= 1
  {
    MergedTalliesCountConcatenation(labelLists, t);
    assert t in Flatten(labelLists) <==> t in multiset(Flatten(labelLists));
  }

  lemma ItemsOfCounter(c: Counter)
    requires c.Valid()
    ensures forall it :: it in Items(c) <==> it.0 in c.counts && it.1 == c.counts[it.0]
  {
    forall it: Item | it.0 in c.counts && it.1 == c.counts[it.0]
      ensures it in Items(c)
    {
      var i :| 0 <= i < |c.keys| && c.keys[i] == it.0;
      assert Items(c)[i] == it;
    }
  }

  /** The labels chosen from a sorted permutation of the items of `c`: exactly
      the labels counted below `minExamples`, each with its count, in
      non-increasing order of count. */
  lemma SelectedLabels(sorted: seq<Item>, c: Counter, minExamples: int)
    requires c.Valid()
    requires multiset(sorted) == multiset(Items(c)) && NonIncreasing(sorted)
    ensures var below := Below(sorted, minExamples);
      var tags := LabelsOf(below);
      var tagCounts := ItemsToMap(below);
      && (forall t :: t in tags <==> t in c.counts && c.counts[t] < minExamples)
      && (forall t :: t in tagCounts <==> t in tags)
      && (forall t :: t in tagCounts ==> tagCounts[t] == c.counts[t])
      && (forall i, j :: 0 <= i < j < |tags| ==> tagCounts[tags[i]] >= tagCounts[tags[j]])
  {
    ItemsOfCounter(c);
    forall it: Item
      ensures it in sorted <==> it in Items(c)
    {
      assert it in sorted <==> it in multiset(sorted);
      assert it in Items(c) <==> it in multiset(Items(c));
    }
    var below := Below(sorted, minExamples);
    BelowNonIncreasing(sorted, minExamples);
    SelectedMembership(below, c, minExamples);
    SelectedCounts(below, c);
  }

  lemma SelectedMembership(below: seq<Item>, c: Counter, minExamples: int)
    requires forall it: Item :: it in below <==> it.0 in c.counts && it.1 == c.counts[it.0] && it.1 < minExamples
    ensures forall t :: t in LabelsOf(below) <==> t in c.counts && c.counts[t] < minExamples
  {
    var tags := LabelsOf(below);
    forall t
      ensures t in tags <==> t in c.counts && c.counts[t] < minExamples
    {
      if t in tags {
        var i :| 0 <= i < |below| && below[i].0 == t;
        assert below[i] in below;
      }
      if t in c.counts && c.counts[t] < minExamples {
        assert (t, c.counts[t]) in below;
        var i :| 0 <= i < |below| && below[i] == (t, c.counts[t]);
        assert tags[i] == t;
      }
    }
  }

  lemma SelectedCounts(below: seq<Item>, c: Counter)
    requires forall it: Item :: it in below ==> it.0 in c.counts && it.1 == c.counts[it.0]
    requires NonIncreasing(below)
    ensures var tags := LabelsOf(below);
      var tagCounts := ItemsToMap(below);
      && (forall t :: t in tagCounts <==> t in tags)
      && (forall t :: t in tagCounts ==> tagCounts[t] == c.counts[t])
      && (forall i, j :: 0 <= i < j < |tags| ==> tagCounts[tags[i]] >= tagCounts[tags[j]])
  {
    var tags := LabelsOf(below);
    var tagCounts := ItemsToMap(below);
    forall i | 0 <= i < |tags|
      ensures tags[i] in tagCounts && tagCounts[tags[i]] == below[i].1
    {
      assert below[i] in below;
      assert (tags[i], tagCounts[tags[i]]) in below;
    }
    forall t | t in tagCounts
      ensures t in tags && tagCounts[t] == c.counts[t]
    {
      assert (t, tagCounts[t]) in below;
      var i :| 0 <= i < |below| && below[i].0 == t;
      assert tags[i] == t;
    }
  }

  /** `pool.map(_count_elements_in_sublist, dset["meshMajor"])`, one record
      after the other. */
  method CountPerRecord(dset: seq<Record>) returns (perRecord: seq<Counter>)
    ensures perRecord == Tallies(MeshMajors(dset))
  {
    perRecord := [];
    for i := 0 to |dset|
      invariant |perRecord| == i
      invariant forall j :: 0 <= j < i ==> perRecord[j] == Tally(dset[j].meshMajor)
    {
      var c := CountElements(dset[i].meshMajor);
      perRecord := perRecord + [c];
    }
  }

  /** Sorting the merged counts and keeping the labels below the threshold
      (lines 100-107). */
  method SelectLabels(merged: Counter, minExamples: int)
    returns (sorted: seq<Item>, tags: seq<Label>, tagCounts: map<Label, int>)
    requires merged.Valid()
    ensures sorted == SortByCount(Items(merged))
    ensures multiset(sorted) == multiset(Items(merged)) && NonIncreasing(sorted)
    ensures tags == LabelsOf(Below(sorted, minExamples)) && Distinct(tags)
    ensures forall t :: t in tags <==> t in merged.counts && merged.counts[t] < minExamples
    ensures forall t :: t in tagCounts <==> t in tags
    ensures forall t :: t in tagCounts ==> tagCounts[t] == merged.counts[t]
    ensures forall i, j :: 0 <= i < j < |tags| ==> tagCounts[tags[i]] >= tagCounts[tags[j]]
  {
    var items := Items(merged);
    sorted := SortByCount(items);
    SortByCountPermutation(items);
    SortByCountNonIncreasing(items);
    var below := Below(sorted, minExamples);
    tags := LabelsOf(below);
    tagCounts := ItemsToMap(below);
    SelectedLabels(sorted, merged, minExamples);
    ItemsLabels(merged);
    SortByCountLabels(items);
    BelowLabels(sorted, minExamples);
  }

  /** What the driver has computed when the planning loop ends. */
  datatype Plan = Plan(
    kept: seq<Record>,             // the records left by the year filters
    counts: Counter,               // merged_element_counts
    sorted: seq<Item>,             // sorted_merged_element_counts
    tags: seq<Label>,              // tags_to_augment
    tagCounts: map<Label, int>,    // tags_to_augment_counts
    seeds: seq<Record>,            // dset after the filter on tags_to_augment
    calls: seq<(Label, int)>,      // collect_concurrent_calls
    raised: bool)                  // the loop reached _generate, whose TypeError ends augment

  method Augment(dset: seq<Record>, trainYears: seq<string>, testYears: seq<string>,
                 minExamples: int, concurrentCalls: int) returns (plan: Plan)
    ensures plan.kept == FilterYears(dset, trainYears, testYears)
    // the frequency table: every label of the kept records with its number of occurrences
    ensures plan.counts.Valid()
    ensures plan.counts.keys == FirstOccurrences(CorpusLabels(plan.kept))
    ensures forall t :: t in plan.counts.counts ==>
      plan.counts.counts[t] == multiset(CorpusLabels(plan.kept))[t] >= 1
    // the sorted table: the stable descending sort of the table's items
    ensures plan.sorted == SortByCount(Items(plan.counts))
    ensures multiset(plan.sorted) == multiset(Items(plan.counts)) && NonIncreasing(plan.sorted)
    // the labels to augment: those of the sorted items below the threshold, in
    // sorted order, each once
    ensures plan.tags == LabelsOf(Below(plan.sorted, minExamples)) && Distinct(plan.tags)
    ensures forall t :: t in plan.tags <==>
      t in CorpusLabels(plan.kept) && multiset(CorpusLabels(plan.kept))[t] < minExamples
    ensures forall t :: t in plan.tagCounts <==> t in plan.tags
    ensures forall t :: t in plan.tagCounts ==> plan.tagCounts[t] == multiset(CorpusLabels(plan.kept))[t]
    ensures forall i, j :: 0 <= i < j < |plan.tags| ==> plan.tagCounts[plan.tags[i]] >= plan.tagCounts[plan.tags[j]]
    // the seed records carry at least one label to augment
    ensures forall r :: r in plan.seeds <==> r in plan.kept && exists t :: t in r.meshMajor && t in plan.tags
    // the planned calls: the first labels to augment, each with its deficit
    ensures |plan.calls| <= Max(concurrentCalls, 0)
    ensures var k := Min(|plan.tags|, Max(concurrentCalls, 0));
      && |plan.calls| == k
      && (forall i :: 0 <= i < k ==> plan.calls[i].0 == plan.tags[i])
      && (plan.raised <==> |plan.tags| > Max(concurrentCalls, 0))
    ensures forall c :: c in plan.calls ==>
      c.1 == minExamples - multiset(CorpusLabels(plan.kept))[c.0] && c.1 >= 1
  {
    var kept := FilterYears(dset, trainYears, testYears);
    var perRecord := CountPerRecord(kept);
    var merged := MergeCounters(perRecord);
    MergedCountsAreCorpusCounts(MeshMajors(kept), merged);
    var sorted, tags, tagCounts := SelectLabels(merged, minExamples);

    // dset.filter(lambda x: any(np.isin(tags_to_augment, x["meshMajor"])))
    var seeds := Filter(kept, (r: Record) => exists t :: t in r.meshMajor && t in tags);

    var calls, raised := PlanCalls(tags, tagCounts, minExamples, concurrentCalls);
    plan := Plan(kept, merged, sorted, tags, tagCounts, seeds, calls, raised);
  }
}
