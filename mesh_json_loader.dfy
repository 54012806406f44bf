/**
 * The label side of the MeSH JSON loader
 * (grants_tagger_light/training/dataloaders/mesh_json_loader.py): reading the
 * JSON-lines file, building the `label2id` table from the labels of a
 * dataset, and turning each record's labels into label ids.
 */
module MeshJsonLoader {
  import opened Wrappers
  import opened Corpus

  // ---------------------------------------------------------------------
  // _encode_labels (lines 19-27)
  // ---------------------------------------------------------------------

  /** The ids of the labels that `label2id` knows, in the order of the labels. */
  function EncodedLabels(labels: seq<Label>, label2id: map<Label, int>): (ids: seq<int>)
    ensures forall i :: 0 <= i < |ids| ==> ids[i] in label2id.Values
  {
    if labels == [] then []
    else
      var prev := EncodedLabels(labels[..|labels| - 1], label2id);
      var last := labels[|labels| - 1];
      if last in label2id then prev + [label2id[last]] else prev
  }

  /** The loop of `_encode_labels`: a label missing from `label2id` raises
      `KeyError`, which is caught, so the label is dropped. */
  method EncodeLabels(meshMajor: seq<Label>, label2id: map<Label, int>) returns (labelIds: seq<int>)
    ensures labelIds == EncodedLabels(meshMajor, label2id)
  {
    labelIds := [];
    for i := 0 to |meshMajor|
      invariant labelIds == EncodedLabels(meshMajor[..i], label2id)
    {
      assert meshMajor[..i + 1][..i] == meshMajor[..i];
      var name := meshMajor[i];
      if name in label2id {
        labelIds := labelIds + [label2id[name]];
      }
    }
    assert meshMajor[..|meshMajor|] == meshMajor;
  }

  /** At most one id per label, and exactly one per label precisely when
      every label is a key of `label2id`. */
  lemma {:induction false} EncodedLabelsLength(labels: seq<Label>, label2id: map<Label, int>)
    ensures |EncodedLabels(labels, label2id)| <= |labels|
    ensures |EncodedLabels(labels, label2id)| == |labels| <==> forall l :: l in labels ==> l in label2id
  {
    if labels != [] {
      var n := |labels| - 1;
      EncodedLabelsLength(labels[..n], label2id);
      assert labels == labels[..n] + [labels[n]];
      assert forall l :: l in labels <==> l in labels[..n] || l == labels[n];
    }
  }

  /** Encoding maps each known label to its id, in order: it distributes over
      concatenation, and without unknown labels the i-th id is the id of the
      i-th label. */
  lemma {:induction false} EncodedLabelsAppend(a: seq<Label>, b: seq<Label>, label2id: map<Label, int>)
    ensures EncodedLabels(a + b, label2id) == EncodedLabels(a, label2id) + EncodedLabels(b, label2id)
    decreases |b|
  {
    if b == [] {
      assert a + b == a;
    } else {
      var n := |b| - 1;
      EncodedLabelsAppend(a, b[..n], label2id);
      assert (a + b)[..|a + b| - 1] == a + b[..n];
    }
  }

  lemma {:induction false} EncodedLabelsPointwise(labels: seq<Label>, label2id: map<Label, int>)
    requires forall l :: l in labels ==> l in label2id
    ensures |EncodedLabels(labels, label2id)| == |labels|
    ensures forall i :: 0 <= i < |labels| ==> EncodedLabels(labels, label2id)[i] == label2id[labels[i]]
  {
    if labels != [] {
      var n := |labels| - 1;
      assert forall l :: l in labels[..n] ==> l in labels;
      EncodedLabelsPointwise(labels[..n], label2id);
      assert labels[n] in labels;
    }
  }

  // ---------------------------------------------------------------------
  // _get_label2id (lines 30-36)
  // ---------------------------------------------------------------------

  /** Some label has id `k`. */
  ghost predicate IdTaken(label2id: map<Label, int>, k: int) {
    exists l :: l in label2id && label2id[l] == k
  }

  /** `label2id` is a bijection from its keys onto `0 .. |label2id| - 1`. */
  ghost predicate NumbersKeys(label2id: map<Label, int>) {
    && (forall l :: l in label2id ==> 0 <= label2id[l] < |label2id|)
    && (forall a, b :: a in label2id && b in label2id && a != b ==> label2id[a] != label2id[b])
    && (forall k :: 0 <= k < |label2id| ==> IdTaken(label2id, k))
  }

  /** The set of the labels of the samples, numbered in the (unspecified)
      iteration order of the set. */
  method GetLabel2Id(dset: seq<seq<Label>>) returns (label2id: map<Label, int>)
    ensures forall l :: l in label2id <==> exists i :: 0 <= i < |dset| && l in dset[i]
    ensures NumbersKeys(label2id)
  {
    var labelSet := CollectLabels(dset);
    label2id := NumberLabels(labelSet);
  }

  /** The nested loops adding every label to `label_set`. */
  method CollectLabels(dset: seq<seq<Label>>) returns (labelSet: set<Label>)
    ensures forall l :: l in labelSet <==> exists i :: 0 <= i < |dset| && l in dset[i]
  {
    labelSet := {};
    for i := 0 to |dset|
      invariant forall l :: l in labelSet <==> exists j :: 0 <= j < i && l in dset[j]
    {
      for m := 0 to |dset[i]|
        invariant forall l :: l in labelSet <==> (exists j :: 0 <= j < i && l in dset[j]) || l in dset[i][..m]
      {
        assert dset[i][..m + 1] == dset[i][..m] + [dset[i][m]];
        labelSet := labelSet + {dset[i][m]};
      }
      assert dset[i][..|dset[i]|] == dset[i];
    }
  }

  /** `{label: idx for idx, label in enumerate(label_set)}` */
  method NumberLabels(labelSet: set<Label>) returns (label2id: map<Label, int>)
    ensures label2id.Keys == labelSet
    ensures NumbersKeys(label2id)
  {
    label2id := map[];
    var rest := labelSet;
    var idx := 0;
    while rest != {}
      invariant rest !! label2id.Keys && rest + label2id.Keys == labelSet
      invariant |label2id| == idx && NumbersKeys(label2id)
      decreases |rest|
    {
      var name :| name in rest;
      NumberingStep(label2id, name);
      label2id := label2id[name := idx];
      rest := rest - {name};
      idx := idx + 1;
    }
  }

  /** Giving a new label the next id keeps the numbering a bijection. */
  lemma NumberingStep(label2id: map<Label, int>, name: Label)
    requires name !in label2id && NumbersKeys(label2id)
    ensures |label2id[name := |label2id|]| == |label2id| + 1
    ensures NumbersKeys(label2id[name := |label2id|])
  {
    var idx := |label2id|;
    var next := label2id[name := idx];
    assert next.Keys == label2id.Keys + {name};
    forall l | l in next
      ensures 0 <= next[l] < |next|
    {
      if l != name {
        assert next[l] == label2id[l];
      }
    }
    forall a, b | a in next && b in next && a != b
      ensures next[a] != next[b]
    {
      if a != name && b != name {
        assert next[a] == label2id[a] && next[b] == label2id[b];
      } else if a == name {
        assert next[b] == label2id[b] < idx;
      } else {
        assert next[a] == label2id[a] < idx;
      }
    }
    forall k | 0 <= k <= idx
      ensures IdTaken(next, k)
    {
      if k < idx {
        assert IdTaken(label2id, k);
        var l :| l in label2id && label2id[l] == k;
        assert l in next && next[l] == k;
      } else {
        assert name in next && next[name] == k;
      }
    }
  }

  /** With a table built from the same samples, no label is dropped. */
  lemma NoLabelDropped(dset: seq<seq<Label>>, label2id: map<Label, int>, i: nat)
    requires forall l :: l in label2id <==> exists j :: 0 <= j < |dset| && l in dset[j]
    requires i < |dset|
    ensures |EncodedLabels(dset[i], label2id)| == |dset[i]|
  {
    EncodedLabelsLength(dset[i], label2id);
  }

  // ---------------------------------------------------------------------
  // The label steps of load_mesh_json (lines 78-89)
  // ---------------------------------------------------------------------

  /** A table given by the caller is used as it is; without one, the table is
      built from the samples themselves, and then every label gets its id. */
  method EncodeDataset(dset: seq<seq<Label>>, given: Option<map<Label, int>>)
    returns (encoded: seq<seq<int>>, label2id: map<Label, int>)
    ensures given.Some? ==> label2id == given.value
    ensures given.None? ==>
      && NumbersKeys(label2id)
      && forall l :: l in label2id <==> exists j :: 0 <= j < |dset| && l in dset[j]
    ensures |encoded| == |dset|
    ensures forall i :: 0 <= i < |dset| ==> encoded[i] == EncodedLabels(dset[i], label2id)
    ensures given.None? ==> forall i :: 0 <= i < |dset| ==> |encoded[i]| == |dset[i]|
  {
    if given.None? {
      label2id := GetLabel2Id(dset);
    } else {
      label2id := given.value;
    }
    encoded := EncodeAll(dset, label2id);
    if given.None? {
      forall i | 0 <= i < |dset|
        ensures |encoded[i]| == |dset[i]|
      {
        NoLabelDropped(dset, label2id, i);
      }
    }
  }

  /** `dset.map(_encode_labels, fn_kwargs={"label2id": label2id})` */
  method EncodeAll(dset: seq<seq<Label>>, label2id: map<Label, int>) returns (encoded: seq<seq<int>>)
    ensures |encoded| == |dset|
    ensures forall i :: 0 <= i < |dset| ==> encoded[i] == EncodedLabels(dset[i], label2id)
  {
    encoded := [];
    for i := 0 to |dset|
      invariant |encoded| == i
      invariant forall j :: 0 <= j < i ==> encoded[j] == EncodedLabels(dset[j], label2id)
    {
      var ids := EncodeLabels(dset[i], label2id);
      encoded := encoded + [ids];
    }
  }

  // ---------------------------------------------------------------------
  // _datagen (lines 47-58)
  // ---------------------------------------------------------------------

  /** `max_samples`: `np.inf` by default, or an integer. */
  datatype Limit = Unbounded | AtMost(n: int)

  predicate Beyond(idx: int, limit: Limit) {
    limit.AtMost? && idx > limit.n
  }

  /** `line[:-2]`: the line without its last two characters (the empty
      string for a line shorter than two). */
  function DropLastTwo(line: string): (r: string)
    ensures |r| == if |line| >= 2 then |line| - 2 else 0
    ensures r == line[..|r|]
  {
    if |line| >= 2 then line[..|line| - 2] else ""
  }

  /** What the generator yields from line `idx` on, and whether it ends with
      the exception of a line that does not parse. */
  datatype Generated = Generated(samples: seq<Record>, failed: bool)

  function DatagenFrom(lines: seq<string>, idx: nat, limit: Limit, loads: string -> Option<Record>): (g: Generated)
    ensures idx <= |lines| ==> |g.samples| <= |lines| - idx
    decreases |lines| - idx
  {
    if idx >= |lines| then Generated([], false)
    else match loads(DropLastTwo(lines[idx]))
      case None => Generated([], true)
      case Some(sample) =>
        if Beyond(idx, limit) then Generated([], false)
        else
          var rest := DatagenFrom(lines, idx + 1, limit, loads);
          Generated([sample] + rest.samples, rest.failed)
  }

  /** The generator over the whole file: line 0 is skipped. */
  /** A failure comes from a data line that does not parse, never from the header. */
  function Datagen(lines: seq<string>, limit: Limit, loads: string -> Option<Record>): (g: Generated)
    ensures g.failed ==> exists i :: 1 <= i < |lines| && loads(DropLastTwo(lines[i])).None?
  {
    DatagenFromFailure(lines, 1, limit, loads);
    DatagenFrom(lines, 1, limit, loads)
  }

  /** The generator fails only on a line, at or after the one it starts from,
      that does not parse. */
  lemma {:induction false} DatagenFromFailure(lines: seq<string>, idx: nat, limit: Limit, loads: string -> Option<Record>)
    ensures DatagenFrom(lines, idx, limit, loads).failed ==>
      exists i :: idx <= i < |lines| && loads(DropLastTwo(lines[i])).None?
    decreases |lines| - idx
  {
    if idx < |lines| && loads(DropLastTwo(lines[idx])).Some? && !Beyond(idx, limit) {
      DatagenFromFailure(lines, idx + 1, limit, loads);
    }
  }

  /** The loop of `_datagen`, collecting what it yields. Each line is parsed
      before the limit is checked. */
  method RunDatagen(lines: seq<string>, limit: Limit, loads: string -> Option<Record>)
    returns (samples: seq<Record>, failed: bool)
    ensures Generated(samples, failed) == Datagen(lines, limit, loads)
  {
    samples, failed := [], false;
    ghost var whole := Datagen(lines, limit, loads);
    var idx := 0;
    while idx < |lines|
      invariant 0 <= idx <= |lines|
      invariant idx == 0 ==> samples == []
      invariant idx > 0 ==>
        var rest := DatagenFrom(lines, idx, limit, loads);
        samples + rest.samples == whole.samples && rest.failed == whole.failed
    {
      if idx == 0 {
        assert [] + whole.samples == whole.samples;
        idx := idx + 1;
        continue;
      }
      var sample := loads(DropLastTwo(lines[idx]));
      if sample.None? || Beyond(idx, limit) {
        failed := sample.None?;
        DatagenFromStops(lines, idx, limit, loads, samples);
        return;
      }
      DatagenFromStep(lines, idx, limit, loads, samples);
      samples := samples + [sample.value];
      idx := idx + 1;
    }
    assert samples + [] == samples;
  }

  /** Where the generator stops at line `idx`: a line that does not parse
      fails it, a line past the limit ends it. */
  lemma DatagenFromStops(lines: seq<string>, idx: nat, limit: Limit, loads: string -> Option<Record>,
                         samples: seq<Record>)
    requires idx < |lines|
    requires loads(DropLastTwo(lines[idx])).None? || Beyond(idx, limit)
    ensures var here := DatagenFrom(lines, idx, limit, loads);
      samples + here.samples == samples && here.failed == loads(DropLastTwo(lines[idx])).None?
  {
    assert samples + [] == samples;
  }

  /** A line that parses within the limit is yielded, and the generator goes
      on with the next line. */
  lemma DatagenFromStep(lines: seq<string>, idx: nat, limit: Limit, loads: string -> Option<Record>,
                        samples: seq<Record>)
    requires idx < |lines| && loads(DropLastTwo(lines[idx])).Some? && !Beyond(idx, limit)
    ensures var here := DatagenFrom(lines, idx, limit, loads);
      var next := DatagenFrom(lines, idx + 1, limit, loads);
      && (samples + [loads(DropLastTwo(lines[idx])).value]) + next.samples == samples + here.samples
      && next.failed == here.failed
  {
    var sample := loads(DropLastTwo(lines[idx])).value;
    var next := DatagenFrom(lines, idx + 1, limit, loads);
    assert DatagenFrom(lines, idx, limit, loads).samples == [sample] + next.samples;
    assert (samples + [sample]) + next.samples == samples + ([sample] + next.samples);
  }

  /** Line `idx` is a data line within the limit that parses to `sample`. */
  predicate LineYields(lines: seq<string>, idx: nat, limit: Limit, loads: string -> Option<Record>, sample: Record) {
    idx < |lines| && !Beyond(idx, limit) && loads(DropLastTwo(lines[idx])) == Some(sample)
  }

  /** The samples are what lines `idx`, `idx + 1`, ... parse to, each within
      the limit. */
  predicate YieldedFrom(lines: seq<string>, idx: nat, limit: Limit, loads: string -> Option<Record>, samples: seq<Record>)
    decreases |samples|
  {
    samples == [] ||
    (LineYields(lines, idx, limit, loads, samples[0]) && YieldedFrom(lines, idx + 1, limit, loads, samples[1..]))
  }

  lemma {:induction false} YieldedAt(lines: seq<string>, idx: nat, limit: Limit, loads: string -> Option<Record>, samples: seq<Record>, k: nat)
    requires YieldedFrom(lines, idx, limit, loads, samples) && k < |samples|
    ensures LineYields(lines, idx + k, limit, loads, samples[k])
    decreases k
  {
    if k > 0 {
      YieldedAt(lines, idx + 1, limit, loads, samples[1..], k - 1);
    }
  }

  lemma {:induction false} DatagenFromYields(lines: seq<string>, idx: nat, limit: Limit, loads: string -> Option<Record>)
    requires idx >= 1
    ensures |DatagenFrom(lines, idx, limit, loads).samples| <= (if idx < |lines| then |lines| - idx else 0)
    ensures YieldedFrom(lines, idx, limit, loads, DatagenFrom(lines, idx, limit, loads).samples)
    decreases |lines| - idx
  {
    if idx < |lines| && loads(DropLastTwo(lines[idx])).Some? && !Beyond(idx, limit) {
      DatagenFromYields(lines, idx + 1, limit, loads);
      var rest := DatagenFrom(lines, idx + 1, limit, loads);
      var sample := loads(DropLastTwo(lines[idx])).value;
      assert ([sample] + rest.samples)[1..] == rest.samples;
    }
  }

  /** The k-th yielded sample is line k + 1 without its last two characters,
      parsed; there are at most `|lines| - 1` of them and, with a limit `m`,
      at most `m`. */
  lemma DatagenYields(lines: seq<string>, limit: Limit, loads: string -> Option<Record>)
    ensures var g := Datagen(lines, limit, loads);
      && |g.samples| <= (if |lines| > 0 then |lines| - 1 else 0)
      && (limit.AtMost? ==> |g.samples| <= (if limit.n > 0 then limit.n else 0))
      && forall k :: 0 <= k < |g.samples| ==> loads(DropLastTwo(lines[k + 1])) == Some(g.samples[k])
  {
    var g := Datagen(lines, limit, loads);
    DatagenFromYields(lines, 1, limit, loads);
    forall k | 0 <= k < |g.samples|
      ensures loads(DropLastTwo(lines[k + 1])) == Some(g.samples[k])
    {
      YieldedAt(lines, 1, limit, loads, g.samples, k);
      assert 1 + k == k + 1;
    }
    if limit.AtMost? && |g.samples| > 0 {
      YieldedAt(lines, 1, limit, loads, g.samples, |g.samples| - 1);
    }
  }

  /** When every line after the first parses, nothing fails and the generator
      yields line after line up to the limit. */
  lemma {:induction false} DatagenFromAllParse(lines: seq<string>, idx: nat, limit: Limit, loads: string -> Option<Record>)
    requires idx >= 1
    requires forall j :: idx <= j < |lines| ==> loads(DropLastTwo(lines[j])).Some?
    ensures var g := DatagenFrom(lines, idx, limit, loads);
      && !g.failed
      && |g.samples| == YieldCount(|lines|, idx, limit)
    decreases |lines| - idx
  {
    if idx < |lines| && !Beyond(idx, limit) {
      DatagenFromAllParse(lines, idx + 1, limit, loads);
    }
  }

  /** How many of the lines `idx ..` are yielded when all of them parse. */
  function YieldCount(n: nat, idx: nat, limit: Limit): (c: nat)
    ensures c <= (if idx < n then n - idx else 0)
    decreases n - idx
  {
    if idx >= n || Beyond(idx, limit) then 0 else 1 + YieldCount(n, idx + 1, limit)
  }

  /** A line just past the limit is still parsed: a malformed line there
      makes the generator raise although nothing from it would be yielded. */
  lemma LineAfterLimitIsParsed(header: string, good: string, bad: string, r: Record, loads: string -> Option<Record>)
    requires loads(DropLastTwo(good)) == Some(r) && loads(DropLastTwo(bad)) == None
    ensures Datagen([header, good, bad], AtMost(1), loads) == Generated([r], true)
  {
    var lines := [header, good, bad];
    assert DatagenFrom(lines, 3, AtMost(1), loads) == Generated([], false);
    assert DatagenFrom(lines, 2, AtMost(1), loads) == Generated([], true);
  }
}
