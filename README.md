# grants_tagger_light: label augmentation, MeSH JSON loading and MeSH subtree selection in Dafny

This project models four parts of grants_tagger_light, a tool that tags research grants with MeSH
(Medical Subject Headings) descriptors, and proves properties about them:

- **Augmentation planning** (`augment.py`, module `LabelCounts` in `augment.dfy`).
  - Filter the corpus by year.
  - Count each record's labels and merge the per-record counts into corpus counts, keeping dictionary
    insertion order.
  - Sort the counts in descending order with a stable sort.
  - Select the labels with fewer than `min_examples` occurrences.
  - Plan at most `concurrent_calls` generation calls, each with the label and its deficit.
- **Request and response handling for the chat-completion client** (`augment_openai.py`, module
  `AugmentOpenAI` in `augment_openai.dfy`).
  - Build the prompt by substituting `{TOPIC}` and `{ABSTRACT}`.
  - Replication arithmetic: use `min(required, seeds)` existing examples, each asked for
    `ceil(required / existing)` generations.
  - Queue one request per seed record; the class `Augmenter` owns the queue.
  - Turn each response choice into an output record appended to the output file; the class
    `OutputFiles` holds the file contents.
- **The MeSH JSON training loader** (`mesh_json_loader.py`, module `MeshJsonLoader` in
  `mesh_json_loader.dfy`).
  - Encode labels through `label2id`, dropping unknown labels.
  - Build `label2id` by numbering the set of labels seen.
  - The line generator: skip the header, cut the last two characters of each line, parse it, and stop
    after `max_samples`.
- **The MeSH subtree selection of the comparison script** (`scripts/create_xlinear_bertmesh_comparison_csv.py`,
  module `MeshSubnames` in `mesh_subnames.dfy`).
  - Read the term list and the tree-letter list.
  - Read a descriptor record.
  - Two passes over the descriptors: first collect the tree numbers of the chosen descriptors, then
    collect every name under one of those tree numbers.
  - Take the union of both name lists and filter the sampled rows by it.

Shared pieces:

- `wrappers.dfy` holds `Option` and `Result`.
- `text.dfy` holds the Python string operations the code uses, with their laws:
  - `startswith`, `in`, `replace`, `split`, `join`;
  - `strip` with Python's whitespace set;
  - `str(int)`.
- `collections.dfy` holds:
  - first-occurrence order;
  - flattening;
  - filtering.
- `corpus.dfy` holds the corpus record.

`str.replace` substitutes every occurrence of a placeholder, and the prompt is built by substituting the tag first
and the abstract second. Lemma `AugmentOpenAI.AbstractPlaceholderInsideTag` shows what follows from
that order: an `{ABSTRACT}` placeholder inside the tag is itself replaced.

Environment values are parameters of the model:

- The year filters receive the strings passed on the command line.
- `json.loads` and `JsonParser.parse_json` are function parameters (`loads`, `parse`).
- The parsed XML is a tree of `Element`s.
- The list files are their lines.
- The year written into request metadata is an opaque integer from `Settings`.
- The clock, `uuid`, S3 and random sampling are left out (see below).

## Model

| member | source | states |
|---|---|---|
| LabelCounts.FilterYears | grants_tagger_light/augmentation/augment.py:88-91 | a record is kept iff (no train years or `str(year)` is a train year) and (no test years or `str(year)` is not a test year); no record is added |
| LabelCounts.FilterYearsByValue | grants_tagger_light/augmentation/augment.py:88-91 | with the train years given as the strings of integer years, a record passes the train filter iff its year is one of those integers |
| LabelCounts.Tally | grants_tagger_light/augmentation/augment.py:20-27 | the reference for one record's dictionary: its keys are the labels in first-occurrence order, each mapped to its number of occurrences; its contract makes it a well-formed dictionary (distinct keys, exactly the mapped labels), and `CountElements` is proved to compute it |
| LabelCounts.CountElements | grants_tagger_light/augmentation/augment.py:20-27 | the result has exactly the labels of the list as keys, in first-occurrence order, each mapped to its number of occurrences (at least 1) |
| LabelCounts.AddCounter | grants_tagger_light/augmentation/augment.py:33-37 | the loop over one dictionary's keys leaves the running dictionary that `AddEntries` describes: its keys taken in order, each added to the running value, a new key appended at the end |
| LabelCounts.AddEntriesSpec | grants_tagger_light/augmentation/augment.py:33-37 | after merging a dictionary with distinct keys, the keys are the first occurrences of the old keys followed by its keys; a key is present iff it was before or the dictionary has it; every key's value is the old value (0 when absent) plus the dictionary's value (0 when absent) |
| LabelCounts.MergeCounters | grants_tagger_light/augmentation/augment.py:30-38 | merged keys are the first occurrences of all dictionaries' keys in order; a key is present iff some dictionary has it, and its value is the sum over all dictionaries |
| LabelCounts.MergedTalliesCountConcatenation | grants_tagger_light/augmentation/augment.py:94-99 | counting each record then merging gives, for every label, its number of occurrences in the whole corpus, and a label is counted iff it occurs |
| LabelCounts.MergedTalliesKeyOrder | grants_tagger_light/augmentation/augment.py:94-99 | the merged key order is the first-occurrence order of the labels over the whole corpus |
| LabelCounts.MergeOrderIrrelevant | grants_tagger_light/augmentation/augment.py:94-99 | the merged count of a label does not depend on the order of the per-record dictionaries (any reordering with the same multiset of labels) |
| LabelCounts.SortByCount | grants_tagger_light/augmentation/augment.py:100 | Python's stable descending sort by count: as many items as given; `SortByCountPermutation`, `SortByCountNonIncreasing` and `SortByCountStable` state that it is a permutation, in order, and stable |
| LabelCounts.SortByCountPermutation | grants_tagger_light/augmentation/augment.py:100 | the sorted items are a permutation of the dictionary items |
| LabelCounts.SortByCountNonIncreasing | grants_tagger_light/augmentation/augment.py:100 | the sorted items have non-increasing counts (`reverse=True`) |
| LabelCounts.SortByCountStable | grants_tagger_light/augmentation/augment.py:100 | items with equal counts keep their original relative order (Python's sort is stable) |
| LabelCounts.SortByCountLabels | grants_tagger_light/augmentation/augment.py:100 | sorting keeps exactly the labels of the items, and distinct labels stay distinct |
| LabelCounts.ItemsToMap | grants_tagger_light/augmentation/augment.py:101 | the rebuilt dictionary has exactly the items' labels as keys, and each key maps to a count it has in the items |
| LabelCounts.Below | grants_tagger_light/augmentation/augment.py:106-107 | an item is selected iff it is in the sorted items and its count is below `min_examples` |
| LabelCounts.BelowNonIncreasing | grants_tagger_light/augmentation/augment.py:106-107 | the selected items keep the non-increasing order of counts |
| LabelCounts.BelowLabels | grants_tagger_light/augmentation/augment.py:106-107 | the selected labels are labels of the items, and distinct labels stay distinct |
| LabelCounts.AsWrittenCallLosesLabel | grants_tagger_light/augmentation/augment.py:130-132 | any two different labels with equal counts produce identical calls as written but different planned calls |
| LabelCounts.PlanCalls | grants_tagger_light/augmentation/augment.py:125-132 | at most `concurrent_calls` calls; every call is for a selected label with deficit at least 1; the `_generate` branch, whose call raises and ends the loop, is reached only with the list full; without it every label below the threshold has its call; when all labels are below the threshold the calls are the first `min(len, concurrent_calls)` labels in order, and the loop raises iff there are more labels than `concurrent_calls` |
| LabelCounts.CountPerRecord | grants_tagger_light/augmentation/augment.py:94-97 | one label count per record, in record order, each the count of that record's labels |
| LabelCounts.MergedCountsAreCorpusCounts | grants_tagger_light/augmentation/augment.py:94-99 | the merged counter's key order is the corpus first-occurrence order and each count is the label's corpus multiplicity |
| LabelCounts.SelectedLabels | grants_tagger_light/augmentation/augment.py:100-107 | the selected labels are exactly the counted labels below the threshold, with their counts |
| LabelCounts.SelectLabels | grants_tagger_light/augmentation/augment.py:100-107 | the sorted items are the stable descending sort of the counter's items (so a non-increasing permutation of them); the tags are the labels of the sorted items below the threshold, in that order, each once; a label is a tag iff its count is below the threshold; the tag counts map each tag to its count |
| LabelCounts.Augment | grants_tagger_light/augmentation/augment.py:88-132 | the whole plan: year-filtered records; corpus counts in first-occurrence order; the stable descending sort of their items; the tags, each once, as the labels of the sorted items below the threshold in that order; seed records holding some tag; planned calls, call `i` for tag `i` with deficit `min_examples - count`; and whether the loop ended by the `_generate` raise, which happens iff there are more tags than `concurrent_calls` |
| AugmentOpenAI.CreateMessage | grants_tagger_light/augmentation/augment_openai.py:25-29 | one user message whose content is the template with every `{TOPIC}` replaced by the tag, then every `{ABSTRACT}` replaced by the abstract |
| AugmentOpenAI.CreateMessageWithoutPlaceholders | grants_tagger_light/augmentation/augment_openai.py:25-29 | a template without placeholders is sent unchanged |
| AugmentOpenAI.AbstractPlaceholderInsideTag | grants_tagger_light/augmentation/augment_openai.py:26-27 | because substitution is sequential, an `{ABSTRACT}` placeholder inside the tag is replaced by the abstract |
| AugmentOpenAI.CeilDiv | grants_tagger_light/augmentation/augment_openai.py:90 | for a positive divisor the result is the least `q` with `q * b >= a` |
| AugmentOpenAI.Replication | grants_tagger_light/augmentation/augment_openai.py:87-90 | fails with a division by zero iff `min(required, seeds)` is 0; otherwise existing is that minimum and existing times the per-example count covers the requirement with less than one example's excess |
| AugmentOpenAI.SeedsFor | grants_tagger_light/augmentation/augment_openai.py:82 | a record is a seed iff it is in the dataset and carries the tag |
| AugmentOpenAI.SeedRequest | grants_tagger_light/augmentation/augment_openai.py:94-113 | the request built from one seed: its prompt is made from its own featured tag and existing example, and a seed carrying the tag makes the featured tag one of the request's labels |
| AugmentOpenAI.RequestsFor | grants_tagger_light/augmentation/augment_openai.py:78-115 | every request built for a call features the call's label (which is among its labels), requires the call's deficit and asks for the per-example share; `RequestsCoverDeficit` and `RequestsForFailsIffNoSeed` give the count and the failure |
| AugmentOpenAI.AllRequests | grants_tagger_light/augmentation/augment_openai.py:78-115 | every queued request belongs to some planned call for its label, with that call's deficit and share; `AllRequestsError` and `AllRequestsStops` give the error behaviour |
| AugmentOpenAI.TotalGenerationsUniform | grants_tagger_light/augmentation/augment_openai.py:92-98 | requests that all ask for the same `n` generate `len * n` completions |
| AugmentOpenAI.RequestsCoverDeficit | grants_tagger_light/augmentation/augment_openai.py:87-98 | for a call with a positive deficit: between 1 and `deficit` requests, no more than there are seeds; together they ask for at least the deficit, and asking one completion fewer per request would fall short |
| AugmentOpenAI.RequestsForFailsIffNoSeed | grants_tagger_light/augmentation/augment_openai.py:82-90 | with a positive deficit, building a call's requests raises iff no record carries the tag |
| AugmentOpenAI.QueuedRequestsFeatureTheirTag | grants_tagger_light/augmentation/augment_openai.py:92-113 | every queued request's featured tag is among its tags, its tags and abstract come from one dataset record, its prompt is built from its tag and abstract, the model, temperature, `top_p`, presence penalty, model key, year and output path are as given, and some planned call for its label has its required examples as deficit and its `n` as per-example share |
| AugmentOpenAI.AllRequestsError | grants_tagger_light/augmentation/augment_openai.py:78-90 | queueing finishes without error iff every call's requests can be built |
| AugmentOpenAI.AllRequestsStops | grants_tagger_light/augmentation/augment_openai.py:78-90 | once a call raises, later calls add nothing |
| AugmentOpenAI.Augmenter.constructor | grants_tagger_light/augmentation/augment_openai.py:17-23 | the template and model key are stored and nothing is queued |
| AugmentOpenAI.Augmenter.QueueSeeds | grants_tagger_light/augmentation/augment_openai.py:92-115 | the inner loop queues one request per seed among the first `existing_examples`, in seed order, each for the tag with `n_per_example` completions, and nothing else |
| AugmentOpenAI.Augmenter.MakeRequests | grants_tagger_light/augmentation/augment_openai.py:66-115 | the queue grows by exactly the requests of the calls in order, up to the first call that raises, and the error is reported |
| AugmentOpenAI.Parsed | grants_tagger_light/augmentation/augment_openai.py:38-45 | a choice yields an object iff it has a message with content and that content parses; `SkippedChoicesWriteNothing` shows the other choices write nothing |
| AugmentOpenAI.RecordOf | grants_tagger_light/augmentation/augment_openai.py:47-59 | the written record copies the request metadata (model key as journal, tags, year, existing example, required examples, featured tag) and takes abstract and title from the parsed object |
| AugmentOpenAI.RecordsFrom | grants_tagger_light/augmentation/augment_openai.py:38-62 | at most one record per choice, each carrying the request's tags, model key, year, seed abstract, deficit and featured tag |
| AugmentOpenAI.RecordsComeFromChoices | grants_tagger_light/augmentation/augment_openai.py:38-60 | every written record's abstract and title are those of some choice's parsed content |
| AugmentOpenAI.SkippedChoicesWriteNothing | grants_tagger_light/augmentation/augment_openai.py:39-45 | choices without a message, without content or with unparsable content write nothing and do not crash |
| AugmentOpenAI.WellFormedChoicesWriteOneEach | grants_tagger_light/augmentation/augment_openai.py:38-62 | when every choice parses to an object with abstract and title, one record is written per choice, in order |
| AugmentOpenAI.OutputFiles.Open | grants_tagger_light/augmentation/augment_openai.py:37 | opening for append creates the file if absent and leaves the other files unchanged |
| AugmentOpenAI.OutputFiles.Append | grants_tagger_light/augmentation/augment_openai.py:50-61 | one record is appended to that file and nothing else changes |
| AugmentOpenAI.WriteChoice | grants_tagger_light/augmentation/augment_openai.py:39-62 | a choice appends one record to the open file iff it parses with abstract and title, reports a crash iff it parses without one of them, and otherwise changes nothing; no other file changes |
| AugmentOpenAI.WriteChoices | grants_tagger_light/augmentation/augment_openai.py:38-62 | the loop over the choices appends to the open file exactly the records of the choices before the first crash, in order, and reports whether a choice crashed |
| AugmentOpenAI.ProcessResponse | grants_tagger_light/augmentation/augment_openai.py:32-62 | a failed result writes nothing; otherwise the output file gains exactly the records of the choices before the first crash |
| AugmentOpenAI.WrittenRecordsFeatureTheirTag | grants_tagger_light/augmentation/augment_openai.py:50-59 | every record written for a queued request has its featured tag among its labels |
| AugmentOpenAI.SeedsForInteger | grants_tagger_light/augmentation/augment_openai.py:79-82 | as written the first call component is an integer, and no record's labels contain an integer, so no seed is found |
| AugmentOpenAI.AsWrittenCallFindsNoSeed | grants_tagger_light/augmentation/augment_openai.py:79-90 | every call planned as written fails with a division by zero |
| AugmentOpenAI.PlannedCallsHaveSeeds | grants_tagger_light/augmentation/augment_openai.py:79-90 | when every planned call is for a corpus label with a positive deficit, queueing never raises |
| MeshJsonLoader.EncodeLabels | grants_tagger_light/training/dataloaders/mesh_json_loader.py:19-27 | the ids of the labels that are keys, in label order, unknown labels skipped |
| MeshJsonLoader.EncodedLabels | grants_tagger_light/training/dataloaders/mesh_json_loader.py:19-27 | the reference encoding: every id is one of the table's ids; `EncodeLabels` computes it and `EncodedLabelsLength`, `EncodedLabelsAppend` and `EncodedLabelsPointwise` give its length and order |
| MeshJsonLoader.EncodedLabelsLength | grants_tagger_light/training/dataloaders/mesh_json_loader.py:19-27 | no more ids than labels, and exactly as many iff every label is a key |
| MeshJsonLoader.EncodedLabelsAppend | grants_tagger_light/training/dataloaders/mesh_json_loader.py:19-27 | encoding distributes over concatenation of label lists |
| MeshJsonLoader.EncodedLabelsPointwise | grants_tagger_light/training/dataloaders/mesh_json_loader.py:19-27 | when every label is a key, the `i`-th id is the id of the `i`-th label |
| MeshJsonLoader.CollectLabels | grants_tagger_light/training/dataloaders/mesh_json_loader.py:31-34 | the collected set holds exactly the labels of some sample |
| MeshJsonLoader.NumberLabels | grants_tagger_light/training/dataloaders/mesh_json_loader.py:35 | every label of the set gets an id; the ids are distinct and are exactly `0 .. n-1` |
| MeshJsonLoader.GetLabel2Id | grants_tagger_light/training/dataloaders/mesh_json_loader.py:30-36 | the keys are exactly the labels occurring in the dataset, numbered injectively onto `0 .. n-1` |
| MeshJsonLoader.NoLabelDropped | grants_tagger_light/training/dataloaders/mesh_json_loader.py:78-89 | with a table built from the dataset itself, no sample loses a label in encoding |
| MeshJsonLoader.EncodeAll | grants_tagger_light/training/dataloaders/mesh_json_loader.py:82-89 | one encoded list per sample, each the encoding of that sample's labels |
| MeshJsonLoader.EncodeDataset | grants_tagger_light/training/dataloaders/mesh_json_loader.py:78-89 | a given table is used as is; otherwise the built table numbers the dataset's labels; every sample is encoded with it, and with a built table no label is lost |
| MeshJsonLoader.DropLastTwo | grants_tagger_light/training/dataloaders/mesh_json_loader.py:53 | `line[:-2]` is the prefix two characters shorter, or empty for lines shorter than two |
| MeshJsonLoader.RunDatagen | grants_tagger_light/training/dataloaders/mesh_json_loader.py:47-58 | the generator loop yields exactly the samples and the parse failure of the generator specification |
| MeshJsonLoader.DatagenFrom | grants_tagger_light/training/dataloaders/mesh_json_loader.py:47-58 | what the generator yields from a line on: at most one sample per remaining line |
| MeshJsonLoader.DatagenFromFailure | grants_tagger_light/training/dataloaders/mesh_json_loader.py:47-58 | the generator fails only on a line, at or after its starting line, that does not parse |
| MeshJsonLoader.Datagen | grants_tagger_light/training/dataloaders/mesh_json_loader.py:47-58 | the generator over the file: a failure comes from a data line that does not parse, never from the skipped header; `DatagenYields` states what is yielded |
| MeshJsonLoader.DatagenYields | grants_tagger_light/training/dataloaders/mesh_json_loader.py:47-58 | sample `k` is the parse of line `k + 1` with two characters cut; the header is never parsed; at most `max_samples` samples (for a finite limit) and at most one per data line |
| MeshJsonLoader.DatagenFromAllParse | grants_tagger_light/training/dataloaders/mesh_json_loader.py:47-58 | when every line after the header parses, the generator never fails and yields one sample per data line up to the limit |
| MeshJsonLoader.LineAfterLimitIsParsed | grants_tagger_light/training/dataloaders/mesh_json_loader.py:53-56 | the line after the limit is still parsed, so a bad line there fails the load even though it would not be yielded |
| MeshSubnames.LoadMeshTerms | scripts/create_xlinear_bertmesh_comparison_csv.py:16-20 | one term per line, each the line with surrounding whitespace removed |
| MeshSubnames.LoadMeshTermsIdempotent | scripts/create_xlinear_bertmesh_comparison_csv.py:16-20 | loading an already loaded list gives it back |
| MeshSubnames.NodeLetter | scripts/create_xlinear_bertmesh_comparison_csv.py:41 | the field of one line never contains the separator; `NodeLetterMeaning` says where it starts and ends |
| MeshSubnames.LoadTreeNodeLetters | scripts/create_xlinear_bertmesh_comparison_csv.py:23-42 | on success one letter per line; a failure is the `IndexError` of a missing separator |
| MeshSubnames.LoadTreeNodeLettersPointwise | scripts/create_xlinear_bertmesh_comparison_csv.py:40-42 | letter `i` is the field of line `i`, and loading fails iff some line has no field |
| MeshSubnames.NodeLetterMeaning | scripts/create_xlinear_bertmesh_comparison_csv.py:41 | a line yields a letter iff its stripped form contains `": "`; the letter is the text after the first separator up to the next separator or the end of the stripped line |
| MeshSubnames.LoadTreeNodeLettersSucceeds | scripts/create_xlinear_bertmesh_comparison_csv.py:40-42 | loading succeeds iff every stripped line contains `": "` |
| MeshSubnames.ExtractData | scripts/create_xlinear_bertmesh_comparison_csv.py:45-53 | reading fails (the `IndexError`) iff an element has fewer than two children or the tree-number or name child is empty; `ExtractDataOfRecord` shows a record in the MeSH layout reads back its fields |
| MeshSubnames.ExtractDataOfRecord | scripts/create_xlinear_bertmesh_comparison_csv.py:45-53 | reading a descriptor record in the MeSH layout gives back its tree number, identifier and name |
| MeshSubnames.Selected | scripts/create_xlinear_bertmesh_comparison_csv.py:82-92 | every selected descriptor meets the criterion; `SelectedMembership` gives the converse |
| MeshSubnames.SelectedMembership | scripts/create_xlinear_bertmesh_comparison_csv.py:82-92 | a scan selects a descriptor iff some element reads as it without `IndexError` and it meets the test; no more descriptors than elements |
| MeshSubnames.AnyPrefix | scripts/create_xlinear_bertmesh_comparison_csv.py:110-113 | the inner loop with `break` reports whether the string starts with one of the prefixes |
| MeshSubnames.Scan | scripts/create_xlinear_bertmesh_comparison_csv.py:82-92 | one pass returns the tree numbers and names of the selected descriptors, in element order, one entry per selected element |
| MeshSubnames.FindSubnamesFromTerms | scripts/create_xlinear_bertmesh_comparison_csv.py:56-115 | fails iff the number of matched elements differs from the number of terms, reporting the terms not found; otherwise returns the names of all elements whose tree number starts with a matched tree number |
| MeshSubnames.FindSubnamesFromTreeNodes | scripts/create_xlinear_bertmesh_comparison_csv.py:118-156 | fails iff the letter file has a line without separator; otherwise returns the names under the tree numbers that start with a letter |
| MeshSubnames.TreeNodeScanIsSinglePass | scripts/create_xlinear_bertmesh_comparison_csv.py:129-156 | the second pass over tree letters selects exactly the descriptors the first selected: those whose own tree number starts with a letter |
| MeshSubnames.MatchedTermsAreSubnames | scripts/create_xlinear_bertmesh_comparison_csv.py:82-115 | every matched term is among the returned subnames |
| MeshSubnames.TermsCheck | scripts/create_xlinear_bertmesh_comparison_csv.py:94-98 | for distinct terms and distinct matched names, the count check passes iff every term was found |
| MeshSubnames.AllSubnames | scripts/create_xlinear_bertmesh_comparison_csv.py:182 | a name is a subname iff it comes from the terms or from the tree letters |
| MeshSubnames.KeepRows | scripts/create_xlinear_bertmesh_comparison_csv.py:234-240 | with BERTMesh annotation a row is kept iff one of its tags is a subname; without it every row stays |

## Left out

- Multiprocessing (`multiprocessing.Pool`, `num_proc`), the concurrent chat client's scheduling
  (`run_request_function`, `pull_all`, callbacks), logging, progress bars and the command-line
  interfaces: they do not change the values computed. The request queue is the sequence the client
  receives, and responses are processed one at a time.
- `_generate` in `augment.py`: it passes a keyword that `generate` does not accept (and would read an
  undefined `model_key`), so its first call raises `TypeError` and ends `augment`. The planning loop
  stops there and reports it (`raised`); the file opened for appending before the raise is not
  modelled.
- The model-key check in `augment` and the `OPENAI_API_KEY` warning: configuration checks outside the
  modelled data flow.
- The `.count` dump, the log lines listing the biggest and smallest tags, the `idx` column and the
  `print` of it: output only.
- `pmid` (`uuid4().hex`) in written records: randomness. `OutputRecord` has no `pmid` field.
- The `year` in request metadata is `datetime.date.year`, a descriptor object that `json.dumps` cannot
  serialise. The model carries an opaque integer instead.
- AugmentOpenAI.CeilDiv: `math.ceil` of a float division is modelled as exact integer ceiling; float
  rounding of very large counts is not captured.
- `JsonParser.parse_json` and `json.loads` are function parameters; an exception from them is `None`.
  A parsed object missing `abstract` or `title` raises `KeyError`. The model reports that as a crash,
  with the records written before it kept.
- In the loader, tokenisation, `remove_columns`, `train_test_split` and the `latin1` decoding are left
  out: they come from libraries outside this code and do not touch labels.
- MeshJsonLoader.NumberLabels: Python's set iteration order is unspecified, so the model picks labels in
  an arbitrary order. It proves only what holds for every order: a bijection onto `0 .. n-1`.
- `max_samples = np.inf` is the `Unbounded` limit.
- XML parsing (`ET.parse`), S3 listing and reading, random shuffling, stratified sampling, BERTMesh and
  XLinear prediction and the CSV output of the comparison script: I/O, randomness and models outside
  this code. The rows reaching the filter are parameters.
- XML elements whose `.text` is `None`: the model gives every element a string text.
- MeshSubnames.LoadTreeNodeLetters: its own contract states only the lengths and the error kind. The
  per-line letters are stated by `LoadTreeNodeLettersPointwise`.

## Findings

| source | as written | input that shows it | evidently intended | confidence | as-written member | corrected member |
|---|---|---|---|---|---|---|
| grants_tagger_light/augmentation/augment.py:132 with grants_tagger_light/augmentation/augment_openai.py:79-90 | the planned call is `(count, missing)`, but the consumer reads component 0 as the tag (the consumer is reached only once the `_generate` call at line 128 stops raising) | any label with count 3 and `min_examples` 15: the call is `(3, 12)`; no record's labels contain the integer 3, so there are no seeds, `existing_examples` is 0 and `ceil(12 / 0)` raises `ZeroDivisionError`; two labels with equal counts give identical calls | `(tag, missing)` | not executed | LabelCounts.AsWrittenCall, LabelCounts.AsWrittenCallLosesLabel, AugmentOpenAI.SeedsForInteger, AugmentOpenAI.AsWrittenCallFindsNoSeed | LabelCounts.PlannedCall, AugmentOpenAI.PlannedCallsHaveSeeds |
