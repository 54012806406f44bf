/**
 * The OpenAI-backed augmenter (grants_tagger_light/augmentation/augment_openai.py):
 * rendering the prompt, planning how many generations to ask for from each
 * seed record, queueing one chat request per seed, and turning the choices
 * of a response into records appended to the output file.
 */
module AugmentOpenAI {
  import opened Wrappers
  import opened Text
  import opened Collections
  import opened Corpus
  import LabelCounts

  // ---------------------------------------------------------------------
  // _create_message (lines 25-29)
  // ---------------------------------------------------------------------

  datatype ChatMessage = ChatMessage(role: string, content: string)

  /** The prompt: every `{TOPIC}` of the template replaced by the label, then
      every `{ABSTRACT}` of that text replaced by the abstract. */
  function CreateMessage(template: string, abstractText: string, tag: Label): (messages: seq<ChatMessage>)
    ensures |messages| == 1 && messages[0].role == "user"
    ensures messages[0].content == Join(Split(Join(Split(template, "{TOPIC}"), tag), "{ABSTRACT}"), abstractText)
  {
    var prompt := Replace(template, "{TOPIC}", tag);
    ReplaceViaSplit(template, "{TOPIC}", tag);
    ReplaceViaSplit(prompt, "{ABSTRACT}", abstractText);
    [ChatMessage("user", Replace(prompt, "{ABSTRACT}", abstractText))]
  }

  /** A template without placeholders is sent unchanged. */
  lemma CreateMessageWithoutPlaceholders(template: string, abstractText: string, tag: Label)
    requires !Occurs("{TOPIC}", template) && !Occurs("{ABSTRACT}", template)
    ensures CreateMessage(template, abstractText, tag)[0].content == template
  {
    SplitSingleIffAbsent(template, "{TOPIC}");
    SplitSingleIffAbsent(template, "{ABSTRACT}");
    JoinSplit(template, "{TOPIC}");
    JoinSplit(template, "{ABSTRACT}");
  }

  /** Because the label is substituted first, a `{ABSTRACT}` inside the label
      is itself replaced by the abstract. */
  lemma AbstractPlaceholderInsideTag()
    ensures CreateMessage("{TOPIC}", "text", "{ABSTRACT}")[0].content == "text"
  {
    assert Replace("{TOPIC}", "{TOPIC}", "{ABSTRACT}") == "{ABSTRACT}" by {
      assert StartsWith("{TOPIC}", "{TOPIC}");
      assert "{TOPIC}"[7..] == [];
    }
    assert Replace("{ABSTRACT}", "{ABSTRACT}", "text") == "text" by {
      assert StartsWith("{ABSTRACT}", "{ABSTRACT}");
      assert "{ABSTRACT}"[10..] == [];
    }
  }

  // ---------------------------------------------------------------------
  // Planning arithmetic (lines 82-90)
  // ---------------------------------------------------------------------

  /** The exception that ends `_make_requests`. */
  datatype PlanError = ZeroDivision

  /** `math.ceil(a / b)`, with the quotient taken exactly. */
  function CeilDiv(a: int, b: int): (q: int)
    requires b != 0
    ensures b > 0 ==> q * b >= a && (q - 1) * b < a
  {
    if b > 0 then
      var fl := (-a) / b;
      assert -a == b * fl + (-a) % b;
      -fl
    else -(a / (-b))
  }

  /** `existing_examples = min(n, len(tmp_dset))` and
      `n_per_example = ceil(n / existing_examples)`; the division raises when
      there are no seeds or nothing is required. */
  function Replication(required: int, available: nat): (r: Result<(int, int), PlanError>)
    ensures r.Failure? <==> LabelCounts.Min(required, available) == 0
    ensures r.Success? ==> var (existing, perExample) := r.value;
      && existing == LabelCounts.Min(required, available)
      && existing <= required && existing <= available
      && (existing > 0 ==> perExample * existing >= required && (perExample - 1) * existing < required)
  {
    var existing := LabelCounts.Min(required, available);
    if existing == 0 then Failure(ZeroDivision) else Success((existing, CeilDiv(required, existing)))
  }

  // ---------------------------------------------------------------------
  // _make_requests (lines 66-115)
  // ---------------------------------------------------------------------

  /** The `data` of a chat request. */
  datatype ChatRequest = ChatRequest(
    model: string, n: int, temperature: real, topP: real, presencePenalty: real, messages: seq<ChatMessage>)

  /** The `metadata` handed back with the response. */
  datatype Metadata = Metadata(
    featuredTag: Label, tags: seq<Label>, requiredExamples: int, existingExample: string,
    year: int, modelKey: string, saveToPath: string)

  datatype Request = Request(data: ChatRequest, metadata: Metadata)

  /** The arguments of `_make_requests` other than the calls and the dataset;
      `year` stands for the value the code reads from `datetime.date`. */
  datatype Settings = Settings(
    temperature: real, topP: real, presencePenalty: real, modelKey: string, saveToPath: string, year: int)

  /** `dset.filter(lambda x: any(np.isin([t], x["meshMajor"])))` */
  function SeedsFor(dset: seq<Record>, t: Label): (seeds: seq<Record>)
    ensures forall r :: r in seeds <==> r in dset && t in r.meshMajor
  {
    Filter(dset, (r: Record) => t in r.meshMajor)
  }

  /** The request built from one seed record: its prompt is made from its
      own featured tag and existing example, and a seed carrying the tag
      makes the featured tag one of the request's labels. */
  function SeedRequest(template: string, clientModel: string, t: Label, n: int, perExample: int,
                       seed: Record, s: Settings): (q: Request)
    ensures q.data.messages == CreateMessage(template, q.metadata.existingExample, q.metadata.featuredTag)
    ensures t in seed.meshMajor ==> q.metadata.featuredTag in q.metadata.tags
  {
    Request(
      ChatRequest(clientModel, perExample, s.temperature, s.topP, s.presencePenalty,
                  CreateMessage(template, seed.abstractText, t)),
      Metadata(t, seed.meshMajor, n, seed.abstractText, s.year, s.modelKey, s.saveToPath))
  }

  /** The requests for one planned call `(t, n)`: one per seed among the
      first `existing_examples` records carrying `t`. */
  function RequestsFor(template: string, clientModel: string, call: (Label, int), dset: seq<Record>,
                       s: Settings): (r: Result<seq<Request>, PlanError>)
    ensures r.Success? ==> forall q :: q in r.value ==>
      CallServes(call, q, dset) && q.metadata.featuredTag in q.metadata.tags
  {
    var seeds := SeedsFor(dset, call.0);
    match Replication(call.1, |seeds|)
    case Failure(e) => Failure(e)
    case Success((existing, perExample)) =>
      var rs := SeedRequests(template, clientModel, call.0, call.1, perExample, seeds, LabelCounts.Max(existing, 0), s);
      assert forall i :: 0 <= i < |rs| ==> seeds[i] in seeds;
      Success(rs)
  }

  /** One request for each of the first `count` seeds, in seed order. */
  function SeedRequests(template: string, clientModel: string, t: Label, n: int, perExample: int,
                        seeds: seq<Record>, count: nat, s: Settings): seq<Request>
    requires count <= |seeds|
  {
    seq(count, i requires 0 <= i < count => SeedRequest(template, clientModel, t, n, perExample, seeds[i], s))
  }

  /** `RequestsFor` spelled out as the loop of `_make_requests` computes it. */
  lemma RequestsForSteps(template: string, clientModel: string, call: (Label, int), dset: seq<Record>, s: Settings)
    ensures var seeds := SeedsFor(dset, call.0);
      var existing := LabelCounts.Min(call.1, |seeds|);
      RequestsFor(template, clientModel, call, dset, s) ==
        if existing == 0 then Failure(ZeroDivision)
        else Success(SeedRequests(template, clientModel, call.0, call.1, CeilDiv(call.1, existing), seeds,
                                  LabelCounts.Max(existing, 0), s))
  {
  }

  /** What the queue receives for a list of planned calls, and the error that
      stops the loop, if any: the requests of the calls before the failing
      one stay queued. */
  datatype Queued = Queued(requests: seq<Request>, error: Option<PlanError>)

  function AllRequests(template: string, clientModel: string, calls: seq<(Label, int)>, dset: seq<Record>,
                       s: Settings): (r: Queued)
    ensures forall q :: q in r.requests ==> exists c :: c in calls && CallServes(c, q, dset)
  {
    if calls == [] then Queued([], None)
    else
      var prev := AllRequests(template, clientModel, calls[..|calls| - 1], dset, s);
      assert forall c :: c in calls[..|calls| - 1] ==> c in calls;
      if prev.error.Some? then prev
      else match RequestsFor(template, clientModel, calls[|calls| - 1], dset, s)
        case Failure(e) => Queued(prev.requests, Some(e))
        case Success(rs) => Queued(prev.requests + rs, None)
  }

  /** The `n` values asked for by a list of requests. */
  function TotalGenerations(requests: seq<Request>): int {
    if requests == [] then 0
    else TotalGenerations(requests[..|requests| - 1]) + requests[|requests| - 1].data.n
  }

  lemma {:induction false} TotalGenerationsUniform(requests: seq<Request>, perExample: int)
    requires forall i :: 0 <= i < |requests| ==> requests[i].data.n == perExample
    ensures TotalGenerations(requests) == |requests| * perExample
  {
    if requests != [] {
      TotalGenerationsUniform(requests[..|requests| - 1], perExample);
    }
  }

  /** The requests for a call ask for at least the missing number of
      examples in total; one generation fewer per seed would fall short. */
  lemma RequestsCoverDeficit(template: string, clientModel: string, call: (Label, int), dset: seq<Record>, s: Settings)
    requires call.1 >= 1
    requires RequestsFor(template, clientModel, call, dset, s).Success?
    ensures var rs := RequestsFor(template, clientModel, call, dset, s).value;
      && 1 <= |rs| <= call.1
      && |rs| <= |SeedsFor(dset, call.0)|
      && TotalGenerations(rs) >= call.1
      && TotalGenerations(rs) - |rs| < call.1
  {
    var seeds := SeedsFor(dset, call.0);
    var rep := Replication(call.1, |seeds|);
    var existing, perExample := rep.value.0, rep.value.1;
    var rs := RequestsFor(template, clientModel, call, dset, s).value;
    assert |rs| == existing;
    forall i | 0 <= i < |rs|
      ensures rs[i].data.n == perExample
    {
    }
    TotalGenerationsUniform(rs, perExample);
    CoverArithmetic(existing, perExample, call.1, TotalGenerations(rs));
  }

  lemma CoverArithmetic(existing: int, perExample: int, required: int, total: int)
    requires existing > 0 && total == existing * perExample
    requires perExample * existing >= required && (perExample - 1) * existing < required
    ensures total >= required && total - existing < required
  {
    assert (perExample - 1) * existing == perExample * existing - existing;
  }

  /** A planned call succeeds exactly when some record carries its label
      (the deficit being at least one). */
  lemma RequestsForFailsIffNoSeed(template: string, clientModel: string, call: (Label, int), dset: seq<Record>, s: Settings)
    requires call.1 >= 1
    ensures RequestsFor(template, clientModel, call, dset, s).Failure? <==>
      forall r :: r in dset ==> call.0 !in r.meshMajor
  {
    var seeds := SeedsFor(dset, call.0);
    if |seeds| > 0 {
      assert seeds[0] in seeds;
    }
  }

  /** Every queued request names a label its own seed carries, copies the
      seed's abstract and labels, carries the prompt for that abstract and
      label and the given settings, and belongs to a planned call for its
      label: its required examples are that call's deficit and its `n` the
      per-example share computed for that call. */
  lemma {:induction false} QueuedRequestsFeatureTheirTag(template: string, clientModel: string,
      calls: seq<(Label, int)>, dset: seq<Record>, s: Settings)
    ensures forall q :: q in AllRequests(template, clientModel, calls, dset, s).requests ==>
      && q.metadata.featuredTag in q.metadata.tags
      && (exists r :: r in dset && r.meshMajor == q.metadata.tags && r.abstractText == q.metadata.existingExample)
      && q.data.messages == CreateMessage(template, q.metadata.existingExample, q.metadata.featuredTag)
      && q.data.model == clientModel
      && q.data.temperature == s.temperature && q.data.topP == s.topP && q.data.presencePenalty == s.presencePenalty
      && q.metadata.modelKey == s.modelKey && q.metadata.year == s.year && q.metadata.saveToPath == s.saveToPath
      && (exists c :: c in calls && CallServes(c, q, dset))
  {
    if calls != [] {
      var n := |calls| - 1;
      QueuedRequestsFeatureTheirTag(template, clientModel, calls[..n], dset, s);
      assert forall c :: c in calls[..n] ==> c in calls;
      var prev := AllRequests(template, clientModel, calls[..n], dset, s);
      if prev.error.None? {
        var res := RequestsFor(template, clientModel, calls[n], dset, s);
        if res.Success? {
          var seeds := SeedsFor(dset, calls[n].0);
          forall q | q in res.value
            ensures q.metadata.featuredTag in q.metadata.tags
            ensures exists r :: r in dset && r.meshMajor == q.metadata.tags && r.abstractText == q.metadata.existingExample
            ensures CallServes(calls[n], q, dset)
          {
            var i :| 0 <= i < |res.value| && res.value[i] == q;
            assert seeds[i] in seeds;
          }
        }
      }
    }
  }

  /** Request `q` is one of those built for the planned call `c`: it features
      the call's label, requires the call's deficit, and asks for the
      per-example share of that deficit. */
  ghost predicate CallServes(c: (Label, int), q: Request, dset: seq<Record>) {
    var rep := Replication(c.1, |SeedsFor(dset, c.0)|);
    && q.metadata.featuredTag == c.0
    && q.metadata.requiredExamples == c.1
    && rep.Success? && q.data.n == rep.value.1
  }

  /** The calls before the first failing one are all served. */
  lemma {:induction false} AllRequestsError(template: string, clientModel: string,
      calls: seq<(Label, int)>, dset: seq<Record>, s: Settings)
    ensures AllRequests(template, clientModel, calls, dset, s).error.None? <==>
      forall i :: 0 <= i < |calls| ==> RequestsFor(template, clientModel, calls[i], dset, s).Success?
  {
    if calls != [] {
      var n := |calls| - 1;
      AllRequestsError(template, clientModel, calls[..n], dset, s);
      assert forall i :: 0 <= i < n ==> calls[..n][i] == calls[i];
    }
  }

  /** The client of `AugmentOpenAI`: its template and model, and the queue of
      requests handed to `self.api.request`. */
  class Augmenter {
    const promptTemplate: string
    const modelKey: string
    var queue: seq<Request>

    /** `__init__` with the template file's contents already read. */
    constructor (promptTemplate: string, modelKey: string)
      ensures this.promptTemplate == promptTemplate && this.modelKey == modelKey
      ensures queue == []
    {
      this.promptTemplate := promptTemplate;
      this.modelKey := modelKey;
      queue := [];
    }

    method MakeRequests(calls: seq<(Label, int)>, dset: seq<Record>, s: Settings) returns (error: Option<PlanError>)
      modifies this
      ensures var q := AllRequests(promptTemplate, modelKey, calls, dset, s);
        queue == old(queue) + q.requests && error == q.error
    {
      error := None;
      var num := 0;
      while num < |calls|
        invariant 0 <= num <= |calls|
        invariant var q := AllRequests(promptTemplate, modelKey, calls[..num], dset, s);
          queue == old(queue) + q.requests && q.error.None?
      {
        var t, n := calls[num].0, calls[num].1;
        AllRequestsSnoc(promptTemplate, modelKey, calls, num, dset, s);
        RequestsForSteps(promptTemplate, modelKey, calls[num], dset, s);
        var tmp := SeedsFor(dset, t);
        var existing := LabelCounts.Min(n, |tmp|);
        if existing == 0 {
          error := Some(ZeroDivision);
          AllRequestsStops(promptTemplate, modelKey, calls, num, dset, s);
          return;
        }
        var perExample := CeilDiv(n, existing);
        QueueSeeds(t, n, perExample, tmp, LabelCounts.Max(existing, 0), s);
        num := num + 1;
      }
      assert calls[..num] == calls;
    }

    /** The inner loop of `_make_requests`: one request per seed among the
        first `count`. */
    method QueueSeeds(t: Label, n: int, perExample: int, seeds: seq<Record>, count: nat, s: Settings)
      requires count <= |seeds|
      modifies this
      ensures queue == old(queue) + SeedRequests(promptTemplate, modelKey, t, n, perExample, seeds, count, s)
    {
      ghost var rs := SeedRequests(promptTemplate, modelKey, t, n, perExample, seeds, count, s);
      for i := 0 to count
        invariant queue == old(queue) + rs[..i]
      {
        queue := queue + [SeedRequest(promptTemplate, modelKey, t, n, perExample, seeds[i], s)];
        assert rs[..i + 1] == rs[..i] + [rs[i]];
      }
      assert rs[..count] == rs;
    }
  }

  /** One more call extends the queue by its requests, or records its error. */
  lemma AllRequestsSnoc(template: string, clientModel: string, calls: seq<(Label, int)>, k: nat, dset: seq<Record>, s: Settings)
    requires k < |calls|
    requires AllRequests(template, clientModel, calls[..k], dset, s).error.None?
    ensures var prev := AllRequests(template, clientModel, calls[..k], dset, s);
      AllRequests(template, clientModel, calls[..k + 1], dset, s) ==
        match RequestsFor(template, clientModel, calls[k], dset, s)
        case Failure(e) => Queued(prev.requests, Some(e))
        case Success(rs) => Queued(prev.requests + rs, None)
  {
    assert calls[..k + 1][..k] == calls[..k];
  }

  /** Once a call fails, the later calls queue nothing. */
  lemma {:induction false} AllRequestsStops(template: string, clientModel: string,
      calls: seq<(Label, int)>, k: nat, dset: seq<Record>, s: Settings)
    requires k < |calls|
    requires AllRequests(template, clientModel, calls[..k + 1], dset, s).error.Some?
    ensures AllRequests(template, clientModel, calls, dset, s) == AllRequests(template, clientModel, calls[..k + 1], dset, s)
    decreases |calls|
  {
    if |calls| > k + 1 {
      var n := |calls| - 1;
      assert calls[..n][..k + 1] == calls[..k + 1];
      AllRequestsStops(template, clientModel, calls[..n], k, dset, s);
    } else {
      assert calls[..k + 1] == calls;
    }
  }

  // ---------------------------------------------------------------------
  // _process_response (lines 31-64)
  // ---------------------------------------------------------------------

  /** A parsed JSON object with string values. */
  type JsonObject = map<string, string>

  /** `r['message']`, which may lack `content`. */
  datatype ChoiceMessage = ChoiceMessage(content: Option<string>)

  /** One element of `response['choices']`, which may lack `message`. */
  datatype Choice = Choice(message: Option<ChoiceMessage>)

  /** The result object the client hands to the callback. */
  datatype ChatResult = ChatResult(failed: bool, metadata: Metadata, choices: seq<Choice>)

  /** One line of the output file (`pmid`, a fresh random identifier, is not modelled). */
  datatype OutputRecord = OutputRecord(
    journal: string, meshMajor: seq<Label>, year: int, abstractText: string, title: string,
    existingExample: string, requiredExamples: int, featuredTag: Label)

  /** The object a choice parses to; `None` for a choice without a message or
      content, and for one whose parse raises (the skipped cases). */
  function Parsed(c: Choice, parse: string -> Option<JsonObject>): (obj: Option<JsonObject>)
    ensures obj.Some? <==>
      c.message.Some? && c.message.value.content.Some? && parse(c.message.value.content.value).Some?
  {
    if c.message.Some? && c.message.value.content.Some? then parse(c.message.value.content.value) else None
  }

  /** The record written for a parsed object. */
  function RecordOf(obj: JsonObject, meta: Metadata): (rec: OutputRecord)
    requires "abstract" in obj && "title" in obj
    ensures FromMetadata(rec, meta)
    ensures rec.abstractText == obj["abstract"] && rec.title == obj["title"]
  {
    OutputRecord(meta.modelKey, meta.tags, meta.year, obj["abstract"], obj["title"],
                 meta.existingExample, meta.requiredExamples, meta.featuredTag)
  }

  /** A record copies the metadata of the response it comes from. */
  predicate FromMetadata(rec: OutputRecord, meta: Metadata) {
    && rec.journal == meta.modelKey && rec.meshMajor == meta.tags && rec.year == meta.year
    && rec.existingExample == meta.existingExample && rec.requiredExamples == meta.requiredExamples
    && rec.featuredTag == meta.featuredTag
  }

  /** The records appended for a list of choices, and whether the loop ended
      with the uncaught `KeyError` of a parsed object lacking `abstract` or
      `title` (the records before it are already written). */
  datatype Written = Written(records: seq<OutputRecord>, crashed: bool)

  function RecordsFrom(choices: seq<Choice>, meta: Metadata, parse: string -> Option<JsonObject>): (w: Written)
    ensures |w.records| <= |choices|
    ensures forall rec :: rec in w.records ==> FromMetadata(rec, meta)
  {
    if choices == [] then Written([], false)
    else
      var rest := RecordsFrom(choices[1..], meta, parse);
      match Parsed(choices[0], parse)
      case None => rest
      case Some(obj) =>
        if "abstract" in obj && "title" in obj then Written([RecordOf(obj, meta)] + rest.records, rest.crashed)
        else Written([], true)
  }

  /** Each written record takes its abstract and title from the object some
      choice parsed to. */
  lemma {:induction false} RecordsComeFromChoices(choices: seq<Choice>, meta: Metadata, parse: string -> Option<JsonObject>)
    ensures forall rec :: rec in RecordsFrom(choices, meta, parse).records ==> exists i, obj ::
      0 <= i < |choices| && Parsed(choices[i], parse) == Some(obj)
      && "abstract" in obj && "title" in obj && rec.abstractText == obj["abstract"] && rec.title == obj["title"]
  {
    if choices != [] {
      var rest := RecordsFrom(choices[1..], meta, parse);
      RecordsComeFromChoices(choices[1..], meta, parse);
      forall rec | rec in RecordsFrom(choices, meta, parse).records
        ensures exists i, obj ::
          0 <= i < |choices| && Parsed(choices[i], parse) == Some(obj)
          && "abstract" in obj && "title" in obj && rec.abstractText == obj["abstract"] && rec.title == obj["title"]
      {
        if rec in rest.records {
          var i, obj :| 0 <= i < |choices[1..]| && Parsed(choices[1..][i], parse) == Some(obj)
            && "abstract" in obj && "title" in obj && rec.abstractText == obj["abstract"] && rec.title == obj["title"];
          assert choices[i + 1] == choices[1..][i];
        } else {
          var obj := Parsed(choices[0], parse).value;
          assert rec == RecordOf(obj, meta);
        }
      }
    }
  }

  /** Choices that are all skipped write nothing. */
  lemma {:induction false} SkippedChoicesWriteNothing(choices: seq<Choice>, meta: Metadata, parse: string -> Option<JsonObject>)
    requires forall i :: 0 <= i < |choices| ==> Parsed(choices[i], parse).None?
    ensures RecordsFrom(choices, meta, parse) == Written([], false)
  {
    if choices != [] {
      SkippedChoicesWriteNothing(choices[1..], meta, parse);
    }
  }

  /** When every choice parses to an object with an abstract and a title,
      one record is written per choice, in order. */
  lemma {:induction false} WellFormedChoicesWriteOneEach(choices: seq<Choice>, meta: Metadata, parse: string -> Option<JsonObject>)
    requires forall i :: 0 <= i < |choices| ==>
      Parsed(choices[i], parse).Some? && "abstract" in Parsed(choices[i], parse).value && "title" in Parsed(choices[i], parse).value
    ensures var w := RecordsFrom(choices, meta, parse);
      && !w.crashed && |w.records| == |choices|
      && forall i :: 0 <= i < |choices| ==> w.records[i] == RecordOf(Parsed(choices[i], parse).value, meta)
  {
    if choices != [] {
      WellFormedChoicesWriteOneEach(choices[1..], meta, parse);
    }
  }

  /** The output files, by path, as sequences of records. */
  class OutputFiles {
    var contents: map<string, seq<OutputRecord>>

    constructor ()
      ensures contents == map[]
    {
      contents := map[];
    }

    function Content(path: string): seq<OutputRecord>
      reads this
    {
      if path in contents then contents[path] else []
    }

    /** `open(path, 'a')`: the file exists afterwards, with its old content. */
    method Open(path: string)
      modifies this
      ensures contents == old(contents)[path := old(Content(path))]
    {
      contents := contents[path := Content(path)];
    }

    /** `f.write(json.dumps(record) + '\n')` on a file opened for appending. */
    method Append(path: string, rec: OutputRecord)
      modifies this
      ensures contents == old(contents)[path := old(Content(path)) + [rec]]
    {
      contents := contents[path := Content(path) + [rec]];
    }
  }

  /** What one choice contributes: the record of a usable choice, nothing
      for a skipped one, and the `KeyError` of a parsed object lacking
      `abstract` or `title`. */
  function ChoiceOutcome(c: Choice, meta: Metadata, parse: string -> Option<JsonObject>): Written {
    match Parsed(c, parse)
    case None => Written([], false)
    case Some(obj) =>
      if "abstract" in obj && "title" in obj then Written([RecordOf(obj, meta)], false) else Written([], true)
  }

  /** The choices from `i` on write the outcome of choice `i` followed, unless
      it crashed, by what the later ones write. */
  lemma RecordsFromStep(choices: seq<Choice>, i: nat, meta: Metadata, parse: string -> Option<JsonObject>)
    requires i < |choices|
    ensures var o := ChoiceOutcome(choices[i], meta, parse);
      var next := RecordsFrom(choices[i + 1..], meta, parse);
      RecordsFrom(choices[i..], meta, parse) ==
        if o.crashed then Written([], true) else Written(o.records + next.records, next.crashed)
  {
    assert choices[i..][1..] == choices[i + 1..];
    assert choices[i..][0] == choices[i];
  }

  /** The body of the loop over the choices, on a file already open. */
  method WriteChoice(files: OutputFiles, path: string, c: Choice, meta: Metadata, parse: string -> Option<JsonObject>)
    returns (crashed: bool)
    requires path in files.contents
    modifies files
    ensures var o := ChoiceOutcome(c, meta, parse);
      && crashed == o.crashed
      && files.contents == old(files.contents)[path := old(files.contents[path]) + o.records]
  {
    crashed := false;
    if c.message.Some? && c.message.value.content.Some? {
      var parsed := parse(c.message.value.content.value);
      if parsed.None? {
        assert old(files.contents[path]) + [] == old(files.contents[path]);
        return;
      }
      var obj := parsed.value;
      if !("abstract" in obj && "title" in obj) {
        crashed := true;
        assert old(files.contents[path]) + [] == old(files.contents[path]);
        return;
      }
      files.Append(path, RecordOf(obj, meta));
    } else {
      assert old(files.contents[path]) + [] == old(files.contents[path]);
    }
  }

  lemma AppendAgain(m: map<string, seq<OutputRecord>>, k: string, start: seq<OutputRecord>, a: seq<OutputRecord>, b: seq<OutputRecord>)
    ensures m[k := start + a][k := (start + a) + b] == m[k := start + (a + b)]
  {
    assert (start + a) + b == start + (a + b);
  }

  /** The loop over the choices, on a file already open: the file gains the
      records of the choices before the first crash. */
  method WriteChoices(files: OutputFiles, path: string, choices: seq<Choice>, meta: Metadata,
                      parse: string -> Option<JsonObject>) returns (crashed: bool)
    requires path in files.contents
    modifies files
    ensures var w := RecordsFrom(choices, meta, parse);
      && files.contents == old(files.contents)[path := old(files.contents[path]) + w.records]
      && crashed == w.crashed
  {
    crashed := false;
    ghost var whole := RecordsFrom(choices, meta, parse);
    ghost var start := files.contents[path];
    ghost var original := files.contents;
    ghost var written: seq<OutputRecord> := [];
    assert start + written == start;
    for i := 0 to |choices|
      invariant path in files.contents
      invariant files.contents == original[path := start + written]
      invariant written + RecordsFrom(choices[i..], meta, parse).records == whole.records
      invariant RecordsFrom(choices[i..], meta, parse).crashed == whole.crashed
    {
      RecordsFromStep(choices, i, meta, parse);
      ghost var o := ChoiceOutcome(choices[i], meta, parse);
      ghost var later := RecordsFrom(choices[i + 1..], meta, parse).records;
      crashed := WriteChoice(files, path, choices[i], meta, parse);
      AppendAgain(original, path, start, written, o.records);
      if crashed {
        assert written + o.records == written;
        return;
      }
      assert written + (o.records + later) == (written + o.records) + later;
      written := written + o.records;
    }
    assert choices[|choices|..] == [];
    assert written + [] == written;
  }

  /** The callback: a failed result touches no file; otherwise the file named
      in the metadata is opened for appending (and so exists afterwards) and
      receives one record per usable choice, until a parsed object lacks a key. */
  method ProcessResponse(result: ChatResult, parse: string -> Option<JsonObject>, files: OutputFiles)
    returns (crashed: bool)
    modifies files
    ensures result.failed ==> files.contents == old(files.contents) && !crashed
    ensures !result.failed ==>
      var w := RecordsFrom(result.choices, result.metadata, parse);
      var path := result.metadata.saveToPath;
      && files.contents == old(files.contents)[path := old(files.Content(path)) + w.records]
      && crashed == w.crashed
  {
    crashed := false;
    if result.failed {
      return;
    }
    var path := result.metadata.saveToPath;
    files.Open(path);
    crashed := WriteChoices(files, path, result.choices, result.metadata, parse);
  }

  /** Every record written for a response to a queued request carries the
      request's label among its own labels. */
  lemma WrittenRecordsFeatureTheirTag(template: string, clientModel: string, calls: seq<(Label, int)>,
      dset: seq<Record>, s: Settings, q: Request, result: ChatResult, parse: string -> Option<JsonObject>)
    requires q in AllRequests(template, clientModel, calls, dset, s).requests
    requires result.metadata == q.metadata
    ensures forall rec :: rec in RecordsFrom(result.choices, result.metadata, parse).records ==>
      rec.featuredTag in rec.meshMajor && rec.journal == s.modelKey
  {
    QueuedRequestsFeatureTheirTag(template, clientModel, calls, dset, s);
  }

  // ---------------------------------------------------------------------
  // The planned calls as written in augment.py (line 132)
  // ---------------------------------------------------------------------

  /** `np.isin([t], x["meshMajor"])` for an integer `t`: an int never equals a
      str, so no record is selected. */
  function SeedsForInteger(dset: seq<Record>, t: int): (seeds: seq<Record>)
    ensures seeds == []
  {
    var keep := (r: Record) => false;
    FilterNone(dset, keep);
    Filter(dset, keep)
  }

  /** As written, the first component of a planned call is the label's count,
      so no seed is found and the first planned call raises
      `ZeroDivisionError` (its deficit being at least one). */
  lemma AsWrittenCallFindsNoSeed(dset: seq<Record>, count: int, minExamples: int)
    requires count < minExamples
    ensures var call := LabelCounts.AsWrittenCall(count, minExamples);
      Replication(call.1, |SeedsForInteger(dset, call.0)|) == Failure(ZeroDivision)
  {
  }

  /** With the label first, every call the driver plans has at least one seed:
      its label occurs in the corpus, so no request planning fails. */
  lemma PlannedCallsHaveSeeds(template: string, clientModel: string, dset: seq<Record>, calls: seq<(Label, int)>, s: Settings)
    requires forall c :: c in calls ==> c.0 in LabelCounts.CorpusLabels(dset) && c.1 >= 1
    ensures AllRequests(template, clientModel, calls, dset, s).error.None?
  {
    forall i | 0 <= i < |calls|
      ensures RequestsFor(template, clientModel, calls[i], dset, s).Success?
    {
      assert calls[i] in calls;
      var r := LabelInCorpusHasRecord(dset, calls[i].0);
      RequestsForFailsIffNoSeed(template, clientModel, calls[i], dset, s);
    }
    AllRequestsError(template, clientModel, calls, dset, s);
  }

  lemma {:induction false} LabelInCorpusHasRecord(dset: seq<Record>, t: Label) returns (r: Record)
    requires t in LabelCounts.CorpusLabels(dset)
    ensures r in dset && t in r.meshMajor
  {
    var n := |dset| - 1;
    var lists := LabelCounts.MeshMajors(dset);
    assert lists[..n] == LabelCounts.MeshMajors(dset[..n]);
    if t in dset[n].meshMajor {
      r := dset[n];
    } else {
      r := LabelInCorpusHasRecord(dset[..n], t);
    }
  }
}
