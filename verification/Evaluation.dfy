/** Offline evaluation of structured RCA responses against a ground-truth dataset. */
module Evaluation {
  import opened Outcomes
  import opened OrderedDict
  import opened Text
  import opened Rates

  // ---------------------------------------------------------------- documents

  /** What a case expects; absent texts compare equal to absent texts only. */
  datatype Sample = Sample(rootCause: Option<string>, priority: Option<string>, required: seq<string>, forbidden: seq<string>)

  datatype Response = Response(rootCause: Option<string>, priority: Option<string>, cited: seq<string>, text: string)

  datatype Run = Run(model: string, prompt: string, retrieval: string)

  datatype Dataset = Dataset(id: Option<string>, version: Option<string>, samples: seq<(string, Sample)>)

  datatype Responses = Responses(datasetId: Option<string>, datasetVersion: Option<string>, run: Option<Run>,
                                 responses: seq<(string, Response)>)

  // ---------------------------------------------------------------- reports

  datatype SampleResult = SampleResult(caseId: string, passed: bool, rootCausePassed: bool, evidencePassed: bool,
                                       claimsPassed: bool, priorityPassed: bool,
                                       missing: seq<string>, found: seq<string>)

  datatype Metric = RootCauseHit | EvidencePass | ClaimFree | PriorityMatch | OverallPass

  predicate Field(r: SampleResult, m: Metric) {
    match m
    case RootCauseHit => r.rootCausePassed
    case EvidencePass => r.evidencePassed
    case ClaimFree => r.claimsPassed
    case PriorityMatch => r.priorityPassed
    case OverallPass => r.passed
  }

  datatype Metrics = Metrics(count: int, rootCauseHit: real, evidencePass: real, claimFree: real, priorityMatch: real, overall: real) {
    function Of(m: Metric): real {
      match m
      case RootCauseHit => rootCauseHit
      case EvidencePass => evidencePass
      case ClaimFree => claimFree
      case PriorityMatch => priorityMatch
      case OverallPass => overall
    }
  }

  /** An evaluation report; its time stamp is not part of it. */
  datatype Report = Report(datasetId: string, version: string, run: Run, passed: bool, metrics: Metrics, samples: seq<SampleResult>)

  function Count(results: seq<SampleResult>, m: Metric): nat {
    if results == [] then 0
    else Count(results[..|results| - 1], m) + if Field(results[|results| - 1], m) then 1 else 0
  }

  predicate All(results: seq<SampleResult>) {
    forall i :: 0 <= i < |results| ==> results[i].passed
  }

  function MetricsOf(results: seq<SampleResult>): Metrics
    requires results != []
  {
    var n := |results|;
    Metrics(n, Ratio(Count(results, RootCauseHit), n), Ratio(Count(results, EvidencePass), n), Ratio(Count(results, ClaimFree), n),
            Ratio(Count(results, PriorityMatch), n), Ratio(Count(results, OverallPass), n))
  }

  // ---------------------------------------------------------------- evaluating

  /** A non-empty text without white space at its ends. */
  predicate IsText(s: string) { s != [] && Trimmed(s) }

  predicate UniqueTexts(s: seq<string>) {
    (forall i :: 0 <= i < |s| ==> IsText(s[i])) && NoDuplicates(s)
  }

  predicate Indexable<T>(items: seq<(string, T)>) {
    UniqueTexts(Keys(items))
  }

  /** Items by case identifier, in the order of the document. */
  method IndexedItems<T>(items: seq<(string, T)>) returns (indexed: Option<Items<string, T>>)
    ensures indexed == if Indexable(items) then Some(items) else None
  {
    var d: Items<string, T> := [];
    assert Indexable(items[..0]);
    hide Indexable;
    hide IsText;
    hide Put;
    for i := 0 to |items|
      invariant d == items[..i] && Indexable(items[..i])
    {
      ghost var more := items[..i + 1];
      assert more[..i] == items[..i] && more[|more| - 1] == items[i];
      IndexableSnoc(more);
      assert more == items[..i] + [(items[i].0, items[i].1)];
      if !IsText(items[i].0) || IndexOf(d, items[i].0) < |d| {
        if Indexable(items) { PrefixIndexable(items, i + 1); }
        return None;
      }
      PutFresh(d, items[i].0, items[i].1);
      d := Put(d, items[i].0, items[i].1);
    }
    assert items[..|items|] == items;
    indexed := Some(d);
  }

  lemma IndexableSnoc<T>(items: seq<(string, T)>)
    requires items != []
    ensures var init, last := items[..|items| - 1], items[|items| - 1];
            Indexable(items) <==> Indexable(init) && IsText(last.0) && last.0 !in Keys(init)
  {
    hide IsText;
    hide NoDuplicates;
    var init, last := items[..|items| - 1], items[|items| - 1];
    KeysSnoc(items);
    DistinctSnoc(Keys(init), last.0);
    TextsSnoc(Keys(init), last.0);
  }

  lemma TextsSnoc(s: seq<string>, x: string)
    ensures (forall i :: 0 <= i < |s + [x]| ==> IsText((s + [x])[i])) <==> (forall i :: 0 <= i < |s| ==> IsText(s[i])) && IsText(x)
  {
    hide IsText;
    var r := s + [x];
    if forall i :: 0 <= i < |r| ==> IsText(r[i]) {
      forall i | 0 <= i < |s| ensures IsText(s[i]) { assert r[i] == s[i]; }
      assert r[|s|] == x;
    }
  }

  lemma {:induction false} PrefixIndexable<T>(items: seq<(string, T)>, n: nat)
    requires Indexable(items) && n <= |items|
    ensures Indexable(items[..n])
    decreases |items|
  {
    hide Indexable;
    if n < |items| {
      IndexableSnoc(items);
      PrefixIndexable(items[..|items| - 1], n);
      assert items[..|items| - 1][..n] == items[..n];
    } else {
      assert items[..n] == items;
    }
  }

  function Find(responses: Items<string, Response>, id: string): Option<Response> {
    var i := IndexOf(responses, id);
    if i < |responses| then Some(responses[i].1) else None
  }

  /** The items of `wanted` that `have` lacks. */
  function Lacking(wanted: seq<string>, have: seq<string>): seq<string> {
    if wanted == [] then []
    else (if wanted[0] in have then [] else [wanted[0]]) + Lacking(wanted[1..], have)
  }

  /** The claims whose folded text occurs in the folded report. */
  function Occurring(fold: string -> string, claims: seq<string>, text: string): seq<string> {
    if claims == [] then []
    else (if Contains(fold(text), fold(claims[0])) then [claims[0]] else []) + Occurring(fold, claims[1..], text)
  }

  predicate Judgeable(sample: Sample, response: Option<Response>) {
    && UniqueTexts(sample.required) && UniqueTexts(sample.forbidden)
    && (response.Some? ==> UniqueTexts(response.value.cited) && Strip(response.value.text) != [])
  }

  function Judge(fold: string -> string, id: string, sample: Sample, response: Option<Response>): SampleResult {
    match response
    case None => SampleResult(id, false, false, false, false, false, sample.required, [])
    case Some(r) =>
      var missing := Lacking(sample.required, r.cited);
      var found := Occurring(fold, sample.forbidden, r.text);
      var root, priority := r.rootCause == sample.rootCause, r.priority == sample.priority;
      SampleResult(id, root && missing == [] && found == [] && priority, root, missing == [], found == [], priority, missing, found)
  }

  function Judged(fold: string -> string, samples: Items<string, Sample>, responses: Items<string, Response>): (r: seq<SampleResult>)
    ensures |r| == |samples|
    ensures forall i :: 0 <= i < |r| ==> r[i] == Judge(fold, samples[i].0, samples[i].1, Find(responses, samples[i].0))
  {
    seq(|samples|, i requires 0 <= i < |samples| => Judge(fold, samples[i].0, samples[i].1, Find(responses, samples[i].0)))
  }

  /** What evaluation demands of its inputs beside indexable cases and responses. */
  predicate Matching(d: Dataset, r: Responses) {
    && r.datasetId == d.id && r.datasetVersion == d.version && d.id.Some? && d.version.Some?
    && (forall i :: 0 <= i < |r.responses| ==> r.responses[i].0 in Keys(d.samples))
    && (forall i :: 0 <= i < |d.samples| ==> Judgeable(d.samples[i].1, Find(r.responses, d.samples[i].0)))
    && d.samples != []
    && r.run.Some? && IsText(r.run.value.model) && IsText(r.run.value.prompt) && IsText(r.run.value.retrieval)
  }

  predicate Evaluable(d: Dataset, r: Responses) {
    Indexable(d.samples) && Indexable(r.responses) && Matching(d, r)
  }

  function ReportOf(fold: string -> string, d: Dataset, r: Responses): Report
    requires Matching(d, r)
  {
    var results := Judged(fold, d.samples, r.responses);
    Report(d.id.value, d.version.value, r.run.value, All(results), MetricsOf(results), results)
  }

  /** The report of an evaluation, or nothing when it raises. */
  function Evaluated(fold: string -> string, d: Dataset, r: Responses): Option<Report> {
    if Evaluable(d, r) then Some(ReportOf(fold, d, r)) else None
  }

  method Evaluate(fold: string -> string, d: Dataset, r: Responses) returns (report: Option<Report>)
    ensures report == Evaluated(fold, d, r)
  {
    hide Indexable;
    hide Matching;
    var samples := IndexedItems(d.samples);
    if samples.None? { return None; }
    var actual := IndexedItems(r.responses);
    if actual.None? || !Matching(d, r) { return None; }
    report := Some(ReportOf(fold, d.(samples := samples.value), r.(responses := actual.value)));
  }

  // ---------------------------------------------------------------- what a report says of a case

  lemma {:induction false} LackingIs(wanted: seq<string>, have: seq<string>, x: string)
    ensures x in Lacking(wanted, have) <==> x in wanted && x !in have
  {
    if wanted != [] { LackingIs(wanted[1..], have, x); }
  }

  lemma {:induction false} OccurringIs(fold: string -> string, claims: seq<string>, text: string, x: string)
    ensures x in Occurring(fold, claims, text) <==> x in claims && Contains(fold(text), fold(x))
  {
    hide Contains;
    if claims != [] { OccurringIs(fold, claims[1..], text, x); }
  }

  lemma EmptyMeansNone(s: seq<string>)
    ensures s == [] <==> forall x :: x !in s
  {
    if s != [] { assert s[0] in s; }
  }

  /**
   A case passes exactly when it was answered with the expected root cause and priority, every
   required evidence cited and no forbidden claim made; each part passes on its own terms, and none
   without an answer.
   */
  lemma PassesExactly(fold: string -> string, id: string, sample: Sample, response: Option<Response>)
    ensures Judge(fold, id, sample, response).passed <==>
              && response.Some? && response.value.rootCause == sample.rootCause && response.value.priority == sample.priority
              && (forall x :: x in sample.required ==> x in response.value.cited)
              && (forall x :: x in sample.forbidden ==> !Contains(fold(response.value.text), fold(x)))
    ensures var r := Judge(fold, id, sample, response);
            && (r.rootCausePassed <==> response.Some? && response.value.rootCause == sample.rootCause)
            && (r.priorityPassed <==> response.Some? && response.value.priority == sample.priority)
            && (r.evidencePassed <==> response.Some? && forall x :: x in sample.required ==> x in response.value.cited)
            && (r.claimsPassed <==> response.Some? && forall x :: x in sample.forbidden ==> !Contains(fold(response.value.text), fold(x)))
  {
    hide Contains;
    if response.Some? {
      var missing := Lacking(sample.required, response.value.cited);
      var found := Occurring(fold, sample.forbidden, response.value.text);
      EmptyMeansNone(missing);
      EmptyMeansNone(found);
      forall x ensures x in missing <==> x in sample.required && x !in response.value.cited {
        LackingIs(sample.required, response.value.cited, x);
      }
      forall x ensures x in found <==> x in sample.forbidden && Contains(fold(response.value.text), fold(x)) {
        OccurringIs(fold, sample.forbidden, response.value.text, x);
      }
    }
  }

  // ---------------------------------------------------------------- rates

  lemma {:induction false} CountBounds(results: seq<SampleResult>, m: Metric)
    ensures Count(results, m) <= |results|
  {
    if results != [] { CountBounds(results[..|results| - 1], m); }
  }

  lemma {:induction false} CountFull(results: seq<SampleResult>, m: Metric)
    ensures Count(results, m) == |results| <==> forall i :: 0 <= i < |results| ==> Field(results[i], m)
  {
    if results != [] {
      CountFull(results[..|results| - 1], m);
      CountBounds(results[..|results| - 1], m);
    }
  }

  /** A result counts as passed only with all its parts. */
  ghost predicate Coherent(r: SampleResult) {
    r.passed <==> r.rootCausePassed && r.evidencePassed && r.claimsPassed && r.priorityPassed
  }

  lemma {:induction false} OverallCount(results: seq<SampleResult>, m: Metric)
    requires forall i :: 0 <= i < |results| ==> Coherent(results[i])
    ensures Count(results, OverallPass) <= Count(results, m)
  {
    if results != [] {
      OverallCount(results[..|results| - 1], m);
      assert Coherent(results[|results| - 1]);
    }
  }

  lemma JudgedCoherent(fold: string -> string, samples: Items<string, Sample>, responses: Items<string, Response>)
    ensures forall i :: 0 <= i < |samples| ==> Coherent(Judged(fold, samples, responses)[i])
  {}

  lemma MetricIsRatio(results: seq<SampleResult>, m: Metric)
    requires results != []
    ensures MetricsOf(results).Of(m) == Ratio(Count(results, m), |results|)
  {}

  /** Every rate of a report lies in [0, 1], none is below the overall rate, and the report passed exactly when that is 1. */
  lemma RatesOfReport(fold: string -> string, d: Dataset, r: Responses, m: Metric)
    requires Evaluated(fold, d, r).Some?
    ensures var report := Evaluated(fold, d, r).value;
            && 0.0 <= report.metrics.overall <= report.metrics.Of(m) <= 1.0
            && (report.passed <==> report.metrics.overall == 1.0)
  {
    hide Ratio;
    var results := Evaluated(fold, d, r).value.samples;
    var n := |results|;
    JudgedCoherent(fold, d.samples, r.responses);
    OverallCount(results, m);
    CountBounds(results, m);
    CountFull(results, OverallPass);
    MetricIsRatio(results, m);
    MetricIsRatio(results, OverallPass);
    RatioInUnit(Count(results, OverallPass), n);
    RatioInUnit(Count(results, m), n);
    RatioOrder(Count(results, OverallPass), Count(results, m), n);
    RatioOne(Count(results, OverallPass), n);
  }

  lemma RatioOne(k: nat, n: nat)
    requires n >= 1
    ensures Ratio(k, n) == 1.0 <==> k == n
  {}

  ghost function Hits(results: seq<SampleResult>, m: Metric): set<nat> {
    set i: nat | i < |results| && Field(results[i], m)
  }

  lemma HitsSnoc(results: seq<SampleResult>, m: Metric)
    requires results != []
    ensures var last := |results| - 1;
            && Hits(results, m) == Hits(results[..last], m) + (if Field(results[last], m) then {last} else {})
            && last !in Hits(results[..last], m)
  {
    hide Field;
    var init := results[..|results| - 1];
    assert forall i :: 0 <= i < |init| ==> init[i] == results[i];
  }

  lemma {:induction false} CountIs(results: seq<SampleResult>, m: Metric)
    ensures Count(results, m) == |Hits(results, m)|
  {
    if results == [] {
      assert Hits(results, m) == {};
    } else {
      CountIs(results[..|results| - 1], m);
      HitsSnoc(results, m);
      hide Hits;
    }
  }

  lemma RateIs(results: seq<SampleResult>, m: Metric)
    requires results != []
    ensures MetricsOf(results).Of(m) == Ratio(|Hits(results, m)|, |results|)
  {
    MetricIsRatio(results, m);
    CountIs(results, m);
  }

  /** Each rate is the part of the cases that passed on its own terms. */
  lemma RatesMean(results: seq<SampleResult>)
    requires results != []
    ensures var metrics, n := MetricsOf(results), |results|;
            && metrics.count == |results|
            && metrics.rootCauseHit == Ratio(|set i: nat | i < |results| && results[i].rootCausePassed|, n)
            && metrics.evidencePass == Ratio(|set i: nat | i < |results| && results[i].evidencePassed|, n)
            && metrics.claimFree == Ratio(|set i: nat | i < |results| && results[i].claimsPassed|, n)
            && metrics.priorityMatch == Ratio(|set i: nat | i < |results| && results[i].priorityPassed|, n)
            && metrics.overall == Ratio(|set i: nat | i < |results| && results[i].passed|, n)
  {
    hide Ratio;
    hide Count;
    RateIs(results, RootCauseHit);
    RateIs(results, EvidencePass);
    RateIs(results, ClaimFree);
    RateIs(results, PriorityMatch);
    RateIs(results, OverallPass);
    SameHits(results);
  }

  lemma SameHits(results: seq<SampleResult>)
    ensures Hits(results, RootCauseHit) == set i: nat | i < |results| && results[i].rootCausePassed
    ensures Hits(results, EvidencePass) == set i: nat | i < |results| && results[i].evidencePassed
    ensures Hits(results, ClaimFree) == set i: nat | i < |results| && results[i].claimsPassed
    ensures Hits(results, PriorityMatch) == set i: nat | i < |results| && results[i].priorityPassed
    ensures Hits(results, OverallPass) == set i: nat | i < |results| && results[i].passed
  {}

  /** What is missing and what is found keep the order of the dataset. */
  lemma {:induction false} LackingInOrder(a: seq<string>, b: seq<string>, have: seq<string>)
    ensures Lacking(a + b, have) == Lacking(a, have) + Lacking(b, have)
  {
    if a == [] {
      assert a + b == b && Lacking(a, have) == [];
    } else {
      assert (a + b)[1..] == a[1..] + b && (a + b)[0] == a[0];
      LackingInOrder(a[1..], b, have);
      ConcatAssociates(if a[0] in have then [] else [a[0]], Lacking(a[1..], have), Lacking(b, have));
    }
  }

  lemma {:induction false} OccurringInOrder(fold: string -> string, a: seq<string>, b: seq<string>, text: string)
    ensures Occurring(fold, a + b, text) == Occurring(fold, a, text) + Occurring(fold, b, text)
  {
    hide Contains;
    if a == [] {
      assert a + b == b && Occurring(fold, a, text) == [];
    } else {
      assert (a + b)[1..] == a[1..] + b && (a + b)[0] == a[0];
      OccurringInOrder(fold, a[1..], b, text);
      ConcatAssociates(if Contains(fold(text), fold(a[0])) then [a[0]] else [], Occurring(fold, a[1..], text), Occurring(fold, b, text));
    }
  }

  /** The response to a case is the one under its identifier. */
  lemma FindMeans(responses: Items<string, Response>, id: string, response: Response)
    requires NoDuplicates(Keys(responses))
    ensures Find(responses, id) == Some(response) <==> (id, response) in responses
  {
    if (id, response) in responses {
      var n :| 0 <= n < |responses| && responses[n] == (id, response);
      IndexAt<string, Response>(responses, n);
    }
  }

  /** The report lists the cases of the dataset in order, each with what it lacks and what it claims though forbidden. */
  lemma ReportLists(fold: string -> string, d: Dataset, r: Responses, i: nat, x: string)
    requires Evaluated(fold, d, r).Some? && i < |d.samples|
    ensures var report := Evaluated(fold, d, r).value;
            var (id, sample) := d.samples[i];
            var response := Find(r.responses, id);
            && |report.samples| == |d.samples| && report.samples[i].caseId == id
            && report.datasetId == d.id.value && report.version == d.version.value && report.run == r.run.value
            && (x in report.samples[i].missing <==> x in sample.required && (response.Some? ==> x !in response.value.cited))
            && (x in report.samples[i].found <==>
                  response.Some? && x in sample.forbidden && Contains(fold(response.value.text), fold(x)))
  {
    hide Contains;
    hide Matching;
    hide Indexable;
    var (id, sample) := d.samples[i];
    var response := Find(r.responses, id);
    if response.Some? {
      LackingIs(sample.required, response.value.cited, x);
      OccurringIs(fold, sample.forbidden, response.value.text, x);
    }
  }

  /** What is evaluated fits together: responses to this dataset and version, to its cases, of a run, and no case or response twice. */
  lemma EvaluatedFits(fold: string -> string, d: Dataset, r: Responses)
    requires Evaluated(fold, d, r).Some?
    ensures r.datasetId == d.id && r.datasetVersion == d.version && d.id.Some? && d.version.Some? && r.run.Some? && d.samples != []
    ensures forall i :: 0 <= i < |r.responses| ==> exists j :: 0 <= j < |d.samples| && d.samples[j].0 == r.responses[i].0
    ensures forall i, j :: 0 <= i < j < |d.samples| ==> d.samples[i].0 != d.samples[j].0
    ensures forall i, j :: 0 <= i < j < |r.responses| ==> r.responses[i].0 != r.responses[j].0
    ensures forall i :: 0 <= i < |d.samples| ==> IsText(d.samples[i].0)
  {
    hide IsText;
    hide Judgeable;
    assert NoDuplicates(Keys(d.samples)) && NoDuplicates(Keys(r.responses));
    forall i | 0 <= i < |d.samples| ensures IsText(d.samples[i].0) { assert IsText(Keys(d.samples)[i]); }
    forall i, j | 0 <= i < j < |d.samples| ensures d.samples[i].0 != d.samples[j].0 {
      assert Keys(d.samples)[i] != Keys(d.samples)[j];
    }
    forall i, j | 0 <= i < j < |r.responses| ensures r.responses[i].0 != r.responses[j].0 {
      assert Keys(r.responses)[i] != Keys(r.responses)[j];
    }
    forall i | 0 <= i < |r.responses| ensures exists j :: 0 <= j < |d.samples| && d.samples[j].0 == r.responses[i].0 {
      assert r.responses[i].0 in Keys(d.samples);
      var j :| 0 <= j < |d.samples| && Keys(d.samples)[j] == r.responses[i].0;
      assert d.samples[j].0 == r.responses[i].0;
    }
  }
}
