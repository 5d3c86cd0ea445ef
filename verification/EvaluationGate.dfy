/** The release gate: validating two evaluation reports and comparing them under a policy. */
module EvaluationGate {
  import opened Outcomes
  import opened OrderedDict
  import opened Text
  import opened Rates
  import opened Evaluation
  import Decimal

  // ---------------------------------------------------------------- validating

  /** A non-empty text without any white space. */
  predicate IsStable(s: string) {
    IsText(s) && forall i :: 0 <= i < |s| ==> !IsSpace(s[i])
  }

  function Abs(x: real): real { if x < 0.0 then -x else x }

  function Max(x: real, y: real): real { if x < y then y else x }

  /** `math.isclose` with its default relative tolerance and the absolute one given here. */
  predicate IsClose(a: real, b: real) {
    Abs(a - b) <= Max(Max(Abs(a), Abs(b)) / 1_000_000_000.0, 1.0 / 1_000_000_000_000.0)
  }

  predicate ValidSample(s: SampleResult) {
    var parts := s.rootCausePassed || s.evidencePassed || s.claimsPassed || s.priorityPassed;
    && IsStable(s.caseId) && UniqueTexts(s.missing) && UniqueTexts(s.found)
    && (parts || s.found != [] ==> s.evidencePassed == (s.missing == []) && s.claimsPassed == (s.found == []))
    && (s.passed <==> s.rootCausePassed && s.evidencePassed && s.claimsPassed && s.priorityPassed)
  }

  predicate DistinctCases(samples: seq<SampleResult>) {
    forall i, j :: 0 <= i < j < |samples| ==> samples[i].caseId != samples[j].caseId
  }

  predicate ValidRate(x: real) { 0.0 <= x <= 1.0 }

  predicate MetricFits(report: Report, m: Metric)
    requires report.samples != []
  {
    ValidRate(report.metrics.Of(m)) && IsClose(report.metrics.Of(m), Ratio(Count(report.samples, m), |report.samples|))
  }

  /** What `_validate_report` accepts. */
  predicate Accepts(report: Report) {
    && IsStable(report.datasetId) && IsStable(report.version)
    && IsStable(report.run.model) && IsStable(report.run.prompt) && IsStable(report.run.retrieval)
    && report.samples != []
    && (forall i :: 0 <= i < |report.samples| ==> ValidSample(report.samples[i]))
    && DistinctCases(report.samples)
    && report.metrics.count == |report.samples|
    && MetricFits(report, RootCauseHit) && MetricFits(report, EvidencePass) && MetricFits(report, ClaimFree)
    && MetricFits(report, PriorityMatch) && MetricFits(report, OverallPass)
    && (report.passed <==> All(report.samples))
  }

  // ---------------------------------------------------------------- comparing

  datatype Policy = Policy(minimum: real, safety: real, noRegression: bool) {
    predicate Valid() {
      ValidRate(minimum) && ValidRate(safety) && minimum >= 0.95 && safety == 1.0 && noRegression
    }
  }

  predicate SameCases(a: seq<SampleResult>, b: seq<SampleResult>) {
    |a| == |b| && forall i :: 0 <= i < |a| ==> a[i].caseId == b[i].caseId
  }

  predicate Comparable(a: Report, b: Report) {
    && a.datasetId == b.datasetId && a.version == b.version && SameCases(a.samples, b.samples)
    && a.run != b.run
  }

  predicate NoRegression(a: Metrics, b: Metrics) {
    && b.rootCauseHit >= a.rootCauseHit && b.evidencePass >= a.evidencePass && b.claimFree >= a.claimFree
    && b.priorityMatch >= a.priorityMatch && b.overall >= a.overall
  }

  /** Whether the candidate passes, or nothing when the comparison raises. */
  function Compare(baseline: Report, candidate: Report, policy: Policy): Option<bool> {
    if !Accepts(baseline) || !Accepts(candidate) || !policy.Valid() || !Comparable(baseline, candidate) then None
    else Some(candidate.metrics.overall >= policy.minimum && candidate.metrics.claimFree == policy.safety
              && NoRegression(baseline.metrics, candidate.metrics))
  }

  // ---------------------------------------------------------------- the producer and the validator agree

  lemma {:induction false} LackingTexts(wanted: seq<string>, have: seq<string>)
    requires UniqueTexts(wanted)
    ensures UniqueTexts(Lacking(wanted, have))
  {
    hide IsText;
    if wanted != [] {
      assert forall i :: 0 <= i < |wanted[1..]| ==> wanted[1..][i] == wanted[i + 1];
      LackingTexts(wanted[1..], have);
      var rest := Lacking(wanted[1..], have);
      forall i | 0 <= i < |rest| ensures rest[i] != wanted[0] {
        LackingIs(wanted[1..], have, rest[i]);
      }
    }
  }

  lemma {:induction false} OccurringTexts(fold: string -> string, claims: seq<string>, text: string)
    requires UniqueTexts(claims)
    ensures UniqueTexts(Occurring(fold, claims, text))
  {
    hide IsText;
    hide Contains;
    if claims != [] {
      assert forall i :: 0 <= i < |claims[1..]| ==> claims[1..][i] == claims[i + 1];
      OccurringTexts(fold, claims[1..], text);
      var rest := Occurring(fold, claims[1..], text);
      forall i | 0 <= i < |rest| ensures rest[i] != claims[0] {
        OccurringIs(fold, claims[1..], text, rest[i]);
      }
    }
  }

  lemma JudgedSampleIsValid(fold: string -> string, id: string, sample: Sample, response: Option<Response>)
    requires Judgeable(sample, response)
    ensures ValidSample(Judge(fold, id, sample, response)) <==> IsStable(id)
  {
    hide UniqueTexts;
    NothingUnique();
    if response.Some? {
      LackingTexts(sample.required, response.value.cited);
      OccurringTexts(fold, sample.forbidden, response.value.text);
    }
  }

  lemma NothingUnique()
    ensures UniqueTexts([])
  {}

  lemma SameIsClose(x: real)
    ensures IsClose(x, x)
  {
    assert Abs(x - x) == 0.0;
  }

  lemma OwnMetricFits(report: Report, m: Metric)
    requires report.samples != [] && report.metrics == MetricsOf(report.samples)
    ensures MetricFits(report, m)
  {
    hide IsClose;
    MetricIsRatio(report.samples, m);
    CountBounds(report.samples, m);
    RatioInUnit(Count(report.samples, m), |report.samples|);
    SameIsClose(report.metrics.Of(m));
  }

  lemma OwnMetricsFit(report: Report)
    requires report.samples != [] && report.metrics == MetricsOf(report.samples)
    ensures MetricFits(report, RootCauseHit) && MetricFits(report, EvidencePass) && MetricFits(report, ClaimFree)
    ensures MetricFits(report, PriorityMatch) && MetricFits(report, OverallPass)
  {
    OwnMetricFits(report, RootCauseHit);
    OwnMetricFits(report, EvidencePass);
    OwnMetricFits(report, ClaimFree);
    OwnMetricFits(report, PriorityMatch);
    OwnMetricFits(report, OverallPass);
  }

  /** The identifiers and versions that must be non-empty and without any white space. */
  ghost predicate StableNames(report: Report) {
    && IsStable(report.datasetId) && IsStable(report.version)
    && IsStable(report.run.model) && IsStable(report.run.prompt) && IsStable(report.run.retrieval)
    && forall i :: 0 <= i < |report.samples| ==> IsStable(report.samples[i].caseId)
  }

  lemma JudgedCases(fold: string -> string, d: Dataset, r: Responses)
    requires Evaluated(fold, d, r).Some?
    ensures var samples := Evaluated(fold, d, r).value.samples;
            && |samples| == |d.samples| && (forall i :: 0 <= i < |samples| ==> samples[i].caseId == d.samples[i].0)
            && DistinctCases(samples)
            && (forall i :: 0 <= i < |samples| ==> (ValidSample(samples[i]) <==> IsStable(samples[i].caseId)))
  {
    var samples := Evaluated(fold, d, r).value.samples;
    assert NoDuplicates(Keys(d.samples));
    forall i | 0 <= i < |samples| ensures ValidSample(samples[i]) <==> IsStable(samples[i].caseId) {
      hide ValidSample;
      hide IsStable;
      JudgedSampleIsValid(fold, d.samples[i].0, d.samples[i].1, Find(r.responses, d.samples[i].0));
      assert samples[i].caseId == d.samples[i].0;
    }
  }

  /**
   The gate's validator accepts a report of the evaluation exactly when every identifier and version in
   it is non-empty and without white space. Evaluation itself demands less: names of cases and versions
   of the run are non-empty and trimmed, and the dataset's identifier and version are any texts.
   */
  lemma ValidatorAgreesExactly(fold: string -> string, d: Dataset, r: Responses)
    requires Evaluated(fold, d, r).Some?
    ensures var report := Evaluated(fold, d, r).value; Accepts(report) <==> StableNames(report)
  {
    var report := Evaluated(fold, d, r).value;
    assert report.samples != [] && report.metrics == MetricsOf(report.samples) && (report.passed <==> All(report.samples));
    hide Evaluated;
    hide ValidSample;
    hide IsStable;
    hide MetricFits;
    hide DistinctCases;
    hide MetricsOf;
    JudgedCases(fold, d, r);
    OwnMetricsFit(report);
    MetricsCount(report.samples);
  }

  /** It can happen: a case called "a b" is evaluated, and the gate rejects the report. */
  lemma InnerSpaceIsRejected(fold: string -> string)
    ensures var d := Dataset(Some("d"), Some("v1"), [("a b", Sample(None, None, [], []))]);
            var r := Responses(Some("d"), Some("v1"), Some(Run("m", "p", "r")), []);
            Evaluated(fold, d, r).Some? && !Accepts(Evaluated(fold, d, r).value)
  {
    var d := Dataset(Some("d"), Some("v1"), [("a b", Sample(None, None, [], []))]);
    var r := Responses(Some("d"), Some("v1"), Some(Run("m", "p", "r")), []);
    OneCaseIsEvaluable(d, r);
    hide Evaluable;
    var report := Evaluated(fold, d, r).value;
    assert report.samples[0].caseId == "a b" && IsSpace("a b"[1]);
    assert !IsStable("a b");
    ValidatorAgreesExactly(fold, d, r);
  }

  /** A dataset without a name is evaluated as well, and the gate rejects the report. */
  lemma EmptyIdentifierIsRejected(fold: string -> string)
    ensures var d := Dataset(Some(""), Some("v1"), [("a", Sample(None, None, [], []))]);
            var r := Responses(Some(""), Some("v1"), Some(Run("m", "p", "r")), []);
            Evaluated(fold, d, r).Some? && !Accepts(Evaluated(fold, d, r).value)
  {
    var d := Dataset(Some(""), Some("v1"), [("a", Sample(None, None, [], []))]);
    var r := Responses(Some(""), Some("v1"), Some(Run("m", "p", "r")), []);
    OneCaseIsEvaluable(d, r);
    hide Evaluable;
    ValidatorAgreesExactly(fold, d, r);
  }

  /** A case that expects nothing, without an answer, is always evaluated. */
  lemma OneCaseIsEvaluable(d: Dataset, r: Responses)
    requires d.id.Some? && d.version.Some? && |d.samples| == 1 && IsText(d.samples[0].0) && r.responses == []
    requires d.samples[0].1 == Sample(None, None, [], [])
    requires r.datasetId == d.id && r.datasetVersion == d.version && r.run.Some?
    requires IsText(r.run.value.model) && IsText(r.run.value.prompt) && IsText(r.run.value.retrieval)
    ensures Evaluable(d, r)
  {
    hide IsText;
    assert Keys(d.samples) == [d.samples[0].0] && Keys(r.responses) == [];
    assert Find(r.responses, d.samples[0].0).None?;
  }

  lemma MetricsCount(samples: seq<SampleResult>)
    requires samples != []
    ensures MetricsOf(samples).count == |samples|
  {}

  // ---------------------------------------------------------------- the tolerance

  /** A reported rate of 1 hides a failed case exactly from a thousand million cases on. */
  lemma FullRateExactly(n: nat)
    requires n >= 1
    ensures (forall k: nat :: k <= n && IsClose(1.0, Ratio(k, n)) ==> k == n) <==> n < 1_000_000_000
  {
    if n < 1_000_000_000 {
      forall k: nat | k <= n && IsClose(1.0, Ratio(k, n)) ensures k == n {
        CloseMeansFull(k, n);
      }
    } else {
      HiddenFailure(n);
      assert n - 1 <= n;
    }
  }

  lemma UnitDistance(k: nat, n: nat)
    requires n >= 1 && k <= n
    ensures IsClose(1.0, Ratio(k, n)) <==> 1.0 - Ratio(k, n) <= 1.0 / 1_000_000_000.0
  {
    RatioInUnit(k, n);
  }

  lemma MissingPart(k: nat, n: nat)
    requires n >= 1 && k <= n
    ensures 1.0 - Ratio(k, n) == Ratio(n - k, n)
  {
    RatioSum(k, n - k, n);
    RatioUnit(n);
  }

  lemma CloseMeansFull(k: nat, n: nat)
    requires 1 <= n < 1_000_000_000 && k <= n && IsClose(1.0, Ratio(k, n))
    ensures k == n
  {
    UnitDistance(k, n);
    MissingPart(k, n);
    if k < n {
      RatioOrder(1, n - k, n);
      SmallUnit(n);
      assert false;
    }
  }

  lemma SmallUnit(n: nat)
    requires 1 <= n < 1_000_000_000
    ensures Ratio(1, n) > 1.0 / 1_000_000_000.0
  {
    Reciprocal(n as real, 1_000_000_000.0);
  }

  lemma Reciprocal(a: real, b: real)
    requires 0.0 < a < b
    ensures 1.0 / a > 1.0 / b
  {
    assert 1.0 / b * a < 1.0 / b * b == 1.0 == 1.0 / a * a;
  }

  lemma HiddenFailure(n: nat)
    requires n >= 1_000_000_000
    ensures IsClose(1.0, Ratio(n - 1, n))
  {
    UnitDistance(n - 1, n);
    MissingPart(n - 1, n);
    if n > 1_000_000_000 { Reciprocal(1_000_000_000.0, n as real); }
  }

  /** On fewer than a thousand million cases, a candidate that passes has no forbidden claim in any case. */
  lemma PassMeansNoForbiddenClaim(baseline: Report, candidate: Report, policy: Policy, i: nat)
    requires Compare(baseline, candidate, policy) == Some(true)
    requires |candidate.samples| < 1_000_000_000 && i < |candidate.samples|
    ensures candidate.samples[i].claimsPassed
  {
    var samples := candidate.samples;
    assert MetricFits(candidate, ClaimFree) && candidate.metrics.Of(ClaimFree) == 1.0;
    CountBounds(samples, ClaimFree);
    CloseMeansFull(Count(samples, ClaimFree), |samples|);
    CountFull(samples, ClaimFree);
    assert Field(samples[i], ClaimFree);
  }

  /** From a thousand million cases on, an accepted report may claim a full rate over one failed case. */
  lemma LargeReportsMayHideOne(report: Report)
    requires Accepts(report) && |report.samples| >= 1_000_000_000
    requires Count(report.samples, ClaimFree) == |report.samples| - 1
    ensures Accepts(report.(metrics := report.metrics.(claimFree := 1.0)))
  {
    hide ValidSample;
    hide IsStable;
    hide IsClose;
    HiddenFailure(|report.samples|);
  }

  /** The results of n answered cases, of which the first alone fails, by a forbidden claim. */
  function OneForbiddenClaim(n: nat): (r: seq<SampleResult>)
    ensures |r| == n
  {
    seq(n, i requires 0 <= i < n =>
      SampleResult("c" + Decimal.Print(i), i != 0, true, true, i != 0, true, [], if i == 0 then ["x"] else []))
  }

  function LargeReport(n: nat, run: Run): Report
    requires n >= 1
  {
    var samples := OneForbiddenClaim(n);
    Report("d", "v1", run, false, MetricsOf(samples), samples)
  }

  lemma NumberedName(i: nat, j: nat)
    ensures IsStable("c" + Decimal.Print(i))
    ensures i != j ==> "c" + Decimal.Print(i) != "c" + Decimal.Print(j)
  {
    var s, t := "c" + Decimal.Print(i), "c" + Decimal.Print(j);
    assert forall k :: 1 <= k < |s| ==> Decimal.IsDigit(s[k]);
    assert s[1..] == Decimal.Print(i) && t[1..] == Decimal.Print(j);
    Decimal.ValueOfPrint(i);
    Decimal.ValueOfPrint(j);
  }

  lemma {:induction false} CountAllButFirst(results: seq<SampleResult>, m: Metric)
    requires results != [] && !Field(results[0], m) && forall i :: 1 <= i < |results| ==> Field(results[i], m)
    ensures Count(results, m) == |results| - 1
  {
    if |results| > 1 { CountAllButFirst(results[..|results| - 1], m); }
  }

  lemma LargeReportIsAccepted(n: nat, run: Run)
    requires n >= 1 && IsStable(run.model) && IsStable(run.prompt) && IsStable(run.retrieval)
    ensures Accepts(LargeReport(n, run))
  {
    var report := LargeReport(n, run);
    var samples := report.samples;
    assert IsStable(report.datasetId) && IsStable(report.version);
    assert !samples[0].passed;
    assert UniqueTexts([]) && UniqueTexts(["x"]);
    OwnMetricsFit(report);
    hide MetricFits;
    hide UniqueTexts;
    hide IsStable;
    forall i, j | 0 <= i < j < n ensures samples[i].caseId != samples[j].caseId {
      NumberedName(i, j);
    }
    forall i | 0 <= i < n ensures ValidSample(samples[i]) {
      NumberedName(i, i);
    }
  }

  /** From that size on the gate lets a forbidden claim pass: an honest baseline and a candidate with one rate rounded up. */
  lemma LargeReportPasses(n: nat)
    requires n >= 1_000_000_000
    ensures var baseline := LargeReport(n, Run("m", "p", "first"));
            var honest := LargeReport(n, Run("m", "p", "second"));
            var candidate := honest.(metrics := honest.metrics.(claimFree := 1.0));
            Compare(baseline, candidate, Policy(0.95, 1.0, true)) == Some(true) && !candidate.samples[0].claimsPassed
  {
    var samples := OneForbiddenClaim(n);
    var first, second := Run("m", "p", "first"), Run("m", "p", "second");
    assert first.retrieval[0] != second.retrieval[0];
    LargeReportIsAccepted(n, first);
    LargeReportIsAccepted(n, second);
    CountAllButFirst(samples, ClaimFree);
    CountAllButFirst(samples, OverallPass);
    LargeReportsMayHideOne(LargeReport(n, second));
    MetricIsRatio(samples, ClaimFree);
    MetricIsRatio(samples, OverallPass);
    RatioInUnit(n - 1, n);
    AllButOneIsEnough(n);
    hide Accepts;
    hide MetricsOf;
  }

  lemma AllButOneIsEnough(n: nat)
    requires n >= 1_000_000_000
    ensures Ratio(n - 1, n) >= 0.95
  {
    HiddenFailure(n);
    UnitDistance(n - 1, n);
  }

  // ---------------------------------------------------------------- a chain of gates

  /** Passing in two stages is passing at once, provided the first and last run differ at all. */
  lemma PassingIsTransitive(a: Report, b: Report, c: Report, policy: Policy)
    requires Compare(a, b, policy) == Some(true) && Compare(b, c, policy) == Some(true)
    ensures Compare(a, c, policy) == if a.run == c.run then None else Some(true)
  {
    hide Accepts;
  }

  /** Two runs that pass against each other have the same metrics. */
  lemma MutualPassMeansEqual(a: Report, b: Report, policy: Policy)
    requires Compare(a, b, policy) == Some(true) && Compare(b, a, policy) == Some(true)
    ensures a.metrics == b.metrics
  {
    hide ValidSample;
    hide MetricFits;
  }

  predicate NoFewer(a: seq<SampleResult>, b: seq<SampleResult>, m: Metric) {
    Count(b, m) >= Count(a, m)
  }

  /** The counts of the candidate that the gate looks at, for reports of one evaluation dataset. */
  ghost predicate CountsPass(a: seq<SampleResult>, b: seq<SampleResult>, minimum: real)
    requires b != []
  {
    && Ratio(Count(b, OverallPass), |b|) >= minimum
    && (forall i :: 0 <= i < |b| ==> b[i].claimsPassed)
    && forall m :: NoFewer(a, b, m)
  }

  lemma RatioOrderExactly(j: nat, k: nat, n: nat)
    requires n >= 1
    ensures Ratio(j, n) <= Ratio(k, n) <==> j <= k
  {
    if j <= k {
      RatioOrder(j, k, n);
    } else {
      assert (k as real) / (n as real) < (j as real) / (n as real);
    }
  }

  lemma NoRegressionMeans(a: seq<SampleResult>, b: seq<SampleResult>)
    requires a != [] && |a| == |b|
    ensures NoRegression(MetricsOf(a), MetricsOf(b)) <==> forall m :: NoFewer(a, b, m)
  {
    hide Ratio;
    forall m ensures MetricsOf(b).Of(m) >= MetricsOf(a).Of(m) <==> NoFewer(a, b, m) {
      CountsMeanRates(a, b, m);
    }
    assert NoRegression(MetricsOf(a), MetricsOf(b)) <==>
        NoFewer(a, b, RootCauseHit) && NoFewer(a, b, EvidencePass) && NoFewer(a, b, ClaimFree)
        && NoFewer(a, b, PriorityMatch) && NoFewer(a, b, OverallPass);
  }

  lemma CountsMeanRates(a: seq<SampleResult>, b: seq<SampleResult>, m: Metric)
    requires a != [] && |a| == |b|
    ensures MetricsOf(b).Of(m) >= MetricsOf(a).Of(m) <==> NoFewer(a, b, m)
  {
    MetricIsRatio(a, m);
    MetricIsRatio(b, m);
    RatioOrderExactly(Count(a, m), Count(b, m), |a|);
  }

  /**
   Evaluating two runs on one dataset and comparing them decides exactly what it should, for any
   number of cases: enough cases pass, no case makes a forbidden claim, and on no metric do fewer
   cases pass than before.
   */
  lemma GateDecidesExactly(fold: string -> string, d: Dataset, r: Responses, s: Responses, policy: Policy)
    requires Evaluated(fold, d, r).Some? && Evaluated(fold, d, s).Some? && policy.Valid()
    requires StableNames(Evaluated(fold, d, r).value) && StableNames(Evaluated(fold, d, s).value)
    requires r.run != s.run
    ensures var a, b := Evaluated(fold, d, r).value, Evaluated(fold, d, s).value;
            && Compare(a, b, policy).Some?
            && (Compare(a, b, policy) == Some(true) <==> CountsPass(a.samples, b.samples, policy.minimum))
  {
    var a, b := Evaluated(fold, d, r).value, Evaluated(fold, d, s).value;
    var n := |b.samples|;
    assert a.metrics == MetricsOf(a.samples) && b.metrics == MetricsOf(b.samples);
    assert a.samples != [] && a.run != b.run && a.datasetId == b.datasetId && a.version == b.version;
    ValidatorAgreesExactly(fold, d, r);
    ValidatorAgreesExactly(fold, d, s);
    JudgedCases(fold, d, r);
    JudgedCases(fold, d, s);
    hide Evaluated;
    hide Accepts;
    hide StableNames;
    assert Comparable(a, b);
    CompareMeans(a, b, policy);
  }

  lemma CompareMeans(a: Report, b: Report, policy: Policy)
    requires Accepts(a) && Accepts(b) && policy.Valid() && Comparable(a, b)
    requires a.samples != [] && b.samples != [] && a.metrics == MetricsOf(a.samples) && b.metrics == MetricsOf(b.samples)
    ensures Compare(a, b, policy).Some?
    ensures Compare(a, b, policy) == Some(true) <==> CountsPass(a.samples, b.samples, policy.minimum)
  {
    hide Accepts;
    hide Ratio;
    hide NoRegression;
    var n := |b.samples|;
    NoRegressionMeans(a.samples, b.samples);
    RatioOne(Count(b.samples, ClaimFree), n);
    CountFull(b.samples, ClaimFree);
    MetricIsRatio(b.samples, ClaimFree);
    MetricIsRatio(b.samples, OverallPass);
    assert forall i :: 0 <= i < n ==> (Field(b.samples[i], ClaimFree) <==> b.samples[i].claimsPassed);
    assert b.metrics.claimFree == 1.0 <==> forall i :: 0 <= i < n ==> b.samples[i].claimsPassed;
    assert b.metrics.overall == Ratio(Count(b.samples, OverallPass), n);
    assert NoRegression(a.metrics, b.metrics) <==> forall m :: NoFewer(a.samples, b.samples, m);
  }

  // ---------------------------------------------------------------- what an accepted report guarantees

  lemma CloseMeansNear(a: real, b: real)
    requires ValidRate(a) && ValidRate(b) && IsClose(a, b)
    ensures -0.000000001 <= a - b <= 0.000000001
  {}

  lemma FitMeansNear(report: Report, m: Metric)
    requires report.samples != [] && MetricFits(report, m)
    ensures -0.000000001 <= report.metrics.Of(m) - Ratio(|Hits(report.samples, m)|, |report.samples|) <= 0.000000001
  {
    CountIs(report.samples, m);
    CountBounds(report.samples, m);
    RatioInUnit(Count(report.samples, m), |report.samples|);
    CloseMeansNear(report.metrics.Of(m), Ratio(Count(report.samples, m), |report.samples|));
  }

  /**
   An accepted report is honest: it passed exactly if all its cases did, a case exactly if its parts did, a case with any
   part passed or any claim found has consistent lists, no case is listed twice, and every rate is within a thousand
   millionth of the part of its cases that passed on that term.
   */
  lemma AcceptedIsHonest(report: Report, i: nat, m: Metric)
    requires Accepts(report) && i < |report.samples|
    ensures report.metrics.count == |report.samples|
    ensures report.passed <==> forall j :: 0 <= j < |report.samples| ==> report.samples[j].passed
    ensures var s := report.samples[i];
            && (s.passed <==> s.rootCausePassed && s.evidencePassed && s.claimsPassed && s.priorityPassed)
            && (s.evidencePassed ==> s.missing == []) && (s.claimsPassed ==> s.found == [])
            && (s.rootCausePassed || s.priorityPassed ==> (s.evidencePassed <==> s.missing == []) && (s.claimsPassed <==> s.found == []))
    ensures forall j :: 0 <= j < |report.samples| && report.samples[j].caseId == report.samples[i].caseId ==> j == i
    ensures -0.000000001 <= report.metrics.Of(m) - Ratio(|Hits(report.samples, m)|, |report.samples|) <= 0.000000001
  {
    assert MetricFits(report, m) by { match m case _ => }
    FitMeansNear(report, m);
    assert ValidSample(report.samples[i]);
    hide MetricFits;
    hide IsStable;
    hide Ratio;
    hide Hits;
  }

  /** Reports of different datasets, versions or cases, or of one run, are not compared, nor is a policy that is too lax. */
  lemma IncomparableIsRefused(a: Report, b: Report, policy: Policy)
    requires || a.datasetId != b.datasetId || a.version != b.version || a.run == b.run || |a.samples| != |b.samples|
             || (exists i :: 0 <= i < |a.samples| && i < |b.samples| && a.samples[i].caseId != b.samples[i].caseId)
             || policy.minimum < 0.95 || policy.minimum > 1.0 || policy.safety != 1.0 || !policy.noRegression
    ensures Compare(a, b, policy).None?
  {
    hide Accepts;
  }
}
