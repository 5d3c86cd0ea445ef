/** From curation to the gate: what any number of curations hands on. */
module CurationPipeline {
  import opened Outcomes
  import opened OrderedDict
  import opened Text
  import opened DatasetCuration
  import Decimal
  import Evaluation
  import Gate = EvaluationGate

  // ---------------------------------------------------------------- no leaks

  /**
   After any number of curations no text of an added sample contains an identifier of the candidate it
   was made from, in any case; in particular none of its published evidence does.
   */
  lemma {:induction false} ManyCurationsDoNotLeak(words: Words, d: Dataset, steps: seq<(Candidate, Review)>, k: nat, text: string,
                                                  i: nat, internal: string)
    requires ValidDataset(d) && CurateAll(words, d, steps).Some? && k < |steps| && internal in InternalIds(steps[k].0)
    ensures |CurateAll(words, d, steps).value.samples| == |d.samples| + |steps|
    ensures var s := CurateAll(words, d, steps).value.samples[|d.samples| + k];
            && (text in Texts(s) ==> !Leaks(words, text, internal))
            && (i < |s.evidence| ==>
                  && !Leaks(words, s.evidence[i].id, internal) && !Leaks(words, s.evidence[i].source, internal)
                  && !Leaks(words, s.evidence[i].summary, internal))
  {
    hide Leaks;
    hide ValidDataset;
    hide Curate;
    hide Texts;
    hide InternalIds;
    ManyCurations(words, d, steps);
    var init, last := steps[..|steps| - 1], steps[|steps| - 1];
    var before := CurateAll(words, d, init).value;
    ManyCurations(words, d, init);
    CurationKeepsValidity(words, before, last.0, last.1);
    if k < |init| {
      ManyCurationsDoNotLeak(words, d, init, k, text, i, internal);
    } else {
      CurationDoesNotLeak(words, before, last.0, last.1, text, i, internal);
    }
  }

  lemma CurationDoesNotLeak(words: Words, d: Dataset, c: Candidate, r: Review, text: string, i: nat, internal: string)
    requires Curate(words, d, c, r).Some? && internal in InternalIds(c)
    ensures var s := SampleOf(r.sample);
            && (text in Texts(s) ==> !Leaks(words, text, internal))
            && (i < |s.evidence| ==>
                  && !Leaks(words, s.evidence[i].id, internal) && !Leaks(words, s.evidence[i].source, internal)
                  && !Leaks(words, s.evidence[i].summary, internal))
  {
    hide Leaks;
    hide Texts;
    hide InternalIds;
    hide Curatable;
    if text in Texts(SampleOf(r.sample)) { NoLeakMeans(words, d, c, r, text, internal); }
    if i < |r.sample.evidence| { PublishedItemsDoNotLeak(words, d, c, r, i, internal); }
  }

  /** A text of a sample: a name, its summary, a part of its evidence or of what is expected of it. */
  predicate IsTextOf(s: Sample, text: string) {
    || text == s.caseId || text == s.tenant || text == s.service || text == s.summary
    || (exists i :: 0 <= i < |s.evidence| && (text == s.evidence[i].id || text == s.evidence[i].source || text == s.evidence[i].summary))
    || text == s.expected.rootCause || text in s.expected.required || text in s.expected.forbidden || text == s.expected.priority
  }

  /** An internal identifier: of the case, run, incident, report or feedback, or of required evidence. */
  predicate IsInternal(c: Candidate, text: string) {
    text == c.caseId || text == c.run || text == c.incident || text == c.report || text == c.feedback || text in c.requiredIds
  }

  lemma TextsAreAll(s: Sample, text: string)
    requires IsTextOf(s, text)
    ensures text in Texts(s)
  {
    if i :| 0 <= i < |s.evidence| && (text == s.evidence[i].id || text == s.evidence[i].source || text == s.evidence[i].summary) {
      ItemTextsHold(s.evidence, i);
    }
    var names, cause, priority := [s.caseId, s.tenant, s.service, s.summary], [s.expected.rootCause], [s.expected.priority];
    assert names[0] == s.caseId && names[1] == s.tenant && names[2] == s.service && names[3] == s.summary;
    assert cause[0] == s.expected.rootCause && priority[0] == s.expected.priority;
    assert Texts(s) == names + ItemTexts(s.evidence) + cause + s.expected.required + s.expected.forbidden + priority;
    hide ItemTexts;
  }

  lemma InternalsAreAll(c: Candidate, text: string)
    requires IsInternal(c, text)
    ensures text in InternalIds(c)
  {
    var names := [c.caseId, c.run, c.incident, c.report, c.feedback];
    assert names[0] == c.caseId && names[1] == c.run && names[2] == c.incident && names[3] == c.report && names[4] == c.feedback;
    assert InternalIds(c) == names + c.requiredIds;
  }

  /**
   After any number of curations no field of an added sample contains, in any case, an internal identifier of the
   candidate it was made from.
   */
  lemma AddedSamplesDoNotLeak(words: Words, d: Dataset, steps: seq<(Candidate, Review)>, k: nat, text: string, internal: string)
    requires ValidDataset(d) && CurateAll(words, d, steps).Some? && k < |steps| && IsInternal(steps[k].0, internal)
    ensures |CurateAll(words, d, steps).value.samples| == |d.samples| + |steps|
    ensures IsTextOf(CurateAll(words, d, steps).value.samples[|d.samples| + k], text) ==>
              !Contains((words.fold)(text), (words.fold)(internal))
  {
    hide ValidDataset;
    hide Curate;
    hide IsTextOf;
    hide Contains;
    hide Texts;
    InternalsAreAll(steps[k].0, internal);
    ManyCurationsDoNotLeak(words, d, steps, k, text, 0, internal);
    var s := CurateAll(words, d, steps).value.samples[|d.samples| + k];
    if IsTextOf(s, text) { TextsAreAll(s, text); }
  }

  // ---------------------------------------------------------------- curated datasets are evaluated and accepted

  function Cases(samples: seq<Sample>): (r: seq<(string, Evaluation.Sample)>)
    ensures |r| == |samples| && forall i :: 0 <= i < |r| ==> r[i] == (samples[i].caseId, Judged(samples[i]))
  {
    seq(|samples|, i requires 0 <= i < |samples| => (samples[i].caseId, Judged(samples[i])))
  }

  /** The dataset as the evaluation reads it. */
  function AsEvaluated(d: Dataset): Evaluation.Dataset {
    Evaluation.Dataset(Some(d.id), Some(d.version), Cases(d.samples))
  }

  ghost predicate AllJudgeable(samples: seq<Sample>) {
    forall i :: 0 <= i < |samples| ==> Evaluation.Judgeable(Judged(samples[i]), None)
  }

  lemma {:induction false} ManyCurationsCanBeJudged(words: Words, d: Dataset, steps: seq<(Candidate, Review)>)
    requires ValidDataset(d) && AllJudgeable(d.samples) && CurateAll(words, d, steps).Some?
    ensures AllJudgeable(CurateAll(words, d, steps).value.samples)
  {
    hide Curate;
    hide ValidDataset;
    hide Evaluation.Judgeable;
    if steps != [] {
      var init, last := steps[..|steps| - 1], steps[|steps| - 1];
      var before := CurateAll(words, d, init).value;
      ManyCurations(words, d, init);
      ManyCurationsCanBeJudged(words, d, init);
      CurationKeepsValidity(words, before, last.0, last.1);
      CuratedCanBeJudged(words, before, last.0, last.1);
    }
  }

  lemma IdentifierIsStable(s: string)
    requires IsIdentifier(s)
    ensures Gate.IsStable(s) && Evaluation.IsText(s)
  {
    assert "_-" == ['_', '-'];
    NamesHaveNoSpace(s);
    forall i | 0 <= i < |s| ensures !IsSpace(s[i]) {
      assert Alphanumeric(s[i]) || s[i] in "_-";
    }
  }

  lemma VersionIsStable(s: string)
    requires VersionNumber(s).Some?
    ensures Gate.IsStable(s)
  {
    forall i | 0 <= i < |s| ensures !IsSpace(s[i]) {
      assert i == 0 || Decimal.IsDigit(s[i]);
    }
  }

  lemma CasesAreIndexable(d: Dataset)
    requires ValidDataset(d)
    ensures Evaluation.Indexable(Cases(d.samples))
  {
    hide IsIdentifier;
    hide Evaluation.IsText;
    assert Keys(Cases(d.samples)) == CaseIds(d.samples);
    forall i | 0 <= i < |d.samples| ensures Evaluation.IsText(Keys(Cases(d.samples))[i]) {
      IdentifierIsStable(d.samples[i].caseId);
    }
  }

  ghost predicate StableRun(run: Evaluation.Run) {
    Gate.IsStable(run.model) && Gate.IsStable(run.prompt) && Gate.IsStable(run.retrieval)
  }

  /**
   Whatever is answered: the gate accepts the report of a valid dataset exactly when the versions of the
   run are non-empty and without white space.
   */
  lemma ValidDatasetsAreAccepted(fold: string -> string, d: Dataset, r: Evaluation.Responses)
    requires ValidDataset(d) && Evaluation.Evaluated(fold, AsEvaluated(d), r).Some?
    ensures Gate.Accepts(Evaluation.Evaluated(fold, AsEvaluated(d), r).value) <==> StableRun(r.run.value)
  {
    hide Gate.IsStable;
    hide IsIdentifier;
    hide VersionNumber;
    var report := Evaluation.Evaluated(fold, AsEvaluated(d), r).value;
    Gate.ValidatorAgreesExactly(fold, AsEvaluated(d), r);
    IdentifierIsStable(d.id);
    VersionIsStable(d.version);
    forall i | 0 <= i < |report.samples| ensures Gate.IsStable(report.samples[i].caseId) {
      assert report.samples[i].caseId == d.samples[i].caseId;
      IdentifierIsStable(d.samples[i].caseId);
    }
    hide Gate.Accepts;
  }

  /** Nothing was answered yet. */
  function Unanswered(d: Dataset, run: Evaluation.Run): Evaluation.Responses {
    Evaluation.Responses(Some(d.id), Some(d.version), Some(run), [])
  }

  lemma UnansweredIsEvaluated(fold: string -> string, d: Dataset, run: Evaluation.Run)
    requires ValidDataset(d) && AllJudgeable(d.samples) && StableRun(run)
    ensures Evaluation.Evaluated(fold, AsEvaluated(d), Unanswered(d, run)).Some?
  {
    hide Evaluation.IsText;
    hide Evaluation.UniqueTexts;
    RunIsText(run);
    CasesAreIndexable(d);
    NothingIsIndexable();
    var r := Unanswered(d, run);
    assert forall id :: Evaluation.Find(r.responses, id).None?;
  }

  lemma RunIsText(run: Evaluation.Run)
    requires StableRun(run)
    ensures Evaluation.IsText(run.model) && Evaluation.IsText(run.prompt) && Evaluation.IsText(run.retrieval)
  {}

  lemma NothingIsIndexable()
    ensures Evaluation.Indexable<Evaluation.Response>([])
  {}

  /**
   After any number of curations of a dataset that could be evaluated the new version can be evaluated
   as well, and the gate accepts the report.
   */
  lemma CuratedDatasetsReachTheGate(words: Words, fold: string -> string, d: Dataset, steps: seq<(Candidate, Review)>, run: Evaluation.Run)
    requires ValidDataset(d) && AllJudgeable(d.samples) && CurateAll(words, d, steps).Some? && StableRun(run)
    ensures var e := CurateAll(words, d, steps).value;
            var report := Evaluation.Evaluated(fold, AsEvaluated(e), Unanswered(e, run));
            report.Some? && Gate.Accepts(report.value)
  {
    hide ValidDataset;
    hide AllJudgeable;
    hide Gate.Accepts;
    var e := CurateAll(words, d, steps).value;
    ManyCurations(words, d, steps);
    ManyCurationsCanBeJudged(words, d, steps);
    UnansweredIsEvaluated(fold, e, run);
    hide Evaluation.Evaluated;
    ValidDatasetsAreAccepted(fold, e, Unanswered(e, run));
  }
}
