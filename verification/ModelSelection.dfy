/** What a model's report says, in terms of the response it was built from. */
module ModelSelection {
  import opened Outcomes
  import opened OrderedDict
  import opened Text
  import opened RcaDomain
  import opened RootCauses
  import opened ModelReport
  import Guards = ReportGuardrails
  import Reports = EvidenceReport

  // ---------------------------------------------------------------- the selected candidate

  ghost predicate Identifies(candidates: seq<Candidate>, id: string) {
    exists i :: 0 <= i < |candidates| && candidates[i].id == id
  }

  /** The response names a candidate by its identifier. */
  ghost predicate NamesCandidate(selected: Value, candidates: seq<Candidate>) {
    selected.Words? && IsLine(selected.text, 64) && Identifies(candidates, selected.text)
  }

  lemma {:induction false} FirstWithIdExactly(candidates: seq<Candidate>, id: string)
    ensures FirstWithId(candidates, id).Some? <==> Identifies(candidates, id)
    ensures FirstWithId(candidates, id).Some? ==> FirstWithId(candidates, id).value.id == id
  {
    if candidates != [] {
      FirstWithIdExactly(candidates[1..], id);
      assert forall i :: 0 <= i < |candidates[1..]| ==> candidates[1..][i] == candidates[i + 1];
      if i :| 0 <= i < |candidates| && candidates[i].id == id {
        if i > 0 { assert candidates[1..][i - 1].id == id; }
      }
    }
  }

  /**
   The candidate a response selects is the one it names; only if it names none may the single candidate be taken instead.
   Without a conclusion nothing is named and nothing selected.
   */
  lemma SelectedIsNamed(o: Oracle, status: ConclusionStatus, selected: Value, root: Value, candidates: seq<Candidate>)
    requires ParseSelection(o, status, Naming(selected, root), candidates).Some?
    ensures var s := ParseSelection(o, status, Naming(selected, root), candidates).value;
            if status.Undetermined? then selected.Null? && root.Null? && s == NO_SELECTION
            else if NamesCandidate(selected, candidates) then s.id == Some(selected.text)
            else |candidates| == 1 && s.id == Some(candidates[0].id)
  {
    hide StatesCandidate;
    hide IsLine;
    if selected.Words? { FirstWithIdExactly(candidates, selected.text); }
  }

  /** A chosen root cause is the one the response states: its service, the reading of its type, and its resource, absent exactly if null. */
  lemma ChosenIsStated(o: Oracle, selected: Value, root: Value, candidates: seq<Candidate>)
    requires ParseSelection(o, ConclusionStatus.Candidate, Naming(selected, root), candidates).Some?
    ensures var s := ParseSelection(o, ConclusionStatus.Candidate, Naming(selected, root), candidates).value;
            && root.Object? && root.fields.Keys == {"service", "type", "resource"}
            && s.service.Some? && root.fields["service"] == Words(s.service.value)
            && root.fields["type"].Words? && s.kind == Some((o.kindOf)(root.fields["type"].text))
            && (s.resource.None? ==> root.fields["resource"].Null?)
            && (s.resource.Some? ==> root.fields["resource"] == Words(s.resource.value))
            && s.candidate.Some? && s == Chosen(s.candidate.value)
  {
    hide IsLine;
    hide MeantCandidate;
  }

  /** A response in the legacy contract gets the first candidate, and none is stronger. */
  lemma LegacyTakesStrongest(o: Oracle, status: ConclusionStatus, candidates: seq<Candidate>, i: nat)
    requires CandidatesFit(candidates) && ParseSelection(o, status, Legacy, candidates).Some? && i < |candidates|
    ensures var s := ParseSelection(o, status, Legacy, candidates).value;
            !status.Undetermined? ==> s.candidate == Some(candidates[0]) && candidates[i].score <= s.candidate.value.score
  {
    hide CandidateFits;
  }

  /** The response states this candidate, writing its type as `raw`. */
  function Statement(c: Candidate, raw: string): Value {
    Object(map["service" := Words(c.service), "type" := Words(raw),
               "resource" := if c.resource.Some? then Words(c.resource.value) else Null])
  }

  /** A response that names a fitting candidate and states it correctly is accepted, and so is one that dismisses it. */
  lemma CorrectResponseIsAccepted(o: Oracle, candidates: seq<Candidate>, i: nat, raw: string)
    requires CandidatesFit(candidates) && i < |candidates|
    requires IsLine(raw, 128) && (o.kindOf)(raw) == candidates[i].kind && (candidates[i].kind == UNKNOWN ==> raw == UNKNOWN)
    ensures var c := candidates[i];
            && ParseSelection(o, ConclusionStatus.Candidate, Naming(Words(c.id), Statement(c, raw)), candidates) == Some(Chosen(c))
            && (c.kind == NO_ACTION ==>
                  ParseSelection(o, NoActionableRootCause, Naming(Words(c.id), Null), candidates) == Some(Dismissed(c)))
  {
    var c := candidates[i];
    FirstWithIdIs(candidates, i);
    assert CandidateFits(c);
    hide IsLine;
    hide CandidatesFit;
    assert MeantCandidate(Words(c.id), candidates) == Some(c);
    assert Statement(c, raw).fields.Keys == {"service", "type", "resource"};
    assert StatesCandidate(o, Statement(c, raw), c);
  }

  // ---------------------------------------------------------------- confidence

  /** What a confidence may be once a candidate is selected: no more than stated, 0.9, and 0.7 without strong, unopposed evidence. */
  predicate MayClaim(stated: real, c: Candidate, x: real) {
    && x <= stated && x <= 0.9
    && (c.score < 0.8 || c.contradicting != [] || c.missing != [] ==> x <= 0.7)
  }

  /** Calibration gives the greatest such confidence, and refuses candidates with a score below 0.5. */
  lemma CalibrationIsGreatest(stated: real, c: Candidate, x: real)
    ensures Calibrated(stated, c).Some? <==> c.score >= 0.5
    ensures Calibrated(stated, c).Some? ==> MayClaim(stated, c, Calibrated(stated, c).value)
    ensures Calibrated(stated, c).Some? && MayClaim(stated, c, x) ==> x <= Calibrated(stated, c).value
  {}

  // ---------------------------------------------------------------- redacted texts

  /** What is left of a text: redacted, and if that is too long as much of it as fits, without white space at the end. */
  ghost predicate CutTo(redacted: string, most: nat, r: string) {
    && r != [] && r <= redacted
    && (|redacted| <= most ==> r == redacted)
    && (|redacted| > most ==> |r| <= most && !IsSpace(r[|r| - 1]) && forall i :: |r| <= i < most ==> IsSpace(redacted[i]))
  }

  lemma RedactedMeans(o: Oracle, text: string, most: nat)
    ensures RedactedText(o, text, most).Some? ==> IsLine(text, most) && CutTo((o.redact)(text), most, RedactedText(o, text, most).value)
    ensures IsLine(text, most) && (o.redact)(text) == text ==> RedactedText(o, text, most) == Some(text)
  {
    assert IsLine(text, most) ==> 1 <= |text| <= most;
    hide IsLine;
    var r := (o.redact)(text);
    if |r| > most { StripRightExactly(r[..most]); }
  }

  lemma {:induction false} RedactedListMeans(o: Oracle, texts: seq<string>)
    requires RedactedList(o, texts).Some?
    ensures NoDuplicates(texts)
    ensures var r := RedactedList(o, texts).value;
            |r| == |texts| && NoDuplicates(r) && forall i :: 0 <= i < |r| ==> Some(r[i]) == RedactedText(o, texts[i], 1024)
  {
    hide RedactedText;
    if texts != [] {
      var init, last := texts[..|texts| - 1], texts[|texts| - 1];
      RedactedListMeans(o, init);
      DistinctSnoc(init, last);
      assert texts == init + [last];
    }
  }

  lemma {:induction false} PlainListIsKept(o: Oracle, texts: seq<string>)
    requires NoDuplicates(texts) && forall i :: 0 <= i < |texts| ==> IsLine(texts[i], 1024) && (o.redact)(texts[i]) == texts[i]
    ensures RedactedList(o, texts) == Some(texts)
  {
    hide RedactedText;
    hide IsLine;
    if texts != [] {
      var init, last := texts[..|texts| - 1], texts[|texts| - 1];
      assert texts == init + [last];
      DistinctSnoc(init, last);
      PlainListIsKept(o, init);
      RedactedMeans(o, last, 1024);
    }
  }

  // ---------------------------------------------------------------- the report

  /** A report says what its response says: identifiers in order, conclusion, texts as far as they survive redaction. */
  lemma BuiltReportSays(o: Oracle, st: Settings, command: Command, selected: seq<Evidence>, r: Response, candidates: seq<Candidate>)
    requires BuildReport(o, st, command, selected, r, candidates).Some?
    ensures var d := BuildReport(o, st, command, selected, r, candidates).value.document;
            && d.command == command && d.evidenceIds == r.ids && d.head.status == r.status
            && CutTo((o.redact)(r.title), 256, d.title) && CutTo((o.redact)(r.summary), 4096, d.head.summary)
            && |d.advice| == |r.advice| && (forall i :: 0 <= i < |r.advice| ==> CutTo((o.redact)(r.advice[i]), 1024, d.advice[i]))
  {
    RedactedMeans(o, r.title, 256);
    RedactedMeans(o, r.summary, 4096);
    RedactedListMeans(o, r.advice);
    forall i | 0 <= i < |r.advice| && RedactedText(o, r.advice[i], 1024).Some?
      ensures CutTo((o.redact)(r.advice[i]), 1024, RedactedText(o, r.advice[i], 1024).value)
    {
      RedactedMeans(o, r.advice[i], 1024);
    }
    hide RedactedText;
    hide RedactedList;
    hide CutTo;
    hide ParseSelection;
    hide IsLine;
    hide IdsFit;
    hide Guards.ValidSummary;
    hide Reports.KindCounts;
  }

  /** The counts of a report are those of the items it cites. */
  lemma BuiltReportCounts(o: Oracle, st: Settings, command: Command, selected: seq<Evidence>, r: Response, candidates: seq<Candidate>)
    requires BuildReport(o, st, command, selected, r, candidates).Some?
    ensures IdsFit(selected, r.ids)
    ensures var d := BuildReport(o, st, command, selected, r, candidates).value.document;
            var kinds := Reports.Kinds(CitedItems(selected, r.ids));
            forall i :: 0 <= i < |d.counts| ==> d.counts[i].1 == multiset(kinds)[d.counts[i].0]
  {
    assert IdsFit(selected, r.ids);
    Reports.CountsPassChecks(CitedItems(selected, r.ids));
    hide ParseSelection;
    hide RedactedText;
    hide RedactedList;
    hide IsLine;
    hide Guards.ValidSummary;
    hide Reports.KindCounts;
  }

  /** The selection and the confidence of a report: the response's selection, and the greatest confidence it may claim. */
  lemma BuiltReportClaims(o: Oracle, st: Settings, command: Command, selected: seq<Evidence>, r: Response, candidates: seq<Candidate>,
                          x: real)
    requires BuildReport(o, st, command, selected, r, candidates).Some?
    ensures var w := BuildReport(o, st, command, selected, r, candidates).value;
            && ParseSelection(o, r.status, r.contract, candidates) == Some(w.selection)
            && (w.document.head.hasRootCauseType <==> w.selection.kind.Some?)
            && if w.selection.candidate.None? then w.document.head.confidence == r.confidence
               else
                 && MayClaim(r.confidence, w.selection.candidate.value, w.document.head.confidence)
                 && (MayClaim(r.confidence, w.selection.candidate.value, x) ==> x <= w.document.head.confidence)
  {
    var w := BuildReport(o, st, command, selected, r, candidates).value;
    if w.selection.candidate.Some? { CalibrationIsGreatest(r.confidence, w.selection.candidate.value, x); }
    hide ParseSelection;
    hide RedactedText;
    hide RedactedList;
    hide IsLine;
    hide IdsFit;
    hide Guards.ValidSummary;
    hide Reports.KindCounts;
  }

  /** Texts that redaction leaves alone. */
  ghost predicate Plain(o: Oracle, r: Response) {
    && IsLine(r.title, 256) && (o.redact)(r.title) == r.title && IsLine(r.summary, 4096) && (o.redact)(r.summary) == r.summary
    && |r.advice| <= 20 && NoDuplicates(r.advice)
    && (forall i :: 0 <= i < |r.advice| ==> IsLine(r.advice[i], 1024) && (o.redact)(r.advice[i]) == r.advice[i])
  }

  lemma LineIsSummary(s: string)
    requires IsLine(s, 4096)
    ensures Guards.ValidSummary(s)
  {}

  /** A response with plain texts, distinct evidence of this request and an acceptable, strong enough selection becomes a report. */
  lemma GoodResponseIsAccepted(o: Oracle, st: Settings, command: Command, selected: seq<Evidence>, r: Response, candidates: seq<Candidate>)
    requires Plain(o, r) && 0.0 <= r.confidence <= 1.0 && r.ids != [] && IdsFit(selected, r.ids)
    requires var s := ParseSelection(o, r.status, r.contract, candidates);
             s.Some? && (s.value.candidate.Some? ==> s.value.candidate.value.score >= 0.5)
    ensures var w := BuildReport(o, st, command, selected, r, candidates);
            && w.Some? && w.value.document.title == r.title && w.value.document.head.summary == r.summary
            && w.value.document.advice == r.advice
  {
    RedactedMeans(o, r.title, 256);
    RedactedMeans(o, r.summary, 4096);
    PlainListIsKept(o, r.advice);
    LineIsSummary(r.summary);
    SelectionIsACandidate(o, r.status, r.contract, candidates);
    hide ParseSelection;
    hide RedactedText;
    hide RedactedList;
    hide IsLine;
    hide IdsFit;
    hide Guards.ValidSummary;
    hide Reports.KindCounts;
  }
}
