/** Reports written by a language model: what is accepted of a response, and what a call does to the circuit breaker. */
module ModelReport {
  import opened Outcomes
  import opened OrderedDict
  import opened Sorting
  import opened Text
  import opened RcaDomain
  import opened RootCauses
  import Guards = ReportGuardrails
  import Reports = EvidenceReport
  import Circuit = CircuitBreaker
  import Runs = CircuitRuns

  // ---------------------------------------------------------------- candidates and responses

  /** A value of the response whose type nobody vouches for. */
  datatype Value = Null | Words(text: string) | Object(fields: map<string, Value>) | Something

  /** A response names a candidate in the current contract, and does not in the legacy one. */
  datatype Contract = Legacy | Naming(selected: Value, root: Value)

  datatype Response = Response(status: ConclusionStatus, title: string, summary: string, confidence: real, ids: seq<string>,
                               advice: seq<string>, contract: Contract)

  /** How much evidence is sent, and the versions a report carries. */
  datatype Settings = Settings(most: nat, generator: string, prompt: string) {
    predicate Valid() { 1 <= most <= 100 && IsLine(generator, 24) && IsLine(prompt, 32) }
  }

  /** Redaction, the taxonomy of root causes and digests, which the model does not look into. */
  datatype Oracle = Oracle(redact: string -> string, kindOf: string -> string, digest: string -> string,
                           reportId: (Command, seq<Evidence>, Response) -> string)

  const UNKNOWN := "unknown"
  const NO_ACTION := "no_actionable_root_cause"

  datatype Selection = Selection(id: Option<string>, service: Option<string>, kind: Option<string>, resource: Option<string>,
                                 candidate: Option<Candidate>)

  const NO_SELECTION := Selection(None, None, None, None, None)

  function RequireText(v: Value, most: nat): Option<string> {
    if v.Words? && IsLine(v.text, most) then Some(v.text) else None
  }

  /** The candidate a response means; a single candidate is taken whatever the response names. */
  function MeantCandidate(selected: Value, candidates: seq<Candidate>): Option<Candidate> {
    var named := RequireText(selected, 64);
    var found := if named.Some? then FirstWithId(candidates, named.value) else None;
    if found.Some? then found else if |candidates| == 1 then Some(candidates[0]) else None
  }

  function FieldText(root: map<string, Value>, name: string, most: nat): Option<string> {
    if name in root then RequireText(root[name], most) else None
  }

  /** The root cause a response states, which must be the candidate's. */
  predicate StatesCandidate(o: Oracle, root: Value, c: Candidate) {
    && root.Object? && root.fields.Keys == {"service", "type", "resource"}
    && FieldText(root.fields, "service", 128) == Some(c.service)
    && (var raw := FieldText(root.fields, "type", 128);
        raw.Some? && (o.kindOf)(raw.value) == c.kind && ((o.kindOf)(raw.value) == UNKNOWN ==> raw.value == UNKNOWN))
    && (if root.fields["resource"].Null? then c.resource == None
        else c.resource.Some? && FieldText(root.fields, "resource", 256) == c.resource)
  }

  function Chosen(c: Candidate): Selection { Selection(Some(c.id), Some(c.service), Some(c.kind), c.resource, Some(c)) }

  function Dismissed(c: Candidate): Selection { Selection(Some(c.id), None, None, None, Some(c)) }

  /** `_parse_candidate_selection`; nothing when it raises. */
  function ParseSelection(o: Oracle, status: ConclusionStatus, contract: Contract, candidates: seq<Candidate>): Option<Selection> {
    match contract
    case Legacy =>
      if status.Undetermined? then Some(NO_SELECTION)
      else if candidates == [] then None
      else if status.NoActionableRootCause? then
        if candidates[0].kind == NO_ACTION then Some(Dismissed(candidates[0])) else None
      else if status.Candidate? then Some(Chosen(candidates[0]))
      else None
    case Naming(selected, root) =>
      if status.Undetermined? then (if selected.Null? && root.Null? then Some(NO_SELECTION) else None)
      else
        var meant := MeantCandidate(selected, candidates);
        if meant.None? then None
        else if status.NoActionableRootCause? then
          if root.Null? && meant.value.kind == NO_ACTION then Some(Dismissed(meant.value)) else None
        else if status.Candidate? && StatesCandidate(o, root, meant.value) then Some(Chosen(meant.value))
        else None
  }

  function Calibrated(confidence: real, c: Candidate): Option<real> {
    if c.score < 0.5 then None
    else
      var cap := if c.score >= 0.8 && c.contradicting == [] && c.missing == [] then 0.9 else 0.7;
      Some(if confidence <= cap then confidence else cap)
  }

  // ---------------------------------------------------------------- what a selection is

  /** What a report checks of its root cause and its candidates. */
  predicate RootContextFits(status: ConclusionStatus, s: Selection, candidates: seq<Candidate>) {
    RootCause(s.kind, s.service, s.resource, s.id).Fits(status, candidates)
  }

  lemma {:induction false} FirstWithIdIs(candidates: seq<Candidate>, i: nat)
    requires i < |candidates| && forall j :: 0 <= j < i ==> candidates[j].id != candidates[i].id
    ensures FirstWithId(candidates, candidates[i].id) == Some(candidates[i])
  {
    if i > 0 { FirstWithIdIs(candidates[1..], i - 1); }
  }

  lemma {:induction false} FirstWithIdMember(candidates: seq<Candidate>, id: string)
    ensures FirstWithId(candidates, id).Some? ==>
              FirstWithId(candidates, id).value in candidates && FirstWithId(candidates, id).value.id == id
  {
    if candidates != [] { FirstWithIdMember(candidates[1..], id); }
  }

  lemma MeantIsCandidate(selected: Value, candidates: seq<Candidate>)
    ensures MeantCandidate(selected, candidates).Some? ==> MeantCandidate(selected, candidates).value in candidates
  {
    if selected.Words? { FirstWithIdMember(candidates, selected.text); }
  }

  /** A response never invents a root cause: what is selected is one of the deterministic candidates, or nothing. */
  lemma SelectionIsACandidate(o: Oracle, status: ConclusionStatus, contract: Contract, candidates: seq<Candidate>)
    requires ParseSelection(o, status, contract, candidates).Some?
    ensures var s := ParseSelection(o, status, contract, candidates).value;
            && !status.Confirmed?
            && (status.Undetermined? <==> s == NO_SELECTION)
            && (s != NO_SELECTION ==> s.candidate.Some? && s.candidate.value in candidates)
            && (status.Candidate? ==> s == Chosen(s.candidate.value))
            && (status.NoActionableRootCause? ==> s == Dismissed(s.candidate.value) && s.candidate.value.kind == NO_ACTION)
  {
    hide StatesCandidate;
    if contract.Naming? { MeantIsCandidate(contract.selected, candidates); }
  }

  /** Whatever is selected passes the checks of the report. */
  lemma SelectionFitsReport(o: Oracle, status: ConclusionStatus, contract: Contract, candidates: seq<Candidate>)
    requires CandidatesFit(candidates) && ParseSelection(o, status, contract, candidates).Some?
    ensures RootContextFits(status, ParseSelection(o, status, contract, candidates).value, candidates)
  {
    var s := ParseSelection(o, status, contract, candidates).value;
    SelectionIsACandidate(o, status, contract, candidates);
    hide ParseSelection;
    if s != NO_SELECTION {
      var i :| 0 <= i < |candidates| && candidates[i] == s.candidate.value;
      FirstWithIdIs(candidates, i);
    }
  }

  /** Confidence is capped at 0.9, below that at 0.7 unless the evidence is strong and unopposed; weak candidates are refused. */
  lemma CalibrationBounds(confidence: real, c: Candidate)
    requires 0.0 <= confidence <= 1.0
    ensures Calibrated(confidence, c).Some? <==> c.score >= 0.5
    ensures Calibrated(confidence, c).Some? ==>
              var r := Calibrated(confidence, c).value;
              && 0.0 <= r <= confidence && r <= 0.9
              && (r > 0.7 ==> c.score >= 0.8 && c.contradicting == [] && c.missing == [])
  {}

  // ---------------------------------------------------------------- the report

  predicate IdsFit(evidence: seq<Evidence>, ids: seq<string>) {
    && 1 <= |ids| <= |evidence| && NoDuplicates(ids)
    && (forall i :: 0 <= i < |ids| ==> IsLine(ids[i], 64))
    && (forall i :: 0 <= i < |ids| ==> ids[i] in Reports.Ids(evidence))
  }

  /** The first item with this identifier, or the number of items when there is none. */
  function PositionOf(evidence: seq<Evidence>, id: string): (i: nat)
    ensures i <= |evidence| && (i < |evidence| ==> evidence[i].id == id)
    ensures forall j :: 0 <= j < i ==> evidence[j].id != id
  {
    if evidence == [] || evidence[0].id == id then 0 else 1 + PositionOf(evidence[1..], id)
  }

  lemma PositionFound(evidence: seq<Evidence>, id: string)
    requires id in Reports.Ids(evidence)
    ensures PositionOf(evidence, id) < |evidence|
  {
    var i :| 0 <= i < |evidence| && Reports.Ids(evidence)[i] == id;
    assert evidence[i].id == id;
  }

  function ItemWithId(evidence: seq<Evidence>, id: string): (e: Evidence)
    requires id in Reports.Ids(evidence)
    ensures e in evidence && e.id == id
  {
    PositionFound(evidence, id);
    evidence[PositionOf(evidence, id)]
  }

  function CitedItems(evidence: seq<Evidence>, ids: seq<string>): (r: seq<Evidence>)
    requires forall i :: 0 <= i < |ids| ==> ids[i] in Reports.Ids(evidence)
    ensures |r| == |ids| && forall i :: 0 <= i < |r| ==> r[i].id == ids[i] && r[i] in evidence
  {
    seq(|ids|, i requires 0 <= i < |ids| => ItemWithId(evidence, ids[i]))
  }

  /** Redacted text, cut to its length. */
  function RedactedText(o: Oracle, text: string, most: nat): Option<string> {
    if !IsLine(text, most) then None
    else
      var r := (o.redact)(text);
      var cut := if |r| > most then StripRight(r[..most]) else r;
      if cut == [] then None else Some(cut)
  }

  datatype Written = Written(document: Reports.Document, selection: Selection)

  /** What is left of the confidence once a candidate is selected. */
  function ConfidenceOf(confidence: real, s: Selection): Option<real> {
    if s.candidate.Some? then Calibrated(confidence, s.candidate.value) else Some(confidence)
  }

  /** A list of texts, unique before and after redaction. */
  function RedactedList(o: Oracle, texts: seq<string>): (r: Option<seq<string>>)
    ensures r.Some? ==> |r.value| == |texts|
  {
    if texts == [] then Some([])
    else
      var rest, last := RedactedList(o, texts[..|texts| - 1]), RedactedText(o, texts[|texts| - 1], 1024);
      if rest.None? || last.None? || texts[|texts| - 1] in texts[..|texts| - 1] || last.value in rest.value then None
      else Some(rest.value + [last.value])
  }

  const NAME: string := "llm-structured-report"

  predicate LinesFit(title: string, advice: seq<string>) {
    IsLine(title, 256) && |advice| <= 20 && forall i :: 0 <= i < |advice| ==> IsLine(advice[i], 1024)
  }

  /** `_build_report`: a valid report that cites selected evidence, or nothing when it raises. */
  function BuildReport(o: Oracle, st: Settings, command: Command, selected: seq<Evidence>, r: Response, candidates: seq<Candidate>)
    : Option<Written>
  {
    var selection := ParseSelection(o, r.status, r.contract, candidates);
    var title, summary, advice := RedactedText(o, r.title, 256), RedactedText(o, r.summary, 4096), RedactedList(o, r.advice);
    if r.status.Confirmed? || selection.None? || title.None? || summary.None? || !(0.0 <= r.confidence <= 1.0)
       || !IdsFit(selected, r.ids) || |r.advice| > 20 || advice.None? then None
    else
      var confidence := ConfidenceOf(r.confidence, selection.value);
      if confidence.None? || !Guards.ValidSummary(summary.value) || !LinesFit(title.value, advice.value) then None
      else
        var cited := CitedItems(selected, r.ids);
        Some(Written(Reports.Document((o.reportId)(command, cited, r), command, title.value,
                                      Guards.Report(r.status, summary.value, confidence.value, selection.value.kind.Some?),
                                      r.ids, Reports.KindCounts(cited), advice.value, NAME, st.generator + "/" + st.prompt),
                     selection.value))
  }

  /** Report identifiers are digests. */
  ghost predicate DigestsAreLines(o: Oracle) {
    Reports.Digests(o.digest) && forall c, e, r :: IsLine((o.reportId)(c, e, r), 64)
  }

  lemma FixedLines(st: Settings)
    requires st.Valid()
    ensures IsLine(NAME, 128) && IsLine(st.generator + "/" + st.prompt, 64)
  {}

  /**
   Every report that is built from a response passes all of a report's checks: it is not confirmed, its
   root cause is that of a deterministic candidate, its confidence is capped by that candidate, it
   cites only evidence that was sent to the model, and it counts the cited evidence correctly.
   */
  lemma BuiltReportIsValid(o: Oracle, st: Settings, command: Command, selected: seq<Evidence>, r: Response, candidates: seq<Candidate>)
    requires st.Valid() && DigestsAreLines(o) && command.Valid() && |selected| <= 100 && CandidatesFit(candidates)
    requires BuildReport(o, st, command, selected, r, candidates).Some?
    ensures var w := BuildReport(o, st, command, selected, r, candidates).value;
            && w.document.Valid() && !w.document.head.status.Confirmed?
            && RootContextFits(w.document.head.status, w.selection, candidates)
            && (forall i :: 0 <= i < |w.document.evidenceIds| ==> w.document.evidenceIds[i] in Reports.Ids(selected))
            && (w.selection.candidate.Some? ==>
                  w.document.head.confidence <= 0.9 && w.selection.candidate.value.score >= 0.5)
  {
    hide Guards.ValidSummary;
    hide Reports.KindCounts;
    hide NoDuplicates;
    hide Ordered;
    hide RedactedText;
    hide RedactedList;
    hide RootContextFits;
    var s := ParseSelection(o, r.status, r.contract, candidates).value;
    SelectionIsACandidate(o, r.status, r.contract, candidates);
    SelectionFitsReport(o, r.status, r.contract, candidates);
    hide ParseSelection;
    hide CandidatesFit;
    Reports.CountsPassChecks(CitedItems(selected, r.ids));
    Reports.KindCountsForm(CitedItems(selected, r.ids));
    FixedLines(st);
    hide IsLine;
    if s.candidate.Some? { CalibrationBounds(r.confidence, s.candidate.value); }
  }

  // ---------------------------------------------------------------- one call

  datatype Gateway = Delivers(response: Response, candidates: seq<Candidate>) | TimesOut | ProviderFails | IsCancelled | Dies

  /**
   The outside of one call; a missing reading is a monotonic clock that cannot be read. The two reports
   are stamped only if the wall clock gives a time with its zone.
   */
  datatype Outside = Outside(prepared: bool, acquireAt: Option<real>, gateway: Gateway, failAt: Option<real>,
                             stamped: bool, ruleStamped: bool)

  datatype Answer = ByModel(written: Written) | ByRule(document: Reports.Document) | WasCancelled | Raises

  datatype Resolution = Success | Failure | Cancellation | Lost

  /** The response became a report. */
  predicate Accepted(o: Oracle, st: Settings, command: Command, selected: seq<Evidence>, out: Outside) {
    out.gateway.Delivers? && out.stamped
    && BuildReport(o, st, command, selected, out.gateway.response, out.gateway.candidates).Some?
  }

  /** What is reported to the breaker about a permit. */
  function ResolutionOf(o: Oracle, st: Settings, command: Command, selected: seq<Evidence>, out: Outside): Resolution {
    match out.gateway
    case Delivers(r, candidates) =>
      if Accepted(o, st, command, selected, out) then Success else if out.failAt.Some? then Failure else Lost
    case IsCancelled => Cancellation
    case Dies => Lost
    case _ => if out.failAt.Some? then Failure else Lost
  }

  function Resolved(cfg: Circuit.Config, s: Circuit.State, p: Circuit.Permit, r: Resolution, failAt: Option<real>): Circuit.State
    requires r.Failure? ==> failAt.Some?
  {
    match r
    case Success => Circuit.Succeed(s, p)
    case Failure => Circuit.Fail(cfg, s, p, failAt.value)
    case Cancellation => Circuit.Cancel(s, p)
    case Lost => s
  }

  /** The report of the fallback, unless it cannot be stamped. */
  function Fallback(o: Oracle, command: Command, evidence: seq<Evidence>, out: Outside): Answer {
    if out.ruleStamped then ByRule(Reports.Generate(o.digest, command, evidence)) else Raises
  }

  /** What the caller gets. */
  function AnswerOf(o: Oracle, st: Settings, command: Command, evidence: seq<Evidence>, out: Outside, permitted: bool): Answer {
    var selected := Reports.Selected(evidence, st.most);
    if !permitted then Fallback(o, command, evidence, out)
    else
      match ResolutionOf(o, st, command, selected, out)
      case Success => ByModel(BuildReport(o, st, command, selected, out.gateway.response, out.gateway.candidates).value)
      case Failure => Fallback(o, command, evidence, out)
      case Cancellation => WasCancelled
      case Lost => Raises
  }

  predicate MayStart(command: Command, evidence: seq<Evidence>, out: Outside) {
    Reports.ValidEvidence(command, evidence) && out.prepared && out.acquireAt.Some?
  }

  method Generate(b: Circuit.Breaker, o: Oracle, st: Settings, command: Command, evidence: seq<Evidence>, out: Outside)
    returns (answer: Answer)
    modifies b
    ensures !MayStart(command, evidence, out) ==> answer.Raises? && b.Snapshot() == old(b.Snapshot())
    ensures MayStart(command, evidence, out) ==>
              var (s, permit) := Circuit.Acquire(old(b.Snapshot()), out.acquireAt.value);
              && answer == AnswerOf(o, st, command, evidence, out, permit.Some?)
              && b.Snapshot() == if permit.None? then s
                 else Resolved(b.config, s, permit.value, ResolutionOf(o, st, command, Reports.Selected(evidence, st.most), out), out.failAt)
  {
    hide BuildReport;
    hide Reports.Generate;
    if !Reports.ValidEvidence(command, evidence) || !out.prepared || out.acquireAt.None? { return Raises; }
    var selected := Reports.Selected(evidence, st.most);
    var permit := b.AcquirePermit(out.acquireAt.value);
    if permit.None? { return Fallback(o, command, evidence, out); }
    if out.gateway.IsCancelled? {
      b.ReleaseCancelledPermit(permit.value);
      return WasCancelled;
    }
    if out.gateway.Dies? { return Raises; }
    if out.gateway.Delivers? && out.stamped {
      var written := BuildReport(o, st, command, selected, out.gateway.response, out.gateway.candidates);
      if written.Some? {
        b.RecordSuccess(permit.value);
        return ByModel(written.value);
      }
    }
    if out.failAt.None? { return Raises; }
    b.RecordFailure(permit.value, out.failAt.value);
    answer := Fallback(o, command, evidence, out);
  }

  // ---------------------------------------------------------------- what every call guarantees

  /** The document of an answer. */
  function DocumentOf(a: Answer): Reports.Document
    requires a.ByModel? || a.ByRule?
  {
    if a.ByModel? then a.written.document else a.document
  }

  lemma SelectedAmong(evidence: seq<Evidence>, most: nat, id: string)
    requires id in Reports.Ids(Reports.Selected(evidence, most))
    ensures id in Reports.Ids(evidence)
  {
    var s := Reports.SortedById(evidence);
    SortKeeps(Reports.IdLe, evidence);
    var i :| 0 <= i < |Reports.Selected(evidence, most)| && Reports.Ids(Reports.Selected(evidence, most))[i] == id;
    SameElements(s, evidence, s[i]);
    var j :| 0 <= j < |evidence| && evidence[j] == s[i];
    assert Reports.Ids(evidence)[j] == id;
  }

  lemma RuleCites(o: Oracle, command: Command, evidence: seq<Evidence>, id: string)
    requires id in Reports.Generate(o.digest, command, evidence).evidenceIds
    ensures id in Reports.Ids(evidence)
  {
    assert Reports.Selected(evidence, |Reports.SortedById(evidence)|) == Reports.SortedById(evidence);
    SelectedAmong(evidence, |Reports.SortedById(evidence)|, id);
  }

  /**
   Whatever the model, the provider and the breaker do: if a call returns a report, it passes all of a
   report's checks, those of its root cause included, is not confirmed, and cites only the evidence of
   this execution.
   */
  lemma EveryAnswerIsValid(o: Oracle, st: Settings, command: Command, evidence: seq<Evidence>, out: Outside, permitted: bool, id: string)
    requires st.Valid() && DigestsAreLines(o) && Reports.ValidEvidence(command, evidence) && Reports.AllValid(evidence)
    requires out.gateway.Delivers? ==> CandidatesFit(out.gateway.candidates)
    requires var a := AnswerOf(o, st, command, evidence, out, permitted); a.ByModel? || a.ByRule?
    ensures var d := DocumentOf(AnswerOf(o, st, command, evidence, out, permitted));
            && d.Valid() && !d.head.status.Confirmed?
            && (id in d.evidenceIds ==> id in Reports.Ids(evidence))
    ensures var a := AnswerOf(o, st, command, evidence, out, permitted);
            && (a.ByModel? ==> RootContextFits(a.written.document.head.status, a.written.selection, out.gateway.candidates))
            && (a.ByRule? ==> RootContextFits(a.document.head.status, NO_SELECTION, []))
  {
    hide Reports.Generate;
    hide BuildReport;
    hide Reports.ValidEvidence;
    hide Reports.AllValid;
    hide RootContextFits;
    hide CandidatesFit;
    hide IsLine;
    NothingFits();
    var a := AnswerOf(o, st, command, evidence, out, permitted);
    if a.ByModel? {
      ModelAnswerIsValid(o, st, command, evidence, out.gateway.response, out.gateway.candidates, id);
    } else {
      Reports.GeneratedReportIsValid(o.digest, command, evidence);
      RuleAnswerIsValid(o, command, evidence, id);
    }
  }

  lemma NothingFits()
    ensures RootContextFits(Undetermined, NO_SELECTION, [])
  {}

  lemma ModelAnswerIsValid(o: Oracle, st: Settings, command: Command, evidence: seq<Evidence>, r: Response,
                           candidates: seq<Candidate>, id: string)
    requires st.Valid() && DigestsAreLines(o) && CandidatesFit(candidates)
    requires Reports.ValidEvidence(command, evidence) && Reports.AllValid(evidence)
    requires BuildReport(o, st, command, Reports.Selected(evidence, st.most), r, candidates).Some?
    ensures var d := BuildReport(o, st, command, Reports.Selected(evidence, st.most), r, candidates).value.document;
            && d.Valid() && !d.head.status.Confirmed?
            && (id in d.evidenceIds ==> id in Reports.Ids(evidence))
    ensures var written := BuildReport(o, st, command, Reports.Selected(evidence, st.most), r, candidates).value;
            RootContextFits(written.document.head.status, written.selection, candidates)
  {
    hide BuildReport;
    hide RootContextFits;
    hide CandidatesFit;
    hide IsLine;
    var selected := Reports.Selected(evidence, st.most);
    SortKeeps(Reports.IdLe, evidence);
    Reports.CommandValid(command, evidence);
    hide Reports.AllValid;
    BuiltReportIsValid(o, st, command, selected, r, candidates);
    if id in BuildReport(o, st, command, selected, r, candidates).value.document.evidenceIds { SelectedAmong(evidence, st.most, id); }
  }

  lemma RuleAnswerIsValid(o: Oracle, command: Command, evidence: seq<Evidence>, id: string)
    ensures var d := Reports.Generate(o.digest, command, evidence);
            d.head.status.Undetermined? && (id in d.evidenceIds ==> id in Reports.Ids(evidence))
  {
    if id in Reports.Generate(o.digest, command, evidence).evidenceIds { RuleCites(o, command, evidence, id); }
  }

  /** What is recorded and what is returned, for every outcome of the provider call. */
  lemma AnswersMatchReports(o: Oracle, st: Settings, command: Command, evidence: seq<Evidence>, out: Outside)
    ensures var a := AnswerOf(o, st, command, evidence, out, true);
            var selected := Reports.Selected(evidence, st.most);
            var r := ResolutionOf(o, st, command, selected, out);
            var accepted := Accepted(o, st, command, selected, out);
            && (a.ByModel? <==> accepted) && (r.Success? <==> accepted)
            && (a.WasCancelled? <==> out.gateway.IsCancelled?) && (r.Cancellation? <==> out.gateway.IsCancelled?)
            && (r.Failure? <==> !accepted && !out.gateway.IsCancelled? && !out.gateway.Dies? && out.failAt.Some?)
            && (a.ByRule? <==> r.Failure? && out.ruleStamped)
            && (r.Lost? <==> out.gateway.Dies? || (out.failAt.None? && !out.gateway.IsCancelled? && !accepted))
  {
    hide BuildReport;
    hide Reports.Generate;
  }

  /**
   A permitted call answers with the model's report exactly if the provider delivers, the report can be built and the wall
   clock stamps it; it is cancelled exactly with the provider call; it answers by rule exactly if the failure could be
   recorded, that is, the monotonic clock read, and the rule's report stamped; and it raises otherwise.
   */
  lemma AnswersExactly(o: Oracle, st: Settings, command: Command, evidence: seq<Evidence>, out: Outside)
    ensures var a := AnswerOf(o, st, command, evidence, out, true);
            var selected := Reports.Selected(evidence, st.most);
            var built := out.gateway.Delivers? && out.stamped
                         && BuildReport(o, st, command, selected, out.gateway.response, out.gateway.candidates).Some?;
            && (a.ByModel? <==> built)
            && (a.WasCancelled? <==> out.gateway.IsCancelled?)
            && (a.ByRule? <==> !built && !out.gateway.IsCancelled? && !out.gateway.Dies? && out.failAt.Some? && out.ruleStamped)
    ensures AnswerOf(o, st, command, evidence, out, false) ==
              if out.ruleStamped then ByRule(Reports.Generate(o.digest, command, evidence)) else Raises
  {
    AnswersMatchReports(o, st, command, evidence, out);
    hide BuildReport;
    hide Reports.Generate;
  }

  /** The steps of the breaker's runs that one call takes. */
  function EventsOf(call: nat, r: Resolution, out: Outside): seq<Circuit.Event>
    requires out.acquireAt.Some? && (r.Failure? ==> out.failAt.Some?)
  {
    [Circuit.Acquires(call, out.acquireAt.value),
     match r
     case Success => Circuit.Succeeds(call)
     case Failure => Circuit.Fails(call, out.failAt.value)
     case Cancellation => Circuit.Cancels(call)
     case Lost => Circuit.Abandons(call)]
  }

  lemma TwoEvents(cfg: Circuit.Config, w: Circuit.World, e: Circuit.Event, f: Circuit.Event)
    ensures Circuit.RunFrom(cfg, w, [e, f]) == Circuit.Step(cfg, Circuit.Step(cfg, w, e), f)
  {
    var events := [e, f];
    assert events[..1] == [e] && [e][..0] == [];
    assert Circuit.RunFrom(cfg, w, [e]) == Circuit.Step(cfg, w, e);
  }

  /**
   A call takes a permit and gives it back exactly once, so it is one of the calls of which the runs of
   the breaker consist; it abandons the permit exactly when it is killed, or when it ends without a
   report or a cancellation and the clock cannot be read.
   */
  lemma CallIsPartOfARun(cfg: Circuit.Config, w: Circuit.World, call: nat, o: Oracle, st: Settings, command: Command,
                         evidence: seq<Evidence>, out: Outside)
    requires call !in w.inFlight && call !in w.abandoned && out.acquireAt.Some?
    requires Circuit.Acquire(w.breaker, out.acquireAt.value).1.Some?
    ensures var selected := Reports.Selected(evidence, st.most);
            var r := ResolutionOf(o, st, command, selected, out);
            var v := Circuit.RunFrom(cfg, w, EventsOf(call, r, out));
            var (s, permit) := Circuit.Acquire(w.breaker, out.acquireAt.value);
            && v.breaker == Resolved(cfg, s, permit.value, r, out.failAt)
            && v.inFlight == w.inFlight
            && (call in v.abandoned <==>
                  out.gateway.Dies? || (out.failAt.None? && !out.gateway.IsCancelled? && !Accepted(o, st, command, selected, out)))
  {
    var r := ResolutionOf(o, st, command, Reports.Selected(evidence, st.most), out);
    AnswersMatchReports(o, st, command, evidence, out);
    hide BuildReport;
    hide Accepted;
    hide ResolutionOf;
    var events := EventsOf(call, r, out);
    TwoEvents(cfg, w, events[0], events[1]);
    assert w.inFlight[call := Circuit.Acquire(w.breaker, out.acquireAt.value).1.value] - {call} == w.inFlight;
  }

  /**
   It can happen: with a threshold of 1 one provider failure opens the breaker; the call that probes it
   fails as well while the clock cannot be read, and no call is ever let through again.
   */
  lemma UnreadableClockWedges(o: Oracle, st: Settings, command: Command, evidence: seq<Evidence>,
                              events: seq<Circuit.Event>, later: nat)
    requires later > 1
    ensures var cfg := Circuit.Config(1, 60.0);
            var first := Outside(true, Some(0.0), ProviderFails, Some(0.0), true, true);
            var second := Outside(true, Some(60.0), ProviderFails, None, true, true);
            var selected := Reports.Selected(evidence, st.most);
            var w := Circuit.RunFrom(cfg, Circuit.RunFrom(cfg, Circuit.START,
                       EventsOf(0, ResolutionOf(o, st, command, selected, first), first)),
                       EventsOf(1, ResolutionOf(o, st, command, selected, second), second));
            later !in Circuit.RunFrom(cfg, w, events).inFlight
  {
    var cfg := Circuit.Config(1, 60.0);
    TwoEvents(cfg, Circuit.START, Circuit.Acquires(0, 0.0), Circuit.Fails(0, 0.0));
    var v := Circuit.RunFrom(cfg, Circuit.START, [Circuit.Acquires(0, 0.0), Circuit.Fails(0, 0.0)]);
    assert v.breaker == Circuit.State(1, 0, Some(60.0), false);
    TwoEvents(cfg, v, Circuit.Acquires(1, 60.0), Circuit.Abandons(1));
    var w := Circuit.RunFrom(cfg, v, [Circuit.Acquires(1, 60.0), Circuit.Abandons(1)]);
    assert w.abandoned[1] == Circuit.Permit(1, true);
    Runs.EveryRunKeepsInvariant(cfg, [Circuit.Acquires(0, 0.0), Circuit.Fails(0, 0.0)]);
    Runs.RunFromKeeps(cfg, v, [Circuit.Acquires(1, 60.0), Circuit.Abandons(1)]);
    hide Circuit.Inv;
    Runs.WedgedForever(cfg, w, events);
  }
}
