/** Whether the report of a partial execution names the steps that failed, whoever wrote it. */
module PartialReports {
  import opened Outcomes
  import opened Text
  import opened RcaDomain
  import opened ControlledWorkflow
  import opened WorkflowTheorems
  import Guards = ReportGuardrails
  import Reports = EvidenceReport
  import Model = ModelReport

  const WORDS := "Partial collection:"

  predicate NamesAll(summary: string, failed: seq<string>) {
    forall i :: 0 <= i < |failed| ==> Contains(summary, failed[i])
  }

  // ---------------------------------------------------------------- the marker names every failed step

  lemma MarkedNamesAll(summary: string, failed: seq<string>)
    ensures NamesAll(Guards.Marked(summary, Guards.Marker(failed)), failed)
  {
    var kept := StripRight(Guards.Slice(summary, 4096 - |Guards.Marker(failed)|));
    forall i | 0 <= i < |failed| ensures Contains(Guards.Marked(summary, Guards.Marker(failed)), failed[i]) {
      hide Contains;
      hide Join;
      JoinContains(",", failed, i);
      ContainsAfter(" Partial collection: failed steps=", Join(",", failed), failed[i]);
      ContainsBefore(" Partial collection: failed steps=" + Join(",", failed), ".", failed[i]);
      ContainsAfter(kept, Guards.Marker(failed), failed[i]);
    }
  }

  /**
   Whatever report was generated: a completed execution names every step that failed exactly when the
   generated summary does not already speak of a partial collection, or names them all itself.
   */
  lemma NamesFailedStepsExactly(w: World, config: Config, command: Command, plan: Plan, ending: Ending, effects: seq<Effect>)
    requires Covers(w, plan) && plan.Valid() && config.caps.Valid() && Behaves(w, config, command, plan, ending, effects)
    requires w.generation.Generates? && w.generation.report.Valid() && ending.Completed?
    ensures var failed := FailedOf(w, plan.steps, |plan.steps|);
            var generated := w.generation.report.summary;
            NamesAll(ending.report.summary, failed) <==> !Contains(generated, WORDS) || NamesAll(generated, failed)
  {
    hide Behaves;
    hide NamesAll;
    hide Contains;
    hide Guards.Marker;
    hide Guards.Marked;
    var failed := FailedOf(w, plan.steps, |plan.steps|);
    CompletedNeedsEvidence(w, config, command, plan, ending, effects);
    MarkedNamesAll(w.generation.report.summary, failed);
    NothingToName(w.generation.report.summary);
  }

  lemma NothingToName(summary: string)
    ensures NamesAll(summary, [])
  {}

  // ---------------------------------------------------------------- a model that hides a failure

  const CLAIM := "Partial collection: none."

  /** A response in the legacy contract that cites one item and claims that nothing is missing. */
  function Claiming(id: string): Model.Response {
    Model.Response(Undetermined, "Title", CLAIM, 0.0, [id], [], Model.Legacy)
  }

  lemma ClaimFits()
    ensures IsLine("Title", 256) && IsLine(CLAIM, 4096) && Guards.ValidSummary(CLAIM)
    ensures Contains(CLAIM, WORDS) && 'g' !in CLAIM
  {
    assert WORDS <= CLAIM;
  }

  lemma ClaimIsAccepted(o: Model.Oracle, st: Model.Settings, command: Command, e: Evidence)
    requires IsLine(e.id, 64) && (o.redact)("Title") == "Title" && (o.redact)(CLAIM) == CLAIM
    ensures var built := Model.BuildReport(o, st, command, [e], Claiming(e.id), []);
            built.Some? && built.value.document.head == Guards.Report(Undetermined, CLAIM, 0.0, false)
  {
    ClaimFits();
    hide IsLine;
    hide Guards.ValidSummary;
    assert Reports.Ids([e])[0] == e.id;
    assert Model.IdsFit([e], [e.id]);
  }

  /**
   It can happen: of two tools the second fails, and the model's summary speaks of a partial collection
   of nothing. The report is accepted and guarded, and does not name the failed step.
   */
  lemma ModelHidesFailure(o: Model.Oracle, st: Model.Settings, w: World, config: Config, command: Command, plan: Plan,
                          ending: Ending, effects: seq<Effect>)
    requires Covers(w, plan) && plan.Valid() && config.caps.Valid() && Behaves(w, config, command, plan, ending, effects)
    requires config.continueOnFailure && Undisturbed(w) && Reports.Digests(w.digest)
    requires |plan.steps| == 2 && plan.steps[1].id == "logs" && Succeeds(w.attempts[0]) && !Succeeds(w.attempts[1])
    requires (o.redact)("Title") == "Title" && (o.redact)(CLAIM) == CLAIM
    requires var e := BuildEvidence(w.digest, command, plan.steps[0], w.attempts[0].outcome);
             var built := Model.BuildReport(o, st, command, [e], Claiming(e.id), []);
             built.Some? ==> w.generation == Generates(built.value.document.head)
    ensures ending.Completed? && ending.report.summary == CLAIM
    ensures FailedOf(w, plan.steps, 2) == ["logs"] && !NamesAll(ending.report.summary, ["logs"])
  {
    var e := BuildEvidence(w.digest, command, plan.steps[0], w.attempts[0].outcome);
    TwoSteps(w, command, plan);
    ClaimIsAccepted(o, st, command, e);
    ReachesTheReport(w, config, command, plan, ending, effects);
    hide Behaves;
    hide BuildEvidence;
    hide Model.BuildReport;
    hide Undisturbed;
    ClaimIsGuarded(config.caps, ExpectedTypes(plan), CollectedTypes([e]));
  }

  lemma TwoSteps(w: World, command: Command, plan: Plan)
    requires Covers(w, plan) && |plan.steps| == 2 && Succeeds(w.attempts[0]) && !Succeeds(w.attempts[1])
    ensures EvidenceOf(w, command, plan.steps, 2) == [BuildEvidence(w.digest, command, plan.steps[0], w.attempts[0].outcome)]
    ensures FailedOf(w, plan.steps, 2) == [plan.steps[1].id]
  {
    hide BuildEvidence;
    hide Succeeds;
    FirstStep(w, command, plan);
  }

  lemma FirstStep(w: World, command: Command, plan: Plan)
    requires Covers(w, plan) && plan.steps != [] && Succeeds(w.attempts[0])
    ensures EvidenceOf(w, command, plan.steps, 1) == [BuildEvidence(w.digest, command, plan.steps[0], w.attempts[0].outcome)]
    ensures FailedOf(w, plan.steps, 1) == []
  {
    hide BuildEvidence;
    hide Succeeds;
    var nothing: seq<string> := [];
    assert EvidenceOf(w, command, plan.steps, 0) == [] && FailedOf(w, plan.steps, 0) == nothing;
    assert nothing + nothing == nothing;
  }

  lemma ReachesTheReport(w: World, config: Config, command: Command, plan: Plan, ending: Ending, effects: seq<Effect>)
    requires Covers(w, plan) && plan.Valid() && Behaves(w, config, command, plan, ending, effects)
    requires config.continueOnFailure && Undisturbed(w) && EvidenceOf(w, command, plan.steps, |plan.steps|) != []
    ensures var n := |plan.steps|;
            Concludes(w, config, plan, EvidenceOf(w, command, plan.steps, n), FailedOf(w, plan.steps, n), ending)
  {
    hide Concludes;
    hide AuditOf;
  }

  lemma ClaimIsGuarded(caps: Guards.Caps, expected: set<EvidenceType>, collected: set<EvidenceType>)
    requires caps.Valid() && expected != {}
    ensures var guarded := Guards.Guard(caps, Guards.Report(Undetermined, CLAIM, 0.0, false), expected, collected, ["logs"]);
            guarded.Some? && guarded.value.summary == CLAIM
    ensures !NamesAll(CLAIM, ["logs"])
  {
    ClaimFits();
    assert Guards.PlainText("logs");
    hide Guards.ValidSummary;
    hide Contains;
    Guards.GuardSucceedsExactly(caps, Guards.Report(Undetermined, CLAIM, 0.0, false), expected, collected, ["logs"]);
    if Contains(CLAIM, "logs") {
      assert "logs"[2] == 'g';
      Reports.ContainsNeeds(CLAIM, "logs", 'g');
    }
    assert ["logs"][0] == "logs";
  }
}
