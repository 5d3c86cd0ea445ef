/** What every execution of a tool plan guarantees. */
module WorkflowTheorems {
  import opened Outcomes
  import opened OrderedDict
  import opened Text
  import opened RcaDomain
  import opened ControlledWorkflow
  import Decimal
  import Guards = ReportGuardrails
  import Reports = EvidenceReport

  // ---------------------------------------------------------------- effects

  lemma {:induction false} ChecksAre(n: nat)
    ensures |Checks(n)| == n && forall i :: 0 <= i < n ==> Checks(n)[i] == Checked(i)
  {
    if n > 0 { ChecksAre(n - 1); }
  }

  lemma {:induction false} RunsAre(n: nat)
    ensures |Runs(n)| == n && forall i :: 0 <= i < n ==> Runs(n)[i] == Ran(i)
  {
    if n > 0 { RunsAre(n - 1); }
  }

  /** No tool runs unless every step passed the preflight first; then each runs at most once, in plan order. */
  lemma NothingRunsBeforePreflight(w: World, config: Config, command: Command, plan: Plan, ending: Ending,
                                   effects: seq<Effect>, i: nat)
    requires Covers(w, plan) && plan.Valid() && Behaves(w, config, command, plan, ending, effects)
    requires i < |effects| && effects[i].Ran?
    ensures var n := |plan.steps|;
            && AllReady(w) && i >= n && effects[i] == Ran(i - n) && i - n < n
            && effects[..n] == Checks(n)
  {
    hide RunsToEnd;
    hide Checks;
    hide Runs;
    hide AuditOf;
    hide plan.Valid;
    var n := |plan.steps|;
    ChecksAre(n);
    if k: nat :| StopsInPreflight(w, ending, effects, k) {
      ChecksAre(k + 1);
      assert false;
    } else if k: nat :| StopsAtStep(w, config, command, plan, ending, effects, k) {
      RunsAre(k + 1);
    } else {
      EndEffects(w, config, command, plan, ending, effects);
      RunsAre(n);
    }
  }

  lemma EndEffects(w: World, config: Config, command: Command, plan: Plan, ending: Ending, effects: seq<Effect>)
    requires Covers(w, plan) && plan.Valid() && RunsToEnd(w, config, command, plan, ending, effects)
    ensures AllReady(w) && effects == Checks(|plan.steps|) + Runs(|plan.steps|)
  {}

  // ---------------------------------------------------------------- endings

  /** The first step that preflight does not find ready decides the error, and no tool runs. */
  lemma PreflightDecides(w: World, config: Config, command: Command, plan: Plan, ending: Ending, effects: seq<Effect>, k: nat)
    requires Covers(w, plan) && plan.Valid() && Behaves(w, config, command, plan, ending, effects)
    requires k < |plan.steps| && !w.preflight[k].Ready? && forall i :: 0 <= i < k ==> w.preflight[i].Ready?
    ensures ending == Raised(match w.preflight[k]
                             case Missing => ToolMissing
                             case Risky => RiskNotAllowed
                             case Denied => PermissionDenied
                             case _ => PayloadTooLarge)
    ensures effects == Checks(k + 1)
  {
    assert !AllReady(w);
    assert !RunsToEnd(w, config, command, plan, ending, effects);
    hide RunsToEnd;
    hide Checks;
    var j: nat :| StopsInPreflight(w, ending, effects, j);
    assert j == k;
  }

  /** A tool run that ends the execution: the workflow is cancelled, its record is rejected, or it fails where it must not. */
  predicate Interrupts(config: Config, a: Attempt) {
    a.outcome.IsCancelled? || !a.auditable || (a.outcome.Breaks? && !config.continueOnFailure)
  }

  /** After preflight, the first run that ends the execution decides how it ends. */
  lemma FirstInterruptDecides(w: World, config: Config, command: Command, plan: Plan, ending: Ending, effects: seq<Effect>, k: nat)
    requires Covers(w, plan) && plan.Valid() && Behaves(w, config, command, plan, ending, effects) && AllReady(w)
    requires k < |plan.steps| && Interrupts(config, w.attempts[k]) && forall i :: 0 <= i < k ==> !Interrupts(config, w.attempts[i])
    ensures var a := w.attempts[k];
            if a.outcome.IsCancelled? then ending == Cancelled
            else if !a.auditable then ending == Raised(AuditRejected(k))
            else ending.FailedWith? && ending.cause == ToolFailed(k)
    ensures effects == Checks(|plan.steps|) + Runs(k + 1)
  {
    hide Checks;
    hide Runs;
    hide AuditOf;
    hide Concludes;
    assert !GoesOn(config, w.attempts[k]);
    if j: nat :| StopsAtStep(w, config, command, plan, ending, effects, j) {
      assert j <= k;
      assert !GoesOn(config, w.attempts[j]) && Interrupts(config, w.attempts[j]);
      assert j == k;
    }
  }

  /** When no run ends the execution, evidence and the report do: the last failure, the generator's, or the guardrails'. */
  lemma ReportDecides(w: World, config: Config, command: Command, plan: Plan, ending: Ending, effects: seq<Effect>)
    requires Covers(w, plan) && plan.Valid() && Behaves(w, config, command, plan, ending, effects) && AllReady(w)
    requires forall i :: 0 <= i < |plan.steps| ==> !Interrupts(config, w.attempts[i])
    ensures var n := |plan.steps|;
            if forall i :: 0 <= i < n ==> !w.attempts[i].outcome.Delivers? then ending.FailedWith? && ending.cause == ToolFailed(n - 1)
            else match w.generation
              case GenerationCancelled => ending == Cancelled
              case GenerationFails => ending.FailedWith? && ending.cause == ReportFailed
              case Generates(_) => ending.Completed? || (ending.FailedWith? && ending.cause == GuardedReportInvalid)
    ensures effects == Checks(|plan.steps|) + Runs(|plan.steps|)
  {
    hide Checks;
    hide Runs;
    hide AuditOf;
    hide Guards.Guard;
    forall i | 0 <= i < |plan.steps| ensures GoesOn(config, w.attempts[i]) { assert !Interrupts(config, w.attempts[i]); }
    EvidenceMeansSuccess(w, command, plan.steps, |plan.steps|);
    assert !exists k: nat :: StopsAtStep(w, config, command, plan, ending, effects, k);
    assert RunsToEnd(w, config, command, plan, ending, effects);
  }

  // ---------------------------------------------------------------- evidence and invocations

  function StepIds(evidence: seq<Evidence>): seq<string> {
    if evidence == [] then [] else StepIds(evidence[..|evidence| - 1]) + [evidence[|evidence| - 1].stepId]
  }

  /** The steps of the invocations with this result, in order. */
  function StepsWith(invocations: seq<Invocation>, succeeded: bool): seq<string> {
    if invocations == [] then []
    else
      var last := invocations[|invocations| - 1];
      StepsWith(invocations[..|invocations| - 1], succeeded) + if last.succeeded == succeeded then [last.stepId] else []
  }

  lemma StepIdsSnoc(evidence: seq<Evidence>, e: Evidence)
    ensures StepIds(evidence + [e]) == StepIds(evidence) + [e.stepId]
  {
    assert (evidence + [e])[..|evidence|] == evidence;
  }

  lemma StepsWithSnoc(invocations: seq<Invocation>, last: Invocation, succeeded: bool)
    ensures StepsWith(invocations + [last], succeeded)
         == StepsWith(invocations, succeeded) + if last.succeeded == succeeded then [last.stepId] else []
  {
    assert (invocations + [last])[..|invocations|] == invocations;
  }

  /** One invocation a step, in plan order, saying whether its tool succeeded. */
  lemma {:induction false} InvocationsAre(w: World, steps: seq<PlanStep>, k: nat)
    requires k <= |steps| && k <= |w.attempts|
    ensures |InvocationsOf(w, steps, k)| == k
    ensures forall i :: 0 <= i < k ==>
              InvocationsOf(w, steps, k)[i] == Invocation(steps[i].id, steps[i].tool, Succeeds(w.attempts[i]))
  {
    if k > 0 { InvocationsAre(w, steps, k - 1); }
  }

  lemma {:induction false} EvidenceFollowsInvocations(w: World, command: Command, steps: seq<PlanStep>, k: nat)
    requires k <= |steps| && k <= |w.attempts|
    ensures StepIds(EvidenceOf(w, command, steps, k)) == StepsWith(InvocationsOf(w, steps, k), true)
    ensures FailedOf(w, steps, k) == StepsWith(InvocationsOf(w, steps, k), false)
    ensures |EvidenceOf(w, command, steps, k)| + |FailedOf(w, steps, k)| == k
  {
    hide BuildEvidence;
    if k > 0 {
      EvidenceFollowsInvocations(w, command, steps, k - 1);
      var before := InvocationsOf(w, steps, k - 1);
      var last := Invocation(steps[k - 1].id, steps[k - 1].tool, Succeeds(w.attempts[k - 1]));
      StepsWithSnoc(before, last, true);
      StepsWithSnoc(before, last, false);
      if Succeeds(w.attempts[k - 1]) {
        BuiltFor(w, command, steps[k - 1], w.attempts[k - 1].outcome);
        StepIdsSnoc(EvidenceOf(w, command, steps, k - 1), BuildEvidence(w.digest, command, steps[k - 1], w.attempts[k - 1].outcome));
      } else {
        assert EvidenceOf(w, command, steps, k) == EvidenceOf(w, command, steps, k - 1);
      }
    }
  }

  lemma BuiltFor(w: World, command: Command, step: PlanStep, outcome: ToolOutcome)
    requires outcome.Delivers?
    ensures BuildEvidence(w.digest, command, step, outcome).stepId == step.id
    ensures BuildEvidence(w.digest, command, step, outcome).command == command
  {}

  /** Every audit handed over is that of the first k runs, all of them recorded and only the last one stopping. */
  lemma AuditHandedOver(w: World, config: Config, command: Command, plan: Plan, ending: Ending, effects: seq<Effect>)
    returns (k: nat)
    requires Covers(w, plan) && plan.Valid() && Behaves(w, config, command, plan, ending, effects)
    requires ending.Completed? || ending.FailedWith?
    ensures 1 <= k <= |plan.steps| && AuditOf(w, command, plan.steps, k, ending.audit)
    ensures Reached(w, config, k - 1) && effects == Checks(|plan.steps|) + Runs(k)
    ensures k < |plan.steps| || !Reached(w, config, k) ==>
              !config.continueOnFailure && !Succeeds(w.attempts[k - 1]) && ending.FailedWith? && ending.cause == ToolFailed(k - 1)
    ensures ending.FailedWith? && ending.cause.ToolFailed? && Reached(w, config, k) ==>
              ending.cause == ToolFailed(|plan.steps| - 1) && EvidenceOf(w, command, plan.steps, |plan.steps|) == []
  {
    hide AuditOf;
    hide plan.Valid;
    hide EvidenceOf;
    hide FailedOf;
    hide Checks;
    hide Runs;
    hide Guards.Guard;
    NonEmptyPlan(plan);
    if k0: nat :| StopsAtStep(w, config, command, plan, ending, effects, k0) {
      k := k0 + 1;
    } else {
      k := |plan.steps|;
    }
  }

  lemma NonEmptyPlan(plan: Plan)
    requires plan.Valid()
    ensures |plan.steps| >= 1
  {}

  /**
   Whenever an execution hands over an audit, its evidence belongs one to one, and in order, to the
   invocations that succeeded, and the invocations are those of a prefix of the plan.
   */
  lemma EvidenceMatchesInvocations(w: World, config: Config, command: Command, plan: Plan, ending: Ending, effects: seq<Effect>)
    requires Covers(w, plan) && plan.Valid() && Behaves(w, config, command, plan, ending, effects)
    requires ending.Completed? || ending.FailedWith?
    ensures var k := |ending.audit.invocations|;
            && 1 <= k <= |plan.steps|
            && ending.audit.invocations == InvocationsOf(w, plan.steps, k)
            && StepIds(ending.audit.evidence) == StepsWith(ending.audit.invocations, true)
            && |ending.audit.evidence| + |StepsWith(ending.audit.invocations, false)| == k
  {
    hide Behaves;
    var k := AuditHandedOver(w, config, command, plan, ending, effects);
    InvocationsAre(w, plan.steps, k);
    EvidenceFollowsInvocations(w, command, plan.steps, k);
  }

  /**
   When steps may fail, an audit always covers the whole plan, with one invocation a step; successes
   and failures add up to the number of steps, and only a lack of evidence counts as a tool failure.
   */
  lemma ContinueModeCoversPlan(w: World, config: Config, command: Command, plan: Plan, ending: Ending, effects: seq<Effect>)
    requires Covers(w, plan) && plan.Valid() && Behaves(w, config, command, plan, ending, effects)
    requires config.continueOnFailure && (ending.Completed? || ending.FailedWith?)
    ensures var n := |plan.steps|;
            && ending.audit.invocations == InvocationsOf(w, plan.steps, n)
            && ending.audit.evidence == EvidenceOf(w, command, plan.steps, n)
            && |ending.audit.evidence| + |FailedOf(w, plan.steps, n)| == n
            && (ending.FailedWith? && ending.cause.ToolFailed? ==> ending.audit.evidence == [])
  {
    hide Behaves;
    hide Reached;
    var k := AuditHandedOver(w, config, command, plan, ending, effects);
    EvidenceFollowsInvocations(w, command, plan.steps, |plan.steps|);
  }

  lemma {:induction false} NoFailures(w: World, config: Config, steps: seq<PlanStep>, k: nat)
    requires k <= |steps| && k <= |w.attempts| && Reached(w, config, k) && !config.continueOnFailure
    ensures FailedOf(w, steps, k) == []
  {
    if k > 0 { NoFailures(w, config, steps, k - 1); }
  }

  /**
   When no step may fail, a failed tool ends the execution with the evidence of all earlier steps, all
   of which succeeded, and exactly one failed invocation, the last; nothing runs after it.
   */
  lemma FailFastKeepsSuccesses(w: World, config: Config, command: Command, plan: Plan, ending: Ending, effects: seq<Effect>)
    requires Covers(w, plan) && plan.Valid() && Behaves(w, config, command, plan, ending, effects)
    requires !config.continueOnFailure && ending.FailedWith? && ending.cause.ToolFailed?
    ensures var k := ending.cause.step;
            && k < |plan.steps|
            && ending.audit.invocations == InvocationsOf(w, plan.steps, k + 1)
            && ending.audit.evidence == EvidenceOf(w, command, plan.steps, k) && |ending.audit.evidence| == k
            && (forall i :: 0 <= i < k ==> Succeeds(w.attempts[i])) && !Succeeds(w.attempts[k])
            && effects == Checks(|plan.steps|) + Runs(k + 1)
  {
    hide Behaves;
    var n := |plan.steps|;
    var k := AuditHandedOver(w, config, command, plan, ending, effects);
    NoFailures(w, config, plan.steps, k - 1);
    EvidenceFollowsInvocations(w, command, plan.steps, k - 1);
    if EvidenceOf(w, command, plan.steps, n) == [] {
      LastRunFailed(w, command, plan.steps, n);
    }
  }

  // ---------------------------------------------------------------- evidence identifiers

  /** The seed of the evidence that a successful run of step i gives. */
  function SeedOf(w: World, command: Command, steps: seq<PlanStep>, i: nat): string
    requires i < |steps| && i < |w.attempts| && Succeeds(w.attempts[i])
  {
    var outcome := w.attempts[i].outcome;
    EvidenceSeed(command, steps[i].id, EvidenceTypeFor(steps[i].tool), outcome.source, outcome.sha256)
  }

  /** The digest tells the seeds of this execution apart. */
  ghost predicate NoCollision(w: World, command: Command, plan: Plan)
    requires Covers(w, plan)
  {
    forall i, j :: 0 <= i < j < |plan.steps| && Succeeds(w.attempts[i]) && Succeeds(w.attempts[j]) ==>
      var a, b := SeedOf(w, command, plan.steps, i), SeedOf(w, command, plan.steps, j);
      w.digest(a) == w.digest(b) ==> a == b
  }

  lemma JoinCons(first: string, rest: seq<string>)
    requires rest != []
    ensures Join("|", [first] + rest) == first + "|" + Join("|", rest)
  {
    assert ([first] + rest)[1..] == rest;
  }

  function FirstBar(s: string): nat {
    if s == [] || s[0] == '|' then 0 else 1 + FirstBar(s[1..])
  }

  lemma {:induction false} BarComesAfter(a: string, x: string)
    requires '|' !in a
    ensures FirstBar(a + "|" + x) == |a|
  {
    if a != [] {
      BarComesAfter(a[1..], x);
      assert (a + "|" + x)[1..] == a[1..] + "|" + x;
    }
  }

  /** Texts without a bar are read back from before the first bar. */
  lemma CutAtBar(a: string, b: string, x: string, y: string)
    requires '|' !in a && '|' !in b && a + "|" + x == b + "|" + y
    ensures a == b
  {
    BarComesAfter(a, x);
    BarComesAfter(b, y);
    assert (a + "|" + x)[..|a|] == a && (b + "|" + y)[..|b|] == b;
  }

  lemma SeedForm(command: Command, stepId: string, kind: EvidenceType, source: string, sha256: string)
    ensures EvidenceSeed(command, stepId, kind, source, sha256)
         == (command.tenant + "|" + (command.run + "|" + (Decimal.Print(command.attempt) + "|")))
            + (stepId + "|" + Join("|", [KindName(kind), source, sha256]))
  {
    var tail := [KindName(kind), source, sha256];
    var number := Decimal.Print(command.attempt);
    JoinCons(stepId, tail);
    JoinCons(number, [stepId] + tail);
    JoinCons(command.run, [number] + ([stepId] + tail));
    JoinCons(command.tenant, [command.run] + ([number] + ([stepId] + tail)));
    assert [command.tenant, command.run, number, stepId, KindName(kind), source, sha256]
        == [command.tenant] + ([command.run] + ([number] + ([stepId] + tail)));
    Regroup(command.tenant, command.run, number, stepId + "|" + Join("|", tail));
  }

  lemma Regroup(a: string, b: string, c: string, d: string)
    ensures a + "|" + (b + "|" + (c + "|" + d)) == (a + "|" + (b + "|" + (c + "|"))) + d
  {}

  lemma CancelPrefix(p: string, x: string, y: string)
    requires p + x == p + y
    ensures x == y
  {
    assert (p + x)[|p|..] == x && (p + y)[|p|..] == y;
  }

  lemma IdentifierHasNoBar(s: string)
    requires IsIdentifier(s)
    ensures '|' !in s
  {
    forall i | 0 <= i < |s| ensures s[i] != '|' {
      assert WordAt(s, i);
    }
  }

  /** Within one execution, evidence of different steps has different seeds, though fields are joined unescaped. */
  lemma SeedsDiffer(command: Command, a: string, b: string, kindA: EvidenceType, kindB: EvidenceType,
                    sourceA: string, sourceB: string, shaA: string, shaB: string)
    requires IsIdentifier(a) && IsIdentifier(b) && a != b
    ensures EvidenceSeed(command, a, kindA, sourceA, shaA) != EvidenceSeed(command, b, kindB, sourceB, shaB)
  {
    if EvidenceSeed(command, a, kindA, sourceA, shaA) == EvidenceSeed(command, b, kindB, sourceB, shaB) {
      var p := command.tenant + "|" + (command.run + "|" + (Decimal.Print(command.attempt) + "|"));
      var x, y := Join("|", [KindName(kindA), sourceA, shaA]), Join("|", [KindName(kindB), sourceB, shaB]);
      SeedForm(command, a, kindA, sourceA, shaA);
      SeedForm(command, b, kindB, sourceB, shaB);
      CancelPrefix(p, a + "|" + x, b + "|" + y);
      IdentifierHasNoBar(a);
      IdentifierHasNoBar(b);
      CutAtBar(a, b, x, y);
    }
  }

  /** Item n of the evidence comes from the successful run of an earlier step. */
  lemma {:induction false} EvidenceComesFrom(w: World, command: Command, steps: seq<PlanStep>, k: nat, n: nat) returns (i: nat)
    requires k <= |steps| && k <= |w.attempts| && n < |EvidenceOf(w, command, steps, k)|
    ensures i < k && Succeeds(w.attempts[i])
    ensures EvidenceOf(w, command, steps, k)[n] == BuildEvidence(w.digest, command, steps[i], w.attempts[i].outcome)
  {
    hide BuildEvidence;
    if k == 0 { return; }
    if n < |EvidenceOf(w, command, steps, k - 1)| {
      i := EvidenceComesFrom(w, command, steps, k - 1, n);
    } else {
      i := k - 1;
    }
  }

  lemma BuiltIdsDiffer(w: World, command: Command, plan: Plan, i: nat, j: nat)
    requires Covers(w, plan) && plan.Valid() && NoCollision(w, command, plan) && i < j < |plan.steps|
    requires Succeeds(w.attempts[i]) && Succeeds(w.attempts[j])
    ensures BuildEvidence(w.digest, command, plan.steps[i], w.attempts[i].outcome).id
         != BuildEvidence(w.digest, command, plan.steps[j], w.attempts[j].outcome).id
  {
    var a, b := w.attempts[i].outcome, w.attempts[j].outcome;
    var x, y := SeedOf(w, command, plan.steps, i), SeedOf(w, command, plan.steps, j);
    assert w.digest(x) == w.digest(y) ==> x == y;
    SeedsDiffer(command, plan.steps[i].id, plan.steps[j].id, EvidenceTypeFor(plan.steps[i].tool), EvidenceTypeFor(plan.steps[j].tool),
                a.source, b.source, a.sha256, b.sha256);
  }

  lemma {:induction false} EvidenceIdsDistinct(w: World, command: Command, plan: Plan, k: nat)
    requires Covers(w, plan) && plan.Valid() && NoCollision(w, command, plan) && k <= |plan.steps|
    ensures NoDuplicates(Reports.Ids(EvidenceOf(w, command, plan.steps, k)))
    ensures |EvidenceOf(w, command, plan.steps, k)| <= k
    ensures forall n :: 0 <= n < |EvidenceOf(w, command, plan.steps, k)| ==> EvidenceOf(w, command, plan.steps, k)[n].command == command
  {
    hide BuildEvidence;
    hide NoCollision;
    if k > 0 {
      EvidenceIdsDistinct(w, command, plan, k - 1);
      if Succeeds(w.attempts[k - 1]) {
        var before := EvidenceOf(w, command, plan.steps, k - 1);
        var e := BuildEvidence(w.digest, command, plan.steps[k - 1], w.attempts[k - 1].outcome);
        BuiltFor(w, command, plan.steps[k - 1], w.attempts[k - 1].outcome);
        forall n | 0 <= n < |before| ensures before[n].id != e.id {
          var i := EvidenceComesFrom(w, command, plan.steps, k - 1, n);
          BuiltIdsDiffer(w, command, plan, i, k - 1);
        }
      }
    }
  }

  /** The evidence handed to the report generator always passes the generator's own checks. */
  lemma EvidenceIsReportable(w: World, command: Command, plan: Plan)
    requires Covers(w, plan) && plan.Valid() && NoCollision(w, command, plan) && |plan.steps| <= 100
    requires EvidenceOf(w, command, plan.steps, |plan.steps|) != []
    ensures Reports.ValidEvidence(command, EvidenceOf(w, command, plan.steps, |plan.steps|))
  {
    EvidenceIdsDistinct(w, command, plan, |plan.steps|);
  }

  // ---------------------------------------------------------------- completion

  /** A report comes only with evidence, and it is the guarded form of a generated report. */
  lemma CompletedNeedsEvidence(w: World, config: Config, command: Command, plan: Plan, ending: Ending, effects: seq<Effect>)
    requires Covers(w, plan) && plan.Valid() && config.caps.Valid() && Behaves(w, config, command, plan, ending, effects)
    requires w.generation.Generates? ==> w.generation.report.Valid()
    requires ending.Completed?
    ensures ending.audit.evidence != [] && w.generation.Generates?
    ensures Guards.Guard(config.caps, w.generation.report, ExpectedTypes(plan), CollectedTypes(ending.audit.evidence),
                         FailedOf(w, plan.steps, |plan.steps|)) == Some(ending.report)
    ensures ending.report.Valid() && !ending.report.status.Confirmed?
    ensures ending.report.confidence == 1.0 ==>
              forall i :: 0 <= i < |plan.steps| ==> EvidenceTypeFor(plan.steps[i].tool) in CollectedTypes(ending.audit.evidence)
  {
    hide Guards.Guard;
    hide AuditOf;
    var n := |plan.steps|;
    assert RunsToEnd(w, config, command, plan, ending, effects);
    AuditEvidence(w, command, plan.steps, n, ending.audit);
    FailedArePlain(w, plan, n);
    Guards.GuardBounds(config.caps, w.generation.report, ExpectedTypes(plan), CollectedTypes(ending.audit.evidence),
                       FailedOf(w, plan.steps, n));
    Guards.FullCoverageExactly(ExpectedTypes(plan), CollectedTypes(ending.audit.evidence));
    StepTypes(plan);
  }

  /** A completed execution reports with the greatest confidence that the generated report, the coverage and the caps allow. */
  lemma CompletedConfidenceIsGreatest(w: World, config: Config, command: Command, plan: Plan, ending: Ending, effects: seq<Effect>, x: real)
    requires Covers(w, plan) && plan.Valid() && config.caps.Valid() && Behaves(w, config, command, plan, ending, effects)
    requires w.generation.Generates? ==> w.generation.report.Valid()
    requires ending.Completed?
    ensures var expected, collected := ExpectedTypes(plan), CollectedTypes(ending.audit.evidence);
            var failed := FailedOf(w, plan.steps, |plan.steps|);
            && Guards.MayClaim(config.caps, w.generation.report, expected, collected, failed, ending.report.confidence)
            && (Guards.MayClaim(config.caps, w.generation.report, expected, collected, failed, x) ==> x <= ending.report.confidence)
  {
    CompletedNeedsEvidence(w, config, command, plan, ending, effects);
    hide Behaves;
    hide Guards.Guard;
    hide Guards.MayClaim;
    Guards.GuardedConfidenceIsGreatest(config.caps, w.generation.report, ExpectedTypes(plan), CollectedTypes(ending.audit.evidence),
                                       FailedOf(w, plan.steps, |plan.steps|), x);
  }

  /** The evidence of the n-th success is that tool's: its step, tool and kind, and the text and digest it delivered. */
  lemma EvidenceSays(w: World, command: Command, steps: seq<PlanStep>, k: nat, n: nat) returns (i: nat)
    requires k <= |steps| && k <= |w.attempts| && n < |EvidenceOf(w, command, steps, k)|
    ensures i < k && Succeeds(w.attempts[i])
    ensures var e := EvidenceOf(w, command, steps, k)[n];
            && e.command == command && e.stepId == steps[i].id && e.tool == steps[i].tool && e.kind == EvidenceTypeFor(steps[i].tool)
            && e.text == w.attempts[i].outcome.text && e.sha256 == w.attempts[i].outcome.sha256
            && e.id == w.digest(SeedOf(w, command, steps, i))
  {
    i := EvidenceComesFrom(w, command, steps, k, n);
    hide EvidenceOf;
    hide EvidenceSeed;
    hide EvidenceTypeFor;
  }

  lemma StepTypes(plan: Plan)
    ensures forall i :: 0 <= i < |plan.steps| ==> EvidenceTypeFor(plan.steps[i].tool) in ExpectedTypes(plan)
  {}

  lemma IdentifierIsPlain(s: string)
    requires IsIdentifier(s)
    ensures Guards.PlainText(s)
  {
    forall i | 0 <= i < |s| ensures Guards.Printable(s[i]) {
      assert WordAt(s, i);
    }
  }

  lemma {:induction false} FailedArePlain(w: World, plan: Plan, k: nat)
    requires Covers(w, plan) && plan.Valid() && k <= |plan.steps|
    ensures forall i :: 0 <= i < |FailedOf(w, plan.steps, k)| ==>
              |FailedOf(w, plan.steps, k)[i]| <= 128 && Guards.PlainText(FailedOf(w, plan.steps, k)[i])
    ensures |FailedOf(w, plan.steps, k)| <= k
  {
    hide Guards.PlainText;
    hide IsIdentifier;
    if k > 0 {
      FailedArePlain(w, plan, k - 1);
      IdentifierIsPlain(plan.steps[k - 1].id);
    }
  }

  lemma {:induction false} EvidenceMeansSuccess(w: World, command: Command, steps: seq<PlanStep>, k: nat)
    requires k <= |steps| && k <= |w.attempts|
    ensures EvidenceOf(w, command, steps, k) != [] <==> exists i :: 0 <= i < k && Succeeds(w.attempts[i])
  {
    hide BuildEvidence;
    hide Succeeds;
    if k > 0 { EvidenceMeansSuccess(w, command, steps, k - 1); }
  }

  /** Nothing outside interferes: preflight passes, nothing is cancelled and every run can be recorded. */
  ghost predicate Undisturbed(w: World) {
    && AllReady(w) && !w.generation.GenerationCancelled?
    && forall i :: 0 <= i < |w.attempts| ==> w.attempts[i].auditable && !w.attempts[i].outcome.IsCancelled?
  }

  /** The report comes from the deterministic generator. */
  ghost predicate Deterministic(w: World, digest: string -> string, command: Command, plan: Plan)
    requires Covers(w, plan)
  {
    var evidence := EvidenceOf(w, command, plan.steps, |plan.steps|);
    Reports.ValidEvidence(command, evidence) ==>
      w.generation == Generates(Reports.Generate(digest, command, evidence).head)
  }

  lemma {:induction false} EvidenceIsValid(w: World, command: Command, steps: seq<PlanStep>, k: nat)
    requires k <= |steps| && k <= |w.attempts| && command.Valid() && Reports.Digests(w.digest)
    ensures Reports.AllValid(EvidenceOf(w, command, steps, k))
  {
    hide IsLine;
    if k > 0 { EvidenceIsValid(w, command, steps, k - 1); }
  }

  /** Nothing failed, or the failed steps fit into the marker. */
  predicate MarkerFits(failed: seq<string>) { failed == [] || |Guards.Marker(failed)| <= 4095 }

  /**
   With the deterministic generator, an undisturbed execution that tolerates failures completes exactly
   when some tool succeeded and the marker of the failed steps is at most 4095 characters long. It then
   marks the failed steps, and otherwise fails for one of these two reasons.
   */
  lemma CompletesExactly(w: World, config: Config, digest: string -> string, command: Command, plan: Plan,
                         ending: Ending, effects: seq<Effect>)
    requires Covers(w, plan) && plan.Valid() && config.caps.Valid() && Behaves(w, config, command, plan, ending, effects)
    requires |plan.steps| <= 100 && config.continueOnFailure && Undisturbed(w) && NoCollision(w, command, plan)
    requires command.Valid() && Reports.Digests(w.digest) && Reports.Digests(digest) && Deterministic(w, digest, command, plan)
    ensures var failed := FailedOf(w, plan.steps, |plan.steps|);
            var succeeded := exists i :: 0 <= i < |plan.steps| && Succeeds(w.attempts[i]);
            && (ending.Completed? <==> succeeded && MarkerFits(failed))
            && (ending.Completed? ==> ending.report.status.Undetermined? && ending.report.confidence == 0.0
                                      && (failed != [] ==> EndsWith(ending.report.summary, Guards.Marker(failed))))
            && (!ending.Completed? ==>
                  && ending.FailedWith?
                  && (ending.cause.GuardedReportInvalid? <==> succeeded) && (ending.audit.evidence == [] <==> !succeeded))
  {
    hide AuditOf;
    hide Concludes;
    hide NoCollision;
    hide Reports.Generate;
    hide Reports.ValidEvidence;
    hide Reports.AllValid;
    hide Reports.Digests;
    hide IsLine;
    hide MarkerFits;
    hide EndsWith;
    var n := |plan.steps|;
    var evidence := EvidenceOf(w, command, plan.steps, n);
    assert Reached(w, config, n);
    assert RunsToEnd(w, config, command, plan, ending, effects);
    EvidenceMeansSuccess(w, command, plan.steps, n);
    if evidence == [] {
      AuditEvidence(w, command, plan.steps, n, ending.audit);
    } else {
      EvidenceIsReportable(w, command, plan);
      EvidenceIsValid(w, command, plan.steps, n);
      DeterministicConcludes(w, config, digest, command, plan, ending);
      AuditEvidence(w, command, plan.steps, n, ending.audit);
    }
  }

  lemma DeterministicConcludes(w: World, config: Config, digest: string -> string, command: Command, plan: Plan, ending: Ending)
    requires Covers(w, plan) && plan.Valid() && config.caps.Valid()
    requires Reports.ValidEvidence(command, EvidenceOf(w, command, plan.steps, |plan.steps|))
    requires Reports.AllValid(EvidenceOf(w, command, plan.steps, |plan.steps|)) && Reports.Digests(digest)
    requires Deterministic(w, digest, command, plan)
    requires Concludes(w, config, plan, EvidenceOf(w, command, plan.steps, |plan.steps|), FailedOf(w, plan.steps, |plan.steps|), ending)
    ensures var failed := FailedOf(w, plan.steps, |plan.steps|);
            && (ending.Completed? <==> MarkerFits(failed))
            && (ending.Completed? ==> ending.report.status.Undetermined? && ending.report.confidence == 0.0
                                      && (failed != [] ==> EndsWith(ending.report.summary, Guards.Marker(failed))))
            && (!ending.Completed? ==> ending.FailedWith? && ending.cause.GuardedReportInvalid?)
  {
    hide Guards.Guard;
    hide Guards.Marker;
    hide EndsWith;
    hide Contains;
    hide Reports.ValidEvidence;
    hide Reports.AllValid;
    hide Reports.Digests;
    hide IsLine;
    hide ExpectedTypes;
    hide CollectedTypes;
    var evidence := EvidenceOf(w, command, plan.steps, |plan.steps|);
    var failed := FailedOf(w, plan.steps, |plan.steps|);
    var report := Reports.Generate(digest, command, evidence).head;
    var expected, collected := ExpectedTypes(plan), CollectedTypes(evidence);
    Reports.GeneratedReportIsValid(digest, command, evidence);
    Reports.GeneratedSummaryIsUnmarked(digest, command, evidence);
    FailedArePlain(w, plan, |plan.steps|);
    Guards.GuardSucceedsExactly(config.caps, report, expected, collected, failed);
    if Guards.Guard(config.caps, report, expected, collected, failed).Some? {
      Guards.GuardBounds(config.caps, report, expected, collected, failed);
      GuardKeepsUndetermined(config.caps, report, expected, collected, failed);
    }
  }

  lemma GuardKeepsUndetermined(caps: Guards.Caps, report: Guards.Report, expected: set<EvidenceType>, collected: set<EvidenceType>,
                               failed: seq<string>)
    requires expected != {} && report.status.Undetermined? && Guards.Guard(caps, report, expected, collected, failed).Some?
    ensures Guards.Guard(caps, report, expected, collected, failed).value.status.Undetermined?
  {}

  /** Plans of at most 31 steps complete exactly when some tool succeeded. */
  lemma ShortPlansCompleteWithASuccess(w: World, config: Config, digest: string -> string, command: Command, plan: Plan,
                                       ending: Ending, effects: seq<Effect>)
    requires Covers(w, plan) && plan.Valid() && config.caps.Valid() && Behaves(w, config, command, plan, ending, effects)
    requires |plan.steps| <= 31 && config.continueOnFailure && Undisturbed(w) && NoCollision(w, command, plan)
    requires command.Valid() && Reports.Digests(w.digest) && Reports.Digests(digest) && Deterministic(w, digest, command, plan)
    ensures ending.Completed? <==> exists i :: 0 <= i < |plan.steps| && Succeeds(w.attempts[i])
  {
    hide Behaves;
    hide Deterministic;
    hide NoCollision;
    hide Reports.Digests;
    hide Guards.Marker;
    hide Guards.PlainText;
    var failed := FailedOf(w, plan.steps, |plan.steps|);
    CompletesExactly(w, config, digest, command, plan, ending, effects);
    FailedArePlain(w, plan, |plan.steps|);
    if failed != [] { Guards.FewFailuresFit(failed); }
  }

  // ---------------------------------------------------------------- a plan that cannot be reported

  /** 32 steps with long identifiers, and one more. */
  function LongSteps(): (r: seq<PlanStep>)
    ensures |r| == 33
    ensures forall k :: 0 <= k < 32 ==> r[k] == PlanStep(Guards.LongId(k), "logs.query", "v1")
    ensures r[32] == PlanStep("z", "metrics.query", "v1")
  {
    seq(33, k requires 0 <= k < 33 => if k < 32 then PlanStep(Guards.LongId(k), "logs.query", "v1") else PlanStep("z", "metrics.query", "v1"))
  }

  lemma LongIdIsIdentifier(k: nat)
    ensures IsIdentifier(Guards.LongId(k))
  {
    var s := Guards.LongId(k);
    forall i | 0 <= i < |s| ensures WordAt(s, i) {}
  }

  lemma LongPlanIsValid()
    ensures Plan(LongSteps()).Valid()
  {
    var steps := LongSteps();
    forall i | 0 <= i < |steps| ensures IsIdentifier(steps[i].id) && |steps[i].id| <= 128 {
      if i < 32 { LongIdIsIdentifier(i); } else { assert WordAt("z", 0); }
    }
    forall i, j | 0 <= i < j < |steps| ensures steps[i].id != steps[j].id {
      if j < 32 {
        assert Guards.LongId(i)[i] == 'b' && Guards.LongId(j)[i] == 'a';
      } else {
        assert |Guards.LongId(i)| == 128;
      }
    }
  }

  function LongPlan(): (plan: Plan)
    ensures plan.Valid() && plan.steps == LongSteps()
  {
    LongPlanIsValid();
    Plan(LongSteps())
  }

  lemma {:induction false} LongFailures(w: World, k: nat)
    requires k <= 32 && |w.attempts| == 33 && forall i :: 0 <= i < 32 ==> !Succeeds(w.attempts[i])
    ensures FailedOf(w, LongSteps(), k) == Guards.LongIds(k)
  {
    hide Succeeds;
    if k > 0 { LongFailures(w, k - 1); }
  }

  /**
   It can happen: in a plan of 33 steps the last one succeeds and the others fail. There is evidence, and
   there is no report.
   */
  lemma LongPlanIsNotReported(w: World, config: Config, digest: string -> string, command: Command, ending: Ending, effects: seq<Effect>)
    requires Covers(w, LongPlan()) && Behaves(w, config, command, LongPlan(), ending, effects)
    requires forall i :: 0 <= i < 33 ==> (Succeeds(w.attempts[i]) <==> i == 32)
    requires config.caps.Valid() && config.continueOnFailure && Undisturbed(w) && Deterministic(w, digest, command, LongPlan())
    requires command.Valid() && Reports.Digests(w.digest) && Reports.Digests(digest)
    ensures ending.FailedWith? && ending.cause.GuardedReportInvalid? && ending.audit.evidence != []
  {
    var plan := LongPlan();
    OneSuccessNoCollision(w, command, plan);
    LongFailed(w, plan);
    LongMarkerDoesNotFit();
    assert Succeeds(w.attempts[32]);
    hide Behaves;
    hide Deterministic;
    hide Reports.Digests;
    hide NoCollision;
    hide MarkerFits;
    hide FailedOf;
    hide LongPlan;
    hide plan.Valid;
    hide Undisturbed;
    hide Succeeds;
    CompletesExactly(w, config, digest, command, plan, ending, effects);
  }

  lemma LongFailed(w: World, plan: Plan)
    requires plan.steps == LongSteps() && Covers(w, plan)
    requires forall i :: 0 <= i < 33 ==> (Succeeds(w.attempts[i]) <==> i == 32)
    ensures FailedOf(w, plan.steps, 33) == Guards.LongIds(32)
  {
    hide Succeeds;
    LongFailures(w, 32);
    assert Guards.LongIds(32) + [] == Guards.LongIds(32);
  }

  lemma LongMarkerDoesNotFit()
    ensures !MarkerFits(Guards.LongIds(32))
  {
    hide Guards.Marker;
    hide Guards.PlainText;
    Guards.LongIdsArePlain(32);
    Guards.ManyFailuresDoNotFit(Guards.LongIds(32));
  }

  lemma OneSuccessNoCollision(w: World, command: Command, plan: Plan)
    requires Covers(w, plan) && |plan.steps| == 33 && forall i :: 0 <= i < 33 ==> (Succeeds(w.attempts[i]) <==> i == 32)
    ensures NoCollision(w, command, plan)
  {}
}
