/** A fixed tool plan: preflight of every step, execution in order, evidence and audit records. */
module ControlledWorkflow {
  import opened Outcomes
  import opened OrderedDict
  import opened Text
  import opened RcaDomain
  import Decimal
  import Guards = ReportGuardrails

  // ---------------------------------------------------------------- plans

  predicate Lower(c: char) { 'a' <= c <= 'z' }

  predicate LowerOrDigit(c: char) { Lower(c) || '0' <= c <= '9' }

  predicate Separator(c: char) { c == '.' || c == '_' || c == '-' }

  predicate WordAt(s: string, i: nat)
    requires i < |s|
  {
    LowerOrDigit(s[i]) || (Separator(s[i]) && i + 1 < |s| && LowerOrDigit(s[i + 1]))
  }

  /** `^[a-z][a-z0-9]*(?:[._-][a-z0-9]+)*$` */
  predicate IsIdentifier(s: string) {
    s != [] && Lower(s[0]) && forall i :: 0 <= i < |s| ==> WordAt(s, i)
  }

  datatype PlanStep = PlanStep(id: string, tool: string, version: string)

  datatype Plan = Plan(steps: seq<PlanStep>) {
    predicate Valid() {
      && steps != []
      && (forall i :: 0 <= i < |steps| ==> IsIdentifier(steps[i].id) && |steps[i].id| <= 128)
      && (forall i, j :: 0 <= i < j < |steps| ==> steps[i].id != steps[j].id)
    }
  }

  function EvidenceTypeFor(tool: string): EvidenceType {
    match tool
    case "metrics.query" => Metric
    case "changes.query" => Change
    case "logs.query" => Log
    case "traces.query" => Trace
    case "topology.query" => Topology
    case "knowledge.search" => Knowledge
    case _ => Runbook
  }

  datatype Config = Config(maxSteps: nat, continueOnFailure: bool, caps: Guards.Caps)

  // ---------------------------------------------------------------- the outside world

  datatype Error =
    | ToolMissing | RiskNotAllowed | PermissionDenied | PayloadTooLarge
    | ToolFailed(step: nat) | AuditRejected(step: nat) | ReportFailed | GuardedReportInvalid

  /** What preflight finds out about a step. */
  datatype Preflight = Missing | Risky | Denied | TooLarge | Ready

  /** What a tool run brings: a sanitized result, an error, or the cancellation of the workflow. */
  datatype ToolOutcome = Delivers(source: string, text: string, sha256: string) | Breaks | IsCancelled

  /** `auditable` is false when the audit record of the run cannot be built. */
  datatype Attempt = Attempt(outcome: ToolOutcome, auditable: bool)

  datatype Generation = Generates(report: Guards.Report) | GenerationFails | GenerationCancelled

  datatype World = World(preflight: seq<Preflight>, attempts: seq<Attempt>, generation: Generation, digest: string -> string)

  ghost predicate Covers(w: World, plan: Plan) {
    |w.preflight| == |plan.steps| && |w.attempts| == |plan.steps|
  }

  // ---------------------------------------------------------------- results

  datatype Invocation = Invocation(stepId: string, tool: string, succeeded: bool)

  datatype Audit = Audit(evidence: seq<Evidence>, invocations: seq<Invocation>)

  /** How `execute` ends: a result with its report, a failure that carries the audit so far, or another exception. */
  datatype Ending =
    | Completed(audit: Audit, report: Guards.Report)
    | FailedWith(audit: Audit, cause: Error)
    | Raised(error: Error)
    | Cancelled

  /** Everything the workflow did to the outside, in order. */
  datatype Effect = Checked(step: nat) | Ran(step: nat)

  function EvidenceSeed(command: Command, stepId: string, kind: EvidenceType, source: string, sha256: string): string {
    Join("|", [command.tenant, command.run, Decimal.Print(command.attempt), stepId, KindName(kind), source, sha256])
  }

  function BuildEvidence(digest: string -> string, command: Command, step: PlanStep, outcome: ToolOutcome): Evidence
    requires outcome.Delivers?
  {
    var kind := EvidenceTypeFor(step.tool);
    Evidence(digest(EvidenceSeed(command, step.id, kind, outcome.source, outcome.sha256)),
             command, step.id, step.tool, kind, outcome.text, outcome.sha256)
  }

  // ---------------------------------------------------------------- what the audit must say

  predicate Succeeds(a: Attempt) { a.outcome.Delivers? }

  /** The evidence of the successful runs among the first k, in order. */
  function EvidenceOf(w: World, command: Command, steps: seq<PlanStep>, k: nat): seq<Evidence>
    requires k <= |steps| && k <= |w.attempts|
  {
    if k == 0 then []
    else
      EvidenceOf(w, command, steps, k - 1)
      + if Succeeds(w.attempts[k - 1]) then [BuildEvidence(w.digest, command, steps[k - 1], w.attempts[k - 1].outcome)] else []
  }

  /** The invocations of the first k runs, in plan order. */
  function InvocationsOf(w: World, steps: seq<PlanStep>, k: nat): seq<Invocation>
    requires k <= |steps| && k <= |w.attempts|
  {
    if k == 0 then []
    else InvocationsOf(w, steps, k - 1) + [Invocation(steps[k - 1].id, steps[k - 1].tool, Succeeds(w.attempts[k - 1]))]
  }

  function FailedOf(w: World, steps: seq<PlanStep>, k: nat): seq<string>
    requires k <= |steps| && k <= |w.attempts|
  {
    if k == 0 then []
    else FailedOf(w, steps, k - 1) + if Succeeds(w.attempts[k - 1]) then [] else [steps[k - 1].id]
  }

  /** The audit after the first k runs: one invocation a step, in plan order, and the evidence of those that succeeded. */
  ghost predicate AuditOf(w: World, command: Command, steps: seq<PlanStep>, k: nat, audit: Audit)
    requires k <= |steps| && k <= |w.attempts|
  {
    && audit.invocations == InvocationsOf(w, steps, k)
    && audit.evidence == EvidenceOf(w, command, steps, k)
  }

  /** The run of step k lets the workflow go on to the next step. */
  predicate GoesOn(config: Config, a: Attempt) {
    !a.outcome.IsCancelled? && a.auditable && (a.outcome.Delivers? || config.continueOnFailure)
  }

  /** The steps before k all went on. */
  ghost predicate Reached(w: World, config: Config, k: nat)
    requires k <= |w.attempts|
  {
    forall i :: 0 <= i < k ==> GoesOn(config, w.attempts[i])
  }

  ghost predicate AllReady(w: World) {
    forall i :: 0 <= i < |w.preflight| ==> w.preflight[i].Ready?
  }

  function PreflightError(p: Preflight): Error
    requires !p.Ready?
  {
    match p
    case Missing => ToolMissing
    case Risky => RiskNotAllowed
    case Denied => PermissionDenied
    case TooLarge => PayloadTooLarge
  }

  function ExpectedTypes(plan: Plan): (r: set<EvidenceType>)
    ensures plan.steps != [] ==> r != {}
  {
    var r := set s | s in plan.steps :: EvidenceTypeFor(s.tool);
    assert plan.steps != [] ==> EvidenceTypeFor(plan.steps[0].tool) in r;
    r
  }

  function CollectedTypes(evidence: seq<Evidence>): set<EvidenceType> {
    set e | e in evidence :: e.kind
  }

  function Checks(n: nat): seq<Effect> { if n == 0 then [] else Checks(n - 1) + [Checked(n - 1)] }

  function Runs(n: nat): seq<Effect> { if n == 0 then [] else Runs(n - 1) + [Ran(n - 1)] }

  /** A preflight that stops at step k: nothing has run. */
  ghost predicate StopsInPreflight(w: World, ending: Ending, effects: seq<Effect>, k: nat) {
    && k < |w.preflight| && !w.preflight[k].Ready? && (forall i :: 0 <= i < k ==> w.preflight[i].Ready?)
    && ending == Raised(PreflightError(w.preflight[k]))
    && effects == Checks(k + 1)
  }

  /** An execution that stops at step k, after the preflight of all steps. */
  ghost predicate StopsAtStep(w: World, config: Config, command: Command, plan: Plan,
                              ending: Ending, effects: seq<Effect>, k: nat)
    requires Covers(w, plan)
  {
    && AllReady(w) && k < |plan.steps| && Reached(w, config, k) && !GoesOn(config, w.attempts[k])
    && effects == Checks(|plan.steps|) + Runs(k + 1)
    && if w.attempts[k].outcome.IsCancelled? then ending == Cancelled
       else if !w.attempts[k].auditable then ending == Raised(AuditRejected(k))
       else ending.FailedWith? && ending.cause == ToolFailed(k) && AuditOf(w, command, plan.steps, k + 1, ending.audit)
  }

  /** An execution of every step, followed by the report if there is evidence to report on. */
  ghost predicate RunsToEnd(w: World, config: Config, command: Command, plan: Plan, ending: Ending, effects: seq<Effect>)
    requires Covers(w, plan) && plan.Valid()
  {
    var n := |plan.steps|;
    && AllReady(w) && Reached(w, config, n)
    && effects == Checks(n) + Runs(n)
    && (ending.Completed? || ending.FailedWith? ==> AuditOf(w, command, plan.steps, n, ending.audit))
    && if EvidenceOf(w, command, plan.steps, n) == [] then
         ending.FailedWith? && ending.cause == ToolFailed(n - 1)
       else Concludes(w, config, plan, EvidenceOf(w, command, plan.steps, n), FailedOf(w, plan.steps, n), ending)
  }

  /** The report stage: generation, then guardrails. */
  ghost predicate Concludes(w: World, config: Config, plan: Plan, evidence: seq<Evidence>, failed: seq<string>, ending: Ending)
    requires plan.Valid()
  {
    match w.generation
    case GenerationCancelled => ending == Cancelled
    case GenerationFails => ending.FailedWith? && ending.cause == ReportFailed
    case Generates(report) =>
      var guarded := Guards.Guard(config.caps, report, ExpectedTypes(plan), CollectedTypes(evidence), failed);
      if guarded.Some? then ending.Completed? && ending.report == guarded.value
      else ending.FailedWith? && ending.cause == GuardedReportInvalid
  }

  /** How an execution may end, and what it did to the outside. */
  ghost predicate Behaves(w: World, config: Config, command: Command, plan: Plan, ending: Ending, effects: seq<Effect>)
    requires Covers(w, plan) && plan.Valid()
  {
    || (exists k :: StopsInPreflight(w, ending, effects, k))
    || (exists k :: StopsAtStep(w, config, command, plan, ending, effects, k))
    || RunsToEnd(w, config, command, plan, ending, effects)
  }

  // ---------------------------------------------------------------- the workflow

  method PrepareSteps(w: World, plan: Plan) returns (error: Option<Error>, effects: seq<Effect>)
    requires Covers(w, plan)
    ensures error.None? ==> AllReady(w) && effects == Checks(|plan.steps|)
    ensures error.Some? ==> exists k :: StopsInPreflight(w, Raised(error.value), effects, k)
  {
    effects := [];
    for i := 0 to |plan.steps|
      invariant effects == Checks(i)
      invariant forall j :: 0 <= j < i ==> w.preflight[j].Ready?
    {
      effects := effects + [Checked(i)];
      if !w.preflight[i].Ready? {
        assert StopsInPreflight(w, Raised(PreflightError(w.preflight[i])), effects, i);
        return Some(PreflightError(w.preflight[i])), effects;
      }
    }
    error := None;
  }

  method Conclude(w: World, config: Config, plan: Plan, audit: Audit, failed: seq<string>) returns (ending: Ending)
    requires plan.Valid()
    ensures Concludes(w, config, plan, audit.evidence, failed, ending)
    ensures ending.Completed? || ending.FailedWith? ==> ending.audit == audit
    ensures !ending.Raised?
  {
    match w.generation {
      case GenerationCancelled => ending := Cancelled;
      case GenerationFails => ending := FailedWith(audit, ReportFailed);
      case Generates(report) =>
        var guarded := Guards.Guard(config.caps, report, ExpectedTypes(plan), CollectedTypes(audit.evidence), failed);
        ending := if guarded.Some? then Completed(audit, guarded.value) else FailedWith(audit, GuardedReportInvalid);
    }
  }

  method Execute(w: World, config: Config, command: Command, plan: Plan) returns (ending: Ending, effects: seq<Effect>)
    requires Covers(w, plan) && plan.Valid() && |plan.steps| <= config.maxSteps
    ensures Behaves(w, config, command, plan, ending, effects)
  {
    hide AuditOf;
    hide Concludes;
    hide BuildEvidence;
    hide ExpectedTypes;
    var error, checks := PrepareSteps(w, plan);
    effects := checks;
    if error.Some? { return Raised(error.value), effects; }
    var steps := plan.steps;
    var evidence: seq<Evidence> := [];
    var invocations: seq<Invocation> := [];
    var failed: seq<string> := [];
    var lastFailure: Option<Error> := None;
    EmptyAudit(w, command, steps);
    for k := 0 to |steps|
      invariant effects == Checks(|steps|) + Runs(k)
      invariant Reached(w, config, k)
      invariant AuditOf(w, command, steps, k, Audit(evidence, invocations))
      invariant failed == FailedOf(w, steps, k)
      invariant k > 0 && !Succeeds(w.attempts[k - 1]) ==> lastFailure == Some(ToolFailed(k - 1))
    {
      var attempt := w.attempts[k];
      effects := effects + [Ran(k)];
      assert effects == Checks(|steps|) + Runs(k + 1);
      if attempt.outcome.IsCancelled? {
        assert StopsAtStep(w, config, command, plan, Cancelled, effects, k);
        return Cancelled, effects;
      }
      if !attempt.auditable {
        assert StopsAtStep(w, config, command, plan, Raised(AuditRejected(k)), effects, k);
        return Raised(AuditRejected(k)), effects;
      }
      AuditExtends(w, command, steps, k, Audit(evidence, invocations));
      if attempt.outcome.Breaks? {
        assert evidence + [] == evidence;
        invocations := invocations + [Invocation(steps[k].id, steps[k].tool, false)];
        lastFailure := Some(ToolFailed(k));
        failed := failed + [steps[k].id];
        if !config.continueOnFailure {
          ending := FailedWith(Audit(evidence, invocations), ToolFailed(k));
          assert StopsAtStep(w, config, command, plan, ending, effects, k);
          return ending, effects;
        }
        continue;
      }
      evidence := evidence + [BuildEvidence(w.digest, command, steps[k], attempt.outcome)];
      invocations := invocations + [Invocation(steps[k].id, steps[k].tool, true)];
    }
    var audit := Audit(evidence, invocations);
    AuditEvidence(w, command, steps, |steps|, audit);
    if evidence == [] {
      LastRunFailed(w, command, steps, |steps|);
      return FailedWith(audit, lastFailure.value), effects;
    }
    ending := Conclude(w, config, plan, audit, failed);
  }

  lemma EmptyAudit(w: World, command: Command, steps: seq<PlanStep>)
    ensures AuditOf(w, command, steps, 0, Audit([], []))
  {}

  lemma AuditExtends(w: World, command: Command, steps: seq<PlanStep>, k: nat, audit: Audit)
    requires k < |steps| && k < |w.attempts| && AuditOf(w, command, steps, k, audit)
    ensures var invocation := Invocation(steps[k].id, steps[k].tool, Succeeds(w.attempts[k]));
            AuditOf(w, command, steps, k + 1, Audit(
              audit.evidence + (if Succeeds(w.attempts[k]) then [BuildEvidence(w.digest, command, steps[k], w.attempts[k].outcome)] else []),
              audit.invocations + [invocation]))
  {
    assert audit.evidence + [] == audit.evidence;
  }

  lemma AuditEvidence(w: World, command: Command, steps: seq<PlanStep>, k: nat, audit: Audit)
    requires k <= |steps| && k <= |w.attempts| && AuditOf(w, command, steps, k, audit)
    ensures audit.evidence == EvidenceOf(w, command, steps, k)
  {}

  lemma LastRunFailed(w: World, command: Command, steps: seq<PlanStep>, k: nat)
    requires 0 < k <= |steps| && k <= |w.attempts| && EvidenceOf(w, command, steps, k) == []
    ensures !Succeeds(w.attempts[k - 1])
  {}

  /** The kind of evidence each tool gives; every other tool gives a runbook. */
  lemma ToolKinds(tool: string)
    ensures EvidenceTypeFor("metrics.query") == Metric && EvidenceTypeFor("changes.query") == Change && EvidenceTypeFor("logs.query") == Log
    ensures EvidenceTypeFor("traces.query") == Trace && EvidenceTypeFor("topology.query") == Topology
    ensures EvidenceTypeFor("knowledge.search") == Knowledge
    ensures tool !in ["metrics.query", "changes.query", "logs.query", "traces.query", "topology.query", "knowledge.search"] ==>
              EvidenceTypeFor(tool) == Runbook
  {
    var known := ["metrics.query", "changes.query", "logs.query", "traces.query", "topology.query", "knowledge.search"];
    assert known[0] in known && known[1] in known && known[2] in known && known[3] in known && known[4] in known && known[5] in known;
  }
}
