# DevOps agent platform: a verified model

This project models the parts of the controlled RCA platform whose correctness is not visible in one
function body, and proves what they promise: over every topology, every interleaving, every failure and
every sequence of calls. `dafny verify dfyconfig.toml` checks all of it.

| module | what it models |
|---|---|
| `Topology`, `CausalTraversal`, `CausalTree` | the depth-bounded walk over the admissible edges of a topology |
| `CausalAliases`, `CausalContext`, `CausalExactness`, `CausalAcceptance`, `DynamicGuardrails` | node names, requested edges, evidence citations, impact scores, the context of a report, and when the report takes it |
| `CircuitBreaker`, `CircuitRuns`, `CircuitHistory` | the generation-fenced circuit breaker under concurrent calls |
| `ModelReport`, `ModelSelection`, `EvidenceReport`, `RootCauses` | reports written by the model or by rule, candidate selection, evidence selection, one whole `generate` call |
| `ControlledWorkflow`, `WorkflowTheorems`, `ReportGuardrails`, `PartialReports` | preflight, execution, audit and guarded report of a tool plan, and which failed steps the report names |
| `RuntimeLifecycle`, `RuntimeRuns`, `RuntimeSoundness`, `RuntimeOverlap`, `RuntimeInterleaving`, `CloseDuringStart`, `ReadinessProbe` | start-up and shutdown under failures, in any order and interleaved, the single-flight database probe |
| `LoadRunner`, `LoadResults` | the bounded-queue load generator and the totals it reports |
| `ReleasePublishing`, `ReleaseRetries` | publishing release assets over crashes and retries |
| `EdgeMerging`, `EvaluationChain`, `EvaluationChainFacts`, `EvaluationChainExactly` | the causal chain derived for evaluation runs |
| `Evaluation`, `EvaluationGate` | evaluation reports, their validator and the release gate |
| `DatasetCuration`, `CurationPipeline` | adding reviewed cases to the evaluation dataset, and evaluating what was added |
| `ShardMerge`, `ShardResults` | merging benchmark shards |
| `Outcomes`, `OrderedDict`, `Sorting`, `Counting`, `Text`, `Decimal`, `Rates`, `FiniteSets`, `RcaDomain` | shared vocabulary: Python dictionaries, `sorted`, `Counter`, string methods, numerals, exact fractions |

Methods follow the code step by step and are proved against specifications; the lemmas are about those
specifications. Concurrency is modelled as state machines whose steps are the stretches of code between
two awaits (or under one lock), taken in any order. Clocks, networks, tools, providers, digests, case
folding, redaction and regular expressions are parameters; digests are assumed to tell the seeds of one
execution apart where that is stated (`NoCollision`). Confidences, rates and durations are exact reals.

## Where the code does not do what one might expect

Each of these is a theorem with the exact condition, and a lemma at an input the code can receive:

- A wedged breaker: if a half-open probe ends without reporting (the monotonic clock raises inside
  `_record_failure`, or the call dies of something other than `CancelledError`), no call is ever let
  through again; otherwise the breaker can always recover (`CircuitRuns.RecoversUnlessProbeAbandoned`,
  at two concrete calls `ModelReport.UnreadableClockWedges`).
- Guarding a report raises, and the workflow fails, exactly when a confirmed report names a root cause
  type or the failure marker to be added is longer than 4095 characters (`ReportGuardrails.GuardSucceedsExactly`,
  `ReportGuardrails.ConfirmedRootCauseRaises`, `ReportGuardrails.LongMarkerRaises`). A plan of 33 steps
  can collect evidence and still end without a report (`WorkflowTheorems.LongPlanIsNotReported`); plans
  of at most 31 steps cannot.
- A partial execution may complete without naming the steps that failed: exactly when the generated
  summary already speaks of a partial collection and does not name them itself
  (`PartialReports.NamesFailedStepsExactly`). A model's response can do that
  (`PartialReports.ModelHidesFailure`), the deterministic generator never does.
- The dynamic workflow replaces the root of a report by a node of the topology, and a report that names the
  root cause type of a selected candidate is refused unless that node is called like the candidate's
  service (`CausalAcceptance.BuiltAccepted`, `DynamicGuardrails.GuardrailsSucceedExactly`). The platform
  identifies its service nodes as "service:<name>", so a report that names the plain service fails
  (`CausalAcceptance.ServiceNodeIsRefused`, `DynamicGuardrails.ServiceNodeRaises`). Beyond 100 nodes a
  valid topology can also give a context that no report takes (`CausalAcceptance.LargeTopologyIsRefused`).
- Shutdown promises that it is safe to repeat. A raising `request_stop` aborts the whole shutdown
  (`RuntimeRuns.ClosedExactly`, `RuntimeRuns.RaisingStopNeverCloses`). A sequence of calls closes
  something twice, or is closed with a task that never ended, exactly when a close shut the runtime
  before its first start and that start creates a task or fails and shuts it again
  (`RuntimeSoundness.SoundExactly`; `RuntimeRuns.CloseBeforeStartLeaks` is the leaked task,
  `RuntimeSoundness.CloseThenFailedStart` the engine disposed of twice). Closes that overlap close
  everything once each (`RuntimeOverlap.ClosedOnceExactly`, `RuntimeOverlap.OverlapClosesTwice`), and a
  close that passes its stop requests before a start under way creates its tasks leaves them running
  (`RuntimeInterleaving.KeptExactly`, `CloseDuringStart.CloseDuringStartLeaks`).
- A run of the load generator hangs exactly when every worker has died while jobs are queued
  (`LoadResults.StuckExactlyWhenHung`), and a configuration has such a run exactly when it plans more
  requests than it has workers (`LoadResults.HangsExactly`, `LoadResults.RunCanHang`).
- A report and evidence text may mean different nodes by one name: exactly when the last node it
  identifies is not the last one so named or, where it identifies none, when two nodes share it
  (`CausalAliases.ResolveAgreesWithSearch`, `CausalAliases.SharedNameResolvesDifferently`,
  `CausalAliases.IdentifierMeansAnotherNode`).
- The gate's validator accepts an evaluation report exactly when all its identifiers and versions are
  non-empty and without white space; evaluation itself demands less of them
  (`EvaluationGate.ValidatorAgreesExactly`, `EvaluationGate.InnerSpaceIsRejected`,
  `EvaluationGate.EmptyIdentifierIsRejected`). For datasets that pass curation only the versions of the
  run matter (`CurationPipeline.ValidDatasetsAreAccepted`).
- In exact arithmetic the gate's tolerance hides a failed case behind a rate of 1 from 1,000,000,000
  cases on, not before (`EvaluationGate.FullRateExactly`, `EvaluationGate.LargeReportPasses`). Rounding to doubles moves the first such size slightly, to 999,999,973.
- Passing the gate is transitive unless the first and the last run have the same metadata, in which
  case the comparison raises (`EvaluationGate.PassingIsTransitive`).
- Retrying a release converges exactly when the remote holds nothing else under the local names and local
  assets of one name have one content; if the client refuses to download a file twice into one directory, no
  name may be listed twice at all (`ReleaseRetries.RetryingConverges`). A file listed twice makes the first
  undisturbed run fail in any case (`ReleaseRetries.RepeatedAsset`).
- The selected counts of a merge add up to the runs exactly when no path that gave the last version of
  a run was given twice (`ShardResults.SelectedPartition`, `ShardResults.PathGivenTwice`).
- Impact scores are rounded to six places, so the bound is the rounded reciprocal of the depth
  (`CausalContext.BlastScores`).

## Model

| member | source | states |
|---|---|---|
| CausalTraversal.Traverse | src/devops_agent_platform/causal_context.py:186-217 | the queue-and-visited-set walk ends on every graph, cyclic ones included, and yields a traversal: each visit is the first open edge, in scanning order, to a node not found yet, and none is left |
| CausalTree.CoversExactlyTheReachable | src/devops_agent_platform/causal_context.py:186-217 | a node is a target of the chain if and only if it is not the root and an admissible path of at most the depth bound leads to it from the root |
| CausalTree.DepthsAreShortest | src/devops_agent_platform/causal_context.py:193-215 | the recorded depth is the length of a shortest admissible path |
| CausalTree.ChainOrder | src/devops_agent_platform/causal_context.py:186-217 | targets never repeat and are never the root; depths never decrease along the output |
| CausalTree.TreePathLeads | src/devops_agent_platform/causal_context.py:186-217 | the visits from the root to a node form an admissible path as long as its depth, and the recorded confidence is the product of the confidences on it |
| CausalTree.TreePathUnique | src/devops_agent_platform/causal_context.py:186-217 | the output is a tree: a chain of visited edges from the root to a node can only be its tree path |
| CausalTree.ConfidenceFalls | src/devops_agent_platform/causal_context.py:197-215 | every edge starts at the root or an earlier target, and its confidence lies in [0, 1] and does not exceed its parent's |
| CausalTree.TraversalUnique | src/devops_agent_platform/causal_context.py:186-217 | the topology and the evidence determine the output: any two traversals of one query are equal |
| CausalTree.ListingDoesNotMatter | src/devops_agent_platform/causal_context.py:186-217 | topologies that list the same edges in different orders have the same traversal |
| Topology.OutgoingIgnoresEdgeOrder | src/devops_agent_platform/domain/models/topology.py:238-244 | outgoing edges come in an order that depends only on their keys |
| CausalAliases.ResolveMeans | src/devops_agent_platform/causal_context.py:246-269 | a name resolves to the last node so identified, else to the first node so named, and to nothing exactly when no node is |
| CausalAliases.NamesExactly | src/devops_agent_platform/causal_context.py:246-266 | a service is named by its folded name, with the prefix "service:" and without the suffix "-service"; a resource by its folded name and with the prefix "resource:" |
| CausalAliases.ResolveAgreesWithSearch | src/devops_agent_platform/causal_context.py:246-276 | for every name the search knows, resolution knows it too and means the same node exactly when the last node it identifies is the last one so named or, where it identifies none, when no two nodes share it |
| CausalAliases.SharedNameResolvesDifferently | src/devops_agent_platform/causal_context.py:246-276 | one service in two environments: a report that names it means the first node, a log line the second |
| CausalAliases.IdentifierMeansAnotherNode | src/devops_agent_platform/causal_context.py:246-276 | a resource identified by the name of one service: a report means the resource, a log line the service |
| CausalContext.RequestedEdges | src/devops_agent_platform/causal_context.py:144-166 | the loop computes the requested edges: for each pair of resolved nodes the last non-empty list of citable identifiers |
| CausalContext.RequestedGrounded | src/devops_agent_platform/causal_context.py:144-166 | every requested edge cites at least one identifier, all of them evidence of the report, and none twice unless the report's own chain does |
| CausalContext.ObservedMeans | src/devops_agent_platform/causal_context.py:169-183 | a node is observed exactly when evidence other than a topology snapshot mentions one of its names |
| CausalContext.Impact | src/devops_agent_platform/causal_context.py:220-242 | the loop yields the ordered dictionary of the scores, and the affected services are its keys in order |
| CausalContext.BlastScores | src/devops_agent_platform/causal_context.py:220-242 | every score comes from the last visited node of that service, and is the lesser of the confidences of the path to it and of the node, divided by the depth and rounded half to even to six places; or it is the root's own confidence; it lies in [0, 1] and is at most the rounded reciprocal of the depth |
| CausalContext.ChainGrounded | src/devops_agent_platform/causal_context.py:91-121 | every chain edge cites a non-empty list of identifiers, all drawn from the report's evidence; none twice when neither the report's chain nor the evidence repeats one |
| CausalExactness.RootMeans | src/devops_agent_platform/causal_context.py:130-142 | the root is the node meant by the resource if the topology knows it, else by the suspected root, else by the service of the incident, and there is none exactly if the topology does not know that text |
| CausalExactness.RequestedExactly | src/devops_agent_platform/causal_context.py:144-166 | an edge is requested exactly if an item of the report with citable evidence resolves to its ends, and cites what the last such item cites |
| CausalExactness.CitableExactly | src/devops_agent_platform/causal_context.py:144-166 | an identifier is citable exactly if the report lists it and a topology snapshot or trace of the evidence bears it |
| CausalExactness.CitedInOrder | src/devops_agent_platform/causal_context.py:144-166 | citable identifiers keep the order of the report |
| CausalExactness.SnapshotsInOrder | src/devops_agent_platform/causal_context.py:91-98 | topology snapshots are cited in the order of the evidence |
| CausalExactness.AdmitsExactly | src/devops_agent_platform/causal_context.py:202-212 | an edge is followed exactly if the report requests it, evidence other than a snapshot mentions its target, a trace showed it, or its source has no other edge |
| CausalExactness.ChainCovers | src/devops_agent_platform/causal_context.py:68-117 | of a whole build: the chain leads to a node, other than the root, if and only if a path of such edges within the depth bound does |
| CausalExactness.ChainCites | src/devops_agent_platform/causal_context.py:105-112 | each edge of the chain cites the citable evidence of the last item that requests it, each as often as listed, and if none does exactly the topology snapshots of the report |
| CausalExactness.AffectedAre | src/devops_agent_platform/causal_context.py:118-128 | the affected services are exactly those of the nodes the chain leads to and, if the report names a root cause type, of the root, once each |
| CausalExactness.ScoresAre | src/devops_agent_platform/causal_context.py:220-242 | each score is the lesser of the product of confidences on a shortest followed path and the confidence of its node, divided by the length of the path and rounded; or the root's own confidence when a root cause type is named |
| CausalExactness.OtherwiseEmpty | src/devops_agent_platform/causal_context.py:76-99 | without an actionable cause, a root or a snapshot the context has no edges, services or scores |
| CausalAcceptance.ContextAcceptedWhenSmall | src/devops_agent_platform/domain/models/rca_report.py:217-261 | the checks a report makes of its topology context pass for a computed context if and only if it has at most 100 edges and 100 services, whatever the topology |
| CausalAcceptance.BuiltAccepted | src/devops_agent_platform/domain/models/rca_report.py:217-319 | a valid report takes whatever the builder returns if and only if that has at most 100 edges and 100 services and, with a topology, a root cause type and a selected candidate, the root found in the topology is called like the candidate's service |
| CausalAcceptance.ContextBounded | src/devops_agent_platform/causal_context.py:186-242 | a context has at most as many edges, and as many services, as the topology has nodes |
| CausalAcceptance.LargeTopologyIsRefused | src/devops_agent_platform/domain/models/rca_report.py:220-221 | a hub with 101 callees: the context has more than 100 edges and the report does not take it |
| CausalAcceptance.ServiceNodeIsRefused | src/devops_agent_platform/domain/models/rca_report.py:315-319 | a valid report names "inventory-service", the only node is "service:inventory-service", and the report does not take the context |
| CausalAcceptance.UnidentifiedServiceIsRefused | src/devops_agent_platform/domain/models/rca_report.py:315-319 | with a topology in which no node is identified by the selected candidate's service the report never takes the context |
| DynamicGuardrails.ApplyGuardrails | src/devops_agent_platform/agent/dynamic_workflow.py:316-350 | the guarded report is the prepared one with a built context, and there is none exactly if one of the replacements is not a valid report |
| DynamicGuardrails.GuardrailsSucceedExactly | src/devops_agent_platform/agent/dynamic_workflow.py:316-350 | guarding a valid report succeeds if and only if it is not confirmed with a root cause type, the marker of failed steps has at most 4095 characters, the context has at most 100 edges and 100 services, and the root found is called like the selected candidate's service where a root cause type is named |
| DynamicGuardrails.GuardedBounds | src/devops_agent_platform/agent/dynamic_workflow.py:323-337 | a guarded report is valid, loses the status "confirmed" and no other, has the greatest confidence that is at most the stated one and, without sufficient evidence, 0.4, and ends with the marker of the failed steps, if any, after as much of its summary as fits |
| DynamicGuardrails.GuardedHasContext | src/devops_agent_platform/agent/dynamic_workflow.py:338-350 | its root, chain, services and scores are those built for it, and nothing else of its body changes |
| DynamicGuardrails.ServiceNodeRaises | src/devops_agent_platform/agent/dynamic_workflow.py:338-350 | a valid report and a topology with its one service for which guarding raises |
| CausalContext.BuildIsDeterministic | src/devops_agent_platform/causal_context.py:68-128 | two builds from the same inputs, with the topology listed in any order, give the same context |
| CircuitBreaker.Breaker.AcquirePermit | src/devops_agent_platform/agent/llm_report_generator.py:572-589 | the new state and the permit are those of the specification step |
| CircuitBreaker.Breaker.RecordFailure | src/devops_agent_platform/agent/llm_report_generator.py:602-619 | the new state is that of the specification step, for current, stale and half-open permits |
| CircuitRuns.EveryRunKeepsInvariant | src/devops_agent_platform/agent/llm_report_generator.py:572-630 | in every interleaving permits are never ahead of the generation, current ones are half-open exactly while open, at most one probe is out, exactly when the flag says so, and failures stay below the threshold and are 0 while open |
| CircuitRuns.OpenSinceFailure | src/devops_agent_platform/agent/llm_report_generator.py:602-619 | an open breaker was opened by a reported failure and stays open until the recovery time after that reading |
| CircuitRuns.ProbeWaitsForRecovery | src/devops_agent_platform/agent/llm_report_generator.py:572-589 | no permit is granted by an open breaker at a reading below the opening reading plus the recovery time |
| CircuitRuns.RecoversUnlessProbeAbandoned | src/devops_agent_platform/agent/llm_report_generator.py:572-630 | from any state of any run some continuation lets a new call through, if and only if no current probe was abandoned |
| CircuitRuns.ProbeCanBeAbandoned | src/devops_agent_platform/agent/llm_report_generator.py:602-606 | a concrete sequence of steps that abandons a probe |
| ModelReport.UnreadableClockWedges | src/devops_agent_platform/agent/llm_report_generator.py:602-606 | two concrete calls, the second of which fails while the clock cannot be read, after which no call is ever let through |
| CircuitHistory.CountersFollowHistory | src/devops_agent_platform/agent/llm_report_generator.py:572-630 | the counters refine a history: the failure count is the number of failures since the last success of the current period, stale outcomes change nothing |
| CircuitHistory.HistoryWellFormed | src/devops_agent_platform/agent/llm_report_generator.py:591-619 | a closed breaker opens exactly on the threshold-th failure in a row, an open one changes exactly on the result of one probe |
| EvidenceReport.OrderDoesNotMatter | src/devops_agent_platform/agent/report_generator.py:26-87 | for any two orders of evidence with distinct identifiers the deterministic report and the model's evidence selection are the same |
| EvidenceReport.GeneratedReportIsValid | src/devops_agent_platform/agent/report_generator.py:26-67 | evidence that passes validation always gives a report that passes the report's own checks: identifiers, title, summary, unique citations, sorted positive counts that add up, recommendations, generator |
| EvidenceReport.GeneratedSummaryIsUnmarked | src/devops_agent_platform/agent/report_generator.py:53-57 | the generated summary never contains the words that stop a workflow from adding its failure marker |
| EvidenceReport.CountsPassChecks | src/devops_agent_platform/domain/models/rca_report.py:177-203 | the sorted type counts of any non-empty evidence are ordered, unique, positive and add up to the number of items |
| EvidenceReport.GeneratedSays | src/devops_agent_platform/agent/report_generator.py:26-67 | the generated report cites every item once in the order of identifiers, counts each kind, and concludes nothing at confidence 0 |
| EvidenceReport.GeneratedSummaryCounts | src/devops_agent_platform/agent/report_generator.py:40-57 | the summary gives the number of items and the number of each kind |
| EvidenceReport.SelectedAreSmallest | src/devops_agent_platform/agent/llm_report_generator.py:242-273 | the evidence sent to the model has as many items as allowed, and no item left out has a smaller identifier |
| ModelReport.SelectionIsACandidate | src/devops_agent_platform/agent/llm_report_generator.py:433-541 | whatever the response says, the selection is nothing or one of the deterministic candidates, with exactly that candidate's service, type and resource |
| ModelReport.SelectionFitsReport | src/devops_agent_platform/domain/models/rca_report.py:263-319 | every accepted selection passes the report's checks of its root cause |
| ModelSelection.SelectedIsNamed | src/devops_agent_platform/agent/llm_report_generator.py:473-505 | the candidate selected is the one whose identifier the response gives; only when it gives none of them may a single candidate be taken; without a conclusion nothing is named or selected |
| ModelSelection.ChosenIsStated | src/devops_agent_platform/agent/llm_report_generator.py:513-541 | the service, type and resource of a chosen root cause are those the response states, the type as the taxonomy reads it, the resource absent exactly if null |
| ModelSelection.LegacyTakesStrongest | src/devops_agent_platform/agent/llm_report_generator.py:441-472 | a legacy response gets the first candidate, and no candidate has a higher score |
| ModelSelection.CorrectResponseIsAccepted | src/devops_agent_platform/agent/llm_report_generator.py:433-541 | a response that names a candidate and states it correctly is accepted, and so is one that dismisses a candidate without an actionable cause |
| ModelSelection.CalibrationIsGreatest | src/devops_agent_platform/agent/llm_report_generator.py:715-727 | calibration gives the greatest confidence that is at most the stated one, 0.9, and 0.7 without strong, unopposed evidence, and refuses scores below 0.5 |
| RootCauses.OnlyTheSelectedCandidateFits | src/devops_agent_platform/domain/models/rca_report.py:263-319 | a root cause with a type is valid only as exactly that of its selected candidate, which is one of the candidates |
| ModelReport.BuiltReportIsValid | src/devops_agent_platform/agent/llm_report_generator.py:275-387 | a report built from a response passes all checks of the report, is never confirmed, cites only evidence that was sent, and its confidence is capped at 0.9 by a candidate of score at least 0.5 |
| ModelSelection.BuiltReportSays | src/devops_agent_platform/agent/llm_report_generator.py:275-387 | a built report has the response's conclusion and identifiers in order, and its title, summary and recommendations as far as they survive redaction and the length limits |
| ModelSelection.BuiltReportCounts | src/devops_agent_platform/agent/llm_report_generator.py:311-325 | its counts are those of the items it cites |
| ModelSelection.BuiltReportClaims | src/devops_agent_platform/agent/llm_report_generator.py:275-387 | its selection is the response's, and its confidence the stated one or, with a candidate, the greatest that calibration allows |
| ModelSelection.GoodResponseIsAccepted | src/devops_agent_platform/agent/llm_report_generator.py:275-387 | a response with plain texts, distinct evidence of the request and an acceptable selection of a strong enough candidate becomes a report with these texts |
| ModelReport.Generate | src/devops_agent_platform/agent/llm_report_generator.py:167-240 | the answer and the breaker's new state for every outcome of the provider call, with either clock failing at either reading |
| ModelReport.AnswersExactly | src/devops_agent_platform/agent/llm_report_generator.py:167-240 | a permitted call answers with the model's report exactly if it is delivered, can be built and stamped, is cancelled exactly with the provider call, answers by rule exactly if the failure could be recorded and the rule's report stamped, and raises otherwise; a refused call answers by rule |
| ModelReport.EveryAnswerIsValid | src/devops_agent_platform/agent/llm_report_generator.py:167-240 | every report a call returns passes all modelled checks of the report, those of its root cause included, is not confirmed, and cites only evidence of this execution |
| ModelReport.CallIsPartOfARun | src/devops_agent_platform/agent/llm_report_generator.py:182-238 | a call gives its permit back exactly once; it abandons it if and only if it is killed, or it brings neither a report nor a cancellation while the clock cannot be read |
| ControlledWorkflow.PrepareSteps | src/devops_agent_platform/agent/controlled_workflow.py:502-536 | preflight stops at the first step that is not ready, and otherwise has checked all of them |
| ControlledWorkflow.Execute | src/devops_agent_platform/agent/controlled_workflow.py:327-452 | every execution stops in preflight, stops at the first step that must stop it, or runs to the end, with the audit and effects of exactly that |
| WorkflowTheorems.NothingRunsBeforePreflight | src/devops_agent_platform/agent/controlled_workflow.py:337-353 | a tool runs only after every step passed preflight; tools run at most once, in plan order |
| WorkflowTheorems.PreflightDecides | src/devops_agent_platform/agent/controlled_workflow.py:502-536 | the first step that is not ready decides the error of the execution, and no tool runs |
| WorkflowTheorems.FirstInterruptDecides | src/devops_agent_platform/agent/controlled_workflow.py:343-399 | after preflight the first run that is cancelled, cannot be recorded or fails where it must not decides the ending, in that order of precedence |
| WorkflowTheorems.ReportDecides | src/devops_agent_platform/agent/controlled_workflow.py:400-452 | when no run ends the execution, the ending is the last tool failure without evidence, and otherwise follows the report generator and the guardrails |
| WorkflowTheorems.EvidenceSays | src/devops_agent_platform/agent/controlled_workflow.py:583-623 | each item of evidence has the step, tool and kind of a successful run, the text and digest it delivered, and the digest of its seed as identifier |
| ControlledWorkflow.ToolKinds | src/devops_agent_platform/agent/controlled_workflow.py:495-500 | the kind of evidence of each tool, and a runbook for every other |
| WorkflowTheorems.EvidenceMatchesInvocations | src/devops_agent_platform/agent/controlled_workflow.py:343-420 | in every audit handed over the evidence belongs, in order and one to one, to the succeeded invocations of a prefix of the plan |
| WorkflowTheorems.ContinueModeCoversPlan | src/devops_agent_platform/agent/controlled_workflow.py:343-429 | when steps may fail there is one invocation a step in plan order, and successes plus failed steps equal the step count |
| WorkflowTheorems.FailFastKeepsSuccesses | src/devops_agent_platform/agent/controlled_workflow.py:367-399 | when no step may fail, the failure carries all prior successes and exactly one failed invocation, the last, and nothing runs after it |
| WorkflowTheorems.SeedsDiffer | src/devops_agent_platform/agent/controlled_workflow.py:703-724 | evidence of different steps has different identifier seeds, although fields are joined unescaped |
| WorkflowTheorems.EvidenceIsReportable | src/devops_agent_platform/agent/report_generator.py:101-126 | unless the digest confuses two seeds of this execution, the collected evidence always passes the report generators' validation |
| WorkflowTheorems.CompletedNeedsEvidence | src/devops_agent_platform/agent/controlled_workflow.py:417-452 | a completed execution has evidence, its report is the guarded form of a generated one, and full confidence means every planned evidence type was collected |
| WorkflowTheorems.CompletedConfidenceIsGreatest | src/devops_agent_platform/agent/controlled_workflow.py:454-483 | a completed execution reports with the greatest confidence that is at most the generated one, the coverage of planned types, the report cap and, only if some step failed, the partial cap |
| WorkflowTheorems.CompletesExactly | src/devops_agent_platform/agent/controlled_workflow.py:327-452 | with the deterministic generator, for every plan the configuration accepts, an undisturbed failure-tolerant execution completes if and only if some tool succeeded and the failure marker has at most 4095 characters; it then names the failed steps, and otherwise fails for one of the two reasons |
| WorkflowTheorems.ShortPlansCompleteWithASuccess | src/devops_agent_platform/agent/controlled_workflow.py:327-452 | up to 31 steps such an execution completes if and only if some tool succeeded |
| WorkflowTheorems.LongPlanIsNotReported | src/devops_agent_platform/agent/controlled_workflow.py:431-447 | a plan of 33 steps that collects evidence and ends without a report |
| PartialReports.NamesFailedStepsExactly | src/devops_agent_platform/agent/controlled_workflow.py:454-493 | whatever report was generated, a completed execution's summary names every failed step if and only if the generated one lacks the words "Partial collection:" or names them all itself |
| PartialReports.ModelHidesFailure | src/devops_agent_platform/agent/controlled_workflow.py:486-493 | of two tools the second fails, a model's response whose summary says that nothing is missing is accepted, and the execution completes with that summary |
| ReportGuardrails.FullCoverageExactly | src/devops_agent_platform/agent/controlled_workflow.py:461-465 | type coverage is the number of collected planned types over the number of planned ones; it lies in [0, 1] and is 1 exactly when each was collected |
| ReportGuardrails.GuardBounds | src/devops_agent_platform/agent/controlled_workflow.py:454-493 | a guarded report is valid, loses the status "confirmed" and no other, and is at most as confident as the generated one, the coverage and the caps; its summary ends with the failure marker when some step failed and the generated one lacks the words "Partial collection:", and is unchanged when none failed |
| ReportGuardrails.GuardedConfidenceIsGreatest | src/devops_agent_platform/agent/controlled_workflow.py:461-483 | the guarded confidence is the greatest that is at most the generated one, the coverage, the report cap and, only if some step failed, the partial cap |
| ReportGuardrails.MarkedKeepsSummary | src/devops_agent_platform/agent/controlled_workflow.py:487-493 | before the marker stands the generated summary as far as it fits, without white space at its end |
| ReportGuardrails.MarkedOnce | src/devops_agent_platform/agent/controlled_workflow.py:487-493 | a marked summary is never marked again |
| ReportGuardrails.GuardSucceedsExactly | src/devops_agent_platform/agent/controlled_workflow.py:454-493 | guarding a valid report raises exactly when it is confirmed and has a root cause type, or when a marker has to be added that is longer than 4095 characters |
| ReportGuardrails.FewFailuresFit | src/devops_agent_platform/agent/controlled_workflow.py:487-493 | up to 31 failed steps with identifiers of up to 128 characters the marker leaves room for the summary |
| ReportGuardrails.ManyFailuresDoNotFit | src/devops_agent_platform/agent/controlled_workflow.py:487-493 | 32 such steps make a marker of 4162 characters |
| ReportGuardrails.LongMarkerRaises | src/devops_agent_platform/agent/controlled_workflow.py:454-493 | a valid report and 32 failed steps for which guarding raises |
| ReportGuardrails.ConfirmedRootCauseRaises | src/devops_agent_platform/agent/controlled_workflow.py:475-484 | a valid confirmed report for which guarding raises whatever was collected |
| ReportGuardrails.DefaultPlansAlwaysFit | src/devops_agent_platform/agent/controlled_workflow.py:207-208 | within the default step limit only a confirmed report with a root cause type can fail to be guarded |
| RuntimeLifecycle.Runtime.Start | src/devops_agent_platform/bootstrap/runtime.py:345-442 | state, log and reply after a start, whichever stage raises, including the clean-up it triggers |
| RuntimeLifecycle.Runtime.Close | src/devops_agent_platform/bootstrap/runtime.py:444-448 | state, log and reply after a close, whichever of its actions raise |
| RuntimeLifecycle.AwaitShutdown | src/devops_agent_platform/bootstrap/runtime.py:703-729 | whatever a task does, before or after its deadline, it has ended on return; its own error is always kept, its cancellation only if the shutdown did not ask for it |
| RuntimeLifecycle.Runtime.CloseResources | src/devops_agent_platform/bootstrap/runtime.py:615-701 | all stop requests, then the waits, then every closing, with the errors collected on the way |
| RuntimeRuns.EveryLifeIsOrderly | src/devops_agent_platform/bootstrap/runtime.py:345-448 | in every sequence of calls that begins with a start, whatever raises: stop requests precede waits, every created task has ended before the publisher closes, then authenticator, managed resources in reverse, engine; nothing is closed twice; once closed, everything has been |
| RuntimeRuns.ClosedExactly | src/devops_agent_platform/bootstrap/runtime.py:615-628 | the runtime is closed if and only if some failed start or close met no raising stop request |
| RuntimeRuns.RaisingStopNeverCloses | src/devops_agent_platform/bootstrap/runtime.py:618-628 | while one worker raises on every stop request, no number of closes ends its task or disposes of the engine |
| RuntimeRuns.CloseReportsFirstError | src/devops_agent_platform/bootstrap/runtime.py:670-701 | a close raises exactly when one of its actions did, and then the error of the first of them; closing again does nothing |
| RuntimeRuns.StartReportsFirstError | src/devops_agent_platform/bootstrap/runtime.py:345-442 | a first start raises exactly when one of its actions did, and then the error of the first raising stop request of its clean-up or, without one, of the first action that raised; a second start raises and does nothing |
| RuntimeRuns.SuccessfulStartDoes | src/devops_agent_platform/bootstrap/runtime.py:345-438 | a start that reports success has checked the database, read the clock, started the publisher and launched and created the task of every worker, each exactly if configured, and looked at the tasks that had ended |
| RuntimeRuns.StartedExactly | src/devops_agent_platform/bootstrap/runtime.py:345-448 | a runtime is marked as started exactly if its first start succeeded and no later close went through; closes after one that closed the runtime before that start do nothing |
| RuntimeRuns.ClosingExactly | src/devops_agent_platform/bootstrap/runtime.py:615-628 | a runtime is marked as closing exactly if some call was a close or a first start that failed |
| RuntimeRuns.ForcedExactly | src/devops_agent_platform/bootstrap/runtime.py:703-729 | a task is cancelled by the shutdown exactly if it outlasts its deadline or fails with a timeout of its own |
| RuntimeRuns.CloseBeforeStartLeaks | src/devops_agent_platform/bootstrap/runtime.py:444-448 | after a close, a later successful start creates tasks that no later call ever ends |
| RuntimeSoundness.SoundExactly | src/devops_agent_platform/bootstrap/runtime.py:345-448 | for every sequence of starts and closes, whatever raises: nothing is closed twice and a closed runtime has ended every task it created, if and only if it is not so that a close without a raising stop request came before the first start and that start creates a task, or fails and meets no raising stop request |
| RuntimeSoundness.CloseThenFailedStart | src/devops_agent_platform/bootstrap/runtime.py:345-448 | a close and then a start whose database check fails: the engine is disposed of twice |
| RuntimeOverlap.ClosedOnceExactly | src/devops_agent_platform/bootstrap/runtime.py:444-448 | under every interleaving of close calls everything is closed exactly once if and only if some call met no raising stop request and only one such call acted while the runtime was still open |
| RuntimeOverlap.OverlapClosesTwice | src/devops_agent_platform/bootstrap/runtime.py:444-448 | a schedule of two calls that disposes of the engine twice |
| RuntimeInterleaving.KeptExactly | src/devops_agent_platform/bootstrap/runtime.py:345-448 | one start and any number of closes in every interleaving of their stretches: when no call is under way, nothing was closed twice and a closed runtime has no task left, if and only if at most one call, the start's own shutdown included, got past its stop requests, and none before the start created its tasks |
| RuntimeInterleaving.EntersExactly | src/devops_agent_platform/bootstrap/runtime.py:444-448 | a close gets past its stop requests exactly when it finds the runtime open and no worker raises, a start exactly when it fails and no worker raises |
| RuntimeInterleaving.StretchRaisesExactly | src/devops_agent_platform/bootstrap/runtime.py:352-438 | a stretch of the start raises exactly if an action whose outcome it learns raises: the one awaited before, or one it performs itself |
| CloseDuringStart.CloseDuringStartLeaks | src/devops_agent_platform/bootstrap/runtime.py:352-366 | a close during the database check of the start: the runtime ends up started and closed, with a task that nobody ends |
| ReadinessProbe.Readiness.Recheck | src/devops_agent_platform/bootstrap/runtime.py:529-532 | with the lock a fresh result is the answer and gives the lock back; otherwise the caller keeps it and probes |
| ReadinessProbe.Readiness.Store | src/devops_agent_platform/bootstrap/runtime.py:533-544 | the result is cached, the time only if the clock can be read, and the lock is free again |
| ReadinessProbe.EveryInterleavingKeeps | src/devops_agent_platform/bootstrap/runtime.py:523-551 | with any number of callers, cancellations and clock failures: one probe at a time, finished probes at least the TTL apart, and every answer from the caller's own probe or one that ended less than the TTL before its reading |
| ReadinessProbe.FreshAnswersAtOnce | src/devops_agent_platform/bootstrap/runtime.py:523-528 | while the last probe is younger than the TTL a caller is answered at once with its result, lock or no lock |
| ReadinessProbe.LostClockForcesProbe | src/devops_agent_platform/bootstrap/runtime.py:533-544 | a probe after which the clock cannot be read answers nobody and frees the lock; its result is kept under the old time, so the next caller probes again |
| ReadinessProbe.WaitersShareTheProbe | src/devops_agent_platform/bootstrap/runtime.py:529-532 | a waiting caller that gets the lock within the TTL answers with the finished probe and starts none |
| ReadinessProbe.NoTtlNoCache | src/devops_agent_platform/bootstrap/runtime.py:546-551 | with a TTL of 0 every answer is the caller's own probe |
| ReadinessProbe.EveryWaiterCanBeAnswered | src/devops_agent_platform/bootstrap/runtime.py:529-544 | from every state of every interleaving a waiting caller can be answered within three moves |
| LoadRunner.EveryStateKeepsInvariant | ops/load/run_load.py:494-554 | at every step of every interleaving the produced indices are queued, in flight, results, dropped or lost with their worker, each once, and the queue keeps its bound |
| LoadRunner.JobsAreTakenInOrder | ops/load/run_load.py:515-545 | jobs are queued, and so taken, in the order in which they were produced |
| LoadResults.StuckExactlyWhenHung | ops/load/run_load.py:526-554 | a run that is not over can go no further exactly when every worker died while jobs are queued |
| LoadResults.HangsExactly | ops/load/run_load.py:494-554 | a valid set-up has a run that hangs if and only if it plans more requests than it has workers |
| LoadResults.DropsExactly | ops/load/run_load.py:515-525 | a set-up has a run that drops a request if and only if it plans more requests than the queue holds |
| LoadResults.RunCanHang | ops/load/run_load.py:526-554 | an accepted configuration, one worker for two requests, has a run that hangs |
| LoadResults.RunsEnd | ops/load/run_load.py:494-554 | the number of steps of a run is bounded by the planned requests and the workers |
| LoadResults.ReturnedRunIsComplete | ops/load/run_load.py:549-561 | when a run returns, each planned index is exactly once a result or a drop |
| LoadResults.HealthyRunReturns | ops/load/run_load.py:549-561 | if no worker died, a run that can go no further has returned |
| LoadResults.ReturnedRunProfile | ops/load/run_load.py:412-631 | for every configuration and every run that returns, error rate and check rate of the profile lie in [0, 1] and add up to 1, the error rate is the part of the planned requests that were dropped or not answered with a status from 200 to 299, and the status distribution adds up to the planned count, each planned index being one result or one drop |
| LoadResults.DistributionEntries | ops/load/run_load.py:583-584 | each entry of the distribution is the number of results with that outcome, or the number of drops |
| LoadResults.DistributionLists | ops/load/run_load.py:583-584 | the distribution lists the outcomes that occurred and the drops, in order and once each |
| LoadResults.LabelsAre | ops/load/run_load.py:526-545 | an outcome is listed under its status, or as a timeout or transport error |
| LoadResults.RatesMean | ops/load/run_load.py:576-631 | for any outcomes the error rate is the number of requests not answered with a status from 200 to 299 plus the drops, over the planned ones, and the check rate the rest; the error rate is 0 exactly if all were so answered and none dropped |
| LoadResults.PlannedExactly | ops/load/run_load.py:412-412 | the planned requests are the least number, at least 1, that is not below rate times minutes |
| LoadResults.WorkersExactly | ops/load/run_load.py:505-548 | the number of workers is the least that is at least 4 and twice the requests a second, but at most the maximum; the queue holds two jobs for each allowed worker |
| LoadResults.Percentile | ops/load/run_load.py:716-720 | the nearest-rank value, and 0 for no values |
| ReleasePublishing.Client.Publish | scripts/publish-github-release.py:122-141 | one run, broken off anywhere: uploads of new names only, none at all when contents differ; undisturbed, it changes nothing if contents differ or a file would have to be downloaded twice and the client does not overwrite it; otherwise it uploads the missing assets up to the first whose name the remote has by then, and succeeds if there is none |
| ReleaseRetries.NeverOverwritten | scripts/publish-github-release.py:130-141 | through any sequence of runs, crashes and other publishers an asset keeps its content |
| ReleaseRetries.MissingInOrder | scripts/publish-github-release.py:130-141 | assets are uploaded and reported in the order in which they are listed |
| ReleaseRetries.ExistingInOrder | scripts/publish-github-release.py:129-137 | existing assets are compared in the order in which they are listed |
| ReleaseRetries.ConflictIsFinal | scripts/publish-github-release.py:135-137 | after a conflict every later run fails and changes nothing |
| ReleaseRetries.SuccessMeansPresent | scripts/publish-github-release.py:139-141 | a successful run leaves every local asset present with equal content |
| ReleaseRetries.SuccessIsFinal | scripts/publish-github-release.py:122-141 | after a successful run every later one uploads nothing |
| ReleaseRetries.UndisturbedSucceedsExactly | scripts/publish-github-release.py:122-141 | an undisturbed run succeeds if and only if no content differs, no two missing assets share a name and, for a client that refuses to download a file twice into one directory, no two existing ones do |
| ReleaseRetries.RetryingConverges | scripts/publish-github-release.py:122-141 | for either kind of client and in every history, interrupted at will, in which others add nothing that conflicts: among undisturbed runs that outnumber half the local assets some run succeeds if and only if nothing on the remote conflicted at the start and local assets of one name have one content or, for a client that does not overwrite downloads, no name is listed twice |
| ReleaseRetries.OneRunIsEnough | scripts/publish-github-release.py:122-141 | when no name is listed twice the next undisturbed run succeeds and everything is present, and the one after it uploads nothing |
| ReleaseRetries.RepeatedAsset | scripts/publish-github-release.py:130-141 | one file listed twice on an empty remote: the first undisturbed run fails, and the second succeeds if and only if downloads overwrite files |
| ReleaseRetries.InconsistentNeverSucceeds | scripts/publish-github-release.py:156-160 | local assets of one name and different content are never published successfully |
| EdgeMerging.Deduplicate | src/devops_agent_platform/evaluation/causal_builder.py:256-272 | the loop computes the merged chain |
| EdgeMerging.MergedKeys | src/devops_agent_platform/evaluation/causal_builder.py:256-272 | merged edges have distinct ends, in the order of first occurrence |
| EdgeMerging.MergedEvidence | src/devops_agent_platform/evaluation/causal_builder.py:264-271 | each merged edge cites exactly the evidence of all edges between its ends, each item once, in order of first mention |
| EdgeMerging.MergingInStages | src/devops_agent_platform/evaluation/causal_builder.py:256-272 | merging a merged chain with more edges equals merging all edges at once |
| EdgeMerging.MergingTwice | src/devops_agent_platform/evaluation/causal_builder.py:256-272 | merging is idempotent |
| EvaluationChain.Build | src/devops_agent_platform/evaluation/causal_builder.py:41-125 | the builder raises exactly when some edge cannot be constructed, and otherwise returns the merged candidates and the affected services |
| EvaluationChainFacts.ChainIsGrounded | src/devops_agent_platform/evaluation/causal_builder.py:78-109 | every edge leads from the resource to the root, or from the root to the entry, along an arrow or to an observed service, never to itself, and cites a non-empty part of the supplied evidence |
| EvaluationChainFacts.MergedGrounded | src/devops_agent_platform/evaluation/causal_builder.py:256-272 | merging never makes an edge that could not be constructed |
| EvaluationChainFacts.AffectedExactly | src/devops_agent_platform/evaluation/causal_builder.py:111-125 | affected services are listed once each: those of the root, the entry, the chain's service targets and exactly the allowed proposals |
| EvaluationChainFacts.TidyNeverRaises | src/devops_agent_platform/evaluation/causal_builder.py:98-108 | with distinct evidence, distinct support and well-formed names the builder never raises |
| EvaluationChainExactly.ChainExactly | src/devops_agent_platform/evaluation/causal_builder.py:78-109 | an edge of the chain cites an item if and only if the item supports the step from the resource to the root, or the propagation from the root along the rules for its kind, or a proposed edge of that form cites it and the evidence supplies it |
| EvaluationChainExactly.AffectedAre | src/devops_agent_platform/evaluation/causal_builder.py:111-125 | the affected services are those of the cause, of the entry or else the incident, of the chain's targets, and of exactly the proposals that stand for the root, the entry, the resource or a service the evidence names |
| EvaluationChainExactly.AffectedBegins | src/devops_agent_platform/evaluation/causal_builder.py:111-125 | the service of the cause comes first, then that of the entry or else the incident |
| EvaluationChainExactly.AmongInOrder | src/devops_agent_platform/evaluation/causal_builder.py:60-65 | supplied identifiers keep their order |
| EvaluationChainExactly.DirectInOrder | src/devops_agent_platform/evaluation/causal_builder.py:160-170 | direct support keeps the order of the evidence |
| EvaluationChain.NodeExactly | src/devops_agent_platform/causal_context.py:32-45 | the node a text stands for: "service:" and the full name for a text with that prefix, the suffix "-service" or one of the four short names, else the text without "resource:" |
| Evaluation.IndexedItems | ops/product/run_evaluation.py:143-162 | the loop accepts exactly lists with distinct, trimmed, non-empty case identifiers, and keeps their order |
| Evaluation.Evaluate | ops/product/run_evaluation.py:32-83 | the report in document order, for exactly the inputs that evaluation accepts |
| Evaluation.PassesExactly | ops/product/run_evaluation.py:86-140 | a case and each of its parts pass exactly on the expected answer, the cited evidence and the claims made; an unanswered case fails in all parts |
| Evaluation.RatesOfReport | ops/product/run_evaluation.py:51-83 | every rate lies in [0, 1], none is below the overall rate, and the report passed exactly when that is 1 |
| Evaluation.RatesMean | ops/product/run_evaluation.py:51-83 | each rate is the number of cases that passed on its term over the number of cases |
| Evaluation.ReportLists | ops/product/run_evaluation.py:51-140 | the report lists the cases of the dataset in order, each with exactly the required evidence that was not cited and the forbidden claims that were made |
| Evaluation.LackingInOrder | ops/product/run_evaluation.py:86-140 | missing evidence keeps the order of the dataset |
| Evaluation.OccurringInOrder | ops/product/run_evaluation.py:86-140 | forbidden claims keep the order of the dataset |
| Evaluation.FindMeans | ops/product/run_evaluation.py:45-49 | a case is judged by the response under its identifier |
| Evaluation.EvaluatedFits | ops/product/run_evaluation.py:32-50 | what is evaluated fits together: one dataset and version, a run, known cases, and no case or response twice |
| EvaluationGate.ValidatorAgreesExactly | ops/product/compare_evaluation_reports.py:108-209 | the gate accepts an evaluation report if and only if its identifiers and versions are non-empty and without white space |
| EvaluationGate.InnerSpaceIsRejected | ops/product/compare_evaluation_reports.py:304-308 | a dataset with a case "a b" is evaluated, and the gate rejects the report |
| EvaluationGate.EmptyIdentifierIsRejected | ops/product/compare_evaluation_reports.py:108-138 | a dataset with an empty identifier is evaluated, and the gate rejects the report |
| EvaluationGate.AcceptedIsHonest | ops/product/compare_evaluation_reports.py:108-245 | an accepted report counts its cases, passed exactly if all cases did, each case exactly if its parts did, lists no case twice, and gives rates within a thousand millionth of those of its cases |
| EvaluationGate.IncomparableIsRefused | ops/product/compare_evaluation_reports.py:66-105 | reports of different datasets, versions or cases or of one run are not compared, nor under a policy that is too lax |
| EvaluationGate.FullRateExactly | ops/product/compare_evaluation_reports.py:191-209 | in exact arithmetic a reported rate of 1 means that all cases passed if and only if there are fewer than 1,000,000,000 cases |
| EvaluationGate.PassMeansNoForbiddenClaim | ops/product/compare_evaluation_reports.py:263-295 | in exact arithmetic, below that size a candidate that passes makes no forbidden claim in any case |
| EvaluationGate.LargeReportsMayHideOne | ops/product/compare_evaluation_reports.py:204-207 | from that size on an accepted report may claim a full rate over one failed case |
| EvaluationGate.LargeReportPasses | ops/product/compare_evaluation_reports.py:248-295 | for every such size a baseline and a candidate that the gate passes although one case makes a forbidden claim |
| EvaluationGate.PassingIsTransitive | ops/product/compare_evaluation_reports.py:248-295 | passing in two stages is passing at once, or raises when the outer runs are the same |
| EvaluationGate.MutualPassMeansEqual | ops/product/compare_evaluation_reports.py:284-294 | runs that pass against each other have equal metrics |
| EvaluationGate.GateDecidesExactly | ops/product/compare_evaluation_reports.py:66-105 | two evaluated runs on one dataset pass if and only if enough cases pass, none makes a forbidden claim and no metric counts fewer cases than before |
| DatasetCuration.BuildEvidence | ops/product/curate_evaluation_candidate.py:195-248 | the loop accepts exactly the mappings that fit, and returns the public items in order |
| DatasetCuration.MappingIsBijection | ops/product/curate_evaluation_candidate.py:199-245 | equal length and equal sets make the mapping a bijection between curated and candidate items |
| DatasetCuration.VersionRoundTrip | ops/product/curate_evaluation_candidate.py:377-383 | printing and reading a version are inverse in both directions |
| DatasetCuration.CurationKeepsValidity | ops/product/curate_evaluation_candidate.py:43-86 | a curated dataset is valid again, with the next version and one sample appended that has exactly the curated fields and items, and nothing else changed |
| DatasetCuration.CurationIsReviewed | ops/product/curate_evaluation_candidate.py:43-86 | a curation rests on a review of that candidate, approved also for privacy, that names the next version; the case is new and requires only evidence of its own |
| DatasetCuration.MappedItemsAreRewritten | ops/product/curate_evaluation_candidate.py:195-248 | every curated summary differs, also when folded, from that of the candidate's item |
| DatasetCuration.ManyCurations | ops/product/curate_evaluation_candidate.py:43-86 | after n curations the dataset is valid, old samples are a prefix, n were added and the version is n higher |
| CurationPipeline.ManyCurationsDoNotLeak | ops/product/curate_evaluation_candidate.py:287-303 | after any number of curations no text of an added sample contains an internal identifier of its candidate, in any case |
| CurationPipeline.AddedSamplesDoNotLeak | ops/product/curate_evaluation_candidate.py:287-303 | the same for each field of an added sample and each internal identifier, named one by one |
| CurationPipeline.CuratedDatasetsReachTheGate | ops/product/curate_evaluation_candidate.py:43-66 | after any number of curations of a dataset that can be evaluated the new version can be evaluated, and the gate accepts the report |
| CurationPipeline.ValidDatasetsAreAccepted | ops/product/compare_evaluation_reports.py:108-138 | for datasets that pass curation, the gate accepts an evaluation report if and only if the versions of the run are non-empty and without white space |
| ShardMerge.Unite | ops/evaluation/merge_live_benchmark_shards.py:33-44 | the nested loops fail exactly when versions of one run belong to different scenarios, and otherwise build the union, its sources and the replaced identifiers |
| ShardResults.Merge | ops/evaluation/merge_live_benchmark_shards.py:17-101 | merging succeeds if and only if there are two shards with equal metadata, consistent scenarios, the required shape and no earlier output |
| ShardResults.MergedIsRightBiased | ops/evaluation/merge_live_benchmark_shards.py:36-48 | a run is merged if and only if it is the last version under its identifier in argument order |
| ShardResults.SourceIsLastShard | ops/evaluation/merge_live_benchmark_shards.py:43-44 | the source recorded for a run is the path of that last version |
| ShardResults.MergedIsOrdered | ops/evaluation/merge_live_benchmark_shards.py:46-48 | merged runs are strictly ordered by scenario and run |
| ShardResults.DisjointShardsCommute | ops/evaluation/merge_live_benchmark_shards.py:33-48 | when no run occurs twice the order of the shards does not matter |
| ShardResults.ReplacedExactly | ops/evaluation/merge_live_benchmark_shards.py:39-42 | the replaced identifiers are exactly those that occur more than once |
| ShardResults.SelectedPartition | ops/evaluation/merge_live_benchmark_shards.py:83-91 | the selected counts add up to the merged runs exactly when no path that gave the last version of a run was given twice |
| ShardResults.DistinctPathsPartition | ops/evaluation/merge_live_benchmark_shards.py:83-91 | with distinct paths the selected counts partition the merged runs |
| ShardResults.PathGivenTwice | ops/evaluation/merge_live_benchmark_shards.py:83-91 | one file given twice is merged, and its one run counted twice |
| ShardResults.ShapeMeans | ops/evaluation/merge_live_benchmark_shards.py:111-128 | the shape holds exactly when every scenario has the same given number of runs, and then the required number is their product |

## Left out

- HTTP, Kafka, PostgreSQL, OIDC, Docker, provider and GitHub traffic: they appear as outcomes a parameter chooses, or as logged events.
- Floating point: confidences, rates, clock readings and durations are exact reals; binary rounding and `round` of reported rates are not modelled, except the six-place rounding of impact scores, done exactly and half to even.
- JSON and YAML typing: documents have typed fields; checks that a value is a string, list or object are not modelled, except for the response fields of a candidate selection.
- Digests, case folding, redaction, the sensitive-text detector, the taxonomy of root causes and regular expressions over evidence text are uninterpreted parameters.
- Time stamps of reports, evidence and invocations, latencies, and log or metric output.
- ControlledWorkflow.Execute: a clock that fails before a tool is called ends the execution like one that fails after it, and the audit record of a run is a step, a tool and its success only.
- ControlledWorkflow.PrepareSteps: what makes a tool missing, risky, forbidden or its payload too large is a parameter; the merge of static and execution fields in a payload is not modelled.
- ModelReport.Generate: the reasoning pipeline is a parameter that yields the candidates; the observer and the log are left out.
- RuntimeLifecycle.Runtime.Start: the five workers, written out one after the other in the source, are one loop over five workers.
- RuntimeLifecycle.AwaitShutdown: a task that was cancelled ends at some time, so the second wait comes back; cancellation of the shutdown itself is not modelled.
- EvaluationGate.FullRateExactly: doubles are not modelled; with them the first size at which a failed case can hide is 27 smaller.
- EvaluationGate.PassMeansNoForbiddenClaim: holds of exact rates; with doubles the last 27 sizes below the bound differ.
- RuntimeRuns.EveryLifeIsOrderly: calls follow one another; calls that overlap are `RuntimeOverlap` and `RuntimeInterleaving`; cancellation of the shutdown itself is not modelled.
- RuntimeInterleaving.KeptExactly: which errors the calls raise and which tasks are cancelled at their deadline is not part of the interleaved state.
- LoadRunner.EveryStateKeepsInvariant: the moments at which requests are scheduled are not modelled, only their order.
- LoadResults.ReturnedRunProfile: throughput, latency and Prometheus fields of a profile are left out; they are single expressions.
- ReleasePublishing.Client.Publish: whether the release client overwrites a file it downloads again is a parameter (`overwrites`); no other publisher acts during a run, only between runs; equality of digests stands for equality of content; preparing the assets is left out.
- EvaluationChain.Build: which words of a text name a service, mention an alias or form an arrow is a parameter.
- ShardResults.Merge: the content of a run beside its identifier and scenario is one opaque text, and so is the metadata that must agree.
- InvestigationState, leases, the outbox dispatcher, remediation and the reasoning pipeline, MiniShop, metrics, tracing, settings and command lines: plumbing, or not needed by the properties above.
