/** The report and evidence vocabulary shared by the report pipeline. */
module RcaDomain {
  import opened Outcomes
  import opened Text

  datatype EvidenceType =
    | Metric | Log | Trace | Deployment | Change | Runbook | IncidentHistory | Topology | Knowledge

  function KindName(kind: EvidenceType): string {
    match kind
    case Metric => "METRIC"
    case Log => "LOG"
    case Trace => "TRACE"
    case Deployment => "DEPLOYMENT"
    case Change => "CHANGE"
    case Runbook => "RUNBOOK"
    case IncidentHistory => "INCIDENT_HISTORY"
    case Topology => "TOPOLOGY"
    case Knowledge => "KNOWLEDGE"
  }

  /** One execution of a workflow run. */
  datatype Command = Command(tenant: string, incident: string, run: string, attempt: nat) {
    /** What constructing a command checks. */
    predicate Valid() { IsLine(tenant, 128) && IsLine(incident, 64) && IsLine(run, 64) && attempt >= 1 }
  }

  /** `text` is what a search of the item reads: its summary and the strings of its content. */
  datatype Evidence = Evidence(id: string, command: Command, stepId: string, tool: string,
                               kind: EvidenceType, text: string, sha256: string) {
    /** What constructing an evidence item checks of its identity. */
    predicate Valid() { IsLine(id, 64) && command.Valid() }
  }

  datatype ConclusionStatus = Undetermined | Candidate | Confirmed | NoActionableRootCause

  /** The directed chain: source, target and the cited evidence. */
  type Chain = seq<(string, string, seq<string>)>
}
