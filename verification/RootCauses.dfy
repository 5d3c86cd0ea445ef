/** Root cause candidates, and what a report checks of the root cause it names. */
module RootCauses {
  import opened Outcomes
  import opened Text
  import opened RcaDomain

  datatype Candidate = Candidate(id: string, service: string, kind: string, resource: Option<string>, score: real,
                                 contradicting: seq<string>, missing: seq<string>)

  function FirstWithId(candidates: seq<Candidate>, id: string): Option<Candidate> {
    if candidates == [] then None
    else if candidates[0].id == id then Some(candidates[0])
    else FirstWithId(candidates[1..], id)
  }

  predicate CandidateFits(c: Candidate) {
    IsLine(c.id, 64) && IsLine(c.service, 128) && (c.resource.Some? ==> IsLine(c.resource.value, 256)) && 0.0 <= c.score <= 1.0
  }

  /** What the reasoning pipeline guarantees of its candidates. */
  predicate CandidatesFit(candidates: seq<Candidate>) {
    && |candidates| <= 5
    && (forall i :: 0 <= i < |candidates| ==> CandidateFits(candidates[i]))
    && (forall i, j :: 0 <= i < j < |candidates| ==> candidates[i].id != candidates[j].id)
    && (forall i, j :: 0 <= i < j < |candidates| ==> candidates[i].score >= candidates[j].score)
  }

  /** The root cause a report names: its type, service and resource, and the candidate it was selected from. */
  datatype RootCause = RootCause(kind: Option<string>, service: Option<string>, resource: Option<string>, selected: Option<string>) {

    /** What a report checks of it. */
    predicate Fits(status: ConclusionStatus, candidates: seq<Candidate>) {
      && (status.Undetermined? || status.NoActionableRootCause? ==> kind == None)
      && CandidatesFit(candidates)
      && (service.Some? ==> IsLine(service.value, 256)) && (resource.Some? ==> IsLine(resource.value, 256))
      && (selected.Some? ==> IsLine(selected.value, 64))
      && (selected.Some? ==>
            var c := FirstWithId(candidates, selected.value);
            && c.Some?
            && (kind.Some? ==> kind.value == c.value.kind && service == Some(c.value.service) && resource == c.value.resource))
    }
  }

  /** A root cause that names a type is valid only as that of its selected candidate, and only as the conclusion of a candidate. */
  lemma OnlyTheSelectedCandidateFits(cause: RootCause, status: ConclusionStatus, candidates: seq<Candidate>, i: nat)
    requires cause.Fits(status, candidates) && cause.kind.Some?
    ensures !status.Undetermined? && !status.NoActionableRootCause?
    ensures i < |candidates| && cause.selected == Some(candidates[i].id) ==>
              cause == RootCause(Some(candidates[i].kind), Some(candidates[i].service), candidates[i].resource, Some(candidates[i].id))
    ensures cause.selected.Some? ==> exists j :: 0 <= j < |candidates| && candidates[j].id == cause.selected.value
  {
    if cause.selected.Some? {
      FirstWithIdFound(candidates, cause.selected.value);
      hide CandidateFits;
    }
  }

  lemma {:induction false} FirstWithIdFound(candidates: seq<Candidate>, id: string)
    ensures FirstWithId(candidates, id).Some? ==>
              exists j :: 0 <= j < |candidates| && candidates[j].id == id && FirstWithId(candidates, id) == Some(candidates[j])
  {
    if candidates != [] && candidates[0].id != id {
      FirstWithIdFound(candidates[1..], id);
      assert forall j :: 0 <= j < |candidates[1..]| ==> candidates[1..][j] == candidates[j + 1];
    }
  }
}
