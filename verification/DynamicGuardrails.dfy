/** What the dynamic workflow does to a generated report: status, confidence, failure marker and causal context. */
module DynamicGuardrails {
  import opened Outcomes
  import opened OrderedDict
  import opened Text
  import opened RcaDomain
  import opened RootCauses
  import opened CausalAliases
  import T = Topology
  import Context = CausalContext
  import Acceptance = CausalAcceptance
  import Guards = ReportGuardrails

  /** The summary and confidence of a report, and the fields its causal context depends on. */
  datatype Report = Report(summary: string, confidence: real, body: Context.Report) {
    predicate Valid() { Guards.ValidSummary(summary) && 0.0 <= confidence <= 1.0 && body.Valid() }
  }

  /** Why the investigation stopped, and the steps that failed. */
  datatype Investigation = Investigation(sufficient: bool, failed: seq<string>, service: string)

  function Unconfirmed(r: Report): Report {
    if r.body.status.Confirmed? then r.(body := r.body.(status := Undetermined)) else r
  }

  function Capped(r: Report, sufficient: bool): Report {
    if sufficient || r.confidence <= 0.4 then r else r.(confidence := 0.4)
  }

  function MarkedSummary(summary: string, failed: seq<string>): string {
    if failed == [] then summary
    else Guards.Slice(summary, 4096 - |Guards.Marker(failed)|) + Guards.Marker(failed)
  }

  function Marked(r: Report, failed: seq<string>): Report { r.(summary := MarkedSummary(r.summary, failed)) }

  /** The report before its context is replaced. */
  function Prepared(r: Report, i: Investigation): Report { Marked(Capped(Unconfirmed(r), i.sufficient), i.failed) }

  /** The prepared report with its context, unless it does not take it. */
  function Finished(p: Report, c: Context.Context): Option<Report> {
    var with := p.(body := p.body.With(c));
    if with.Valid() then Some(with) else None
  }

  /** The guarded report, or nothing when a replacement raises. */
  ghost predicate Applied(words: Words, r: Report, i: Investigation, topology: Option<T.Graph>, evidence: seq<Evidence>,
                          guarded: Option<Report>)
  {
    var p := Prepared(r, i);
    if !p.Valid() then guarded == None
    else exists c :: Context.Built(words, p.body, i.service, topology, evidence, c) && guarded == Finished(p, c)
  }

  /** Every replacement constructs, and so checks, a report. */
  method ApplyGuardrails(words: Words, r: Report, i: Investigation, topology: Option<T.Graph>, evidence: seq<Evidence>)
    returns (guarded: Option<Report>)
    requires r.Valid()
    ensures Applied(words, r, i, topology, evidence, guarded)
  {
    hide Guards.Marker;
    hide Guards.Slice;
    hide Guards.ValidSummary;
    hide Context.Report.Valid;
    var report := Unconfirmed(r);
    if !report.Valid() {
      return None;
    }
    report := Capped(report, i.sufficient);
    report := Marked(report, i.failed);
    if !report.Valid() { return None; }
    var c := Context.Build(words, report.body, i.service, topology, evidence);
    guarded := Finished(report, c);
  }

  // ---------------------------------------------------------------- the marker

  /** The shortened summary with the marker is a valid one exactly when the marker is at most 4095 characters long. */
  lemma MarkedExactly(summary: string, failed: seq<string>)
    requires Guards.ValidSummary(summary) && failed != [] && forall k :: 0 <= k < |failed| ==> Guards.PlainText(failed[k])
    ensures var marker := Guards.Marker(failed);
            Guards.ValidSummary(Guards.Slice(summary, 4096 - |marker|) + marker) <==> |marker| <= 4095
  {
    var marker := Guards.Marker(failed);
    Guards.MarkerForm(failed);
    hide Guards.Marker;
    SlicedExactly(summary, marker);
  }

  lemma SlicedExactly(summary: string, marker: string)
    requires Guards.ValidSummary(summary) && Guards.PlainText(marker)
    requires marker != [] && marker[0] == ' ' && marker[|marker| - 1] == '.'
    ensures Guards.ValidSummary(Guards.Slice(summary, 4096 - |marker|) + marker) <==> |marker| <= 4095
  {
    var kept := Guards.Slice(summary, 4096 - |marker|);
    var r := kept + marker;
    assert r[|r| - 1] == '.';
    if |marker| <= 4095 {
      assert kept != [] && r[0] == summary[0];
    } else if kept == [] {
      assert r[0] == ' ';
    } else {
      assert |r| > 4096;
    }
  }

  // ---------------------------------------------------------------- when the guardrails succeed

  /** The report may lose the word "confirmed" and take the marker. */
  predicate Preparable(r: Report, failed: seq<string>) {
    && !(r.body.status.Confirmed? && r.body.rootCauseType.Some?)
    && (failed == [] || |Guards.Marker(failed)| <= 4095)
  }

  lemma UnconfirmedExactly(r: Report)
    requires r.Valid()
    ensures Unconfirmed(r).Valid() <==> !(r.body.status.Confirmed? && r.body.rootCauseType.Some?)
  {
    hide Guards.ValidSummary;
    hide CandidatesFit;
    hide Context.Accepted;
    hide IsLine;
  }

  lemma PreparedExactly(r: Report, i: Investigation)
    requires r.Valid() && forall k :: 0 <= k < |i.failed| ==> Guards.PlainText(i.failed[k])
    ensures Prepared(r, i).Valid() <==> Preparable(r, i.failed)
    ensures Prepared(r, i).body == Unconfirmed(r).body
  {
    UnconfirmedExactly(r);
    SummaryExactly(r.summary, i.failed);
    PreparedFields(r, i);
    hide Prepared;
    hide Guards.ValidSummary;
    hide Guards.Marker;
    hide Context.Report.Valid;
  }

  lemma SummaryExactly(summary: string, failed: seq<string>)
    requires Guards.ValidSummary(summary) && forall k :: 0 <= k < |failed| ==> Guards.PlainText(failed[k])
    ensures Guards.ValidSummary(MarkedSummary(summary, failed)) <==> failed == [] || |Guards.Marker(failed)| <= 4095
  {
    hide Guards.Marker;
    hide Guards.Slice;
    hide Guards.ValidSummary;
    if failed != [] { MarkedExactly(summary, failed); }
  }

  lemma PreparedFields(r: Report, i: Investigation)
    requires 0.0 <= r.confidence <= 1.0
    ensures var p := Prepared(r, i);
            p.body == Unconfirmed(r).body && p.summary == MarkedSummary(r.summary, i.failed) && 0.0 <= p.confidence <= 1.0
    ensures Unconfirmed(r).summary == r.summary && Unconfirmed(r).confidence == r.confidence
  {
    hide MarkedSummary;
  }

  /** The root found in a topology is called like the service of the selected candidate. */
  predicate RootAgrees(words: Words, body: Context.Report, service: string, topology: Option<T.Graph>) {
    topology.Some? && body.rootCauseType.Some? && body.selectedId.Some? ==>
      Context.RootOf(words, AliasTable(words, topology.value.nodes), body, service) == body.SelectedService()
  }

  predicate Small(c: Context.Context) { |c.chain| <= 100 && |c.affected| <= 100 }

  ghost predicate Sound(evidence: seq<Evidence>, topology: Option<T.Graph>) {
    Context.EvidenceDistinct(evidence) && (topology.Some? ==> topology.value.Valid())
  }

  lemma SameContext(words: Words, body: Context.Report, service: string, topology: Option<T.Graph>, evidence: seq<Evidence>,
                    c: Context.Context, d: Context.Context)
    requires topology.Some? ==> topology.value.Valid()
    requires Context.Built(words, body, service, topology, evidence, c) && Context.Built(words, body, service, topology, evidence, d)
    ensures c == d
  {
    if topology.Some? {
      hide Context.Built;
      hide T.Graph.Valid;
      Context.BuildIsDeterministic(words, body, service, topology.value, topology.value, evidence, c, d);
    }
  }

  /**
   Guarding a valid report succeeds exactly when no confirmed root cause type has to lose its status, the
   marker is at most 4095 characters long, the context has at most 100 edges and 100 services and, where
   the report names the root cause type of a selected candidate, the root found in the topology is called
   like that candidate's service.
   */
  lemma GuardrailsSucceedExactly(words: Words, r: Report, i: Investigation, topology: Option<T.Graph>, evidence: seq<Evidence>,
                                 c: Context.Context, guarded: Option<Report>)
    requires r.Valid() && Sound(evidence, topology) && forall k :: 0 <= k < |i.failed| ==> Guards.PlainText(i.failed[k])
    requires Applied(words, r, i, topology, evidence, guarded)
    requires Context.Built(words, Unconfirmed(r).body, i.service, topology, evidence, c)
    ensures guarded.Some? <==> Preparable(r, i.failed) && Small(c) && RootAgrees(words, r.body, i.service, topology)
    ensures guarded.Some? ==> guarded == Finished(Prepared(r, i), c)
  {
    PreparedExactly(r, i);
    hide Guards.ValidSummary;
    hide Prepared;
    hide Context.Built;
    hide Context.RootOf;
    hide Context.Report.Valid;
    var p := Prepared(r, i);
    if p.Valid() {
      var d :| Context.Built(words, p.body, i.service, topology, evidence, d) && guarded == Finished(p, d);
      SameContext(words, p.body, i.service, topology, evidence, c, d);
      Acceptance.BuiltAccepted(words, p.body, i.service, topology, evidence, c);
      SameRoot(words, r, i.service, topology);
    }
  }

  lemma SameRoot(words: Words, r: Report, service: string, topology: Option<T.Graph>)
    ensures RootAgrees(words, Unconfirmed(r).body, service, topology) <==> RootAgrees(words, r.body, service, topology)
  {}

  /** The confidences a guarded report may have. */
  predicate MayClaim(r: Report, i: Investigation, x: real) { x <= r.confidence && (!i.sufficient ==> x <= 0.4) }

  /**
   A guarded report is valid, loses the status "confirmed" and no other, and has the greatest confidence that is not
   above the stated one nor, unless the evidence sufficed, above 0.4; it ends with the marker of the failed steps, if
   there are any, after as much of its summary as fits.
   */
  lemma GuardedBounds(words: Words, r: Report, i: Investigation, topology: Option<T.Graph>, evidence: seq<Evidence>,
                      guarded: Option<Report>, x: real)
    requires r.Valid() && Applied(words, r, i, topology, evidence, guarded) && guarded.Some?
    ensures var g, marker := guarded.value, Guards.Marker(i.failed);
            && g.Valid() && g.body.status == (if r.body.status.Confirmed? then Undetermined else r.body.status)
            && MayClaim(r, i, g.confidence) && (MayClaim(r, i, x) ==> x <= g.confidence)
            && (i.failed == [] ==> g.summary == r.summary)
            && (i.failed != [] ==>
                  && EndsWith(g.summary, marker)
                  && g.summary[..|g.summary| - |marker|] == Guards.Slice(r.summary, 4096 - |marker|))
  {
    hide Context.Built;
    hide Context.Report.Valid;
    hide Guards.ValidSummary;
    hide Guards.Marker;
    hide Guards.Slice;
    var marker := Guards.Marker(i.failed);
    Guards.SuffixOf(Guards.Slice(r.summary, 4096 - |marker|), marker);
  }

  /** A guarded report has the root, chain, services and scores that were built for it, and all else as before. */
  lemma GuardedHasContext(words: Words, r: Report, i: Investigation, topology: Option<T.Graph>, evidence: seq<Evidence>,
                          guarded: Option<Report>)
    requires Applied(words, r, i, topology, evidence, guarded) && guarded.Some?
    ensures exists c :: Context.Built(words, Unconfirmed(r).body, i.service, topology, evidence, c)
              && guarded.value.body == r.body.(status := guarded.value.body.status, suspectedRoot := c.root, chain := c.chain,
                                               affected := c.affected, blast := c.blast)
  {
    hide Context.Built;
    hide Context.Report.Valid;
    hide Guards.ValidSummary;
    hide MarkedSummary;
  }

  /**
   It can happen: a valid report names the one service of the topology as the cause, nothing failed, and
   guarding raises, because the topology identifies the service as "service:inventory-service".
   */
  lemma ServiceNodeRaises(guarded: Option<Report>)
    requires var r := Report("Cause", 0.5, Acceptance.InventoryReport());
             Applied(Acceptance.PLAIN, r, Investigation(true, [], "inventory-service"), Some(Acceptance.InventoryGraph()),
                     [Acceptance.Snapshot()], guarded)
    ensures Report("Cause", 0.5, Acceptance.InventoryReport()).Valid() && guarded == None
  {
    var r := Report("Cause", 0.5, Acceptance.InventoryReport());
    assert Guards.ValidSummary("Cause");
    Acceptance.InventoryIsValid();
    var i := Investigation(true, [], "inventory-service");
    var p := Prepared(r, i);
    assert p == r;
    hide Context.Built;
    hide Context.Report.Valid;
    if p.Valid() {
      var c :| Context.Built(Acceptance.PLAIN, p.body, i.service, Some(Acceptance.InventoryGraph()), [Acceptance.Snapshot()], c)
               && guarded == Finished(p, c);
      Acceptance.ServiceNodeIsRefused(c);
    }
  }
}
