/** When a report takes the causal context that was built for it. */
module CausalAcceptance {
  import opened Outcomes
  import opened OrderedDict
  import opened FiniteSets
  import opened Text
  import opened RcaDomain
  import opened RootCauses
  import T = Topology
  import opened CausalAliases
  import opened CausalTraversal
  import opened CausalTree
  import opened CausalContext

  // ---------------------------------------------------------------- names and identifiers

  ghost predicate Names(graph: T.Graph, name: string) {
    exists n :: n in graph.nodes && n.name == name
  }

  lemma {:induction false} ScoresNamed(graph: T.Graph, t: seq<Visit>, i: nat)
    requires i < |VisitScores(graph, t)|
    ensures Names(graph, VisitScores(graph, t)[i].0)
  {
    if i < |VisitScores(graph, t[..|t| - 1])| { ScoresNamed(graph, t[..|t| - 1], i); }
  }

  lemma LastInRange(pairs: seq<(string, real)>, k: string, i: nat)
    requires LastAt(pairs, k, i)
    ensures i < |pairs|
  {}

  /** Only names of nodes are scored. */
  lemma BlastNamed(graph: T.Graph, t: seq<Visit>, root: string, includeRoot: bool, n: nat)
    requires n < |FromPairs(Scores(graph, t, root, includeRoot))|
    ensures Names(graph, FromPairs(Scores(graph, t, root, includeRoot))[n].0)
  {
    hide FromPairs;
    hide LastAt;
    var pairs := Scores(graph, t, root, includeRoot);
    var i := FromPairsValues(pairs, n);
    assert i < |pairs| by { LastInRange(pairs, FromPairs(pairs)[n].0, i); }
    var k := |RootScores(graph, root, includeRoot)|;
    if i >= k { ScoresNamed(graph, t, i - k); }
  }

  lemma NamesFit(graph: T.Graph, name: string)
    requires graph.Valid() && Names(graph, name)
    ensures IsLine(name, 256)
  {}

  lemma IdsFit(graph: T.Graph, id: string)
    requires graph.Valid() && id in T.Ids(graph.nodes)
    ensures IsLine(id, 256)
  {
    var i :| 0 <= i < |graph.nodes| && T.Ids(graph.nodes)[i] == id;
    assert graph.nodes[i] in graph.nodes;
  }

  lemma EdgeFits(q: Query, t: seq<Visit>, k: nat)
    requires q.graph.Valid() && IsTraversal(q, t) && k < |t|
    ensures IsLine(t[k].edge.source, 256) && IsLine(t[k].edge.target, 256) && t[k].edge.source != t[k].edge.target
  {
    var slots :| Scan(q, t, slots);
    VisitFacts(q, t, slots, k);
    IdsFit(q.graph, t[k].edge.source);
    IdsFit(q.graph, t[k].edge.target);
  }

  /**
   The checks of its topology context a report makes pass for the computed one exactly when it has at most
   100 edges and at most 100 services, whatever the topology.
   */
  lemma ContextAcceptedWhenSmall(words: Words, report: Report, root: string, graph: T.Graph, evidence: seq<Evidence>,
                                 t: seq<Visit>)
    requires graph.Valid() && root in T.Ids(graph.nodes)
    requires ChainCitesOnce(report) && Snapshots(report, evidence) != [] && EvidenceDistinct(evidence)
    requires forall i :: 0 <= i < |report.evidenceIds| ==> IsLine(report.evidenceIds[i], 64)
    requires IsTraversal(QueryOf(words, report, root, graph, evidence), t)
    ensures var c := ContextOf(words, report, root, graph, evidence, t);
            Accepted(c) <==> |c.chain| <= 100 && |c.affected| <= 100
  {
    hide Round6;
    hide IsLine;
    hide T.Graph.Valid;
    hide IsTraversal;
    hide ChainCitesOnce;
    hide EvidenceDistinct;
    var q := QueryOf(words, report, root, graph, evidence);
    var c := ContextOf(words, report, root, graph, evidence, t);
    IdsFit(graph, root);
    FromPairsKeys(Scores(graph, t, root, report.rootCauseType.Some?));
    forall n | 0 <= n < |c.blast| ensures IsLine(c.blast[n].0, 256) && 0.0 <= c.blast[n].1 <= 1.0 && IsLine(c.affected[n], 256) {
      BlastScores(q, t, report.rootCauseType.Some?, n);
      BlastNamed(graph, t, root, report.rootCauseType.Some?, n);
      NamesFit(graph, c.blast[n].0);
    }
    forall k | 0 <= k < |c.chain| ensures EdgeAccepted(c.chain[k]) {
      ChainGrounded(words, report, root, graph, evidence, t, k);
      EdgeFits(q, t, k);
    }
    forall k, l | 0 <= k < l < |c.chain| ensures (c.chain[k].0, c.chain[k].1) != (c.chain[l].0, c.chain[l].1) {
      ChainOrder(q, t, k, l);
    }
  }

  lemma RootIsNode(words: Words, report: Report, incidentService: string, nodes: seq<T.Node>)
    ensures RootOf(words, AliasTable(words, nodes), report, incidentService).Some? ==>
              RootOf(words, AliasTable(words, nodes), report, incidentService).value in T.Ids(nodes)
  {
    hide NamesOf;
    LookupIsNode(words, nodes, incidentService);
    if report.rootResource.Some? { LookupIsNode(words, nodes, report.rootResource.value); }
    if report.suspectedRoot.Some? { LookupIsNode(words, nodes, report.suspectedRoot.value); }
  }

  lemma LookupIsNode(words: Words, nodes: seq<T.Node>, value: string)
    ensures Lookup(words, AliasTable(words, nodes), value).Some? ==> Lookup(words, AliasTable(words, nodes), value).value in T.Ids(nodes)
  {
    ResolveMeans(words, nodes, value);
    if Lookup(words, AliasTable(words, nodes), value).Some? {
      var id := Lookup(words, AliasTable(words, nodes), value).value;
      var i: nat :| StandsFor(words, nodes, (words.fold)(Strip(value)), i) && nodes[i].id == id;
      assert T.Ids(nodes)[i] == id;
    }
  }

  /** The same for whatever the builder returns. */
  lemma BuiltFits(words: Words, report: Report, incidentService: string, graph: T.Graph, evidence: seq<Evidence>, c: Context)
    requires graph.Valid() && ChainCitesOnce(report) && EvidenceDistinct(evidence)
    requires forall i :: 0 <= i < |report.evidenceIds| ==> IsLine(report.evidenceIds[i], 64)
    requires Built(words, report, incidentService, Some(graph), evidence, c)
    ensures Accepted(c) <==> |c.chain| <= 100 && |c.affected| <= 100
  {
    hide IsLine;
    hide T.Graph.Valid;
    hide IsTraversal;
    hide ContextOf;
    hide ChainCitesOnce;
    hide EvidenceDistinct;
    var found := RootOf(words, AliasTable(words, graph.nodes), report, incidentService);
    RootIsNode(words, report, incidentService, graph.nodes);
    if !report.status.NoActionableRootCause? && found.Some? {
      IdsFit(graph, found.value);
      if Snapshots(report, evidence) != [] {
        var t :| IsTraversal(QueryOf(words, report, found.value, graph, evidence), t)
                 && c == ContextOf(words, report, found.value, graph, evidence, t);
        ContextAcceptedWhenSmall(words, report, found.value, graph, evidence, t);
      }
    }
  }

  lemma ValidCitesOnce(report: Report)
    requires report.Valid()
    ensures ChainCitesOnce(report)
  {}

  /** The root the builder returns. */
  lemma BuiltRoot(words: Words, report: Report, incidentService: string, graph: T.Graph, evidence: seq<Evidence>, c: Context)
    requires Built(words, report, incidentService, Some(graph), evidence, c) && !report.status.NoActionableRootCause?
    ensures c.root == RootOf(words, AliasTable(words, graph.nodes), report, incidentService)
  {
    hide RootOf;
    hide IsTraversal;
  }

  /** Only the suspected root of the named root cause changes, and only it can stop fitting. */
  lemma RootCauseStaysExactly(report: Report, c: Context)
    requires report.Valid() && Accepted(c)
    ensures report.With(c).Valid() <==>
              (report.rootCauseType.Some? && report.selectedId.Some? ==> c.root == report.SelectedService())
  {
    hide IsLine;
    hide CandidatesFit;
    hide EdgeAccepted;
  }

  /**
   Whatever is built for a valid report, the report takes it exactly when it has at most 100 edges and at
   most 100 services and, with a topology and a root cause type of a selected candidate, the root
   found in the topology is called like the candidate's service.
   */
  lemma BuiltAccepted(words: Words, report: Report, incidentService: string, topology: Option<T.Graph>,
                      evidence: seq<Evidence>, c: Context)
    requires report.Valid() && EvidenceDistinct(evidence) && (topology.Some? ==> topology.value.Valid())
    requires Built(words, report, incidentService, topology, evidence, c)
    ensures report.With(c).Valid() <==>
              && |c.chain| <= 100 && |c.affected| <= 100
              && (topology.Some? && report.rootCauseType.Some? && report.selectedId.Some? ==>
                    RootOf(words, AliasTable(words, topology.value.nodes), report, incidentService) == report.SelectedService())
  {
    if topology.Some? && !report.status.NoActionableRootCause? {
      ValidCitesOnce(report);
      assert forall i :: 0 <= i < |report.evidenceIds| ==> IsLine(report.evidenceIds[i], 64);
      BuiltFits(words, report, incidentService, topology.value, evidence, c);
      BuiltRoot(words, report, incidentService, topology.value, evidence, c);
      hide Built;
      hide RootOf;
      if Accepted(c) { RootCauseStaysExactly(report, c); }
    } else if report.status.NoActionableRootCause? {
      assert report.rootCauseType == None;
      RootCauseStaysExactly(report, c);
    } else {
      assert report.With(c) == report;
    }
  }

  // ---------------------------------------------------------------- how large a context gets

  function Targets(t: seq<Visit>): (r: seq<string>)
    ensures |r| == |t| && forall k :: 0 <= k < |t| ==> r[k] == t[k].edge.target
  {
    seq(|t|, k requires 0 <= k < |t| => t[k].edge.target)
  }

  function NodeNames(nodes: seq<T.Node>): (r: seq<string>)
    ensures |r| == |nodes| && forall i :: 0 <= i < |r| ==> r[i] == nodes[i].name
  {
    seq(|nodes|, i requires 0 <= i < |nodes| => nodes[i].name)
  }

  /** A context never has more edges or services than the topology has nodes. */
  lemma ContextBounded(words: Words, report: Report, incidentService: string, graph: T.Graph, evidence: seq<Evidence>, c: Context)
    requires graph.Valid() && Built(words, report, incidentService, Some(graph), evidence, c)
    ensures |c.chain| <= |graph.nodes| && |c.affected| <= |graph.nodes|
  {
    hide RootOf;
    hide Scores;
    var found := RootOf(words, AliasTable(words, graph.nodes), report, incidentService);
    if !report.status.NoActionableRootCause? && found.Some? && Snapshots(report, evidence) != [] {
      var q := QueryOf(words, report, found.value, graph, evidence);
      var t :| IsTraversal(q, t) && c == ContextOf(words, report, found.value, graph, evidence, t);
      TraversalBounded(q, t);
      BlastBounded(graph, t, found.value, report.rootCauseType.Some?);
    }
  }

  lemma TraversalBounded(q: Query, t: seq<Visit>)
    requires q.graph.Valid() && IsTraversal(q, t)
    ensures |t| <= |q.graph.nodes|
  {
    var slots :| Scan(q, t, slots);
    forall k | 0 <= k < |t| ensures Targets(t)[k] in T.Ids(q.graph.nodes) { VisitFacts(q, t, slots, k); }
    forall k, l | 0 <= k < l < |t| ensures Targets(t)[k] != Targets(t)[l] { ChainOrder(q, t, k, l); }
    hide IsTraversal;
    DistinctBound(Targets(t), T.Ids(q.graph.nodes));
  }

  lemma BlastBounded(graph: T.Graph, t: seq<Visit>, root: string, includeRoot: bool)
    ensures |Keys(FromPairs(Scores(graph, t, root, includeRoot)))| <= |graph.nodes|
  {
    var blast := FromPairs(Scores(graph, t, root, includeRoot));
    FromPairsKeys(Scores(graph, t, root, includeRoot));
    forall n | 0 <= n < |blast| ensures Keys(blast)[n] in NodeNames(graph.nodes) {
      BlastNamed(graph, t, root, includeRoot, n);
      var node :| node in graph.nodes && node.name == blast[n].0;
      var i :| 0 <= i < |graph.nodes| && graph.nodes[i] == node;
      assert NodeNames(graph.nodes)[i] == blast[n].0;
    }
    hide Scores;
    hide FromPairs;
    DistinctBound(Keys(blast), NodeNames(graph.nodes));
  }

  // ---------------------------------------------------------------- a report that is refused

  /** Texts that are folded already, and evidence that mentions nothing. */
  const PLAIN: Words := Words(x => x, (alias, text) => false)

  function Snapshot(): Evidence {
    Evidence("e1", Command("t", "i", "r", 1), "topology", "topology.query", EvidenceType.Topology, "", "")
  }

  function InventoryReport(): Report {
    Report(ConclusionStatus.Candidate, ["e1"], Some("inventory-service"), [], [], [], Some("timeout"), None, Some("c1"),
           [RootCauses.Candidate("c1", "inventory-service", "timeout", None, 0.9, [], [])])
  }

  /** The service as the platform's own topology writes it: its identifier begins with "service:". */
  function InventoryGraph(): T.Graph {
    T.Graph([T.Service("service:inventory-service", "inventory-service", 1.0)], [], 1)
  }

  lemma InventoryLines()
    ensures IsLine("e1", 64) && IsLine("c1", 64) && IsLine("inventory-service", 128)
    ensures IsLine("service:inventory-service", 128)
  {}

  lemma InventoryIsValid()
    ensures InventoryReport().Valid() && InventoryGraph().Valid()
  {
    var r := InventoryReport();
    InventoryLines();
    hide IsLine;
    LongerLine("inventory-service", 128, 256);
    assert CandidateFits(r.candidates[0]);
    assert FirstWithId(r.candidates, "c1") == Some(r.candidates[0]);
    assert T.Ids(InventoryGraph().nodes) == ["service:inventory-service"];
  }

  lemma LongerLine(s: string, most: nat, more: nat)
    requires IsLine(s, most) && most <= more
    ensures IsLine(s, more)
  {}

  /** It can happen: a report names the only service of the topology, and does not take the context built for it. */
  lemma ServiceNodeIsRefused(c: Context)
    requires Built(PLAIN, InventoryReport(), "inventory-service", Some(InventoryGraph()), [Snapshot()], c)
    ensures InventoryReport().Valid() && InventoryGraph().Valid()
    ensures c.root == Some("service:inventory-service") && |c.chain| <= 1 && |c.affected| <= 1
    ensures !InventoryReport().With(c).Valid()
  {
    var r, g := InventoryReport(), InventoryGraph();
    InventoryIsValid();
    hide IsLine;
    InventoryRoot();
    hide RootOf;
    BuiltRoot(PLAIN, r, "inventory-service", g, [Snapshot()], c);
    ContextBounded(PLAIN, r, "inventory-service", g, [Snapshot()], c);
    BuiltAccepted(PLAIN, r, "inventory-service", Some(g), [Snapshot()], c);
  }

  lemma InventoryRoot()
    ensures RootOf(PLAIN, AliasTable(PLAIN, InventoryGraph().nodes), InventoryReport(), "inventory-service")
         == Some("service:inventory-service")
    ensures InventoryReport().SelectedService() == Some("inventory-service")
    ensures "inventory-service" != "service:inventory-service"
  {
    var nodes := InventoryGraph().nodes;
    assert |"inventory-service"| == 17 && |"service:inventory-service"| == 25;
    assert Strip("inventory-service") == "inventory-service";
    assert NamesOf(PLAIN, nodes[0])[0] == "inventory-service";
    assert HasName(PLAIN, nodes[0], "inventory-service");
    ResolveMeans(PLAIN, nodes, "inventory-service");
  }

  /** A root cause whose service is the identifier of no node is never accepted with a topology. */
  lemma UnidentifiedServiceIsRefused(words: Words, report: Report, incidentService: string, graph: T.Graph,
                                     evidence: seq<Evidence>, c: Context)
    requires report.Valid() && EvidenceDistinct(evidence) && graph.Valid()
    requires Built(words, report, incidentService, Some(graph), evidence, c)
    requires report.rootCauseType.Some? && report.SelectedService().Some? && report.SelectedService().value !in T.Ids(graph.nodes)
    ensures !report.With(c).Valid()
  {
    hide Report.Valid;
    hide T.Graph.Valid;
    hide Built;
    hide RootOf;
    RootIsNode(words, report, incidentService, graph.nodes);
    BuiltAccepted(words, report, incidentService, Some(graph), evidence, c);
  }

  // ---------------------------------------------------------------- a topology that is too large

  /** A name of i letters. */
  function Leaf(i: nat): (s: string)
    ensures |s| == i && forall k :: 0 <= k < i ==> s[k] == 's'
  {
    seq(i, k => 's')
  }

  const LEAVES: nat := 101

  /** A hub that calls 101 services, as traces show. */
  function StarNodes(): (r: seq<T.Node>)
    ensures |r| == LEAVES + 1 && r[0] == T.Service("hub", "hub", 1.0)
    ensures forall i :: 1 <= i <= LEAVES ==> r[i] == T.Service(Leaf(i), Leaf(i), 1.0)
  {
    [T.Service("hub", "hub", 1.0)] + seq(LEAVES, i requires 0 <= i < LEAVES => T.Service(Leaf(i + 1), Leaf(i + 1), 1.0))
  }

  function StarEdges(): (r: seq<T.Edge>)
    ensures |r| == LEAVES && forall i :: 0 <= i < LEAVES ==> r[i] == T.Edge("hub", Leaf(i + 1), "calls", T.Trace, 1.0)
  {
    seq(LEAVES, i requires 0 <= i < LEAVES => T.Edge("hub", Leaf(i + 1), "calls", T.Trace, 1.0))
  }

  function Star(): T.Graph { T.Graph(StarNodes(), StarEdges(), 1) }

  function HubReport(): Report {
    Report(Undetermined, ["e1"], Some("hub"), [], [], [], None, None, None, [])
  }

  lemma LeafLine(i: nat)
    requires 1 <= i <= LEAVES
    ensures IsLine(Leaf(i), 128) && IsLine(Leaf(i), 256) && Leaf(i) != "hub"
  {
    assert "hub"[0] == 'h' && Leaf(i)[0] == 's';
  }

  lemma HubLines()
    ensures IsLine("hub", 128) && IsLine("hub", 256) && IsLine("e1", 64)
  {}

  lemma StarNodesFit()
    ensures NoDuplicates(T.Ids(StarNodes()))
    ensures forall n :: n in StarNodes() ==> T.IsConfidence(n.confidence) && IsLine(n.id, 128) && IsLine(n.name, 256)
  {
    var nodes := StarNodes();
    HubLines();
    forall i | 1 <= i <= LEAVES ensures IsLine(Leaf(i), 128) && IsLine(Leaf(i), 256) && Leaf(i) != "hub" { LeafLine(i); }
    hide IsLine;
    forall i, j | 0 <= i < j < |nodes| ensures T.Ids(nodes)[i] != T.Ids(nodes)[j] {
      assert j >= 1 && |Leaf(j)| == j;
    }
  }

  lemma StarEdgesFit()
    ensures forall e :: e in StarEdges() ==>
              e.source in T.Ids(StarNodes()) && e.target in T.Ids(StarNodes()) && e.source != e.target && T.IsConfidence(e.confidence)
    ensures forall i, j :: 0 <= i < j < |StarEdges()| ==> !T.SameKey(StarEdges()[i], StarEdges()[j])
  {
    var nodes, edges := StarNodes(), StarEdges();
    forall e | e in edges ensures e.source in T.Ids(nodes) && e.target in T.Ids(nodes) && e.source != e.target {
      var i :| 0 <= i < |edges| && edges[i] == e;
      LeafLine(i + 1);
      assert T.Ids(nodes)[0] == "hub" && T.Ids(nodes)[i + 1] == Leaf(i + 1);
    }
    forall i, j | 0 <= i < j < |edges| ensures !T.SameKey(edges[i], edges[j]) {
      assert |edges[i].target| == i + 1 && |edges[j].target| == j + 1;
    }
  }

  lemma StarIsValid()
    ensures Star().Valid() && HubReport().Valid()
  {
    HubLines();
    StarNodesFit();
    StarEdgesFit();
    hide IsLine;
    hide StarNodes;
    hide StarEdges;
  }

  lemma HubRoot()
    ensures RootOf(PLAIN, AliasTable(PLAIN, StarNodes()), HubReport(), "hub") == Some("hub")
  {
    var nodes := StarNodes();
    assert Strip("hub") == "hub";
    assert HasId(PLAIN, nodes[0], "hub");
    forall i | 1 <= i <= LEAVES ensures nodes[i].id != "hub" { LeafLine(i); }
    hide NamesOf;
    hide AliasTable;
    ResolveMeans(PLAIN, nodes, "hub");
  }

  lemma LeavesAreReached(q: Query, t: seq<Visit>, i: nat)
    requires q.graph == Star() && q.root == "hub" && IsTraversal(q, t) && 1 <= i <= LEAVES
    ensures Leaf(i) in Targets(t)
  {
    LeafLine(i);
    var e := StarEdges()[i - 1];
    assert [e][..0] == [];
    assert IsPath(q, [], "hub", "hub");
    assert IsPath(q, [e], "hub", Leaf(i));
    hide IsTraversal;
    hide IsPath;
    assert Reaches(q, Leaf(i), 1);
    CoversExactlyTheReachable(q, t, Leaf(i));
    var k: nat :| k < |t| && t[k].edge.target == Leaf(i);
    assert Targets(t)[k] == Leaf(i);
  }

  lemma WalkIsLong(q: Query, t: seq<Visit>)
    requires q.graph == Star() && q.root == "hub" && IsTraversal(q, t)
    ensures |t| >= LEAVES
  {
    hide IsTraversal;
    var leaves := seq(LEAVES, i requires 0 <= i < LEAVES => Leaf(i + 1));
    forall i | 0 <= i < LEAVES ensures leaves[i] in Targets(t) { LeavesAreReached(q, t, i + 1); }
    forall i, j | 0 <= i < j < LEAVES ensures leaves[i] != leaves[j] { assert |leaves[i]| == i + 1 && |leaves[j]| == j + 1; }
    DistinctBound(leaves, Targets(t));
  }

  /** It can happen: the walk covers more than 100 edges of a valid topology, and the report does not take the context. */
  lemma LargeTopologyIsRefused(c: Context)
    requires Built(PLAIN, HubReport(), "hub", Some(Star()), [Snapshot()], c)
    ensures Star().Valid() && HubReport().Valid()
    ensures |c.chain| > 100 && !HubReport().With(c).Valid()
  {
    StarIsValid();
    HubRoot();
    HubSnapshots();
    hide RootOf;
    hide Report.Valid;
    hide T.Graph.Valid;
    hide Star;
    hide Snapshots;
    var q := QueryOf(PLAIN, HubReport(), "hub", Star(), [Snapshot()]);
    var t :| IsTraversal(q, t) && c == ContextOf(PLAIN, HubReport(), "hub", Star(), [Snapshot()], t);
    hide IsTraversal;
    ChainLength(HubReport(), Star(), [Snapshot()], t);
    hide ContextOf;
    WalkIsLong(q, t);
    BuiltAccepted(PLAIN, HubReport(), "hub", Some(Star()), [Snapshot()], c);
  }

  lemma HubSnapshots()
    ensures Snapshots(HubReport(), [Snapshot()]) != []
    ensures Star().nodes == StarNodes() && !HubReport().status.NoActionableRootCause?
  {
    assert HubReport().evidenceIds[0] == "e1";
  }

  lemma ChainLength(r: Report, g: T.Graph, evidence: seq<Evidence>, t: seq<Visit>)
    ensures |ContextOf(PLAIN, r, "hub", g, evidence, t).chain| == |t|
  {}
}
