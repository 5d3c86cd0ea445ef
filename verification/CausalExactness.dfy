/** What a causal context is, said of the report, the topology and the evidence it was built from. */
module CausalExactness {
  import opened Outcomes
  import opened OrderedDict
  import opened Text
  import opened RcaDomain
  import T = Topology
  import opened Sorting
  import opened CausalAliases
  import opened CausalTraversal
  import opened CausalTree
  import opened CausalContext

  // ---------------------------------------------------------------- the root

  function KeyOf(words: Words, value: string): string { (words.fold)(Strip(value)) }

  /** Node i is meant by the text of a report. */
  ghost predicate Means(words: Words, nodes: seq<T.Node>, value: string, i: nat) {
    StandsFor(words, nodes, KeyOf(words, value), i)
  }

  ghost predicate IsKnown(words: Words, nodes: seq<T.Node>, value: string) { Known(words, nodes, KeyOf(words, value)) }

  /** The text that names the root: the resource if the topology knows it, else the suspected root, else the service of the incident. */
  ghost function RootText(words: Words, nodes: seq<T.Node>, report: Report, incidentService: string): string {
    if report.rootResource.Some? && IsKnown(words, nodes, report.rootResource.value) then report.rootResource.value
    else if report.suspectedRoot.Some? then report.suspectedRoot.value
    else incidentService
  }

  /** The root is the node that text means, and there is none exactly if the topology does not know it. */
  lemma RootMeans(words: Words, nodes: seq<T.Node>, report: Report, incidentService: string)
    ensures var text := RootText(words, nodes, report, incidentService);
            match RootOf(words, AliasTable(words, nodes), report, incidentService)
            case None => !IsKnown(words, nodes, text)
            case Some(id) => exists i: nat :: Means(words, nodes, text, i) && nodes[i].id == id
  {
    hide HasId;
    hide HasName;
    hide AliasTable;
    var text := RootText(words, nodes, report, incidentService);
    ResolveMeans(words, nodes, incidentService);
    if report.suspectedRoot.Some? { ResolveMeans(words, nodes, report.suspectedRoot.value); }
    if report.rootResource.Some? { ResolveMeans(words, nodes, report.rootResource.value); }
    var found := RootOf(words, AliasTable(words, nodes), report, incidentService);
    if found.Some? {
      var i: nat :| StandsFor(words, nodes, KeyOf(words, text), i) && nodes[i].id == found.value;
      assert Means(words, nodes, text, i);
    }
  }

  // ---------------------------------------------------------------- citations

  /** Citable is what the report lists and a topology snapshot or a trace of the evidence bears as its identifier. */
  lemma CitableExactly(report: Report, evidence: seq<Evidence>, id: string)
    requires EvidenceDistinct(evidence)
    ensures Citable(report, evidence, id) <==>
              id in report.evidenceIds
              && exists e :: e in evidence && e.id == id && (e.kind == EvidenceType.Topology || e.kind == EvidenceType.Trace)
  {
    if e :| e in evidence && e.id == id && (e.kind == EvidenceType.Topology || e.kind == EvidenceType.Trace) {
      var i :| 0 <= i < |evidence| && evidence[i] == e;
      assert ById(evidence, id, i);
    }
  }

  /** Filtering keeps the citable identifiers, each as often as it was listed, and the others not at all. */
  lemma {:induction false} CitedExactly(report: Report, evidence: seq<Evidence>, ids: seq<string>, id: string)
    ensures multiset(CitedOf(report, evidence, ids))[id] == if Citable(report, evidence, id) then multiset(ids)[id] else 0
  {
    hide Citable;
    if ids != [] {
      CitedExactly(report, evidence, ids[1..], id);
      assert ids == [ids[0]] + ids[1..];
    }
  }

  /** Citable identifiers keep the order in which they are listed. */
  lemma {:induction false} CitedInOrder(report: Report, evidence: seq<Evidence>, a: seq<string>, b: seq<string>)
    ensures CitedOf(report, evidence, a + b) == CitedOf(report, evidence, a) + CitedOf(report, evidence, b)
  {
    hide Citable;
    if a == [] {
      assert a + b == b;
    } else {
      assert (a + b)[1..] == a[1..] + b;
      CitedInOrder(report, evidence, a[1..], b);
    }
  }

  /** Snapshots keep the order of the evidence. */
  lemma {:induction false} SnapshotsInOrder(report: Report, a: seq<Evidence>, b: seq<Evidence>)
    ensures Snapshots(report, a + b) == Snapshots(report, a) + Snapshots(report, b)
  {
    if a == [] {
      assert a + b == b && Snapshots(report, a) == [];
    } else {
      assert (a + b)[1..] == a[1..] + b && (a + b)[0] == a[0];
      SnapshotsInOrder(report, a[1..], b);
      var head := if a[0].tool == "topology.query" && a[0].id in report.evidenceIds then [a[0].id] else [];
      ConcatAssociates(head, Snapshots(report, a[1..]), Snapshots(report, b));
    }
  }

  /** Item m of the report's chain asks for an edge between these nodes, and cites some citable evidence. */
  ghost predicate Asks(words: Words, table: map<string, string>, report: Report, evidence: seq<Evidence>, from: string, to: string,
                       m: nat) {
    && m < |report.chain|
    && Lookup(words, table, report.chain[m].0) == Some(from) && Lookup(words, table, report.chain[m].1) == Some(to)
    && exists i :: 0 <= i < |report.chain[m].2| && Citable(report, evidence, report.chain[m].2[i])
  }

  /** Item m is the last that asks. */
  ghost predicate AsksLast(words: Words, table: map<string, string>, report: Report, evidence: seq<Evidence>, from: string, to: string,
                           m: nat, n: nat) {
    && Asks(words, table, report, evidence, from, to, m) && m < n
    && forall l :: m < l < n ==> !Asks(words, table, report, evidence, from, to, l)
  }

  lemma CitesSome(report: Report, evidence: seq<Evidence>, ids: seq<string>)
    ensures CitedOf(report, evidence, ids) != [] <==> exists i :: 0 <= i < |ids| && Citable(report, evidence, ids[i])
  {
    hide Citable;
    var r := CitedOf(report, evidence, ids);
    if r != [] {
      assert r[0] in ids && Citable(report, evidence, r[0]);
    }
    if i :| 0 <= i < |ids| && Citable(report, evidence, ids[i]) {
      CitedExactly(report, evidence, ids, ids[i]);
      assert ids[i] in multiset(ids) && ids[i] in multiset(r);
    }
  }

  lemma RequestedStep(words: Words, table: map<string, string>, report: Report, evidence: seq<Evidence>, from: string, to: string, n: nat)
    requires 0 < n <= |report.chain|
    ensures var before, r := Requested(words, table, report, evidence, n - 1), Requested(words, table, report, evidence, n);
            if Asks(words, table, report, evidence, from, to, n - 1) then
              (from, to) in r && r[(from, to)] == CitedOf(report, evidence, report.chain[n - 1].2)
            else
              ((from, to) in r <==> (from, to) in before) && ((from, to) in r ==> r[(from, to)] == before[(from, to)])
  {
    hide Lookup;
    hide CitedOf;
    hide Citable;
    CitesSome(report, evidence, report.chain[n - 1].2);
  }

  lemma NothingRequested(words: Words, table: map<string, string>, report: Report, evidence: seq<Evidence>)
    ensures Requested(words, table, report, evidence, 0) == map[]
  {}

  /** None of the first n items asks. */
  ghost predicate NobodyAsks(words: Words, table: map<string, string>, report: Report, evidence: seq<Evidence>, from: string, to: string,
                             n: nat) {
    forall l: nat :: l < n ==> !Asks(words, table, report, evidence, from, to, l)
  }

  /** An edge is requested exactly if an item of the report asks for it; it then cites what the last such item cites. */
  lemma {:induction false} RequestedExactly(words: Words, table: map<string, string>, report: Report, evidence: seq<Evidence>,
                                            from: string, to: string, n: nat) returns (m: nat)
    requires n <= |report.chain|
    ensures var r := Requested(words, table, report, evidence, n);
            if (from, to) in r then
              AsksLast(words, table, report, evidence, from, to, m, n) && r[(from, to)] == CitedOf(report, evidence, report.chain[m].2)
            else NobodyAsks(words, table, report, evidence, from, to, n)
  {
    hide Requested;
    hide Asks;
    hide CitedOf;
    hide Lookup;
    hide AliasTable;
    m := 0;
    if n == 0 {
      NothingRequested(words, table, report, evidence);
    } else {
      RequestedStep(words, table, report, evidence, from, to, n);
      m := RequestedExactly(words, table, report, evidence, from, to, n - 1);
      if Asks(words, table, report, evidence, from, to, n - 1) { m := n - 1; }
    }
  }

  /** The topology snapshots of the report are listed once for each time the evidence has them. */
  lemma {:induction false} SnapshotsExactly(report: Report, evidence: seq<Evidence>, id: string)
    ensures id in Snapshots(report, evidence) <==>
              exists j :: 0 <= j < |evidence| && evidence[j].id == id && evidence[j].tool == "topology.query" && id in report.evidenceIds
  {
    if evidence != [] {
      SnapshotsExactly(report, evidence[1..], id);
      assert evidence == [evidence[0]] + evidence[1..];
      if j :| 0 <= j < |evidence[1..]| && evidence[1..][j].id == id && evidence[1..][j].tool == "topology.query" {
        assert evidence[j + 1] == evidence[1..][j];
      }
      if j :| 0 <= j < |evidence| && evidence[j].id == id && evidence[j].tool == "topology.query" {
        assert j > 0 ==> evidence[1..][j - 1] == evidence[j];
      }
    }
  }

  // ---------------------------------------------------------------- the edges that may be followed

  /** Evidence other than a topology snapshot mentions a name, of which node j is the last bearer. */
  ghost predicate Mentions(words: Words, nodes: seq<T.Node>, evidence: seq<Evidence>, node: string, i: nat, alias: string, j: nat) {
    && i < |evidence| && !evidence[i].kind.Topology? && (words.mentions)(alias, evidence[i].text)
    && LastNamed(words, nodes, alias, j) && nodes[j].id == node
  }

  ghost predicate MentionedIn(words: Words, nodes: seq<T.Node>, evidence: seq<Evidence>, node: string) {
    exists i: nat, alias, j: nat :: Mentions(words, nodes, evidence, node, i, alias, j)
  }

  ghost predicate OnlyWayOut(graph: T.Graph, e: T.Edge) {
    forall other :: other in graph.edges && other.source == e.source ==> other == e
  }

  /** An edge may be followed if the report asks for it, its target is mentioned, a trace showed it, or its source has no other. */
  ghost predicate Followed(words: Words, report: Report, graph: T.Graph, evidence: seq<Evidence>, e: T.Edge) {
    && e in graph.edges
    && (|| (exists m: nat :: Asks(words, AliasTable(words, graph.nodes), report, evidence, e.source, e.target, m))
        || MentionedIn(words, graph.nodes, evidence, e.target)
        || e.provenance.Trace?
        || OnlyWayOut(graph, e))
  }

  lemma {:induction false} CountOnce(s: seq<T.Edge>, x: T.Edge)
    requires NoDuplicates(s)
    ensures multiset(s)[x] <= 1
  {
    hide NoDuplicates;
    if s != [] {
      assert s == [s[0]] + s[1..];
      DistinctCons(s[0], s[1..]);
      CountOnce(s[1..], x);
    }
  }

  lemma OutgoingOnce(graph: T.Graph, node: string, e: T.Edge)
    requires graph.Valid()
    ensures multiset(graph.Outgoing(node))[e] <= 1
  {
    assert NoDuplicates(graph.edges);
    CountOnce(graph.edges, e);
    T.FromCounts(graph.edges, node, e);
    SortKeeps(T.KeyLe, T.From(graph.edges, node));
  }

  lemma OnlyMember(out: seq<T.Edge>, e: T.Edge)
    requires e in out && multiset(out)[e] <= 1
    ensures |out| == 1 <==> forall other :: other in out ==> other == e
  {
    if |out| > 1 && forall other :: other in out ==> other == e {
      assert out[0] in out && out[1] in out;
      RepeatsCount(out, 0, 1);
      assert false;
    }
  }

  lemma OnlyWayMeans(graph: T.Graph, e: T.Edge)
    requires graph.Valid() && e in graph.edges
    ensures |graph.Outgoing(e.source)| == 1 <==> OnlyWayOut(graph, e)
  {
    forall o: T.Edge ensures o in graph.Outgoing(e.source) <==> o in graph.edges && o.source == e.source {
      T.OutgoingMembers(graph, e.source, o);
    }
    OutgoingOnce(graph, e.source, e);
    hide T.Graph.Valid;
    hide T.Graph.Outgoing;
    OnlyMember(graph.Outgoing(e.source), e);
  }

  lemma MentionedMeans(words: Words, nodes: seq<T.Node>, evidence: seq<Evidence>, node: string)
    ensures node in Observed(words, SearchTable(words, nodes), evidence) <==> MentionedIn(words, nodes, evidence, node)
  {
    var table := SearchTable(words, nodes);
    ObservedMeans(words, table, evidence, node);
    if node in Observed(words, table, evidence) {
      var i, alias :| 0 <= i < |evidence| && !evidence[i].kind.Topology? && alias in table
        && table[alias] == node && (words.mentions)(alias, evidence[i].text);
      var j := SearchTableMeans(words, nodes, alias);
      assert Mentions(words, nodes, evidence, node, i, alias, j);
    }
    if i: nat, alias, j: nat :| Mentions(words, nodes, evidence, node, i, alias, j) {
      var k := SearchTableMeans(words, nodes, alias);
      assert HasName(words, nodes[j], alias);
      assert k == j;
    }
  }

  /** The walk admits exactly the edges that may be followed. */
  lemma AdmitsExactly(words: Words, report: Report, root: string, graph: T.Graph, evidence: seq<Evidence>, e: T.Edge)
    requires graph.Valid() && e in graph.edges
    ensures QueryOf(words, report, root, graph, evidence).Admits(e) <==> Followed(words, report, graph, evidence, e)
  {
    var table := AliasTable(words, graph.nodes);
    hide T.Graph.Valid;
    hide T.Graph.Outgoing;
    hide Requested;
    hide Observed;
    hide Asks;
    hide MentionedIn;
    hide OnlyWayOut;
    var m := RequestedExactly(words, table, report, evidence, e.source, e.target, |report.chain|);
    AsksInChain(words, table, report, evidence, e.source, e.target);
    MentionedMeans(words, graph.nodes, evidence, e.target);
    OnlyWayMeans(graph, e);
  }

  lemma AsksInChain(words: Words, table: map<string, string>, report: Report, evidence: seq<Evidence>, from: string, to: string)
    ensures NobodyAsks(words, table, report, evidence, from, to, |report.chain|) <==>
              !exists m: nat :: Asks(words, table, report, evidence, from, to, m)
  {}

  // ---------------------------------------------------------------- the context

  /** A path of edges that may be followed. */
  ghost predicate FollowedPath(words: Words, report: Report, graph: T.Graph, evidence: seq<Evidence>, p: seq<T.Edge>,
                               from: string, to: string)
  {
    if p == [] then from == to
    else
      var e := p[|p| - 1];
      Followed(words, report, graph, evidence, e) && e.target == to
      && FollowedPath(words, report, graph, evidence, p[..|p| - 1], from, e.source)
  }

  lemma {:induction false} PathsAgree(words: Words, report: Report, root: string, graph: T.Graph, evidence: seq<Evidence>,
                                      p: seq<T.Edge>, to: string)
    requires graph.Valid()
    ensures IsPath(QueryOf(words, report, root, graph, evidence), p, root, to) <==>
              FollowedPath(words, report, graph, evidence, p, root, to)
  {
    hide T.Graph.Valid;
    hide Query.Admits;
    hide Requested;
    hide Observed;
    if p != [] {
      var e := p[|p| - 1];
      if e in graph.edges { AdmitsExactly(words, report, root, graph, evidence, e); }
      PathsAgree(words, report, root, graph, evidence, p[..|p| - 1], e.source);
    }
  }

  /** A context that was walked: the topology is known, its root found and the report has a snapshot of it. */
  ghost predicate Walked(words: Words, report: Report, incidentService: string, graph: T.Graph, evidence: seq<Evidence>, c: Context) {
    && graph.Valid() && Built(words, report, incidentService, Some(graph), evidence, c)
    && !report.status.NoActionableRootCause? && c.root.Some? && Snapshots(report, evidence) != []
  }

  /** Without an actionable cause, a root or a snapshot the context has no edges and no services. */
  lemma OtherwiseEmpty(words: Words, report: Report, incidentService: string, graph: T.Graph, evidence: seq<Evidence>, c: Context)
    requires graph.Valid() && Built(words, report, incidentService, Some(graph), evidence, c)
    requires !Walked(words, report, incidentService, graph, evidence, c)
    ensures c.chain == [] && c.affected == [] && c.blast == []
    ensures c.root == if report.status.NoActionableRootCause? then None
                      else RootOf(words, AliasTable(words, graph.nodes), report, incidentService)
  {
    hide RootOf;
    hide Snapshots;
    hide IsTraversal;
    hide ContextOf;
    hide T.Graph.Valid;
    var found := RootOf(words, AliasTable(words, graph.nodes), report, incidentService);
    if !report.status.NoActionableRootCause? && found.Some? && Snapshots(report, evidence) != [] {
      var t :| IsTraversal(QueryOf(words, report, found.value, graph, evidence), t)
               && c == ContextOf(words, report, found.value, graph, evidence, t);
      ContextRoot(words, report, found.value, graph, evidence, t);
    }
  }

  lemma WalkOf(words: Words, report: Report, incidentService: string, graph: T.Graph, evidence: seq<Evidence>, c: Context)
    returns (t: seq<Visit>)
    requires Walked(words, report, incidentService, graph, evidence, c)
    ensures IsTraversal(QueryOf(words, report, c.root.value, graph, evidence), t)
    ensures c == ContextOf(words, report, c.root.value, graph, evidence, t)
  {
    hide RootOf;
    hide Snapshots;
    hide IsTraversal;
    hide ContextOf;
    hide T.Graph.Valid;
    var root := RootOf(words, AliasTable(words, graph.nodes), report, incidentService).value;
    t :| IsTraversal(QueryOf(words, report, root, graph, evidence), t) && c == ContextOf(words, report, root, graph, evidence, t);
    ContextRoot(words, report, root, graph, evidence, t);
  }

  lemma ContextRoot(words: Words, report: Report, root: string, graph: T.Graph, evidence: seq<Evidence>, t: seq<Visit>)
    ensures var c := ContextOf(words, report, root, graph, evidence, t);
            && c.root == Some(root) && |c.chain| == |t|
            && forall k :: 0 <= k < |t| ==> c.chain[k].0 == t[k].edge.source && c.chain[k].1 == t[k].edge.target
  {}

  ghost predicate Targeted(c: Context, v: string) { exists k :: 0 <= k < |c.chain| && c.chain[k].1 == v }

  /** Within the depth bound a node is reached by edges that may be followed. */
  ghost predicate Reached(words: Words, report: Report, graph: T.Graph, evidence: seq<Evidence>, root: string, v: string) {
    exists p :: FollowedPath(words, report, graph, evidence, p, root, v) && |p| <= graph.maxDepth
  }

  /** The chain leads to exactly the nodes, other than the root, that a path of followed edges within the depth bound reaches. */
  lemma ChainCovers(words: Words, report: Report, incidentService: string, graph: T.Graph, evidence: seq<Evidence>, c: Context, v: string)
    requires Walked(words, report, incidentService, graph, evidence, c)
    ensures Targeted(c, v) <==> v != c.root.value && Reached(words, report, graph, evidence, c.root.value, v)
  {
    var t := WalkOf(words, report, incidentService, graph, evidence, c);
    var root := c.root.value;
    var q := QueryOf(words, report, root, graph, evidence);
    ContextRoot(words, report, root, graph, evidence, t);
    CoversExactlyTheReachable(q, t, v);
    assert graph.Valid();
    hide Walked;
    hide ContextOf;
    hide IsTraversal;
    hide IsPath;
    hide FollowedPath;
    hide T.Graph.Valid;
    if p :| FollowedPath(words, report, graph, evidence, p, root, v) && |p| <= graph.maxDepth {
      PathsAgree(words, report, root, graph, evidence, p, v);
      assert Reaches(q, v, graph.maxDepth);
    }
    if Reaches(q, v, graph.maxDepth) {
      var p :| IsPath(q, p, root, v) && |p| <= graph.maxDepth;
      PathsAgree(words, report, root, graph, evidence, p, v);
    }
    assert Targeted(c, v) <==> Covers(t, v);
  }

  /**
   What an edge of the chain cites: if the report asks for the edge, the citable evidence of the last item that does, each
   as often as it lists it; otherwise the topology snapshots of the report.
   */
  lemma ChainCites(words: Words, report: Report, incidentService: string, graph: T.Graph, evidence: seq<Evidence>, c: Context, k: nat,
                   id: string)
    requires Walked(words, report, incidentService, graph, evidence, c) && k < |c.chain|
    ensures var table := AliasTable(words, graph.nodes);
            var (from, to, ids) := c.chain[k];
            if exists m: nat :: Asks(words, table, report, evidence, from, to, m) then
              exists m: nat :: AsksLast(words, table, report, evidence, from, to, m, |report.chain|)
                && multiset(ids)[id] == if Citable(report, evidence, id) then multiset(report.chain[m].2)[id] else 0
            else
              id in ids <==> exists j :: 0 <= j < |evidence| && evidence[j].id == id && evidence[j].tool == "topology.query"
                               && id in report.evidenceIds
  {
    var t := WalkOf(words, report, incidentService, graph, evidence, c);
    var table := AliasTable(words, graph.nodes);
    var (from, to, ids) := c.chain[k];
    var requested := Requested(words, table, report, evidence, |report.chain|);
    assert (from, to) == (t[k].edge.source, t[k].edge.target) && ids == Cited(requested, Snapshots(report, evidence), t[k].edge);
    hide Walked;
    hide ContextOf;
    hide IsTraversal;
    hide Asks;
    hide Citable;
    hide Requested;
    hide Snapshots;
    hide CitedOf;
    var m := RequestedExactly(words, table, report, evidence, from, to, |report.chain|);
    AsksInChain(words, table, report, evidence, from, to);
    if (from, to) in requested {
      CitedExactly(report, evidence, report.chain[m].2, id);
    } else {
      SnapshotsExactly(report, evidence, id);
    }
  }

  /** A service of the topology that bears this name. */
  ghost predicate ServiceNamed(graph: T.Graph, id: string, name: string) {
    exists node :: node in graph.nodes && node.id == id && node.Service? && node.name == name
  }

  lemma NodeOfExactly(graph: T.Graph, id: string, name: string)
    requires graph.Valid()
    ensures ServiceNamed(graph, id, name) <==>
              NodeOf(graph.nodes, id).Some? && NodeOf(graph.nodes, id).value.Service? && NodeOf(graph.nodes, id).value.name == name
  {
    if node :| node in graph.nodes && node.id == id && node.Service? && node.name == name {
      var i :| 0 <= i < |graph.nodes| && graph.nodes[i] == node;
      assert T.Ids(graph.nodes)[i] == id;
      var found := NodeOf(graph.nodes, id).value;
      var j :| 0 <= j < |graph.nodes| && graph.nodes[j] == found;
      assert T.Ids(graph.nodes)[j] == id;
      assert i == j;
    }
  }

  lemma KeysOfBoth(a: seq<(string, real)>, b: seq<(string, real)>, name: string)
    ensures name in Keys(a + b) <==> (exists i :: 0 <= i < |a| && a[i].0 == name) || exists i :: 0 <= i < |b| && b[i].0 == name
  {
    var all := a + b;
    if n :| 0 <= n < |all| && Keys(all)[n] == name {
      assert all[n] == if n < |a| then a[n] else b[n - |a|];
    }
    if i :| 0 <= i < |a| && a[i].0 == name { assert Keys(all)[i] == name; }
    if i :| 0 <= i < |b| && b[i].0 == name { assert Keys(all)[|a| + i] == name; }
  }

  lemma RootNames(graph: T.Graph, root: string, includeRoot: bool, name: string)
    requires graph.Valid()
    ensures var first := RootScores(graph, root, includeRoot);
            (exists i :: 0 <= i < |first| && first[i].0 == name) <==> includeRoot && ServiceNamed(graph, root, name)
  {
    NodeOfExactly(graph, root, name);
    hide T.Graph.Valid;
    hide ServiceNamed;
    var first := RootScores(graph, root, includeRoot);
    assert |first| <= 1;
    assert first != [] ==> first[0].0 == NodeOf(graph.nodes, root).value.name;
  }

  lemma ScoredNames(graph: T.Graph, t: seq<Visit>, root: string, includeRoot: bool, name: string)
    requires graph.Valid()
    ensures name in Keys(FromPairs(Scores(graph, t, root, includeRoot))) <==>
              || (includeRoot && ServiceNamed(graph, root, name))
              || exists k :: 0 <= k < |t| && ServiceNamed(graph, t[k].edge.target, name)
  {
    var pairs := Scores(graph, t, root, includeRoot);
    FromPairsKeys(pairs);
    FirstOccurrencesMembers(Keys(pairs), name);
    RootNames(graph, root, includeRoot, name);
    NamesSupplied(graph, t, name);
    KeysOfBoth(RootScores(graph, root, includeRoot), VisitScores(graph, t), name);
    forall k | 0 <= k < |t| ensures ServiceNamed(graph, t[k].edge.target, name) <==> SuppliesName(graph, t, k, name) {
      NodeOfExactly(graph, t[k].edge.target, name);
    }
    hide T.Graph.Valid;
    hide ServiceNamed;
    hide SuppliesName;
    hide FromPairs;
    hide RootScores;
    hide VisitScores;
  }

  lemma NamesSupplied(graph: T.Graph, t: seq<Visit>, name: string)
    ensures (exists i :: 0 <= i < |VisitScores(graph, t)| && VisitScores(graph, t)[i].0 == name) <==>
              exists k :: 0 <= k < |t| && SuppliesName(graph, t, k, name)
  {
    var late := VisitScores(graph, t);
    if i :| 0 <= i < |late| && late[i].0 == name {
      var k := VisitScoresSupplied(graph, t, i);
      assert SuppliesName(graph, t, k, name);
    }
    if k :| 0 <= k < |t| && SuppliesName(graph, t, k, name) {
      NameIsScored(graph, t, k, name);
      var j :| -1 < j < |late| && j >= 0 && late[j].0 == name;
    }
  }

  /**
   The affected services are exactly those of the nodes the chain leads to, and of the root if the report names a root
   cause type; each has one score.
   */
  lemma AffectedAre(words: Words, report: Report, incidentService: string, graph: T.Graph, evidence: seq<Evidence>, c: Context,
                    name: string)
    requires Walked(words, report, incidentService, graph, evidence, c)
    ensures NoDuplicates(c.affected) && c.affected == Keys(c.blast)
    ensures name in c.affected <==>
              || (report.rootCauseType.Some? && ServiceNamed(graph, c.root.value, name))
              || exists v :: Targeted(c, v) && ServiceNamed(graph, v, name)
  {
    var t := WalkOf(words, report, incidentService, graph, evidence, c);
    ContextRoot(words, report, c.root.value, graph, evidence, t);
    ScoredNames(graph, t, c.root.value, report.rootCauseType.Some?, name);
    FromPairsKeys(Scores(graph, t, c.root.value, report.rootCauseType.Some?));
    hide T.Graph.Valid;
    hide ServiceNamed;
    hide FromPairs;
    hide Scores;
    hide IsTraversal;
    forall k | 0 <= k < |t| ensures Targeted(c, t[k].edge.target) { assert c.chain[k].1 == t[k].edge.target; }
  }

  /** The confidence of a path: the product of the confidences of its edges. */
  function Product(p: seq<T.Edge>): real {
    if p == [] then 1.0 else Product(p[..|p| - 1]) * p[|p| - 1].confidence
  }

  lemma ScaledIsProduct(path: real, edge: real)
    ensures Scaled(path, edge) == path * edge
  {}

  lemma {:induction false} WeightIsProduct(p: seq<T.Edge>)
    ensures Weight(p) == Product(p)
  {
    hide Scaled;
    if p != [] {
      WeightIsProduct(p[..|p| - 1]);
      ScaledIsProduct(Weight(p[..|p| - 1]), p[|p| - 1].confidence);
    }
  }

  /** The score of a service the chain leads to: that of a node so named, by a shortest followed path to it. */
  ghost predicate ScoredByPath(words: Words, report: Report, graph: T.Graph, evidence: seq<Evidence>, root: string, item: (string, real),
                               node: T.Node, p: seq<T.Edge>)
  {
    && node in graph.nodes && node.Service? && node.name == item.0
    && FollowedPath(words, report, graph, evidence, p, root, node.id)
    && (forall r :: FollowedPath(words, report, graph, evidence, r, root, node.id) ==> |p| <= |r|)
    && IsScore(item.1, Product(p), node.confidence, |p|)
  }

  /** The path that visit k stands for. */
  lemma PathOfVisit(q: Query, t: seq<Visit>, slots: seq<Slot>, k: nat) returns (p: seq<T.Edge>)
    requires Scan(q, t, slots) && k < |t|
    ensures IsPath(q, p, q.root, t[k].edge.target) && |p| == t[k].depth && Weight(p) == t[k].confidence
  {
    p := TreePath(q, t, slots, k + 1);
    TreePathLeads(q, t, slots, k + 1);
    hide Scan;
    hide IsPath;
    hide TreePath;
    hide Weight;
  }

  lemma NoShorterPath(q: Query, t: seq<Visit>, k: nat, r: seq<T.Edge>)
    requires IsTraversal(q, t) && k < |t| && IsPath(q, r, q.root, t[k].edge.target)
    ensures t[k].depth <= |r|
  {
    DepthsAreShortest(q, t, k);
    hide IsTraversal;
    hide IsPath;
    assert !Reaches(q, t[k].edge.target, t[k].depth - 1);
  }

  lemma VisitScored(words: Words, report: Report, root: string, graph: T.Graph, evidence: seq<Evidence>, t: seq<Visit>, k: nat,
                    item: (string, real))
    requires graph.Valid() && IsTraversal(QueryOf(words, report, root, graph, evidence), t) && ScoredBy(graph, t, k, item)
    ensures exists node, p :: ScoredByPath(words, report, graph, evidence, root, item, node, p)
  {
    var q := QueryOf(words, report, root, graph, evidence);
    var node :| node in graph.nodes && node.id == t[k].edge.target && node.Service? && node.name == item.0
      && IsScore(item.1, t[k].confidence, node.confidence, t[k].depth);
    hide IsScore;
    hide T.Graph.Valid;
    var slots :| Scan(q, t, slots);
    var p := PathOfVisit(q, t, slots, k);
    hide Scan;
    hide IsTraversal;
    hide IsPath;
    hide FollowedPath;
    hide ScoredBy;
    WeightIsProduct(p);
    PathsAgree(words, report, root, graph, evidence, p, node.id);
    forall r | FollowedPath(words, report, graph, evidence, r, root, node.id) ensures |p| <= |r| {
      PathsAgree(words, report, root, graph, evidence, r, node.id);
      NoShorterPath(q, t, k, r);
    }
    assert ScoredByPath(words, report, graph, evidence, root, item, node, p);
  }

  /**
   Every score is that of a node the chain leads to: the lesser of the confidence of a shortest followed path to it and
   of its own, divided by the path's length and rounded; or it is the root's own confidence, if a root cause type is named.
   */
  lemma ScoresAre(words: Words, report: Report, incidentService: string, graph: T.Graph, evidence: seq<Evidence>, c: Context, n: nat)
    requires Walked(words, report, incidentService, graph, evidence, c) && n < |c.blast|
    ensures || (exists node, p :: ScoredByPath(words, report, graph, evidence, c.root.value, c.blast[n], node, p))
            || (report.rootCauseType.Some?
                && exists node :: node in graph.nodes && node.id == c.root.value && node.Service?
                     && c.blast[n] == (node.name, node.confidence))
  {
    var t := WalkOf(words, report, incidentService, graph, evidence, c);
    var q := QueryOf(words, report, c.root.value, graph, evidence);
    ContextRoot(words, report, c.root.value, graph, evidence, t);
    BlastScores(q, t, report.rootCauseType.Some?, n);
    hide T.Graph.Valid;
    hide IsTraversal;
    hide ScoredBy;
    hide ScoredByPath;
    hide FromPairs;
    var item := c.blast[n];
    if k: nat :| ScoredBy(graph, t, k, item) { VisitScored(words, report, c.root.value, graph, evidence, t, k, item); }
  }
}
