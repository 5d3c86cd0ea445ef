/** From a report, its evidence and a topology to a grounded causal chain and a blast radius. */
module CausalContext {
  import opened Outcomes
  import opened OrderedDict
  import opened Text
  import opened RcaDomain
  import opened RootCauses
  import opened Rates
  import T = Topology
  import opened CausalAliases
  import opened CausalTraversal
  import opened CausalTree

  datatype Report = Report(
    status: ConclusionStatus,
    evidenceIds: seq<string>,
    suspectedRoot: Option<string>,
    chain: Chain,
    affected: seq<string>,
    blast: seq<(string, real)>,
    rootCauseType: Option<string>,
    rootResource: Option<string>,
    selectedId: Option<string>,
    candidates: seq<Candidate>)
  {
    /** What constructing a report checks of these fields. */
    predicate Valid() {
      && 1 <= |evidenceIds| <= 100 && NoDuplicates(evidenceIds) && (forall i :: 0 <= i < |evidenceIds| ==> IsLine(evidenceIds[i], 64))
      && Accepted(Context(suspectedRoot, chain, affected, blast))
      && RootCause(rootCauseType, suspectedRoot, rootResource, selectedId).Fits(status, candidates)
    }

    /** `replace(report, ...)` with a context. */
    function With(c: Context): Report {
      this.(suspectedRoot := c.root, chain := c.chain, affected := c.affected, blast := c.blast)
    }

    /** The service of the selected candidate. */
    function SelectedService(): Option<string> {
      if selectedId.None? then None
      else
        var c := FirstWithId(candidates, selectedId.value);
        if c.None? then None else Some(c.value.service)
    }
  }

  datatype Context = Context(root: Option<string>, chain: Chain, affected: seq<string>, blast: seq<(string, real)>)

  /** What a report checks of an edge of its chain. */
  predicate EdgeAccepted(e: (string, string, seq<string>)) {
    && IsLine(e.0, 256) && IsLine(e.1, 256) && e.0 != e.1
    && NoDuplicates(e.2) && forall i :: 0 <= i < |e.2| ==> IsLine(e.2[i], 64)
  }

  /** The checks a report makes of its topology context. */
  predicate Accepted(c: Context) {
    && (c.root.Some? ==> IsLine(c.root.value, 256))
    && |c.chain| <= 100
    && (forall i :: 0 <= i < |c.chain| ==> EdgeAccepted(c.chain[i]))
    && (forall i, j :: 0 <= i < j < |c.chain| ==> (c.chain[i].0, c.chain[i].1) != (c.chain[j].0, c.chain[j].1))
    && |c.affected| <= 100 && NoDuplicates(c.affected) && (forall n :: 0 <= n < |c.affected| ==> IsLine(c.affected[n], 256))
    && |c.blast| <= 100 && forall n :: 0 <= n < |c.blast| ==> IsLine(c.blast[n].0, 256) && 0.0 <= c.blast[n].1 <= 1.0
  }

  // ---------------------------------------------------------------- requested edges

  predicate Citable(report: Report, evidence: seq<Evidence>, id: string) {
    && id in report.evidenceIds
    && (exists i :: 0 <= i < |evidence| && ById(evidence, id, i) && (evidence[i].kind.Topology? || evidence[i].kind.Trace?))
  }

  /** Item i is the one a dictionary of the evidence keeps for this identifier. */
  predicate ById(evidence: seq<Evidence>, id: string, i: nat)
    requires i < |evidence|
  {
    evidence[i].id == id && forall j :: i < j < |evidence| ==> evidence[j].id != id
  }

  function CitedOf(report: Report, evidence: seq<Evidence>, ids: seq<string>): (r: seq<string>)
    ensures forall i :: 0 <= i < |r| ==> r[i] in ids && Citable(report, evidence, r[i])
    ensures NoDuplicates(ids) ==> NoDuplicates(r)
  {
    if ids == [] then []
    else
      var rest := CitedOf(report, evidence, ids[1..]);
      if Citable(report, evidence, ids[0]) then [ids[0]] + rest else rest
  }

  /** The requested edges after the first n items of the report's chain. */
  function Requested(words: Words, table: map<string, string>, report: Report, evidence: seq<Evidence>, n: nat)
    : map<(string, string), seq<string>>
    requires n <= |report.chain|
  {
    if n == 0 then map[]
    else
      var before := Requested(words, table, report, evidence, n - 1);
      var (source, target, ids) := report.chain[n - 1];
      var from, to := Lookup(words, table, source), Lookup(words, table, target);
      var cited := CitedOf(report, evidence, ids);
      if from.None? || to.None? || cited == [] then before
      else before[(from.value, to.value) := cited]
  }

  method RequestedEdges(words: Words, aliases: Aliases, report: Report, evidence: seq<Evidence>)
    returns (requested: map<(string, string), seq<string>>)
    ensures requested == Requested(words, aliases.aliases, report, evidence, |report.chain|)
  {
    hide CitedOf;
    hide Lookup;
    requested := map[];
    for n := 0 to |report.chain|
      invariant requested == Requested(words, aliases.aliases, report, evidence, n)
    {
      var (source, target, ids) := report.chain[n];
      var from := aliases.Resolve(words, source);
      var to := aliases.Resolve(words, target);
      if from.None? || to.None? { continue; }
      var cited := CitedOf(report, evidence, ids);
      if cited != [] {
        requested := requested[(from.value, to.value) := cited];
      }
    }
  }

  /** Evidence identifiers an edge may cite: at least one, all from the report. */
  ghost predicate CitesReport(report: Report, ids: seq<string>) {
    ids != [] && forall i :: 0 <= i < |ids| ==> ids[i] in report.evidenceIds
  }

  ghost predicate ChainCitesOnce(report: Report) {
    forall n :: 0 <= n < |report.chain| ==> NoDuplicates(report.chain[n].2)
  }

  /** A requested edge cites evidence of the report; it cites nothing twice if the report's chain does not. */
  lemma {:induction false} RequestedGrounded(words: Words, table: map<string, string>, report: Report,
                                             evidence: seq<Evidence>, n: nat)
    requires n <= |report.chain|
    ensures forall k :: k in Requested(words, table, report, evidence, n) ==>
              && CitesReport(report, Requested(words, table, report, evidence, n)[k])
              && (ChainCitesOnce(report) ==> NoDuplicates(Requested(words, table, report, evidence, n)[k]))
  {
    if n > 0 {
      RequestedGrounded(words, table, report, evidence, n - 1);
    }
  }

  // ---------------------------------------------------------------- observed nodes

  function Observed(words: Words, table: map<string, string>, evidence: seq<Evidence>): set<string> {
    if evidence == [] then {}
    else
      (if evidence[0].kind.Topology? then {} else Mentioned(words, table, evidence[0].text))
      + Observed(words, table, evidence[1..])
  }

  /** A node is observed exactly when some evidence other than a topology snapshot mentions one of its searchable names. */
  lemma {:induction false} ObservedMeans(words: Words, table: map<string, string>, evidence: seq<Evidence>, node: string)
    ensures node in Observed(words, table, evidence) <==>
            exists i, alias :: 0 <= i < |evidence| && !evidence[i].kind.Topology? && alias in table
              && table[alias] == node && (words.mentions)(alias, evidence[i].text)
  {
    if evidence != [] {
      var first, rest := evidence[0], evidence[1..];
      ObservedMeans(words, table, rest, node);
      if node in Observed(words, table, evidence) {
        if !first.kind.Topology? && node in Mentioned(words, table, first.text) {
          var alias :| alias in table && (words.mentions)(alias, first.text) && table[alias] == node;
          assert evidence[0] == first;
        } else {
          var i, alias :| 0 <= i < |rest| && !rest[i].kind.Topology? && alias in table
            && table[alias] == node && (words.mentions)(alias, rest[i].text);
          assert evidence[i + 1] == rest[i];
        }
      }
      forall i, alias | 0 <= i < |evidence| && !evidence[i].kind.Topology? && alias in table
        && table[alias] == node && (words.mentions)(alias, evidence[i].text)
        ensures node in Observed(words, table, evidence)
      {
        if i > 0 { assert rest[i - 1] == evidence[i]; }
      }
    }
  }

  // ---------------------------------------------------------------- impact

  /** `round(x, 6)`: half to even. */
  function Round6(x: real): real { Nearest(x * 1000000.0) as real / 1000000.0 }

  /** The nearest integer, of two the even one. */
  function Nearest(scaled: real): int {
    var below := scaled.Floor;
    var rest := scaled - below as real;
    if rest < 0.5 then below else if rest > 0.5 then below + 1 else if below % 2 == 0 then below else below + 1
  }

  lemma Round6Monotone(x: real, y: real)
    requires x <= y
    ensures Round6(x) <= Round6(y)
  {
    var a, b := x * 1000000.0, y * 1000000.0;
    assert a <= b;
    if a.Floor < b.Floor {
      assert a.Floor + 1 <= b.Floor;
    }
  }

  lemma Round6Unit()
    ensures Round6(0.0) == 0.0 && Round6(1.0) == 1.0
  {
    assert (0.0 * 1000000.0).Floor == 0 && (1.0 * 1000000.0).Floor == 1000000;
  }

  /** x is y rounded to millionths, a tie to the even one. */
  ghost predicate IsRounded(x: real, y: real) {
    var n := (x * 1000000.0).Floor;
    var off := y * 1000000.0 - n as real;
    x * 1000000.0 == n as real && -0.5 <= off <= 0.5 && (off == 0.5 || off == -0.5 ==> n % 2 == 0)
  }

  lemma RoundingMeans(y: real)
    ensures IsRounded(Round6(y), y)
  {
    var n := Nearest(y * 1000000.0);
    NearestMeans(y * 1000000.0);
    hide Nearest;
    Millionths(n);
  }

  lemma NearestMeans(scaled: real)
    ensures var n := Nearest(scaled);
            var off := scaled - n as real;
            -0.5 <= off <= 0.5 && (off == 0.5 || off == -0.5 ==> n % 2 == 0)
  {}

  lemma Millionths(n: int)
    ensures n as real / 1000000.0 * 1000000.0 == n as real && (n as real).Floor == n
  {}

  function NodeOf(nodes: seq<T.Node>, id: string): (r: Option<T.Node>)
    ensures r.Some? ==> r.value in nodes && r.value.id == id
    ensures id in T.Ids(nodes) ==> r.Some?
  {
    if nodes == [] then None
    else if nodes[0].id == id then Some(nodes[0])
    else
      assert id in T.Ids(nodes) ==> id in T.Ids(nodes[1..]);
      NodeOf(nodes[1..], id)
  }

  function Score(visit: Visit, node: T.Node): real {
    Round6(Min(visit.confidence, node.confidence) / (if visit.depth >= 1 then visit.depth as real else 1.0))
  }

  function RootScores(graph: T.Graph, root: string, includeRoot: bool): seq<(string, real)> {
    match NodeOf(graph.nodes, root)
    case Some(Service(_, name, confidence)) => if includeRoot then [(name, confidence)] else []
    case _ => []
  }

  function VisitScores(graph: T.Graph, t: seq<Visit>): seq<(string, real)> {
    if t == [] then []
    else
      var v := t[|t| - 1];
      VisitScores(graph, t[..|t| - 1]) +
      match NodeOf(graph.nodes, v.edge.target)
      case Some(Service(id, name, c)) => [(name, Score(v, T.Service(id, name, c)))]
      case _ => []
  }

  /** Every service the walk passed, with its score, before services of one name are merged. */
  function Scores(graph: T.Graph, t: seq<Visit>, root: string, includeRoot: bool): seq<(string, real)> {
    RootScores(graph, root, includeRoot) + VisitScores(graph, t)
  }

  method Impact(graph: T.Graph, t: seq<Visit>, root: string, includeRoot: bool)
    returns (affected: seq<string>, blast: seq<(string, real)>)
    ensures blast == FromPairs(Scores(graph, t, root, includeRoot))
    ensures affected == Keys(blast)
  {
    var ordered: seq<(string, real)> := [];
    match NodeOf(graph.nodes, root) {
      case Some(Service(_, name, confidence)) => if includeRoot { ordered := [(name, confidence)]; }
      case _ =>
    }
    for k := 0 to |t|
      invariant ordered == RootScores(graph, root, includeRoot) + VisitScores(graph, t[..k])
    {
      assert t[..k + 1][..k] == t[..k];
      var target := NodeOf(graph.nodes, t[k].edge.target);
      if target.None? || !target.value.Service? { continue; }
      var score := Round6(Min(t[k].confidence, target.value.confidence)
                          / (if t[k].depth >= 1 then t[k].depth as real else 1.0));
      ordered := ordered + [(target.value.name, score)];
    }
    assert t[..|t|] == t;
    blast := FromPairs(ordered);
    affected := Keys(blast);
  }

  /** Visit k scores service `item.0`. */
  ghost predicate Supplies(graph: T.Graph, t: seq<Visit>, k: nat, item: (string, real)) {
    && k < |t|
    && var node := NodeOf(graph.nodes, t[k].edge.target);
      node.Some? && node.value.Service? && node.value.name == item.0 && item.1 == Score(t[k], node.value)
  }

  /**
   A score is the lesser of two confidences, that of the path and that of the service's node, divided by the depth
   and rounded to six places.
   */
  ghost predicate IsScore(x: real, path: real, node: real, depth: nat) {
    && depth >= 1
    && (path <= node ==> IsRounded(x, path / depth as real))
    && (node <= path ==> IsRounded(x, node / depth as real))
  }

  /** Item scores the service that visit k leads to. */
  ghost predicate ScoredBy(graph: T.Graph, t: seq<Visit>, k: nat, item: (string, real)) {
    && k < |t|
    && exists node :: node in graph.nodes && node.id == t[k].edge.target && node.Service? && node.name == item.0
         && IsScore(item.1, t[k].confidence, node.confidence, t[k].depth)
  }

  lemma SuppliesMeans(graph: T.Graph, t: seq<Visit>, k: nat, item: (string, real))
    requires Supplies(graph, t, k, item) && t[k].depth >= 1
    ensures ScoredBy(graph, t, k, item)
  {
    hide IsRounded;
    hide Round6;
    var node := NodeOf(graph.nodes, t[k].edge.target).value;
    RoundingMeans(t[k].confidence / t[k].depth as real);
    RoundingMeans(node.confidence / t[k].depth as real);
    assert IsScore(item.1, t[k].confidence, node.confidence, t[k].depth);
  }

  ghost predicate SuppliesName(graph: T.Graph, t: seq<Visit>, k: nat, name: string) {
    && k < |t|
    && var node := NodeOf(graph.nodes, t[k].edge.target);
      node.Some? && node.value.Service? && node.value.name == name
  }

  ghost predicate ScoredAfter(s: seq<(string, real)>, name: string, i: int) {
    exists j :: i < j < |s| && j >= 0 && s[j].0 == name
  }

  lemma {:induction false} VisitScoresSupplied(graph: T.Graph, t: seq<Visit>, i: nat) returns (k: nat)
    requires i < |VisitScores(graph, t)|
    ensures Supplies(graph, t, k, VisitScores(graph, t)[i])
    ensures forall l :: k < l < |t| && SuppliesName(graph, t, l, VisitScores(graph, t)[i].0) ==>
              ScoredAfter(VisitScores(graph, t), VisitScores(graph, t)[i].0, i)
  {
    var init := t[..|t| - 1];
    var s, s' := VisitScores(graph, t), VisitScores(graph, init);
    if i < |s'| {
      k := VisitScoresSupplied(graph, init, i);
      assert init[k] == t[k];
      forall l | k < l < |t| && SuppliesName(graph, t, l, s[i].0) ensures ScoredAfter(s, s[i].0, i) {
        if l < |init| {
          assert SuppliesName(graph, init, l, s'[i].0);
          var j :| i < j < |s'| && j >= 0 && s'[j].0 == s[i].0;
          assert s[j] == s'[j];
        } else {
          assert s[|s| - 1].0 == s[i].0;
        }
      }
    } else {
      k := |t| - 1;
    }
  }

  lemma {:induction false} NameIsScored(graph: T.Graph, t: seq<Visit>, k: nat, name: string)
    requires SuppliesName(graph, t, k, name)
    ensures ScoredAfter(VisitScores(graph, t), name, -1)
  {
    var init := t[..|t| - 1];
    var s, s' := VisitScores(graph, t), VisitScores(graph, init);
    if k < |init| {
      assert init[k] == t[k];
      NameIsScored(graph, init, k, name);
      var j :| -1 < j < |s'| && j >= 0 && s'[j].0 == name;
      assert s[j] == s'[j];
    } else {
      assert s[|s'|].0 == name;
    }
  }

  lemma QuotientBounded(m: real, d: real)
    requires 0.0 <= m <= 1.0 && d >= 1.0
    ensures 0.0 <= m / d <= 1.0 / d <= 1.0
  {}

  function Reciprocal(depth: nat): real {
    Round6(1.0 / (if depth >= 1 then depth as real else 1.0))
  }

  /** A score lies in [0, 1] and does not exceed the rounded reciprocal of the depth. */
  lemma ScoreBounded(visit: Visit, node: T.Node)
    requires T.IsConfidence(visit.confidence) && T.IsConfidence(node.confidence)
    ensures 0.0 <= Score(visit, node) <= Reciprocal(visit.depth) <= 1.0
  {
    hide Round6;
    var d := if visit.depth >= 1 then visit.depth as real else 1.0;
    var m := Min(visit.confidence, node.confidence);
    QuotientBounded(m, d);
    Round6Monotone(0.0, m / d);
    Round6Monotone(m / d, 1.0 / d);
    Round6Monotone(1.0 / d, 1.0);
    Round6Unit();
  }

  lemma ConfidencesInUnit(q: Query, t: seq<Visit>, k: nat)
    requires IsTraversal(q, t) && q.graph.Valid() && k < |t|
    ensures T.IsConfidence(t[k].confidence) && t[k].depth >= 1
  {
    var slots :| Scan(q, t, slots);
    ConfidenceFalls(q, t, slots, k);
    DepthsAreShortest(q, t, k);
  }

  ghost predicate FromRoot(graph: T.Graph, root: string, includeRoot: bool, item: (string, real)) {
    includeRoot && var node := NodeOf(graph.nodes, root);
      node.Some? && node.value.Service? && item == (node.value.name, node.value.confidence)
  }

  /** Item i of the unmerged scores is the root's when it comes first and no visited node has its name. */
  lemma RootSupplied(graph: T.Graph, t: seq<Visit>, root: string, includeRoot: bool, i: nat, k: nat)
    requires var pairs := Scores(graph, t, root, includeRoot);
             i < |RootScores(graph, root, includeRoot)| && LastAt(pairs, pairs[i].0, i)
    ensures FromRoot(graph, root, includeRoot, Scores(graph, t, root, includeRoot)[i])
    ensures !SuppliesName(graph, t, k, Scores(graph, t, root, includeRoot)[i].0)
  {
    var pairs := Scores(graph, t, root, includeRoot);
    var late := VisitScores(graph, t);
    if SuppliesName(graph, t, k, pairs[i].0) {
      NameIsScored(graph, t, k, pairs[i].0);
    }
    forall j | 0 <= j < |late| ensures late[j].0 != pairs[i].0 {
      assert late[j] == pairs[|RootScores(graph, root, includeRoot)| + j];
    }
  }

  lemma NodeSupplied(graph: T.Graph, t: seq<Visit>, root: string, includeRoot: bool, i: nat) returns (k: nat)
    requires |RootScores(graph, root, includeRoot)| <= i < |Scores(graph, t, root, includeRoot)|
    requires LastAt(Scores(graph, t, root, includeRoot), Scores(graph, t, root, includeRoot)[i].0, i)
    ensures var item := Scores(graph, t, root, includeRoot)[i];
            Supplies(graph, t, k, item) && forall l :: k < l < |t| ==> !SuppliesName(graph, t, l, item.0)
  {
    var pairs := Scores(graph, t, root, includeRoot);
    var late, offset := VisitScores(graph, t), |RootScores(graph, root, includeRoot)|;
    k := VisitScoresSupplied(graph, t, i - offset);
    assert pairs[i] == late[i - offset];
    forall j | i - offset < j < |late| ensures late[j].0 != pairs[i].0 {
      assert late[j] == pairs[offset + j];
    }
  }

  /**
   Every reported score comes from the last visited node of that service: the lesser of the confidence of the
   path to it and of its own, divided by the depth; or it is the root's confidence, when no visited node has its
   name. A visited node at depth d never scores more than the rounded 1/d.
   */
  lemma BlastScores(q: Query, t: seq<Visit>, includeRoot: bool, n: nat)
    requires IsTraversal(q, t) && q.graph.Valid()
    requires n < |FromPairs(Scores(q.graph, t, q.root, includeRoot))|
    ensures var item := FromPairs(Scores(q.graph, t, q.root, includeRoot))[n];
            && 0.0 <= item.1 <= 1.0
            && (|| (FromRoot(q.graph, q.root, includeRoot, item)
                    && forall k: nat :: !SuppliesName(q.graph, t, k, item.0))
                || exists k: nat :: ScoredBy(q.graph, t, k, item) && item.1 <= Reciprocal(t[k].depth)
                    && forall l :: k < l < |t| ==> !SuppliesName(q.graph, t, l, item.0))
  {
    hide Round6;
    hide Reciprocal;
    var pairs := Scores(q.graph, t, q.root, includeRoot);
    var i := FromPairsValues(pairs, n);
    if i < |RootScores(q.graph, q.root, includeRoot)| {
      forall k: nat ensures FromRoot(q.graph, q.root, includeRoot, pairs[i]) && !SuppliesName(q.graph, t, k, pairs[i].0) {
        RootSupplied(q.graph, t, q.root, includeRoot, i, k);
      }
      assert !SuppliesName(q.graph, t, 0, pairs[i].0);
    } else {
      var k := NodeSupplied(q.graph, t, q.root, includeRoot, i);
      ConfidencesInUnit(q, t, k);
      SuppliesMeans(q.graph, t, k, pairs[i]);
      ScoreBounded(t[k], NodeOf(q.graph.nodes, t[k].edge.target).value);
    }
  }

  // ---------------------------------------------------------------- the whole builder

  function Snapshots(report: Report, evidence: seq<Evidence>): (r: seq<string>)
    ensures forall i :: 0 <= i < |r| ==> r[i] in report.evidenceIds
  {
    if evidence == [] then []
    else (if evidence[0].tool == "topology.query" && evidence[0].id in report.evidenceIds then [evidence[0].id] else [])
         + Snapshots(report, evidence[1..])
  }

  function RootOf(words: Words, table: map<string, string>, report: Report, incidentService: string): Option<string> {
    var resource := if report.rootResource.Some? then Lookup(words, table, report.rootResource.value) else None;
    if resource.Some? then resource
    else Lookup(words, table, if report.suspectedRoot.Some? then report.suspectedRoot.value else incidentService)
  }

  function QueryOf(words: Words, report: Report, root: string, graph: T.Graph, evidence: seq<Evidence>): Query {
    Query(graph, root, Observed(words, SearchTable(words, graph.nodes), evidence),
          Requested(words, AliasTable(words, graph.nodes), report, evidence, |report.chain|).Keys)
  }

  function Cited(requested: map<(string, string), seq<string>>, snapshots: seq<string>, e: T.Edge): seq<string> {
    if (e.source, e.target) in requested then requested[(e.source, e.target)] else snapshots
  }

  function ChainOf(requested: map<(string, string), seq<string>>, snapshots: seq<string>, t: seq<Visit>): Chain {
    seq(|t|, k requires 0 <= k < |t| => (t[k].edge.source, t[k].edge.target, Cited(requested, snapshots, t[k].edge)))
  }

  /** The context a traversal gives rise to. */
  function ContextOf(words: Words, report: Report, root: string, graph: T.Graph, evidence: seq<Evidence>,
                     t: seq<Visit>): Context {
    var requested := Requested(words, AliasTable(words, graph.nodes), report, evidence, |report.chain|);
    var blast := FromPairs(Scores(graph, t, root, report.rootCauseType.Some?));
    Context(Some(root), ChainOf(requested, Snapshots(report, evidence), t), Keys(blast), blast)
  }

  ghost predicate Built(words: Words, report: Report, incidentService: string, topology: Option<T.Graph>,
                        evidence: seq<Evidence>, c: Context) {
    if report.status.NoActionableRootCause? then c == Context(None, [], [], [])
    else if topology.None? then c == Context(report.suspectedRoot, report.chain, report.affected, report.blast)
    else
      match RootOf(words, AliasTable(words, topology.value.nodes), report, incidentService)
      case None => c == Context(None, [], [], [])
      case Some(root) =>
        if Snapshots(report, evidence) == [] then c == Context(Some(root), [], [], [])
        else exists t :: IsTraversal(QueryOf(words, report, root, topology.value, evidence), t)
                         && c == ContextOf(words, report, root, topology.value, evidence, t)
  }

  method Build(words: Words, report: Report, incidentService: string, topology: Option<T.Graph>, evidence: seq<Evidence>)
    returns (c: Context)
    ensures Built(words, report, incidentService, topology, evidence, c)
  {
    if report.status.NoActionableRootCause? { return Context(None, [], [], []); }
    if topology.None? { return Context(report.suspectedRoot, report.chain, report.affected, report.blast); }
    var graph := topology.value;
    var aliases := new Aliases(words, graph.nodes);
    var found := RootOf(words, aliases.aliases, report, incidentService);
    if found.None? { return Context(None, [], [], []); }
    var root := found.value;
    var snapshots := Snapshots(report, evidence);
    if snapshots == [] { return Context(Some(root), [], [], []); }
    var requested := RequestedEdges(words, aliases, report, evidence);
    var t := Traverse(Query(graph, root, Observed(words, aliases.searchable, evidence), requested.Keys));
    var affected, blast := Impact(graph, t, root, report.rootCauseType.Some?);
    c := Context(Some(root), ChainOf(requested, snapshots, t), affected, blast);
    assert c == ContextOf(words, report, root, graph, evidence, t);
  }

  // ---------------------------------------------------------------- what holds of every context built

  ghost predicate EvidenceDistinct(evidence: seq<Evidence>) {
    forall i, j :: 0 <= i < j < |evidence| ==> evidence[i].id != evidence[j].id
  }

  lemma SnapshotsDistinct(report: Report, evidence: seq<Evidence>)
    requires EvidenceDistinct(evidence)
    ensures NoDuplicates(Snapshots(report, evidence))
    ensures forall i :: 0 <= i < |Snapshots(report, evidence)| ==>
              exists j :: 0 <= j < |evidence| && evidence[j].id == Snapshots(report, evidence)[i]
  {
    if evidence != [] {
      SnapshotsDistinct(report, evidence[1..]);
      var r, rest := Snapshots(report, evidence), Snapshots(report, evidence[1..]);
      forall i | 0 <= i < |r| ensures exists j :: 0 <= j < |evidence| && evidence[j].id == r[i] {
        if r[i] in rest {
          var m :| 0 <= m < |rest| && rest[m] == r[i];
          var j :| 0 <= j < |evidence[1..]| && evidence[1..][j].id == rest[m];
          assert evidence[j + 1].id == r[i];
        } else {
          assert evidence[0].id == r[i];
        }
      }
    }
  }

  /**
   Every edge of a chain cites evidence of the report, at least one item; none twice, if neither the
   report's own chain nor the evidence repeats an identifier.
   */
  lemma ChainGrounded(words: Words, report: Report, root: string, graph: T.Graph, evidence: seq<Evidence>,
                      t: seq<Visit>, k: nat)
    requires Snapshots(report, evidence) != [] && k < |t|
    ensures var cited := ContextOf(words, report, root, graph, evidence, t).chain[k].2;
            && CitesReport(report, cited)
            && (ChainCitesOnce(report) && EvidenceDistinct(evidence) ==> NoDuplicates(cited))
  {
    RequestedGrounded(words, AliasTable(words, graph.nodes), report, evidence, |report.chain|);
    if EvidenceDistinct(evidence) { SnapshotsDistinct(report, evidence); }
  }

  /** The builder's answer depends on nothing but its inputs, and not on how the topology lists its edges. */
  lemma BuildIsDeterministic(words: Words, report: Report, incidentService: string, graph: T.Graph, other: T.Graph,
                             evidence: seq<Evidence>, c: Context, d: Context)
    requires graph.Valid() && other.nodes == graph.nodes && other.maxDepth == graph.maxDepth
    requires multiset(graph.edges) == multiset(other.edges)
    requires Built(words, report, incidentService, Some(graph), evidence, c)
    requires Built(words, report, incidentService, Some(other), evidence, d)
    ensures c == d
  {
    var found := RootOf(words, AliasTable(words, graph.nodes), report, incidentService);
    if !report.status.NoActionableRootCause? && found.Some? && Snapshots(report, evidence) != [] {
      var q := QueryOf(words, report, found.value, graph, evidence);
      var r := QueryOf(words, report, found.value, other, evidence);
      var t :| IsTraversal(q, t) && c == ContextOf(words, report, found.value, graph, evidence, t);
      var u :| IsTraversal(r, u) && d == ContextOf(words, report, found.value, other, evidence, u);
      ListingDoesNotMatter(q, r, t, u);
      SameScores(graph, other, t);
    }
  }

  lemma {:induction false} SameScores(graph: T.Graph, other: T.Graph, t: seq<Visit>)
    requires graph.nodes == other.nodes
    ensures VisitScores(graph, t) == VisitScores(other, t)
  {
    if t != [] {
      SameScores(graph, other, t[..|t| - 1]);
    }
  }
}
