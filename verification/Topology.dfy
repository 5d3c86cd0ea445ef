/** The service topology: nodes, dependency edges and the edges leaving a node. */
module Topology {
  import opened Sorting
  import opened OrderedDict
  import opened Text

  datatype Provenance = Static | Trace | Cmdb

  datatype Node =
    | Service(id: string, name: string, confidence: real)
    | Resource(id: string, name: string, confidence: real)

  datatype Edge = Edge(source: string, target: string, relation: string,
                       provenance: Provenance, confidence: real)

  predicate IsConfidence(c: real) { 0.0 <= c <= 1.0 }

  /** Comparison by the key (source, target, relation). */
  predicate KeyLe(a: Edge, b: Edge) {
    if a.source != b.source then StringLe(a.source, b.source)
    else if a.target != b.target then StringLe(a.target, b.target)
    else StringLe(a.relation, b.relation)
  }

  predicate SameKey(a: Edge, b: Edge) {
    a.source == b.source && a.target == b.target && a.relation == b.relation
  }

  function From(edges: seq<Edge>, node: string): seq<Edge> {
    if edges == [] then []
    else (if edges[0].source == node then [edges[0]] else []) + From(edges[1..], node)
  }

  function Ids(nodes: seq<Node>): (ids: seq<string>)
    ensures |ids| == |nodes| && forall i :: 0 <= i < |nodes| ==> ids[i] == nodes[i].id
  {
    seq(|nodes|, i requires 0 <= i < |nodes| => nodes[i].id)
  }

  datatype Graph = Graph(nodes: seq<Node>, edges: seq<Edge>, maxDepth: nat) {

    /** What the graph's own construction checks. */
    ghost predicate Valid() {
      && 1 <= maxDepth <= 32
      && NoDuplicates(Ids(nodes))
      && (forall n :: n in nodes ==> IsConfidence(n.confidence) && IsLine(n.id, 128) && IsLine(n.name, 256))
      && (forall e :: e in edges ==>
            e.source in Ids(nodes) && e.target in Ids(nodes) && e.source != e.target
            && IsConfidence(e.confidence))
      && (forall i, j :: 0 <= i < j < |edges| ==> !SameKey(edges[i], edges[j]))
    }

    function Outgoing(node: string): seq<Edge> {
      Sort(KeyLe, From(edges, node))
    }
  }

  lemma KeyLeTransitive(a: Edge, b: Edge, c: Edge)
    requires KeyLe(a, b) && KeyLe(b, c)
    ensures KeyLe(a, c)
  {
    if a.source != b.source && b.source != c.source {
      StringLeTransitive(a.source, b.source, c.source);
      if a.source == c.source { StringLeAntisymmetric(a.source, b.source); }
    } else if a.source == b.source == c.source {
      if a.target != b.target && b.target != c.target {
        StringLeTransitive(a.target, b.target, c.target);
        if a.target == c.target { StringLeAntisymmetric(a.target, b.target); }
      } else if a.target == b.target == c.target {
        StringLeTransitive(a.relation, b.relation, c.relation);
      }
    }
  }

  lemma KeyLePreorder()
    ensures IsPreorder(KeyLe)
  {
    forall a, b ensures KeyLe(a, b) || KeyLe(b, a) {
      StringLeTotal(a.source, b.source);
      StringLeTotal(a.target, b.target);
      StringLeTotal(a.relation, b.relation);
    }
    forall a, b, c | KeyLe(a, b) && KeyLe(b, c) ensures KeyLe(a, c) {
      KeyLeTransitive(a, b, c);
    }
  }

  lemma KeyLeBothWays(a: Edge, b: Edge)
    requires KeyLe(a, b) && KeyLe(b, a)
    ensures SameKey(a, b)
  {
    if a.source != b.source { StringLeAntisymmetric(a.source, b.source); }
    if a.target != b.target { StringLeAntisymmetric(a.target, b.target); }
    StringLeAntisymmetric(a.relation, b.relation);
  }

  lemma {:induction false} FromCounts(edges: seq<Edge>, node: string, e: Edge)
    ensures multiset(From(edges, node))[e] == if e.source == node then multiset(edges)[e] else 0
  {
    if edges != [] {
      FromCounts(edges[1..], node, e);
      assert edges == [edges[0]] + edges[1..];
    }
  }

  /** The outgoing edges are exactly the graph's edges with that source. */
  lemma OutgoingMembers(g: Graph, node: string, e: Edge)
    ensures e in g.Outgoing(node) <==> e in g.edges && e.source == node
  {
    SortKeeps(KeyLe, From(g.edges, node));
    FromCounts(g.edges, node, e);
    assert e in g.Outgoing(node) <==> e in multiset(g.Outgoing(node));
    assert e in g.edges <==> e in multiset(g.edges);
  }

  /** Two edges of a graph with the same key are the same edge. */
  lemma KeysSeparate(g: Graph)
    requires g.Valid()
    ensures forall x, y :: x in g.edges && y in g.edges && SameKey(x, y) ==> x == y
  {
    hide IsLine;
    forall x, y | x in g.edges && y in g.edges && SameKey(x, y) ensures x == y {
      var i :| 0 <= i < |g.edges| && g.edges[i] == x;
      var j :| 0 <= j < |g.edges| && g.edges[j] == y;
    }
  }

  lemma FromSeparates(g: Graph, node: string)
    requires g.Valid()
    ensures Separates(KeyLe, multiset(From(g.edges, node)))
  {
    var m := multiset(From(g.edges, node));
    KeysSeparate(g);
    hide g.Valid;
    hide KeyLe;
    forall x, y | x in m && y in m && KeyLe(x, y) && KeyLe(y, x) ensures x == y {
      FromCounts(g.edges, node, x);
      FromCounts(g.edges, node, y);
      KeyLeBothWays(x, y);
      assert x in g.edges && y in g.edges;
    }
  }

  /** The order in which a valid graph lists its edges does not show in `Outgoing`. */
  lemma OutgoingIgnoresEdgeOrder(g: Graph, h: Graph, node: string)
    requires g.Valid() && multiset(g.edges) == multiset(h.edges)
    ensures g.Outgoing(node) == h.Outgoing(node)
  {
    var a, b := From(g.edges, node), From(h.edges, node);
    forall e ensures multiset(a)[e] == multiset(b)[e] {
      FromCounts(g.edges, node, e);
      FromCounts(h.edges, node, e);
    }
    assert multiset(a) == multiset(b);
    KeyLePreorder();
    FromSeparates(g, node);
    SortIgnoresOrder(KeyLe, a, b);
  }
}
