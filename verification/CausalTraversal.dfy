/**
 The depth-bounded walk that turns a topology into a causal chain.

 A *slot* is a place where the walk looks for an edge: the parent-th found node (the root is
 number 0, the target of visit k is number k + 1) and a position among the edges leaving it.
 `Scan` says what one visit is, without mentioning a queue or a visited set: it is the first
 slot, in scanning order, that leads to a node not found yet. Everything else about the walk is
 proved from `Scan` and `Complete`.
 */
module CausalTraversal {
  import opened FiniteSets
  import opened Sorting
  import opened OrderedDict
  import opened Topology

  datatype Query = Query(graph: Graph, root: string, observed: set<string>,
                         requested: set<(string, string)>) {

    function Out(node: string): seq<Edge> { graph.Outgoing(node) }

    /** Requested, observed, traced, or the only way out of its source. */
    predicate Admits(e: Edge) {
      || (e.source, e.target) in requested
      || e.target in observed
      || e.provenance.Trace?
      || |Out(e.source)| == 1
    }
  }

  datatype Visit = Visit(edge: Edge, depth: nat, confidence: real)

  datatype Slot = Slot(parent: nat, position: nat)

  predicate Before(a: Slot, b: Slot) {
    a.parent < b.parent || (a.parent == b.parent && a.position < b.position)
  }

  function NodeAt(q: Query, t: seq<Visit>, i: nat): string
    requires i <= |t|
  {
    if i == 0 then q.root else t[i - 1].edge.target
  }

  function DepthAt(t: seq<Visit>, i: nat): nat
    requires i <= |t|
  {
    if i == 0 then 0 else t[i - 1].depth
  }

  /** The confidence of a path that is longer by one edge. */
  function Scaled(path: real, edge: real): real { path * edge }

  function TrustAt(t: seq<Visit>, i: nat): real
    requires i <= |t|
  {
    if i == 0 then 1.0 else t[i - 1].confidence
  }

  /** `v` is one of the first k + 1 found nodes. */
  ghost predicate Seen(q: Query, t: seq<Visit>, k: nat, v: string)
    requires k <= |t|
  {
    exists i: nat :: i <= k && NodeAt(q, t, i) == v
  }

  predicate InRange(q: Query, t: seq<Visit>, s: Slot) {
    s.parent <= |t| && s.position < |q.Out(NodeAt(q, t, s.parent))|
  }

  function EdgeAt(q: Query, t: seq<Visit>, s: Slot): Edge
    requires InRange(q, t, s)
  {
    q.Out(NodeAt(q, t, s.parent))[s.position]
  }

  /** The walk may follow the edge in this slot. */
  predicate Opens(q: Query, t: seq<Visit>, s: Slot) {
    InRange(q, t, s) && DepthAt(t, s.parent) < q.graph.maxDepth && q.Admits(EdgeAt(q, t, s))
  }

  ghost predicate Swept(q: Query, t: seq<Visit>, k: nat, limit: Slot)
    requires k <= |t|
  {
    forall s: Slot :: Opens(q, t, s) && s.parent <= k && Before(s, limit) ==> Seen(q, t, k, EdgeAt(q, t, s).target)
  }

  /** Visit k is the first open slot leading to a node that is not among the first k + 1. */
  ghost predicate Placed(q: Query, t: seq<Visit>, k: nat, s: Slot)
    requires k < |t|
  {
    && Opens(q, t, s)
    && s.parent <= k
    && t[k].edge == EdgeAt(q, t, s)
    && t[k].depth == DepthAt(t, s.parent) + 1
    && t[k].confidence == Scaled(TrustAt(t, s.parent), t[k].edge.confidence)
    && !Seen(q, t, k, t[k].edge.target)
    && Swept(q, t, k, s)
  }

  ghost predicate Scan(q: Query, t: seq<Visit>, slots: seq<Slot>) {
    |slots| == |t| && forall k: nat :: k < |t| ==> Placed(q, t, k, slots[k])
  }

  /** No open slot leads to a node that was not found. */
  ghost predicate Complete(q: Query, t: seq<Visit>) {
    forall s :: Opens(q, t, s) ==> Seen(q, t, |t|, EdgeAt(q, t, s).target)
  }

  ghost predicate IsTraversal(q: Query, t: seq<Visit>) {
    Complete(q, t) && exists slots :: Scan(q, t, slots)
  }

  // ---------------------------------------------------------------- the walk

  lemma SeenInPrefix(q: Query, t: seq<Visit>, v: Visit, k: nat, w: string)
    requires k <= |t|
    ensures Seen(q, t + [v], k, w) <==> Seen(q, t, k, w)
  {
    assert forall i: nat :: i <= k ==> NodeAt(q, t + [v], i) == NodeAt(q, t, i);
  }

  lemma SeenNext(q: Query, t: seq<Visit>, v: Visit, w: string)
    ensures Seen(q, t + [v], |t| + 1, w) <==> Seen(q, t, |t|, w) || w == v.edge.target
  {
    SeenInPrefix(q, t, v, |t|, w);
    assert NodeAt(q, t + [v], |t| + 1) == v.edge.target;
    if Seen(q, t + [v], |t|, w) {
      var i: nat :| i <= |t| && NodeAt(q, t + [v], i) == w;
      assert i <= |t| + 1;
    }
  }

  lemma OpensInPrefix(q: Query, t: seq<Visit>, v: Visit, s: Slot)
    requires s.parent <= |t|
    ensures InRange(q, t + [v], s) <==> InRange(q, t, s)
    ensures InRange(q, t, s) ==> EdgeAt(q, t + [v], s) == EdgeAt(q, t, s)
    ensures Opens(q, t + [v], s) <==> Opens(q, t, s)
  {
    assert NodeAt(q, t + [v], s.parent) == NodeAt(q, t, s.parent);
  }

  lemma SweptInPrefix(q: Query, t: seq<Visit>, v: Visit, k: nat, limit: Slot)
    requires k <= |t|
    ensures Swept(q, t + [v], k, limit) <==> Swept(q, t, k, limit)
  {
    forall s: Slot | s.parent <= k
      ensures Opens(q, t + [v], s) <==> Opens(q, t, s)
      ensures Opens(q, t, s) ==> (Seen(q, t + [v], k, EdgeAt(q, t + [v], s).target) <==> Seen(q, t, k, EdgeAt(q, t, s).target))
    {
      OpensInPrefix(q, t, v, s);
      if Opens(q, t, s) { SeenInPrefix(q, t, v, k, EdgeAt(q, t, s).target); }
    }
  }

  lemma PlacedInPrefix(q: Query, t: seq<Visit>, v: Visit, k: nat, s: Slot)
    requires k < |t| && Placed(q, t, k, s)
    ensures Placed(q, t + [v], k, s)
  {
    OpensInPrefix(q, t, v, s);
    SeenInPrefix(q, t, v, k, t[k].edge.target);
    SweptInPrefix(q, t, v, k, s);
  }

  function VisitOf(q: Query, t: seq<Visit>, s: Slot): Visit
    requires InRange(q, t, s)
  {
    var e := EdgeAt(q, t, s);
    Visit(e, DepthAt(t, s.parent) + 1, Scaled(TrustAt(t, s.parent), e.confidence))
  }

  lemma PlacedLast(q: Query, t: seq<Visit>, s: Slot)
    requires Opens(q, t, s) && Swept(q, t, |t|, s) && !Seen(q, t, |t|, EdgeAt(q, t, s).target)
    ensures Placed(q, t + [VisitOf(q, t, s)], |t|, s)
  {
    var v := VisitOf(q, t, s);
    OpensInPrefix(q, t, v, s);
    SeenInPrefix(q, t, v, |t|, v.edge.target);
    SweptInPrefix(q, t, v, |t|, s);
    assert DepthAt(t + [v], s.parent) == DepthAt(t, s.parent);
    assert TrustAt(t + [v], s.parent) == TrustAt(t, s.parent);
  }

  lemma ScanExtends(q: Query, t: seq<Visit>, slots: seq<Slot>, s: Slot)
    requires Scan(q, t, slots) && Opens(q, t, s) && Swept(q, t, |t|, s)
    requires !Seen(q, t, |t|, EdgeAt(q, t, s).target)
    ensures Scan(q, t + [VisitOf(q, t, s)], slots + [s])
  {
    var v := VisitOf(q, t, s);
    PlacedLast(q, t, s);
    forall k: nat | k < |t| ensures Placed(q, t + [v], k, (slots + [s])[k]) {
      PlacedInPrefix(q, t, v, k, slots[k]);
    }
  }

  /** Having scanned the edge in slot `s`, the next slot to scan is the one after it. */
  lemma SweptNext(q: Query, t: seq<Visit>, s: Slot)
    requires s.parent <= |t| && Swept(q, t, |t|, s)
    requires Opens(q, t, s) ==> Seen(q, t, |t|, EdgeAt(q, t, s).target)
    ensures Swept(q, t, |t|, Slot(s.parent, s.position + 1))
  {
    forall r: Slot | Opens(q, t, r) && Before(r, Slot(s.parent, s.position + 1))
      ensures Seen(q, t, |t|, EdgeAt(q, t, r).target)
    {
      assert r == s || Before(r, s);
    }
  }

  lemma SweptGrows(q: Query, t: seq<Visit>, v: Visit, s: Slot)
    requires s.parent <= |t| && Swept(q, t, |t|, s)
    ensures Swept(q, t + [v], |t| + 1, s)
  {
    forall r: Slot | Opens(q, t + [v], r) && Before(r, s)
      ensures Seen(q, t + [v], |t| + 1, EdgeAt(q, t + [v], r).target)
    {
      OpensInPrefix(q, t, v, r);
      SeenNext(q, t, v, EdgeAt(q, t, r).target);
    }
  }

  /** A node's edges have all been scanned, or lie below the depth bound. */
  lemma SweptNode(q: Query, t: seq<Visit>, parent: nat, position: nat)
    requires parent <= |t| && Swept(q, t, |t|, Slot(parent, position))
    requires position == |q.Out(NodeAt(q, t, parent))| || DepthAt(t, parent) >= q.graph.maxDepth
    ensures Swept(q, t, |t|, Slot(parent + 1, 0))
  {
    forall r: Slot | Opens(q, t, r) && Before(r, Slot(parent + 1, 0))
      ensures Seen(q, t, |t|, EdgeAt(q, t, r).target)
    {
      assert Before(r, Slot(parent, position));
    }
  }

  /** The pending part of the walk: found nodes whose edges are still to be scanned. */
  ghost predicate Pending(q: Query, t: seq<Visit>, head: nat, queue: seq<(string, nat, real)>) {
    && head <= |t| + 1
    && |queue| == |t| + 1 - head
    && forall i: nat :: head <= i <= |t| ==> queue[i - head] == (NodeAt(q, t, i), DepthAt(t, i), TrustAt(t, i))
  }

  ghost predicate Marks(q: Query, t: seq<Visit>, visited: set<string>) {
    && (forall v :: v in visited <==> Seen(q, t, |t|, v))
    && |visited| == |t| + 1
    && visited <= NodeSet(q)
  }

  function NodeSet(q: Query): set<string> {
    (set e | e in q.graph.edges :: e.target) + {q.root}
  }

  lemma MarksNext(q: Query, t: seq<Visit>, visited: set<string>, v: Visit)
    requires Marks(q, t, visited) && v.edge.target !in visited && v.edge in q.graph.edges
    ensures Marks(q, t + [v], visited + {v.edge.target})
  {
    forall w ensures w in visited + {v.edge.target} <==> Seen(q, t + [v], |t| + 1, w) {
      SeenNext(q, t, v, w);
    }
  }

  /** What the walk knows between two steps. */
  ghost predicate Walking(q: Query, t: seq<Visit>, slots: seq<Slot>, head: nat,
                          queue: seq<(string, nat, real)>, visited: set<string>) {
    Scan(q, t, slots) && Pending(q, t, head, queue) && Marks(q, t, visited)
  }

  /** Following the edge in the next open slot to a node not found yet. */
  lemma Discover(q: Query, t: seq<Visit>, slots: seq<Slot>, head: nat,
                 queue: seq<(string, nat, real)>, visited: set<string>, s: Slot)
    requires Walking(q, t, slots, head, queue, visited)
    requires Opens(q, t, s) && Swept(q, t, |t|, s) && EdgeAt(q, t, s).target !in visited
    ensures var v := VisitOf(q, t, s);
            && Walking(q, t + [v], slots + [s], head, queue + [(v.edge.target, v.depth, v.confidence)],
                       visited + {v.edge.target})
            && Swept(q, t + [v], |t| + 1, Slot(s.parent, s.position + 1))
  {
    var v := VisitOf(q, t, s);
    OutgoingMembers(q.graph, NodeAt(q, t, s.parent), v.edge);
    ScanExtends(q, t, slots, s);
    MarksNext(q, t, visited, v);
    SweptGrows(q, t, v, s);
    SeenNext(q, t, v, v.edge.target);
    OpensInPrefix(q, t, v, s);
    SweptNext(q, t + [v], s);
    var next := queue + [(v.edge.target, v.depth, v.confidence)];
    forall i: nat | head <= i <= |t| + 1
      ensures next[i - head] == (NodeAt(q, t + [v], i), DepthAt(t + [v], i), TrustAt(t + [v], i))
    {
      if i <= |t| { assert queue[i - head] == (NodeAt(q, t, i), DepthAt(t, i), TrustAt(t, i)); }
    }
  }

  lemma WalkStarts(q: Query)
    ensures Walking(q, [], [], 0, [(q.root, 0, 1.0)], {q.root})
    ensures Swept(q, [], 0, Slot(0, 0))
  {
    assert NodeAt(q, [], 0) == q.root;
  }

  lemma WalkEnds(q: Query, t: seq<Visit>, slots: seq<Slot>, head: nat,
                 queue: seq<(string, nat, real)>, visited: set<string>)
    requires Walking(q, t, slots, head, queue, visited) && queue == []
    requires Swept(q, t, |t|, Slot(head, 0))
    ensures IsTraversal(q, t)
  {
    forall s | Opens(q, t, s) ensures Seen(q, t, |t|, EdgeAt(q, t, s).target) {
      assert Before(s, Slot(head, 0));
    }
  }

  /** Taking the next found node off the queue. */
  lemma TakeFront(q: Query, t: seq<Visit>, slots: seq<Slot>, head: nat,
                  queue: seq<(string, nat, real)>, visited: set<string>)
    requires Walking(q, t, slots, head, queue, visited) && queue != []
    ensures head <= |t| && queue[0] == (NodeAt(q, t, head), DepthAt(t, head), TrustAt(t, head))
    ensures Walking(q, t, slots, head + 1, queue[1..], visited)
    ensures head < |NodeSet(q)|
  {
    SubsetSize(visited, NodeSet(q));
  }

  /** An edge that leads nowhere new, or that the walk may not follow, is passed over. */
  lemma PassOver(q: Query, t: seq<Visit>, slots: seq<Slot>, head: nat,
                 queue: seq<(string, nat, real)>, visited: set<string>, s: Slot)
    requires Walking(q, t, slots, head, queue, visited) && InRange(q, t, s) && Swept(q, t, |t|, s)
    requires EdgeAt(q, t, s).target in visited || !q.Admits(EdgeAt(q, t, s))
    ensures Swept(q, t, |t|, Slot(s.parent, s.position + 1))
  {
    SweptNext(q, t, s);
  }

  /** The walk over any topology, cyclic or not: it ends, and its result is a traversal. */
  method Traverse(q: Query) returns (traversed: seq<Visit>)
    ensures IsTraversal(q, traversed)
  {
    hide Swept;
    hide Walking;
    hide NodeSet;
    var queue: seq<(string, nat, real)> := [(q.root, 0, 1.0)];
    var visited := {q.root};
    traversed := [];
    ghost var slots: seq<Slot> := [];
    ghost var head: nat := 0;
    WalkStarts(q);
    while queue != []
      invariant Walking(q, traversed, slots, head, queue, visited)
      invariant Swept(q, traversed, |traversed|, Slot(head, 0))
      decreases |NodeSet(q)| - head
    {
      TakeFront(q, traversed, slots, head, queue, visited);
      var (current, depth, pathConfidence) := queue[0];
      queue := queue[1..];
      head := head + 1;
      if depth >= q.graph.maxDepth {
        SweptNode(q, traversed, head - 1, 0);
        continue;
      }
      var outgoing := q.Out(current);
      for j := 0 to |outgoing|
        invariant Walking(q, traversed, slots, head, queue, visited)
        invariant Swept(q, traversed, |traversed|, Slot(head - 1, j))
        invariant head - 1 <= |traversed| && NodeAt(q, traversed, head - 1) == current
        invariant DepthAt(traversed, head - 1) == depth && TrustAt(traversed, head - 1) == pathConfidence
      {
        var edge := outgoing[j];
        ghost var slot := Slot(head - 1, j);
        assert EdgeAt(q, traversed, slot) == edge;
        if edge.target in visited || !q.Admits(edge) {
          PassOver(q, traversed, slots, head, queue, visited, slot);
          continue;
        }
        Discover(q, traversed, slots, head, queue, visited, slot);
        var confidence := Scaled(pathConfidence, edge.confidence);
        assert VisitOf(q, traversed, slot) == Visit(edge, depth + 1, confidence);
        visited := visited + {edge.target};
        traversed := traversed + [Visit(edge, depth + 1, confidence)];
        queue := queue + [(edge.target, depth + 1, confidence)];
        slots := slots + [slot];
      }
      SweptNode(q, traversed, head - 1, |outgoing|);
    }
    WalkEnds(q, traversed, slots, head, queue, visited);
  }
}
