/** What every traversal is: a shortest-path tree, and the only one the topology allows. */
module CausalTree {
  import opened Sorting
  import opened OrderedDict
  import opened Topology
  import opened CausalTraversal

  // ---------------------------------------------------------------- order of visits

  lemma SeenLater(q: Query, t: seq<Visit>, k: nat, v: string)
    requires k + 1 <= |t|
    ensures Seen(q, t, k, v) ==> Seen(q, t, k + 1, v)
  {
    if Seen(q, t, k, v) {
      var i: nat :| i <= k && NodeAt(q, t, i) == v;
      assert i <= k + 1;
    }
  }

  lemma SlotsIncrease(q: Query, t: seq<Visit>, slots: seq<Slot>, k: nat)
    requires Scan(q, t, slots) && k + 1 < |t|
    ensures Before(slots[k], slots[k + 1])
  {
    assert Placed(q, t, k, slots[k]) && Placed(q, t, k + 1, slots[k + 1]);
    SeenLater(q, t, k, t[k + 1].edge.target);
    assert NodeAt(q, t, k + 1) == t[k].edge.target;
  }

  /** Where visit k came from. */
  lemma VisitFacts(q: Query, t: seq<Visit>, slots: seq<Slot>, k: nat)
    requires Scan(q, t, slots) && k < |t|
    ensures |slots| == |t|
    ensures var parent := slots[k].parent;
            && parent <= k
            && t[k].edge in q.graph.edges && q.Admits(t[k].edge)
            && t[k].edge.source == NodeAt(q, t, parent)
            && t[k].depth == DepthAt(t, parent) + 1 <= q.graph.maxDepth
            && t[k].confidence == Scaled(TrustAt(t, parent), t[k].edge.confidence)
  {
    var s := slots[k];
    assert Placed(q, t, k, s);
    OutgoingMembers(q.graph, NodeAt(q, t, s.parent), t[k].edge);
  }

  lemma {:induction false} ParentsIncrease(q: Query, t: seq<Visit>, slots: seq<Slot>, k: nat, l: nat)
    requires Scan(q, t, slots) && k <= l < |t|
    ensures slots[k].parent <= slots[l].parent
  {
    if k < l {
      ParentsIncrease(q, t, slots, k, l - 1);
      SlotsIncrease(q, t, slots, l - 1);
    }
  }

  /** Nodes are found in the order of their depth. */
  lemma {:induction false} DepthsIncrease(q: Query, t: seq<Visit>, slots: seq<Slot>, i: nat, l: nat)
    requires Scan(q, t, slots) && i <= l <= |t|
    ensures DepthAt(t, i) <= DepthAt(t, l)
    decreases l
  {
    if 0 < i < l {
      ParentsIncrease(q, t, slots, i - 1, l - 1);
      assert Placed(q, t, i - 1, slots[i - 1]) && Placed(q, t, l - 1, slots[l - 1]);
      DepthsIncrease(q, t, slots, slots[i - 1].parent, slots[l - 1].parent);
    }
  }

  lemma TargetsDistinct(q: Query, t: seq<Visit>, slots: seq<Slot>, i: nat, j: nat)
    requires Scan(q, t, slots) && i < j <= |t|
    ensures NodeAt(q, t, i) != NodeAt(q, t, j)
  {
    assert Placed(q, t, j - 1, slots[j - 1]);
  }

  // ---------------------------------------------------------------- paths

  /** A chain of edges the walk may follow. */
  ghost predicate IsPath(q: Query, p: seq<Edge>, from: string, to: string) {
    if p == [] then from == to
    else
      var e := p[|p| - 1];
      e in q.graph.edges && q.Admits(e) && e.target == to && IsPath(q, p[..|p| - 1], from, e.source)
  }

  function Weight(p: seq<Edge>): real {
    if p == [] then 1.0 else Scaled(Weight(p[..|p| - 1]), p[|p| - 1].confidence)
  }

  /** The visits that lead from the root to found node i. */
  ghost function TreePath(q: Query, t: seq<Visit>, slots: seq<Slot>, i: nat): seq<Edge>
    requires Scan(q, t, slots) && i <= |t|
  {
    if i == 0 then []
    else
      VisitFacts(q, t, slots, i - 1);
      TreePath(q, t, slots, slots[i - 1].parent) + [t[i - 1].edge]
  }

  lemma PathExtends(q: Query, p: seq<Edge>, from: string, e: Edge)
    requires IsPath(q, p, from, e.source) && e in q.graph.edges && q.Admits(e)
    ensures IsPath(q, p + [e], from, e.target) && Weight(p + [e]) == Scaled(Weight(p), e.confidence)
  {
    hide Scaled;
    assert (p + [e])[..|p|] == p;
  }

  /** The tree path is admissible, as long as the recorded depth, and carries the recorded confidence. */
  lemma {:induction false} TreePathLeads(q: Query, t: seq<Visit>, slots: seq<Slot>, i: nat)
    requires Scan(q, t, slots) && i <= |t|
    ensures IsPath(q, TreePath(q, t, slots, i), q.root, NodeAt(q, t, i))
    ensures |TreePath(q, t, slots, i)| == DepthAt(t, i) <= q.graph.maxDepth
    ensures Weight(TreePath(q, t, slots, i)) == TrustAt(t, i)
  {
    hide Scan;
    hide Scaled;
    if i > 0 {
      VisitFacts(q, t, slots, i - 1);
      var parent := slots[i - 1].parent;
      TreePathLeads(q, t, slots, parent);
      PathExtends(q, TreePath(q, t, slots, parent), q.root, t[i - 1].edge);
    }
  }

  lemma SameNodeSamePlace(q: Query, t: seq<Visit>, slots: seq<Slot>, i: nat, j: nat)
    requires Scan(q, t, slots) && i <= |t| && j <= |t| && NodeAt(q, t, i) == NodeAt(q, t, j)
    ensures i == j
  {
    if 0 < j { assert Placed(q, t, j - 1, slots[j - 1]); }
    if 0 < i { assert Placed(q, t, i - 1, slots[i - 1]); }
  }

  ghost predicate Visited(t: seq<Visit>, e: Edge) {
    exists k: nat :: k < |t| && t[k].edge == e
  }

  /** A chain of visited edges from the root to found node i is the tree path: there is one way only. */
  lemma {:induction false} TreePathUnique(q: Query, t: seq<Visit>, slots: seq<Slot>, p: seq<Edge>, i: nat)
    requires Scan(q, t, slots) && i <= |t| && IsPath(q, p, q.root, NodeAt(q, t, i))
    requires forall j :: 0 <= j < |p| ==> Visited(t, p[j])
    ensures p == TreePath(q, t, slots, i)
    decreases |p|
  {
    hide Scan;
    if p == [] {
      SameNodeSamePlace(q, t, slots, 0, i);
    } else {
      var e := p[|p| - 1];
      assert Visited(t, e);
      var k: nat :| k < |t| && t[k].edge == e;
      SameNodeSamePlace(q, t, slots, k + 1, i);
      VisitFacts(q, t, slots, k);
      TreePathUnique(q, t, slots, p[..|p| - 1], slots[k].parent);
      assert p == p[..|p| - 1] + [e];
    }
  }

  lemma PositionOf<T>(s: seq<T>, x: T) returns (j: nat)
    requires x in s
    ensures j < |s| && s[j] == x
  {
    j :| j < |s| && s[j] == x;
  }

  /** If node h opens onto node i, then i was reached from h or from a node found earlier. */
  lemma ParentNotLater(q: Query, t: seq<Visit>, slots: seq<Slot>, s: Slot, i: nat)
    requires Scan(q, t, slots) && Opens(q, t, s) && 0 < i <= |t| && NodeAt(q, t, i) == EdgeAt(q, t, s).target
    ensures slots[i - 1].parent <= s.parent
  {
    assert Placed(q, t, i - 1, slots[i - 1]);
  }

  /** The end of every short enough admissible path is found, at no greater depth. */
  lemma {:induction false} PathIsCovered(q: Query, t: seq<Visit>, slots: seq<Slot>, p: seq<Edge>, v: string)
    returns (i: nat)
    requires Scan(q, t, slots) && Complete(q, t)
    requires IsPath(q, p, q.root, v) && |p| <= q.graph.maxDepth
    ensures i <= |t| && NodeAt(q, t, i) == v && DepthAt(t, i) <= |p|
    decreases |p|
  {
    if p == [] {
      i := 0;
    } else {
      var e := p[|p| - 1];
      var h := PathIsCovered(q, t, slots, p[..|p| - 1], e.source);
      OutgoingMembers(q.graph, e.source, e);
      var j := PositionOf(q.Out(e.source), e);
      var s := Slot(h, j);
      assert Opens(q, t, s) && EdgeAt(q, t, s) == e;
      i :| i <= |t| && NodeAt(q, t, i) == v;
      if i > 0 {
        ParentNotLater(q, t, slots, s, i);
        assert Placed(q, t, i - 1, slots[i - 1]);
        DepthsIncrease(q, t, slots, slots[i - 1].parent, h);
      }
    }
  }

  ghost predicate Reaches(q: Query, v: string, n: int) {
    exists p :: IsPath(q, p, q.root, v) && |p| <= n
  }

  ghost predicate Covers(t: seq<Visit>, v: string) {
    exists k: nat :: k < |t| && t[k].edge.target == v
  }

  lemma CoveredIsReachable(q: Query, t: seq<Visit>, slots: seq<Slot>, k: nat)
    requires Scan(q, t, slots) && k < |t|
    ensures Reaches(q, t[k].edge.target, t[k].depth) && t[k].edge.target != q.root
    ensures 1 <= t[k].depth <= q.graph.maxDepth
  {
    hide Scan;
    hide IsPath;
    TreePathLeads(q, t, slots, k + 1);
    VisitFacts(q, t, slots, k);
    if t[k].edge.target == q.root { SameNodeSamePlace(q, t, slots, 0, k + 1); }
  }

  lemma ReachableIsCovered(q: Query, t: seq<Visit>, slots: seq<Slot>, v: string, n: int)
    requires Scan(q, t, slots) && Complete(q, t) && Reaches(q, v, n) && n <= q.graph.maxDepth && v != q.root
    ensures exists k: nat :: k < |t| && t[k].edge.target == v && t[k].depth <= n
  {
    hide Scan;
    hide IsPath;
    hide Complete;
    var p :| IsPath(q, p, q.root, v) && |p| <= n;
    var i := PathIsCovered(q, t, slots, p, v);
    assert t[i - 1].edge.target == v && t[i - 1].depth <= n;
  }

  /** A node is in the chain exactly when it is not the root and some admissible path within the bound leads to it. */
  lemma CoversExactlyTheReachable(q: Query, t: seq<Visit>, v: string)
    requires IsTraversal(q, t)
    ensures Covers(t, v) <==> v != q.root && Reaches(q, v, q.graph.maxDepth)
  {
    hide Scan;
    hide IsPath;
    hide Complete;
    var slots :| Scan(q, t, slots);
    if Covers(t, v) {
      var k: nat :| k < |t| && t[k].edge.target == v;
      CoveredIsReachable(q, t, slots, k);
      var p :| IsPath(q, p, q.root, v) && |p| <= t[k].depth;
      assert |p| <= q.graph.maxDepth;
    }
    if v != q.root && Reaches(q, v, q.graph.maxDepth) {
      ReachableIsCovered(q, t, slots, v, q.graph.maxDepth);
    }
  }

  /** The recorded depth is the length of a shortest admissible path. */
  lemma DepthsAreShortest(q: Query, t: seq<Visit>, k: nat)
    requires IsTraversal(q, t) && k < |t|
    ensures Reaches(q, t[k].edge.target, t[k].depth)
    ensures !Reaches(q, t[k].edge.target, t[k].depth - 1)
    ensures 1 <= t[k].depth <= q.graph.maxDepth
  {
    hide Scan;
    hide Reaches;
    hide Complete;
    var slots :| Scan(q, t, slots);
    CoveredIsReachable(q, t, slots, k);
    if Reaches(q, t[k].edge.target, t[k].depth - 1) {
      ReachableIsCovered(q, t, slots, t[k].edge.target, t[k].depth - 1);
      var j: nat :| j < |t| && t[j].edge.target == t[k].edge.target && t[j].depth <= t[k].depth - 1;
      SameNodeSamePlace(q, t, slots, j + 1, k + 1);
    }
  }

  /** Targets never repeat and are never the root; depths never decrease along the chain. */
  lemma ChainOrder(q: Query, t: seq<Visit>, k: nat, l: nat)
    requires IsTraversal(q, t) && k < l < |t|
    ensures t[k].edge.target != t[l].edge.target && t[k].edge.target != q.root
    ensures t[k].depth <= t[l].depth
  {
    var slots :| Scan(q, t, slots);
    TargetsDistinct(q, t, slots, k + 1, l + 1);
    TargetsDistinct(q, t, slots, 0, k + 1);
    DepthsIncrease(q, t, slots, k + 1, l + 1);
  }

  lemma ProductShrinks(x: real, y: real)
    requires 0.0 <= x <= 1.0 && 0.0 <= y <= 1.0
    ensures 0.0 <= x * y <= x
  {}

  lemma ScalingShrinks(x: real, y: real)
    requires 0.0 <= x <= 1.0 && IsConfidence(y)
    ensures 0.0 <= Scaled(x, y) <= x
  {
    ProductShrinks(x, y);
  }

  lemma EdgesAreConfident(q: Query, e: Edge)
    requires q.graph.Valid() && e in q.graph.edges
    ensures IsConfidence(e.confidence)
  {}

  /** The source of every edge is the root or an earlier target, and confidence only falls along it. */
  lemma {:induction false} ConfidenceFalls(q: Query, t: seq<Visit>, slots: seq<Slot>, k: nat)
    requires Scan(q, t, slots) && q.graph.Valid() && k < |t|
    ensures slots[k].parent <= k && t[k].edge.source == NodeAt(q, t, slots[k].parent)
    ensures 0.0 <= t[k].confidence <= TrustAt(t, slots[k].parent) <= 1.0
    decreases k
  {
    hide Scan;
    hide q.graph.Valid;
    hide IsConfidence;
    hide Scaled;
    VisitFacts(q, t, slots, k);
    var parent := slots[k].parent;
    if parent > 0 {
      ConfidenceFalls(q, t, slots, parent - 1);
    }
    EdgesAreConfident(q, t[k].edge);
    ScalingShrinks(TrustAt(t, parent), t[k].edge.confidence);
  }

  // ---------------------------------------------------------------- determinism

  ghost predicate Agree(t: seq<Visit>, u: seq<Visit>, k: nat) {
    k <= |t| && k <= |u| && t[..k] == u[..k]
  }

  lemma AgreeMeans(q: Query, t: seq<Visit>, u: seq<Visit>, k: nat, s: Slot, v: string)
    requires Agree(t, u, k) && s.parent <= k
    ensures Opens(q, t, s) ==> Opens(q, u, s) && EdgeAt(q, t, s) == EdgeAt(q, u, s)
    ensures Seen(q, t, k, v) ==> Seen(q, u, k, v)
    ensures DepthAt(t, s.parent) == DepthAt(u, s.parent) && TrustAt(t, s.parent) == TrustAt(u, s.parent)
  {
    forall i: nat | i <= k
      ensures NodeAt(q, t, i) == NodeAt(q, u, i) && DepthAt(t, i) == DepthAt(u, i) && TrustAt(t, i) == TrustAt(u, i)
    {
      if i > 0 { assert t[i - 1] == t[..k][i - 1] == u[..k][i - 1] == u[i - 1]; }
    }
  }

  /** After agreeing so far, neither walk can have its next visit before the other's. */
  lemma NotBefore(q: Query, t: seq<Visit>, u: seq<Visit>, k: nat, s: Slot, r: Slot)
    requires Agree(t, u, k) && k < |t| && Opens(q, t, s) && s.parent <= k
    requires !Seen(q, t, k, EdgeAt(q, t, s).target)
    requires Swept(q, u, k, r)
    ensures !Before(s, r)
  {
    if Before(s, r) {
      AgreeMeans(q, t, u, k, s, "");
      AgreeMeans(q, u, t, k, s, EdgeAt(q, u, s).target);
    }
  }

  lemma {:induction false} PrefixesAgree(q: Query, t: seq<Visit>, a: seq<Slot>, u: seq<Visit>, b: seq<Slot>, k: nat)
    requires Scan(q, t, a) && Scan(q, u, b) && k <= |t| && k <= |u|
    ensures Agree(t, u, k)
  {
    if k > 0 {
      PrefixesAgree(q, t, a, u, b, k - 1);
      assert Placed(q, t, k - 1, a[k - 1]) && Placed(q, u, k - 1, b[k - 1]);
      NotBefore(q, t, u, k - 1, a[k - 1], b[k - 1]);
      NotBefore(q, u, t, k - 1, b[k - 1], a[k - 1]);
      AgreeMeans(q, t, u, k - 1, a[k - 1], "");
      assert t[k - 1] == u[k - 1];
      assert t[..k] == t[..k - 1] + [t[k - 1]];
      assert u[..k] == u[..k - 1] + [u[k - 1]];
    }
  }

  lemma NotLonger(q: Query, t: seq<Visit>, a: seq<Slot>, u: seq<Visit>, b: seq<Slot>)
    requires Scan(q, t, a) && Scan(q, u, b) && Complete(q, t)
    ensures |u| <= |t|
  {
    var n := |t|;
    if n < |u| {
      PrefixesAgree(q, t, a, u, b, n);
      assert Placed(q, u, n, b[n]);
      AgreeMeans(q, u, t, n, b[n], "");
      AgreeMeans(q, t, u, n, b[n], EdgeAt(q, u, b[n]).target);
    }
  }

  /** The topology and the evidence leave the walk no choice. */
  lemma TraversalUnique(q: Query, t: seq<Visit>, u: seq<Visit>)
    requires IsTraversal(q, t) && IsTraversal(q, u)
    ensures t == u
  {
    var a :| Scan(q, t, a);
    var b :| Scan(q, u, b);
    NotLonger(q, t, a, u, b);
    NotLonger(q, u, b, t, a);
    PrefixesAgree(q, t, a, u, b, |t|);
    assert t == t[..|t|] && u == u[..|t|];
  }

  /** The same question about the same topology, with its edges listed in another order. */
  ghost predicate SameTopology(q: Query, r: Query) {
    && q.graph.Valid() && multiset(q.graph.edges) == multiset(r.graph.edges)
    && q.graph.maxDepth == r.graph.maxDepth && q.root == r.root
    && q.observed == r.observed && q.requested == r.requested
  }

  lemma SameOpens(q: Query, r: Query, t: seq<Visit>, s: Slot)
    requires SameTopology(q, r)
    ensures Opens(q, t, s) <==> Opens(r, t, s)
    ensures Opens(q, t, s) ==> EdgeAt(q, t, s) == EdgeAt(r, t, s)
  {
    if s.parent <= |t| {
      assert NodeAt(q, t, s.parent) == NodeAt(r, t, s.parent);
      OutgoingIgnoresEdgeOrder(q.graph, r.graph, NodeAt(q, t, s.parent));
      if InRange(q, t, s) {
        OutgoingIgnoresEdgeOrder(q.graph, r.graph, EdgeAt(q, t, s).source);
      }
    }
  }

  lemma SameSeen(q: Query, r: Query, t: seq<Visit>, k: nat, v: string)
    requires q.root == r.root && k <= |t| && Seen(q, t, k, v)
    ensures Seen(r, t, k, v)
  {
    var i: nat :| i <= k && NodeAt(q, t, i) == v;
    assert NodeAt(r, t, i) == v;
  }

  lemma SamePlaced(q: Query, r: Query, t: seq<Visit>, k: nat, s: Slot)
    requires SameTopology(q, r) && k < |t| && Placed(q, t, k, s)
    ensures Placed(r, t, k, s)
  {
    SameOpens(q, r, t, s);
    if Seen(r, t, k, t[k].edge.target) { SameSeen(r, q, t, k, t[k].edge.target); }
    forall x: Slot | Opens(r, t, x) && x.parent <= k && Before(x, s)
      ensures Seen(r, t, k, EdgeAt(r, t, x).target)
    {
      SameOpens(q, r, t, x);
      SameSeen(q, r, t, k, EdgeAt(q, t, x).target);
    }
  }

  /** However the topology happens to be stored, the traversal is the same. */
  lemma ListingDoesNotMatter(q: Query, r: Query, t: seq<Visit>, u: seq<Visit>)
    requires SameTopology(q, r) && IsTraversal(q, t) && IsTraversal(r, u)
    ensures t == u
  {
    var slots :| Scan(q, t, slots);
    forall k: nat | k < |t| ensures Placed(r, t, k, slots[k]) {
      SamePlaced(q, r, t, k, slots[k]);
    }
    assert Scan(r, t, slots);
    forall s | Opens(r, t, s) ensures Seen(r, t, |t|, EdgeAt(r, t, s).target) {
      SameOpens(q, r, t, s);
      SameSeen(q, r, t, |t|, EdgeAt(q, t, s).target);
    }
    TraversalUnique(r, t, u);
  }
}
