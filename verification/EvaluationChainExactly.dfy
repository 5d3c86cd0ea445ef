/** Exactly which edges a built chain has and what they cite, said of the inputs of the builder. */
module EvaluationChainExactly {
  import opened Outcomes
  import opened OrderedDict
  import opened Text
  import opened EdgeMerging
  import opened EvaluationChain
  import opened EvaluationChainFacts

  // ---------------------------------------------------------------- where an edge comes from

  function Root(words: Words, cause: RootCause): string { Node(words, cause.service) }

  function Entry(words: Words, input: Input): string { Node(words, if input.entry.Some? then input.entry.value else input.incident) }

  /** Supplied evidence that supports the root cause. */
  ghost predicate Supports(input: Input, id: string) { id in input.supporting && Supplied(input.evidence, id) }

  /** From the resource to the root, citing all support. */
  ghost predicate ByResource(words: Words, input: Input, cause: RootCause, s: string, t: string, id: string) {
    && cause.resource.Some? && s == Node(words, cause.resource.value) && t == Root(words, cause) && s != t
    && Supports(input, id)
  }

  /** Supporting evidence that mentions the entry service. */
  ghost predicate Direct(words: Words, input: Input, id: string) {
    && Supports(input, id)
    && exists j :: 0 <= j < |input.evidence| && input.evidence[j].id == id
         && (words.mentions)(RemoveSuffix(AffectedName(words, Entry(words, input)), "-service"), input.evidence[j].summary)
  }

  /** Item j of the evidence supports the root cause and has an arrow from the root to this other node. */
  ghost predicate ArrowAt(words: Words, evidence: seq<Fact>, support: seq<string>, root: string, j: nat, t: string) {
    && j < |evidence| && evidence[j].id in support && t != root
    && var target := (words.arrow)(AffectedName(words, root), evidence[j].summary);
       target.Some? && Node(words, target.value) == t
  }

  ghost predicate FirstArrow(words: Words, evidence: seq<Fact>, support: seq<string>, root: string, j: nat, t: string) {
    ArrowAt(words, evidence, support, root, j, t) && forall i: nat, u :: i < j ==> !ArrowAt(words, evidence, support, root, i, u)
  }

  /**
   From the root to the entry, by direct support or else by the kind of the cause; for a cascade from
   the entry, along the first arrow.
   */
  ghost predicate ByPropagation(words: Words, input: Input, cause: RootCause, s: string, t: string, id: string) {
    && s == Root(words, cause)
    && if Root(words, cause) == Entry(words, input) then
         cause.kind == "cascading_failure"
         && exists j: nat :: FirstArrow(words, input.evidence, input.supporting, Root(words, cause), j, t) && input.evidence[j].id == id
       else
         t == Entry(words, input)
         && (Direct(words, input, id) || ((forall x :: !Direct(words, input, x)) && Propagates(cause.kind) && Supports(input, id)))
  }

  /** A proposed edge of which this is the form: from the resource to the root, or from the root to a service that the evidence names. */
  ghost predicate ByProposal(words: Words, input: Input, cause: RootCause, s: string, t: string, id: string) {
    exists n :: 0 <= n < |input.proposed| && ProposalAt(words, input, cause, s, t, id, n)
  }

  ghost predicate ProposalAt(words: Words, input: Input, cause: RootCause, s: string, t: string, id: string, n: nat)
    requires n < |input.proposed|
  {
    var e := input.proposed[n];
    && s == Node(words, e.0.0) && t == Node(words, e.0.1) && s != t && id in e.1 && Supplied(input.evidence, id)
    && ((cause.resource.Some? && s == Node(words, cause.resource.value) && t == Root(words, cause))
        || (s == Root(words, cause) && IsService(t)
            && exists f, name :: f in input.evidence && name in (words.services)(f.summary) && Node(words, name) == t))
  }

  // ---------------------------------------------------------------- the parts

  lemma {:induction false} AmongExactly(ids: seq<string>, allowed: set<string>, id: string)
    ensures id in Among(ids, allowed) <==> id in ids && id in allowed
  {
    if ids != [] { AmongExactly(ids[1..], allowed, id); }
  }

  lemma {:induction false} AmongInOrder(a: seq<string>, b: seq<string>, allowed: set<string>)
    ensures Among(a + b, allowed) == Among(a, allowed) + Among(b, allowed)
  {
    if a == [] {
      assert a + b == b;
    } else {
      assert (a + b)[1..] == a[1..] + b;
      AmongInOrder(a[1..], b, allowed);
    }
  }

  lemma {:induction false} DirectInOrder(words: Words, a: seq<Fact>, b: seq<Fact>, alias: string, support: seq<string>)
    ensures DirectSupport(words, a + b, alias, support) == DirectSupport(words, a, alias, support) + DirectSupport(words, b, alias, support)
  {
    if a == [] {
      assert a + b == b;
    } else {
      assert (a + b)[1..] == a[1..] + b;
      DirectInOrder(words, a[1..], b, alias, support);
    }
  }

  lemma SuppliedMeans(evidence: seq<Fact>, id: string)
    ensures id in FactIds(evidence) <==> Supplied(evidence, id)
  {
    if j :| 0 <= j < |evidence| && evidence[j].id == id { assert evidence[j] in evidence; }
  }

  lemma SupportExactly(words: Words, input: Input, cause: RootCause, id: string)
    ensures id in FrameOf(words, input, cause).support <==> Supports(input, id)
  {
    AmongExactly(input.supporting, FactIds(input.evidence), id);
    SuppliedMeans(input.evidence, id);
    hide Node;
  }

  lemma {:induction false} DirectExactly(words: Words, evidence: seq<Fact>, alias: string, support: seq<string>, id: string)
    ensures id in DirectSupport(words, evidence, alias, support) <==>
              id in support && exists j :: 0 <= j < |evidence| && evidence[j].id == id && (words.mentions)(alias, evidence[j].summary)
  {
    if evidence != [] {
      DirectExactly(words, evidence[1..], alias, support, id);
      var rest := evidence[1..];
      assert forall j :: 0 <= j < |rest| ==> rest[j] == evidence[j + 1];
      if j :| 0 <= j < |evidence| && evidence[j].id == id && (words.mentions)(alias, evidence[j].summary) {
        if j > 0 { assert rest[j - 1] == evidence[j]; }
      }
    }
  }

  lemma {:induction false} DownstreamExactly(words: Words, evidence: seq<Fact>, root: string, support: seq<string>) returns (j: nat)
    ensures match Downstream(words, evidence, root, support)
            case None => forall i: nat, t :: !ArrowAt(words, evidence, support, root, i, t)
            case Some(found) => FirstArrow(words, evidence, support, root, j, found.0) && evidence[j].id == found.1
  {
    hide AffectedName;
    hide Node;
    j := 0;
    if evidence != [] {
      var rest := evidence[1..];
      var r := Downstream(words, evidence, root, support);
      ArrowAtRest(words, evidence, support, root);
      if exists t :: ArrowAt(words, evidence, support, root, 0, t) {
        var t :| ArrowAt(words, evidence, support, root, 0, t);
      } else {
        HeadHasNoArrow(words, evidence, support, root);
        j := DownstreamExactly(words, rest, root, support);
        if r.Some? {
          j := j + 1;
          assert ArrowAt(words, evidence, support, root, j, r.value.0);
          forall i: nat, u | i < j ensures !ArrowAt(words, evidence, support, root, i, u) {
            if i > 0 { assert !ArrowAt(words, rest, support, root, i - 1, u); }
          }
        } else {
          forall i: nat, u ensures !ArrowAt(words, evidence, support, root, i, u) {
            if i > 0 { assert !ArrowAt(words, rest, support, root, i - 1, u); }
          }
        }
      }
    }
  }

  lemma ArrowAtRest(words: Words, evidence: seq<Fact>, support: seq<string>, root: string)
    requires evidence != []
    ensures forall i: nat, t ::
              i > 0 ==> (ArrowAt(words, evidence, support, root, i, t) <==> ArrowAt(words, evidence[1..], support, root, i - 1, t))
  {
    hide AffectedName;
    hide Node;
    assert forall i :: 0 < i < |evidence| ==> evidence[1..][i - 1] == evidence[i];
  }

  lemma HeadHasNoArrow(words: Words, evidence: seq<Fact>, support: seq<string>, root: string)
    requires evidence != [] && forall t :: !ArrowAt(words, evidence, support, root, 0, t)
    ensures Downstream(words, evidence, root, support) == Downstream(words, evidence[1..], root, support)
  {
    hide AffectedName;
    hide Node;
    var found := (words.arrow)(AffectedName(words, root), evidence[0].summary);
    var t := if found.Some? then Node(words, found.value) else root;
    assert !ArrowAt(words, evidence, support, root, 0, t);
  }

  /** This edge, if it is one, connects these nodes and cites this item. */
  ghost predicate Cites(e: Option<Edge>, s: string, t: string, id: string) {
    e.Some? && e.value.0 == (s, t) && id in e.value.1
  }

  ghost predicate SomeCites(edges: seq<Edge>, s: string, t: string, id: string) {
    exists k :: 0 <= k < |edges| && Cites(Some(edges[k]), s, t, id)
  }

  lemma ResourceExactly(words: Words, input: Input, cause: RootCause, s: string, t: string, id: string)
    ensures Cites(ResourceEdge(FrameOf(words, input, cause)), s, t, id) <==> ByResource(words, input, cause, s, t, id)
  {
    SupportExactly(words, input, cause, id);
    hide Node;
    hide Observed;
  }

  lemma KeptExactly(words: Words, input: Input, cause: RootCause, s: string, t: string, id: string, n: nat)
    requires n < |input.proposed|
    ensures Cites(Kept(words, FrameOf(words, input, cause), input.proposed[n]), s, t, id) <==>
              ProposalAt(words, input, cause, s, t, id, n)
  {
    var f := FrameOf(words, input, cause);
    var e := input.proposed[n];
    AmongExactly(e.1, f.ids, id);
    SuppliedMeans(input.evidence, id);
    ObservedExactly(words, input.evidence, t);
    FrameFacts(words, input, cause);
    assert t in f.observed ==> t in f.allowed;
    hide Node;
    hide Observed;
    hide IsService;
    hide Supplied;
    hide FactIds;
  }

  lemma ObservedExactly(words: Words, evidence: seq<Fact>, t: string)
    ensures t in Observed(words, evidence) <==>
              exists f, name :: f in evidence && name in (words.services)(f.summary) && Node(words, name) == t
  {
    hide Node;
  }

  lemma FrameNodes(words: Words, input: Input, cause: RootCause)
    ensures var f := FrameOf(words, input, cause); f.root == Root(words, cause) && f.entry == Entry(words, input) && f.cause == cause
  {
    hide Node;
    hide Observed;
  }

  /** Supported arrows are the same whichever list of support is asked. */
  lemma SameArrows(words: Words, input: Input, support: seq<string>, root: string, j: nat, t: string)
    requires forall x :: x in support <==> Supports(input, x)
    ensures ArrowAt(words, input.evidence, support, root, j, t) <==> ArrowAt(words, input.evidence, input.supporting, root, j, t)
  {
    hide Node;
    hide AffectedName;
    if j < |input.evidence| { assert Supplied(input.evidence, input.evidence[j].id); }
  }

  lemma SameFirstArrows(words: Words, input: Input, support: seq<string>, root: string, j: nat, t: string)
    requires forall x :: x in support <==> Supports(input, x)
    ensures FirstArrow(words, input.evidence, support, root, j, t) <==> FirstArrow(words, input.evidence, input.supporting, root, j, t)
  {
    forall i: nat, u ensures ArrowAt(words, input.evidence, support, root, i, u) <==>
                             ArrowAt(words, input.evidence, input.supporting, root, i, u) {
      SameArrows(words, input, support, root, i, u);
    }
    hide ArrowAt;
    hide Supports;
  }

  lemma OneFirstArrow(words: Words, evidence: seq<Fact>, support: seq<string>, root: string, j: nat, t: string, k: nat, u: string)
    requires FirstArrow(words, evidence, support, root, j, t) && FirstArrow(words, evidence, support, root, k, u)
    ensures j == k && t == u && j < |evidence|
  {
    if j == k { SameTarget(words, evidence, support, root, j, t, u); }
  }

  lemma CascadeExactly(words: Words, input: Input, support: seq<string>, root: string, t: string, id: string)
    requires forall x :: x in support <==> Supports(input, x)
    ensures var found := Downstream(words, input.evidence, root, support);
            (found.Some? && found.value == (t, id)) <==>
              exists j: nat :: FirstArrow(words, input.evidence, input.supporting, root, j, t) && input.evidence[j].id == id
  {
    var found := Downstream(words, input.evidence, root, support);
    var j := DownstreamExactly(words, input.evidence, root, support);
    assert forall k: nat, u :: ArrowAt(words, input.evidence, input.supporting, root, k, u) ==> k < |input.evidence|;
    hide ArrowAt;
    hide Downstream;
    hide Supports;
    if found.Some? { SameFirstArrows(words, input, support, root, j, found.value.0); }
    if k: nat :| FirstArrow(words, input.evidence, input.supporting, root, k, t) && input.evidence[k].id == id {
      SameFirstArrows(words, input, support, root, k, t);
      assert ArrowAt(words, input.evidence, support, root, k, t);
      OneFirstArrow(words, input.evidence, support, root, j, found.value.0, k, t);
    }
  }

  lemma SameTarget(words: Words, evidence: seq<Fact>, support: seq<string>, root: string, j: nat, t: string, u: string)
    requires ArrowAt(words, evidence, support, root, j, t) && ArrowAt(words, evidence, support, root, j, u)
    ensures t == u
  {}

  lemma PropagationExactly(words: Words, input: Input, cause: RootCause, s: string, t: string, id: string)
    ensures Cites(Propagation(words, FrameOf(words, input, cause), input.evidence), s, t, id) <==>
              ByPropagation(words, input, cause, s, t, id)
  {
    var f := FrameOf(words, input, cause);
    forall x ensures x in f.support <==> Supports(input, x) { SupportExactly(words, input, cause, x); }
    FrameNodes(words, input, cause);
    hide FrameOf;
    hide Node;
    hide AffectedName;
    hide RemoveSuffix;
    hide Supports;
    if f.root == f.entry {
      CascadeExactly(words, input, f.support, f.root, t, id);
      hide FirstArrow;
    } else {
      DirectOrKind(words, input, f, s, t, id);
    }
  }

  lemma DirectOrKind(words: Words, input: Input, f: Frame, s: string, t: string, id: string)
    requires (forall x :: x in f.support <==> Supports(input, x)) && f.entry == Entry(words, input) && f.root != f.entry
    ensures Cites(Propagation(words, f, input.evidence), s, t, id) <==>
              s == f.root && t == f.entry
              && (Direct(words, input, id) || ((forall x :: !Direct(words, input, x)) && Propagates(f.cause.kind) && Supports(input, id)))
  {
    var alias := RemoveSuffix(AffectedName(words, f.entry), "-service");
    var direct := DirectSupport(words, input.evidence, alias, f.support);
    forall x ensures x in direct <==> Direct(words, input, x) {
      DirectExactly(words, input.evidence, alias, f.support, x);
    }
    hide Direct;
    hide DirectSupport;
    hide Supports;
    hide AffectedName;
    hide RemoveSuffix;
    hide Propagates;
    assert direct == [] <==> forall x :: x !in direct by { if direct != [] { assert direct[0] in direct; } }
  }

  // ---------------------------------------------------------------- the whole chain

  lemma {:induction false} KeptOfExactly(words: Words, input: Input, cause: RootCause, s: string, t: string, id: string, n: nat)
    requires n <= |input.proposed|
    ensures var kept := KeptOf(words, FrameOf(words, input, cause), input.proposed[..n]);
            SomeCites(kept, s, t, id) <==>
              exists m :: 0 <= m < n && ProposalAt(words, input, cause, s, t, id, m)
  {
    var f := FrameOf(words, input, cause);
    hide FrameOf;
    hide Kept;
    hide ProposalAt;
    hide Cites;
    if n > 0 {
      KeptOfExactly(words, input, cause, s, t, id, n - 1);
      KeptExactly(words, input, cause, s, t, id, n - 1);
      KeptStep(words, f, input.proposed, n - 1);
      var before, next := KeptOf(words, f, input.proposed[..n - 1]), Kept(words, f, input.proposed[n - 1]);
      hide KeptOf;
      JoinCites(before, next, s, t, id);
    } else {
      assert input.proposed[..0] == [];
    }
  }

  lemma JoinCites(before: seq<Edge>, next: Option<Edge>, s: string, t: string, id: string)
    ensures SomeCites(before + OrNothing(next), s, t, id) <==> SomeCites(before, s, t, id) || Cites(next, s, t, id)
  {
    JoinAll(before, OrNothing(next), s, t, id);
    if Cites(next, s, t, id) { assert OrNothing(next)[0] == next.value; }
  }

  lemma JoinAll(a: seq<Edge>, b: seq<Edge>, s: string, t: string, id: string)
    ensures SomeCites(a + b, s, t, id) <==> SomeCites(a, s, t, id) || SomeCites(b, s, t, id)
  {
    hide Cites;
    var all := a + b;
    if k :| 0 <= k < |a| && Cites(Some(a[k]), s, t, id) { assert all[k] == a[k]; }
    if k :| 0 <= k < |b| && Cites(Some(b[k]), s, t, id) { assert all[|a| + k] == b[k]; }
  }

  lemma CandidatesExactly(words: Words, input: Input, cause: RootCause, s: string, t: string, id: string)
    ensures var edges := Candidates(words, FrameOf(words, input, cause), input);
            SomeCites(edges, s, t, id) <==>
              || ByResource(words, input, cause, s, t, id) || ByPropagation(words, input, cause, s, t, id)
              || ByProposal(words, input, cause, s, t, id)
  {
    var f := FrameOf(words, input, cause);
    ResourceExactly(words, input, cause, s, t, id);
    PropagationExactly(words, input, cause, s, t, id);
    KeptOfExactly(words, input, cause, s, t, id, |input.proposed|);
    assert input.proposed[..|input.proposed|] == input.proposed;
    hide FrameOf;
    hide ResourceEdge;
    hide Propagation;
    hide KeptOf;
    hide Cites;
    hide SomeCites;
    hide OrNothing;
    hide ByResource;
    hide ByPropagation;
    hide ProposalAt;
    var a, b, kept := ResourceEdge(f), Propagation(words, f, input.evidence), KeptOf(words, f, input.proposed);
    JoinThree(a, b, kept, s, t, id);
  }

  lemma JoinThree(a: Option<Edge>, b: Option<Edge>, kept: seq<Edge>, s: string, t: string, id: string)
    ensures SomeCites(OrNothing(a) + OrNothing(b) + kept, s, t, id) <==>
              Cites(a, s, t, id) || Cites(b, s, t, id) || SomeCites(kept, s, t, id)
  {
    hide Cites;
    hide SomeCites;
    hide OrNothing;
    NothingCites(s, t, id);
    JoinCites([], a, s, t, id);
    assert [] + OrNothing(a) == OrNothing(a);
    JoinCites(OrNothing(a), b, s, t, id);
    JoinAll(OrNothing(a) + OrNothing(b), kept, s, t, id);
  }

  lemma NothingCites(s: string, t: string, id: string)
    ensures !SomeCites([], s, t, id)
  {}

  lemma {:induction false} AllCitedExactly(edges: seq<Edge>, s: string, t: string, id: string)
    ensures id in AllCited(edges, (s, t)) <==> SomeCites(edges, s, t, id)
  {
    if edges != [] {
      var init, last := edges[..|edges| - 1], edges[|edges| - 1];
      AllCitedExactly(init, s, t, id);
      JoinCites(init, Some(last), s, t, id);
      assert init + OrNothing(Some(last)) == edges;
      assert Cites(Some(last), s, t, id) <==> last.0 == (s, t) && id in last.1;
      hide Cites;
    }
  }

  /**
   A built chain has an edge between two nodes that cites an item exactly if the item supports the step from the resource
   to the root, or the propagation from the root, or a proposed edge of that form cites it.
   */
  lemma ChainExactly(words: Words, input: Input, cause: RootCause, s: string, t: string, id: string)
    requires AllValid(Candidates(words, FrameOf(words, input, cause), input))
    ensures var chain := Deduplicated(Candidates(words, FrameOf(words, input, cause), input));
            (exists n :: 0 <= n < |chain| && chain[n].0 == (s, t) && id in chain[n].1) <==>
              || ByResource(words, input, cause, s, t, id) || ByPropagation(words, input, cause, s, t, id)
              || ByProposal(words, input, cause, s, t, id)
  {
    var edges := Candidates(words, FrameOf(words, input, cause), input);
    CandidatesExactly(words, input, cause, s, t, id);
    AllCitedExactly(edges, s, t, id);
    ValidCiteOnce(edges);
    MergedKeys(edges);
    hide Candidates;
    hide FrameOf;
    hide ByResource;
    hide ByPropagation;
    hide ByProposal;
    hide Cites;
    MergedExactly(edges, (s, t), id);
  }

  lemma ValidCiteOnce(edges: seq<Edge>)
    requires AllValid(edges)
    ensures CitesOnce(edges)
  {
    forall i | 0 <= i < |edges| ensures NoDuplicates(edges[i].1) { assert ValidEdge(edges[i]); }
  }

  lemma MergedExactly(edges: seq<Edge>, key: Key, id: string)
    requires CitesOnce(edges)
    ensures (exists n :: 0 <= n < |Deduplicated(edges)| && Deduplicated(edges)[n].0 == key && id in Deduplicated(edges)[n].1) <==>
              id in AllCited(edges, key)
  {
    var chain := Deduplicated(edges);
    MergedKeys(edges);
    FirstOccurrencesMembers(Keys(edges), key);
    FirstOccurrencesMembers(AllCited(edges, key), id);
    forall n | 0 <= n < |chain| && chain[n].0 == key ensures id in chain[n].1 <==> id in AllCited(edges, key) {
      MergedEvidence(edges, n);
    }
    hide NoDuplicates;
    hide FirstOccurrences;
    hide Deduplicated;
    hide AllCited;
    if key in Keys(edges) {
      assert key in Keys(chain);
      var n :| 0 <= n < |chain| && Keys(chain)[n] == key;
      assert chain[n].0 == key;
    } else {
      CitedOnlyByKeys(edges, key);
      forall n | 0 <= n < |chain| ensures chain[n].0 != key { assert Keys(chain)[n] in Keys(chain); }
    }
  }

  // ---------------------------------------------------------------- affected services

  /** A node that may be proposed as affected: the root, the entry, the resource or a service that the evidence names. */
  ghost predicate Allowed(words: Words, input: Input, cause: RootCause, node: string) {
    || node == Root(words, cause) || node == Entry(words, input)
    || (cause.resource.Some? && node == Node(words, cause.resource.value))
    || exists f, name :: f in input.evidence && name in (words.services)(f.summary) && Node(words, name) == node
  }

  lemma AllowedExactly(words: Words, input: Input, cause: RootCause, node: string)
    ensures node in FrameOf(words, input, cause).allowed <==> Allowed(words, input, cause, node)
  {
    ObservedExactly(words, input.evidence, node);
    hide Node;
    hide Observed;
  }

  /** The affected services: of the cause, of the entry or else the incident, of the chain's targets, and of the allowed proposals. */
  lemma AffectedAre(words: Words, input: Input, cause: RootCause, chain: seq<Edge>, name: string)
    ensures var entry := if input.entry.Some? && input.entry.value != "" then input.entry.value else input.incident;
            name in FirstOccurrences(AffectedList(words, input, FrameOf(words, input, cause), chain)) <==>
              || name == AffectedName(words, cause.service) || name == AffectedName(words, entry)
              || (exists i :: ServiceTarget(words, chain, name, i))
              || exists i :: 0 <= i < |input.affected| && Allowed(words, input, cause, Node(words, input.affected[i]))
                   && IsService(Node(words, input.affected[i])) && AffectedName(words, Node(words, input.affected[i])) == name
  {
    var f := FrameOf(words, input, cause);
    FrameNodes(words, input, cause);
    AffectedExactly(words, input, f, chain, name);
    hide FrameOf;
    hide Node;
    hide AffectedName;
    hide Allowed;
    hide ServiceTarget;
    forall i | 0 <= i < |input.affected|
      ensures Node(words, input.affected[i]) in f.allowed <==> Allowed(words, input, cause, Node(words, input.affected[i]))
    {
      AllowedExactly(words, input, cause, Node(words, input.affected[i]));
    }
    forall i: nat ensures AllowedProposal(words, f.allowed, input.affected, name, i) <==>
                          i < |input.affected| && Allowed(words, input, cause, Node(words, input.affected[i]))
                          && IsService(Node(words, input.affected[i])) && AffectedName(words, Node(words, input.affected[i])) == name {}
  }

  lemma {:induction false} FirstOccurrencesPrefix(a: seq<string>, b: seq<string>)
    ensures FirstOccurrences(a) <= FirstOccurrences(a + b)
  {
    if b == [] {
      assert a + b == a;
    } else {
      var init, last := b[..|b| - 1], b[|b| - 1];
      FirstOccurrencesPrefix(a, init);
      FirstOccurrencesSnoc(a + init, last);
      assert a + b == (a + init) + [last];
    }
  }

  lemma FirstOfTwo(x: string, y: string)
    ensures FirstOccurrences([x, y]) == if x == y then [x] else [x, y]
  {
    assert [x, y][..1] == [x] && [x][..0] == [];
    assert FirstOccurrences([x]) == [x];
  }

  lemma ListBegins(words: Words, input: Input, f: Frame, chain: seq<Edge>)
    ensures AffectedList(words, input, f, chain)
         == [AffectedName(words, f.cause.service), AffectedName(words, EntryService(input))]
            + (ServiceTargets(words, chain) + AllowedProposals(words, f.allowed, input.affected))
  {
    hide AffectedName;
    hide EntryService;
    hide ServiceTargets;
    hide AllowedProposals;
  }

  /** The service of the cause comes first, then that of the entry or else the incident if it is another one. */
  lemma AffectedBegins(words: Words, input: Input, cause: RootCause, chain: seq<Edge>)
    ensures var affected := FirstOccurrences(AffectedList(words, input, FrameOf(words, input, cause), chain));
            var first := AffectedName(words, cause.service);
            var second := AffectedName(words, if input.entry.Some? && input.entry.value != "" then input.entry.value else input.incident);
            (if first == second then [first] else [first, second]) <= affected
  {
    var f := FrameOf(words, input, cause);
    FrameNodes(words, input, cause);
    var first, second := AffectedName(words, cause.service), AffectedName(words, EntryService(input));
    hide FrameOf;
    hide AffectedList;
    hide AffectedName;
    hide FirstOccurrences;
    hide ServiceTargets;
    hide AllowedProposals;
    ListBegins(words, input, f, chain);
    FirstOfTwo(first, second);
    FirstOccurrencesPrefix([first, second], ServiceTargets(words, chain) + AllowedProposals(words, f.allowed, input.affected));
  }
}
