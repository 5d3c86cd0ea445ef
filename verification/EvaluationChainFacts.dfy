/** What every causal chain of an evaluation run satisfies. */
module EvaluationChainFacts {
  import opened Outcomes
  import opened OrderedDict
  import opened Text
  import opened EdgeMerging
  import opened EvaluationChain

  // ---------------------------------------------------------------- grounding

  /** Where the chain may lead from the root: to the entry, along an arrow in supporting evidence, or to an observed service. */
  ghost predicate Reaches(words: Words, f: Frame, evidence: seq<Fact>, target: string) {
    || target == f.entry
    || (IsService(target) && target in f.observed)
    || (var found := Downstream(words, evidence, f.root, f.support); found.Some? && found.value.0 == target)
  }

  /** From the resource to the root or out of the root, never to itself, citing supplied evidence only and some of it. */
  ghost predicate Grounded(words: Words, f: Frame, evidence: seq<Fact>, e: Edge) {
    && ((e.0.0 == f.root && Reaches(words, f, evidence, e.0.1)) || (f.resource == Some(e.0.0) && e.0.1 == f.root))
    && e.0.0 != e.0.1
    && e.1 != [] && (forall i :: 0 <= i < |e.1| ==> e.1[i] in f.ids)
  }

  ghost predicate Supplied(evidence: seq<Fact>, id: string) {
    exists j :: 0 <= j < |evidence| && evidence[j].id == id
  }

  ghost predicate AllGrounded(words: Words, f: Frame, evidence: seq<Fact>, edges: seq<Edge>) {
    forall i :: 0 <= i < |edges| ==> Grounded(words, f, evidence, edges[i])
  }

  lemma PropagationGrounded(words: Words, f: Frame, evidence: seq<Fact>)
    requires forall i :: 0 <= i < |f.support| ==> f.support[i] in f.ids
    ensures Propagation(words, f, evidence).Some? ==> Grounded(words, f, evidence, Propagation(words, f, evidence).value)
  {}

  lemma KeptGrounded(words: Words, f: Frame, evidence: seq<Fact>, e: Edge)
    ensures Kept(words, f, e).Some? ==> Grounded(words, f, evidence, Kept(words, f, e).value)
  {}

  lemma {:induction false} KeptOfGrounded(words: Words, f: Frame, evidence: seq<Fact>, proposed: seq<Edge>)
    ensures AllGrounded(words, f, evidence, KeptOf(words, f, proposed))
  {
    hide Kept;
    hide Grounded;
    if proposed != [] {
      KeptOfGrounded(words, f, evidence, proposed[..|proposed| - 1]);
      KeptGrounded(words, f, evidence, proposed[|proposed| - 1]);
    }
  }

  /** What the frame of an input guarantees. */
  lemma FrameFacts(words: Words, input: Input, cause: RootCause)
    ensures var f := FrameOf(words, input, cause);
            && f.cause == cause && f.ids == FactIds(input.evidence)
            && (forall i :: 0 <= i < |f.support| ==> f.support[i] in f.ids)
            && (NoDuplicates(input.supporting) ==> NoDuplicates(f.support))
            && f.root in f.allowed && f.entry in f.allowed && (f.resource.Some? ==> f.resource.value in f.allowed)
  {
    hide NoDuplicates;
    hide Observed;
    hide Node;
  }

  lemma ResourceGrounded(words: Words, f: Frame, evidence: seq<Fact>)
    requires forall i :: 0 <= i < |f.support| ==> f.support[i] in f.ids
    ensures ResourceEdge(f).Some? ==> Grounded(words, f, evidence, ResourceEdge(f).value)
  {}

  lemma CandidatesGrounded(words: Words, input: Input, cause: RootCause)
    ensures var f := FrameOf(words, input, cause); AllGrounded(words, f, input.evidence, Candidates(words, f, input))
  {
    hide FrameOf;
    hide Grounded;
    hide Propagation;
    hide ResourceEdge;
    var f := FrameOf(words, input, cause);
    FrameFacts(words, input, cause);
    ResourceGrounded(words, f, input.evidence);
    PropagationGrounded(words, f, input.evidence);
    KeptOfGrounded(words, f, input.evidence, input.proposed);
  }

  lemma MergeCites(d: Items<Key, seq<string>>, e: Edge, words: Words, f: Frame, evidence: seq<Fact>)
    requires NoDuplicates(Keys(d)) && AllGrounded(words, f, evidence, d) && AllValid(d) && Grounded(words, f, evidence, e) && ValidEdge(e)
    ensures AllGrounded(words, f, evidence, Merge(d, e)) && AllValid(Merge(d, e))
  {
    var i := IndexOf(d, e.0);
    if i < |d| {
      var all := d[i].1 + e.1;
      var ids := FirstOccurrences(all);
      FirstOccurrencesDistinct(all);
      FirstOccurrencesMembers(all, e.1[0]);
      forall j | 0 <= j < |ids| ensures ids[j] in f.ids {
        FirstOccurrencesMembers(all, ids[j]);
      }
      hide NoDuplicates;
      assert Grounded(words, f, evidence, d[i]) && Grounded(words, f, evidence, (e.0, ids));
      assert ValidEdge(d[i]) && ValidEdge((e.0, ids));
    }
  }

  /** Merging never makes an edge that could not be constructed, and keeps every edge grounded. */
  lemma {:induction false} MergedGrounded(words: Words, f: Frame, evidence: seq<Fact>, edges: seq<Edge>)
    requires AllGrounded(words, f, evidence, edges) && AllValid(edges)
    ensures AllGrounded(words, f, evidence, Deduplicated(edges)) && AllValid(Deduplicated(edges))
  {
    hide Merge;
    hide Grounded;
    hide ValidEdge;
    hide NoDuplicates;
    if edges != [] {
      var init, last := edges[..|edges| - 1], edges[|edges| - 1];
      MergedGrounded(words, f, evidence, init);
      MergedKeys(init);
      MergeCites(Deduplicated(init), last, words, f, evidence);
    }
  }

  /**
   Every chain that is built: each edge leads from the resource to the root, or from the root to the
   entry, along an arrow or to an observed service; none leads to itself, no pair of nodes twice; each
   cites some evidence, only supplied evidence, nothing twice.
   */
  lemma ChainIsGrounded(words: Words, input: Input, cause: RootCause, n: nat)
    requires var f := FrameOf(words, input, cause);
             AllValid(Candidates(words, f, input)) && n < |Deduplicated(Candidates(words, f, input))|
    ensures var f := FrameOf(words, input, cause);
            var chain := Deduplicated(Candidates(words, f, input));
            && Grounded(words, f, input.evidence, chain[n]) && ValidEdge(chain[n]) && NoDuplicates(Keys(chain))
            && (forall i :: 0 <= i < |chain[n].1| ==> Supplied(input.evidence, chain[n].1[i]))
  {
    hide FrameOf;
    hide ValidEdge;
    hide NoDuplicates;
    hide Candidates;
    var f := FrameOf(words, input, cause);
    var edges := Candidates(words, f, input);
    var chain := Deduplicated(edges);
    CandidatesGrounded(words, input, cause);
    MergedGrounded(words, f, input.evidence, edges);
    MergedKeys(edges);
    FrameFacts(words, input, cause);
    assert Grounded(words, f, input.evidence, chain[n]);
    forall i | 0 <= i < |chain[n].1| ensures Supplied(input.evidence, chain[n].1[i]) {
      assert chain[n].1[i] in FactIds(input.evidence);
    }
  }

  // ---------------------------------------------------------------- affected services

  ghost predicate ServiceTarget(words: Words, chain: seq<Edge>, name: string, i: nat) {
    i < |chain| && IsService(chain[i].0.1) && AffectedName(words, chain[i].0.1) == name
  }

  lemma {:induction false} ServiceTargetsAre(words: Words, chain: seq<Edge>, name: string)
    ensures name in ServiceTargets(words, chain) <==> exists i :: ServiceTarget(words, chain, name, i)
  {
    hide AffectedName;
    hide IsService;
    if chain != [] {
      var init, last := chain[..|chain| - 1], |chain| - 1;
      ServiceTargetsAre(words, init, name);
      if i: nat :| ServiceTarget(words, init, name, i) { assert ServiceTarget(words, chain, name, i); }
      if i: nat :| ServiceTarget(words, chain, name, i) {
        assert i < last ==> ServiceTarget(words, init, name, i);
        assert i == last ==> ServiceTarget(words, chain, name, last);
      }
      if IsService(chain[last].0.1) && AffectedName(words, chain[last].0.1) == name {
        assert ServiceTarget(words, chain, name, last);
      }
    }
  }

  ghost predicate AllowedProposal(words: Words, allowed: set<string>, proposed: seq<string>, name: string, i: nat) {
    && i < |proposed| && Node(words, proposed[i]) in allowed && IsService(Node(words, proposed[i]))
    && AffectedName(words, Node(words, proposed[i])) == name
  }

  lemma {:induction false} AllowedProposalsAre(words: Words, allowed: set<string>, proposed: seq<string>, name: string)
    ensures name in AllowedProposals(words, allowed, proposed) <==> exists i :: AllowedProposal(words, allowed, proposed, name, i)
  {
    hide AffectedName;
    hide IsService;
    hide Node;
    if proposed != [] {
      var init, last := proposed[..|proposed| - 1], |proposed| - 1;
      AllowedProposalsAre(words, allowed, init, name);
      if i: nat :| AllowedProposal(words, allowed, init, name, i) { assert AllowedProposal(words, allowed, proposed, name, i); }
      if i: nat :| AllowedProposal(words, allowed, proposed, name, i) {
        assert i < last ==> AllowedProposal(words, allowed, init, name, i);
        assert i == last ==> AllowedProposal(words, allowed, proposed, name, last);
      }
      var node := Node(words, proposed[last]);
      if node in allowed && IsService(node) && AffectedName(words, node) == name {
        assert AllowedProposal(words, allowed, proposed, name, last);
      }
    }
  }

  /**
   The affected services are listed once each: the root cause's, the entry's, those the chain leads
   to, and of the proposed ones exactly those whose node is allowed.
   */
  lemma AffectedExactly(words: Words, input: Input, f: Frame, chain: seq<Edge>, name: string)
    ensures NoDuplicates(FirstOccurrences(AffectedList(words, input, f, chain)))
    ensures name in FirstOccurrences(AffectedList(words, input, f, chain)) <==>
              || name == AffectedName(words, f.cause.service) || name == AffectedName(words, EntryService(input))
              || (exists i :: ServiceTarget(words, chain, name, i))
              || (exists i :: AllowedProposal(words, f.allowed, input.affected, name, i))
  {
    hide NoDuplicates;
    hide ServiceTarget;
    hide AllowedProposal;
    hide AffectedName;
    var list := AffectedList(words, input, f, chain);
    FirstOccurrencesDistinct(list);
    FirstOccurrencesMembers(list, name);
    ServiceTargetsAre(words, chain, name);
    AllowedProposalsAre(words, f.allowed, input.affected, name);
  }

  // ---------------------------------------------------------------- when building raises

  ghost predicate FitsName(node: string) { 1 <= |node| <= 256 }

  /** Distinct evidence, distinct support and well-formed names. */
  ghost predicate Tidy(words: Words, input: Input, cause: RootCause) {
    var f := FrameOf(words, input, cause);
    && NoDuplicates(input.supporting) && CitesOnce(input.proposed)
    && (forall i, j :: 0 <= i < j < |input.evidence| ==> input.evidence[i].id != input.evidence[j].id)
    && (forall node :: node in f.allowed ==> FitsName(node))
    && var target := Downstream(words, input.evidence, f.root, f.support);
       target.Some? ==> FitsName(target.value.0)
  }

  lemma {:induction false} DirectDistinct(words: Words, evidence: seq<Fact>, alias: string, support: seq<string>)
    requires forall i, j :: 0 <= i < j < |evidence| ==> evidence[i].id != evidence[j].id
    ensures NoDuplicates(DirectSupport(words, evidence, alias, support))
  {
    if evidence != [] { DirectDistinct(words, evidence[1..], alias, support); }
  }

  lemma {:induction false} KeptOfValid(words: Words, f: Frame, proposed: seq<Edge>)
    requires CitesOnce(proposed) && forall node :: node in f.allowed ==> FitsName(node)
    ensures AllValid(KeptOf(words, f, proposed))
  {
    if proposed != [] {
      InitCitesOnce(proposed);
      KeptOfValid(words, f, proposed[..|proposed| - 1]);
      var e := proposed[|proposed| - 1];
      hide KeptOf;
      hide Node;
      assert Kept(words, f, e).Some? ==> ValidEdge(Kept(words, f, e).value);
      ValidParts(KeptOf(words, f, proposed[..|proposed| - 1]), OrNothing(Kept(words, f, e)));
      KeptStep(words, f, proposed, |proposed| - 1);
      assert proposed[..|proposed|] == proposed;
    }
  }

  lemma ResourceValid(f: Frame)
    requires NoDuplicates(f.support) && forall node :: node in f.allowed ==> FitsName(node)
    requires f.root in f.allowed && (f.resource.Some? ==> f.resource.value in f.allowed)
    ensures ResourceEdge(f).Some? ==> ValidEdge(ResourceEdge(f).value)
  {}

  lemma PropagationValid(words: Words, f: Frame, evidence: seq<Fact>)
    requires NoDuplicates(f.support) && FitsName(f.root) && FitsName(f.entry)
    requires forall i, j :: 0 <= i < j < |evidence| ==> evidence[i].id != evidence[j].id
    requires Downstream(words, evidence, f.root, f.support).Some? ==>
               FitsName(Downstream(words, evidence, f.root, f.support).value.0)
    ensures Propagation(words, f, evidence).Some? ==> ValidEdge(Propagation(words, f, evidence).value)
  {
    hide Downstream;
    hide AffectedName;
    DirectDistinct(words, evidence, RemoveSuffix(AffectedName(words, f.entry), "-service"), f.support);
  }

  /** On tidy input the builder never raises. */
  lemma TidyNeverRaises(words: Words, input: Input, cause: RootCause)
    requires Tidy(words, input, cause)
    ensures AllValid(Candidates(words, FrameOf(words, input, cause), input))
  {
    hide FrameOf;
    hide Propagation;
    hide ResourceEdge;
    hide KeptOf;
    hide NoDuplicates;
    hide ValidEdge;
    var f := FrameOf(words, input, cause);
    FrameFacts(words, input, cause);
    ResourceValid(f);
    PropagationValid(words, f, input.evidence);
    KeptOfValid(words, f, input.proposed);
    var a, b := OrNothing(ResourceEdge(f)), OrNothing(Propagation(words, f, input.evidence));
    ValidParts(a, b);
    ValidParts(a + b, KeptOf(words, f, input.proposed));
  }
}
