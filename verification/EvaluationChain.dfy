/** The causal chain an evaluation run derives from a root cause, its evidence and a proposed chain. */
module EvaluationChain {
  import opened Outcomes
  import opened OrderedDict
  import opened Text
  import opened EdgeMerging

  // ---------------------------------------------------------------- names

  /** Case folding and the searches in evidence text, which the model does not look into. */
  datatype Words = Words(
    fold: string -> string,
    /** The service names found in a text. */
    services: string -> seq<string>,
    /** Whether a text mentions an alias as a whole word. */
    mentions: (string, string) -> bool,
    /** The target of the first arrow that leaves a service in a text. */
    arrow: (string, string) -> Option<string>)

  predicate KnownAlias(s: string) { s == "checkout" || s == "inventory" || s == "notification" || s == "payment" }

  predicate IsService(node: string) { "service:" <= node }

  function CanonicalName(words: Words, value: string): string {
    var name := (words.fold)(Strip(value));
    if !EndsWith(name, "-service") && KnownAlias(name) then name + "-service" else name
  }

  function Node(words: Words, value: string): string {
    var name := (words.fold)(Strip(value));
    if IsService(name) then "service:" + CanonicalName(words, RemovePrefix(name, "service:"))
    else if EndsWith(name, "-service") then "service:" + name
    else if KnownAlias(name) then "service:" + name + "-service"
    else RemovePrefix(name, "resource:")
  }

  /** A text that names a service: with the prefix or the suffix, or one of the four known ones. */
  ghost predicate NamesService(name: string) { "service:" <= name || EndsWith(name, "-service") || KnownAlias(name) }

  /**
   The node a text stands for: that of a service begins with "service:", and the rest is the text without that prefix, completed by
   "-service" exactly for the short names of the four known services; any other node is the text without "resource:".
   */
  lemma NodeExactly(words: Words, value: string)
    ensures var name, node := (words.fold)(Strip(value)), Node(words, value);
            if !NamesService(name) then node == RemovePrefix(name, "resource:")
            else
              && "service:" <= node
              && (!("service:" <= name) ==> node == "service:" + if KnownAlias(name) then name + "-service" else name)
              && ("service:" <= name ==>
                    var rest := (words.fold)(Strip(name[8..]));
                    node == "service:" + if KnownAlias(rest) then rest + "-service" else rest)
  {
    AliasesAreShort((words.fold)(Strip(value)));
    AliasesAreShort((words.fold)(Strip(RemovePrefix((words.fold)(Strip(value)), "service:"))));
    hide Strip;
    hide KnownAlias;
    hide EndsWith;
  }

  lemma AliasesAreShort(s: string)
    ensures KnownAlias(s) ==> !EndsWith(s, "-service")
  {
    assert "-service"[0] == '-' && "checkout"[0] == 'c' && "inventory"[1] == 'n' && "notification"[4] == 'f';
    if KnownAlias(s) && 8 <= |s| {
      assert s[|s| - 8..][0] == s[|s| - 8] && s[|s| - 8] != '-';
    }
  }

  function AffectedName(words: Words, value: string): string { RemovePrefix(Node(words, value), "service:") }

  // ---------------------------------------------------------------- inputs and edges

  datatype RootCause = RootCause(service: string, kind: string, resource: Option<string>)

  datatype Fact = Fact(id: string, summary: string)

  datatype Input = Input(root: Option<RootCause>, actionable: bool, incident: string, entry: Option<string>,
                         evidence: seq<Fact>, supporting: seq<string>, proposed: seq<Edge>, affected: seq<string>)

  datatype Context = Context(chain: seq<Edge>, affected: seq<string>)

  predicate ValidEdge(e: Edge) {
    1 <= |e.0.0| <= 256 && 1 <= |e.0.1| <= 256 && e.0.0 != e.0.1 && NoDuplicates(e.1)
  }

  /** Constructing an edge raises unless it is a valid one. */
  function MakeEdge(source: string, target: string, ids: seq<string>): (r: Option<Edge>)
    ensures r.Some? <==> ValidEdge(((source, target), ids))
    ensures r.Some? ==> r.value == ((source, target), ids)
  {
    if ValidEdge(((source, target), ids)) then Some(((source, target), ids)) else None
  }

  function FactIds(evidence: seq<Fact>): set<string> { set f | f in evidence :: f.id }

  function Among(ids: seq<string>, allowed: set<string>): (r: seq<string>)
    ensures forall i :: 0 <= i < |r| ==> r[i] in ids && r[i] in allowed
    ensures NoDuplicates(ids) ==> NoDuplicates(r)
  {
    if ids == [] then []
    else
      var rest := Among(ids[1..], allowed);
      if ids[0] in allowed then [ids[0]] + rest else rest
  }

  /** The services mentioned anywhere in the evidence. */
  function Observed(words: Words, evidence: seq<Fact>): set<string> {
    set f, name | f in evidence && name in (words.services)(f.summary) :: Node(words, name)
  }

  // ---------------------------------------------------------------- the parts of the chain

  datatype Frame = Frame(cause: RootCause, root: string, resource: Option<string>, entry: string,
                         support: seq<string>, observed: set<string>, allowed: set<string>, ids: set<string>)

  function FrameOf(words: Words, input: Input, cause: RootCause): Frame {
    var ids := FactIds(input.evidence);
    var root := Node(words, cause.service);
    var resource := if cause.resource.Some? then Some(Node(words, cause.resource.value)) else None;
    var entry := Node(words, if input.entry.Some? then input.entry.value else input.incident);
    var observed := Observed(words, input.evidence);
    Frame(cause, root, resource, entry, Among(input.supporting, ids), observed,
          {root, entry} + observed + (if resource.Some? then {resource.value} else {}), ids)
  }

  /** The evidence that mentions the entry service, if it supports the root cause. */
  function DirectSupport(words: Words, evidence: seq<Fact>, alias: string, support: seq<string>): (r: seq<string>)
    ensures forall i :: 0 <= i < |r| ==> r[i] in support && exists j :: 0 <= j < |evidence| && evidence[j].id == r[i]
  {
    if evidence == [] then []
    else
      var rest := DirectSupport(words, evidence[1..], alias, support);
      if (words.mentions)(alias, evidence[0].summary) && evidence[0].id in support then
        assert evidence[0].id == ([evidence[0].id] + rest)[0];
        [evidence[0].id] + rest
      else rest
  }

  function Downstream(words: Words, evidence: seq<Fact>, root: string, support: seq<string>): (r: Option<(string, string)>)
    ensures r.Some? ==> r.value.0 != root && r.value.1 in support
  {
    if evidence == [] then None
    else
      var found := if evidence[0].id in support then (words.arrow)(AffectedName(words, root), evidence[0].summary) else None;
      if found.Some? && Node(words, found.value) != root then Some((Node(words, found.value), evidence[0].id))
      else Downstream(words, evidence[1..], root, support)
  }

  predicate Propagates(kind: string) {
    kind == "application_error" || kind == "deployment_regression" || kind == "known_error"
  }

  /** What the propagation step wants to add: nothing, or an edge that may turn out invalid. */
  function Propagation(words: Words, f: Frame, evidence: seq<Fact>): Option<Edge> {
    if f.support == [] then None
    else if f.root == f.entry then
      var found := if f.cause.kind == "cascading_failure" then Downstream(words, evidence, f.root, f.support) else None;
      if found.None? then None else Some(((f.root, found.value.0), [found.value.1]))
    else
      var direct := DirectSupport(words, evidence, RemoveSuffix(AffectedName(words, f.entry), "-service"), f.support);
      if direct != [] then Some(((f.root, f.entry), direct))
      else if Propagates(f.cause.kind) then Some(((f.root, f.entry), f.support))
      else None
  }

  function ResourceEdge(f: Frame): Option<Edge> {
    if f.resource.Some? && f.resource.value != f.root && f.support != [] then Some(((f.resource.value, f.root), f.support))
    else None
  }

  /** A proposed edge as it may be kept. */
  function Kept(words: Words, f: Frame, e: Edge): Option<Edge> {
    var source, target, ids := Node(words, e.0.0), Node(words, e.0.1), Among(e.1, f.ids);
    if ids == [] || source !in f.allowed || target !in f.allowed || source == target then None
    else if (f.resource == Some(source) && target == f.root)
         || (source == f.root && IsService(target) && target in f.observed) then Some(((source, target), ids))
    else None
  }

  /** All edges before merging, in order. */
  function Candidates(words: Words, f: Frame, input: Input): seq<Edge> {
    OrNothing(ResourceEdge(f)) + OrNothing(Propagation(words, f, input.evidence)) + KeptOf(words, f, input.proposed)
  }

  function OrNothing(e: Option<Edge>): seq<Edge> { if e.Some? then [e.value] else [] }

  function KeptOf(words: Words, f: Frame, proposed: seq<Edge>): seq<Edge> {
    if proposed == [] then []
    else KeptOf(words, f, proposed[..|proposed| - 1]) + OrNothing(Kept(words, f, proposed[|proposed| - 1]))
  }

  ghost predicate AllValid(edges: seq<Edge>) {
    forall i :: 0 <= i < |edges| ==> ValidEdge(edges[i])
  }

  // ---------------------------------------------------------------- affected services

  function ServiceTargets(words: Words, chain: seq<Edge>): seq<string> {
    if chain == [] then []
    else
      ServiceTargets(words, chain[..|chain| - 1])
      + if IsService(chain[|chain| - 1].0.1) then [AffectedName(words, chain[|chain| - 1].0.1)] else []
  }

  function AllowedProposals(words: Words, allowed: set<string>, proposed: seq<string>): seq<string> {
    if proposed == [] then []
    else
      var node := Node(words, proposed[|proposed| - 1]);
      AllowedProposals(words, allowed, proposed[..|proposed| - 1])
      + if node in allowed && IsService(node) then [AffectedName(words, node)] else []
  }

  /** An absent or empty entry service is replaced by the service of the incident. */
  function EntryService(input: Input): string {
    if input.entry.Some? && input.entry.value != [] then input.entry.value else input.incident
  }

  function AffectedList(words: Words, input: Input, f: Frame, chain: seq<Edge>): seq<string> {
    [AffectedName(words, f.cause.service), AffectedName(words, EntryService(input))]
    + ServiceTargets(words, chain) + AllowedProposals(words, f.allowed, input.affected)
  }

  // ---------------------------------------------------------------- the builder

  /** Appends an edge to the list; the builder raises when the edge is not valid. */
  method Append(edges: seq<Edge>, e: Option<Edge>) returns (r: Option<seq<Edge>>)
    ensures r == if AllValid(OrNothing(e)) then Some(edges + OrNothing(e)) else None
  {
    if e.None? {
      assert edges + [] == edges;
      return Some(edges);
    }
    var made := MakeEdge(e.value.0.0, e.value.0.1, e.value.1);
    assert e.value == ((e.value.0.0, e.value.0.1), e.value.1);
    assert AllValid([e.value]) <==> ValidEdge([e.value][0]);
    r := if made.Some? then Some(edges + [made.value]) else None;
  }

  method KeepProposed(words: Words, f: Frame, proposed: seq<Edge>, before: seq<Edge>) returns (r: Option<seq<Edge>>)
    ensures var kept := KeptOf(words, f, proposed);
            r == if AllValid(kept) then Some(before + kept) else None
  {
    hide Kept;
    hide AllValid;
    hide OrNothing;
    var edges := before;
    NothingValid();
    for i := 0 to |proposed|
      invariant edges == before + KeptOf(words, f, proposed[..i])
      invariant AllValid(KeptOf(words, f, proposed[..i]))
    {
      var next := Kept(words, f, proposed[i]);
      KeptStep(words, f, proposed, i);
      KeptGrows(words, f, proposed, i + 1);
      r := Append(edges, next);
      if r.None? { return; }
      assert before + KeptOf(words, f, proposed[..i]) + OrNothing(next) == before + (KeptOf(words, f, proposed[..i]) + OrNothing(next));
      edges := r.value;
    }
    assert proposed[..|proposed|] == proposed;
    r := Some(edges);
  }

  method BuildEdges(words: Words, f: Frame, input: Input) returns (r: Option<seq<Edge>>)
    ensures var edges := Candidates(words, f, input);
            r == if AllValid(edges) then Some(edges) else None
  {
    hide ResourceEdge;
    hide Propagation;
    hide KeptOf;
    hide AllValid;
    hide OrNothing;
    var start, second := OrNothing(ResourceEdge(f)), OrNothing(Propagation(words, f, input.evidence));
    ValidParts(start, second);
    ValidParts(start + second, KeptOf(words, f, input.proposed));
    r := Append([], ResourceEdge(f));
    if r.None? { return; }
    assert [] + start == start;
    r := Append(r.value, Propagation(words, f, input.evidence));
    if r.None? { return; }
    r := KeepProposed(words, f, input.proposed, r.value);
  }

  method Build(words: Words, input: Input) returns (context: Option<Context>)
    ensures !input.actionable || input.root.None? ==> context == Some(Context([], []))
    ensures input.actionable && input.root.Some? ==>
              var f := FrameOf(words, input, input.root.value);
              var edges := Candidates(words, f, input);
              var chain := Deduplicated(edges);
              context == if AllValid(edges) then Some(Context(chain, FirstOccurrences(AffectedList(words, input, f, chain)))) else None
  {
    hide FrameOf;
    hide Candidates;
    hide AllValid;
    if !input.actionable || input.root.None? { return Some(Context([], [])); }
    var f := FrameOf(words, input, input.root.value);
    var edges := BuildEdges(words, f, input);
    if edges.None? { return None; }
    var chain := Deduplicate(edges.value);
    context := Some(Context(chain, FirstOccurrences(AffectedList(words, input, f, chain))));
  }

  lemma NothingValid()
    ensures AllValid([])
  {}

  lemma KeptStep(words: Words, f: Frame, proposed: seq<Edge>, i: nat)
    requires i < |proposed|
    ensures KeptOf(words, f, proposed[..i + 1]) == KeptOf(words, f, proposed[..i]) + OrNothing(Kept(words, f, proposed[i]))
    ensures AllValid(KeptOf(words, f, proposed[..i + 1])) <==>
              AllValid(KeptOf(words, f, proposed[..i])) && AllValid(OrNothing(Kept(words, f, proposed[i])))
  {
    hide AllValid;
    hide Kept;
    assert proposed[..i + 1][..i] == proposed[..i];
    ValidParts(KeptOf(words, f, proposed[..i]), OrNothing(Kept(words, f, proposed[i])));
  }

  lemma ValidParts(a: seq<Edge>, b: seq<Edge>)
    ensures AllValid(a + b) <==> AllValid(a) && AllValid(b)
  {
    hide ValidEdge;
    if AllValid(a + b) {
      forall i | 0 <= i < |a| ensures ValidEdge(a[i]) { assert (a + b)[i] == a[i]; }
      forall i | 0 <= i < |b| ensures ValidEdge(b[i]) { assert (a + b)[|a| + i] == b[i]; }
    }
  }

  /** What an early prefix makes invalid stays invalid. */
  lemma {:induction false} KeptGrows(words: Words, f: Frame, proposed: seq<Edge>, n: nat)
    requires n <= |proposed|
    ensures AllValid(KeptOf(words, f, proposed)) ==> AllValid(KeptOf(words, f, proposed[..n]))
    decreases |proposed|
  {
    hide AllValid;
    hide Kept;
    if n == |proposed| {
      assert proposed[..n] == proposed;
    } else {
      var init := proposed[..|proposed| - 1];
      KeptGrows(words, f, init, n);
      assert init[..n] == proposed[..n];
      ValidParts(KeptOf(words, f, init), OrNothing(Kept(words, f, proposed[|proposed| - 1])));
    }
  }
}
