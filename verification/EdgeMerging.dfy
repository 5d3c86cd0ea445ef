/** Merging causal edges that connect the same nodes. */
module EdgeMerging {
  import opened OrderedDict

  /** A source and a target, and the evidence cited for the step from one to the other. */
  type Key = (string, string)
  type Edge = (Key, seq<string>)

  function CitedAt(d: Items<Key, seq<string>>, k: Key): seq<string> {
    var i := IndexOf(d, k);
    if i < |d| then d[i].1 else []
  }

  /** One more edge: a new one goes last, a known one gains the evidence it did not cite yet. */
  function Merge(d: Items<Key, seq<string>>, e: Edge): Items<Key, seq<string>> {
    Put<Key, seq<string>>(d, e.0, if e.0 in Keys(d) then FirstOccurrences(CitedAt(d, e.0) + e.1) else e.1)
  }

  function Deduplicated(edges: seq<Edge>): Items<Key, seq<string>> {
    if edges == [] then []
    else Merge(Deduplicated(edges[..|edges| - 1]), edges[|edges| - 1])
  }

  method Deduplicate(edges: seq<Edge>) returns (d: Items<Key, seq<string>>)
    ensures d == Deduplicated(edges)
  {
    hide Merge;
    d := [];
    for i := 0 to |edges|
      invariant d == Deduplicated(edges[..i])
    {
      assert edges[..i + 1][..i] == edges[..i];
      d := Merge(d, edges[i]);
    }
    assert edges[..|edges|] == edges;
  }

  // ---------------------------------------------------------------- what the merged chain is

  /** All evidence cited for one pair of nodes, in the order of the edges. */
  function AllCited(edges: seq<Edge>, k: Key): seq<string> {
    if edges == [] then []
    else AllCited(edges[..|edges| - 1], k) + if edges[|edges| - 1].0 == k then edges[|edges| - 1].1 else []
  }

  lemma {:induction false} FirstOccurrencesAbsorb<T>(a: seq<T>, b: seq<T>)
    ensures FirstOccurrences(FirstOccurrences(a) + b) == FirstOccurrences(a + b)
  {
    hide FirstOccurrences;
    hide NoDuplicates;
    if b == [] {
      assert a + b == a && FirstOccurrences(a) + b == FirstOccurrences(a);
      FirstOccurrencesDistinct(a);
      FirstOccurrencesOfDistinct(FirstOccurrences(a));
    } else {
      var init, last := b[..|b| - 1], b[|b| - 1];
      FirstOccurrencesAbsorb(a, init);
      FirstOccurrencesSnoc(a + init, last);
      FirstOccurrencesSnoc(FirstOccurrences(a) + init, last);
      assert a + b == (a + init) + [last];
      assert FirstOccurrences(a) + b == (FirstOccurrences(a) + init) + [last];
    }
  }

  ghost predicate CitesOnce(edges: seq<Edge>) {
    forall i :: 0 <= i < |edges| ==> NoDuplicates(edges[i].1)
  }

  /** The merged chain keeps each pair of nodes once, in the order of first mention. */
  lemma {:induction false} MergedKeys(edges: seq<Edge>)
    ensures Keys(Deduplicated(edges)) == FirstOccurrences(Keys(edges))
    ensures NoDuplicates(Keys(Deduplicated(edges)))
  {
    FirstOccurrencesDistinct(Keys(edges));
    if edges != [] {
      hide NoDuplicates;
      hide FirstOccurrences;
      hide Merge;
      var init, last := edges[..|edges| - 1], edges[|edges| - 1];
      MergedKeys(init);
      MergeKeys(Deduplicated(init), last);
      KeysSnoc<Key, seq<string>>(edges);
      FirstOccurrencesSnoc(Keys(init), last.0);
    }
  }

  lemma MergeKeys(d: Items<Key, seq<string>>, e: Edge)
    ensures Keys(Merge(d, e)) == if e.0 in Keys(d) then Keys(d) else Keys(d) + [e.0]
  {
    PutKeys<Key, seq<string>>(d, e.0, if e.0 in Keys(d) then FirstOccurrences(CitedAt(d, e.0) + e.1) else e.1);
  }

  lemma {:induction false} CitedOnlyByKeys(edges: seq<Edge>, k: Key)
    requires k !in Keys(edges)
    ensures AllCited(edges, k) == []
  {
    if edges != [] {
      var init, last := edges[..|edges| - 1], edges[|edges| - 1];
      KeysSnoc<Key, seq<string>>(edges);
      CitedOnlyByKeys(init, k);
    }
  }

  lemma CitedAtItem(d: Items<Key, seq<string>>, n: nat)
    requires NoDuplicates(Keys(d)) && n < |d|
    ensures CitedAt(d, d[n].0) == d[n].1
  {
    hide NoDuplicates;
    IndexAt<Key, seq<string>>(d, n);
  }

  /** Each merged edge cites exactly the evidence of all edges between its nodes, each item once, in the order of first mention. */
  lemma {:induction false} MergedEvidence(edges: seq<Edge>, n: nat)
    requires CitesOnce(edges) && n < |Deduplicated(edges)|
    ensures Deduplicated(edges)[n].1 == FirstOccurrences(AllCited(edges, Deduplicated(edges)[n].0))
    decreases |edges|
  {
    hide NoDuplicates;
    hide Put;
    if edges != [] {
      var init, last := edges[..|edges| - 1], edges[|edges| - 1];
      var d, r := Deduplicated(init), Deduplicated(edges);
      InitCitesOnce(edges);
      MergedKeys(init);
      var cited := if last.0 in Keys(d) then FirstOccurrences(CitedAt(d, last.0) + last.1) else last.1;
      PutOther<Key, seq<string>>(d, last.0, cited, n);
      if r[n].0 == last.0 {
        if last.0 in Keys(d) {
          var m := IndexOf(d, last.0);
          MergedEvidence(init, m);
          CitedAtItem(d, m);
          FirstOccurrencesAbsorb(AllCited(init, last.0), last.1);
        } else {
          NewKey(init, last.0);
          assert AllCited(edges, last.0) == last.1;
          FirstOccurrencesOfDistinct(last.1);
        }
      } else {
        MergedEvidence(init, n);
        assert AllCited(edges, r[n].0) == AllCited(init, r[n].0);
      }
    }
  }

  lemma InitCitesOnce(edges: seq<Edge>)
    requires edges != [] && CitesOnce(edges)
    ensures CitesOnce(edges[..|edges| - 1]) && NoDuplicates(edges[|edges| - 1].1)
  {}

  lemma NewKey(edges: seq<Edge>, k: Key)
    requires k !in Keys(Deduplicated(edges))
    ensures AllCited(edges, k) == []
  {
    hide NoDuplicates;
    MergedKeys(edges);
    FirstOccurrencesMembers(Keys(edges), k);
    CitedOnlyByKeys(edges, k);
  }

  // ---------------------------------------------------------------- algebra

  /** A chain without repeated pairs is left as it is. */
  lemma {:induction false} DistinctUnchanged(edges: seq<Edge>)
    requires NoDuplicates(Keys(edges))
    ensures Deduplicated(edges) == edges
  {
    if edges != [] {
      var init, last := edges[..|edges| - 1], edges[|edges| - 1];
      assert edges == init + [last];
      KeysSnoc<Key, seq<string>>(edges);
      DistinctSnoc(Keys(init), last.0);
      DistinctUnchanged(init);
    }
  }

  /** Merging may be done in stages: what was merged before can be merged again with what follows. */
  lemma {:induction false} MergingInStages(xs: seq<Edge>, ys: seq<Edge>)
    ensures Deduplicated(Deduplicated(xs) + ys) == Deduplicated(xs + ys)
  {
    hide Merge;
    if ys == [] {
      assert xs + ys == xs && Deduplicated(xs) + ys == Deduplicated(xs);
      MergedKeys(xs);
      DistinctUnchanged(Deduplicated(xs));
    } else {
      var init, last := ys[..|ys| - 1], ys[|ys| - 1];
      MergingInStages(xs, init);
      assert (xs + ys)[..|xs + ys| - 1] == xs + init;
      var all := Deduplicated(xs) + ys;
      assert all[..|all| - 1] == Deduplicated(xs) + init;
    }
  }

  /** Merging twice is merging once. */
  lemma MergingTwice(edges: seq<Edge>)
    ensures Deduplicated(Deduplicated(edges)) == Deduplicated(edges)
  {
    MergedKeys(edges);
    DistinctUnchanged(Deduplicated(edges));
  }
}
