/** The merged benchmark: its order, its shape and where its runs come from. */
module ShardResults {
  import opened Outcomes
  import opened OrderedDict
  import opened Sorting
  import opened Counting
  import opened ShardMerge

  function Values(d: Items<string, Run>): (r: seq<Run>)
    ensures |r| == |d| && forall i :: 0 <= i < |d| ==> r[i] == d[i].1
  {
    seq(|d|, i requires 0 <= i < |d| => d[i].1)
  }

  /** By scenario, then by run. */
  predicate RunLe(a: Run, b: Run) {
    if a.scenario == b.scenario then StringLe(a.id, b.id) else StringLe(a.scenario, b.scenario)
  }

  function Scenarios(runs: seq<Run>): (r: seq<string>)
    ensures |r| == |runs| && forall i :: 0 <= i < |r| ==> r[i] == runs[i].scenario
  {
    seq(|runs|, i requires 0 <= i < |runs| => runs[i].scenario)
  }

  predicate ShapeFits(runs: seq<Run>, required: int, each: int) {
    && |runs| == required
    && var counts := CounterOf(Scenarios(runs)); forall i :: 0 <= i < |counts| ==> counts[i].1 == each
  }

  predicate SameMetadata(shards: seq<Shard>) {
    forall k :: 0 < k < |shards| ==> shards[k].metadata.common == shards[0].metadata.common
  }

  function Latest(shards: seq<Shard>): (t: int)
    requires shards != []
    ensures forall k :: 0 <= k < |shards| ==> shards[k].metadata.timestamp <= t
    ensures exists k :: 0 <= k < |shards| && shards[k].metadata.timestamp == t
  {
    var last := shards[|shards| - 1].metadata.timestamp;
    if |shards| == 1 then last
    else
      var before := Latest(shards[..|shards| - 1]);
      if before >= last then before else last
  }

  /** The runs that were taken from this path. */
  function Selected(sources: Items<string, string>, path: string): nat {
    if sources == [] then 0 else Selected(sources[..|sources| - 1], path) + if sources[|sources| - 1].1 == path then 1 else 0
  }

  function SelectedCounts(sources: Items<string, string>, shards: seq<Shard>): (r: seq<nat>)
    ensures |r| == |shards| && forall k :: 0 <= k < |r| ==> r[k] == Selected(sources, shards[k].path)
  {
    seq(|shards|, k requires 0 <= k < |shards| => Selected(sources, shards[k].path))
  }

  datatype Merged = Merged(metadata: Metadata, runs: seq<Run>, replaced: seq<string>, selected: seq<nat>)

  function MergedRuns(entries: seq<Entry>): seq<Run> { Sort(RunLe, Values(RunsOf(entries))) }

  /** The merged benchmark and its provenance, or nothing when merging raises. */
  method Merge(shards: seq<Shard>, outputExists: bool, required: int, each: int) returns (m: Option<Merged>)
    ensures m.Some? <==> |shards| >= 2 && !outputExists && SameMetadata(shards) && Consistent(Entries(shards))
                         && ShapeFits(MergedRuns(Entries(shards)), required, each)
    ensures m.Some? ==>
              var entries := Entries(shards);
              m.value == Merged(Metadata(shards[0].metadata.common, Latest(shards)), MergedRuns(entries),
                                Sort(StringLe, FirstOccurrences(Replaced(entries))), SelectedCounts(SourcesOf(entries), shards))
  {
    if |shards| < 2 || outputExists || !SameMetadata(shards) { return None; }
    var united := Unite(shards);
    if united.None? { return None; }
    var u := united.value;
    var runs := Sort(RunLe, Values(u.runs));
    if !ShapeFits(runs, required, each) { return None; }
    m := Some(Merged(Metadata(shards[0].metadata.common, Latest(shards)), runs,
                     Sort(StringLe, FirstOccurrences(u.replaced)), SelectedCounts(u.sources, shards)));
  }

  // ---------------------------------------------------------------- which runs, in which order

  lemma RunOrder()
    ensures IsPreorder(RunLe)
  {
    forall a, b ensures RunLe(a, b) || RunLe(b, a) {
      StringLeTotal(a.id, b.id);
      StringLeTotal(a.scenario, b.scenario);
    }
    forall a, b, c | RunLe(a, b) && RunLe(b, c) ensures RunLe(a, c) {
      RunLeTransitive(a, b, c);
    }
  }

  lemma RunLeTransitive(a: Run, b: Run, c: Run)
    requires RunLe(a, b) && RunLe(b, c)
    ensures RunLe(a, c)
  {
    if a.scenario == b.scenario && b.scenario == c.scenario {
      StringLeTransitive(a.id, b.id, c.id);
    } else if a.scenario != b.scenario && b.scenario != c.scenario {
      StringLeTransitive(a.scenario, b.scenario, c.scenario);
      if a.scenario == c.scenario { StringLeAntisymmetric(a.scenario, b.scenario); }
    }
  }

  lemma RunLeSeparates(a: Run, b: Run)
    requires RunLe(a, b) && RunLe(b, a)
    ensures a.id == b.id && a.scenario == b.scenario
  {
    if a.scenario == b.scenario { StringLeAntisymmetric(a.id, b.id); } else { StringLeAntisymmetric(a.scenario, b.scenario); }
  }

  ghost predicate IdsDistinct(runs: seq<Run>) {
    forall i, j :: 0 <= i < |runs| && 0 <= j < |runs| && runs[i].id == runs[j].id ==> i == j
  }

  lemma ValuesDistinct(entries: seq<Entry>)
    ensures IdsDistinct(Values(RunsOf(entries)))
    ensures forall n :: 0 <= n < |RunsOf(entries)| ==> RunsOf(entries)[n].0 == RunsOf(entries)[n].1.id
  {
    hide RunsOf;
    var d := RunsOf(entries);
    UnionKeys(entries);
    forall n | 0 <= n < |d| ensures d[n].0 == d[n].1.id {
      var i := ItemIsLast(entries, n);
    }
    forall i, j | 0 <= i < |d| && 0 <= j < |d| && Values(d)[i].id == Values(d)[j].id ensures i == j {
      assert Keys(d)[i] == d[i].1.id && Keys(d)[j] == d[j].1.id;
    }
  }

  /**
   The merged runs are the right-biased union: a run is among them exactly when it is the last version
   under its identifier, in argument order; one version of every identifier is kept.
   */
  lemma MergedIsRightBiased(entries: seq<Entry>, run: Run)
    ensures run in MergedRuns(entries) <==> exists i: nat :: LastVersion(entries, i) && entries[i].1 == run
  {
    hide RunsOf;
    var d := RunsOf(entries);
    SortKeeps(RunLe, Values(d));
    SameElements(MergedRuns(entries), Values(d), run);
    if run in Values(d) {
      var n :| 0 <= n < |d| && Values(d)[n] == run;
      var i := ItemIsLast(entries, n);
    }
    if i: nat :| LastVersion(entries, i) && entries[i].1 == run {
      LastVersionKept(entries, i);
    }
  }

  /** The last version of a run is kept in both dictionaries, at the same place. */
  lemma KeptAt(entries: seq<Entry>, i: nat) returns (n: nat)
    requires LastVersion(entries, i)
    ensures n < |RunsOf(entries)| == |SourcesOf(entries)|
    ensures RunsOf(entries)[n].1 == entries[i].1 && SourcesOf(entries)[n].1 == entries[i].0
  {
    hide RunsOf;
    hide SourcesOf;
    var d := RunsOf(entries);
    UnionKeys(entries);
    FirstOccurrencesMembers(Ids(entries), entries[i].1.id);
    assert Ids(entries)[i] == entries[i].1.id;
    n :| 0 <= n < |Keys(d)| && Keys(d)[n] == entries[i].1.id;
    var j := ItemIsLast(entries, n);
    assert i == j;
  }

  lemma LastVersionKept(entries: seq<Entry>, i: nat)
    requires LastVersion(entries, i)
    ensures entries[i].1 in Values(RunsOf(entries))
  {
    var n := KeptAt(entries, i);
    assert Values(RunsOf(entries))[n] == entries[i].1;
  }

  /** Their source is the path of the last shard that has them. */
  lemma SourceIsLastShard(entries: seq<Entry>, n: nat)
    requires n < |RunsOf(entries)|
    ensures |SourcesOf(entries)| == |RunsOf(entries)|
    ensures exists i: nat :: LastVersion(entries, i) && entries[i] == (SourcesOf(entries)[n].1, RunsOf(entries)[n].1)
  {
    var i := ItemIsLast(entries, n);
    assert entries[i] == (SourcesOf(entries)[n].1, RunsOf(entries)[n].1);
  }

  /** The provenance names exactly the runs of which there was an earlier version. */
  lemma {:induction false} ReplacedExactly(entries: seq<Entry>, id: string)
    ensures id in Replaced(entries) <==>
              exists i, j :: 0 <= i < j < |entries| && entries[i].1.id == id && entries[j].1.id == id
  {
    if entries != [] {
      var init, last := entries[..|entries| - 1], entries[|entries| - 1];
      ReplacedExactly(init, id);
      if id in Replaced(init) {
        var i, j :| 0 <= i < j < |init| && init[i].1.id == id && init[j].1.id == id;
        assert entries[i].1.id == id && entries[j].1.id == id;
      }
      if last.1.id == id && id in Ids(init) {
        var i :| 0 <= i < |init| && Ids(init)[i] == id;
        assert entries[i].1.id == id && entries[|init|].1.id == id;
      }
      if i, j :| 0 <= i < j < |entries| && entries[i].1.id == id && entries[j].1.id == id {
        assert Ids(init)[i] == id;
        assert j < |init| ==> init[i].1.id == id && init[j].1.id == id;
      }
    }
  }

  lemma SortedIdsDistinct(runs: seq<Run>)
    requires IdsDistinct(runs)
    ensures IdsDistinct(Sort(RunLe, runs))
  {
    var r := Sort(RunLe, runs);
    SortKeeps(RunLe, runs);
    forall i, j | 0 <= i < |r| && 0 <= j < |r| && r[i].id == r[j].id ensures i == j {
      assert r[i] in multiset(r) && r[j] in multiset(r);
      OnlyOne(runs, r[i], r[j]);
      CountAtMostOne(runs, r[i]);
      if i < j { RepeatsCount(r, i, j); }
      if j < i { RepeatsCount(r, j, i); }
    }
  }

  lemma OnlyOne(runs: seq<Run>, x: Run, y: Run)
    requires IdsDistinct(runs) && x.id == y.id
    ensures x in multiset(runs) && y in multiset(runs) ==> x == y
  {}

  lemma {:induction false} CountAtMostOne(runs: seq<Run>, x: Run)
    requires IdsDistinct(runs)
    ensures multiset(runs)[x] <= 1
  {
    if runs != [] {
      var init, last := runs[..|runs| - 1], runs[|runs| - 1];
      CountAtMostOne(init, x);
      assert runs == init + [last];
      if x == last {
        forall i | 0 <= i < |init| ensures init[i] != x { assert runs[i].id != runs[|init|].id; }
      }
    }
  }

  /** The merged benchmark is strictly ordered by scenario and run, so no identifier occurs twice. */
  lemma MergedIsOrdered(entries: seq<Entry>)
    ensures Ordered(RunLe, MergedRuns(entries)) && IdsDistinct(MergedRuns(entries))
    ensures |MergedRuns(entries)| == |FirstOccurrences(Ids(entries))|
  {
    hide IsPreorder;
    hide Ordered;
    hide IdsDistinct;
    RunOrder();
    SortOrders(RunLe, Values(RunsOf(entries)));
    SortKeeps(RunLe, Values(RunsOf(entries)));
    ValuesDistinct(entries);
    SortedIdsDistinct(Values(RunsOf(entries)));
    UnionKeys(entries);
  }

  /** When no run occurs in two shards, the order of the shards does not matter. */
  lemma DisjointShardsCommute(a: seq<Entry>, b: seq<Entry>)
    requires NoDuplicates(Ids(a)) && NoDuplicates(Ids(b)) && multiset(a) == multiset(b)
    ensures MergedRuns(a) == MergedRuns(b)
  {
    hide NoDuplicates;
    hide IsPreorder;
    hide Separates;
    RunOrder();
    AllKept(a);
    AllKept(b);
    SameRuns(a, b);
    ValuesDistinct(a);
    ValuesSeparate(Values(RunsOf(a)));
    SortIgnoresOrder(RunLe, Values(RunsOf(a)), Values(RunsOf(b)));
  }

  function RunList(entries: seq<Entry>): (r: seq<Run>)
    ensures |r| == |entries| && forall i :: 0 <= i < |r| ==> r[i] == entries[i].1
  {
    seq(|entries|, i requires 0 <= i < |entries| => entries[i].1)
  }

  lemma {:induction false} AllKept(entries: seq<Entry>)
    requires NoDuplicates(Ids(entries))
    ensures Values(RunsOf(entries)) == RunList(entries)
  {
    hide NoDuplicates;
    hide Put;
    if entries == [] {
      assert RunPairs(entries) == [];
    } else {
      var init, last := entries[..|entries| - 1], entries[|entries| - 1];
      assert entries == init + [last];
      assert Ids(entries) == Ids(init) + [last.1.id];
      DistinctSnoc(Ids(init), last.1.id);
      AllKept(init);
      PairsSnoc(init, last);
      UnionKeys(init);
      FirstOccurrencesMembers(Ids(init), last.1.id);
      PutFresh(RunsOf(init), last.1.id, last.1);
    }
  }

  lemma {:induction false} CountRuns(entries: seq<Entry>, x: Entry)
    requires NoDuplicates(Ids(entries))
    ensures x in entries ==> multiset(RunList(entries))[x.1] == 1
    ensures (forall e :: e in entries ==> e.1 != x.1) ==> multiset(RunList(entries))[x.1] == 0
  {
    hide NoDuplicates;
    if entries != [] {
      var init, last := entries[..|entries| - 1], entries[|entries| - 1];
      assert entries == init + [last];
      assert Ids(entries) == Ids(init) + [last.1.id];
      DistinctSnoc(Ids(init), last.1.id);
      CountRuns(init, x);
      CountRuns(init, last);
      assert RunList(entries) == RunList(init) + [last.1];
      forall e | e in init ensures e.1 != last.1 {
        var i :| 0 <= i < |init| && init[i] == e;
        assert Ids(init)[i] == e.1.id;
      }
      assert last in entries && (forall e :: e in init ==> e in entries);
    }
  }

  lemma SameRuns(a: seq<Entry>, b: seq<Entry>)
    requires NoDuplicates(Ids(a)) && NoDuplicates(Ids(b)) && multiset(a) == multiset(b)
    ensures multiset(RunList(a)) == multiset(RunList(b))
  {
    hide NoDuplicates;
    forall run: Run ensures multiset(RunList(a))[run] == multiset(RunList(b))[run] {
      if e :| e in a && e.1 == run {
        SameElements(a, b, e);
        CountRuns(a, e);
        CountRuns(b, e);
      } else {
        forall e | e in b ensures e.1 != run { SameElements(a, b, e); }
        CountRuns(a, ("", run));
        CountRuns(b, ("", run));
      }
    }
  }

  lemma ValuesSeparate(runs: seq<Run>)
    requires IdsDistinct(runs)
    ensures Separates(RunLe, multiset(runs))
  {
    forall x, y | x in multiset(runs) && y in multiset(runs) && RunLe(x, y) && RunLe(y, x) ensures x == y {
      RunLeSeparates(x, y);
      OnlyOne(runs, x, y);
    }
  }

  // ---------------------------------------------------------------- counts

  function Total(counts: seq<nat>): nat {
    if counts == [] then 0 else Total(counts[..|counts| - 1]) + counts[|counts| - 1]
  }

  function Listed(shards: seq<Shard>, path: string): nat {
    if shards == [] then 0 else Listed(shards[..|shards| - 1], path) + if shards[|shards| - 1].path == path then 1 else 0
  }

  lemma {:induction false} NothingSelected(shards: seq<Shard>)
    ensures Total(SelectedCounts([], shards)) == 0
  {
    if shards != [] {
      NothingSelected(shards[..|shards| - 1]);
      assert SelectedCounts([], shards)[..|shards| - 1] == SelectedCounts([], shards[..|shards| - 1]);
    }
  }

  lemma {:induction false} OneMoreSelected(init: Items<string, string>, last: (string, string), shards: seq<Shard>)
    ensures Total(SelectedCounts(init + [last], shards)) == Total(SelectedCounts(init, shards)) + Listed(shards, last.1)
  {
    if shards != [] {
      var front := shards[..|shards| - 1];
      OneMoreSelected(init, last, front);
      assert SelectedCounts(init + [last], shards)[..|front|] == SelectedCounts(init + [last], front);
      assert SelectedCounts(init, shards)[..|front|] == SelectedCounts(init, front);
      assert (init + [last])[..|init|] == init;
    }
  }

  /** Every run's source is listed at least once; the counts add up exactly when none is listed twice. */
  lemma {:induction false} CountsAddUp(sources: Items<string, string>, shards: seq<Shard>)
    requires forall n :: 0 <= n < |sources| ==> Listed(shards, sources[n].1) >= 1
    ensures Total(SelectedCounts(sources, shards)) >= |sources|
    ensures Total(SelectedCounts(sources, shards)) == |sources| <==>
              forall n :: 0 <= n < |sources| ==> Listed(shards, sources[n].1) == 1
  {
    if sources == [] {
      NothingSelected(shards);
    } else {
      var init, last := sources[..|sources| - 1], sources[|sources| - 1];
      CountsAddUp(init, shards);
      assert sources == init + [last];
      OneMoreSelected(init, last, shards);
    }
  }

  lemma {:induction false} EntryIsListed(shards: seq<Shard>, i: nat)
    requires i < |Entries(shards)|
    ensures Listed(shards, Entries(shards)[i].0) >= 1
  {
    var front := shards[..|shards| - 1];
    if i < |Entries(front)| {
      EntryIsListed(front, i);
    }
  }

  lemma SourcesAreLastVersions(entries: seq<Entry>, shards: seq<Shard>)
    ensures (forall n :: 0 <= n < |SourcesOf(entries)| ==> Listed(shards, SourcesOf(entries)[n].1) == 1) <==>
            (forall i: nat :: LastVersion(entries, i) ==> Listed(shards, entries[i].0) == 1)
  {
    hide RunsOf;
    hide SourcesOf;
    UnionKeys(entries);
    if forall n :: 0 <= n < |SourcesOf(entries)| ==> Listed(shards, SourcesOf(entries)[n].1) == 1 {
      forall i: nat | LastVersion(entries, i) ensures Listed(shards, entries[i].0) == 1 {
        var n := KeptAt(entries, i);
      }
    }
    if forall i: nat :: LastVersion(entries, i) ==> Listed(shards, entries[i].0) == 1 {
      forall n | 0 <= n < |SourcesOf(entries)| ensures Listed(shards, SourcesOf(entries)[n].1) == 1 {
        var i := ItemIsLast(entries, n);
      }
    }
  }

  /**
   The selected counts of the shards add up to the number of merged runs exactly when no path that
   gave the last version of a run was given twice.
   */
  lemma SelectedPartition(shards: seq<Shard>)
    ensures var entries := Entries(shards);
            Total(SelectedCounts(SourcesOf(entries), shards)) == |MergedRuns(entries)| <==>
            forall i: nat :: LastVersion(entries, i) ==> Listed(shards, entries[i].0) == 1
  {
    hide RunsOf;
    hide SourcesOf;
    var entries := Entries(shards);
    UnionKeys(entries);
    SortKeeps(RunLe, Values(RunsOf(entries)));
    forall n | 0 <= n < |SourcesOf(entries)| ensures Listed(shards, SourcesOf(entries)[n].1) >= 1 {
      var i := ItemIsLast(entries, n);
      EntryIsListed(shards, i);
    }
    CountsAddUp(SourcesOf(entries), shards);
    SourcesAreLastVersions(entries, shards);
  }

  lemma {:induction false} ListedOnce(shards: seq<Shard>, path: string)
    requires forall j, k :: 0 <= j < k < |shards| ==> shards[j].path != shards[k].path
    ensures Listed(shards, path) <= 1
    ensures (forall k :: 0 <= k < |shards| ==> shards[k].path != path) ==> Listed(shards, path) == 0
  {
    if shards != [] {
      ListedOnce(shards[..|shards| - 1], path);
    }
  }

  /** With distinct paths the selected counts partition the merged runs. */
  lemma DistinctPathsPartition(shards: seq<Shard>)
    requires forall j, k :: 0 <= j < k < |shards| ==> shards[j].path != shards[k].path
    ensures Total(SelectedCounts(SourcesOf(Entries(shards)), shards)) == |MergedRuns(Entries(shards))|
  {
    hide MergedRuns;
    hide SelectedCounts;
    SelectedPartition(shards);
    forall i: nat | LastVersion(Entries(shards), i) ensures Listed(shards, Entries(shards)[i].0) == 1 {
      ListedOnce(shards, Entries(shards)[i].0);
      EntryIsListed(shards, i);
    }
  }

  /** It can happen: one file given twice is accepted, and its one run is counted twice. */
  lemma PathGivenTwice(metadata: Metadata)
    ensures var shard := Shard("a.json", metadata, [Run("r", "s", "")]);
            var shards := [shard, shard];
            && SameMetadata(shards) && Consistent(Entries(shards)) && ShapeFits(MergedRuns(Entries(shards)), 1, 1)
            && Total(SelectedCounts(SourcesOf(Entries(shards)), shards)) != |MergedRuns(Entries(shards))|
  {
    var run := Run("r", "s", "");
    var shard := Shard("a.json", metadata, [run]);
    var shards := [shard, shard];
    var entries := Entries(shards);
    assert shards[..1] == [shard] && [shard][..0] == [];
    assert Entries([shard]) == [("a.json", run)];
    assert entries == [("a.json", run), ("a.json", run)];
    assert LastVersion(entries, 1) && entries[1].0 == "a.json";
    ListedTwice(shard);
    SelectedPartition(shards);
    OneRun(entries, run);
  }

  lemma ListedTwice(shard: Shard)
    ensures Listed([shard, shard], shard.path) == 2
  {
    assert [shard, shard][..1] == [shard] && [shard][..0] == [];
    assert Listed([], shard.path) == 0;
    assert Listed([shard], shard.path) == 1;
  }

  lemma OneRun(entries: seq<Entry>, run: Run)
    requires |entries| == 2 && entries[0].1 == run && entries[1].1 == run
    ensures ShapeFits(MergedRuns(entries), 1, 1)
  {
    var runs := MergedRuns(entries);
    assert Ids(entries) == [run.id, run.id] && [run.id, run.id][..1] == [run.id] && [run.id][..0] == [];
    MergedIsOrdered(entries);
    assert FirstOccurrences([run.id]) == [run.id];
    MergedIsRightBiased(entries, runs[0]);
    assert runs == [run] && Scenarios(runs) == [run.scenario];
    ShapeMeans(runs, 1, 1);
  }

  lemma {:induction false} SumOfEqual(d: Items<string, nat>, each: nat)
    requires forall i :: 0 <= i < |d| ==> d[i].1 == each
    ensures Sum(d) == |d| * each
  {
    if d == [] {
      assert 0 * each == 0;
    } else {
      SumOfEqual(d[1..], each);
      assert |d| * each == (|d| - 1) * each + each;
    }
  }

  /** The shape is accepted exactly when every scenario that occurs has the same given number of runs; their product is required. */
  lemma ShapeMeans(runs: seq<Run>, required: int, each: int)
    requires runs != []
    ensures ShapeFits(runs, required, each) <==>
              |runs| == required && forall i :: 0 <= i < |runs| ==> multiset(Scenarios(runs))[runs[i].scenario] == each
    ensures ShapeFits(runs, required, each) ==>
              each >= 1 && required == |FirstOccurrences(Scenarios(runs))| * each
  {
    var names := Scenarios(runs);
    var counts := CounterOf(names);
    CounterCountsAll(names);
    if ShapeFits(runs, required, each) {
      forall i | 0 <= i < |runs| ensures multiset(names)[runs[i].scenario] == each {
        assert names[i] == runs[i].scenario && names[i] in Keys(counts);
        CounterCountsEach(names, names[i]);
        assert counts[IndexOf(counts, names[i])].1 == each;
      }
      assert multiset(names)[names[0]] >= 1;
      SumOfEqual(counts, each);
      CounterKeys(names);
    }
    if forall i :: 0 <= i < |runs| ==> multiset(names)[runs[i].scenario] == each {
      forall n | 0 <= n < |counts| ensures counts[n].1 == each {
        assert Keys(counts)[n] in names;
        var i :| 0 <= i < |names| && names[i] == counts[n].0;
        GetItem(counts, counts[n]);
        CounterCountsEach(names, names[i]);
      }
    }
  }
}
