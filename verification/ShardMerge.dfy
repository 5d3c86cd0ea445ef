/** Merging benchmark shards: a later shard replaces the runs of an earlier one. */
module ShardMerge {
  import opened Outcomes
  import opened OrderedDict
  import opened Sorting
  import opened Counting

  /** A run; `payload` is everything else that is recorded of it. */
  datatype Run = Run(id: string, scenario: string, payload: string)

  /** What must agree between shards, and the time stamp, which need not. */
  datatype Metadata = Metadata(common: string, timestamp: int)

  /** A shard as it was loaded: it has runs, with distinct identifiers. */
  datatype Shard = Shard(path: string, metadata: Metadata, runs: seq<Run>) {
    predicate Valid() {
      runs != [] && forall i, j :: 0 <= i < j < |runs| ==> runs[i].id != runs[j].id
    }
  }

  /** A run and the path it was read from. */
  type Entry = (string, Run)

  function EntriesOf(path: string, runs: seq<Run>): (r: seq<Entry>)
    ensures |r| == |runs| && forall i :: 0 <= i < |r| ==> r[i] == (path, runs[i])
  {
    seq(|runs|, i requires 0 <= i < |runs| => (path, runs[i]))
  }

  /** All runs of all shards, in argument order. */
  function Entries(shards: seq<Shard>): seq<Entry> {
    if shards == [] then []
    else Entries(shards[..|shards| - 1]) + EntriesOf(shards[|shards| - 1].path, shards[|shards| - 1].runs)
  }

  // ---------------------------------------------------------------- what the loop computes

  function RunPairs(entries: seq<Entry>): (r: seq<(string, Run)>)
    ensures |r| == |entries| && forall i :: 0 <= i < |r| ==> r[i] == (entries[i].1.id, entries[i].1)
  {
    seq(|entries|, i requires 0 <= i < |entries| => (entries[i].1.id, entries[i].1))
  }

  function SourcePairs(entries: seq<Entry>): (r: seq<(string, string)>)
    ensures |r| == |entries| && forall i :: 0 <= i < |r| ==> r[i] == (entries[i].1.id, entries[i].0)
  {
    seq(|entries|, i requires 0 <= i < |entries| => (entries[i].1.id, entries[i].0))
  }

  function RunsOf(entries: seq<Entry>): Items<string, Run> { FromPairs(RunPairs(entries)) }

  function SourcesOf(entries: seq<Entry>): Items<string, string> { FromPairs(SourcePairs(entries)) }

  function Ids(entries: seq<Entry>): (r: seq<string>)
    ensures |r| == |entries| && forall i :: 0 <= i < |r| ==> r[i] == entries[i].1.id
  {
    seq(|entries|, i requires 0 <= i < |entries| => entries[i].1.id)
  }

  /** The identifiers that were met again. */
  function Replaced(entries: seq<Entry>): seq<string> {
    if entries == [] then []
    else
      var init, last := entries[..|entries| - 1], entries[|entries| - 1].1.id;
      Replaced(init) + if last in Ids(init) then [last] else []
  }

  /** All versions of a run belong to one scenario. */
  ghost predicate Consistent(entries: seq<Entry>) {
    forall i, j :: 0 <= i < j < |entries| && entries[i].1.id == entries[j].1.id ==> entries[i].1.scenario == entries[j].1.scenario
  }

  datatype Union = Union(runs: Items<string, Run>, sources: Items<string, string>, replaced: seq<string>)

  function UnionOf(entries: seq<Entry>): Union { Union(RunsOf(entries), SourcesOf(entries), Replaced(entries)) }

  /** One run more; nothing when an earlier version belongs to another scenario. */
  function Add(u: Union, e: Entry): Option<Union> {
    var i := IndexOf(u.runs, e.1.id);
    if i < |u.runs| && u.runs[i].1.scenario != e.1.scenario then None
    else Some(Union(Put(u.runs, e.1.id, e.1), Put(u.sources, e.1.id, e.0), u.replaced + if i < |u.runs| then [e.1.id] else []))
  }

  method Unite(shards: seq<Shard>) returns (u: Option<Union>)
    ensures u == if Consistent(Entries(shards)) then Some(UnionOf(Entries(shards))) else None
  {
    hide Add;
    hide UnionOf;
    u := Some(Union([], [], []));
    NothingUnited();
    for k := 0 to |shards|
      invariant Consistent(Entries(shards[..k])) && u == Some(UnionOf(Entries(shards[..k])))
    {
      var before := Entries(shards[..k]);
      var more := EntriesOf(shards[k].path, shards[k].runs);
      assert shards[..k + 1][..k] == shards[..k];
      assert before + more[..0] == before;
      for j := 0 to |shards[k].runs|
        invariant Consistent(before + more[..j]) && u == Some(UnionOf(before + more[..j]))
      {
        assert before + more[..j + 1] == before + more[..j] + [more[j]];
        AddEntry(before + more[..j], more[j]);
        u := Add(u.value, (shards[k].path, shards[k].runs[j]));
        if u.None? {
          Later(shards, k, j);
          return None;
        }
      }
      assert before + more[..|more|] == before + more;
    }
    assert shards[..|shards|] == shards;
  }

  lemma NothingUnited()
    ensures UnionOf([]) == Union([], [], []) && Consistent([])
  {
    assert RunPairs([]) == [] && SourcePairs([]) == [];
  }

  /** What an early part makes inconsistent stays so. */
  lemma Later(shards: seq<Shard>, k: nat, j: nat)
    requires k < |shards| && j < |shards[k].runs|
    ensures Consistent(Entries(shards)) ==>
              Consistent(Entries(shards[..k]) + EntriesOf(shards[k].path, shards[k].runs)[..j + 1])
  {
    var more := EntriesOf(shards[k].path, shards[k].runs);
    EntriesGrow(shards, k + 1);
    assert shards[..k + 1][..k] == shards[..k];
    ConsistentPrefix(Entries(shards[..k]) + more[..j + 1], Entries(shards));
  }

  lemma {:induction false} EntriesGrow(shards: seq<Shard>, k: nat)
    requires k <= |shards|
    ensures Entries(shards[..k]) <= Entries(shards)
    decreases |shards|
  {
    if k < |shards| {
      EntriesGrow(shards[..|shards| - 1], k);
      assert shards[..|shards| - 1][..k] == shards[..k];
    } else {
      assert shards[..k] == shards;
    }
  }

  lemma ConsistentPrefix(a: seq<Entry>, b: seq<Entry>)
    requires a <= b
    ensures Consistent(b) ==> Consistent(a)
  {}

  // ---------------------------------------------------------------- one entry

  lemma KeysAreIds(entries: seq<Entry>)
    ensures Keys(RunPairs(entries)) == Ids(entries) && Keys(SourcePairs(entries)) == Ids(entries)
  {}

  /** The identifiers of the union are those of the entries, each once, the same in both dictionaries. */
  lemma UnionKeys(entries: seq<Entry>)
    ensures Keys(RunsOf(entries)) == FirstOccurrences(Ids(entries)) && Keys(SourcesOf(entries)) == FirstOccurrences(Ids(entries))
    ensures NoDuplicates(Keys(RunsOf(entries))) && |RunsOf(entries)| == |SourcesOf(entries)|
  {
    hide NoDuplicates;
    KeysAreIds(entries);
    FromPairsKeys(RunPairs(entries));
    FromPairsKeys(SourcePairs(entries));
    assert |Keys(RunsOf(entries))| == |Keys(SourcesOf(entries))|;
  }

  /** Entry i is the last version of its run. */
  ghost predicate LastVersion(entries: seq<Entry>, i: nat) {
    i < |entries| && forall j :: i < j < |entries| ==> entries[j].1.id != entries[i].1.id
  }

  /** Item n of the union is the last version of its run, with the path it was read from. */
  lemma ItemIsLast(entries: seq<Entry>, n: nat) returns (i: nat)
    requires n < |RunsOf(entries)|
    ensures |SourcesOf(entries)| == |RunsOf(entries)|
    ensures LastVersion(entries, i) && RunsOf(entries)[n] == (entries[i].1.id, entries[i].1)
    ensures SourcesOf(entries)[n] == (entries[i].1.id, entries[i].0)
  {
    hide FromPairs;
    UnionKeys(entries);
    i := FromPairsValues(RunPairs(entries), n);
    var j := FromPairsValues(SourcePairs(entries), n);
    assert Keys(RunsOf(entries))[n] == Keys(SourcesOf(entries))[n];
    assert RunPairs(entries)[i].0 == SourcePairs(entries)[j].0;
    assert RunPairs(entries)[i] == (entries[i].1.id, entries[i].1) && SourcePairs(entries)[j] == (entries[j].1.id, entries[j].0);
    assert i == j;
    forall m | i < m < |entries| ensures entries[m].1.id != entries[i].1.id {
      assert RunPairs(entries)[m].0 == entries[m].1.id;
    }
  }

  lemma PairsSnoc(entries: seq<Entry>, e: Entry)
    ensures RunsOf(entries + [e]) == Put(RunsOf(entries), e.1.id, e.1)
    ensures SourcesOf(entries + [e]) == Put(SourcesOf(entries), e.1.id, e.0)
    ensures Replaced(entries + [e]) == Replaced(entries) + if e.1.id in Ids(entries) then [e.1.id] else []
  {
    hide Put;
    var all := entries + [e];
    assert all[..|entries|] == entries;
    assert RunPairs(all)[..|entries|] == RunPairs(entries);
    assert SourcePairs(all)[..|entries|] == SourcePairs(entries);
  }

  /** Comparing with the latest version compares with all. */
  lemma ConsistentSnoc(entries: seq<Entry>, e: Entry)
    requires Consistent(entries)
    ensures var d := RunsOf(entries);
            var i := IndexOf(d, e.1.id);
            && (i < |d| <==> e.1.id in Ids(entries))
            && (Consistent(entries + [e]) <==> i == |d| || d[i].1.scenario == e.1.scenario)
  {
    hide FromPairs;
    var d := RunsOf(entries);
    var i := IndexOf(d, e.1.id);
    UnionKeys(entries);
    FirstOccurrencesMembers(Ids(entries), e.1.id);
    var all := entries + [e];
    if i < |d| {
      var n := ItemIsLast(entries, i);
      SameScenario(entries, e, n);
    } else {
      forall m | 0 <= m < |entries| ensures entries[m].1.id != e.1.id {
        assert Ids(entries)[m] == entries[m].1.id;
      }
    }
  }

  lemma SameScenario(entries: seq<Entry>, e: Entry, n: nat)
    requires Consistent(entries) && n < |entries| && entries[n].1.id == e.1.id
    ensures Consistent(entries + [e]) <==> entries[n].1.scenario == e.1.scenario
  {
    var all := entries + [e];
    if Consistent(all) {
      assert all[n] == entries[n] && all[|entries|] == e;
    }
    if entries[n].1.scenario == e.1.scenario {
      forall i, j | 0 <= i < j < |all| && all[i].1.id == all[j].1.id ensures all[i].1.scenario == all[j].1.scenario {
        if j == |entries| {
          assert i < n ==> entries[i].1.scenario == entries[n].1.scenario;
          assert n < i ==> entries[n].1.scenario == entries[i].1.scenario;
        }
      }
    }
  }

  lemma AddEntry(entries: seq<Entry>, e: Entry)
    requires Consistent(entries)
    ensures Add(UnionOf(entries), e) == if Consistent(entries + [e]) then Some(UnionOf(entries + [e])) else None
  {
    hide Consistent;
    hide Put;
    hide RunsOf;
    hide SourcesOf;
    hide Replaced;
    ConsistentSnoc(entries, e);
    PairsSnoc(entries, e);
  }
}
