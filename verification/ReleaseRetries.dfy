/** Any number of runs, interrupted anywhere, with other publishers adding assets between them. */
module ReleaseRetries {
  import opened Outcomes
  import opened OrderedDict
  import opened ReleasePublishing

  datatype Event = Run(result: Result<seq<string>, Error>) | Foreign(name: string, content: string)

  ghost predicate Step(overwrites: bool, before: Remote, after: Remote, local: seq<Asset>, e: Event) {
    match e
    case Run(r) => Ran(overwrites, before, after, local, r)
    case Foreign(name, content) => name !in before && after == before[name := content]
  }

  /** The remote before the first event and after each. */
  ghost predicate History(overwrites: bool, local: seq<Asset>, remotes: seq<Remote>, events: seq<Event>) {
    && |remotes| == |events| + 1
    && forall i :: 0 <= i < |events| ==> Step(overwrites, remotes[i], remotes[i + 1], local, events[i])
  }

  // ---------------------------------------------------------------- one run

  /** What the remote holds after k uploads of new names. */
  lemma {:induction false} UploadsHold(remote: Remote, missing: seq<Asset>, k: nat)
    requires k <= |missing| && FreshUploads(remote, missing, k)
    ensures Keeps(remote, Uploaded(remote, missing, k))
    ensures forall i :: 0 <= i < k ==>
              missing[i].name in Uploaded(remote, missing, k)
              && Uploaded(remote, missing, k)[missing[i].name] == missing[i].content
    ensures forall name :: name in Uploaded(remote, missing, k) && name !in remote ==>
              exists i :: 0 <= i < k && missing[i].name == name
  {
    if k > 0 {
      UploadsHold(remote, missing, k - 1);
      assert forall i :: 0 <= i < k - 1 ==> missing[i].name != missing[k - 1].name;
    }
  }

  lemma RunKeeps(overwrites: bool, before: Remote, after: Remote, local: seq<Asset>, r: Result<seq<string>, Error>)
    requires Ran(overwrites, before, after, local, r)
    ensures Keeps(before, after)
    ensures Conflict(before, local) ==> after == before && r.Err?
  {
    var missing := Missing(before, local);
    var k: nat :| GetsTo(before, after, missing, k) && (Conflict(before, local) ==> k == 0 && r.Err?);
    UploadsHold(before, missing, k);
  }

  /** A successful run leaves every local asset on the remote, with equal content. */
  lemma SuccessMeansPresent(overwrites: bool, before: Remote, after: Remote, local: seq<Asset>, r: Result<seq<string>, Error>)
    requires Ran(overwrites, before, after, local, r) && r.Ok?
    ensures Present(after, local)
  {
    var missing := Missing(before, local);
    RunKeeps(overwrites, before, after, local, r);
    SplitMeans(before, local);
    UploadsHold(before, missing, |missing|);
    forall i | 0 <= i < |local| ensures local[i].name in after && after[local[i].name] == local[i].content {
      assert local[i] in local;
      if local[i].name in before {
        assert !Differs(before, local[i]);
      } else {
        MissingHas(before, local, i);
        var j :| 0 <= j < |missing| && missing[j] == local[i];
      }
    }
  }

  /** Assets to upload keep the order in which they are listed, and so do those to compare. */
  lemma {:induction false} MissingInOrder(remote: Remote, a: seq<Asset>, b: seq<Asset>)
    ensures Missing(remote, a + b) == Missing(remote, a) + Missing(remote, b)
  {
    if a == [] {
      assert a + b == b && Missing(remote, a) == [];
    } else {
      assert (a + b)[1..] == a[1..] + b && (a + b)[0] == a[0];
      MissingInOrder(remote, a[1..], b);
      ConcatAssociates(if a[0].name in remote then [] else [a[0]], Missing(remote, a[1..]), Missing(remote, b));
    }
  }

  lemma {:induction false} ExistingInOrder(remote: Remote, a: seq<Asset>, b: seq<Asset>)
    ensures Existing(remote, a + b) == Existing(remote, a) + Existing(remote, b)
  {
    if a == [] {
      assert a + b == b && Existing(remote, a) == [];
    } else {
      assert (a + b)[1..] == a[1..] + b && (a + b)[0] == a[0];
      ExistingInOrder(remote, a[1..], b);
      ConcatAssociates(if a[0].name in remote then [a[0]] else [], Existing(remote, a[1..]), Existing(remote, b));
    }
  }

  lemma {:induction false} MissingHas(remote: Remote, local: seq<Asset>, i: nat)
    requires i < |local| && local[i].name !in remote
    ensures local[i] in Missing(remote, local)
  {
    if i > 0 {
      MissingHas(remote, local[1..], i - 1);
    }
  }

  lemma {:induction false} NothingMissing(remote: Remote, local: seq<Asset>)
    requires Present(remote, local)
    ensures Missing(remote, local) == [] && !Conflict(remote, local)
  {
    if local != [] {
      assert forall i :: 0 <= i < |local[1..]| ==> local[1..][i] == local[i + 1];
      NothingMissing(remote, local[1..]);
    }
  }

  /** Once everything is present a run uploads nothing, and if it gets through it says so. */
  lemma RerunUploadsNothing(overwrites: bool, before: Remote, after: Remote, local: seq<Asset>, r: Result<seq<string>, Error>)
    requires Present(before, local) && Ran(overwrites, before, after, local, r)
    ensures after == before && (r.Ok? ==> r.value == []) && (r.Err? ==> r.error == RemoteFailed)
  {
    NothingMissing(before, local);
  }

  // ---------------------------------------------------------------- whole histories

  lemma StepKeeps(overwrites: bool, before: Remote, after: Remote, local: seq<Asset>, e: Event)
    requires Step(overwrites, before, after, local, e)
    ensures Keeps(before, after)
  {
    if e.Run? { RunKeeps(overwrites, before, after, local, e.result); }
  }

  /** Whatever is on the remote stays there with its content, through every later run and crash. */
  lemma {:induction false} NeverOverwritten(overwrites: bool, local: seq<Asset>, remotes: seq<Remote>, events: seq<Event>,
                                            i: nat, j: nat)
    requires History(overwrites, local, remotes, events) && i <= j < |remotes|
    ensures Keeps(remotes[i], remotes[j])
  {
    hide Step;
    if i < j {
      NeverOverwritten(overwrites, local, remotes, events, i, j - 1);
      assert Step(overwrites, remotes[j - 1], remotes[j - 1 + 1], local, events[j - 1]);
      StepKeeps(overwrites, remotes[j - 1], remotes[j], local, events[j - 1]);
    }
  }

  /** A conflict is final: from then on every run fails and changes nothing. */
  lemma ConflictIsFinal(overwrites: bool, local: seq<Asset>, remotes: seq<Remote>, events: seq<Event>, i: nat, j: nat)
    requires History(overwrites, local, remotes, events) && i <= j < |events| && Conflict(remotes[i], local) && events[j].Run?
    ensures remotes[j + 1] == remotes[j] && events[j].result.Err?
  {
    NeverOverwritten(overwrites, local, remotes, events, i, j);
    var n :| 0 <= n < |local| && Differs(remotes[i], local[n]);
    assert Differs(remotes[j], local[n]);
    assert Step(overwrites, remotes[j], remotes[j + 1], local, events[j]);
    RunKeeps(overwrites, remotes[j], remotes[j + 1], local, events[j].result);
  }

  /** After a successful run every later one uploads nothing. */
  lemma SuccessIsFinal(overwrites: bool, local: seq<Asset>, remotes: seq<Remote>, events: seq<Event>, i: nat, j: nat)
    requires History(overwrites, local, remotes, events) && i < j < |events|
    requires events[i].Run? && events[i].result.Ok? && events[j].Run?
    ensures Present(remotes[j], local) && remotes[j + 1] == remotes[j]
    ensures events[j].result.Ok? ==> events[j].result.value == []
  {
    assert Step(overwrites, remotes[i], remotes[i + 1], local, events[i]);
    SuccessMeansPresent(overwrites, remotes[i], remotes[i + 1], local, events[i].result);
    NeverOverwritten(overwrites, local, remotes, events, i + 1, j);
    assert Step(overwrites, remotes[j], remotes[j + 1], local, events[j]);
    RerunUploadsNothing(overwrites, remotes[j], remotes[j + 1], local, events[j].result);
  }

  /** Assets of the same name are the same. */
  ghost predicate Consistent(local: seq<Asset>) {
    forall i, j :: 0 <= i < |local| && 0 <= j < |local| && local[i].name == local[j].name ==> local[i].content == local[j].content
  }

  lemma RunAddsNoConflict(overwrites: bool, before: Remote, after: Remote, local: seq<Asset>, r: Result<seq<string>, Error>)
    requires Consistent(local) && !Conflict(before, local) && Ran(overwrites, before, after, local, r)
    ensures !Conflict(after, local)
  {
    var missing := Missing(before, local);
    var k: nat :| GetsTo(before, after, missing, k);
    UploadsHold(before, missing, k);
    SplitMeans(before, local);
    forall i | 0 <= i < |local| ensures !Differs(after, local[i]) {
      if local[i].name in before {
        assert !Differs(before, local[i]);
      } else if local[i].name in after {
        var j :| 0 <= j < k && missing[j].name == local[i].name;
        assert missing[j] in local;
        var n :| 0 <= n < |local| && local[n] == missing[j];
      }
    }
  }

  /** Other publishers add nothing that conflicts. */
  ghost predicate Peaceful(local: seq<Asset>, events: seq<Event>) {
    forall i :: 0 <= i < |events| && events[i].Foreign? ==>
      forall j :: 0 <= j < |local| && local[j].name == events[i].name ==> local[j].content == events[i].content
  }

  lemma StepAddsNoConflict(overwrites: bool, before: Remote, after: Remote, local: seq<Asset>, e: Event)
    requires Consistent(local) && !Conflict(before, local) && Step(overwrites, before, after, local, e) && Peaceful(local, [e])
    ensures !Conflict(after, local)
  {
    match e
    case Run(r) => RunAddsNoConflict(overwrites, before, after, local, r);
    case Foreign(name, content) =>
      forall i | 0 <= i < |local| ensures !Differs(after, local[i]) {
        assert [e][0] == e;
        assert !Differs(before, local[i]);
      }
  }

  /** Interrupted runs do no harm: however often publishing was interrupted, no conflict has appeared. */
  lemma {:induction false} InterruptionsAddNoConflict(overwrites: bool, local: seq<Asset>, remotes: seq<Remote>,
                                                      events: seq<Event>, n: nat)
    requires History(overwrites, local, remotes, events) && Consistent(local) && Peaceful(local, events)
    requires !Conflict(remotes[0], local) && n < |remotes|
    ensures !Conflict(remotes[n], local)
  {
    hide Step;
    hide Conflict;
    hide Consistent;
    if n > 0 {
      InterruptionsAddNoConflict(overwrites, local, remotes, events, n - 1);
      var e := events[n - 1];
      assert Step(overwrites, remotes[n - 1], remotes[n - 1 + 1], local, e);
      assert Peaceful(local, [e]);
      StepAddsNoConflict(overwrites, remotes[n - 1], remotes[n], local, e);
    }
  }

  /** No name occurs twice exactly if none does among the existing assets and none among the missing ones. */
  lemma {:induction false} DistinctSplits(remote: Remote, local: seq<Asset>)
    ensures Distinct(local) <==> Distinct(Existing(remote, local)) && Distinct(Missing(remote, local))
  {
    if local != [] {
      var head, rest := local[0], local[1..];
      var existing, missing := Existing(remote, rest), Missing(remote, rest);
      DistinctSplits(remote, rest);
      DistinctHead(head, rest);
      DistinctHead(head, existing);
      DistinctHead(head, missing);
      NamedSplits(remote, rest, head.name);
      assert local == [head] + rest;
      hide Distinct;
      if head.name in remote {
        assert Existing(remote, local) == [head] + existing && Missing(remote, local) == missing;
      } else {
        assert Missing(remote, local) == [head] + missing && Existing(remote, local) == existing;
      }
    }
  }

  ghost predicate Named(assets: seq<Asset>, name: string) {
    exists i :: 0 <= i < |assets| && assets[i].name == name
  }

  lemma DistinctHead(head: Asset, rest: seq<Asset>)
    ensures Distinct([head] + rest) <==> Distinct(rest) && !Named(rest, head.name)
  {
    var all := [head] + rest;
    assert forall i :: 0 <= i < |rest| ==> all[i + 1] == rest[i];
    assert all[0] == head;
    if Distinct(all) {
      forall i, j | 0 <= i < j < |rest| ensures rest[i].name != rest[j].name {
        assert all[i + 1].name != all[j + 1].name;
      }
    }
  }

  lemma NamedSplits(remote: Remote, local: seq<Asset>, name: string)
    ensures Named(local, name) <==> if name in remote then Named(Existing(remote, local), name) else Named(Missing(remote, local), name)
  {
    SplitMeans(remote, local);
    var existing, missing := Existing(remote, local), Missing(remote, local);
    if i :| 0 <= i < |local| && local[i].name == name {
      assert local[i] in local;
      if name in remote {
        assert local[i] in existing;
      } else {
        assert local[i] in missing;
      }
    }
    if i :| 0 <= i < |existing| && existing[i].name == name { assert existing[i] in local; }
    if i :| 0 <= i < |missing| && missing[i].name == name { assert missing[i] in local; }
  }

  // ---------------------------------------------------------------- convergence

  lemma UndisturbedRan(overwrites: bool, before: Remote, after: Remote, local: seq<Asset>, r: Result<seq<string>, Error>)
    requires Undisturbed(overwrites, before, after, local, r)
    ensures Ran(overwrites, before, after, local, r)
  {
    hide Conflict;
    hide Distinct;
    var missing := Missing(before, local);
    if Blocked(overwrites, before, local) {
      assert GetsTo(before, after, missing, 0);
    }
  }

  /** An undisturbed run stops early exactly at a name that the same run has already uploaded. */
  lemma StopsAtRepeat(overwrites: bool, before: Remote, after: Remote, local: seq<Asset>, r: Result<seq<string>, Error>)
    returns (i: nat, k: nat)
    requires Undisturbed(overwrites, before, after, local, r) && !Blocked(overwrites, before, local) && r.Err?
    ensures var missing := Missing(before, local);
            i < k < |missing| && missing[i].name == missing[k].name && missing[k].name in after
  {
    hide Blocked;
    var missing := Missing(before, local);
    k :| GetsTo(before, after, missing, k) && k < |missing| && missing[k].name in after;
    SplitMeans(before, local);
    UploadsHold(before, missing, k);
    i :| 0 <= i < k && missing[i].name == missing[k].name;
  }

  /**
   What one undisturbed run needs: no conflict, no name twice among the assets to upload and, unless
   downloads overwrite files, none among those to download.
   */
  lemma UndisturbedSucceedsExactly(overwrites: bool, before: Remote, after: Remote, local: seq<Asset>,
                                   r: Result<seq<string>, Error>)
    requires Undisturbed(overwrites, before, after, local, r)
    ensures r.Ok? <==> && !Conflict(before, local) && Distinct(Missing(before, local))
                       && (overwrites || Distinct(Existing(before, local)))
  {
    hide Conflict;
    if !Blocked(overwrites, before, local) {
      if r.Ok? {
        var missing := Missing(before, local);
        var k: nat :| GetsTo(before, after, missing, k) && k == |missing|;
        AllFresh(before, missing);
      } else {
        var i, k := StopsAtRepeat(overwrites, before, after, local, r);
      }
    }
  }

  lemma {:induction false} MissingLength(remote: Remote, assets: seq<Asset>)
    ensures |Missing(remote, assets)| <= |assets|
    ensures forall k :: 0 <= k < |assets| && assets[k].name in remote ==> |Missing(remote, assets)| < |assets|
  {
    if assets != [] {
      MissingLength(remote, assets[1..]);
      forall k | 0 <= k < |assets| && assets[k].name in remote ensures |Missing(remote, assets)| < |assets| {
        if k > 0 { assert assets[1..][k - 1] == assets[k]; }
      }
    }
  }

  lemma {:induction false} TwoFewerMissing(remote: Remote, assets: seq<Asset>, i: nat, k: nat)
    requires i < k < |assets| && assets[i].name in remote && assets[k].name in remote
    ensures |Missing(remote, assets)| <= |assets| - 2
  {
    assert assets[1..][k - 1] == assets[k];
    if i == 0 {
      MissingLength(remote, assets[1..]);
    } else {
      TwoFewerMissing(remote, assets[1..], i - 1, k - 1);
    }
  }

  /** What is missing later was missing before. */
  lemma {:induction false} MissingLater(before: Remote, after: Remote, local: seq<Asset>)
    requires Keeps(before, after)
    ensures Missing(after, local) == Missing(after, Missing(before, local))
  {
    if local != [] {
      MissingLater(before, after, local[1..]);
      var rest := Missing(before, local[1..]);
      if local[0].name !in before {
        assert ([local[0]] + rest)[1..] == rest;
      } else {
        assert Missing(before, local) == rest;
      }
    }
  }

  /** An undisturbed run that fails without a conflict leaves at least two assets fewer to upload. */
  lemma FailureMakesProgress(overwrites: bool, before: Remote, after: Remote, local: seq<Asset>, r: Result<seq<string>, Error>)
    requires Undisturbed(overwrites, before, after, local, r) && !Blocked(overwrites, before, local) && r.Err?
    ensures |Missing(after, local)| <= |Missing(before, local)| - 2
  {
    UndisturbedRan(overwrites, before, after, local, r);
    RunKeeps(overwrites, before, after, local, r);
    MissingLater(before, after, local);
    var i, k := StopsAtRepeat(overwrites, before, after, local, r);
    TwoFewerMissing(after, Missing(before, local), i, k);
  }

  /** Some events of a history, in order, are runs in which no operation broke. */
  ghost predicate UndisturbedRuns(overwrites: bool, local: seq<Asset>, remotes: seq<Remote>, events: seq<Event>, tries: seq<nat>)
    requires |remotes| == |events| + 1
  {
    && (forall i :: 0 <= i < |tries| ==>
          tries[i] < |events| && events[tries[i]].Run?
          && Undisturbed(overwrites, remotes[tries[i]], remotes[tries[i] + 1], local, events[tries[i]].result))
    && (forall i, j :: 0 <= i < j < |tries| ==> tries[i] < tries[j])
  }

  ghost predicate SomeSucceeds(events: seq<Event>, tries: seq<nat>) {
    exists i :: 0 <= i < |tries| && tries[i] < |events| && events[tries[i]].Run? && events[tries[i]].result.Ok?
  }

  /** As long as undisturbed runs fail, each of them leaves two assets fewer. */
  lemma {:induction false} FailuresAreFew(local: seq<Asset>, remotes: seq<Remote>, events: seq<Event>, tries: seq<nat>, n: nat)
    requires History(true, local, remotes, events) && Peaceful(local, events) && UndisturbedRuns(true, local, remotes, events, tries)
    requires Consistent(local) && !Conflict(remotes[0], local) && !SomeSucceeds(events, tries) && 0 < n <= |tries|
    ensures |Missing(remotes[tries[n - 1] + 1], local)| <= |local| - 2 * n
  {
    hide Conflict;
    hide Consistent;
    hide Peaceful;
    hide Undisturbed;
    hide Missing;
    hide Step;
    var at := tries[n - 1];
    if n == 1 {
      MissingLength(remotes[at], local);
    } else {
      FailuresAreFew(local, remotes, events, tries, n - 1);
      MissingOnlyShrinks(true, local, remotes, events, tries[n - 2] + 1, at);
    }
    InterruptionsAddNoConflict(true, local, remotes, events, at);
    FailureMakesProgress(true, remotes[at], remotes[at + 1], local, events[at].result);
  }

  lemma MissingOnlyShrinks(overwrites: bool, local: seq<Asset>, remotes: seq<Remote>, events: seq<Event>, i: nat, j: nat)
    requires History(overwrites, local, remotes, events) && i <= j < |remotes|
    ensures |Missing(remotes[j], local)| <= |Missing(remotes[i], local)|
  {
    hide History;
    NeverOverwritten(overwrites, local, remotes, events, i, j);
    MissingLater(remotes[i], remotes[j], local);
    MissingLength(remotes[j], Missing(remotes[i], local));
  }

  lemma PresentMeansConsistent(remote: Remote, local: seq<Asset>)
    requires Present(remote, local)
    ensures Consistent(local)
  {}

  /** What can be published at all: names with one content or, unless downloads overwrite files, listed once. */
  ghost predicate Publishable(overwrites: bool, local: seq<Asset>) {
    if overwrites then Consistent(local) else Distinct(local)
  }

  lemma SuccessMeansPublishable(overwrites: bool, before: Remote, after: Remote, local: seq<Asset>, r: Result<seq<string>, Error>)
    requires Ran(overwrites, before, after, local, r) && r.Ok?
    ensures Publishable(overwrites, local) && !Conflict(before, local)
  {
    SuccessMeansPresent(overwrites, before, after, local, r);
    PresentMeansConsistent(after, local);
    hide Conflict;
    hide Present;
    var missing := Missing(before, local);
    var k: nat :| GetsTo(before, after, missing, k) && k == |missing| && !Blocked(overwrites, before, local);
    AllFresh(before, missing);
    DistinctSplits(before, local);
  }

  /**
   Retrying converges: in any peaceful history, interrupted as often as may be, some of the first |local| / 2 + 1
   undisturbed runs succeeds if and only if the local assets can be published and agree with the remote at the start.
   */
  lemma RetryingConverges(overwrites: bool, local: seq<Asset>, remotes: seq<Remote>, events: seq<Event>, tries: seq<nat>)
    requires History(overwrites, local, remotes, events) && Peaceful(local, events)
    requires UndisturbedRuns(overwrites, local, remotes, events, tries) && |tries| > |local| / 2
    ensures SomeSucceeds(events, tries) <==> Publishable(overwrites, local) && !Conflict(remotes[0], local)
  {
    hide Publishable;
    hide Conflict;
    hide Undisturbed;
    if SomeSucceeds(events, tries) {
      var i :| 0 <= i < |tries| && tries[i] < |events| && events[tries[i]].Run? && events[tries[i]].result.Ok?;
      var at := tries[i];
      assert Step(overwrites, remotes[at], remotes[at + 1], local, events[at]);
      SuccessMeansPublishable(overwrites, remotes[at], remotes[at + 1], local, events[at].result);
      if Conflict(remotes[0], local) {
        ConflictIsFinal(overwrites, local, remotes, events, 0, at);
      }
    } else if Publishable(overwrites, local) && !Conflict(remotes[0], local) {
      SomeMustSucceed(overwrites, local, remotes, events, tries);
    }
  }

  lemma SomeMustSucceed(overwrites: bool, local: seq<Asset>, remotes: seq<Remote>, events: seq<Event>, tries: seq<nat>)
    requires History(overwrites, local, remotes, events) && Peaceful(local, events)
    requires UndisturbedRuns(overwrites, local, remotes, events, tries) && |tries| > |local| / 2
    requires Publishable(overwrites, local) && !Conflict(remotes[0], local)
    ensures SomeSucceeds(events, tries)
  {
    hide Undisturbed;
    if overwrites {
      if !SomeSucceeds(events, tries) { FailuresAreFew(local, remotes, events, tries, |tries|); }
    } else {
      var at := tries[0];
      assert Consistent(local);
      InterruptionsAddNoConflict(overwrites, local, remotes, events, at);
      hide Conflict;
      hide Distinct;
      DistinctSplits(remotes[at], local);
      UndisturbedSucceedsExactly(overwrites, remotes[at], remotes[at + 1], local, events[at].result);
    }
  }

  /**
   When no name is listed twice one undisturbed run is enough: after any interrupted, peaceful history it succeeds,
   everything is then present, and the next one succeeds without uploading anything.
   */
  lemma OneRunIsEnough(overwrites: bool, local: seq<Asset>, remotes: seq<Remote>, events: seq<Event>, after: Remote,
                       first: Result<seq<string>, Error>, later: Remote, second: Result<seq<string>, Error>)
    requires Distinct(local) && Peaceful(local, events) && History(overwrites, local, remotes, events) && !Conflict(remotes[0], local)
    requires Undisturbed(overwrites, remotes[|remotes| - 1], after, local, first) && Undisturbed(overwrites, after, later, local, second)
    ensures first == Ok(Names(Missing(remotes[|remotes| - 1], local))) && Present(after, local)
    ensures second == Ok([]) && later == after
  {
    var before := remotes[|remotes| - 1];
    assert Consistent(local);
    InterruptionsAddNoConflict(overwrites, local, remotes, events, |remotes| - 1);
    DistinctSplits(before, local);
    DistinctSplits(after, local);
    UndisturbedSucceedsExactly(overwrites, before, after, local, first);
    UndisturbedRan(overwrites, before, after, local, first);
    SuccessMeansPresent(overwrites, before, after, local, first);
    NothingMissing(after, local);
    UndisturbedRan(overwrites, after, later, local, second);
    RerunUploadsNothing(overwrites, after, later, local, second);
  }

  lemma TwoCopies(remote: Remote)
    ensures var a := Asset("app.whl", "content");
            && Missing(remote, [a, a]) == (if "app.whl" in remote then [] else [a, a])
            && Existing(remote, [a, a]) == (if "app.whl" in remote then [a, a] else [])
            && !Distinct([a, a]) && Distinct([])
  {
    var a := Asset("app.whl", "content");
    assert [a, a][1..] == [a] && [a][1..] == [];
    assert Missing(remote, [a]) == if "app.whl" in remote then [] else [a];
    assert Existing(remote, [a]) == if "app.whl" in remote then [a] else [];
    assert [a, a][0].name == [a, a][1].name;
  }

  /** Listed twice, a file is uploaded once: the first undisturbed run fails at the second copy. */
  lemma SecondCopyFails(overwrites: bool, after: Remote, r: Result<seq<string>, Error>)
    requires var a := Asset("app.whl", "content"); Undisturbed(overwrites, map[], after, [a, a], r)
    ensures r == Err(RemoteFailed) && after == map["app.whl" := "content"]
  {
    var a := Asset("app.whl", "content");
    var local := [a, a];
    TwoCopies(map[]);
    assert !Blocked(overwrites, map[], local);
    var k: nat :| GetsTo(map[], after, local, k)
      && if k == 2 then r == Ok(Names(local)) else local[k].name in after && r == Err(RemoteFailed);
    assert k != 2 by { assert local[0].name == local[1].name; }
    assert Uploaded(map[], local, 0) == map[];
    assert k != 0;
    assert after == Uploaded(map[], local, 0)["app.whl" := "content"];
  }

  /** The next undisturbed run succeeds, unless downloads do not overwrite files: then it fails, and so do all others. */
  lemma RepeatedAsset(overwrites: bool, after: Remote, first: Result<seq<string>, Error>,
                      later: Remote, second: Result<seq<string>, Error>)
    requires var a := Asset("app.whl", "content");
             Undisturbed(overwrites, map[], after, [a, a], first) && Undisturbed(overwrites, after, later, [a, a], second)
    ensures first == Err(RemoteFailed) && later == after == map["app.whl" := "content"]
    ensures if overwrites then second == Ok([]) else second == Err(RemoteFailed)
  {
    var a := Asset("app.whl", "content");
    var local := [a, a];
    SecondCopyFails(overwrites, after, first);
    assert Present(after, local);
    NothingMissing(after, local);
    TwoCopies(after);
    UndisturbedRan(overwrites, after, later, local, second);
    RerunUploadsNothing(overwrites, after, later, local, second);
    UndisturbedSucceedsExactly(overwrites, after, later, local, second);
  }

  /** Local assets that disagree with each other can never all be published. */
  lemma InconsistentNeverSucceeds(overwrites: bool, before: Remote, after: Remote, local: seq<Asset>, r: Result<seq<string>, Error>)
    requires Ran(overwrites, before, after, local, r) && !Consistent(local)
    ensures r.Err?
  {
    if r.Ok? { SuccessMeansPresent(overwrites, before, after, local, r); }
  }
}
