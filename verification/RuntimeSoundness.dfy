/** Every sequence of calls, also those that close the runtime before they start it. */
module RuntimeSoundness {
  import opened Outcomes
  import opened RuntimeLifecycle
  import opened RuntimeRuns

  /** Nothing but a stop request happens twice. */
  ghost predicate Once(log: seq<Event>) {
    forall i, j :: 0 <= i < j < |log| && log[i] == log[j] ==> Phase(log[i]) == 5
  }

  ghost predicate EndsAll(log: seq<Event>) {
    forall x: nat :: On(Create, x) in log ==> On(End, x) in log
  }

  /** What shutdown promises: nothing is done twice, and once the runtime is closed every created task has ended. */
  ghost predicate Sound(s: State) {
    Once(s.log) && (s.closed ==> EndsAll(s.log))
  }

  /** No worker raises when it is asked to stop. */
  predicate Accepts(c: Config, w: World)
    requires c.Valid()
  {
    FirstError(w, StopSteps(c)).None?
  }

  /** A start-up creates a task: it comes as far as the first configured worker, and launching that one works. */
  predicate CreatesATask(c: Config, w: World)
    requires c.Valid()
  {
    && FirstError(w, Opening(c)).None?
    && exists x :: 0 <= x < WORKER_KINDS && c.workers[x] && w.Raises(On(Launch, x)).None? && forall y :: 0 <= y < x ==> !c.workers[y]
  }

  /** What a start may do to a runtime that is closed already: create a task, or fail and close everything again. */
  predicate Spoils(c: Config, w: World)
    requires c.Valid()
  {
    CreatesATask(c, w) || (FirstError(w, StartSteps(c, w)).Some? && Accepts(c, w))
  }

  predicate ClosedBefore(c: Config, calls: seq<Call>, j: nat)
    requires c.Valid() && j <= |calls|
  {
    exists i :: 0 <= i < j && Accepts(c, calls[i].w)
  }

  /** The runtime was closed before its first start, and that start spoils it. */
  predicate Late(c: Config, calls: seq<Call>)
    requires c.Valid()
  {
    exists j :: 0 <= j < |calls| && FirstStart(calls, j) && ClosedBefore(c, calls, j) && Spoils(c, calls[j].w)
  }

  // ---------------------------------------------------------------- what a start creates

  lemma {:induction false} NoLaunches(workers: seq<bool>, k: nat)
    requires k <= |workers| && forall y :: 0 <= y < k ==> !workers[y]
    ensures Launches(workers, k) == []
  {
    if k > 0 { NoLaunches(workers, k - 1); }
  }

  /** With x the first configured worker, some task is created exactly if launching x works. */
  lemma FirstLaunch(w: World, workers: seq<bool>, x: nat)
    requires x < |workers| == WORKER_KINDS && workers[x] && forall y :: 0 <= y < x ==> !workers[y]
    ensures w.Raises(On(Launch, x)).None? ==> On(Create, x) in Perform(w, Launches(workers, WORKER_KINDS))
    ensures w.Raises(On(Launch, x)).Some? ==> Perform(w, Launches(workers, WORKER_KINDS)) == [On(Launch, x)]
  {
    var all, pair := Launches(workers, WORKER_KINDS), [On(Launch, x), On(Create, x)];
    NoLaunches(workers, x);
    LaunchesGrow(workers, x + 1, WORKER_KINDS);
    assert Launches(workers, x + 1) == [] + pair == pair;
    NothingRaises(w);
    LaunchOne(w, [], x);
    assert [] + pair == pair && [] + [On(Launch, x)] == [On(Launch, x)];
    hide Launches;
    if w.Raises(On(Launch, x)).Some? {
      PrefixFails(w, pair, all);
    } else {
      PerformAppend(w, pair, all[2..]);
      assert pair + all[2..] == all;
    }
  }

  lemma {:induction false} LeastWorker(workers: seq<bool>, x: nat) returns (m: nat)
    requires x < |workers| && workers[x]
    ensures m <= x && workers[m] && forall y :: 0 <= y < m ==> !workers[y]
  {
    if y: nat :| y < x && workers[y] { m := LeastWorker(workers, y); } else { m := x; }
  }

  lemma CreatesExactly(c: Config, w: World)
    requires c.Valid()
    ensures CreatesATask(c, w) <==> exists x: nat :: On(Create, x) in Perform(w, StartSteps(c, w))
  {
    var launches := Launches(c.workers, WORKER_KINDS);
    var done := Perform(w, StartSteps(c, w));
    StartCreates(c, w);
    hide StartSteps;
    hide Opening;
    if CreatesATask(c, w) {
      var x :| 0 <= x < WORKER_KINDS && c.workers[x] && w.Raises(On(Launch, x)).None? && forall y :: 0 <= y < x ==> !c.workers[y];
      FirstLaunch(w, c.workers, x);
      assert TasksIn(done)[x];
    }
    if x: nat :| On(Create, x) in done {
      CreatedAreWorkers(c, w, x);
      var m := LeastWorker(c.workers, x);
      FirstLaunch(w, c.workers, m);
      assert TasksIn(done)[x];
    }
  }

  // ---------------------------------------------------------------- logs

  lemma OrderedOnce(log: seq<Event>)
    requires InOrder(log)
    ensures Once(log)
  {}

  ghost predicate Apart(a: seq<Event>, b: seq<Event>) {
    forall i, j :: 0 <= i < |a| && 0 <= j < |b| && a[i] == b[j] ==> Phase(a[i]) == 5
  }

  lemma JoinsOnce(a: seq<Event>, b: seq<Event>)
    requires Once(a) && Once(b) && Apart(a, b)
    ensures Once(a + b)
  {
    var r := a + b;
    forall i, j | 0 <= i < j < |r| && r[i] == r[j] ensures Phase(r[i]) == 5 {
      if j < |a| {
        assert a[i] == a[j];
      } else if i >= |a| {
        assert b[i - |a|] == b[j - |a|];
      } else {
        assert a[i] == b[j - |a|];
      }
    }
  }

  lemma ApartByPhase(a: seq<Event>, low: nat, high: nat, b: seq<Event>, from: nat, to: nat)
    requires Within(a, low, high) && Within(b, from, to) && (high < from || to < low || high == from == 5)
    ensures Apart(a, b)
  {}

  lemma WithinJoins(a: seq<Event>, b: seq<Event>, low: nat, high: nat)
    requires Within(a, low, high) && Within(b, low, high)
    ensures Within(a + b, low, high)
  {}

  lemma Wider(log: seq<Event>, low: nat, high: nat, lower: nat, higher: nat)
    requires Within(log, low, high) && lower <= low && high <= higher
    ensures Within(log, lower, higher)
  {}

  lemma NotWithin(log: seq<Event>, low: nat, high: nat, e: Event)
    requires Within(log, low, high) && !(low <= Phase(e) <= high)
    ensures e !in log
  {}

  // ---------------------------------------------------------------- before the first start

  /** Closes only: the log has stop requests, and at most one closing of everything. */
  ghost predicate Resting(c: Config, s: State)
    requires c.Valid()
  {
    && !s.startAttempted && s.tasks == NO_TASKS && Once(s.log)
    && Within(s.log, 5, if s.closed then 10 else 5) && (s.closed ==> EngineDisposed in s.log)
    && (forall x: nat :: On(End, x) !in s.log)
  }

  lemma EngineCloses(c: Config, w: World, tasks: seq<bool>)
    requires c.Valid() && |tasks| == WORKER_KINDS
    ensures EngineDisposed in CleanSteps(c, w, tasks)
  {
    ClosingMembers(c);
  }

  lemma NoTasksEnd(c: Config, w: World, x: nat)
    requires c.Valid()
    ensures On(End, x) !in StopSteps(c) + CleanSteps(c, w, NO_TASKS)
  {
    EndsNothing(c, w, x);
  }

  lemma RestingCloses(c: Config, s: State, w: World)
    requires c.Valid() && Resting(c, s) && !s.closed
    ensures Resting(c, AfterShutdown(c, s, w))
    ensures AfterShutdown(c, s, w).closed <==> Accepts(c, w)
  {
    hide InOrder;
    hide Once;
    hide Within;
    hide StopSteps;
    hide CleanSteps;
    StopsInOrder(c, w);
    OrderedOnce(StopSteps(c));
    OrderedOnce(Perform(w, StopSteps(c)));
    if FirstError(w, StopSteps(c)).Some? {
      ApartByPhase(s.log, 5, 5, Perform(w, StopSteps(c)), 5, 5);
      JoinsOnce(s.log, Perform(w, StopSteps(c)));
      WithinJoins(s.log, Perform(w, StopSteps(c)), 5, 5);
      forall x: nat ensures On(End, x) !in Perform(w, StopSteps(c)) { NotWithin(Perform(w, StopSteps(c)), 5, 5, On(End, x)); }
    } else {
      var clean := CleanSteps(c, w, s.tasks);
      CleanInOrder(c, w, s.tasks);
      OrderedOnce(clean);
      EngineCloses(c, w, s.tasks);
      ApartByPhase(s.log, 5, 5, StopSteps(c), 5, 5);
      JoinsOnce(s.log, StopSteps(c));
      WithinJoins(s.log, StopSteps(c), 5, 5);
      ApartByPhase(s.log + StopSteps(c), 5, 5, clean, 6, 10);
      JoinsOnce(s.log + StopSteps(c), clean);
      Wider(s.log + StopSteps(c), 5, 5, 5, 10);
      Wider(clean, 6, 10, 5, 10);
      WithinJoins(s.log + StopSteps(c), clean, 5, 10);
      forall x: nat ensures On(End, x) !in StopSteps(c) + clean { NoTasksEnd(c, w, x); }
    }
  }

  lemma {:induction false} OnlyCloses(c: Config, calls: seq<Call>)
    requires c.Valid() && forall i :: 0 <= i < |calls| ==> calls[i].Close?
    ensures Resting(c, Run(c, calls)) && (Run(c, calls).closed <==> ClosedBefore(c, calls, |calls|))
  {
    hide Accepts;
    if calls == [] {
      hide InOrder;
    } else {
      hide Resting;
      var init, last := calls[..|calls| - 1], calls[|calls| - 1];
      OnlyCloses(c, init);
      var s := Run(c, init);
      if !s.closed { RestingCloses(c, s, last.w); }
      assert forall i :: 0 <= i < |init| ==> calls[i] == init[i];
      assert ClosedBefore(c, calls, |calls|) <==> ClosedBefore(c, init, |init|) || Accepts(c, last.w);
    }
  }

  // ---------------------------------------------------------------- a start in time

  /** After a start on a runtime that was open: everything once, and a closed runtime has no task left. */
  ghost predicate Good(c: Config, s: State)
    requires c.Valid()
  {
    && s.startAttempted && |s.tasks| == WORKER_KINDS && Once(s.log)
    && (!s.closed ==> Within(s.log, 0, 5) && TasksAre(s))
    && (s.closed ==> EndsAll(s.log))
  }

  lemma GoodShutdown(c: Config, s: State, w: World)
    requires c.Valid() && Good(c, s) && !s.closed
    ensures Good(c, AfterShutdown(c, s, w))
  {
    hide InOrder;
    hide Once;
    hide StopSteps;
    hide CleanSteps;
    StopsInOrder(c, w);
    OrderedOnce(StopSteps(c));
    OrderedOnce(Perform(w, StopSteps(c)));
    Wider(StopSteps(c), 5, 5, 0, 5);
    Wider(Perform(w, StopSteps(c)), 5, 5, 0, 5);
    if FirstError(w, StopSteps(c)).Some? {
      ApartByPhase(s.log, 0, 5, Perform(w, StopSteps(c)), 5, 5);
      JoinsOnce(s.log, Perform(w, StopSteps(c)));
      WithinJoins(s.log, Perform(w, StopSteps(c)), 0, 5);
    } else {
      var clean := CleanSteps(c, w, s.tasks);
      CleanInOrder(c, w, s.tasks);
      OrderedOnce(clean);
      ApartByPhase(s.log, 0, 5, StopSteps(c), 5, 5);
      JoinsOnce(s.log, StopSteps(c));
      WithinJoins(s.log, StopSteps(c), 0, 5);
      ApartByPhase(s.log + StopSteps(c), 0, 5, clean, 6, 10);
      JoinsOnce(s.log + StopSteps(c), clean);
      FullIsComplete(c, w, s);
      CompleteEndsAll(c, s.log + StopSteps(c) + clean);
    }
  }

  lemma CompleteEndsAll(c: Config, log: seq<Event>)
    requires c.Valid() && Complete(c, log)
    ensures EndsAll(log)
  {}

  /** The steps of a start-up, as far as they got. */
  lemma LaunchLog(c: Config, w: World)
    requires c.Valid()
    ensures Once(Perform(w, StartSteps(c, w))) && Within(Perform(w, StartSteps(c, w)), 0, 4)
  {
    hide StartSteps;
    StartInOrder(c, w);
    PerformPart(w, StartSteps(c, w));
    PrefixInOrder(Perform(w, StartSteps(c, w)), StartSteps(c, w), 0, 4);
    OrderedOnce(Perform(w, StartSteps(c, w)));
  }

  lemma StartInTime(c: Config, s: State, w: World)
    requires c.Valid() && Resting(c, s) && !s.closed
    ensures Good(c, AfterStart(c, s, w))
  {
    hide InOrder;
    hide Once;
    hide Within;
    hide StartSteps;
    var done := Perform(w, StartSteps(c, w));
    LaunchLog(c, w);
    ApartByPhase(s.log, 5, 5, done, 0, 4);
    JoinsOnce(s.log, done);
    Wider(s.log, 5, 5, 0, 5);
    Wider(done, 0, 4, 0, 5);
    WithinJoins(s.log, done, 0, 5);
    forall x: nat ensures On(Create, x) !in s.log { NotWithin(s.log, 5, 5, On(Create, x)); }
    LaunchedAre(c, s, w);
    assert Good(c, AfterLaunch(c, s, w));
    hide Good;
    hide AfterShutdown;
    if FirstError(w, StartSteps(c, w)).Some? { GoodShutdown(c, AfterLaunch(c, s, w), w); }
  }

  lemma GoodIsSound(c: Config, s: State)
    requires c.Valid() && Good(c, s)
    ensures Sound(s) && s.startAttempted
  {}

  lemma CallKeepsGood(c: Config, s: State, call: Call)
    requires c.Valid() && Good(c, s)
    ensures Good(c, After(c, s, call))
  {
    GoodIsSound(c, s);
    if call.Close? && !s.closed { GoodShutdown(c, s, call.w); }
  }

  // ---------------------------------------------------------------- a start on a closed runtime

  lemma TwiceIsNotOnce(a: seq<Event>, b: seq<Event>, e: Event)
    requires e in a && e in b && Phase(e) != 5
    ensures !Once(a + b)
  {
    var i :| 0 <= i < |a| && a[i] == e;
    var j :| 0 <= j < |b| && b[j] == e;
    assert (a + b)[i] == (a + b)[|a| + j];
  }

  lemma StartTooLate(c: Config, s: State, w: World)
    requires c.Valid() && Resting(c, s) && s.closed
    ensures var t := AfterStart(c, s, w); t.closed && t.startAttempted && (Sound(t) <==> !Spoils(c, w))
  {
    hide InOrder;
    hide Once;
    hide Within;
    hide StartSteps;
    hide StopSteps;
    hide CleanSteps;
    hide CreatesATask;
    var done := Perform(w, StartSteps(c, w));
    var u := AfterLaunch(c, s, w);
    LaunchLog(c, w);
    ApartByPhase(s.log, 5, 10, done, 0, 4);
    JoinsOnce(s.log, done);
    CreatesExactly(c, w);
    forall x: nat ensures On(Create, x) !in s.log && On(End, x) !in done {
      NotWithin(s.log, 5, 10, On(Create, x));
      NotWithin(done, 0, 4, On(End, x));
    }
    assert EndsAll(u.log) <==> !CreatesATask(c, w);
    if FirstError(w, StartSteps(c, w)).Some? {
      StopsInOrder(c, w);
      if Accepts(c, w) {
        EngineCloses(c, w, u.tasks);
        TwiceIsNotOnce(u.log + StopSteps(c), CleanSteps(c, w, u.tasks), EngineDisposed);
      } else {
        RefusedStops(c, w, s.log + done, s.log, done);
      }
    }
  }

  /** A refused shutdown after the start changes nothing about soundness. */
  lemma RefusedStops(c: Config, w: World, log: seq<Event>, before: seq<Event>, done: seq<Event>)
    requires c.Valid() && log == before + done && Once(log) && Within(before, 5, 10) && Within(done, 0, 4)
    ensures Once(log + Perform(w, StopSteps(c)))
    ensures EndsAll(log + Perform(w, StopSteps(c))) <==> EndsAll(log)
  {
    hide InOrder;
    hide StopSteps;
    var stops := Perform(w, StopSteps(c));
    StopsInOrder(c, w);
    OrderedOnce(stops);
    assert Apart(log, stops);
    JoinsOnce(log, stops);
    forall x: nat ensures On(Create, x) !in stops && On(End, x) !in stops {
      NotWithin(stops, 5, 5, On(Create, x));
      NotWithin(stops, 5, 5, On(End, x));
    }
  }

  // ---------------------------------------------------------------- every sequence of calls

  /** What the first start decides, later calls do not change. */
  lemma {:induction false} FirstStartDecides(c: Config, calls: seq<Call>, j: nat)
    requires c.Valid() && FirstStart(calls, j)
    ensures var s := Run(c, calls);
            if ClosedBefore(c, calls, j) then s.closed && s.startAttempted && (Sound(s) <==> !Spoils(c, calls[j].w))
            else Good(c, s)
    decreases |calls|
  {
    hide Good;
    hide Sound;
    hide Spoils;
    hide Accepts;
    var init, last := calls[..|calls| - 1], calls[|calls| - 1];
    assert forall i :: 0 <= i < |init| ==> calls[i] == init[i];
    assert ClosedBefore(c, calls, j) <==> ClosedBefore(c, init, j);
    var s := Run(c, init);
    if j == |init| {
      OnlyCloses(c, init);
      if s.closed { StartTooLate(c, s, last.w); } else { StartInTime(c, s, last.w); }
    } else {
      FirstStartDecides(c, init, j);
      if !ClosedBefore(c, calls, j) { CallKeepsGood(c, s, last); }
    }
  }

  lemma RestingIsSound(c: Config, s: State)
    requires c.Valid() && Resting(c, s)
    ensures Sound(s)
  {
    forall x: nat ensures On(Create, x) !in s.log { NotWithin(s.log, 5, if s.closed then 10 else 5, On(Create, x)); }
  }

  /**
   For every sequence of calls, whatever raises: shutdown keeps its promise if and only if the runtime was
   not closed before a first start that creates a task, or that fails and then closes everything again.
   */
  lemma SoundExactly(c: Config, calls: seq<Call>)
    requires c.Valid()
    ensures Sound(Run(c, calls)) <==> !Late(c, calls)
  {
    hide Sound;
    hide Good;
    hide Resting;
    hide Spoils;
    hide ClosedBefore;
    var j := NoStartOrFirst(calls);
    if j == |calls| {
      OnlyCloses(c, calls);
      RestingIsSound(c, Run(c, calls));
    } else {
      FirstStartDecides(c, calls, j);
      if Good(c, Run(c, calls)) { GoodIsSound(c, Run(c, calls)); }
      assert forall i :: 0 <= i < |calls| && FirstStart(calls, i) ==> i == j;
    }
  }

  // ---------------------------------------------------------------- closed twice

  /** The database does not answer; everything else works. */
  function NoDatabase(): World {
    World(e => if e == DatabaseChecked then Some("OSError") else None, k => false, k => InTime(Finishes))
  }

  lemma NoDatabaseFails(c: Config)
    requires c.Valid()
    ensures Accepts(c, NoDatabase()) && FirstError(NoDatabase(), StartSteps(c, NoDatabase())).Some?
  {
    var w := NoDatabase();
    StopMembers(c);
    FirstErrorMeans(w, StopSteps(c));
    forall k | 0 <= k < |StopSteps(c)| ensures w.Raises(StopSteps(c)[k]).None? {
      assert StopSteps(c)[k] in StopSteps(c);
    }
    StartsInOrder(c, w);
    assert Opening(c)[0] == DatabaseChecked;
  }

  /** It can happen: a runtime is closed, then started while the database is away, and disposes of its engine twice. */
  lemma CloseThenFailedStart(c: Config)
    requires c.Valid()
    ensures var s := Run(c, [Close(NoDatabase()), Start(NoDatabase())]);
            multiset(s.log)[EngineDisposed] >= 2 && !Sound(s)
  {
    var w := NoDatabase();
    var one, two := [Close(w)], [Close(w), Start(w)];
    NoDatabaseFails(c);
    OnlyCloses(c, one);
    assert two[..1] == one && ClosedBefore(c, one, 1) by { assert Accepts(c, one[0].w); }
    var s, t := Run(c, one), Run(c, two);
    var u := AfterLaunch(c, s, w);
    EngineCloses(c, w, u.tasks);
    var a, b := u.log + StopSteps(c), CleanSteps(c, w, u.tasks);
    hide Once;
    hide StartSteps;
    hide StopSteps;
    hide CleanSteps;
    assert t.log == a + b;
    assert EngineDisposed in a && EngineDisposed in b;
    assert multiset(t.log) == multiset(a) + multiset(b);
    TwiceIsNotOnce(a, b, EngineDisposed);
  }
}
