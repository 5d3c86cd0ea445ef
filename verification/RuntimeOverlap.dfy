/** Calls of `close` that overlap: the runtime counts as closed only when the first of them is through. */
module RuntimeOverlap {
  import opened Outcomes
  import opened RuntimeLifecycle
  import opened RuntimeRuns

  /**
   Where a call is: not yet made, waiting for the tasks, past the first k closings, or over. It is over
   through the end, by a raising stop request, or because the runtime was closed already.
   */
  datatype Closer = Outside | Waiting | Closing(k: nat) | Through | Refused | Late

  predicate Over(closer: Closer) { closer.Through? || closer.Refused? || closer.Late? }

  datatype Overlap = Overlap(closed: bool, closers: seq<Closer>, log: seq<Event>)

  /** Asking the workers to stop raises during this call. */
  predicate Refuses(c: Config, w: World)
    requires c.Valid()
  {
    FirstError(w, StopSteps(c)).Some?
  }

  predicate Enabled(s: Overlap, i: nat) { i < |s.closers| && !Over(s.closers[i]) }

  /** One uninterrupted stretch of call i; the guard and the stop requests are one stretch. */
  function Advance(c: Config, worlds: seq<World>, s: Overlap, i: nat): Overlap
    requires c.Valid() && |worlds| == |s.closers| && Enabled(s, i)
  {
    match s.closers[i]
    case Outside =>
      if s.closed then s.(closers := s.closers[i := Late])
      else s.(closers := s.closers[i := if Refuses(c, worlds[i]) then Refused else Waiting],
              log := s.log + Perform(worlds[i], StopSteps(c)))
    case Waiting => s.(closers := s.closers[i := Closing(0)])
    case Closing(k) =>
      if k < |Closings(c)| then s.(closers := s.closers[i := Closing(k + 1)], log := s.log + [Closings(c)[k]])
      else s.(closed := true, closers := s.closers[i := Through])
    case _ => s
  }

  function Begin(n: nat): Overlap { Overlap(false, seq(n, i => Outside), []) }

  /** Calls take their stretches in any order. */
  function RunFrom(c: Config, worlds: seq<World>, turns: seq<nat>): (s: Overlap)
    requires c.Valid()
    ensures |s.closers| == |worlds|
  {
    if turns == [] then Begin(|worlds|)
    else
      var s := RunFrom(c, worlds, turns[..|turns| - 1]);
      if Enabled(s, turns[|turns| - 1]) then Advance(c, worlds, s, turns[|turns| - 1]) else s
  }

  // ---------------------------------------------------------------- closings are counted by entrants

  /** The call has done closing number k. */
  predicate Passed(closer: Closer, k: nat) {
    (closer.Closing? && closer.k > k) || closer.Through?
  }

  function Passes(closers: seq<Closer>, k: nat): nat {
    if closers == [] then 0 else (if Passed(closers[0], k) then 1 else 0) + Passes(closers[1..], k)
  }

  function Entered(closers: seq<Closer>): nat {
    if closers == [] then 0 else (if closers[0].Through? then 1 else 0) + Entered(closers[1..])
  }

  ghost predicate Inv(c: Config, s: Overlap) {
    && (forall i :: 0 <= i < |s.closers| && s.closers[i].Closing? ==> s.closers[i].k <= |Closings(c)|)
    && (forall k :: 0 <= k < |Closings(c)| ==> multiset(s.log)[Closings(c)[k]] == Passes(s.closers, k))
  }

  lemma {:induction false} PassesUpdate(closers: seq<Closer>, i: nat, x: Closer, k: nat)
    requires i < |closers|
    ensures Passes(closers[i := x], k) + (if Passed(closers[i], k) then 1 else 0)
         == Passes(closers, k) + (if Passed(x, k) then 1 else 0)
  {
    if i == 0 {
      assert closers[0 := x][1..] == closers[1..];
    } else {
      PassesUpdate(closers[1..], i - 1, x, k);
      assert closers[i := x][1..] == closers[1..][i - 1 := x];
    }
  }

  lemma ClosingsDistinct(c: Config, j: nat, k: nat)
    requires j < |Closings(c)| && k < |Closings(c)| && Closings(c)[j] == Closings(c)[k]
    ensures j == k
  {
    ClosingsInOrder(c);
    hide Closings;
  }

  /** Stop requests are no closings. */
  lemma StopsCloseNothing(c: Config, w: World, k: nat)
    requires c.Valid() && k < |Closings(c)|
    ensures multiset(Perform(w, StopSteps(c)))[Closings(c)[k]] == 0
  {
    StopsInOrder(c, w);
    ClosingsInOrder(c);
    hide Closings;
    hide StopSteps;
    assert Closings(c)[k] !in StopSteps(c);
  }

  lemma AdvanceCounts(c: Config, worlds: seq<World>, s: Overlap, i: nat, k: nat)
    requires c.Valid() && |worlds| == |s.closers| && Enabled(s, i) && k < |Closings(c)|
    requires multiset(s.log)[Closings(c)[k]] == Passes(s.closers, k)
    ensures var t := Advance(c, worlds, s, i); multiset(t.log)[Closings(c)[k]] == Passes(t.closers, k)
  {
    hide Closings;
    hide StopSteps;
    hide Refuses;
    hide Passes;
    PassesUpdate(s.closers, i, Advance(c, worlds, s, i).closers[i], k);
    StopsCloseNothing(c, worlds[i], k);
    if s.closers[i].Closing? && s.closers[i].k < |Closings(c)| && Closings(c)[s.closers[i].k] == Closings(c)[k] {
      ClosingsDistinct(c, s.closers[i].k, k);
    }
  }

  lemma AdvanceKeeps(c: Config, worlds: seq<World>, s: Overlap, i: nat)
    requires c.Valid() && |worlds| == |s.closers| && Inv(c, s) && Enabled(s, i)
    ensures Inv(c, Advance(c, worlds, s, i))
  {
    hide Closings;
    hide StopSteps;
    hide Refuses;
    hide Passes;
    var t := Advance(c, worlds, s, i);
    forall k | 0 <= k < |Closings(c)| ensures multiset(t.log)[Closings(c)[k]] == Passes(t.closers, k) {
      AdvanceCounts(c, worlds, s, i, k);
    }
  }

  lemma {:induction false} NobodyPassed(closers: seq<Closer>, k: nat)
    requires forall i :: 0 <= i < |closers| ==> closers[i].Outside?
    ensures Passes(closers, k) == 0
  {
    if closers != [] { NobodyPassed(closers[1..], k); }
  }

  lemma {:induction false} RunsKeep(c: Config, worlds: seq<World>, turns: seq<nat>)
    requires c.Valid()
    ensures Inv(c, RunFrom(c, worlds, turns))
  {
    if turns == [] {
      forall k | 0 <= k < |Closings(c)| ensures Passes(Begin(|worlds|).closers, k) == 0 { NobodyPassed(Begin(|worlds|).closers, k); }
    } else {
      hide Inv;
      var init := turns[..|turns| - 1];
      RunsKeep(c, worlds, init);
      if Enabled(RunFrom(c, worlds, init), turns[|turns| - 1]) {
        AdvanceKeeps(c, worlds, RunFrom(c, worlds, init), turns[|turns| - 1]);
      }
    }
  }

  lemma {:induction false} AllPassed(closers: seq<Closer>, k: nat)
    requires forall i :: 0 <= i < |closers| ==> Over(closers[i])
    ensures Passes(closers, k) == Entered(closers)
  {
    if closers != [] { AllPassed(closers[1..], k); }
  }

  /** When all calls are over, everything has been closed once for each call that came through. */
  lemma ClosedOncePerEntrant(c: Config, worlds: seq<World>, turns: seq<nat>, k: nat)
    requires c.Valid() && k < |Closings(c)|
    requires var s := RunFrom(c, worlds, turns); forall i :: 0 <= i < |s.closers| ==> Over(s.closers[i])
    ensures var s := RunFrom(c, worlds, turns); multiset(s.log)[Closings(c)[k]] == Entered(s.closers)
  {
    RunsKeep(c, worlds, turns);
    AllPassed(RunFrom(c, worlds, turns).closers, k);
  }

  // ---------------------------------------------------------------- entrants, by the schedule

  /** At turn b a call that can be closed with acts while the runtime is still open. */
  ghost predicate ActsWhileOpen(c: Config, worlds: seq<World>, turns: seq<nat>, b: nat)
    requires c.Valid()
  {
    && b < |turns| && turns[b] < |worlds| && !Refuses(c, worlds[turns[b]])
    && !RunFrom(c, worlds, turns[..b]).closed
  }

  ghost predicate Enters(c: Config, worlds: seq<World>, turns: seq<nat>, i: nat)
    requires c.Valid()
  {
    exists b: nat :: ActsWhileOpen(c, worlds, turns, b) && turns[b] == i
  }

  /** The runtime is never open for two calls that can be closed with. */
  ghost predicate NoOverlap(c: Config, worlds: seq<World>, turns: seq<nat>)
    requires c.Valid()
  {
    forall a: nat, b: nat :: ActsWhileOpen(c, worlds, turns, a) && ActsWhileOpen(c, worlds, turns, b) ==> turns[a] == turns[b]
  }

  predicate Inside(closer: Closer) { closer.Waiting? || closer.Closing? || closer.Through? }

  /** Refused calls are those whose stop requests raise; no call is through while the runtime is open. */
  lemma {:induction false} WhereCallsAre(c: Config, worlds: seq<World>, turns: seq<nat>, i: nat)
    requires c.Valid() && i < |worlds|
    ensures var s := RunFrom(c, worlds, turns);
            && (s.closers[i].Refused? ==> Refuses(c, worlds[i])) && (Inside(s.closers[i]) ==> !Refuses(c, worlds[i]))
            && (s.closers[i].Through? || s.closers[i].Late? ==> s.closed)
            && (s.closed ==> SomeoneThrough(s.closers))
  {
    hide Refuses;
    hide Closings;
    if turns != [] {
      var init := turns[..|turns| - 1];
      var s, t := RunFrom(c, worlds, init), RunFrom(c, worlds, turns);
      WhereCallsAre(c, worlds, init, i);
      if s.closed {
        var j :| 0 <= j < |worlds| && s.closers[j].Through?;
        assert t.closers[j].Through?;
      } else if t.closed {
        assert t.closers[turns[|turns| - 1]].Through?;
      }
    }
  }

  lemma ActsOfPrefix(c: Config, worlds: seq<World>, turns: seq<nat>, b: nat)
    requires c.Valid() && turns != [] && b < |turns| - 1
    ensures ActsWhileOpen(c, worlds, turns[..|turns| - 1], b) <==> ActsWhileOpen(c, worlds, turns, b)
  {
    assert turns[..|turns| - 1][..b] == turns[..b];
  }

  lemma EntersGrows(c: Config, worlds: seq<World>, turns: seq<nat>, i: nat)
    requires c.Valid() && turns != []
    ensures var last := |turns| - 1;
            Enters(c, worlds, turns, i) <==>
              Enters(c, worlds, turns[..last], i) || (ActsWhileOpen(c, worlds, turns, last) && turns[last] == i)
  {
    hide RunFrom;
    hide Refuses;
    var last := |turns| - 1;
    if b: nat :| ActsWhileOpen(c, worlds, turns, b) && turns[b] == i {
      if b < last {
        ActsOfPrefix(c, worlds, turns, b);
        assert ActsWhileOpen(c, worlds, turns[..last], b) && turns[..last][b] == i;
      }
    }
    if b: nat :| ActsWhileOpen(c, worlds, turns[..last], b) && turns[..last][b] == i {
      ActsOfPrefix(c, worlds, turns, b);
      assert ActsWhileOpen(c, worlds, turns, b) && turns[b] == i;
    }
  }

  lemma InsideGrows(c: Config, worlds: seq<World>, turns: seq<nat>, i: nat)
    requires c.Valid() && turns != [] && i < |worlds|
    ensures var last := |turns| - 1;
            Inside(RunFrom(c, worlds, turns).closers[i]) <==>
              Inside(RunFrom(c, worlds, turns[..last]).closers[i]) || (ActsWhileOpen(c, worlds, turns, last) && turns[last] == i)
  {
    WhereCallsAre(c, worlds, turns[..|turns| - 1], i);
    RunStep(c, worlds, turns);
    hide RunFrom;
    hide Refuses;
    hide Advance;
    hide Closings;
    var last := |turns| - 1;
    var s := RunFrom(c, worlds, turns[..last]);
    if Enabled(s, turns[last]) {
      AdvanceInside(c, worlds, s, turns[last], i);
    }
  }

  lemma RunStep(c: Config, worlds: seq<World>, turns: seq<nat>)
    requires c.Valid() && turns != []
    ensures var last := |turns| - 1;
            var s := RunFrom(c, worlds, turns[..last]);
            RunFrom(c, worlds, turns) == if Enabled(s, turns[last]) then Advance(c, worlds, s, turns[last]) else s
  {}

  lemma AdvanceInside(c: Config, worlds: seq<World>, s: Overlap, j: nat, i: nat)
    requires c.Valid() && |worlds| == |s.closers| && Enabled(s, j) && i < |s.closers|
    requires Inside(s.closers[i]) ==> !Refuses(c, worlds[i])
    ensures Inside(Advance(c, worlds, s, j).closers[i]) <==> Inside(s.closers[i]) || (j == i && !s.closed && !Refuses(c, worlds[i]))
  {
    hide Refuses;
    hide Closings;
    hide StopSteps;
    hide Perform;
  }

  /** A call is inside, or through, exactly if it ever acted while the runtime was open. */
  lemma {:induction false} InsideExactly(c: Config, worlds: seq<World>, turns: seq<nat>, i: nat)
    requires c.Valid() && i < |worlds|
    ensures Inside(RunFrom(c, worlds, turns).closers[i]) <==> Enters(c, worlds, turns, i)
  {
    if turns != [] {
      hide RunFrom;
      hide Enters;
      hide ActsWhileOpen;
      InsideExactly(c, worlds, turns[..|turns| - 1], i);
      EntersGrows(c, worlds, turns, i);
      InsideGrows(c, worlds, turns, i);
    }
  }

  lemma {:induction false} EnteredOnce(closers: seq<Closer>)
    ensures Entered(closers) == 0 <==> forall i :: 0 <= i < |closers| ==> !closers[i].Through?
    ensures Entered(closers) == 1 <==>
              exists i :: 0 <= i < |closers| && closers[i].Through? && forall j :: 0 <= j < |closers| && closers[j].Through? ==> j == i
  {
    if closers != [] {
      var rest := closers[1..];
      EnteredOnce(rest);
      assert forall j :: 0 <= j < |rest| ==> rest[j] == closers[j + 1];
      if closers[0].Through? {
        assert Entered(closers) == 1 ==> forall j :: 0 <= j < |closers| && closers[j].Through? ==> j == 0;
      } else if Entered(rest) == 1 {
        var i :| 0 <= i < |rest| && rest[i].Through? && forall j :: 0 <= j < |rest| && rest[j].Through? ==> j == i;
        forall j | 0 <= j < |closers| && closers[j].Through? ensures j == i + 1 { assert rest[j - 1].Through?; }
        assert closers[i + 1].Through?;
      }
    }
  }

  /**
   When all calls are over, everything has been closed exactly once if and only if some call that no
   worker refuses was made, and only one such call acted while the runtime was still open: exactly once
   needs calls that do not overlap.
   */
  lemma ClosedOnceExactly(c: Config, worlds: seq<World>, turns: seq<nat>, k: nat)
    requires c.Valid() && k < |Closings(c)|
    requires var s := RunFrom(c, worlds, turns); forall i :: 0 <= i < |s.closers| ==> Over(s.closers[i])
    ensures multiset(RunFrom(c, worlds, turns).log)[Closings(c)[k]] == 1 <==>
              (exists i :: 0 <= i < |worlds| && !Refuses(c, worlds[i])) && NoOverlap(c, worlds, turns)
  {
    var s := RunFrom(c, worlds, turns);
    ClosedOncePerEntrant(c, worlds, turns, k);
    hide Closings;
    hide NoOverlap;
    hide RunFrom;
    hide Enters;
    hide Refuses;
    EnteredOnce(s.closers);
    forall i | 0 <= i < |worlds| ensures s.closers[i].Through? <==> Enters(c, worlds, turns, i) {
      ThroughExactly(c, worlds, turns, i);
    }
    SingleEntrant(c, worlds, turns);
    SomeoneExactly(c, worlds, turns);
  }

  lemma ThroughExactly(c: Config, worlds: seq<World>, turns: seq<nat>, i: nat)
    requires c.Valid() && i < |worlds|
    requires var s := RunFrom(c, worlds, turns); forall i :: 0 <= i < |s.closers| ==> Over(s.closers[i])
    ensures RunFrom(c, worlds, turns).closers[i].Through? <==> Enters(c, worlds, turns, i)
  {
    hide RunFrom;
    hide Refuses;
    hide Enters;
    InsideExactly(c, worlds, turns, i);
  }

  /** Some call came through exactly if some call met no raising stop request. */
  lemma SomeoneExactly(c: Config, worlds: seq<World>, turns: seq<nat>)
    requires c.Valid()
    requires var s := RunFrom(c, worlds, turns); forall i :: 0 <= i < |s.closers| ==> Over(s.closers[i])
    ensures SomeoneThrough(RunFrom(c, worlds, turns).closers) <==> exists i :: 0 <= i < |worlds| && !Refuses(c, worlds[i])
  {
    hide RunFrom;
    hide Refuses;
    var s := RunFrom(c, worlds, turns);
    forall i | 0 <= i < |worlds|
      ensures s.closers[i].Through? ==> !Refuses(c, worlds[i])
      ensures !Refuses(c, worlds[i]) ==> SomeoneThrough(s.closers)
    {
      WhereCallsAre(c, worlds, turns, i);
    }
  }

  ghost predicate SomeoneThrough(closers: seq<Closer>) {
    exists j :: 0 <= j < |closers| && closers[j].Through?
  }

  /** No overlap means at most one entrant. */
  lemma SingleEntrant(c: Config, worlds: seq<World>, turns: seq<nat>)
    requires c.Valid()
    ensures NoOverlap(c, worlds, turns) <==>
              forall i: nat, j: nat :: Enters(c, worlds, turns, i) && Enters(c, worlds, turns, j) ==> i == j
    ensures forall i: nat :: Enters(c, worlds, turns, i) ==> i < |worlds|
  {
    hide RunFrom;
    hide Refuses;
    if forall i: nat, j: nat :: Enters(c, worlds, turns, i) && Enters(c, worlds, turns, j) ==> i == j {
      forall a: nat, b: nat | ActsWhileOpen(c, worlds, turns, a) && ActsWhileOpen(c, worlds, turns, b) ensures turns[a] == turns[b] {
        assert Enters(c, worlds, turns, turns[a]) && Enters(c, worlds, turns, turns[b]);
      }
    }
  }

  // ---------------------------------------------------------------- two calls at once

  /** Nothing but the engine is configured. */
  const ENGINE_ONLY: Config := Config([false, false, false, false, false], false, false, 0)

  /** One stretch when there is only the engine to dispose of. */
  function AdvanceEngine(s: Overlap, i: nat): Overlap
    requires Enabled(s, i)
  {
    match s.closers[i]
    case Outside => s.(closers := s.closers[i := if s.closed then Late else Waiting])
    case Waiting => s.(closers := s.closers[i := Closing(0)])
    case Closing(k) =>
      if k < 1 then s.(closers := s.closers[i := Closing(k + 1)], log := s.log + [EngineDisposed])
      else s.(closed := true, closers := s.closers[i := Through])
    case _ => s
  }

  lemma NoWorkers()
    ensures ENGINE_ONLY.Valid() && StopSteps(ENGINE_ONLY) == [] && Closings(ENGINE_ONLY) == [EngineDisposed]
  {
    StopsInOrder(ENGINE_ONLY, World(e => None, k => false, k => InTime(Finishes)));
  }

  lemma Turn(w: World, turns: seq<nat>, n: nat)
    requires n < |turns|
    ensures var s := RunFrom(ENGINE_ONLY, [w, w], turns[..n]);
            Enabled(s, turns[n]) ==> RunFrom(ENGINE_ONLY, [w, w], turns[..n + 1]) == AdvanceEngine(s, turns[n])
  {
    NoWorkers();
    hide StopSteps;
    hide Closings;
    assert turns[..n + 1][..n] == turns[..n];
    var s := RunFrom(ENGINE_ONLY, [w, w], turns[..n]);
    if Enabled(s, turns[n]) {
      AdvancesEngine(w, s, turns[n]);
    }
  }

  lemma AdvancesEngine(w: World, s: Overlap, i: nat)
    requires |s.closers| == 2 && Enabled(s, i)
    ensures Advance(ENGINE_ONLY, [w, w], s, i) == AdvanceEngine(s, i)
  {
    NoWorkers();
    hide StopSteps;
    hide Closings;
    assert s.log + [] == s.log;
  }

  const SCHEDULE: seq<nat> := [0, 1, 0, 0, 0, 1, 1, 1]

  lemma BothInside(w: World)
    ensures RunFrom(ENGINE_ONLY, [w, w], SCHEDULE[..2]) == Overlap(false, [Waiting, Waiting], [])
  {
    assert RunFrom(ENGINE_ONLY, [w, w], SCHEDULE[..0]) == Overlap(false, [Outside, Outside], []);
    hide RunFrom;
    Turn(w, SCHEDULE, 0);
    Turn(w, SCHEDULE, 1);
    assert RunFrom(ENGINE_ONLY, [w, w], SCHEDULE[..1]) == Overlap(false, [Waiting, Outside], []);
  }

  lemma FirstCallThrough(w: World)
    ensures RunFrom(ENGINE_ONLY, [w, w], SCHEDULE[..5]) == Overlap(true, [Through, Waiting], [EngineDisposed])
  {
    BothInside(w);
    hide RunFrom;
    Turn(w, SCHEDULE, 2);
    Turn(w, SCHEDULE, 3);
    Turn(w, SCHEDULE, 4);
    assert RunFrom(ENGINE_ONLY, [w, w], SCHEDULE[..3]) == Overlap(false, [Closing(0), Waiting], []);
    assert RunFrom(ENGINE_ONLY, [w, w], SCHEDULE[..4]) == Overlap(false, [Closing(1), Waiting], [EngineDisposed]);
  }

  /** It can happen: two calls overlap, and the engine is disposed of twice. */
  lemma OverlapClosesTwice(w: World)
    ensures RunFrom(ENGINE_ONLY, [w, w], SCHEDULE) == Overlap(true, [Through, Through], [EngineDisposed, EngineDisposed])
  {
    FirstCallThrough(w);
    hide RunFrom;
    Turn(w, SCHEDULE, 5);
    Turn(w, SCHEDULE, 6);
    Turn(w, SCHEDULE, 7);
    assert SCHEDULE[..8] == SCHEDULE;
    assert RunFrom(ENGINE_ONLY, [w, w], SCHEDULE[..6]) == Overlap(true, [Through, Closing(0)], [EngineDisposed]);
    assert RunFrom(ENGINE_ONLY, [w, w], SCHEDULE[..7]) == Overlap(true, [Through, Closing(1)], [EngineDisposed, EngineDisposed]);
  }
}
