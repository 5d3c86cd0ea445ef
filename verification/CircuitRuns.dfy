/** Every interleaving of calls keeps the breaker's invariant. */
module CircuitRuns {
  import opened Outcomes
  import opened CircuitBreaker

  lemma AcquireKeeps(cfg: Config, w: World, call: nat, now: real)
    requires cfg.Valid() && Inv(cfg, w)
    ensures Inv(cfg, Step(cfg, w, Acquires(call, now)))
  {
    var v := Step(cfg, w, Acquires(call, now));
    if v != w {
      forall c, p ensures Holds(v, c, p) <==> if c == call then p == v.inFlight[call] else Holds(w, c, p) {}
      assert forall c :: !Probes(w, c);
      if w.breaker.openUntil.Some? {
        assert Probes(v, call);
        forall c | c != call ensures !Probes(v, c) {
          assert Probes(v, c) <==> Probes(w, c);
        }
      } else {
        assert forall c :: !Probes(v, c);
      }
    }
  }

  /** A reported outcome removes one permit and changes the breaker. */
  lemma HoldsAfter(w: World, v: World, call: nat, c: nat, p: Permit)
    requires call in w.inFlight && call !in w.abandoned && v.inFlight == w.inFlight - {call} && v.abandoned == w.abandoned
    ensures Holds(v, c, p) <==> c != call && Holds(w, c, p)
  {}

  lemma ReportKeeps(cfg: Config, w: World, e: Event)
    requires cfg.Valid() && Inv(cfg, w) && !e.Acquires? && !e.Abandons? && e.call in w.inFlight
    ensures Inv(cfg, Step(cfg, w, e))
  {
    var v := Step(cfg, w, e);
    var p := w.inFlight[e.call];
    assert Holds(w, e.call, p);
    forall c, r ensures Holds(v, c, r) <==> c != e.call && Holds(w, c, r) {
      HoldsAfter(w, v, e.call, c, r);
    }
    if v.breaker.generation == w.breaker.generation {
      assert forall c :: Probes(v, c) <==> c != e.call && Probes(w, c);
      if p.generation == w.breaker.generation && p.halfOpen {
        assert Probes(w, e.call);
      } else if w.breaker.probing {
        var c :| Probes(w, c);
        assert Probes(v, c);
      }
    } else {
      assert forall c :: !Probes(v, c);
    }
  }

  lemma AbandonKeeps(cfg: Config, w: World, call: nat)
    requires Inv(cfg, w) && call in w.inFlight
    ensures Inv(cfg, Step(cfg, w, Abandons(call)))
  {
    var v := Step(cfg, w, Abandons(call));
    forall c, p ensures Holds(v, c, p) <==> Holds(w, c, p) {}
    assert forall c :: Probes(v, c) <==> Probes(w, c);
  }

  lemma StepKeeps(cfg: Config, w: World, e: Event)
    requires cfg.Valid() && Inv(cfg, w)
    ensures Inv(cfg, Step(cfg, w, e))
  {
    hide Inv;
    if e.Acquires? {
      AcquireKeeps(cfg, w, e.call, e.now);
    } else if e.call in w.inFlight {
      if e.Abandons? { AbandonKeeps(cfg, w, e.call); } else { ReportKeeps(cfg, w, e); }
    }
  }

  lemma {:induction false} RunFromKeeps(cfg: Config, w: World, events: seq<Event>)
    requires cfg.Valid() && Inv(cfg, w)
    ensures Inv(cfg, RunFrom(cfg, w, events))
  {
    hide Inv;
    if events != [] {
      RunFromKeeps(cfg, w, events[..|events| - 1]);
      StepKeeps(cfg, RunFrom(cfg, w, events[..|events| - 1]), events[|events| - 1]);
    }
  }

  /** In every run: generations never run ahead, current permits match the state, and at most one probe is out. */
  lemma EveryRunKeepsInvariant(cfg: Config, events: seq<Event>)
    requires cfg.Valid()
    ensures Inv(cfg, Run(cfg, events))
  {
    RunFromKeeps(cfg, START, events);
  }

  // ---------------------------------------------------------------- opening times

  /** The reading at which the breaker was last opened, as the last step that changed the generation shows it. */
  ghost predicate OpenedAt(cfg: Config, events: seq<Event>, j: nat, reading: real) {
    && j < |events| && events[j].Fails? && events[j].now == reading
    && Run(cfg, events[..j]).breaker.generation < Run(cfg, events[..j + 1]).breaker.generation
    && Run(cfg, events[..j + 1]).breaker.generation == Run(cfg, events).breaker.generation
  }

  /** An open breaker was opened by a reported failure, and stays open until the recovery time after it. */
  lemma {:induction false} OpenSinceFailure(cfg: Config, events: seq<Event>) returns (j: nat)
    requires Run(cfg, events).breaker.openUntil.Some?
    ensures j < |events| && events[j].Fails?
    ensures OpenedAt(cfg, events, j, events[j].now)
    ensures Run(cfg, events).breaker.openUntil.value == events[j].now + cfg.recovery
  {
    var init, last := events[..|events| - 1], events[|events| - 1];
    var w, v := Run(cfg, init), Run(cfg, events);
    assert v == Step(cfg, w, last);
    assert events[..|events|] == events;
    if v.breaker.generation == w.breaker.generation {
      j := OpenSinceFailure(cfg, init);
      assert init[..j] == events[..j] && init[..j + 1] == events[..j + 1];
    } else {
      j := |events| - 1;
    }
  }

  /** Whoever is let through an open breaker read the clock at least the recovery time after the failure that opened it. */
  lemma ProbeWaitsForRecovery(cfg: Config, events: seq<Event>, call: nat, now: real)
    requires Run(cfg, events).breaker.openUntil.Some?
    requires Step(cfg, Run(cfg, events), Acquires(call, now)) != Run(cfg, events)
    ensures exists j: nat :: j < |events| && events[j].Fails? && OpenedAt(cfg, events, j, events[j].now)
              && now >= events[j].now + cfg.recovery
  {
    var j := OpenSinceFailure(cfg, events);
  }

  // ---------------------------------------------------------------- recovery

  /** A call that was probing the provider ended without reporting. */
  ghost predicate ProbeAbandoned(w: World) {
    exists c :: c in w.abandoned && w.abandoned[c] == Permit(w.breaker.generation, true)
  }

  lemma WedgeStep(cfg: Config, w: World, e: Event)
    requires cfg.Valid() && Inv(cfg, w) && ProbeAbandoned(w)
    ensures ProbeAbandoned(Step(cfg, w, e))
    ensures Step(cfg, w, e).inFlight.Keys <= w.inFlight.Keys
    ensures Step(cfg, w, e).breaker == w.breaker
  {
    var c :| c in w.abandoned && w.abandoned[c] == Permit(w.breaker.generation, true);
    var v := Step(cfg, w, e);
    assert Probes(w, c);
    if e.call in w.inFlight {
      assert Holds(w, e.call, w.inFlight[e.call]);
      assert e.call != c;
      assert !Probes(w, e.call);
    }
    assert v.breaker == w.breaker;
    assert c in v.abandoned && v.abandoned[c] == w.abandoned[c];
  }

  /** After a probe is abandoned, no call is ever let through again. */
  lemma {:induction false} WedgedForever(cfg: Config, w: World, events: seq<Event>)
    requires cfg.Valid() && Inv(cfg, w) && ProbeAbandoned(w)
    ensures RunFrom(cfg, w, events).breaker == w.breaker
    ensures RunFrom(cfg, w, events).inFlight.Keys <= w.inFlight.Keys
    ensures ProbeAbandoned(RunFrom(cfg, w, events))
  {
    if events != [] {
      var init := events[..|events| - 1];
      WedgedForever(cfg, w, init);
      RunFromKeeps(cfg, w, init);
      WedgeStep(cfg, RunFrom(cfg, w, init), events[|events| - 1]);
    }
  }

  /** Some continuation lets a new call through. */
  ghost predicate CanRecover(cfg: Config, w: World) {
    exists events, c :: c in RunFrom(cfg, w, events).inFlight && c !in w.inFlight
  }

  lemma FreshCall(w: World) returns (c: nat)
    ensures c !in w.inFlight && c !in w.abandoned
  {
    var used := w.inFlight.Keys + w.abandoned.Keys;
    c := Above(used);
  }

  lemma {:induction false} Above(s: set<nat>) returns (n: nat)
    ensures forall x :: x in s ==> x < n
  {
    if s == {} {
      n := 0;
    } else {
      var x :| x in s;
      var m := Above(s - {x});
      n := if m > x then m else x + 1;
      assert forall y :: y in s ==> y == x || y in s - {x};
    }
  }

  lemma GrantsNow(cfg: Config, w: World, c: nat, now: real)
    requires c !in w.inFlight && c !in w.abandoned
    requires w.breaker.openUntil.Some? ==> now >= w.breaker.openUntil.value && !w.breaker.probing
    ensures c in RunFrom(cfg, w, [Acquires(c, now)]).inFlight
  {
    var events := [Acquires(c, now)];
    assert events[..0] == [];
    assert RunFrom(cfg, w, events) == Step(cfg, w, events[0]);
  }

  lemma RecoversWithoutAbandonedProbe(cfg: Config, w: World)
    requires cfg.Valid() && Inv(cfg, w) && !ProbeAbandoned(w)
    ensures CanRecover(cfg, w)
  {
    var c := FreshCall(w);
    var now := if w.breaker.openUntil.Some? then w.breaker.openUntil.value else 0.0;
    if !w.breaker.probing {
      GrantsNow(cfg, w, c, now);
    } else {
      var probe :| Probes(w, probe);
      assert probe in w.inFlight && w.inFlight[probe] == Permit(w.breaker.generation, true);
      var v := Step(cfg, w, Cancels(probe));
      GrantsNow(cfg, v, c, now);
      var events := [Cancels(probe), Acquires(c, now)];
      assert events[..1] == [Cancels(probe)] && events[..1][..0] == [];
      assert RunFrom(cfg, w, events[..1]) == v;
      assert RunFrom(cfg, w, events) == Step(cfg, v, events[1]);
      var one := [Acquires(c, now)];
      assert one[..0] == [];
      assert RunFrom(cfg, v, one) == Step(cfg, v, one[0]);
    }
  }

  /** The breaker can let calls through again exactly when no probe was abandoned. */
  lemma RecoversUnlessProbeAbandoned(cfg: Config, w: World)
    requires cfg.Valid() && Inv(cfg, w)
    ensures CanRecover(cfg, w) <==> !ProbeAbandoned(w)
  {
    if ProbeAbandoned(w) {
      forall events, c | c !in w.inFlight ensures c !in RunFrom(cfg, w, events).inFlight {
        WedgedForever(cfg, w, events);
      }
    } else {
      RecoversWithoutAbandonedProbe(cfg, w);
    }
  }

  /** It can happen: one failure at threshold 1, a probe, and a call that never reports. */
  lemma ProbeCanBeAbandoned()
    ensures exists events :: ProbeAbandoned(Run(Config(1, 60.0), events))
  {
    var cfg := Config(1, 60.0);
    var opening := [Acquires(0, 0.0)];
    var tripped := opening + [Fails(0, 0.0)];
    var probing := tripped + [Acquires(1, 60.0)];
    var wedged := probing + [Abandons(1)];
    RunSnoc(cfg, [], Acquires(0, 0.0));
    assert [] + opening == opening;
    RunSnoc(cfg, opening, Fails(0, 0.0));
    assert Run(cfg, tripped).breaker == State(1, 0, Some(60.0), false);
    RunSnoc(cfg, tripped, Acquires(1, 60.0));
    RunSnoc(cfg, probing, Abandons(1));
    assert Run(cfg, wedged).abandoned[1] == Permit(1, true);
  }

  lemma RunSnoc(cfg: Config, events: seq<Event>, e: Event)
    ensures Run(cfg, events + [e]) == Step(cfg, Run(cfg, events), e)
  {
    assert (events + [e])[..|events|] == events;
  }
}
