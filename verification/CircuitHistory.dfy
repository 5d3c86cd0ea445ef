/**
 The breaker explained by its history instead of its counters.

 The explanation keeps every reported result of every generation. A generation is a period that
 was closed from its start, or open until a given time; what happens next depends only on the
 results listed for the current period and on the permits that calls still hold.
 */
module CircuitHistory {
  import opened Outcomes
  import opened CircuitBreaker
  import opened CircuitRuns

  datatype Period = Period(until: Option<real>, results: seq<bool>)

  datatype Past = Past(periods: seq<Period>, inFlight: map<nat, nat>, abandoned: map<nat, nat>)

  const NO_PAST := Past([Period(None, [])], map[], map[])

  function Current(h: Past): Period
    requires h.periods != []
  {
    h.periods[|h.periods| - 1]
  }

  /** How many results at the end are failures. */
  function Trailing(results: seq<bool>): nat {
    if results == [] || results[|results| - 1] then 0 else 1 + Trailing(results[..|results| - 1])
  }

  /** A call of the current period has not reported yet, or never will. */
  ghost predicate Awaited(h: Past) {
    exists c :: (c in h.inFlight && h.inFlight[c] == |h.periods| - 1) || (c in h.abandoned && h.abandoned[c] == |h.periods| - 1)
  }

  ghost predicate LetsThrough(h: Past, now: real)
    requires h.periods != []
  {
    Current(h).until.Some? ==> now >= Current(h).until.value && !Awaited(h)
  }

  /** A result reported for the current period is added to it, and may end it. */
  function Report(cfg: Config, periods: seq<Period>, period: nat, success: bool, now: real): seq<Period>
    requires periods != []
  {
    var n := |periods| - 1;
    var p := Period(periods[n].until, periods[n].results + [success]);
    if period != n then periods
    else if p.until.Some? then periods[n := p] + [Period(if success then None else Some(now + cfg.recovery), [])]
    else if Trailing(p.results) >= cfg.threshold then periods[n := p] + [Period(Some(now + cfg.recovery), [])]
    else periods[n := p]
  }

  ghost function Tell(cfg: Config, h: Past, e: Event): Past
    requires h.periods != []
  {
    if e.Acquires? then
      if e.call in h.inFlight || e.call in h.abandoned || !LetsThrough(h, e.now) then h
      else h.(inFlight := h.inFlight[e.call := |h.periods| - 1])
    else if e.call !in h.inFlight then h
    else
      var period := h.inFlight[e.call];
      var rest := h.inFlight - {e.call};
      match e
      case Succeeds(_) => Past(Report(cfg, h.periods, period, true, 0.0), rest, h.abandoned)
      case Fails(_, now) => Past(Report(cfg, h.periods, period, false, now), rest, h.abandoned)
      case Cancels(_) => h.(inFlight := rest)
      case Abandons(_) => h.(inFlight := rest, abandoned := h.abandoned[e.call := period])
  }

  ghost function Told(cfg: Config, events: seq<Event>): (h: Past)
    ensures h.periods != []
  {
    if events == [] then NO_PAST
    else Tell(cfg, Told(cfg, events[..|events| - 1]), events[|events| - 1])
  }

  // ---------------------------------------------------------------- refinement

  /** The counters say what the list of periods says. */
  ghost predicate CountersMatch(s: State, periods: seq<Period>) {
    && periods != []
    && var last := periods[|periods| - 1];
      && s.generation == |periods| - 1
      && s.openUntil == last.until
      && (s.openUntil.None? ==> s.failures == Trailing(last.results))
      && (s.openUntil.Some? ==> last.results == [])
  }

  /** Calls hold the permits of the periods in which they were admitted. */
  ghost predicate PermitsMatch(permits: map<nat, Permit>, admitted: map<nat, nat>) {
    permits.Keys == admitted.Keys && forall c :: c in permits ==> admitted[c] == permits[c].generation
  }

  ghost predicate Explains(cfg: Config, w: World, h: Past) {
    CountersMatch(w.breaker, h.periods) && PermitsMatch(w.inFlight, h.inFlight) && PermitsMatch(w.abandoned, h.abandoned)
  }

  lemma ProbingMeansAwaited(cfg: Config, w: World, h: Past)
    requires Inv(cfg, w) && Explains(cfg, w, h) && w.breaker.openUntil.Some?
    ensures w.breaker.probing <==> Awaited(h)
  {
    if w.breaker.probing {
      var c :| Probes(w, c);
    }
    if Awaited(h) {
      var c :| (c in h.inFlight && h.inFlight[c] == |h.periods| - 1) || (c in h.abandoned && h.abandoned[c] == |h.periods| - 1);
      var p := if c in h.inFlight && h.inFlight[c] == |h.periods| - 1 then w.inFlight[c] else w.abandoned[c];
      assert Holds(w, c, p);
      assert Probes(w, c);
    }
  }

  lemma ExplainsAcquire(cfg: Config, w: World, h: Past, e: Event)
    requires Inv(cfg, w) && Explains(cfg, w, h) && e.Acquires?
    ensures Explains(cfg, Step(cfg, w, e), Tell(cfg, h, e))
  {
    if w.breaker.openUntil.Some? { ProbingMeansAwaited(cfg, w, h); }
  }

  lemma TrailingSnoc(results: seq<bool>, success: bool)
    ensures Trailing(results + [success]) == if success then 0 else Trailing(results) + 1
  {
    assert (results + [success])[..|results|] == results;
  }

  lemma ReportCounters(cfg: Config, s: State, periods: seq<Period>, p: Permit, success: bool, now: real)
    requires cfg.Valid() && CountersMatch(s, periods) && s.failures < cfg.threshold
    requires p.generation == s.generation ==> (p.halfOpen <==> s.openUntil.Some?)
    ensures CountersMatch(if success then Succeed(s, p) else Fail(cfg, s, p, now), Report(cfg, periods, p.generation, success, now))
  {
    TrailingSnoc(periods[|periods| - 1].results, success);
  }

  lemma ExplainsReport(cfg: Config, w: World, h: Past, e: Event)
    requires cfg.Valid() && Inv(cfg, w) && Explains(cfg, w, h) && !e.Acquires? && e.call in w.inFlight
    ensures Explains(cfg, Step(cfg, w, e), Tell(cfg, h, e))
  {
    var p := w.inFlight[e.call];
    assert Holds(w, e.call, p);
    hide Inv;
    hide Report;
    hide CountersMatch;
    NonEmptyPeriods(w.breaker, h.periods);
    RemovedMatch(w.inFlight, h.inFlight, e.call);
    match e
    case Succeeds(_) => ReportCounters(cfg, w.breaker, h.periods, p, true, 0.0);
    case Fails(_, now) => ReportCounters(cfg, w.breaker, h.periods, p, false, now);
    case Cancels(_) => CancelCounters(w.breaker, h.periods, p);
    case Abandons(_) =>
  }

  lemma NonEmptyPeriods(s: State, periods: seq<Period>)
    requires CountersMatch(s, periods)
    ensures periods != []
  {}

  lemma RemovedMatch(permits: map<nat, Permit>, admitted: map<nat, nat>, call: nat)
    requires PermitsMatch(permits, admitted)
    ensures PermitsMatch(permits - {call}, admitted - {call})
  {}

  lemma CancelCounters(s: State, periods: seq<Period>, p: Permit)
    requires CountersMatch(s, periods)
    ensures CountersMatch(Cancel(s, p), periods)
  {}

  /** For every interleaving, the counters and flags are those the history explains. */
  lemma {:induction false} CountersFollowHistory(cfg: Config, events: seq<Event>)
    requires cfg.Valid()
    ensures Explains(cfg, Run(cfg, events), Told(cfg, events))
  {
    if events != [] {
      var init, last := events[..|events| - 1], events[|events| - 1];
      CountersFollowHistory(cfg, init);
      EveryRunKeepsInvariant(cfg, init);
      var w, h := Run(cfg, init), Told(cfg, init);
      assert Run(cfg, events) == Step(cfg, w, last);
      if last.Acquires? {
        ExplainsAcquire(cfg, w, h, last);
      } else if last.call in w.inFlight {
        ExplainsReport(cfg, w, h, last);
      }
    }
  }

  // ---------------------------------------------------------------- what a history looks like

  /** A closed period that has not ended: nowhere did `threshold` failures come in a row. */
  ghost predicate NoRun(cfg: Config, results: seq<bool>) {
    forall n: nat :: n <= |results| ==> Trailing(results[..n]) < cfg.threshold
  }

  /** A closed period ends with its first run of exactly `threshold` failures, and is followed by an open one. */
  ghost predicate EndedClosed(cfg: Config, p: Period, next: Period) {
    && p.results != [] && NoRun(cfg, p.results[..|p.results| - 1])
    && Trailing(p.results) == cfg.threshold
    && next.until.Some?
  }

  /** An open period ends with the one result of its probe, which decides whether the next is closed. */
  ghost predicate EndedOpen(p: Period, next: Period) {
    |p.results| == 1 && (next.until.None? <==> p.results[0])
  }

  ghost predicate WellFormed(cfg: Config, periods: seq<Period>) {
    && periods != []
    && (forall i :: 0 <= i < |periods| - 1 ==>
          if periods[i].until.None? then EndedClosed(cfg, periods[i], periods[i + 1]) else EndedOpen(periods[i], periods[i + 1]))
    && var last := periods[|periods| - 1];
      if last.until.None? then NoRun(cfg, last.results) else last.results == []
  }

  lemma NoRunSnoc(cfg: Config, results: seq<bool>, success: bool)
    requires NoRun(cfg, results) && Trailing(results + [success]) < cfg.threshold
    ensures NoRun(cfg, results + [success])
  {
    var r := results + [success];
    forall n: nat | n <= |r| ensures Trailing(r[..n]) < cfg.threshold {
      assert n <= |results| ==> r[..n] == results[..n];
      assert n == |r| ==> r[..n] == r;
    }
  }

  lemma ReportKeepsForm(cfg: Config, periods: seq<Period>, period: nat, success: bool, now: real)
    requires cfg.Valid() && WellFormed(cfg, periods)
    ensures WellFormed(cfg, Report(cfg, periods, period, success, now))
  {
    var n := |periods| - 1;
    var r := periods[n].results;
    TrailingSnoc(r, success);
    assert r[..|r|] == r && (r + [success])[..|r|] == r;
    if period == n && periods[n].until.None? && Trailing(r + [success]) < cfg.threshold {
      NoRunSnoc(cfg, r, success);
    }
    var after := Report(cfg, periods, period, success, now);
    forall i | 0 <= i < |after| - 1
      ensures if after[i].until.None? then EndedClosed(cfg, after[i], after[i + 1]) else EndedOpen(after[i], after[i + 1])
    {
      if i < n {
        assert after[i] == periods[i] && after[i + 1].until == periods[i + 1].until;
      }
    }
  }

  /**
   For every interleaving: a closed breaker opens exactly when `threshold` results in a row are
   failures, an open one changes exactly on the result of a single probe, and results of calls
   admitted in an earlier period are never counted.
   */
  lemma {:induction false} HistoryWellFormed(cfg: Config, events: seq<Event>)
    requires cfg.Valid()
    ensures WellFormed(cfg, Told(cfg, events).periods)
  {
    if events == [] {
      assert NoRun(cfg, []);
    } else {
      var init, last := events[..|events| - 1], events[|events| - 1];
      HistoryWellFormed(cfg, init);
      var h := Told(cfg, init);
      if !last.Acquires? && last.call in h.inFlight {
        ReportKeepsForm(cfg, h.periods, h.inFlight[last.call], true, 0.0);
        if last.Fails? {
          ReportKeepsForm(cfg, h.periods, h.inFlight[last.call], false, last.now);
        }
      }
    }
  }
}
