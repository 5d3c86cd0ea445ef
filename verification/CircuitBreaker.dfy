/**
 The in-process circuit breaker of the LLM report generator.

 Every method of the breaker runs under its lock, so a run is a sequence of atomic steps taken by
 concurrent calls in any order. Clock readings are taken before the lock and are arbitrary here:
 nothing below needs them to grow.
 */
module CircuitBreaker {
  import opened Outcomes

  datatype Config = Config(threshold: nat, recovery: real) {
    predicate Valid() { 1 <= threshold <= 100 && 0.0 < recovery <= 3600.0 }
  }

  datatype Permit = Permit(generation: nat, halfOpen: bool)

  datatype State = State(generation: nat, failures: nat, openUntil: Option<real>, probing: bool)

  const FRESH := State(0, 0, None, false)

  function Acquire(s: State, now: real): (State, Option<Permit>) {
    if s.openUntil.Some? then
      if now < s.openUntil.value || s.probing then (s, None)
      else (s.(probing := true), Some(Permit(s.generation, true)))
    else (s, Some(Permit(s.generation, false)))
  }

  function Succeed(s: State, p: Permit): State {
    if p.generation != s.generation then s
    else if p.halfOpen then State(s.generation + 1, 0, None, false)
    else s.(failures := 0)
  }

  function Fail(cfg: Config, s: State, p: Permit, now: real): State {
    if p.generation != s.generation then s
    else if p.halfOpen || s.failures + 1 >= cfg.threshold then
      State(s.generation + 1, 0, Some(now + cfg.recovery), false)
    else s.(failures := s.failures + 1)
  }

  function Cancel(s: State, p: Permit): State {
    if p.generation == s.generation && p.halfOpen then s.(probing := false) else s
  }

  /** The breaker's fields and its four operations. */
  class Breaker {
    const config: Config
    var generation: nat
    var consecutiveFailures: nat
    var openUntil: Option<real>
    var halfOpenInProgress: bool

    function Snapshot(): State
      reads this
    {
      State(generation, consecutiveFailures, openUntil, halfOpenInProgress)
    }

    constructor (config: Config)
      ensures this.config == config && Snapshot() == FRESH
    {
      this.config := config;
      generation, consecutiveFailures, openUntil, halfOpenInProgress := 0, 0, None, false;
    }

    method AcquirePermit(now: real) returns (permit: Option<Permit>)
      modifies this
      ensures (Snapshot(), permit) == Acquire(old(Snapshot()), now)
    {
      if openUntil.Some? {
        if now < openUntil.value { return None; }
        if halfOpenInProgress { return None; }
        halfOpenInProgress := true;
        return Some(Permit(generation, true));
      }
      return Some(Permit(generation, false));
    }

    method RecordSuccess(permit: Permit)
      modifies this
      ensures Snapshot() == Succeed(old(Snapshot()), permit)
    {
      if permit.generation != generation { return; }
      consecutiveFailures := 0;
      if permit.halfOpen {
        generation := generation + 1;
        openUntil := None;
        halfOpenInProgress := false;
      }
    }

    method RecordFailure(permit: Permit, now: real)
      modifies this
      ensures Snapshot() == Fail(config, old(Snapshot()), permit, now)
    {
      if permit.generation != generation { return; }
      consecutiveFailures := consecutiveFailures + 1;
      if permit.halfOpen || consecutiveFailures >= config.threshold {
        generation := generation + 1;
        consecutiveFailures := 0;
        openUntil := Some(now + config.recovery);
        halfOpenInProgress := false;
      }
    }

    method ReleaseCancelledPermit(permit: Permit)
      modifies this
      ensures Snapshot() == Cancel(old(Snapshot()), permit)
    {
      if permit.generation == generation && permit.halfOpen {
        halfOpenInProgress := false;
      }
    }
  }

  // ---------------------------------------------------------------- runs

  /** What one call does next. A call that ends without reporting to the breaker abandons its permit. */
  datatype Event =
    | Acquires(call: nat, now: real)
    | Succeeds(call: nat)
    | Fails(call: nat, now: real)
    | Cancels(call: nat)
    | Abandons(call: nat)

  datatype World = World(breaker: State, inFlight: map<nat, Permit>, abandoned: map<nat, Permit>)

  const START := World(FRESH, map[], map[])

  /** One atomic step; a step of a call that cannot take it changes nothing. */
  function Step(cfg: Config, w: World, e: Event): World {
    if e.Acquires? then
      var (s, permit) := Acquire(w.breaker, e.now);
      if e.call in w.inFlight || e.call in w.abandoned || permit.None? then w
      else World(s, w.inFlight[e.call := permit.value], w.abandoned)
    else if e.call !in w.inFlight then w
    else
      var p := w.inFlight[e.call];
      var rest := w.inFlight - {e.call};
      match e
      case Succeeds(_) => World(Succeed(w.breaker, p), rest, w.abandoned)
      case Fails(_, now) => World(Fail(cfg, w.breaker, p, now), rest, w.abandoned)
      case Cancels(_) => World(Cancel(w.breaker, p), rest, w.abandoned)
      case Abandons(_) => World(w.breaker, rest, w.abandoned[e.call := p])
  }

  function RunFrom(cfg: Config, w: World, events: seq<Event>): World {
    if events == [] then w
    else Step(cfg, RunFrom(cfg, w, events[..|events| - 1]), events[|events| - 1])
  }

  function Run(cfg: Config, events: seq<Event>): World { RunFrom(cfg, START, events) }

  /** The permit a call still holds, reported or not. */
  ghost predicate Holds(w: World, call: nat, p: Permit) {
    (call in w.inFlight && w.inFlight[call] == p) || (call in w.abandoned && w.abandoned[call] == p)
  }

  ghost predicate Probes(w: World, call: nat) {
    Holds(w, call, Permit(w.breaker.generation, true))
  }

  ghost predicate Inv(cfg: Config, w: World) {
    && w.breaker.failures < cfg.threshold
    && w.inFlight.Keys !! w.abandoned.Keys
    && (w.breaker.openUntil.Some? ==> w.breaker.failures == 0)
    && (w.breaker.probing ==> w.breaker.openUntil.Some?)
    && (forall c, p :: Holds(w, c, p) ==> p.generation <= w.breaker.generation)
    && (forall c, p :: Holds(w, c, p) && p.generation == w.breaker.generation ==> (p.halfOpen <==> w.breaker.openUntil.Some?))
    && (w.breaker.probing <==> exists c :: Probes(w, c))
    && (forall c, d :: Probes(w, c) && Probes(w, d) ==> c == d)
  }
}
