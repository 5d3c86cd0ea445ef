/** The cached, single-flight database probe behind the readiness check. */
module ReadinessProbe {
  import opened Outcomes

  /** The cached result and when it was obtained; the time is missing as long as nothing was ever checked. */
  datatype Cache = Cache(ready: Option<bool>, checkedAt: Option<real>) {
    predicate Fresh(ttl: real, now: real) {
      ready.Some? && checkedAt.Some? && now - checkedAt.value < ttl
    }

    /** The answer that needs no probe. */
    function Answer(ttl: real, now: real): Option<bool> {
      if Fresh(ttl, now) then ready else None
    }

    /** After a probe; the time stays as it was when the clock could not be read. */
    function Stored(ready: bool, now: Option<real>): Cache {
      Cache(Some(ready), if now.Some? then now else checkedAt)
    }
  }

  /** The fields of the runtime that the probe reads and writes, and the three stretches of code between awaits. */
  class Readiness {
    const ttl: real
    var cache: Cache
    var locked: bool

    constructor (ttl: real)
      ensures this.ttl == ttl && cache == Cache(None, None) && !locked
    {
      this.ttl := ttl;
      cache, locked := Cache(None, None), false;
    }

    /** Before the lock: a fresh result is the answer. */
    method Look(now: real) returns (answer: Option<bool>)
      ensures answer == cache.Answer(ttl, now)
    {
      answer := if cache.Fresh(ttl, now) then cache.ready else None;
    }

    /** With the lock just taken: a fresh result is the answer and gives the lock back, otherwise the caller probes. */
    method Recheck(now: real) returns (answer: Option<bool>)
      requires !locked
      modifies this`locked
      ensures answer == cache.Answer(ttl, now)
      ensures locked == answer.None?
    {
      locked := true;
      answer := Look(now);
      if answer.Some? { locked := false; }
    }

    /** A probe has ended: its result is cached, then the clock is read, which may fail; the lock goes back either way. */
    method Store(ready: bool, now: Option<real>)
      requires locked
      modifies this`cache, this`locked
      ensures cache == old(cache).Stored(ready, now) && !locked
    {
      cache := cache.(ready := Some(ready));
      if now.Some? { cache := cache.(checkedAt := now); }
      locked := false;
    }
  }

  // ---------------------------------------------------------------- concurrent callers

  datatype Caller = Outside | Waiting(since: real) | Probing(since: real, begun: real)

  /** A probe that ran to its end: by whom, from when to when, and its result. */
  datatype Probe = Probe(caller: nat, begun: real, ended: real, ready: bool)

  /** An answer, the probe it comes from, and the caller's clock reading that it rests on. */
  datatype Answer = Answer(caller: nat, ready: bool, probe: int, own: bool, since: real, at: real)

  datatype State = State(clock: real, cache: Cache, holder: Option<nat>, callers: seq<Caller>,
                         probes: seq<Probe>, answers: seq<Answer>)

  /** `Lose` is a probe after which the clock cannot be read; `Cancel` takes a caller away at any await. */
  datatype Move = Tick(dt: real) | Enter(i: nat) | Acquire(i: nat) | Finish(i: nat, ready: bool)
                | Lose(i: nat, ready: bool) | Cancel(i: nat)

  predicate Enabled(s: State, m: Move) {
    match m
    case Tick(dt) => dt >= 0.0
    case Enter(i) => i < |s.callers| && s.callers[i].Outside?
    case Acquire(i) => i < |s.callers| && s.callers[i].Waiting? && s.holder.None?
    case Finish(i, _) => i < |s.callers| && s.callers[i].Probing?
    case Lose(i, _) => i < |s.callers| && s.callers[i].Probing?
    case Cancel(i) => i < |s.callers| && !s.callers[i].Outside?
  }

  function Cached(s: State, i: nat, since: real, ready: bool): State
    requires i < |s.callers|
  {
    s.(callers := s.callers[i := Outside],
       answers := s.answers + [Answer(i, ready, |s.probes| - 1, false, since, s.clock)])
  }

  function Leave(s: State, i: nat): State
    requires i < |s.callers|
  {
    s.(callers := s.callers[i := Outside], holder := if s.holder == Some(i) then None else s.holder)
  }

  function Step(ttl: real, s: State, m: Move): State {
    if !Enabled(s, m) then s
    else
      match m
      case Tick(dt) => s.(clock := s.clock + dt)
      case Enter(i) =>
        var answer := s.cache.Answer(ttl, s.clock);
        if answer.Some? then Cached(s, i, s.clock, answer.value) else s.(callers := s.callers[i := Waiting(s.clock)])
      case Acquire(i) =>
        var answer := s.cache.Answer(ttl, s.clock);
        if answer.Some? then Cached(s, i, s.callers[i].since, answer.value)
        else s.(callers := s.callers[i := Probing(s.callers[i].since, s.clock)], holder := Some(i))
      case Finish(i, ready) =>
        Leave(s, i).(cache := s.cache.Stored(ready, Some(s.clock)),
                     probes := s.probes + [Probe(i, s.callers[i].begun, s.clock, ready)],
                     answers := s.answers + [Answer(i, ready, |s.probes|, true, s.callers[i].since, s.callers[i].begun)])
      case Lose(i, ready) => Leave(s, i).(cache := s.cache.Stored(ready, None))
      case Cancel(i) => Leave(s, i)
  }

  function RunFrom(ttl: real, s: State, moves: seq<Move>): State {
    if moves == [] then s else Step(ttl, RunFrom(ttl, s, moves[..|moves| - 1]), moves[|moves| - 1])
  }

  /** After a successful start, whose own check counts as the first probe. */
  function Started(clock: real, n: nat): State {
    State(clock, Cache(Some(true), Some(clock)), None, seq(n, i => Outside), [Probe(n, clock, clock, true)], [])
  }

  // ---------------------------------------------------------------- what every interleaving keeps

  /** One probe at a time, by the holder of the lock. */
  ghost predicate SingleFlight(s: State) {
    forall i: nat :: s.holder == Some(i) <==> i < |s.callers| && s.callers[i].Probing?
  }

  /** The cache holds the last finished probe, or is too old to be used. */
  ghost predicate CacheIsLast(ttl: real, s: State) {
    && s.probes != []
    && s.cache.ready.Some? && s.cache.checkedAt == Some(s.probes[|s.probes| - 1].ended)
    && s.probes[|s.probes| - 1].ended <= s.clock
    && (s.cache.ready == Some(s.probes[|s.probes| - 1].ready) || s.clock - s.probes[|s.probes| - 1].ended >= ttl)
  }

  /** A probe in flight began when the last finished one was too old. */
  ghost predicate ProbesAreDue(ttl: real, s: State)
    requires s.probes != []
  {
    forall i :: 0 <= i < |s.callers| && s.callers[i].Probing? ==>
      s.callers[i].begun - s.probes[|s.probes| - 1].ended >= ttl
      && s.callers[i].since <= s.callers[i].begun <= s.clock
  }

  ghost predicate WaitersCame(s: State) {
    forall i :: 0 <= i < |s.callers| && s.callers[i].Waiting? ==> s.callers[i].since <= s.clock
  }

  /** Finished probes do not overlap and are at least the TTL apart. */
  ghost predicate Spaced(ttl: real, probes: seq<Probe>) {
    && (forall k :: 0 <= k < |probes| ==> probes[k].begun <= probes[k].ended)
    && (forall j, k :: 0 <= j < k < |probes| ==> probes[k].begun - probes[j].ended >= ttl)
  }

  /** An answer is that of the caller's own probe, begun after it asked, or of a probe that ended less than the TTL before the reading. */
  ghost predicate Sound(ttl: real, probes: seq<Probe>, a: Answer) {
    && 0 <= a.probe < |probes| && a.ready == probes[a.probe].ready && a.since <= a.at
    && if a.own then probes[a.probe].caller == a.caller && probes[a.probe].begun == a.at
       else probes[a.probe].ended <= a.at && a.at - probes[a.probe].ended < ttl
  }

  ghost predicate Inv(ttl: real, s: State) {
    && SingleFlight(s) && CacheIsLast(ttl, s) && ProbesAreDue(ttl, s) && WaitersCame(s) && Spaced(ttl, s.probes)
    && forall k :: 0 <= k < |s.answers| ==> Sound(ttl, s.probes, s.answers[k])
  }

  lemma LeaveKeepsFlight(s: State, i: nat)
    requires SingleFlight(s) && i < |s.callers|
    ensures SingleFlight(Leave(s, i))
  {}

  lemma CachedIsSound(ttl: real, s: State, i: nat, since: real)
    requires CacheIsLast(ttl, s) && s.cache.Fresh(ttl, s.clock) && since <= s.clock && i < |s.callers|
    ensures Sound(ttl, s.probes, Cached(s, i, since, s.cache.Answer(ttl, s.clock).value).answers[|s.answers|])
  {}

  lemma SpacedOn(ttl: real, probes: seq<Probe>, p: Probe)
    requires ttl >= 0.0 && probes != [] && Spaced(ttl, probes) && p.begun <= p.ended
    requires p.begun - probes[|probes| - 1].ended >= ttl
    ensures Spaced(ttl, probes + [p])
  {
    forall j | 0 <= j < |probes| ensures p.begun - probes[j].ended >= ttl {
      var k := |probes| - 1;
      assert j < k ==> probes[k].begun - probes[j].ended >= ttl && probes[k].begun <= probes[k].ended;
    }
  }

  lemma FinishKeeps(ttl: real, s: State, i: nat, ready: bool)
    requires ttl >= 0.0 && Inv(ttl, s) && Enabled(s, Finish(i, ready))
    ensures Inv(ttl, Step(ttl, s, Finish(i, ready)))
  {
    var t := Step(ttl, s, Finish(i, ready));
    var p := Probe(i, s.callers[i].begun, s.clock, ready);
    LeaveKeepsFlight(s, i);
    SpacedOn(ttl, s.probes, p);
    assert SingleFlight(t);
    forall k | 0 <= k < |t.answers| ensures Sound(ttl, t.probes, t.answers[k]) {
      if k < |s.answers| { assert Sound(ttl, s.probes, s.answers[k]); }
    }
    assert forall j: nat :: j < |s.callers| && j != i ==> !s.callers[j].Probing?;
  }

  lemma TickKeeps(ttl: real, s: State, dt: real)
    requires Inv(ttl, s) && dt >= 0.0
    ensures Inv(ttl, Step(ttl, s, Tick(dt)))
  {}

  lemma StepKeeps(ttl: real, s: State, m: Move)
    requires ttl >= 0.0 && Inv(ttl, s)
    ensures Inv(ttl, Step(ttl, s, m))
  {
    if Enabled(s, m) {
      match m
      case Tick(dt) => TickKeeps(ttl, s, dt);
      case Enter(i) => if s.cache.Fresh(ttl, s.clock) { CachedIsSound(ttl, s, i, s.clock); }
      case Acquire(i) => if s.cache.Fresh(ttl, s.clock) { CachedIsSound(ttl, s, i, s.callers[i].since); }
      case Finish(i, ready) => FinishKeeps(ttl, s, i, ready);
      case Lose(i, ready) => LeaveKeepsFlight(s, i);
      case Cancel(i) => LeaveKeepsFlight(s, i);
    }
  }

  lemma StartedKeeps(ttl: real, clock: real, n: nat)
    ensures Inv(ttl, Started(clock, n))
  {}

  /**
   In every interleaving of callers, cancellations and failing clocks after a start: one probe runs
   at a time, finished probes are at least the TTL apart, and every answer comes from the caller's
   own probe or from one that ended less than the TTL before.
   */
  lemma {:induction false} EveryInterleavingKeeps(ttl: real, clock: real, n: nat, moves: seq<Move>)
    requires ttl >= 0.0
    ensures Inv(ttl, RunFrom(ttl, Started(clock, n), moves))
  {
    hide Inv;
    if moves == [] {
      StartedKeeps(ttl, clock, n);
    } else {
      EveryInterleavingKeeps(ttl, clock, n, moves[..|moves| - 1]);
      StepKeeps(ttl, RunFrom(ttl, Started(clock, n), moves[..|moves| - 1]), moves[|moves| - 1]);
    }
  }

  /** Without a cache lifetime every answer comes from the caller's own probe. */
  lemma NoTtlNoCache(clock: real, n: nat, moves: seq<Move>, k: nat)
    requires k < |RunFrom(0.0, Started(clock, n), moves).answers|
    ensures RunFrom(0.0, Started(clock, n), moves).answers[k].own
  {
    EveryInterleavingKeeps(0.0, clock, n, moves);
    assert Sound(0.0, RunFrom(0.0, Started(clock, n), moves).probes, RunFrom(0.0, Started(clock, n), moves).answers[k]);
  }

  /** While the last probe is younger than the TTL and its clock reading was kept, a caller is answered at once, lock or no lock. */
  lemma FreshAnswersAtOnce(ttl: real, s: State, i: nat)
    requires Inv(ttl, s) && Enabled(s, Enter(i)) && s.clock - s.probes[|s.probes| - 1].ended < ttl
    ensures var t := Step(ttl, s, Enter(i));
            && t.answers == s.answers + [Answer(i, s.probes[|s.probes| - 1].ready, |s.probes| - 1, false, s.clock, s.clock)]
            && t.probes == s.probes && t.holder == s.holder && t.callers == s.callers
  {
    assert s.callers[i := Outside] == s.callers;
  }

  /**
   A probe after which the clock cannot be read answers nobody and frees the lock; its result is cached under the old time,
   so it is used by nobody and the next caller probes again.
   */
  lemma LostClockForcesProbe(ttl: real, s: State, i: nat, ready: bool, j: nat)
    requires ttl >= 0.0 && Inv(ttl, s) && Enabled(s, Lose(i, ready)) && j < |s.callers| && s.callers[j].Waiting?
    ensures var t := Step(ttl, s, Lose(i, ready));
            && t.cache == Cache(Some(ready), s.cache.checkedAt) && t.answers == s.answers && t.probes == s.probes && t.holder == None
            && Step(ttl, t, Acquire(j)).callers[j].Probing?
  {}

  /** Once a probe has finished, every caller that was waiting gets its result within the TTL, without a probe of its own. */
  lemma WaitersShareTheProbe(ttl: real, s: State, i: nat, ready: bool, dt: real, j: nat)
    requires Inv(ttl, s) && Enabled(s, Finish(i, ready)) && 0.0 <= dt < ttl
    requires j < |s.callers| && s.callers[j].Waiting?
    ensures var t := RunFrom(ttl, s, [Finish(i, ready), Tick(dt), Acquire(j)]);
            && t.answers == s.answers + [Answer(i, ready, |s.probes|, true, s.callers[i].since, s.callers[i].begun),
                                         Answer(j, ready, |s.probes|, false, s.callers[j].since, s.clock + dt)]
            && |t.probes| == |s.probes| + 1
  {
    var moves := [Finish(i, ready), Tick(dt), Acquire(j)];
    assert moves[..2][..1][..0] == [] && moves[..2][..1][0] == Finish(i, ready) && moves[..2][1] == Tick(dt);
    assert RunFrom(ttl, s, moves[..2][..1]) == Step(ttl, s, Finish(i, ready));
    assert RunFrom(ttl, s, moves[..2]) == Step(ttl, Step(ttl, s, Finish(i, ready)), Tick(dt));
  }

  /** Nobody waits forever for nothing: the lock is free to take, or its holder is probing and may go. */
  lemma WaiterCanGoOn(ttl: real, s: State, i: nat)
    requires Inv(ttl, s) && i < |s.callers| && s.callers[i].Waiting?
    ensures Enabled(s, Acquire(i)) || (s.holder.Some? && Enabled(s, Finish(s.holder.value, false)) && Enabled(s, Cancel(s.holder.value)))
  {}

  lemma {:induction false} MoveFirst(ttl: real, s: State, m: Move, rest: seq<Move>)
    ensures RunFrom(ttl, s, [m] + rest) == RunFrom(ttl, Step(ttl, s, m), rest)
  {
    if rest == [] {
      assert [m] + rest == [m] && [m][..0] == [];
    } else {
      MoveFirst(ttl, s, m, rest[..|rest| - 1]);
      assert ([m] + rest)[..|rest|] == [m] + rest[..|rest| - 1];
    }
  }

  /** With the lock free, a waiting caller is answered by taking it, and by its own probe if it must probe. */
  lemma TakesLock(ttl: real, s: State, i: nat) returns (more: seq<Move>)
    requires Enabled(s, Acquire(i))
    ensures |more| <= 2
    ensures var t := RunFrom(ttl, s, more); |t.answers| == |s.answers| + 1 && t.answers[|s.answers|].caller == i
  {
    var u := Step(ttl, s, Acquire(i));
    MoveFirst(ttl, s, Acquire(i), []);
    assert [Acquire(i)] + [] == [Acquire(i)];
    if u.callers[i].Outside? {
      more := [Acquire(i)];
    } else {
      MoveFirst(ttl, s, Acquire(i), [Finish(i, true)]);
      MoveFirst(ttl, u, Finish(i, true), []);
      assert [Finish(i, true)] + [] == [Finish(i, true)];
      more := [Acquire(i)] + [Finish(i, true)];
    }
  }

  /** No state of any interleaving is a dead end: every waiting caller can be answered within three moves. */
  lemma EveryWaiterCanBeAnswered(ttl: real, clock: real, n: nat, moves: seq<Move>, i: nat) returns (more: seq<Move>)
    requires ttl >= 0.0
    requires var s := RunFrom(ttl, Started(clock, n), moves); i < |s.callers| && s.callers[i].Waiting?
    ensures |more| <= 3
    ensures var s := RunFrom(ttl, Started(clock, n), moves);
            exists k: nat :: |s.answers| <= k < |RunFrom(ttl, s, more).answers| && RunFrom(ttl, s, more).answers[k].caller == i
  {
    var s := RunFrom(ttl, Started(clock, n), moves);
    EveryInterleavingKeeps(ttl, clock, n, moves);
    WaiterCanGoOn(ttl, s, i);
    var u := s;
    if s.holder.Some? { u := Step(ttl, s, Finish(s.holder.value, false)); }
    assert Enabled(u, Acquire(i)) && |u.answers| >= |s.answers|;
    var rest := TakesLock(ttl, u, i);
    more := rest;
    if s.holder.Some? {
      MoveFirst(ttl, s, Finish(s.holder.value, false), rest);
      more := [Finish(s.holder.value, false)] + rest;
    }
    var t := RunFrom(ttl, s, more);
    assert t.answers[|u.answers|].caller == i;
  }
}
