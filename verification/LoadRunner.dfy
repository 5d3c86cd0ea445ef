/**
 The bounded-queue load generator: a producer at a fixed rate, workers, and a join protocol.

 A run is a sequence of steps taken by the producer (which is also the main task) and by the
 workers, in any order the event loop may choose. A worker whose request raises an exception the
 code does not catch dies; the model has that step too.
 */
module LoadRunner {
  import opened Outcomes

  datatype Worker = Idle | Busy(job: nat) | Stopped | Crashed

  /** `Signalling` puts one stop signal per worker; `Gathering` waits for the workers. */
  datatype Phase = Producing | Joining | Signalling | Gathering | Returned | Raised

  datatype Setup = Setup(count: nat, bound: nat, workers: nat) {
    predicate Valid() { 1 <= workers <= bound }
  }

  datatype State = State(
    phase: Phase,
    next: nat,                   // indices below this have been produced
    queue: seq<Option<nat>>,     // None is a stop signal
    workers: seq<Worker>,
    results: seq<nat>,           // the index each result belongs to
    dropped: seq<nat>,
    lost: seq<nat>,              // indices whose worker died
    unfinished: nat,             // what queue.join() waits for
    signals: nat)

  function Init(c: Setup): State {
    State(Producing, 0, [], seq(c.workers, _ => Idle), [], [], [], 0, 0)
  }

  datatype Move = Produce | EndProduction | Take(w: nat) | Finish(w: nat) | Die(w: nat)
                | Joined | Signal | EndSignals | Return | Raise

  predicate Enabled(c: Setup, s: State, m: Move) {
    match m
    case Produce => s.phase.Producing? && s.next < c.count
    case EndProduction => s.phase.Producing? && s.next >= c.count
    case Take(w) => w < |s.workers| && s.workers[w].Idle? && s.queue != [] && (s.queue[0].Some? || s.unfinished > 0)
    case Finish(w) => w < |s.workers| && s.workers[w].Busy? && s.unfinished > 0
    case Die(w) => w < |s.workers| && s.workers[w].Busy? && s.unfinished > 0
    case Joined => s.phase.Joining? && s.unfinished == 0
    case Signal => s.phase.Signalling? && s.signals < c.workers && |s.queue| < c.bound
    case EndSignals => s.phase.Signalling? && s.signals >= c.workers
    case Return => s.phase.Gathering? && forall w :: 0 <= w < |s.workers| ==> s.workers[w].Stopped?
    case Raise => s.phase.Gathering? && exists w :: 0 <= w < |s.workers| && s.workers[w].Crashed?
  }

  function Step(c: Setup, s: State, m: Move): State
    requires Enabled(c, s, m)
  {
    match m
    case Produce =>
      if |s.queue| < c.bound then s.(next := s.next + 1, queue := s.queue + [Some(s.next)], unfinished := s.unfinished + 1)
      else s.(next := s.next + 1, dropped := s.dropped + [s.next])
    case EndProduction => s.(phase := Joining)
    case Take(w) =>
      if s.queue[0].Some? then s.(queue := s.queue[1..], workers := s.workers[w := Busy(s.queue[0].value)])
      else s.(queue := s.queue[1..], workers := s.workers[w := Stopped], unfinished := s.unfinished - 1)
    case Finish(w) =>
      s.(workers := s.workers[w := Idle], results := s.results + [s.workers[w].job], unfinished := s.unfinished - 1)
    case Die(w) =>
      s.(workers := s.workers[w := Crashed], lost := s.lost + [s.workers[w].job], unfinished := s.unfinished - 1)
    case Joined => s.(phase := Signalling)
    case Signal => s.(queue := s.queue + [None], unfinished := s.unfinished + 1, signals := s.signals + 1)
    case EndSignals => s.(phase := Gathering)
    case Return => s.(phase := Returned)
    case Raise => s.(phase := Raised)
  }

  /** The states of a run, first to last. */
  ghost predicate IsRun(c: Setup, states: seq<State>) {
    && states != [] && states[0] == Init(c)
    && forall i :: 0 <= i < |states| - 1 ==> Steps(c, states[i], states[i + 1])
  }

  ghost predicate Steps(c: Setup, s: State, t: State) {
    exists m :: Enabled(c, s, m) && t == Step(c, s, m)
  }

  // ---------------------------------------------------------------- counting

  function QueuedCount(queue: seq<Option<nat>>, j: nat): nat {
    if queue == [] then 0 else (if queue[0] == Some(j) then 1 else 0) + QueuedCount(queue[1..], j)
  }

  function RunningCount(workers: seq<Worker>, j: nat): nat {
    if workers == [] then 0 else (if workers[0] == Busy(j) then 1 else 0) + RunningCount(workers[1..], j)
  }

  function BusyCount(workers: seq<Worker>): nat {
    if workers == [] then 0 else (if workers[0].Busy? then 1 else 0) + BusyCount(workers[1..])
  }

  function StopCount(workers: seq<Worker>): nat {
    if workers == [] then 0 else (if workers[0].Stopped? then 1 else 0) + StopCount(workers[1..])
  }

  function Occurrences(s: seq<nat>, j: nat): nat {
    if s == [] then 0 else (if s[|s| - 1] == j then 1 else 0) + Occurrences(s[..|s| - 1], j)
  }

  lemma OccurrencesSnoc(s: seq<nat>, x: nat, j: nat)
    ensures Occurrences(s + [x], j) == Occurrences(s, j) + if x == j then 1 else 0
  {
    assert (s + [x])[..|s|] == s;
  }

  lemma {:induction false} QueuedSnoc(queue: seq<Option<nat>>, x: Option<nat>, j: nat)
    ensures QueuedCount(queue + [x], j) == QueuedCount(queue, j) + if x == Some(j) then 1 else 0
  {
    if queue != [] {
      assert (queue + [x])[1..] == queue[1..] + [x];
      QueuedSnoc(queue[1..], x, j);
    }
  }

  lemma {:induction false} WorkerUpdate(workers: seq<Worker>, w: nat, x: Worker, j: nat)
    requires w < |workers|
    ensures RunningCount(workers[w := x], j) + (if workers[w] == Busy(j) then 1 else 0)
         == RunningCount(workers, j) + (if x == Busy(j) then 1 else 0)
    ensures BusyCount(workers[w := x]) + (if workers[w].Busy? then 1 else 0) == BusyCount(workers) + (if x.Busy? then 1 else 0)
    ensures StopCount(workers[w := x]) + (if workers[w].Stopped? then 1 else 0)
         == StopCount(workers) + (if x.Stopped? then 1 else 0)
  {
    if w == 0 {
      assert workers[w := x][1..] == workers[1..];
    } else {
      assert workers[w := x][1..] == workers[1..][w - 1 := x];
      WorkerUpdate(workers[1..], w - 1, x, j);
    }
  }

  lemma {:induction false} NobodyRuns(workers: seq<Worker>)
    ensures BusyCount(workers) == 0 <==> forall w :: 0 <= w < |workers| ==> !workers[w].Busy?
    ensures StopCount(workers) + BusyCount(workers) <= |workers|
    ensures StopCount(workers) == |workers| <==> forall w :: 0 <= w < |workers| ==> workers[w].Stopped?
  {
    if workers != [] {
      NobodyRuns(workers[1..]);
      assert forall w :: 1 <= w < |workers| ==> workers[w] == workers[1..][w - 1];
    }
  }

  lemma {:induction false} NothingCounted(queue: seq<Option<nat>>, workers: seq<Worker>, j: nat)
    ensures (forall i :: 0 <= i < |queue| ==> queue[i].None?) ==> QueuedCount(queue, j) == 0
    ensures BusyCount(workers) == 0 ==> RunningCount(workers, j) == 0
    decreases |queue| + |workers|
  {
    if queue != [] { NothingCounted(queue[1..], workers, j); }
    if workers != [] { NothingCounted(queue, workers[1..], j); }
  }

  // ---------------------------------------------------------------- the invariant

  /** In how many places index j is: queued, with a worker, a result, dropped, or lost with its worker. */
  function Places(s: State, j: nat): nat {
    QueuedCount(s.queue, j) + RunningCount(s.workers, j) + Occurrences(s.results, j)
    + Occurrences(s.dropped, j) + Occurrences(s.lost, j)
  }

  /** Every produced index is in exactly one place, and no other index is anywhere. */
  ghost predicate Conserved(s: State) {
    forall j: nat :: Places(s, j) == if j < s.next then 1 else 0
  }

  ghost predicate SomeoneCrashed(workers: seq<Worker>) {
    exists w :: 0 <= w < |workers| && workers[w].Crashed?
  }

  /** Sizes, and which phase may see what. */
  ghost predicate Shape(c: Setup, s: State) {
    && |s.queue| <= c.bound
    && |s.workers| == c.workers
    && s.next <= c.count && (!s.phase.Producing? ==> s.next == c.count)
    && s.unfinished == |s.queue| + BusyCount(s.workers)
    && (if s.phase.Producing? || s.phase.Joining? then
          s.signals == 0 && StopCount(s.workers) == 0 && forall i :: 0 <= i < |s.queue| ==> s.queue[i].Some?
        else
          && BusyCount(s.workers) == 0
          && (forall i :: 0 <= i < |s.queue| ==> s.queue[i].None?)
          && s.signals <= c.workers && |s.queue| + StopCount(s.workers) == s.signals)
    && (s.phase.Gathering? || s.phase.Returned? || s.phase.Raised? ==> s.signals == c.workers)
    && (s.phase.Returned? ==> forall w :: 0 <= w < |s.workers| ==> s.workers[w].Stopped?)
    && (s.lost != [] || s.phase.Raised? ==> SomeoneCrashed(s.workers))
  }

  ghost predicate Inv(c: Setup, s: State) {
    Conserved(s) && Shape(c, s)
  }

  lemma {:induction false} AllIdle(n: nat, j: nat)
    ensures BusyCount(seq(n, _ => Idle)) == 0 && StopCount(seq(n, _ => Idle)) == 0
    ensures RunningCount(seq(n, _ => Idle), j) == 0
  {
    if n > 0 {
      assert seq(n, _ => Idle)[1..] == seq(n - 1, _ => Idle);
      AllIdle(n - 1, j);
    }
  }

  lemma InitInv(c: Setup)
    ensures Inv(c, Init(c))
  {
    AllIdle(c.workers, 0);
    forall j: nat ensures Places(Init(c), j) == 0 {
      AllIdle(c.workers, j);
    }
  }

  lemma CrashedStays(workers: seq<Worker>, w: nat, x: Worker)
    requires w < |workers| && (!workers[w].Crashed? || x.Crashed?)
    ensures SomeoneCrashed(workers) || x.Crashed? ==> SomeoneCrashed(workers[w := x])
  {
    if SomeoneCrashed(workers) {
      var v :| 0 <= v < |workers| && workers[v].Crashed?;
      assert workers[w := x][v].Crashed?;
    }
    if x.Crashed? { assert workers[w := x][w].Crashed?; }
  }

  /** A step moves one index from one place to the next, or adds the index just produced. */
  lemma StepConserves(c: Setup, s: State, m: Move, j: nat)
    requires Enabled(c, s, m)
    ensures Places(Step(c, s, m), j) == Places(s, j) + (if m.Produce? && j == s.next then 1 else 0)
  {
    match m
    case Produce =>
      QueuedSnoc(s.queue, Some(s.next), j);
      OccurrencesSnoc(s.dropped, s.next, j);
    case Take(w) =>
      WorkerUpdate(s.workers, w, if s.queue[0].Some? then Busy(s.queue[0].value) else Stopped, j);
    case Finish(w) =>
      WorkerUpdate(s.workers, w, Idle, j);
      OccurrencesSnoc(s.results, s.workers[w].job, j);
    case Die(w) =>
      WorkerUpdate(s.workers, w, Crashed, j);
      OccurrencesSnoc(s.lost, s.workers[w].job, j);
    case Signal =>
      QueuedSnoc(s.queue, None, j);
    case _ =>
  }

  lemma StepKeepsConserved(c: Setup, s: State, m: Move)
    requires Enabled(c, s, m) && Conserved(s)
    ensures Conserved(Step(c, s, m))
  {
    var t := Step(c, s, m);
    forall j: nat ensures Places(t, j) == if j < t.next then 1 else 0 {
      StepConserves(c, s, m, j);
    }
  }

  predicate OfWorker(m: Move) { m.Take? || m.Finish? || m.Die? }

  lemma TakeKeepsShape(c: Setup, s: State, w: nat)
    requires Enabled(c, s, Take(w)) && Shape(c, s)
    ensures Shape(c, Step(c, s, Take(w)))
  {
    var x := if s.queue[0].Some? then Busy(s.queue[0].value) else Stopped;
    WorkerUpdate(s.workers, w, x, 0);
    CrashedStays(s.workers, w, x);
  }

  lemma EndOfJobKeepsShape(c: Setup, s: State, m: Move)
    requires Enabled(c, s, m) && Shape(c, s) && (m.Finish? || m.Die?)
    ensures Shape(c, Step(c, s, m))
  {
    var x := if m.Finish? then Idle else Crashed;
    WorkerUpdate(s.workers, m.w, x, 0);
    CrashedStays(s.workers, m.w, x);
  }

  lemma MainKeepsShape(c: Setup, s: State, m: Move)
    requires Enabled(c, s, m) && Shape(c, s) && !OfWorker(m)
    ensures Shape(c, Step(c, s, m))
  {
    NobodyRuns(s.workers);
  }

  lemma StepKeepsShape(c: Setup, s: State, m: Move)
    requires Enabled(c, s, m) && Shape(c, s)
    ensures Shape(c, Step(c, s, m))
  {
    hide Shape;
    hide Step;
    if m.Take? {
      TakeKeepsShape(c, s, m.w);
    } else if OfWorker(m) {
      EndOfJobKeepsShape(c, s, m);
    } else {
      MainKeepsShape(c, s, m);
    }
  }

  lemma StepKeeps(c: Setup, s: State, m: Move)
    requires Inv(c, s) && Enabled(c, s, m)
    ensures Inv(c, Step(c, s, m))
  {
    StepKeepsConserved(c, s, m);
    StepKeepsShape(c, s, m);
  }

  // ---------------------------------------------------------------- first in, first out

  /** Jobs are queued in the order in which they were produced, so the one a worker takes is the oldest. */
  ghost predicate OldestFirst(s: State) {
    && (forall i :: 0 <= i < |s.queue| && s.queue[i].Some? ==> s.queue[i].value < s.next)
    && (forall i, j :: 0 <= i < j < |s.queue| && s.queue[i].Some? && s.queue[j].Some? ==> s.queue[i].value < s.queue[j].value)
  }

  lemma {:induction false} JobsAreTakenInOrder(c: Setup, states: seq<State>, i: nat)
    requires IsRun(c, states) && i < |states|
    ensures OldestFirst(states[i])
  {
    if i > 0 {
      JobsAreTakenInOrder(c, states, i - 1);
      assert Steps(c, states[i - 1], states[i - 1 + 1]);
      var m :| Enabled(c, states[i - 1], m) && states[i] == Step(c, states[i - 1], m);
      hide Step;
      hide OldestFirst;
      StepKeepsOrder(c, states[i - 1], m);
    }
  }

  lemma StepKeepsOrder(c: Setup, s: State, m: Move)
    requires Enabled(c, s, m) && OldestFirst(s)
    ensures OldestFirst(Step(c, s, m))
  {}

  /** In every run, at every step: conservation, and a queue within its bound. */
  lemma {:induction false} EveryStateKeepsInvariant(c: Setup, states: seq<State>, i: nat)
    requires IsRun(c, states) && i < |states|
    ensures Inv(c, states[i])
  {
    if i == 0 {
      InitInv(c);
    } else {
      EveryStateKeepsInvariant(c, states, i - 1);
      assert Steps(c, states[i - 1], states[i - 1 + 1]);
      var m :| Enabled(c, states[i - 1], m) && states[i] == Step(c, states[i - 1], m);
      StepKeeps(c, states[i - 1], m);
    }
  }
}
