/** One start and any number of closes whose stretches between two awaits are taken in any order. */
module RuntimeInterleaving {
  import opened Outcomes
  import opened RuntimeLifecycle
  import opened RuntimeRuns
  import O = RuntimeOverlap
  import S = RuntimeSoundness

  type Worker = n: nat | n < WORKER_KINDS

  /** What the start waits for: the database, the publisher, or the tasks it has just created. */
  datatype Starter = Resting | Checking | Publishing | Yielding | Started | Failed

  /**
   Call 0 is the start, whose place among the closers is that of the shutdown it runs when it fails; the
   others are closes. A call that is waiting waits for the task of worker `at`; `tasks` are the task
   fields of the runtime that are set.
   */
  datatype Mixed = Mixed(starter: Starter, closed: bool, closers: seq<O.Closer>, at: seq<Worker>, tasks: seq<bool>, log: seq<Event>) {
    predicate Formed() { |at| == |closers| && |closers| >= 1 && |tasks| == WORKER_KINDS }
  }

  predicate CanMove(s: Mixed, i: nat) {
    i < |s.closers|
    && if i == 0 && !s.starter.Failed? then !s.starter.Started? else !O.Over(s.closers[i])
  }

  // ---------------------------------------------------------------- the stretches of a shutdown

  /** The first task field from k on that is set. */
  function NextHeld(tasks: seq<bool>, k: nat): (n: nat)
    requires k <= |tasks|
    ensures k <= n <= |tasks| && (n < |tasks| ==> tasks[n]) && forall j :: k <= j < n ==> !tasks[j]
    decreases |tasks| - k
  {
    if k == |tasks| || tasks[k] then k else NextHeld(tasks, k + 1)
  }

  /** Call i goes on to wait for the next task, or to the closings. */
  function GoOn(s: Mixed, i: nat, k: nat): (t: Mixed)
    requires s.Formed() && i < |s.closers| && k <= WORKER_KINDS
    ensures t.Formed() && |t.closers| == |s.closers|
  {
    var n := NextHeld(s.tasks, k);
    if n < WORKER_KINDS then s.(closers := s.closers[i := O.Waiting], at := s.at[i := n])
    else s.(closers := s.closers[i := O.Closing(0)])
  }

  /** The stop requests and, if none raises, the way to the first wait. */
  function Shut(c: Config, w: World, s: Mixed, i: nat): (t: Mixed)
    requires c.Valid() && s.Formed() && i < |s.closers|
    ensures t.Formed() && |t.closers| == |s.closers|
  {
    var asked := s.(log := s.log + Perform(w, StopSteps(c)));
    if O.Refuses(c, w) then asked.(closers := s.closers[i := O.Refused]) else GoOn(asked, i, 0)
  }

  /** A task ends once, however many calls wait for it. */
  function Ending(log: seq<Event>, x: nat): seq<Event> { if On(End, x) in log then [] else [On(End, x)] }

  function Proceed(c: Config, s: Mixed, i: nat): (t: Mixed)
    requires c.Valid() && s.Formed() && i < |s.closers|
    ensures t.Formed() && |t.closers| == |s.closers|
  {
    match s.closers[i]
    case Waiting =>
      var k: nat := s.at[i];
      GoOn(s.(log := s.log + Ending(s.log, k), tasks := s.tasks[k := false]), i, k + 1)
    case Closing(k) =>
      if k < |Closings(c)| then s.(closers := s.closers[i := O.Closing(k + 1)], log := s.log + [Closings(c)[k]])
      else s.(closed := true, closers := s.closers[i := O.Through])
    case _ => s
  }

  // ---------------------------------------------------------------- the stretches of the start

  function LaunchAll(c: Config, w: World, s: Mixed): (r: (Mixed, bool))
    requires c.Valid() && s.Formed()
    ensures r.0.Formed() && |r.0.closers| == |s.closers|
  {
    var launches := Launches(c.workers, WORKER_KINDS);
    var t := s.(log := s.log + Perform(w, launches), tasks := TasksIn(Perform(w, launches)));
    (t.(starter := if t.tasks == NO_TASKS then Started else Yielding), FirstError(w, launches).Some?)
  }

  /** One stretch of the guarded part of the start, and whether it raises. */
  function Stretch(c: Config, w: World, s: Mixed): (r: (Mixed, bool))
    requires c.Valid() && s.Formed()
    ensures r.0.Formed() && |r.0.closers| == |s.closers|
  {
    match s.starter
    case Resting => (s.(starter := Checking, log := s.log + [DatabaseChecked]), false)
    case Checking =>
      if w.Raises(DatabaseChecked).Some? then (s, true)
      else if w.Raises(ClockRead).Some? then (s.(log := s.log + [ClockRead]), true)
      else if c.publisher then (s.(starter := Publishing, log := s.log + [ClockRead, PublisherStarted]), false)
      else LaunchAll(c, w, s.(log := s.log + [ClockRead]))
    case Publishing => if w.Raises(PublisherStarted).Some? then (s, true) else LaunchAll(c, w, s)
    case Yielding =>
      var exits := Each(Both(s.tasks, w.exited), SeeExit, WORKER_KINDS);
      (s.(starter := Started, log := s.log + Perform(w, exits)), FirstError(w, exits).Some?)
    case _ => (s, false)
  }

  /** A start that fails shuts the runtime down, also when it is closed already. */
  function Begin(c: Config, w: World, s: Mixed): (t: Mixed)
    requires c.Valid() && s.Formed()
    ensures t.Formed() && |t.closers| == |s.closers|
  {
    var (after, raised) := Stretch(c, w, s);
    if raised then Shut(c, w, after.(starter := Failed), 0) else after
  }

  // ---------------------------------------------------------------- schedules

  function Move(c: Config, worlds: seq<World>, s: Mixed, i: nat): (t: Mixed)
    requires c.Valid() && s.Formed() && |worlds| == |s.closers| && i < |s.closers|
    ensures t.Formed() && |t.closers| == |s.closers|
  {
    if i == 0 && !s.starter.Failed? then Begin(c, worlds[0], s)
    else if s.closers[i].Outside? then
      if s.closed then s.(closers := s.closers[i := O.Late]) else Shut(c, worlds[i], s, i)
    else Proceed(c, s, i)
  }

  function Fresh(n: nat): Mixed
    requires n >= 1
  {
    Mixed(Resting, false, seq(n, i => O.Outside), seq(n, i => 0), NO_TASKS, [])
  }

  function RunFrom(c: Config, worlds: seq<World>, turns: seq<nat>): (s: Mixed)
    requires c.Valid() && worlds != []
    ensures s.Formed() && |s.closers| == |worlds|
  {
    if turns == [] then Fresh(|worlds|)
    else
      var s := RunFrom(c, worlds, turns[..|turns| - 1]);
      if CanMove(s, turns[|turns| - 1]) then Move(c, worlds, s, turns[|turns| - 1]) else s
  }

  /** At this turn a call gets past its stop requests. */
  predicate Enters(c: Config, worlds: seq<World>, s: Mixed, i: nat)
    requires c.Valid() && s.Formed() && |worlds| == |s.closers|
  {
    CanMove(s, i) && !O.Inside(s.closers[i]) && O.Inside(Move(c, worlds, s, i).closers[i])
  }

  /** At this turn a task is created. */
  ghost predicate Creates(c: Config, worlds: seq<World>, s: Mixed, i: nat)
    requires c.Valid() && s.Formed() && |worlds| == |s.closers|
  {
    CanMove(s, i) && exists x: nat :: On(Create, x) !in s.log && On(Create, x) in Move(c, worlds, s, i).log
  }

  /** How many calls have got past their stop requests. */
  function Entries(c: Config, worlds: seq<World>, turns: seq<nat>): nat
    requires c.Valid() && worlds != []
  {
    if turns == [] then 0
    else
      var init, last := turns[..|turns| - 1], turns[|turns| - 1];
      Entries(c, worlds, init) + if Enters(c, worlds, RunFrom(c, worlds, init), last) then 1 else 0
  }

  /** A task was created at a turn before which a call had got past its stop requests. */
  ghost predicate Early(c: Config, worlds: seq<World>, turns: seq<nat>)
    requires c.Valid() && worlds != []
  {
    turns != []
    && var init, last := turns[..|turns| - 1], turns[|turns| - 1];
      Early(c, worlds, init) || (Entries(c, worlds, init) > 0 && Creates(c, worlds, RunFrom(c, worlds, init), last))
  }

  /** No call is under way. */
  predicate Settled(s: Mixed) {
    && (s.starter.Resting? || s.starter.Started? || s.starter.Failed?)
    && forall i :: 0 <= i < |s.closers| ==> O.Over(s.closers[i]) || s.closers[i].Outside?
  }

  /** What shutdown promises: nothing is closed twice, and once the runtime is closed every created task has ended. */
  ghost predicate Kept(c: Config, s: Mixed) {
    && (forall k :: 0 <= k < |Closings(c)| ==> multiset(s.log)[Closings(c)[k]] <= 1)
    && (s.closed ==> S.EndsAll(s.log))
  }

  // ---------------------------------------------------------------- what one stretch adds to the log

  /** Neither a creation nor an end nor a closing. */
  predicate Quiet(e: Event) { Phase(e) <= 5 && !(e.On? && e.action.Create?) }

  ghost predicate AllQuiet(log: seq<Event>) { forall i :: 0 <= i < |log| ==> Quiet(log[i]) }

  lemma EachQuiet(w: World, marked: seq<bool>, action: Action)
    requires |marked| == WORKER_KINDS && (action.RequestStop? || action.SeeExit?)
    ensures AllQuiet(Perform(w, Each(marked, action, WORKER_KINDS)))
  {
    var steps := Each(marked, action, WORKER_KINDS);
    PerformPart(w, steps);
    forall i | 0 <= i < |Perform(w, steps)| ensures Quiet(Perform(w, steps)[i]) {
      EachMembers(marked, action, WORKER_KINDS, Perform(w, steps)[i]);
      assert Perform(w, steps)[i] == steps[i];
    }
  }

  lemma QuietKeeps(c: Config, log: seq<Event>, more: seq<Event>)
    requires AllQuiet(more)
    ensures forall x: nat :: On(Create, x) in log + more <==> On(Create, x) in log
    ensures forall x: nat :: On(End, x) in log + more <==> On(End, x) in log
    ensures forall k :: 0 <= k < |Closings(c)| ==> multiset(log + more)[Closings(c)[k]] == multiset(log)[Closings(c)[k]]
  {
    LateOnly(c);
    hide Closings;
    forall k | 0 <= k < |Closings(c)| ensures multiset(more)[Closings(c)[k]] == 0 {
      assert Closings(c)[k] !in more;
    }
    assert multiset(log + more) == multiset(log) + multiset(more);
  }

  lemma LaunchesKeep(c: Config, w: World, log: seq<Event>)
    requires c.Valid()
    ensures var done := Perform(w, Launches(c.workers, WORKER_KINDS));
            && (forall x: nat :: On(Create, x) in done ==> x < WORKER_KINDS && TasksIn(done)[x])
            && (forall x: nat :: On(End, x) in log + done <==> On(End, x) in log)
            && (forall k :: 0 <= k < |Closings(c)| ==> multiset(log + done)[Closings(c)[k]] == multiset(log)[Closings(c)[k]])
  {
    var launches := Launches(c.workers, WORKER_KINDS);
    var done := Perform(w, launches);
    PerformPart(w, launches);
    LateOnly(c);
    hide Closings;
    forall e | e in done ensures e.On? && (e.action.Launch? || e.action.Create?) && e.w < WORKER_KINDS {
      LaunchMembers(c.workers, WORKER_KINDS, e);
    }
    forall k | 0 <= k < |Closings(c)| ensures multiset(done)[Closings(c)[k]] == 0 {
      assert Closings(c)[k] !in done;
    }
    assert multiset(log + done) == multiset(log) + multiset(done);
  }

  // ---------------------------------------------------------------- closings are counted by entries

  function Insides(closers: seq<O.Closer>): nat {
    if closers == [] then 0 else (if O.Inside(closers[0]) then 1 else 0) + Insides(closers[1..])
  }

  lemma {:induction false} InsidesUpdate(closers: seq<O.Closer>, i: nat, x: O.Closer)
    requires i < |closers|
    ensures Insides(closers[i := x]) + (if O.Inside(closers[i]) then 1 else 0) == Insides(closers) + (if O.Inside(x) then 1 else 0)
  {
    if i == 0 {
      assert closers[0 := x][1..] == closers[1..];
    } else {
      InsidesUpdate(closers[1..], i - 1, x);
      assert closers[i := x][1..] == closers[1..][i - 1 := x];
    }
  }

  lemma {:induction false} InsidesMean(closers: seq<O.Closer>)
    ensures Insides(closers) == 0 <==> forall i :: 0 <= i < |closers| ==> !O.Inside(closers[i])
  {
    if closers != [] {
      InsidesMean(closers[1..]);
      assert forall i :: 0 <= i < |closers[1..]| ==> closers[1..][i] == closers[i + 1];
    }
  }

  lemma {:induction false} SettledPasses(closers: seq<O.Closer>, k: nat)
    requires forall i :: 0 <= i < |closers| ==> O.Over(closers[i]) || closers[i].Outside?
    ensures O.Passes(closers, k) == Insides(closers)
  {
    if closers != [] { SettledPasses(closers[1..], k); }
  }

  ghost predicate Tallied(c: Config, s: Mixed) {
    && (forall i :: 0 <= i < |s.closers| && s.closers[i].Closing? ==> s.closers[i].k <= |Closings(c)|)
    && (forall k :: 0 <= k < |Closings(c)| ==> multiset(s.log)[Closings(c)[k]] == O.Passes(s.closers, k))
  }

  lemma ShutTallied(c: Config, w: World, s: Mixed, i: nat)
    requires c.Valid() && s.Formed() && i < |s.closers| && s.closers[i].Outside? && Tallied(c, s)
    ensures Tallied(c, Shut(c, w, s, i))
  {
    EachQuiet(w, c.workers, RequestStop);
    QuietKeeps(c, s.log, Perform(w, StopSteps(c)));
    hide Closings;
    hide StopSteps;
    hide O.Refuses;
    hide O.Passes;
    var t := Shut(c, w, s, i);
    forall k | 0 <= k < |Closings(c)| ensures multiset(t.log)[Closings(c)[k]] == O.Passes(t.closers, k) {
      O.PassesUpdate(s.closers, i, t.closers[i], k);
    }
  }

  // ---------------------------------------------------------------- the stretches of the start

  predicate Unlaunched(s: Mixed) { s.starter.Resting? || s.starter.Checking? || s.starter.Publishing? }

  ghost predicate NoneCreated(log: seq<Event>) { forall x: nat :: On(Create, x) !in log }

  ghost predicate Untouched(s: Mixed) {
    && s.tasks == NO_TASKS && (forall x: nat :: On(End, x) !in s.log)
    && forall i :: 0 <= i < |s.closers| ==> !s.closers[i].Waiting?
  }

  /** Where the calls are, and which task fields may be set. */
  ghost predicate Placed(s: Mixed) {
    && s.Formed()
    && (s.closed <==> exists i :: 0 <= i < |s.closers| && s.closers[i].Through?)
    && (s.starter.Failed? <==> !s.closers[0].Outside?)
    && (Unlaunched(s) ==> NoneCreated(s.log))
    && (NoneCreated(s.log) ==> Untouched(s))
  }

  ghost predicate SameTally(c: Config, a: seq<Event>, b: seq<Event>) {
    forall k :: 0 <= k < |Closings(c)| ==> multiset(a)[Closings(c)[k]] == multiset(b)[Closings(c)[k]]
  }

  ghost predicate SameTasks(a: Mixed, b: Mixed) {
    a.tasks == b.tasks && forall x: nat :: On(Create, x) in a.log <==> On(Create, x) in b.log
  }

  /** A stretch of the start touches no other call; it creates tasks at most once, and their fields are then set. */
  ghost predicate Touches(c: Config, s: Mixed, t: Mixed) {
    && t.Formed() && t.closers == s.closers && t.at == s.at && t.closed == s.closed && SameTally(c, t.log, s.log)
    && (forall x: nat :: On(End, x) in t.log <==> On(End, x) in s.log)
    && (SameTasks(t, s)
        || (Unlaunched(s) && !Unlaunched(t) && forall x: nat :: On(Create, x) in t.log <==> x < WORKER_KINDS && t.tasks[x]))
    && (Unlaunched(t) ==> Unlaunched(s))
  }

  lemma QuietTouches(c: Config, s: Mixed, starter: Starter, more: seq<Event>)
    requires s.Formed() && AllQuiet(more) && (Unlaunched(s.(starter := starter)) ==> Unlaunched(s))
    ensures Touches(c, s, s.(starter := starter, log := s.log + more))
  {
    hide Closings;
    QuietKeeps(c, s.log, more);
  }

  lemma LaunchTouches(c: Config, w: World, s: Mixed, more: seq<Event>)
    requires c.Valid() && s.Formed() && AllQuiet(more) && Unlaunched(s) && NoneCreated(s.log)
    ensures Touches(c, s, LaunchAll(c, w, s.(log := s.log + more)).0)
  {
    hide Closings;
    hide Launches;
    hide Perform;
    QuietKeeps(c, s.log, more);
    LaunchesKeep(c, w, s.log + more);
  }

  lemma StretchTouches(c: Config, w: World, s: Mixed)
    requires c.Valid() && Placed(s)
    ensures Touches(c, s, Stretch(c, w, s).0)
    ensures !s.starter.Failed? ==> !Stretch(c, w, s).0.starter.Failed?
  {
    hide Touches;
    hide Closings;
    hide Launches;
    hide Perform;
    hide FirstError;
    hide Each;
    assert s.log + [] == s.log && s.(log := s.log) == s;
    match s.starter
    case Resting => QuietTouches(c, s, Checking, [DatabaseChecked]);
    case Checking =>
      QuietTouches(c, s, Checking, []);
      QuietTouches(c, s, Checking, [ClockRead]);
      QuietTouches(c, s, Publishing, [ClockRead, PublisherStarted]);
      LaunchTouches(c, w, s, [ClockRead]);
    case Publishing =>
      QuietTouches(c, s, Publishing, []);
      LaunchTouches(c, w, s, []);
    case Yielding =>
      var exits := Each(Both(s.tasks, w.exited), SeeExit, WORKER_KINDS);
      EachQuiet(w, Both(s.tasks, w.exited), SeeExit);
      QuietTouches(c, s, Started, Perform(w, exits));
    case _ => QuietTouches(c, s, s.starter, []);
  }

  // ---------------------------------------------------------------- what every stretch keeps

  lemma MovesOne(c: Config, worlds: seq<World>, s: Mixed, i: nat)
    requires c.Valid() && Placed(s) && |worlds| == |s.closers| && CanMove(s, i)
    ensures var t := Move(c, worlds, s, i);
            t.closers == s.closers[i := t.closers[i]] && (O.Inside(s.closers[i]) ==> O.Inside(t.closers[i]))
  {
    hide Stretch;
    hide Closings;
    hide O.Refuses;
    hide StopSteps;
    hide Perform;
    if i == 0 && !s.starter.Failed? {
      StretchTouches(c, worlds[0], s);
      hide Placed;
    }
  }

  lemma WaitTallied(c: Config, s: Mixed, i: nat)
    requires c.Valid() && s.Formed() && i < |s.closers| && s.closers[i].Waiting? && Tallied(c, s)
    ensures Tallied(c, Proceed(c, s, i))
  {
    LateOnly(c);
    hide Closings;
    hide O.Passes;
    var t := Proceed(c, s, i);
    var more := Ending(s.log, s.at[i]);
    assert t.log == s.log + more && multiset(t.log) == multiset(s.log) + multiset(more);
    forall k | 0 <= k < |Closings(c)| ensures multiset(t.log)[Closings(c)[k]] == O.Passes(t.closers, k) {
      assert Closings(c)[k] !in more;
      O.PassesUpdate(s.closers, i, t.closers[i], k);
    }
  }

  lemma ClosingTallied(c: Config, s: Mixed, i: nat)
    requires c.Valid() && s.Formed() && i < |s.closers| && s.closers[i].Closing? && Tallied(c, s)
    ensures Tallied(c, Proceed(c, s, i))
  {
    hide Closings;
    hide O.Passes;
    var t := Proceed(c, s, i);
    forall k | 0 <= k < |Closings(c)| ensures multiset(t.log)[Closings(c)[k]] == O.Passes(t.closers, k) {
      O.PassesUpdate(s.closers, i, t.closers[i], k);
      if s.closers[i].k < |Closings(c)| && Closings(c)[s.closers[i].k] == Closings(c)[k] {
        O.ClosingsDistinct(c, s.closers[i].k, k);
      }
    }
  }

  lemma LateTallied(c: Config, s: Mixed, i: nat)
    requires i < |s.closers| && s.closers[i].Outside? && Tallied(c, s)
    ensures Tallied(c, s.(closers := s.closers[i := O.Late]))
  {
    hide Closings;
    hide O.Passes;
    forall k | 0 <= k < |Closings(c)| ensures multiset(s.log)[Closings(c)[k]] == O.Passes(s.closers[i := O.Late], k) {
      O.PassesUpdate(s.closers, i, O.Late, k);
    }
  }

  lemma BeginTallied(c: Config, w: World, s: Mixed)
    requires c.Valid() && Placed(s) && Tallied(c, s) && !s.starter.Failed?
    ensures Tallied(c, Begin(c, w, s))
  {
    var (after, raised) := Stretch(c, w, s);
    StretchTouches(c, w, s);
    assert Tallied(c, after);
    assert Tallied(c, after.(starter := Failed));
    assert after.closers[0].Outside?;
    hide Tallied;
    hide Stretch;
    hide Shut;
    if raised { ShutTallied(c, w, after.(starter := Failed), 0); }
  }

  lemma MoveTallied(c: Config, worlds: seq<World>, s: Mixed, i: nat)
    requires c.Valid() && Placed(s) && Tallied(c, s) && |worlds| == |s.closers| && CanMove(s, i)
    ensures Tallied(c, Move(c, worlds, s, i))
  {
    hide Tallied;
    hide Begin;
    hide Shut;
    hide Proceed;
    if i == 0 && !s.starter.Failed? {
      BeginTallied(c, worlds[0], s);
    } else if s.closers[i].Outside? {
      if s.closed { LateTallied(c, s, i); } else { ShutTallied(c, worlds[i], s, i); }
    } else if s.closers[i].Waiting? {
      WaitTallied(c, s, i);
    } else {
      ClosingTallied(c, s, i);
    }
  }

  // ---------------------------------------------------------------- where calls are

  /** A shutdown that begins is refused, waits for the first task, or has none to wait for. */
  lemma ShutMeans(c: Config, w: World, s: Mixed, i: nat)
    requires c.Valid() && s.Formed() && i < |s.closers|
    ensures var t := Shut(c, w, s, i);
            && t.starter == s.starter && t.closed == s.closed && SameTasks(t, s)
            && t.closers == s.closers[i := t.closers[i]] && (forall j :: 0 <= j < |s.at| && j != i ==> t.at[j] == s.at[j])
            && (forall x: nat :: On(End, x) in t.log <==> On(End, x) in s.log)
            && (if O.Refuses(c, w) then t.closers[i].Refused? else t.closers[i].Waiting? || t.closers[i].Closing?)
            && (t.closers[i].Waiting? ==> s.tasks[t.at[i]])
            && (!O.Refuses(c, w) ==> forall x :: 0 <= x < WORKER_KINDS && s.tasks[x] ==> t.closers[i].Waiting? && t.at[i] <= x)
  {
    EachQuiet(w, c.workers, RequestStop);
    QuietKeeps(c, s.log, Perform(w, StopSteps(c)));
    hide StopSteps;
    hide O.Refuses;
    hide Perform;
  }

  lemma ShutPlaced(c: Config, w: World, s: Mixed, i: nat)
    requires c.Valid() && s.Formed() && i < |s.closers| && s.closers[i].Outside?
    requires i == 0 ==> s.starter.Failed?
    requires s.closed <==> exists i :: 0 <= i < |s.closers| && s.closers[i].Through?
    requires i > 0 ==> (s.starter.Failed? <==> !s.closers[0].Outside?)
    requires Unlaunched(s) ==> NoneCreated(s.log)
    requires NoneCreated(s.log) ==> Untouched(s)
    ensures Placed(Shut(c, w, s, i))
  {
    ShutMeans(c, w, s, i);
    hide Shut;
    hide O.Refuses;
    var t := Shut(c, w, s, i);
    if j :| 0 <= j < |s.closers| && s.closers[j].Through? { assert t.closers[j].Through?; }
    if j :| 0 <= j < |t.closers| && t.closers[j].Through? { assert s.closers[j].Through?; }
  }

  lemma BeginPlaced(c: Config, w: World, s: Mixed)
    requires c.Valid() && Placed(s) && !s.starter.Failed?
    ensures Placed(Begin(c, w, s))
  {
    var (after, raised) := Stretch(c, w, s);
    StretchTouches(c, w, s);
    hide Stretch;
    hide Closings;
    hide Shut;
    if NoneCreated(after.log) {
      assert after.tasks == NO_TASKS;
    }
    if raised {
      ShutPlaced(c, w, after.(starter := Failed), 0);
    } else {
      assert Placed(after);
    }
  }

  lemma ProceedPlaced(c: Config, s: Mixed, i: nat)
    requires c.Valid() && Placed(s) && i < |s.closers| && (s.closers[i].Waiting? || s.closers[i].Closing?)
    ensures Placed(Proceed(c, s, i))
  {
    LateOnly(c);
    hide Closings;
    var t := Proceed(c, s, i);
    forall x: nat ensures On(Create, x) in t.log <==> On(Create, x) in s.log {}
    if j :| 0 <= j < |s.closers| && s.closers[j].Through? { assert t.closers[j].Through?; }
    if j :| 0 <= j < |t.closers| && t.closers[j].Through? { assert j == i || s.closers[j].Through?; }
    if t.closers[i].Through? { assert t.closed; }
  }

  lemma MovePlaced(c: Config, worlds: seq<World>, s: Mixed, i: nat)
    requires c.Valid() && Placed(s) && |worlds| == |s.closers| && CanMove(s, i)
    ensures Placed(Move(c, worlds, s, i))
  {
    hide Begin;
    hide Shut;
    hide Proceed;
    if i == 0 && !s.starter.Failed? {
      BeginPlaced(c, worlds[0], s);
    } else if s.closers[i].Outside? {
      if s.closed {
        LatePlaced(s, i);
      } else {
        ShutPlaced(c, worlds[i], s, i);
      }
    } else {
      ProceedPlaced(c, s, i);
    }
  }

  lemma LatePlaced(s: Mixed, i: nat)
    requires Placed(s) && 0 < i < |s.closers| && s.closers[i].Outside? && s.closed
    ensures Placed(s.(closers := s.closers[i := O.Late]))
  {
    var t := s.(closers := s.closers[i := O.Late]);
    var j :| 0 <= j < |s.closers| && s.closers[j].Through?;
    assert t.closers[j].Through?;
  }

  // ---------------------------------------------------------------- tasks that are awaited, and tasks that are lost

  predicate Running(log: seq<Event>, x: nat) { On(Create, x) in log && On(End, x) !in log }

  /** The field of every running task is set, and every call that got past its stop requests will still wait for it. */
  ghost predicate Awaited(s: Mixed)
    requires s.Formed()
  {
    forall x: nat :: Running(s.log, x) ==>
      && x < WORKER_KINDS && s.tasks[x]
      && forall i :: 0 <= i < |s.closers| && O.Inside(s.closers[i]) ==> s.closers[i].Waiting? && s.at[i] <= x
  }

  /** Some task runs, and no call waits for any. */
  ghost predicate Lost(s: Mixed) {
    (exists x: nat :: Running(s.log, x)) && forall i :: 0 <= i < |s.closers| ==> !s.closers[i].Waiting?
  }

  lemma ShutAwaited(c: Config, w: World, s: Mixed, i: nat)
    requires c.Valid() && s.Formed() && i < |s.closers| && Awaited(s)
    ensures Awaited(Shut(c, w, s, i))
  {
    ShutMeans(c, w, s, i);
    hide Shut;
    hide O.Refuses;
    var t := Shut(c, w, s, i);
    forall x: nat | Running(t.log, x) ensures Running(s.log, x) {}
  }

  lemma WaitAwaited(c: Config, s: Mixed, i: nat)
    requires c.Valid() && s.Formed() && i < |s.closers| && s.closers[i].Waiting? && Awaited(s)
    ensures Awaited(Proceed(c, s, i))
  {
    var t := Proceed(c, s, i);
    var k: nat := s.at[i];
    assert On(End, k) in t.log;
    forall x: nat | Running(t.log, x)
      ensures x < WORKER_KINDS && t.tasks[x]
      ensures forall j :: 0 <= j < |t.closers| && O.Inside(t.closers[j]) ==> t.closers[j].Waiting? && t.at[j] <= x
    {
      assert Running(s.log, x) && x != k;
      assert k <= x && k + 1 <= x;
      assert s.tasks[k := false][x];
      assert NextHeld(s.tasks[k := false], k + 1) <= x;
      assert t.closers[i].Waiting? && t.at[i] <= x;
      forall j | 0 <= j < |t.closers| && j != i && O.Inside(t.closers[j]) ensures t.closers[j].Waiting? && t.at[j] <= x {
        assert t.closers[j] == s.closers[j] && t.at[j] == s.at[j];
      }
    }
  }

  lemma ClosingAwaited(c: Config, s: Mixed, i: nat)
    requires c.Valid() && s.Formed() && i < |s.closers| && s.closers[i].Closing? && Awaited(s)
    ensures Awaited(Proceed(c, s, i))
  {
    LateOnly(c);
    hide Closings;
    var t := Proceed(c, s, i);
    forall x: nat ensures Running(t.log, x) ==> Running(s.log, x) {}
  }

  /** Tasks created while no call is past its stop requests are awaited by all that come. */
  lemma BeginAwaited(c: Config, w: World, s: Mixed)
    requires c.Valid() && Placed(s) && !s.starter.Failed? && Awaited(s)
    requires (exists x: nat :: On(Create, x) !in s.log && On(Create, x) in Begin(c, w, s).log) ==> Insides(s.closers) == 0
    ensures Awaited(Begin(c, w, s))
  {
    var (after, raised) := Stretch(c, w, s);
    StretchTouches(c, w, s);
    InsidesMean(s.closers);
    ShutMeans(c, w, after.(starter := Failed), 0);
    hide Stretch;
    hide Closings;
    hide Shut;
    hide O.Refuses;
    assert forall x: nat :: On(Create, x) in after.log <==> On(Create, x) in Begin(c, w, s).log;
    forall x: nat | Running(after.log, x)
      ensures x < WORKER_KINDS && after.tasks[x]
      ensures forall j :: 0 <= j < |s.closers| && O.Inside(s.closers[j]) ==> s.closers[j].Waiting? && s.at[j] <= x
    {
      if SameTasks(after, s) { assert Running(s.log, x); }
    }
    if raised { ShutAwaited(c, w, after.(starter := Failed), 0); }
  }

  lemma MoveAwaited(c: Config, worlds: seq<World>, s: Mixed, i: nat)
    requires c.Valid() && Placed(s) && |worlds| == |s.closers| && CanMove(s, i) && Awaited(s)
    requires Creates(c, worlds, s, i) ==> Insides(s.closers) == 0
    ensures Awaited(Move(c, worlds, s, i))
  {
    hide Begin;
    hide Shut;
    hide Proceed;
    if i == 0 && !s.starter.Failed? {
      BeginAwaited(c, worlds[0], s);
    } else if s.closers[i].Outside? {
      if !s.closed { ShutAwaited(c, worlds[i], s, i); }
    } else if s.closers[i].Waiting? {
      WaitAwaited(c, s, i);
    } else {
      ClosingAwaited(c, s, i);
    }
  }

  lemma ShutLost(c: Config, w: World, s: Mixed, i: nat)
    requires c.Valid() && s.Formed() && i < |s.closers| && Lost(s) && !O.Inside(Shut(c, w, s, i).closers[i])
    ensures Lost(Shut(c, w, s, i))
  {
    ShutMeans(c, w, s, i);
    hide Shut;
    hide O.Refuses;
    var x: nat :| Running(s.log, x);
    assert Running(Shut(c, w, s, i).log, x);
  }

  lemma ClosingLost(c: Config, s: Mixed, i: nat)
    requires c.Valid() && s.Formed() && i < |s.closers| && s.closers[i].Closing? && Lost(s)
    ensures Lost(Proceed(c, s, i))
  {
    LateOnly(c);
    hide Closings;
    var x: nat :| Running(s.log, x);
    assert Running(Proceed(c, s, i).log, x);
  }

  /** A task that runs while nobody waits, and one that is created then, is lost as long as no other call enters. */
  lemma BeginLost(c: Config, w: World, s: Mixed)
    requires c.Valid() && Placed(s) && !s.starter.Failed? && !O.Inside(Begin(c, w, s).closers[0])
    requires Lost(s) || exists x: nat :: On(Create, x) !in s.log && On(Create, x) in Begin(c, w, s).log
    ensures Lost(Begin(c, w, s))
  {
    var (after, raised) := Stretch(c, w, s);
    StretchTouches(c, w, s);
    ShutMeans(c, w, after.(starter := Failed), 0);
    hide Stretch;
    hide Closings;
    hide Shut;
    hide O.Refuses;
    StretchLost(c, w, s, after);
    if raised { ShutLost(c, w, after.(starter := Failed), 0); }
  }

  lemma StretchLost(c: Config, w: World, s: Mixed, after: Mixed)
    requires c.Valid() && Placed(s) && Touches(c, s, after)
    requires Lost(s) || exists x: nat :: On(Create, x) !in s.log && On(Create, x) in after.log
    ensures Lost(after)
  {
    hide Closings;
    if Lost(s) {
      var x: nat :| Running(s.log, x);
      assert Running(after.log, x);
    } else {
      var x: nat :| On(Create, x) !in s.log && On(Create, x) in after.log;
      assert NoneCreated(s.log);
      assert Running(after.log, x);
    }
  }

  lemma MoveLost(c: Config, worlds: seq<World>, s: Mixed, i: nat)
    requires c.Valid() && Placed(s) && |worlds| == |s.closers| && CanMove(s, i) && !Enters(c, worlds, s, i)
    requires Lost(s) || Creates(c, worlds, s, i)
    ensures Lost(Move(c, worlds, s, i))
  {
    if i == 0 && !s.starter.Failed? {
      hide Begin;
      BeginLost(c, worlds[0], s);
    } else {
      OthersCreateNothing(c, worlds, s, i);
      hide Begin;
      hide Proceed;
      hide Shut;
      if s.closers[i].Outside? {
        if !s.closed { ShutLost(c, worlds[i], s, i); }
      } else {
        ClosingLost(c, s, i);
      }
    }
  }

  lemma OthersCreateNothing(c: Config, worlds: seq<World>, s: Mixed, i: nat)
    requires c.Valid() && Placed(s) && |worlds| == |s.closers| && CanMove(s, i) && (i == 0 ==> s.starter.Failed?)
    ensures !Creates(c, worlds, s, i)
  {
    LateOnly(c);
    hide Closings;
    hide Begin;
    if s.closers[i].Outside? && !s.closed {
      ShutMeans(c, worlds[i], s, i);
      hide Shut;
    } else {
      hide Shut;
      forall x: nat ensures On(Create, x) in Move(c, worlds, s, i).log ==> On(Create, x) in s.log {}
    }
  }

  // ---------------------------------------------------------------- every schedule

  /** What holds after every schedule. */
  ghost predicate Inv(c: Config, worlds: seq<World>, turns: seq<nat>, s: Mixed)
    requires c.Valid() && worlds != []
  {
    && Placed(s) && Tallied(c, s) && |s.closers| == |worlds|
    && Insides(s.closers) == Entries(c, worlds, turns)
    && (!Early(c, worlds, turns) ==> Awaited(s))
    && (Early(c, worlds, turns) ==> Entries(c, worlds, turns) >= 1)
    && (Early(c, worlds, turns) && Entries(c, worlds, turns) == 1 ==> Lost(s))
  }

  lemma FreshPlaced(c: Config, n: nat)
    requires n >= 1
    ensures Placed(Fresh(n)) && Tallied(c, Fresh(n)) && Insides(Fresh(n).closers) == 0 && Awaited(Fresh(n))
  {
    InsidesMean(Fresh(n).closers);
    forall k | 0 <= k < |Closings(c)| ensures O.Passes(Fresh(n).closers, k) == 0 { O.NobodyPassed(Fresh(n).closers, k); }
  }

  lemma LastTurn(c: Config, worlds: seq<World>, turns: seq<nat>)
    requires c.Valid() && worlds != [] && turns != []
    ensures var init, last := turns[..|turns| - 1], turns[|turns| - 1];
            var s := RunFrom(c, worlds, init);
            && RunFrom(c, worlds, turns) == (if CanMove(s, last) then Move(c, worlds, s, last) else s)
            && Entries(c, worlds, turns) == Entries(c, worlds, init) + (if Enters(c, worlds, s, last) then 1 else 0)
            && (Early(c, worlds, turns) <==>
                  Early(c, worlds, init) || (Entries(c, worlds, init) > 0 && Creates(c, worlds, s, last)))
  {}

  lemma {:induction false} EveryScheduleKeeps(c: Config, worlds: seq<World>, turns: seq<nat>)
    requires c.Valid() && worlds != []
    ensures Inv(c, worlds, turns, RunFrom(c, worlds, turns))
  {
    if turns == [] {
      FreshPlaced(c, |worlds|);
    } else {
      var init, last := turns[..|turns| - 1], turns[|turns| - 1];
      var s := RunFrom(c, worlds, init);
      EveryScheduleKeeps(c, worlds, init);
      LastTurn(c, worlds, turns);
      hide RunFrom;
      hide Entries;
      hide Early;
      hide Placed;
      hide Tallied;
      hide Awaited;
      hide Lost;
      hide Move;
      hide Creates;
      if CanMove(s, last) {
        MoveCounts(c, worlds, s, last);
        MovePlaced(c, worlds, s, last);
        MoveTallied(c, worlds, s, last);
        if !Early(c, worlds, turns) { MoveAwaited(c, worlds, s, last); }
        if Early(c, worlds, turns) && Entries(c, worlds, turns) == 1 { MoveLost(c, worlds, s, last); }
      } else {
        CannotCreate(c, worlds, s, last);
      }
    }
  }

  lemma CannotCreate(c: Config, worlds: seq<World>, s: Mixed, i: nat)
    requires c.Valid() && s.Formed() && |worlds| == |s.closers| && !CanMove(s, i)
    ensures !Creates(c, worlds, s, i) && !Enters(c, worlds, s, i)
  {}

  lemma MoveCounts(c: Config, worlds: seq<World>, s: Mixed, i: nat)
    requires c.Valid() && Placed(s) && |worlds| == |s.closers| && CanMove(s, i)
    ensures Insides(Move(c, worlds, s, i).closers) == Insides(s.closers) + if Enters(c, worlds, s, i) then 1 else 0
  {
    MovesOne(c, worlds, s, i);
    InsidesUpdate(s.closers, i, Move(c, worlds, s, i).closers[i]);
    hide Move;
  }

  /**
   One start and any number of closes, in every interleaving: once no call is under way, nothing was closed
   twice and a closed runtime has no task left if and only if at most one call, the start's own shutdown
   included, got past its stop requests, and none did before the start created its tasks.
   */
  lemma KeptExactly(c: Config, worlds: seq<World>, turns: seq<nat>)
    requires c.Valid() && worlds != [] && Settled(RunFrom(c, worlds, turns))
    ensures Kept(c, RunFrom(c, worlds, turns)) <==> Entries(c, worlds, turns) <= 1 && !Early(c, worlds, turns)
  {
    var s := RunFrom(c, worlds, turns);
    EveryScheduleKeeps(c, worlds, turns);
    hide RunFrom;
    hide Entries;
    hide Early;
    TallyMeans(c, s);
    InsidesMean(s.closers);
    if Entries(c, worlds, turns) <= 1 && !Early(c, worlds, turns) {
      if s.closed { NobodyRuns(s); }
    } else if Entries(c, worlds, turns) == 1 {
      SomeoneIsThrough(s);
      var x: nat :| Running(s.log, x);
      assert !S.EndsAll(s.log);
    }
  }

  lemma TallyMeans(c: Config, s: Mixed)
    requires Tallied(c, s) && Settled(s)
    ensures (forall k :: 0 <= k < |Closings(c)| ==> multiset(s.log)[Closings(c)[k]] <= 1) <==> Insides(s.closers) <= 1
  {
    assert |Closings(c)| >= 1;
    hide Closings;
    forall k | 0 <= k < |Closings(c)| ensures multiset(s.log)[Closings(c)[k]] == Insides(s.closers) {
      SettledPasses(s.closers, k);
    }
    assert multiset(s.log)[Closings(c)[0]] == Insides(s.closers);
  }

  lemma SomeoneIsThrough(s: Mixed)
    requires Placed(s) && Settled(s) && Insides(s.closers) > 0
    ensures s.closed
  {
    InsidesMean(s.closers);
    var i :| 0 <= i < |s.closers| && O.Inside(s.closers[i]);
    assert s.closers[i].Through?;
  }

  lemma NobodyRuns(s: Mixed)
    requires Placed(s) && s.closed && Awaited(s)
    ensures S.EndsAll(s.log)
  {
    var i :| 0 <= i < |s.closers| && s.closers[i].Through?;
    forall x: nat | On(Create, x) in s.log ensures On(End, x) in s.log {
      assert !Running(s.log, x);
    }
  }

  /**
   What entering is: a close enters when it finds the runtime open and no worker refuses, the start when it
   raises and no worker refuses, whether the runtime is open or not.
   */
  lemma EntersExactly(c: Config, worlds: seq<World>, s: Mixed, i: nat)
    requires c.Valid() && Placed(s) && |worlds| == |s.closers| && CanMove(s, i)
    ensures Enters(c, worlds, s, i) <==>
              && !O.Refuses(c, worlds[i])
              && if i == 0 then !s.starter.Failed? && Stretch(c, worlds[0], s).1 else s.closers[i].Outside? && !s.closed
  {
    if i == 0 && !s.starter.Failed? {
      StretchTouches(c, worlds[0], s);
      ShutMeans(c, worlds[0], Stretch(c, worlds[0], s).0.(starter := Failed), 0);
      hide Stretch;
    } else if s.closers[i].Outside? && !s.closed {
      ShutMeans(c, worlds[i], s, i);
    }
    hide Shut;
    hide Closings;
    hide O.Refuses;
  }

  // ---------------------------------------------------------------- when the start raises

  /** The action whose outcome the start is waiting for. */
  function Awaiting(starter: Starter): seq<Event> {
    match starter
    case Checking => [DatabaseChecked]
    case Publishing => [PublisherStarted]
    case _ => []
  }

  /** The actions whose outcome a stretch of the start learns: the awaited one and those it logs, but for the one it begins to await. */
  ghost predicate Learns(c: Config, w: World, s: Mixed, e: Event)
    requires c.Valid() && s.Formed()
  {
    var t := Stretch(c, w, s).0;
    e in Awaiting(s.starter) || (e in t.log[|s.log|..] && e !in Awaiting(t.starter))
  }

  lemma {:induction false} FirstErrorExactly(w: World, steps: seq<Event>)
    ensures FirstError(w, steps).Some? <==> exists e :: e in Perform(w, steps) && w.Raises(e).Some?
  {
    PerformedError(w, steps);
    FirstErrorMeans(w, Perform(w, steps));
    var done := Perform(w, steps);
    if e :| e in done && w.Raises(e).Some? {
      var k :| 0 <= k < |done| && done[k] == e;
    }
  }

  lemma StretchLogs(c: Config, w: World, s: Mixed)
    requires c.Valid() && s.Formed()
    ensures s.log <= Stretch(c, w, s).0.log
  {
    hide Launches;
    hide Each;
    hide Perform;
    hide FirstError;
  }

  lemma LaunchRaises(c: Config, w: World, s: Mixed, before: seq<Event>)
    requires c.Valid() && s.Formed()
    ensures var r := LaunchAll(c, w, s.(log := s.log + before));
            && r.0.log[|s.log|..] == before + Perform(w, Launches(c.workers, WORKER_KINDS))
            && Awaiting(r.0.starter) == []
            && (r.1 <==> exists e :: e in Perform(w, Launches(c.workers, WORKER_KINDS)) && w.Raises(e).Some?)
  {
    FirstErrorExactly(w, Launches(c.workers, WORKER_KINDS));
    hide Launches;
    hide Perform;
    hide FirstError;
  }

  lemma CheckingRaises(c: Config, w: World, s: Mixed)
    requires c.Valid() && s.Formed() && s.starter.Checking?
    ensures Stretch(c, w, s).1 <==> exists e :: Learns(c, w, s, e) && w.Raises(e).Some?
  {
    StretchLogs(c, w, s);
    LaunchRaises(c, w, s, [ClockRead]);
    var added := Stretch(c, w, s).0.log[|s.log|..];
    hide LaunchAll;
    if w.Raises(DatabaseChecked).Some? {
      assert Learns(c, w, s, DatabaseChecked);
    } else if w.Raises(ClockRead).Some? {
      assert added == [ClockRead] && Learns(c, w, s, ClockRead);
    } else if c.publisher {
      assert added == [ClockRead, PublisherStarted];
    } else {
      assert added == [ClockRead] + Perform(w, Launches(c.workers, WORKER_KINDS));
      hide Perform;
      assert forall e :: e in Perform(w, Launches(c.workers, WORKER_KINDS)) ==> Learns(c, w, s, e);
    }
  }

  lemma PublishingRaises(c: Config, w: World, s: Mixed)
    requires c.Valid() && s.Formed() && s.starter.Publishing?
    ensures Stretch(c, w, s).1 <==> exists e :: Learns(c, w, s, e) && w.Raises(e).Some?
  {
    hide Launches;
    hide Perform;
    hide FirstError;
    StretchLogs(c, w, s);
    if w.Raises(PublisherStarted).Some? {
      assert Learns(c, w, s, PublisherStarted);
    } else {
      LaunchRaises(c, w, s, []);
      assert s.(log := s.log + []) == s;
      hide LaunchAll;
      var done := Perform(w, Launches(c.workers, WORKER_KINDS));
      assert Stretch(c, w, s).0.log[|s.log|..] == [] + done == done;
      assert forall e :: Learns(c, w, s, e) <==> e == PublisherStarted || e in done;
    }
  }

  /** A stretch of the start raises exactly if an action whose outcome it learns raises. */
  lemma StretchRaisesExactly(c: Config, w: World, s: Mixed)
    requires c.Valid() && s.Formed()
    ensures Stretch(c, w, s).1 <==> exists e :: Learns(c, w, s, e) && w.Raises(e).Some?
  {
    StretchLogs(c, w, s);
    var added := Stretch(c, w, s).0.log[|s.log|..];
    match s.starter
    case Resting => assert added == [DatabaseChecked];
    case Checking => CheckingRaises(c, w, s);
    case Publishing => PublishingRaises(c, w, s);
    case Yielding =>
      var exits := Each(Both(s.tasks, w.exited), SeeExit, WORKER_KINDS);
      FirstErrorExactly(w, exits);
      hide Each;
      hide Perform;
      hide FirstError;
      assert added == Perform(w, exits);
      assert forall e :: e in Perform(w, exits) ==> Learns(c, w, s, e);
    case _ => assert added == [];
  }
}
