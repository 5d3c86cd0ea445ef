/** Whole lives of a runtime: every sequence of calls, whatever fails on the way. */
module RuntimeRuns {
  import opened Outcomes
  import opened RuntimeLifecycle

  datatype Call = Start(w: World) | Close(w: World)

  function After(c: Config, s: State, call: Call): State
    requires c.Valid() && |s.tasks| == WORKER_KINDS
  {
    match call
    case Start(w) => AfterStart(c, s, w)
    case Close(w) => AfterClose(c, s, w)
  }

  function Run(c: Config, calls: seq<Call>): (s: State)
    requires c.Valid()
    ensures |s.tasks| == WORKER_KINDS
  {
    if calls == [] then Initial()
    else After(c, Run(c, calls[..|calls| - 1]), calls[|calls| - 1])
  }

  // ---------------------------------------------------------------- the order of events

  function Phase(e: Event): nat {
    match e
    case DatabaseChecked => 0
    case ClockRead => 1
    case PublisherStarted => 2
    case On(action, _) => (match action case Launch => 3 case Create => 3 case SeeExit => 4 case RequestStop => 5 case Force => 6 case End => 6)
    case PublisherClosed => 7
    case AuthenticatorClosed => 8
    case ResourceClosed(_) => 9
    case EngineDisposed => 10
  }

  /** Workers are taken first to last, a task after its launch and its end after its cancellation; managed resources last to first. */
  function Place(e: Event): int {
    match e
    case On(action, w) => if action.End? || action.Create? then 2 * w + 1 else 2 * w
    case ResourceClosed(i) => -(i as int)
    case _ => 0
  }

  /** Strictly earlier in the order a runtime must follow. */
  predicate Before(e: Event, f: Event) {
    Phase(e) < Phase(f) || (Phase(e) == Phase(f) && Place(e) < Place(f))
  }

  predicate BothStops(e: Event, f: Event) { Phase(e) == 5 && Phase(f) == 5 }

  /** In order, and nothing twice, except that stop requests may be repeated. */
  ghost predicate InOrder(log: seq<Event>) {
    forall i, j :: 0 <= i < j < |log| ==> Before(log[i], log[j]) || BothStops(log[i], log[j])
  }

  ghost predicate Within(log: seq<Event>, low: nat, high: nat) {
    forall i :: 0 <= i < |log| ==> low <= Phase(log[i]) <= high
  }

  lemma JoinsInOrder(a: seq<Event>, b: seq<Event>, p: nat, q: nat, high: nat)
    requires InOrder(a) && InOrder(b) && Within(a, 0, p) && Within(b, q, high)
    requires p < q || p == q == 5
    ensures InOrder(a + b) && Within(a + b, 0, if b == [] || high <= p then p else high)
  {
    var r := a + b;
    forall i, j | 0 <= i < j < |r| ensures Before(r[i], r[j]) || BothStops(r[i], r[j]) {
      assert i < |a| ==> r[i] == a[i];
      assert i >= |a| ==> r[i] == b[i - |a|];
      assert j < |a| ==> r[j] == a[j];
      assert j >= |a| ==> r[j] == b[j - |a|];
    }
  }

  lemma {:induction false} EachInOrder(marked: seq<bool>, action: Action, k: nat)
    requires k <= |marked|
    ensures InOrder(Each(marked, action, k))
    ensures Within(Each(marked, action, k), Phase(On(action, 0)), Phase(On(action, 0)))
  {
    if k > 0 {
      EachInOrder(marked, action, k - 1);
      var before := Each(marked, action, k - 1);
      forall i | 0 <= i < |before| ensures Before(before[i], On(action, k - 1)) {
        EachMembers(marked, action, k - 1, before[i]);
      }
    }
  }

  lemma {:induction false} LaunchesInOrder(workers: seq<bool>, k: nat)
    requires k <= |workers|
    ensures InOrder(Launches(workers, k)) && Within(Launches(workers, k), 3, 3)
  {
    if k > 0 && workers[k - 1] {
      LaunchesInOrder(workers, k - 1);
      var before, last := Launches(workers, k - 1), [On(Launch, k - 1), On(Create, k - 1)];
      forall i | 0 <= i < |before| ensures before[i].On? && before[i].w < k - 1 && (before[i].action.Launch? || before[i].action.Create?) {
        LaunchMembers(workers, k - 1, before[i]);
      }
      assert Launches(workers, k) == before + last;
    } else if k > 0 {
      LaunchesInOrder(workers, k - 1);
      assert Launches(workers, k) == Launches(workers, k - 1);
    }
  }

  lemma WaitStepsAre(w: World, k: nat)
    ensures forall i :: 0 <= i < |WaitSteps(w, k)| ==> WaitSteps(w, k)[i] == On(Force, k) || WaitSteps(w, k)[i] == On(End, k)
    ensures On(End, k) in WaitSteps(w, k) && InOrder(WaitSteps(w, k))
  {}

  lemma {:induction false} WaitMembers(w: World, tasks: seq<bool>, k: nat, e: Event)
    requires k <= |tasks|
    ensures e in Waits(w, tasks, k) ==> e.On? && (e.action.Force? || e.action.End?) && e.w < k && tasks[e.w]
    ensures e.On? && e.action.End? && e.w < k && tasks[e.w] ==> e in Waits(w, tasks, k)
  {
    hide WaitSteps;
    if k > 0 {
      WaitMembers(w, tasks, k - 1, e);
      WaitStepsAre(w, k - 1);
    }
  }

  /** A task is cancelled by the shutdown exactly if it outlasts its deadline, or fails with a timeout of its own. */
  lemma {:induction false} ForcedExactly(w: World, tasks: seq<bool>, k: nat, x: nat)
    requires k <= |tasks|
    ensures On(Force, x) in Waits(w, tasks, k) <==>
              x < k && tasks[x] && (w.course(x).Overdue? || w.course(x).result == Fails(TIMEOUT_ERROR))
  {
    if k > 0 {
      ForcedExactly(w, tasks, k - 1, x);
      var steps := WaitSteps(w, k - 1);
      assert On(Force, x) in steps <==> x == k - 1 && IsForced(w.course(k - 1));
      hide WaitSteps;
    }
  }

  lemma {:induction false} WaitsInOrder(w: World, tasks: seq<bool>, k: nat)
    requires k <= |tasks|
    ensures InOrder(Waits(w, tasks, k)) && Within(Waits(w, tasks, k), 6, 6)
  {
    hide WaitSteps;
    if k > 0 && tasks[k - 1] {
      WaitsInOrder(w, tasks, k - 1);
      WaitStepsAre(w, k - 1);
      var before, last := Waits(w, tasks, k - 1), WaitSteps(w, k - 1);
      forall i | 0 <= i < |before| ensures before[i].On? && before[i].w < k - 1 && (before[i].action.Force? || before[i].action.End?) {
        WaitMembers(w, tasks, k - 1, before[i]);
      }
      assert Waits(w, tasks, k) == before + last;
    } else if k > 0 {
      WaitsInOrder(w, tasks, k - 1);
      assert Waits(w, tasks, k) == Waits(w, tasks, k - 1);
    }
  }

  lemma {:induction false} ResourcesInOrder(n: nat)
    ensures InOrder(Resources(n)) && Within(Resources(n), 9, 9)
    ensures forall e :: e in Resources(n) <==> e.ResourceClosed? && e.i < n
  {
    if n > 0 {
      ResourcesInOrder(n - 1);
    }
  }

  lemma OnlyIfInOrder(present: bool, e: Event)
    ensures InOrder(OnlyIf(present, e)) && Within(OnlyIf(present, e), Phase(e), Phase(e))
  {}

  lemma OpeningInOrder(c: Config)
    ensures InOrder(Opening(c)) && Within(Opening(c), 0, 2)
  {}

  lemma StartInOrder(c: Config, w: World)
    requires c.Valid()
    ensures InOrder(StartSteps(c, w)) && Within(StartSteps(c, w), 0, 4)
  {
    hide InOrder;
    hide Within;
    var creates, exits := Launches(c.workers, WORKER_KINDS), Each(Both(c.workers, w.exited), SeeExit, WORKER_KINDS);
    OpeningInOrder(c);
    LaunchesInOrder(c.workers, WORKER_KINDS);
    EachInOrder(Both(c.workers, w.exited), SeeExit, WORKER_KINDS);
    JoinsInOrder(Opening(c), creates, 2, 3, 3);
    Widen(Opening(c) + creates, 0, if creates == [] then 2 else 3, 3);
    JoinsInOrder(Opening(c) + creates, exits, 3, 4, 4);
    Widen(Opening(c) + creates + exits, 0, if exits == [] then 3 else 4, 4);
  }

  lemma Widen(log: seq<Event>, low: nat, high: nat, higher: nat)
    requires Within(log, low, high) && high <= higher
    ensures Within(log, low, higher) && Within(log, 0, higher)
  {}

  lemma ClosingsInOrder(c: Config)
    ensures InOrder(Closings(c)) && Within(Closings(c), 7, 10)
    ensures forall e :: e in Closings(c) <==>
              || (c.publisher && e == PublisherClosed) || (c.authenticator && e == AuthenticatorClosed)
              || (e.ResourceClosed? && e.i < c.resources) || e == EngineDisposed
  {
    ClosingMembers(c);
    hide InOrder;
    hide Within;
    var a, b, r := OnlyIf(c.publisher, PublisherClosed), OnlyIf(c.authenticator, AuthenticatorClosed), Resources(c.resources);
    OnlyIfInOrder(c.publisher, PublisherClosed);
    OnlyIfInOrder(c.authenticator, AuthenticatorClosed);
    OnlyIfInOrder(true, EngineDisposed);
    ResourcesInOrder(c.resources);
    Widen(a, 7, 7, 7);
    JoinsInOrder(a, b, 7, 8, 8);
    Widen(a + b, 0, if b == [] then 7 else 8, 8);
    JoinsInOrder(a + b, r, 8, 9, 9);
    Widen(a + b + r, 0, if r == [] then 8 else 9, 9);
    JoinsInOrder(a + b + r, [EngineDisposed], 9, 10, 10);
    LateOnly(c);
  }

  lemma ClosingMembers(c: Config)
    ensures forall e :: e in Closings(c) <==>
              || (c.publisher && e == PublisherClosed) || (c.authenticator && e == AuthenticatorClosed)
              || (e.ResourceClosed? && e.i < c.resources) || e == EngineDisposed
  {
    ResourcesInOrder(c.resources);
  }

  lemma LateOnly(c: Config)
    ensures Within(Closings(c), 7, 10)
  {
    ClosingMembers(c);
    forall i | 0 <= i < |Closings(c)| ensures 7 <= Phase(Closings(c)[i]) <= 10 {
      assert Closings(c)[i] in Closings(c);
    }
  }

  lemma CleanInOrder(c: Config, w: World, tasks: seq<bool>)
    requires |tasks| == WORKER_KINDS
    ensures InOrder(CleanSteps(c, w, tasks)) && Within(CleanSteps(c, w, tasks), 6, 10)
  {
    hide InOrder;
    var ends := Waits(w, tasks, WORKER_KINDS);
    WaitsInOrder(w, tasks, WORKER_KINDS);
    ClosingsInOrder(c);
    Widen(ends, 6, 6, 6);
    JoinsInOrder(ends, Closings(c), 6, 7, 10);
  }

  lemma PrefixInOrder(a: seq<Event>, b: seq<Event>, low: nat, high: nat)
    requires a <= b && InOrder(b) && Within(b, low, high)
    ensures InOrder(a) && Within(a, low, high)
  {}

  // ---------------------------------------------------------------- what holds after every call

  /** Every configured thing has been stopped and closed, and every task that was created has ended. */
  ghost predicate Complete(c: Config, log: seq<Event>)
    requires c.Valid()
  {
    && (forall x :: 0 <= x < WORKER_KINDS && c.workers[x] ==> On(RequestStop, x) in log)
    && (forall x: nat :: On(End, x) in log <==> On(Create, x) in log)
    && (PublisherClosed in log <==> c.publisher)
    && (AuthenticatorClosed in log <==> c.authenticator)
    && (forall i: nat :: ResourceClosed(i) in log <==> i < c.resources)
    && EngineDisposed in log
  }

  ghost predicate TasksAre(s: State)
    requires |s.tasks| == WORKER_KINDS
  {
    forall x: nat :: On(Create, x) in s.log <==> x < WORKER_KINDS && s.tasks[x]
  }

  ghost predicate Orderly(c: Config, s: State)
    requires c.Valid()
  {
    && s.startAttempted && |s.tasks| == WORKER_KINDS && InOrder(s.log)
    && (!s.closed ==> Within(s.log, 0, 5) && TasksAre(s))
    && (s.closed ==> Complete(c, s.log))
  }

  /** Only tasks of the five workers are created. */
  lemma CreatedAreWorkers(c: Config, w: World, x: nat)
    requires c.Valid() && On(Create, x) in Perform(w, StartSteps(c, w))
    ensures x < WORKER_KINDS && c.workers[x]
  {
    PerformPart(w, StartSteps(c, w));
    OpeningHasNone(c, x);
    LaunchMembers(c.workers, WORKER_KINDS, On(Create, x));
    EachMembers(Both(c.workers, w.exited), SeeExit, WORKER_KINDS, On(Create, x));
  }

  lemma LaunchedAre(c: Config, s: State, w: World)
    requires c.Valid() && forall x: nat :: On(Create, x) !in s.log
    ensures TasksAre(AfterLaunch(c, s, w))
  {
    hide StartSteps;
    forall x: nat ensures On(Create, x) in AfterLaunch(c, s, w).log <==> x < WORKER_KINDS && AfterLaunch(c, s, w).tasks[x] {
      if On(Create, x) in Perform(w, StartSteps(c, w)) { CreatedAreWorkers(c, w, x); }
    }
  }

  lemma OpeningHasNone(c: Config, x: nat)
    ensures On(Create, x) !in Opening(c)
  {}

  lemma LaunchOrderly(c: Config, w: World)
    requires c.Valid()
    ensures Orderly(c, AfterLaunch(c, Initial(), w))
  {
    hide TasksAre;
    hide InOrder;
    var steps := StartSteps(c, w);
    var s := AfterLaunch(c, Initial(), w);
    StartInOrder(c, w);
    PerformPart(w, steps);
    PrefixInOrder(Perform(w, steps), steps, 0, 4);
    Widen(Perform(w, steps), 0, 4, 5);
    LaunchedAre(c, Initial(), w);
    assert s.log == Perform(w, steps);
  }

  lemma StopsInOrder(c: Config, w: World)
    requires c.Valid()
    ensures InOrder(StopSteps(c)) && Within(StopSteps(c), 5, 5)
    ensures InOrder(Perform(w, StopSteps(c))) && Within(Perform(w, StopSteps(c)), 5, 5)
    ensures forall e :: e in StopSteps(c) <==> e.On? && e.action.RequestStop? && e.w < WORKER_KINDS && c.workers[e.w]
    ensures forall e :: e in Perform(w, StopSteps(c)) ==> e in StopSteps(c)
  {
    EachInOrder(c.workers, RequestStop, WORKER_KINDS);
    PerformPart(w, StopSteps(c));
    PrefixInOrder(Perform(w, StopSteps(c)), StopSteps(c), 5, 5);
    forall e ensures e in StopSteps(c) <==> e.On? && e.action.RequestStop? && e.w < WORKER_KINDS && c.workers[e.w] {
      EachMembers(c.workers, RequestStop, WORKER_KINDS, e);
    }
  }

  /** A shutdown that a stop request aborts has done nothing but request stops. */
  lemma AbortedShutdown(c: Config, s: State, w: World)
    requires c.Valid() && Orderly(c, s) && !s.closed && FirstError(w, StopSteps(c)).Some?
    ensures Orderly(c, AfterShutdown(c, s, w)) && !AfterShutdown(c, s, w).closed
    ensures AfterShutdown(c, s, w).tasks == s.tasks
    ensures forall e :: e in AfterShutdown(c, s, w).log ==> e in s.log || (e.On? && e.action.RequestStop?)
  {
    hide InOrder;
    StopsInOrder(c, w);
    JoinsInOrder(s.log, Perform(w, StopSteps(c)), 5, 5, 5);
  }

  lemma FullShutdown(c: Config, s: State, w: World)
    requires c.Valid() && Orderly(c, s) && !s.closed && FirstError(w, StopSteps(c)).None?
    ensures Orderly(c, AfterShutdown(c, s, w)) && AfterShutdown(c, s, w).closed
  {
    hide InOrder;
    hide TasksAre;
    hide Complete;
    hide CleanSteps;
    hide StopSteps;
    StopsInOrder(c, w);
    CleanInOrder(c, w, s.tasks);
    JoinsInOrder(s.log, StopSteps(c), 5, 5, 5);
    JoinsInOrder(s.log + StopSteps(c), CleanSteps(c, w, s.tasks), 5, 6, 10);
    FullIsComplete(c, w, s);
  }

  lemma FullIsComplete(c: Config, w: World, s: State)
    requires c.Valid() && |s.tasks| == WORKER_KINDS && Within(s.log, 0, 5) && TasksAre(s)
    ensures Complete(c, s.log + StopSteps(c) + CleanSteps(c, w, s.tasks))
  {
    hide Waits;
    hide Closings;
    hide StopSteps;
    hide Within;
    var ends := Waits(w, s.tasks, WORKER_KINDS);
    ClosingMembers(c);
    EarlyOnly(s.log);
    StopMembers(c);
    forall e
      ensures e in ends ==> e.On? && (e.action.Force? || e.action.End?) && e.w < WORKER_KINDS && s.tasks[e.w]
      ensures e.On? && e.action.End? && e.w < WORKER_KINDS && s.tasks[e.w] ==> e in ends
    {
      WaitMembers(w, s.tasks, WORKER_KINDS, e);
    }
  }

  lemma StopMembers(c: Config)
    requires c.Valid()
    ensures forall e :: e in StopSteps(c) <==> e.On? && e.action.RequestStop? && e.w < WORKER_KINDS && c.workers[e.w]
  {
    forall e ensures e in StopSteps(c) <==> e.On? && e.action.RequestStop? && e.w < WORKER_KINDS && c.workers[e.w] {
      EachMembers(c.workers, RequestStop, WORKER_KINDS, e);
    }
  }

  lemma EarlyOnly(log: seq<Event>)
    requires Within(log, 0, 5)
    ensures forall e :: e in log ==> Phase(e) <= 5
  {}

  lemma CallKeepsOrder(c: Config, s: State, call: Call)
    requires c.Valid() && Orderly(c, s)
    ensures Orderly(c, After(c, s, call))
    ensures s.closed ==> After(c, s, call) == s
  {
    hide Orderly;
    OrderlyStarted(c, s);
    if call.Close? && !s.closed {
      if FirstError(call.w, StopSteps(c)).Some? {
        AbortedShutdown(c, s, call.w);
      } else {
        FullShutdown(c, s, call.w);
      }
    }
  }

  lemma OrderlyStarted(c: Config, s: State)
    requires c.Valid() && Orderly(c, s)
    ensures s.startAttempted && |s.tasks| == WORKER_KINDS
  {}

  lemma FirstStartOrderly(c: Config, w: World)
    requires c.Valid()
    ensures Orderly(c, AfterStart(c, Initial(), w))
    ensures AfterStart(c, Initial(), w).closed <==>
              FirstError(w, StartSteps(c, w)).Some? && FirstError(w, StopSteps(c)).None?
  {
    hide Orderly;
    var s := AfterLaunch(c, Initial(), w);
    LaunchOrderly(c, w);
    OrderlyStarted(c, s);
    if FirstError(w, StartSteps(c, w)).Some? {
      if FirstError(w, StopSteps(c)).Some? {
        AbortedShutdown(c, s, w);
      } else {
        FullShutdown(c, s, w);
      }
    }
  }

  /**
   In every life that begins with `start`, whatever raises: events come in the order start-up, stop
   requests, ends of the workers, publisher, authenticator, managed resources in reverse, engine, and
   none but stop requests occurs twice. Once the runtime is closed, everything configured has been
   closed and every task that was created has ended.
   */
  lemma {:induction false} EveryLifeIsOrderly(c: Config, calls: seq<Call>)
    requires c.Valid() && calls != [] && calls[0].Start?
    ensures Orderly(c, Run(c, calls))
  {
    hide Orderly;
    var init := calls[..|calls| - 1];
    if |calls| == 1 {
      assert init == [];
      FirstStartOrderly(c, calls[0].w);
    } else {
      EveryLifeIsOrderly(c, init);
      CallKeepsOrder(c, Run(c, init), calls[|calls| - 1]);
    }
  }

  /** Call i tries to close everything, and no worker refuses to be asked to stop. */
  ghost predicate Closes(c: Config, calls: seq<Call>, i: nat)
    requires c.Valid() && i < |calls|
  {
    && FirstError(calls[i].w, StopSteps(c)).None?
    && (calls[i].Close? || (i == 0 && FirstError(calls[i].w, StartSteps(c, calls[i].w)).Some?))
  }

  /** A runtime is closed exactly when some failed start or close met no raising stop request. */
  lemma {:induction false} ClosedExactly(c: Config, calls: seq<Call>)
    requires c.Valid() && calls != [] && calls[0].Start?
    ensures Run(c, calls).closed <==> exists i :: 0 <= i < |calls| && Closes(c, calls, i)
  {
    hide Orderly;
    hide Closes;
    var last := |calls| - 1;
    var init := calls[..last];
    if last == 0 {
      assert init == [];
      FirstStartOrderly(c, calls[0].w);
      ClosesMeans(c, calls, 0);
    } else {
      ClosedExactly(c, init);
      EveryLifeIsOrderly(c, init);
      OrderlyStarted(c, Run(c, init));
      ClosesMeans(c, calls, last);
      forall i | 0 <= i < last ensures Closes(c, calls, i) <==> Closes(c, init, i) {
        ClosesMeans(c, calls, i);
        ClosesMeans(c, init, i);
      }
      LastCall(c, Run(c, init), calls[last]);
    }
  }

  lemma ClosesMeans(c: Config, calls: seq<Call>, i: nat)
    requires c.Valid() && i < |calls|
    ensures Closes(c, calls, i) <==>
              FirstError(calls[i].w, StopSteps(c)).None?
              && (calls[i].Close? || (i == 0 && FirstError(calls[i].w, StartSteps(c, calls[i].w)).Some?))
  {}

  lemma LastCall(c: Config, s: State, call: Call)
    requires c.Valid() && |s.tasks| == WORKER_KINDS && s.startAttempted
    ensures After(c, s, call).closed <==> s.closed || (call.Close? && FirstError(call.w, StopSteps(c)).None?)
  {}

  // ---------------------------------------------------------------- what a close reports

  lemma {:induction false} FirstErrorMeans(w: World, steps: seq<Event>)
    ensures FirstError(w, steps).None? <==> forall k :: 0 <= k < |steps| ==> w.Raises(steps[k]).None?
    ensures FirstError(w, steps).Some? ==>
              exists k :: 0 <= k < |steps| && w.Raises(steps[k]) == FirstError(w, steps)
                && forall j :: 0 <= j < k ==> w.Raises(steps[j]).None?
  {
    if steps != [] {
      FirstErrorMeans(w, steps[1..]);
      if w.Raises(steps[0]).None? && FirstError(w, steps).Some? {
        var k :| 0 <= k < |steps[1..]| && w.Raises(steps[1..][k]) == FirstError(w, steps)
                 && forall j :: 0 <= j < k ==> w.Raises(steps[1..][j]).None?;
        assert w.Raises(steps[k + 1]) == FirstError(w, steps);
        forall j | 0 <= j < k + 1 ensures w.Raises(steps[j]).None? {
          if j > 0 { assert steps[j] == steps[1..][j - 1]; }
        }
      }
    }
  }

  /** The first action of this call that raised. */
  ghost predicate FirstRaised(w: World, done: seq<Event>, k: nat, error: string) {
    && k < |done| && w.Raises(done[k]) == Some(error)
    && forall j :: 0 <= j < k ==> w.Raises(done[j]).None?
  }

  /**
   A close of an open runtime raises exactly when one of its actions did, and then it raises the
   error of the first of them. Closing again does nothing and raises nothing.
   */
  lemma CloseReportsFirstError(c: Config, s: State, w: World)
    requires c.Valid() && |s.tasks| == WORKER_KINDS
    ensures var done := AfterClose(c, s, w).log[|s.log|..];
            && (CloseReply(c, s, w).Done? <==> forall k :: 0 <= k < |done| ==> w.Raises(done[k]).None?)
            && (CloseReply(c, s, w).Raised? ==> exists k :: FirstRaised(w, done, k, CloseReply(c, s, w).error))
            && (s.closed ==> done == [] && CloseReply(c, s, w).Done?)
  {
    var done := AfterClose(c, s, w).log[|s.log|..];
    CloseDone(c, s, w);
    FirstErrorMeans(w, done);
    if FirstError(w, done).Some? {
      var k :| 0 <= k < |done| && w.Raises(done[k]) == FirstError(w, done)
               && forall j :: 0 <= j < k ==> w.Raises(done[j]).None?;
      assert FirstRaised(w, done, k, FirstError(w, done).value);
    }
  }

  lemma CloseDone(c: Config, s: State, w: World)
    requires c.Valid() && |s.tasks| == WORKER_KINDS
    ensures var done := AfterClose(c, s, w).log[|s.log|..];
            && CloseReply(c, s, w) == (if FirstError(w, done).Some? then Raised(FirstError(w, done).value) else Done)
            && (s.closed ==> done == [])
  {
    hide StopSteps;
    hide CleanSteps;
    var done := AfterClose(c, s, w).log[|s.log|..];
    var stops, cleans := StopSteps(c), CleanSteps(c, w, s.tasks);
    PerformAppend(w, stops, cleans);
    PerformedError(w, stops);
    if !s.closed {
      assert done == if FirstError(w, stops).Some? then Perform(w, stops) else stops + cleans;
    }
  }

  lemma {:induction false} PerformedError(w: World, steps: seq<Event>)
    ensures FirstError(w, Perform(w, steps)) == FirstError(w, steps)
  {
    if steps != [] && w.Raises(steps[0]).None? {
      PerformedError(w, steps[1..]);
      assert Perform(w, steps)[1..] == Perform(w, steps[1..]);
    }
  }

  // ---------------------------------------------------------------- what a start reports

  /** The first stop request of this call that raised. */
  ghost predicate FirstStopRaised(w: World, done: seq<Event>, k: nat, error: string) {
    && k < |done| && Phase(done[k]) == 5 && w.Raises(done[k]) == Some(error)
    && forall j :: 0 <= j < k && Phase(done[j]) == 5 ==> w.Raises(done[j]).None?
  }

  ghost predicate NoStopRaised(w: World, done: seq<Event>) {
    forall k :: 0 <= k < |done| && Phase(done[k]) == 5 ==> w.Raises(done[k]).None?
  }

  ghost predicate NoStops(log: seq<Event>) {
    forall k :: 0 <= k < |log| ==> Phase(log[k]) != 5
  }

  /** What a first start logs: its steps up to the first that raises and then, if one did, those of its clean-up. */
  lemma StartDone(c: Config, s: State, w: World)
    requires c.Valid() && |s.tasks| == WORKER_KINDS && !s.startAttempted
    ensures var steps, stops := Perform(w, StartSteps(c, w)), StopSteps(c);
            var done := AfterStart(c, s, w).log[|s.log|..];
            if FirstError(w, StartSteps(c, w)).None? then done == steps && FirstError(w, done).None?
            else if FirstError(w, stops).Some? then done == steps + Perform(w, stops)
            else done == steps + (stops + CleanSteps(c, w, AfterLaunch(c, s, w).tasks))
  {
    PerformedError(w, StartSteps(c, w));
    StartLog(c, s, w);
    hide StartSteps;
    hide StopSteps;
    hide CleanSteps;
    hide AfterStart;
    hide Perform;
  }

  lemma StartLog(c: Config, s: State, w: World)
    requires c.Valid() && |s.tasks| == WORKER_KINDS && !s.startAttempted
    ensures var steps, stops := Perform(w, StartSteps(c, w)), StopSteps(c);
            AfterStart(c, s, w).log == s.log +
              if FirstError(w, StartSteps(c, w)).None? then steps
              else if FirstError(w, stops).Some? then steps + Perform(w, stops)
              else steps + (stops + CleanSteps(c, w, AfterLaunch(c, s, w).tasks))
  {
    hide StartSteps;
    hide StopSteps;
    hide CleanSteps;
    hide Perform;
    hide FirstError;
    var steps, stops, cleans := Perform(w, StartSteps(c, w)), StopSteps(c), CleanSteps(c, w, AfterLaunch(c, s, w).tasks);
    assert s.log + steps + Perform(w, stops) == s.log + (steps + Perform(w, stops));
    assert s.log + steps + stops + cleans == s.log + (steps + (stops + cleans));
  }

  lemma FirstOf(w: World, a: seq<Event>, b: seq<Event>) returns (k: nat)
    requires FirstError(w, a).Some?
    ensures FirstRaised(w, a + b, k, FirstError(w, a).value) && k < |a| && FirstRaised(w, a, k, FirstError(w, a).value)
  {
    FirstErrorMeans(w, a);
    k :| 0 <= k < |a| && w.Raises(a[k]) == FirstError(w, a) && forall j :: 0 <= j < k ==> w.Raises(a[j]).None?;
    assert (a + b)[k] == a[k] && forall j :: 0 <= j < k ==> (a + b)[j] == a[j];
  }

  /** The steps of a start contain no stop request, and those of the stop phase nothing else. */
  lemma StopPhases(c: Config, w: World, tasks: seq<bool>)
    requires c.Valid() && |tasks| == WORKER_KINDS
    ensures NoStops(Perform(w, StartSteps(c, w))) && NoStops(CleanSteps(c, w, tasks))
    ensures Within(StopSteps(c), 5, 5) && Within(Perform(w, StopSteps(c)), 5, 5)
  {
    StartInOrder(c, w);
    PerformPart(w, StartSteps(c, w));
    StopsInOrder(c, w);
    CleanInOrder(c, w, tasks);
    hide StartSteps;
    hide StopSteps;
    hide CleanSteps;
  }

  /** After steps that raise, the clean-up reports its own raising stop request, and otherwise the first error of the steps. */
  lemma StoppedStart(w: World, steps: seq<Event>, stops: seq<Event>) returns (k: nat)
    requires FirstError(w, stops).Some?
    requires NoStops(steps) && Within(stops, 5, 5)
    ensures FirstStopRaised(w, steps + stops, k, FirstError(w, stops).value)
  {
    k := FirstOf(w, stops, []);
    var done := steps + stops;
    assert done[|steps| + k] == stops[k];
    assert forall j :: 0 <= j < |steps| ==> done[j] == steps[j];
    forall j | |steps| <= j < |steps| + k ensures w.Raises(done[j]).None? {
      assert done[j] == stops[j - |steps|];
    }
    k := |steps| + k;
  }

  lemma NoneStopped(w: World, steps: seq<Event>, stops: seq<Event>, cleans: seq<Event>)
    requires FirstError(w, stops).None?
    requires NoStops(steps) && NoStops(cleans)
    ensures NoStopRaised(w, steps + (stops + cleans))
  {
    FirstErrorMeans(w, stops);
    var done := steps + (stops + cleans);
    assert forall k :: 0 <= k < |steps| ==> done[k] == steps[k];
    forall k | |steps| <= k < |steps| + |stops| ensures w.Raises(done[k]).None? {
      assert done[k] == stops[k - |steps|];
    }
    forall k | |steps| + |stops| <= k < |done| ensures Phase(done[k]) != 5 {
      assert done[k] == cleans[k - |steps| - |stops|];
    }
  }

  /**
   A first start raises exactly when one of its actions did: then it raises the error of the first raising stop request of
   its clean-up, and if there is none the error of the first action that raised. A second start raises and does nothing.
   */
  lemma StartReportsFirstError(c: Config, s: State, w: World)
    requires c.Valid() && |s.tasks| == WORKER_KINDS
    ensures s.startAttempted ==> StartReply(c, s, w).StartedTwice? && AfterStart(c, s, w) == s
    ensures !s.startAttempted ==>
              var done, reply := AfterStart(c, s, w).log[|s.log|..], StartReply(c, s, w);
              && !reply.StartedTwice?
              && (reply.Done? <==> forall k :: 0 <= k < |done| ==> w.Raises(done[k]).None?)
              && (reply.Raised? && NoStopRaised(w, done) ==> exists k :: FirstRaised(w, done, k, reply.error))
              && (reply.Raised? && !NoStopRaised(w, done) ==> exists k :: FirstStopRaised(w, done, k, reply.error))
  {
    if !s.startAttempted {
      var tasks := AfterLaunch(c, s, w).tasks;
      var steps, stops := Perform(w, StartSteps(c, w)), StopSteps(c);
      var done := AfterStart(c, s, w).log[|s.log|..];
      StartDone(c, s, w);
      StopPhases(c, w, tasks);
      PerformedError(w, StartSteps(c, w));
      PerformedError(w, stops);
      hide StartSteps;
      hide StopSteps;
      hide CleanSteps;
      hide Perform;
      FirstErrorMeans(w, done);
      if FirstError(w, steps).Some? {
        if FirstError(w, stops).Some? {
          var i := FirstOf(w, steps, Perform(w, stops));
          var k := StoppedStart(w, steps, Perform(w, stops));
        } else {
          var k := FirstOf(w, steps, stops + CleanSteps(c, w, tasks));
          NoneStopped(w, steps, stops, CleanSteps(c, w, tasks));
        }
      }
    }
  }

  /** Everything a start is there for, and only that. */
  predicate StartIncludes(c: Config, w: World, e: Event)
    requires c.Valid()
  {
    match e
    case DatabaseChecked => true
    case ClockRead => true
    case PublisherStarted => c.publisher
    case On(Launch, x) => x < WORKER_KINDS && c.workers[x]
    case On(Create, x) => x < WORKER_KINDS && c.workers[x]
    case On(SeeExit, x) => x < WORKER_KINDS && c.workers[x] && w.exited(x)
    case _ => false
  }

  lemma StartMembers(c: Config, w: World, e: Event)
    requires c.Valid()
    ensures e in StartSteps(c, w) <==> StartIncludes(c, w, e)
  {
    LaunchMembers(c.workers, WORKER_KINDS, e);
    EachMembers(Both(c.workers, w.exited), SeeExit, WORKER_KINDS, e);
    hide Launches;
    hide Each;
  }

  /** A start that reports success has done all of that. */
  lemma SuccessfulStartDoes(c: Config, s: State, w: World, e: Event)
    requires c.Valid() && |s.tasks| == WORKER_KINDS && StartReply(c, s, w).Done?
    ensures e in AfterStart(c, s, w).log[|s.log|..] <==> StartIncludes(c, w, e)
  {
    StartDone(c, s, w);
    PerformAll(w, StartSteps(c, w));
    StartMembers(c, w, e);
    hide StartIncludes;
    hide StartSteps;
    hide StopSteps;
    hide Perform;
  }

  // ---------------------------------------------------------------- started, closing

  /** A call that makes the runtime begin to close: any close, and a first start that fails. */
  ghost predicate Shuts(c: Config, calls: seq<Call>, i: nat)
    requires c.Valid()
  {
    i < |calls| && (calls[i].Close? || (FirstStart(calls, i) && FirstError(calls[i].w, StartSteps(c, calls[i].w)).Some?))
  }

  /** Call j is the first start. */
  predicate FirstStart(calls: seq<Call>, j: nat) {
    j < |calls| && calls[j].Start? && forall i :: 0 <= i < j ==> calls[i].Close?
  }

  /** A runtime is marked as closing exactly if a call ever began to close it, and as attempted exactly if one was a start. */
  lemma {:induction false} ClosingExactly(c: Config, calls: seq<Call>)
    requires c.Valid()
    ensures Run(c, calls).closing <==> exists i: nat :: Shuts(c, calls, i)
    ensures Run(c, calls).startAttempted <==> exists i :: 0 <= i < |calls| && calls[i].Start?
    ensures Run(c, calls).closed ==> Run(c, calls).closing
  {
    if calls != [] {
      var init, last := calls[..|calls| - 1], |calls| - 1;
      ClosingExactly(c, init);
      LastFlags(c, Run(c, init), calls[last]);
      assert Run(c, calls) == After(c, Run(c, init), calls[last]);
      hide Run;
      ShutsGrows(c, calls);
      hide After;
      assert (exists i :: 0 <= i < |init| && init[i].Start?) <==> exists i :: 0 <= i < last && calls[i].Start?;
      assert FirstStart(calls, last) <==> calls[last].Start? && !exists i :: 0 <= i < |init| && init[i].Start?;
    }
  }

  lemma ShutsGrows(c: Config, calls: seq<Call>)
    requires c.Valid() && calls != []
    ensures var last := |calls| - 1;
            (exists i: nat :: Shuts(c, calls, i)) <==> (exists i: nat :: Shuts(c, calls[..last], i)) || Shuts(c, calls, last)
  {
    hide StartSteps;
    var last := |calls| - 1;
    if i: nat :| Shuts(c, calls, i) { assert i < last ==> Shuts(c, calls[..last], i); }
    if i: nat :| Shuts(c, calls[..last], i) { assert Shuts(c, calls, i); }
  }

  lemma LastFlags(c: Config, s: State, call: Call)
    requires c.Valid() && |s.tasks| == WORKER_KINDS && (s.closed ==> s.closing)
    ensures var t := After(c, s, call);
            && (t.startAttempted <==> s.startAttempted || call.Start?) && (t.closed ==> t.closing)
            && (t.closing <==> s.closing || call.Close?
                               || (call.Start? && !s.startAttempted && FirstError(call.w, StartSteps(c, call.w)).Some?))
    ensures var t := After(c, s, call);
            if call.Start? then
              t.started <==> if s.startAttempted then s.started
                             else FirstError(call.w, StartSteps(c, call.w)).None?
                                  || (s.started && FirstError(call.w, StopSteps(c)).Some?)
            else
              t.started <==> s.started && (s.closed || FirstError(call.w, StopSteps(c)).Some?)
  {
    hide StartSteps;
    hide StopSteps;
  }

  /** Start j succeeded, and the runtime was closed before or every later close met a raising stop request. */
  ghost predicate StaysStarted(c: Config, calls: seq<Call>, j: nat)
    requires c.Valid()
  {
    && FirstStart(calls, j) && FirstError(calls[j].w, StartSteps(c, calls[j].w)).None?
    && (Run(c, calls[..j]).closed || RefusedSince(c, calls, j))
  }

  ghost predicate RefusedSince(c: Config, calls: seq<Call>, j: nat)
    requires c.Valid()
  {
    forall i :: j < i < |calls| && calls[i].Close? ==> FirstError(calls[i].w, StopSteps(c)).Some?
  }

  lemma {:induction false} NotYetStarted(c: Config, calls: seq<Call>)
    requires c.Valid() && forall i :: 0 <= i < |calls| ==> calls[i].Close?
    ensures !Run(c, calls).started && !Run(c, calls).startAttempted
  {
    if calls != [] {
      NotYetStarted(c, calls[..|calls| - 1]);
      ClosingExactly(c, calls[..|calls| - 1]);
      LastFlags(c, Run(c, calls[..|calls| - 1]), calls[|calls| - 1]);
    }
  }

  /** From the first start on: what keeps the runtime started, and when it is closed meanwhile. */
  lemma {:induction false} StartedSince(c: Config, calls: seq<Call>, j: nat)
    requires c.Valid() && FirstStart(calls, j)
    ensures var s, before := Run(c, calls), Run(c, calls[..j]).closed;
            var succeeds := FirstError(calls[j].w, StartSteps(c, calls[j].w)).None?;
            && s.startAttempted
            && (s.started <==> succeeds && (before || RefusedSince(c, calls, j)))
            && (succeeds && before ==> s.closed) && (succeeds && !before && RefusedSince(c, calls, j) ==> !s.closed)
    decreases |calls|
  {
    hide StartSteps;
    hide StopSteps;
    var last := |calls| - 1;
    var init := calls[..last];
    ClosingExactly(c, init);
    LastFlags(c, Run(c, init), calls[last]);
    LastClosed(c, Run(c, init), calls[last]);
    if j == last {
      NotYetStarted(c, init);
    } else {
      StartedSince(c, init, j);
      assert init[..j] == calls[..j];
      RefusedGrows(c, calls, j);
    }
  }

  lemma RefusedGrows(c: Config, calls: seq<Call>, j: nat)
    requires c.Valid() && j < |calls| - 1
    ensures var last := |calls| - 1;
            RefusedSince(c, calls, j) <==>
              RefusedSince(c, calls[..last], j) && (calls[last].Close? ==> FirstError(calls[last].w, StopSteps(c)).Some?)
  {
    hide StopSteps;
    var init := calls[..|calls| - 1];
    assert forall i :: 0 <= i < |init| ==> init[i] == calls[i];
    if RefusedSince(c, calls, j) {
      forall i | j < i < |init| && init[i].Close? ensures FirstError(init[i].w, StopSteps(c)).Some? { assert calls[i].Close?; }
    }
  }

  lemma LastClosed(c: Config, s: State, call: Call)
    requires c.Valid() && |s.tasks| == WORKER_KINDS
    ensures var t := After(c, s, call);
            && (s.closed ==> t.closed)
            && (call.Close? && FirstError(call.w, StopSteps(c)).Some? ==> t.closed == s.closed)
            && (call.Start? && (s.startAttempted || FirstError(call.w, StartSteps(c, call.w)).None?) ==> t.closed == s.closed)
  {
    hide StartSteps;
    hide StopSteps;
  }

  /** A runtime is marked as started exactly if its start succeeded and no close went through after it. */
  lemma StartedExactly(c: Config, calls: seq<Call>)
    requires c.Valid()
    ensures Run(c, calls).started <==> exists j: nat :: StaysStarted(c, calls, j)
  {
    hide StartSteps;
    hide StopSteps;
    hide Run;
    var j := NoStartOrFirst(calls);
    if j < |calls| {
      StartedSince(c, calls, j);
      assert StaysStarted(c, calls, j) <==> Run(c, calls).started;
      forall i: nat | StaysStarted(c, calls, i) ensures i == j { assert calls[i].Start? && calls[j].Start?; }
    } else {
      NotYetStarted(c, calls);
    }
  }

  lemma {:induction false} NoStartOrFirst(calls: seq<Call>) returns (j: nat)
    ensures j == |calls| ==> forall i :: 0 <= i < |calls| ==> calls[i].Close?
    ensures j <= |calls| && (j < |calls| ==> FirstStart(calls, j))
  {
    j := 0;
    if calls != [] && calls[0].Close? {
      j := NoStartOrFirst(calls[1..]);
      assert forall i :: 0 < i < |calls| ==> calls[i] == calls[1..][i - 1];
      j := j + 1;
    }
  }

  // ---------------------------------------------------------------- a close before the start

  lemma {:induction false} ClosedIgnoresCalls(c: Config, calls: seq<Call>, more: seq<Call>)
    requires c.Valid() && Run(c, calls).closed && Run(c, calls).startAttempted
    ensures Run(c, calls + more) == Run(c, calls)
  {
    if more == [] {
      assert calls + more == calls;
    } else {
      ClosedIgnoresCalls(c, calls, more[..|more| - 1]);
      assert (calls + more)[..|calls + more| - 1] == calls + more[..|more| - 1];
    }
  }

  /**
   Closing a runtime before starting it breaks the guarantee: a later start still creates its tasks,
   and no later call ever ends them.
   */
  lemma CloseBeforeStartLeaks(c: Config, first: World, second: World, more: seq<Call>, x: nat)
    requires c.Valid() && x < WORKER_KINDS && c.workers[x]
    requires FirstError(first, StopSteps(c)).None? && FirstError(second, StartSteps(c, second)).None?
    ensures var s := Run(c, [Close(first), Start(second)] + more);
            s.closed && On(Create, x) in s.log && On(End, x) !in s.log
  {
    var one, two := [Close(first)], [Close(first), Start(second)];
    assert one[..0] == [] && two[..1] == one;
    var s, t := Run(c, one), Run(c, two);
    var steps := StartSteps(c, second);
    PerformAll(second, steps);
    assert Run(c, one[..0]) == Initial();
    assert s == AfterShutdown(c, Initial(), first);
    assert t.log == s.log + steps;
    LaunchMembers(c.workers, WORKER_KINDS, On(Create, x));
    EndsNothing(c, first, x);
    EndsNothing(c, second, x);
    ClosedIgnoresCalls(c, two, more);
  }

  lemma EndsNothing(c: Config, w: World, x: nat)
    requires c.Valid()
    ensures On(End, x) !in StartSteps(c, w) && On(End, x) !in StopSteps(c) + CleanSteps(c, w, NO_TASKS)
  {
    hide Waits;
    hide Closings;
    hide StopSteps;
    hide Each;
    hide Launches;
    ClosingMembers(c);
    StopMembers(c);
    OpeningEnds(c, x);
    LaunchMembers(c.workers, WORKER_KINDS, On(End, x));
    EachMembers(Both(c.workers, w.exited), SeeExit, WORKER_KINDS, On(End, x));
    WaitMembers(w, NO_TASKS, WORKER_KINDS, On(End, x));
    hide Opening;
  }

  lemma OpeningEnds(c: Config, x: nat)
    ensures On(End, x) !in Opening(c)
  {}

  // ---------------------------------------------------------------- a worker that refuses to be stopped

  /** Everything works, but asking the first worker to stop raises. */
  function Stubborn(): World {
    World(e => if e == On(RequestStop, 0) then Some("RuntimeError") else None, k => false, k => InTime(Finishes))
  }

  /** A start, then n attempts to close. */
  function StubbornLife(n: nat): (r: seq<Call>)
    ensures |r| == n + 1 && r[0] == Start(Stubborn()) && forall i :: 0 <= i < |r| ==> r[i].w == Stubborn()
  {
    [Start(Stubborn())] + seq(n, i => Close(Stubborn()))
  }

  lemma StubbornRefuses(c: Config)
    requires c.Valid() && c.workers[0]
    ensures FirstError(Stubborn(), StopSteps(c)).Some? && FirstError(Stubborn(), StartSteps(c, Stubborn())).None?
  {
    var w := Stubborn();
    FirstErrorMeans(w, StopSteps(c));
    FirstErrorMeans(w, StartSteps(c, w));
    StopMembers(c);
    assert On(RequestStop, 0) in StopSteps(c) && w.Raises(On(RequestStop, 0)).Some?;
    forall k | 0 <= k < |StartSteps(c, w)| ensures w.Raises(StartSteps(c, w)[k]).None? {
      StartInOrder(c, w);
      assert Phase(StartSteps(c, w)[k]) <= 4;
    }
  }

  /**
   It can happen: while the first worker raises on every stop request, no number of closes closes the
   runtime; its task keeps running and nothing is disposed of.
   */
  lemma RaisingStopNeverCloses(c: Config, n: nat)
    requires c.Valid() && c.workers[0]
    ensures var s := Run(c, StubbornLife(n));
            && !s.closed && On(Create, 0) in s.log && On(End, 0) !in s.log && EngineDisposed !in s.log
  {
    var calls := StubbornLife(n);
    StubbornRefuses(c);
    ClosedExactly(c, calls);
    EveryLifeIsOrderly(c, calls);
    FirstStays(c, calls, Stubborn());
    EarlyOnly(Run(c, calls).log);
  }

  /** What the first call logged stays logged. */
  lemma {:induction false} FirstStays(c: Config, calls: seq<Call>, w: World)
    requires c.Valid() && calls != [] && calls[0] == Start(w) && c.workers[0] && FirstError(w, StartSteps(c, w)).None?
    ensures On(Create, 0) in Run(c, calls).log
  {
    var init := calls[..|calls| - 1];
    if |calls| == 1 {
      assert init == [];
      PerformAll(w, StartSteps(c, w));
      StartsCreate(c, w);
    } else {
      FirstStays(c, init, w);
      LogGrows(c, Run(c, init), calls[|calls| - 1]);
    }
  }

  lemma StartsCreate(c: Config, w: World)
    requires c.Valid() && c.workers[0]
    ensures On(Create, 0) in StartSteps(c, w)
  {
    LaunchMembers(c.workers, WORKER_KINDS, On(Create, 0));
  }

  lemma LogGrows(c: Config, s: State, call: Call)
    requires c.Valid() && |s.tasks| == WORKER_KINDS
    ensures s.log <= After(c, s, call).log
  {
    hide StartSteps;
    hide StopSteps;
    hide CleanSteps;
  }
}
