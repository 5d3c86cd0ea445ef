/** Starting and closing the application runtime while any stage may fail. */
module RuntimeLifecycle {
  import opened Outcomes

  /** The background workers, numbered in start-up order: outbox, RCA consumer, audit retention,
      remediation reclaim and ticket submission consumer. All five are treated alike. */
  const WORKER_KINDS: nat := 5

  /** What is configured; a worker, the publisher and the authenticator may be absent. */
  datatype Config = Config(workers: seq<bool>, publisher: bool, authenticator: bool, resources: nat) {
    predicate Valid() { |workers| == WORKER_KINDS }
  }

  /**
   What is done with a worker: it is launched, which may raise, then its task is created; the task is found
   ended by the start-up, asked to stop, cancelled at the deadline, and has ended.
   */
  datatype Action = Launch | Create | SeeExit | RequestStop | Force | End

  /** What the runtime does to the outside. */
  datatype Event =
    | DatabaseChecked | ClockRead | PublisherStarted
    | On(action: Action, w: nat)
    | PublisherClosed | AuthenticatorClosed | ResourceClosed(i: nat) | EngineDisposed

  // ---------------------------------------------------------------- tasks

  datatype TaskResult = Finishes | Fails(error: string) | GetsCancelled

  /** What a task does once it was asked to stop: it ends before the deadline, or only after it was cancelled. */
  datatype Course = InTime(result: TaskResult) | Overdue(result: TaskResult)

  const TIMEOUT_ERROR: string := "TimeoutError"
  const CANCELLED_ERROR: string := "CancelledError"

  /**
   The error that waiting for a task leaves behind: the task's own, and its cancellation unless the
   shutdown itself had to ask for it.
   */
  function KeptError(c: Course): Option<string> {
    match c.result
    case Finishes => None
    case Fails(error) => Some(error)
    case GetsCancelled => if c.InTime? then Some(CANCELLED_ERROR) else None
  }

  /** The wait takes the path of the deadline, also when the task itself failed with a timeout. */
  predicate IsForced(c: Course) { c.Overdue? || c.result == Fails(TIMEOUT_ERROR) }

  class WorkerTask {
    const course: Course
    var done: bool
    var cancelRequested: bool

    constructor (course: Course)
      ensures this.course == course && !done && !cancelRequested
    {
      this.course := course;
      done, cancelRequested := false, false;
    }

    /** Waits for the shielded task; nothing comes back when the deadline passes first. */
    method WaitUntilDeadline() returns (outcome: Option<TaskResult>)
      requires !done
      modifies this`done
      ensures done == course.InTime?
      ensures outcome == if course.InTime? then Some(course.result) else None
    {
      if course.Overdue? { return None; }
      done := true;
      outcome := Some(course.result);
    }

    method Cancel()
      modifies this`cancelRequested
      ensures cancelRequested == (old(cancelRequested) || !done)
    {
      if !done { cancelRequested := true; }
    }

    /** Waits without a deadline, for a task that has ended or was cancelled. */
    method Await() returns (result: TaskResult)
      requires done || cancelRequested
      modifies this`done
      ensures done && result == course.result
    {
      done := true;
      result := course.result;
    }
  }

  /** `_await_worker_shutdown`: whatever the task does, it has ended on return. */
  method AwaitShutdown(task: WorkerTask) returns (forced: bool, error: Option<string>)
    requires !task.done
    modifies task
    ensures task.done
    ensures error == KeptError(task.course) && forced == IsForced(task.course)
    ensures match task.course.result
            case Finishes => error == None
            case Fails(e) => error == Some(e)
            case GetsCancelled => error == if task.course.Overdue? then None else Some(CANCELLED_ERROR)
    ensures forced <==> task.course.Overdue? || task.course.result == Fails(TIMEOUT_ERROR)
  {
    var outcome := task.WaitUntilDeadline();
    if outcome.Some? && outcome.value != Fails(TIMEOUT_ERROR) {
      match outcome.value {
        case Finishes => return false, None;
        case Fails(e) => return false, Some(e);
        case GetsCancelled => return false, Some(CANCELLED_ERROR);
      }
    }
    task.Cancel();
    var result := task.Await();
    match result {
      case Finishes => return true, None;
      case GetsCancelled => return true, None;
      case Fails(e) => return true, Some(e);
    }
  }

  // ---------------------------------------------------------------- the runtime's surroundings

  /** Which actions raise during one call, which tasks have already ended when start-up looks at them, and how they end. */
  datatype World = World(raises: Event -> Option<string>, exited: nat -> bool, course: nat -> Course) {
    function Raises(e: Event): Option<string> {
      match e
      case On(Create, _) => None
      case On(Force, _) => None
      case On(End, w) => KeptError(course(w))
      case _ => raises(e)
    }
  }

  datatype State = State(startAttempted: bool, started: bool, closing: bool, closed: bool,
                         tasks: seq<bool>, log: seq<Event>)

  datatype Reply = Done | Raised(error: string) | StartedTwice

  // ---------------------------------------------------------------- the steps of each phase

  /** One step for each of the first k workers that is marked. */
  function Each(marked: seq<bool>, action: Action, k: nat): seq<Event>
    requires k <= |marked|
  {
    if k == 0 then [] else Each(marked, action, k - 1) + if marked[k - 1] then [On(action, k - 1)] else []
  }

  function Both(a: seq<bool>, exited: nat -> bool): (r: seq<bool>)
    ensures |r| == |a| && forall i :: 0 <= i < |a| ==> r[i] == (a[i] && exited(i))
  {
    seq(|a|, i requires 0 <= i < |a| => a[i] && exited(i))
  }

  function OnlyIf(present: bool, e: Event): seq<Event> { if present then [e] else [] }

  function Opening(c: Config): seq<Event> { [DatabaseChecked, ClockRead] + OnlyIf(c.publisher, PublisherStarted) }

  /** The steps of a start-up, as long as none raises. */
  function StartSteps(c: Config, w: World): seq<Event>
    requires c.Valid()
  {
    Opening(c) + Launches(c.workers, WORKER_KINDS)
    + Each(Both(c.workers, w.exited), SeeExit, WORKER_KINDS)
  }

  /** The creation of the tasks of the first k workers that are configured. */
  function Launches(workers: seq<bool>, k: nat): seq<Event>
    requires k <= |workers|
  {
    if k == 0 then [] else Launches(workers, k - 1) + if workers[k - 1] then [On(Launch, k - 1), On(Create, k - 1)] else []
  }

  function StopSteps(c: Config): seq<Event>
    requires c.Valid()
  {
    Each(c.workers, RequestStop, WORKER_KINDS)
  }

  /** The managed resources numbered below n, last first. */
  function Resources(n: nat): seq<Event> {
    if n == 0 then [] else [ResourceClosed(n - 1)] + Resources(n - 1)
  }

  function Closings(c: Config): seq<Event> {
    OnlyIf(c.publisher, PublisherClosed) + OnlyIf(c.authenticator, AuthenticatorClosed)
    + Resources(c.resources) + [EngineDisposed]
  }

  /** The wait for one task. */
  function WaitSteps(w: World, k: nat): seq<Event> {
    (if IsForced(w.course(k)) then [On(Force, k)] else []) + [On(End, k)]
  }

  /** The waits for those of the first k tasks that were created. */
  function Waits(w: World, tasks: seq<bool>, k: nat): seq<Event>
    requires k <= |tasks|
  {
    if k == 0 then [] else Waits(w, tasks, k - 1) + if tasks[k - 1] then WaitSteps(w, k - 1) else []
  }

  /** After the stop requests: the wait for every task, then the closing of every resource. */
  function CleanSteps(c: Config, w: World, tasks: seq<bool>): seq<Event>
    requires |tasks| == WORKER_KINDS
  {
    Waits(w, tasks, WORKER_KINDS) + Closings(c)
  }

  /** The steps up to the first one that raises. */
  function Perform(w: World, steps: seq<Event>): seq<Event> {
    if steps == [] then []
    else if w.Raises(steps[0]).Some? then [steps[0]]
    else [steps[0]] + Perform(w, steps[1..])
  }

  function FirstError(w: World, steps: seq<Event>): Option<string> {
    if steps == [] then None
    else if w.Raises(steps[0]).Some? then w.Raises(steps[0])
    else FirstError(w, steps[1..])
  }

  function ErrorOf(w: World, e: Event): seq<string> { if w.Raises(e).Some? then [w.Raises(e).value] else [] }

  /** Every error the steps raise, in order. */
  function Errors(w: World, steps: seq<Event>): seq<string> {
    if steps == [] then [] else ErrorOf(w, steps[0]) + Errors(w, steps[1..])
  }

  /** The tasks that these steps have created. */
  function TasksIn(steps: seq<Event>): (r: seq<bool>)
    ensures |r| == WORKER_KINDS && forall x :: 0 <= x < WORKER_KINDS ==> r[x] == (On(Create, x) in steps)
  {
    seq(WORKER_KINDS, x requires 0 <= x < WORKER_KINDS => On(Create, x) in steps)
  }

  const NO_TASKS: seq<bool> := [false, false, false, false, false]

  // ---------------------------------------------------------------- the calls

  function Initial(): State { State(false, false, false, false, NO_TASKS, []) }

  function AfterShutdown(c: Config, s: State, w: World): State
    requires c.Valid() && |s.tasks| == WORKER_KINDS
  {
    if FirstError(w, StopSteps(c)).Some? then
      s.(closing := true, log := s.log + Perform(w, StopSteps(c)))
    else
      s.(closing := true, started := false, closed := true, tasks := NO_TASKS,
         log := s.log + StopSteps(c) + CleanSteps(c, w, s.tasks))
  }

  function AfterLaunch(c: Config, s: State, w: World): State
    requires c.Valid()
  {
    s.(startAttempted := true, log := s.log + Perform(w, StartSteps(c, w)),
       tasks := TasksIn(Perform(w, StartSteps(c, w))),
       started := s.started || FirstError(w, StartSteps(c, w)).None?)
  }

  function AfterStart(c: Config, s: State, w: World): State
    requires c.Valid()
  {
    if s.startAttempted then s
    else if FirstError(w, StartSteps(c, w)).None? then AfterLaunch(c, s, w)
    else AfterShutdown(c, AfterLaunch(c, s, w), w)
  }

  function AfterClose(c: Config, s: State, w: World): State
    requires c.Valid() && |s.tasks| == WORKER_KINDS
  {
    if s.closed then s else AfterShutdown(c, s, w)
  }

  function ShutdownError(c: Config, s: State, w: World, suppressed: bool): Option<string>
    requires c.Valid() && |s.tasks| == WORKER_KINDS
  {
    if FirstError(w, StopSteps(c)).Some? then FirstError(w, StopSteps(c))
    else if suppressed then None
    else FirstError(w, CleanSteps(c, w, s.tasks))
  }

  function StartReply(c: Config, s: State, w: World): Reply
    requires c.Valid()
  {
    if s.startAttempted then StartedTwice
    else
      var error := FirstError(w, StartSteps(c, w));
      if error.None? then Done
      else
        var second := ShutdownError(c, AfterLaunch(c, s, w), w, true);
        Raised(if second.Some? then second.value else error.value)
  }

  function CloseReply(c: Config, s: State, w: World): Reply
    requires c.Valid() && |s.tasks| == WORKER_KINDS
  {
    if s.closed || ShutdownError(c, s, w, false).None? then Done
    else Raised(ShutdownError(c, s, w, false).value)
  }

  // ---------------------------------------------------------------- lemmas on sequences of steps

  lemma {:induction false} ErrorsAppend(w: World, a: seq<Event>, b: seq<Event>)
    ensures Errors(w, a + b) == Errors(w, a) + Errors(w, b)
  {
    hide ErrorOf;
    if a == [] {
      assert a + b == b;
    } else {
      ErrorsAppend(w, a[1..], b);
      assert (a + b)[1..] == a[1..] + b;
    }
  }

  lemma {:induction false} FirstOfErrors(w: World, steps: seq<Event>)
    ensures FirstError(w, steps) == if Errors(w, steps) == [] then None else Some(Errors(w, steps)[0])
  {
    if steps != [] { FirstOfErrors(w, steps[1..]); }
  }

  lemma {:induction false} EachMembers(marked: seq<bool>, action: Action, k: nat, e: Event)
    requires k <= |marked|
    ensures e in Each(marked, action, k) <==> e.On? && e.action == action && e.w < k && marked[e.w]
  {
    if k > 0 { EachMembers(marked, action, k - 1, e); }
  }

  lemma {:induction false} PerformAppend(w: World, a: seq<Event>, b: seq<Event>)
    ensures FirstError(w, a).None? ==>
              Perform(w, a + b) == a + Perform(w, b) && FirstError(w, a + b) == FirstError(w, b)
    ensures FirstError(w, a).Some? ==>
              Perform(w, a + b) == Perform(w, a) && FirstError(w, a + b) == FirstError(w, a)
  {
    if a == [] {
      assert a + b == b;
    } else {
      PerformAppend(w, a[1..], b);
      assert (a + b)[1..] == a[1..] + b;
    }
  }

  lemma PerformAll(w: World, a: seq<Event>)
    requires FirstError(w, a).None?
    ensures Perform(w, a) == a
  {
    PerformAppend(w, a, []);
    assert a + [] == a;
  }

  lemma PerformOne(w: World, e: Event)
    ensures Perform(w, [e]) == [e] && FirstError(w, [e]) == w.Raises(e)
  {
    assert [e][1..] == [];
  }

  lemma {:induction false} LaunchMembers(workers: seq<bool>, k: nat, e: Event)
    requires k <= |workers|
    ensures e in Launches(workers, k) <==> e.On? && (e.action.Launch? || e.action.Create?) && e.w < k && workers[e.w]
  {
    if k > 0 { LaunchMembers(workers, k - 1, e); }
  }

  /** What fails early fails the same way with more to come. */
  lemma PrefixFails(w: World, a: seq<Event>, b: seq<Event>)
    requires a <= b && FirstError(w, a).Some?
    ensures Perform(w, b) == Perform(w, a) && FirstError(w, b) == FirstError(w, a)
  {
    PerformAppend(w, a, b[|a|..]);
    assert a + b[|a|..] == b;
  }

  lemma {:induction false} EachGrows(marked: seq<bool>, action: Action, k: nat, n: nat)
    requires k <= n <= |marked|
    ensures Each(marked, action, k) <= Each(marked, action, n)
    decreases n
  {
    if k < n { EachGrows(marked, action, k, n - 1); }
  }

  lemma {:induction false} LaunchesGrow(workers: seq<bool>, k: nat, n: nat)
    requires k <= n <= |workers|
    ensures Launches(workers, k) <= Launches(workers, n)
    decreases n
  {
    if k < n { LaunchesGrow(workers, k, n - 1); }
  }

  /** A launch that raises leaves no task behind. */
  lemma LaunchOne(w: World, before: seq<Event>, k: nat)
    requires FirstError(w, before).None?
    ensures var pair := [On(Launch, k), On(Create, k)];
            && FirstError(w, before + pair) == w.Raises(On(Launch, k))
            && Perform(w, before + pair) == before + if w.Raises(On(Launch, k)).Some? then [On(Launch, k)] else pair
  {
    var pair := [On(Launch, k), On(Create, k)];
    PerformAppend(w, before, pair);
    assert pair[1..] == [On(Create, k)];
    PerformOne(w, On(Create, k));
  }

  // ---------------------------------------------------------------- the runtime

  class Runtime {
    const config: Config
    var startAttempted: bool
    var started: bool
    var closing: bool
    var closed: bool
    var tasks: seq<bool>
    /** What has been done so far. */
    var log: seq<Event>

    ghost predicate Valid()
      reads this
    {
      config.Valid() && |tasks| == WORKER_KINDS && (!startAttempted ==> tasks == NO_TASKS)
    }

    function View(): State
      reads this
    {
      State(startAttempted, started, closing, closed, tasks, log)
    }

    constructor (c: Config)
      requires c.Valid()
      ensures Valid() && config == c && View() == Initial()
    {
      config := c;
      startAttempted, started, closing, closed := false, false, false, false;
      tasks, log := NO_TASKS, [];
    }

    /** One action on the outside: it is logged, and may raise. */
    method Do(w: World, e: Event) returns (error: Option<string>)
      modifies this`log
      ensures log == old(log) + Perform(w, [e]) && log == old(log) + [e]
      ensures error == FirstError(w, [e]) && error == w.Raises(e)
    {
      log := log + [e];
      error := w.Raises(e);
      PerformOne(w, e);
    }

    /** Step by step until one raises. */
    method DoEach(w: World, marked: seq<bool>, action: Action) returns (error: Option<string>)
      requires |marked| == WORKER_KINDS
      modifies this`log
      ensures log == old(log) + Perform(w, Each(marked, action, WORKER_KINDS))
      ensures error == FirstError(w, Each(marked, action, WORKER_KINDS))
    {
      hide Perform;
      hide FirstError;
      error := None;
      NothingRaises(w);
      for k := 0 to WORKER_KINDS
        invariant error.None?
        invariant FirstError(w, Each(marked, action, k)).None?
        invariant log == old(log) + Each(marked, action, k)
      {
        PerformAppend(w, Each(marked, action, k), [On(action, k)]);
        PerformOne(w, On(action, k));
        assert Each(marked, action, k) + [] == Each(marked, action, k);
        if marked[k] {
          error := Do(w, On(action, k));
          if error.Some? {
            EachGrows(marked, action, k + 1, WORKER_KINDS);
            PrefixFails(w, Each(marked, action, k + 1), Each(marked, action, WORKER_KINDS));
            return;
          }
        }
      }
      PerformAll(w, Each(marked, action, WORKER_KINDS));
    }

    /** The part of `start` that is guarded against every exception. */
    method StartUp(w: World) returns (error: Option<string>)
      requires Valid() && !startAttempted
      modifies this`log, this`tasks, this`started
      ensures View() == AfterLaunch(config, old(View()), w).(startAttempted := false)
      ensures error == FirstError(w, StartSteps(config, w))
    {
      hide Opening;
      hide Each;
      hide Launches;
      hide Perform;
      hide FirstError;
      StartsInOrder(config, w);
      StartCreates(config, w);
      error := Open(w);
      if error.Some? { return; }
      PerformAll(w, Opening(config));
      error := CreateTasks(w);
      if error.Some? {
        assert log == old(log) + Perform(w, StartSteps(config, w));
        return;
      }
      PerformAll(w, Launches(config.workers, WORKER_KINDS));
      error := DoEach(w, Both(config.workers, w.exited), SeeExit);
      started := started || error.None?;
      assert log == old(log) + Perform(w, StartSteps(config, w));
    }

    method Open(w: World) returns (error: Option<string>)
      modifies this`log
      ensures log == old(log) + Perform(w, Opening(config))
      ensures error == FirstError(w, Opening(config))
    {
      PerformAppend(w, [DatabaseChecked], [ClockRead] + OnlyIf(config.publisher, PublisherStarted));
      PerformAppend(w, [ClockRead], OnlyIf(config.publisher, PublisherStarted));
      OpeningForm(config);
      hide OnlyIf;
      error := Do(w, DatabaseChecked);
      if error.Some? { return; }
      error := Do(w, ClockRead);
      if error.Some? { return; }
      error := DoIf(w, config.publisher, PublisherStarted);
    }

    method DoIf(w: World, present: bool, e: Event) returns (error: Option<string>)
      modifies this`log
      ensures log == old(log) + Perform(w, OnlyIf(present, e))
      ensures error == FirstError(w, OnlyIf(present, e))
    {
      error := None;
      if present { error := Do(w, e); }
    }

    method CreateTasks(w: World) returns (error: Option<string>)
      requires Valid() && tasks == NO_TASKS
      modifies this`log, this`tasks
      ensures log == old(log) + Perform(w, Launches(config.workers, WORKER_KINDS))
      ensures error == FirstError(w, Launches(config.workers, WORKER_KINDS))
      ensures tasks == TasksIn(Perform(w, Launches(config.workers, WORKER_KINDS)))
    {
      hide Perform;
      hide FirstError;
      error := None;
      NothingRaises(w);
      for k := 0 to WORKER_KINDS
        invariant error.None? && FirstError(w, Launches(config.workers, k)).None?
        invariant log == old(log) + Launches(config.workers, k)
        invariant |tasks| == WORKER_KINDS && forall x :: 0 <= x < WORKER_KINDS ==> tasks[x] == (x < k && config.workers[x])
      {
        if config.workers[k] {
          LaunchOne(w, Launches(config.workers, k), k);
          LaunchesGrow(config.workers, k + 1, WORKER_KINDS);
          error := Do(w, On(Launch, k));
          if error.Some? {
            PrefixFails(w, Launches(config.workers, k + 1), Launches(config.workers, WORKER_KINDS));
            LaunchedTasks(config.workers, k, [On(Launch, k)], tasks);
            return;
          }
          var _ := Do(w, On(Create, k));
          tasks := tasks[k := true];
        } else {
          assert Launches(config.workers, k + 1) == Launches(config.workers, k);
        }
      }
      PerformAll(w, Launches(config.workers, WORKER_KINDS));
      LaunchedTasks(config.workers, WORKER_KINDS, [], tasks);
    }

    /** One step whose error is collected. */
    method Attempt(w: World, e: Event, errors: seq<string>) returns (more: seq<string>)
      modifies this`log
      ensures log == old(log) + [e] && more == errors + Errors(w, [e])
    {
      var error := Do(w, e);
      more := if error.Some? then errors + [error.value] else errors;
    }

    method AttemptIf(w: World, present: bool, e: Event, errors: seq<string>) returns (more: seq<string>)
      modifies this`log
      ensures log == old(log) + OnlyIf(present, e) && more == errors + Errors(w, OnlyIf(present, e))
    {
      more := errors;
      if present { more := Attempt(w, e, errors); }
    }

    /** The wait for the task of worker k; its end is logged when it has ended. */
    method AwaitTask(w: World, k: nat, errors: seq<string>) returns (more: seq<string>)
      modifies this`log
      ensures log == old(log) + WaitSteps(w, k) && more == errors + Errors(w, WaitSteps(w, k))
    {
      var task := new WorkerTask(w.course(k));
      var forced, error := AwaitShutdown(task);
      if forced { log := log + [On(Force, k)]; }
      if task.done { log := log + [On(End, k)]; }
      more := if error.Some? then errors + [error.value] else errors;
      WaitErrors(w, k);
    }

    method AwaitTasks(w: World) returns (errors: seq<string>)
      requires Valid()
      modifies this`log, this`tasks
      ensures log == old(log) + Waits(w, old(tasks), WORKER_KINDS) && tasks == NO_TASKS
      ensures errors == Errors(w, Waits(w, old(tasks), WORKER_KINDS))
    {
      errors := [];
      for k := 0 to WORKER_KINDS
        invariant |tasks| == WORKER_KINDS
        invariant log == old(log) + Waits(w, old(tasks), k)
        invariant errors == Errors(w, Waits(w, old(tasks), k))
        invariant forall x :: 0 <= x < WORKER_KINDS ==> tasks[x] == (x >= k && old(tasks)[x])
      {
        ErrorsAppend(w, Waits(w, old(tasks), k), WaitSteps(w, k));
        assert Waits(w, old(tasks), k) + [] == Waits(w, old(tasks), k);
        if tasks[k] {
          errors := AwaitTask(w, k, errors);
          tasks := tasks[k := false];
        }
      }
    }

    method CloseManaged(w: World, errors: seq<string>) returns (more: seq<string>)
      modifies this`log
      ensures log == old(log) + Resources(config.resources)
      ensures more == errors + Errors(w, Resources(config.resources))
    {
      hide Errors;
      hide Resources;
      more := errors;
      ghost var closed: seq<Event> := [];
      NoErrors(w);
      for i := config.resources downto 0
        invariant closed + Resources(i) == Resources(config.resources)
        invariant log == old(log) + closed && more == errors + Errors(w, closed)
      {
        NextResource(closed, i, config.resources);
        ErrorsAppend(w, closed, [ResourceClosed(i)]);
        more := Attempt(w, ResourceClosed(i), more);
        closed := closed + [ResourceClosed(i)];
      }
      NoResources();
      assert closed == Resources(config.resources);
    }

    method CloseAll(w: World, errors: seq<string>) returns (more: seq<string>)
      modifies this`log
      ensures log == old(log) + Closings(config)
      ensures more == errors + Errors(w, Closings(config))
    {
      ClosingErrors(config, w);
      hide OnlyIf;
      hide Resources;
      hide Errors;
      more := errors;
      more := AttemptIf(w, config.publisher, PublisherClosed, more);
      more := AttemptIf(w, config.authenticator, AuthenticatorClosed, more);
      more := CloseManaged(w, more);
      more := Attempt(w, EngineDisposed, more);
    }

    method CloseResources(w: World, suppressed: bool) returns (error: Option<string>)
      requires Valid()
      modifies this`log, this`tasks, this`started, this`closing, this`closed
      ensures View() == AfterShutdown(config, old(View()), w)
      ensures error == ShutdownError(config, old(View()), w, suppressed)
    {
      hide Each;
      hide Closings;
      hide Errors;
      hide Perform;
      hide FirstError;
      closing := true;
      error := DoEach(w, config.workers, RequestStop);
      if error.Some? { return; }
      PerformAll(w, StopSteps(config));
      var errors := AwaitTasks(w);
      errors := CloseAll(w, errors);
      started := false;
      closed := true;
      ErrorsAppend(w, Waits(w, old(tasks), WORKER_KINDS), Closings(config));
      FirstOfErrors(w, CleanSteps(config, w, old(tasks)));
      error := if errors != [] && !suppressed then Some(errors[0]) else None;
    }

    method Start(w: World) returns (reply: Reply)
      requires Valid()
      modifies this
      ensures Valid() && View() == AfterStart(config, old(View()), w)
      ensures reply == StartReply(config, old(View()), w)
    {
      if startAttempted { return StartedTwice; }
      var error := StartUp(w);
      startAttempted := true;
      if error.Some? {
        var second := CloseResources(w, true);
        return Raised(if second.Some? then second.value else error.value);
      }
      reply := Done;
    }

    method Close(w: World) returns (reply: Reply)
      requires Valid()
      modifies this
      ensures Valid() && View() == AfterClose(config, old(View()), w)
      ensures reply == CloseReply(config, old(View()), w)
    {
      if closed { return Done; }
      var error := CloseResources(w, false);
      reply := if error.Some? then Raised(error.value) else Done;
    }
  }

  lemma WaitErrors(w: World, k: nat)
    ensures Errors(w, WaitSteps(w, k)) == ErrorOf(w, On(End, k))
  {
    var last := [On(End, k)];
    assert last[1..] == [] && Errors(w, last) == ErrorOf(w, On(End, k)) + Errors(w, last[1..]);
    if IsForced(w.course(k)) {
      var steps := [On(Force, k)] + last;
      assert steps[1..] == last && WaitSteps(w, k) == steps;
      assert Errors(w, steps) == ErrorOf(w, On(Force, k)) + Errors(w, last);
    }
  }

  lemma NoErrors(w: World)
    ensures Errors(w, []) == []
  {}

  lemma NoResources()
    ensures Resources(0) == []
  {}

  lemma NextResource(closed: seq<Event>, i: nat, n: nat)
    requires closed + Resources(i + 1) == Resources(n)
    ensures closed + [ResourceClosed(i)] + Resources(i) == Resources(n)
  {}

  lemma ClosingErrors(c: Config, w: World)
    ensures Errors(w, Closings(c)) == Errors(w, OnlyIf(c.publisher, PublisherClosed))
      + Errors(w, OnlyIf(c.authenticator, AuthenticatorClosed)) + Errors(w, Resources(c.resources)) + Errors(w, [EngineDisposed])
  {
    var a, b, r := OnlyIf(c.publisher, PublisherClosed), OnlyIf(c.authenticator, AuthenticatorClosed), Resources(c.resources);
    ErrorsAppend(w, a, b);
    ErrorsAppend(w, a + b, r);
    ErrorsAppend(w, a + b + r, [EngineDisposed]);
  }

  lemma NothingRaises(w: World)
    ensures FirstError(w, []).None?
  {}

  lemma LaunchedTasks(workers: seq<bool>, k: nat, more: seq<Event>, tasks: seq<bool>)
    requires k <= |workers| == |tasks| == WORKER_KINDS && forall x :: 0 <= x < WORKER_KINDS ==> tasks[x] == (x < k && workers[x])
    requires forall x :: On(Create, x) !in more
    ensures TasksIn(Launches(workers, k) + more) == tasks
  {
    forall x | 0 <= x < WORKER_KINDS ensures On(Create, x) in Launches(workers, k) + more <==> tasks[x] {
      LaunchMembers(workers, k, On(Create, x));
    }
  }

  /** How far a start-up gets, by its phases. */
  lemma StartsInOrder(c: Config, w: World)
    requires c.Valid()
    ensures var exits := Each(Both(c.workers, w.exited), SeeExit, WORKER_KINDS);
            var launches := Launches(c.workers, WORKER_KINDS);
            var r, error := Perform(w, StartSteps(c, w)), FirstError(w, StartSteps(c, w));
            if FirstError(w, Opening(c)).Some? then r == Perform(w, Opening(c)) && error == FirstError(w, Opening(c))
            else if FirstError(w, launches).Some? then r == Opening(c) + Perform(w, launches) && error == FirstError(w, launches)
            else r == Opening(c) + launches + Perform(w, exits) && error == FirstError(w, exits)
  {
    var opening, launches := Opening(c), Launches(c.workers, WORKER_KINDS);
    var exits := Each(Both(c.workers, w.exited), SeeExit, WORKER_KINDS);
    hide Opening;
    hide Launches;
    hide Each;
    assert StartSteps(c, w) == opening + (launches + exits);
    PerformAppend(w, opening, launches + exits);
    PerformAppend(w, launches, exits);
    assert opening + (launches + Perform(w, exits)) == opening + launches + Perform(w, exits);
  }

  /** A start-up creates the tasks that its launches create, once the database and the publisher are there. */
  lemma StartCreates(c: Config, w: World)
    requires c.Valid()
    ensures var launches := Launches(c.workers, WORKER_KINDS);
            TasksIn(Perform(w, StartSteps(c, w))) ==
            if FirstError(w, Opening(c)).Some? then NO_TASKS else TasksIn(Perform(w, launches))
  {
    var exits := Each(Both(c.workers, w.exited), SeeExit, WORKER_KINDS);
    var launches := Launches(c.workers, WORKER_KINDS);
    StartsInOrder(c, w);
    PerformPart(w, Opening(c));
    PerformPart(w, exits);
    forall x: nat ensures On(Create, x) !in Opening(c) && On(Create, x) !in exits {
      EachMembers(Both(c.workers, w.exited), SeeExit, WORKER_KINDS, On(Create, x));
    }
    hide Opening;
    hide Launches;
    hide Each;
    hide StartSteps;
    if FirstError(w, Opening(c)).None? && FirstError(w, launches).None? { PerformAll(w, launches); }
    var done := Perform(w, StartSteps(c, w));
    forall x: nat ensures On(Create, x) in done <==> FirstError(w, Opening(c)).None? && On(Create, x) in Perform(w, launches) {}
  }

  lemma OpeningForm(c: Config)
    ensures Opening(c) == [DatabaseChecked] + ([ClockRead] + OnlyIf(c.publisher, PublisherStarted))
  {}

  lemma {:induction false} PerformPart(w: World, steps: seq<Event>)
    ensures Perform(w, steps) <= steps
  {
    if steps != [] { PerformPart(w, steps[1..]); }
  }
}
