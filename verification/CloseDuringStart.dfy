/** A schedule in which a close runs to its end while the start waits for the database. */
module CloseDuringStart {
  import opened Outcomes
  import opened RuntimeLifecycle
  import opened RuntimeInterleaving
  import O = RuntimeOverlap
  import S = RuntimeSoundness

  /** The outbox worker is all that is configured, and everything works. */
  const OUTBOX: Config := Config([true, false, false, false, false], false, false, 0)

  function Calm(): World { World(e => None, k => false, k => InTime(Finishes)) }

  const TASK: seq<bool> := [true, false, false, false, false]

  lemma OutboxSteps()
    ensures OUTBOX.Valid() && StopSteps(OUTBOX) == [On(RequestStop, 0)] && Closings(OUTBOX) == [EngineDisposed]
    ensures Launches(OUTBOX.workers, WORKER_KINDS) == [On(Launch, 0), On(Create, 0)]
  {
    assert Each(OUTBOX.workers, RequestStop, 1) == [On(RequestStop, 0)];
    assert Each(OUTBOX.workers, RequestStop, 4) == [On(RequestStop, 0)];
    assert Launches(OUTBOX.workers, 1) == [On(Launch, 0), On(Create, 0)];
    assert Launches(OUTBOX.workers, 4) == [On(Launch, 0), On(Create, 0)];
  }

  lemma {:induction false} CalmPerforms(steps: seq<Event>)
    requires forall i :: 0 <= i < |steps| ==> Calm().Raises(steps[i]).None?
    ensures Perform(Calm(), steps) == steps && FirstError(Calm(), steps).None?
  {
    if steps != [] { CalmPerforms(steps[1..]); }
  }

  lemma CalmShut(s: Mixed)
    requires s.Formed() && 1 < |s.closers| && s.tasks == NO_TASKS
    ensures Shut(OUTBOX, Calm(), s, 1) == s.(closers := s.closers[1 := O.Closing(0)], log := s.log + [On(RequestStop, 0)])
  {
    OutboxSteps();
    CalmPerforms([On(RequestStop, 0)]);
    hide StopSteps;
    assert NextHeld(s.tasks, 0) == WORKER_KINDS;
  }

  lemma CalmLaunch(s: Mixed)
    requires s.Formed()
    ensures LaunchAll(OUTBOX, Calm(), s)
         == (s.(starter := Yielding, tasks := TASK, log := s.log + [On(Launch, 0), On(Create, 0)]), false)
  {
    OutboxSteps();
    var launches := [On(Launch, 0), On(Create, 0)];
    CalmPerforms(launches);
    hide Launches;
    assert launches[1] == On(Create, 0);
    assert TasksIn(launches) == TASK && TASK[0] != NO_TASKS[0];
  }

  lemma CalmExits()
    ensures Each(Both(TASK, Calm().exited), SeeExit, WORKER_KINDS) == []
  {
    var exits := Each(Both(TASK, Calm().exited), SeeExit, WORKER_KINDS);
    if exits != [] { EachMembers(Both(TASK, Calm().exited), SeeExit, WORKER_KINDS, exits[0]); }
  }

  function Turned(s: Mixed, i: nat): (t: Mixed)
    requires s.Formed() && |s.closers| == 2 && i < 2
    ensures t.Formed() && |t.closers| == 2
  {
    if CanMove(s, i) then Move(OUTBOX, [Calm(), Calm()], s, i) else s
  }

  /** The start waits for the database; a close runs to its end meanwhile; the start goes on. */
  const MEANWHILE: seq<nat> := [0, 1, 1, 1, 0, 0]

  lemma TurnByTurn(n: nat)
    requires n < |MEANWHILE|
    ensures var s := RunFrom(OUTBOX, [Calm(), Calm()], MEANWHILE[..n]);
            RunFrom(OUTBOX, [Calm(), Calm()], MEANWHILE[..n + 1]) == Turned(s, MEANWHILE[n])
  {
    hide Move;
    hide CanMove;
    assert MEANWHILE[..n + 1][..n] == MEANWHILE[..n] && MEANWHILE[..n + 1][n] == MEANWHILE[n];
  }

  lemma CloseFirst()
    ensures RunFrom(OUTBOX, [Calm(), Calm()], MEANWHILE[..4])
         == Mixed(Checking, true, [O.Outside, O.Through], [0, 0], NO_TASKS, [DatabaseChecked, On(RequestStop, 0), EngineDisposed])
  {
    var worlds := [Calm(), Calm()];
    OutboxSteps();
    assert RunFrom(OUTBOX, worlds, MEANWHILE[..0]) == Mixed(Resting, false, [O.Outside, O.Outside], [0, 0], NO_TASKS, []);
    var s1 := Mixed(Checking, false, [O.Outside, O.Outside], [0, 0], NO_TASKS, [DatabaseChecked]);
    var s2 := s1.(closers := [O.Outside, O.Closing(0)], log := [DatabaseChecked, On(RequestStop, 0)]);
    var s3 := s1.(closers := [O.Outside, O.Closing(1)], log := [DatabaseChecked, On(RequestStop, 0), EngineDisposed]);
    hide RunFrom;
    hide Closings;
    hide StopSteps;
    TurnByTurn(0);
    TurnByTurn(1);
    TurnByTurn(2);
    TurnByTurn(3);
    CalmShut(s1);
    hide Shut;
    assert RunFrom(OUTBOX, worlds, MEANWHILE[..1]) == s1;
    assert RunFrom(OUTBOX, worlds, MEANWHILE[..2]) == s2;
    assert RunFrom(OUTBOX, worlds, MEANWHILE[..3]) == s3;
  }

  /** The log after the close has run to its end. */
  const CLOSED_LOG: seq<Event> := [DatabaseChecked, On(RequestStop, 0), EngineDisposed]

  const LEAKED_LOG: seq<Event> := CLOSED_LOG + [ClockRead] + [On(Launch, 0), On(Create, 0)]

  lemma LaunchTurn()
    ensures Turned(Mixed(Checking, true, [O.Outside, O.Through], [0, 0], NO_TASKS, CLOSED_LOG), 0)
         == Mixed(Yielding, true, [O.Outside, O.Through], [0, 0], TASK, LEAKED_LOG)
  {
    var s := Mixed(Checking, true, [O.Outside, O.Through], [0, 0], NO_TASKS, CLOSED_LOG);
    CalmLaunch(s.(log := s.log + [ClockRead]));
    hide LaunchAll;
  }

  lemma ExitTurn()
    ensures Turned(Mixed(Yielding, true, [O.Outside, O.Through], [0, 0], TASK, LEAKED_LOG), 0)
         == Mixed(Started, true, [O.Outside, O.Through], [0, 0], TASK, LEAKED_LOG)
  {
    CalmExits();
    CalmPerforms([]);
    hide Each;
    assert LEAKED_LOG + [] == LEAKED_LOG;
  }

  lemma StartGoesOn()
    ensures RunFrom(OUTBOX, [Calm(), Calm()], MEANWHILE) == Mixed(Started, true, [O.Outside, O.Through], [0, 0], TASK, LEAKED_LOG)
  {
    CloseFirst();
    LaunchTurn();
    ExitTurn();
    TurnByTurn(4);
    TurnByTurn(5);
    assert MEANWHILE[..6] == MEANWHILE && MEANWHILE[4] == 0 && MEANWHILE[5] == 0;
    hide RunFrom;
    hide Turned;
  }

  lemma LeakedTask()
    ensures On(Create, 0) in LEAKED_LOG && On(End, 0) !in LEAKED_LOG && !S.EndsAll(LEAKED_LOG)
  {
    assert LEAKED_LOG[5] == On(Create, 0);
  }

  /** It can happen: a close during the start leaves a started, closed runtime with a task that nobody ends. */
  lemma CloseDuringStartLeaks()
    ensures var s := RunFrom(OUTBOX, [Calm(), Calm()], MEANWHILE);
            && Settled(s) && s.starter.Started? && s.closed
            && On(Create, 0) in s.log && On(End, 0) !in s.log && !Kept(OUTBOX, s)
  {
    StartGoesOn();
    LeakedTask();
    hide RunFrom;
    hide S.EndsAll;
  }
}
