/** How load runs end, and what their totals report. */
module LoadResults {
  import opened Outcomes
  import opened OrderedDict
  import opened Counting
  import opened Sorting
  import opened LoadRunner
  import opened Rates
  import Decimal

  // ---------------------------------------------------------------- endings

  predicate Finished(s: State) { s.phase.Returned? || s.phase.Raised? }

  /** Every worker has died while jobs are still queued: `queue.join()` waits forever. */
  ghost predicate Hung(s: State) {
    s.phase.Joining? && s.queue != [] && forall w :: 0 <= w < |s.workers| ==> s.workers[w].Crashed?
  }

  ghost predicate Final(c: Setup, s: State) {
    forall m :: !Enabled(c, s, m)
  }

  /** A run that is neither over nor hung can always go on; stop signals never find the queue full. */
  lemma CanGoOn(c: Setup, s: State) returns (m: Move)
    requires c.Valid() && Inv(c, s) && !Finished(s) && !Hung(s)
    ensures Enabled(c, s, m)
  {
    NobodyRuns(s.workers);
    match s.phase
    case Producing => m := if s.next < c.count then Produce else EndProduction;
    case Signalling => m := if s.signals < c.workers then Signal else EndSignals;
    case Joining =>
      if s.unfinished == 0 {
        m := Joined;
      } else if w :| 0 <= w < |s.workers| && s.workers[w].Busy? {
        m := Finish(w);
      } else {
        var w :| 0 <= w < |s.workers| && !s.workers[w].Crashed?;
        StoppedCounts(s.workers, w);
        m := Take(w);
      }
    case Gathering =>
      if SomeoneCrashed(s.workers) {
        m := Raise;
      } else if w :| 0 <= w < |s.workers| && !s.workers[w].Stopped? {
        m := Take(w);
      } else {
        m := Return;
      }
  }

  lemma {:induction false} StoppedCounts(workers: seq<Worker>, w: nat)
    requires w < |workers|
    ensures workers[w].Stopped? ==> StopCount(workers) > 0
  {
    if w > 0 { StoppedCounts(workers[1..], w - 1); }
  }

  /** A run that is not over is stuck exactly when every worker died with jobs still queued. */
  lemma StuckExactlyWhenHung(c: Setup, s: State)
    requires c.Valid() && Inv(c, s) && !Finished(s)
    ensures Final(c, s) <==> Hung(s)
  {
    if !Hung(s) {
      var m := CanGoOn(c, s);
    } else {
      assert s.unfinished > 0;
      assert Final(c, s);
    }
  }

  // ---------------------------------------------------------------- which configurations can hang

  function CrashCount(workers: seq<Worker>): nat {
    if workers == [] then 0 else (if workers[0].Crashed? then 1 else 0) + CrashCount(workers[1..])
  }

  lemma {:induction false} CrashUpdate(workers: seq<Worker>, w: nat, x: Worker)
    requires w < |workers|
    ensures CrashCount(workers[w := x]) + (if workers[w].Crashed? then 1 else 0) == CrashCount(workers) + (if x.Crashed? then 1 else 0)
  {
    if w == 0 {
      assert workers[w := x][1..] == workers[1..];
    } else {
      assert workers[w := x][1..] == workers[1..][w - 1 := x];
      CrashUpdate(workers[1..], w - 1, x);
    }
  }

  lemma {:induction false} CrashExtremes(workers: seq<Worker>)
    ensures (forall w :: 0 <= w < |workers| ==> workers[w].Crashed?) ==> CrashCount(workers) == |workers|
    ensures (forall w :: 0 <= w < |workers| ==> !workers[w].Crashed?) ==> CrashCount(workers) == 0
  {
    if workers != [] {
      CrashExtremes(workers[1..]);
      assert forall w :: 0 <= w < |workers[1..]| ==> workers[1..][w] == workers[w + 1];
    }
  }

  /** As many jobs are lost as workers died, and until the jobs are done every produced index is accounted for. */
  ghost predicate Accounts(s: State) {
    && |s.lost| == CrashCount(s.workers)
    && (s.phase.Producing? || s.phase.Joining? ==>
          s.next == |s.queue| + BusyCount(s.workers) + |s.results| + |s.dropped| + |s.lost|)
  }

  lemma StepKeepsAccounts(c: Setup, s: State, m: Move)
    requires Shape(c, s) && Accounts(s) && Enabled(c, s, m)
    ensures Accounts(Step(c, s, m))
  {
    if OfWorker(m) {
      var x := Step(c, s, m).workers[m.w];
      WorkerUpdate(s.workers, m.w, x, 0);
      CrashUpdate(s.workers, m.w, x);
    }
  }

  lemma {:induction false} EveryStateAccounts(c: Setup, states: seq<State>, i: nat)
    requires IsRun(c, states) && i < |states|
    ensures Accounts(states[i])
  {
    hide Accounts;
    hide Step;
    if i == 0 {
      InitAccounts(c);
    } else {
      EveryStateAccounts(c, states, i - 1);
      EveryStateKeepsInvariant(c, states, i - 1);
      assert Steps(c, states[i - 1], states[i - 1 + 1]);
      var m :| Enabled(c, states[i - 1], m) && states[i] == Step(c, states[i - 1], m);
      StepKeepsAccounts(c, states[i - 1], m);
    }
  }

  lemma InitAccounts(c: Setup)
    ensures Accounts(Init(c))
  {
    AllIdle(c.workers, 0);
    CrashExtremes(Init(c).workers);
  }

  lemma Extend(c: Setup, states: seq<State>, m: Move) returns (longer: seq<State>)
    requires IsRun(c, states) && Enabled(c, states[|states| - 1], m)
    ensures IsRun(c, longer) && longer[|longer| - 1] == Step(c, states[|states| - 1], m)
  {
    var s := states[|states| - 1];
    longer := states + [Step(c, s, m)];
    assert Steps(c, s, Step(c, s, m));
    forall i | 0 <= i < |longer| - 1 ensures Steps(c, longer[i], longer[i + 1]) {
      if i < |states| - 1 { assert Steps(c, states[i], states[i + 1]); }
    }
  }

  lemma JustStarted(c: Setup) returns (states: seq<State>)
    ensures IsRun(c, states) && states[|states| - 1] == Init(c)
  {
    states := [Init(c)];
  }

  /** Each of the first k workers died with its first job. */
  ghost predicate FirstDied(c: Setup, s: State, k: nat) {
    && s.phase.Producing? && s.next == k && s.queue == [] && s.unfinished == 0 && |s.workers| == c.workers
    && forall w :: 0 <= w < c.workers ==> if w < k then s.workers[w].Crashed? else s.workers[w].Idle?
  }

  lemma {:induction false} WorkersDie(c: Setup, k: nat) returns (states: seq<State>)
    requires c.Valid() && k <= c.workers < c.count
    ensures IsRun(c, states) && FirstDied(c, states[|states| - 1], k)
  {
    hide IsRun;
    states := JustStarted(c);
    if k > 0 {
      states := WorkersDie(c, k - 1);
      states := Extend(c, states, Produce);
      states := Extend(c, states, Take(k - 1));
      states := Extend(c, states, Die(k - 1));
    }
  }

  /** With every worker dead the producer fills the queue and drops the rest. */
  lemma {:induction false} NobodyLeft(c: Setup, before: seq<State>) returns (states: seq<State>)
    requires c.Valid() && IsRun(c, before)
    requires var s := before[|before| - 1];
             s.phase.Producing? && (s.next < c.count || (s.next == c.count && s.queue != []))
             && forall w :: 0 <= w < |s.workers| ==> s.workers[w].Crashed?
    ensures IsRun(c, states) && Hung(states[|states| - 1])
    decreases c.count - before[|before| - 1].next
  {
    assert before != [];
    hide IsRun;
    if before[|before| - 1].next < c.count {
      states := Extend(c, before, Produce);
      states := NobodyLeft(c, states);
    } else {
      states := Extend(c, before, EndProduction);
    }
  }

  /** Some run of a configuration hangs if and only if it plans more requests than it has workers. */
  lemma HangsExactly(c: Setup)
    requires c.Valid()
    ensures (exists states :: IsRun(c, states) && Hung(states[|states| - 1])) <==> c.count > c.workers
  {
    if states: seq<State> :| IsRun(c, states) && Hung(states[|states| - 1]) {
      EveryStateKeepsInvariant(c, states, |states| - 1);
      EveryStateAccounts(c, states, |states| - 1);
      CrashExtremes(states[|states| - 1].workers);
    }
    if c.count > c.workers {
      var dead := WorkersDie(c, c.workers);
      var states := NobodyLeft(c, dead);
    }
  }

  // ---------------------------------------------------------------- which configurations can drop

  lemma StepDropsWhenFull(c: Setup, s: State, m: Move)
    requires Accounts(s) && Enabled(c, s, m) && (s.dropped != [] ==> s.next > c.bound)
    ensures Step(c, s, m).dropped != [] ==> Step(c, s, m).next > c.bound
  {}

  lemma {:induction false} DroppedMeansFull(c: Setup, states: seq<State>, i: nat)
    requires IsRun(c, states) && i < |states|
    ensures states[i].dropped != [] ==> states[i].next > c.bound
  {
    if i > 0 {
      DroppedMeansFull(c, states, i - 1);
      EveryStateAccounts(c, states, i - 1);
      assert Steps(c, states[i - 1], states[i - 1 + 1]);
      var m :| Enabled(c, states[i - 1], m) && states[i] == Step(c, states[i - 1], m);
      hide Step;
      hide Accounts;
      StepDropsWhenFull(c, states[i - 1], m);
    }
  }

  /** Nobody takes a job: the first k jobs fill the queue, and those that do not fit are dropped. */
  lemma {:induction false} NobodyTakes(c: Setup, k: nat) returns (states: seq<State>)
    requires k <= c.count
    ensures IsRun(c, states)
    ensures var s := states[|states| - 1];
            s.phase.Producing? && s.next == k && |s.queue| == (if k <= c.bound then k else c.bound) && |s.dropped| + |s.queue| == k
  {
    hide IsRun;
    states := JustStarted(c);
    if k > 0 {
      states := NobodyTakes(c, k - 1);
      states := Extend(c, states, Produce);
    }
  }

  /** Some run of a configuration drops a request if and only if it plans more requests than the queue holds. */
  lemma DropsExactly(c: Setup)
    ensures (exists states: seq<State> :: IsRun(c, states) && states[|states| - 1].dropped != []) <==> c.count > c.bound
  {
    if states: seq<State> :| IsRun(c, states) && states[|states| - 1].dropped != [] {
      DroppedMeansFull(c, states, |states| - 1);
      EveryStateKeepsInvariant(c, states, |states| - 1);
    }
    if c.count > c.bound {
      var states := NobodyTakes(c, c.count);
    }
  }

  // ---------------------------------------------------------------- length of a run

  function PhaseRank(p: Phase): nat {
    match p
    case Producing => 4
    case Joining => 3
    case Signalling => 2
    case Gathering => 1
    case _ => 0
  }

  /** How many steps may still come. */
  function Rank(c: Setup, s: State): int {
    4 * (c.count - s.next)
    + (if s.phase.Producing? || s.phase.Joining? then 3 else 1) * |s.queue|
    + 2 * BusyCount(s.workers) + 2 * (c.workers - s.signals) + PhaseRank(s.phase)
  }

  lemma StepDescends(c: Setup, s: State, m: Move)
    requires Inv(c, s) && Enabled(c, s, m)
    ensures 0 <= Rank(c, Step(c, s, m)) < Rank(c, s)
  {
    StepKeeps(c, s, m);
    match m
    case Take(w) => WorkerUpdate(s.workers, w, if s.queue[0].Some? then Busy(s.queue[0].value) else Stopped, 0);
    case Finish(w) => WorkerUpdate(s.workers, w, Idle, 0);
    case Die(w) => WorkerUpdate(s.workers, w, Crashed, 0);
    case _ =>
  }

  lemma StepsDescend(c: Setup, s: State, t: State)
    requires Inv(c, s) && Steps(c, s, t)
    ensures 0 <= Rank(c, t) < Rank(c, s)
  {
    hide Inv;
    hide Rank;
    var m :| Enabled(c, s, m) && t == Step(c, s, m);
    StepDescends(c, s, m);
  }

  lemma InitRank(c: Setup)
    ensures Rank(c, Init(c)) == 4 * c.count + 2 * c.workers + 4
  {
    AllIdle(c.workers, 0);
  }

  lemma {:induction false} RankBoundsRun(c: Setup, states: seq<State>, i: nat)
    requires IsRun(c, states) && i < |states|
    ensures 0 <= Rank(c, states[i]) <= Rank(c, Init(c)) - i
  {
    hide Inv;
    hide Rank;
    hide Steps;
    InitRank(c);
    if i > 0 {
      RankBoundsRun(c, states, i - 1);
      EveryStateKeepsInvariant(c, states, i - 1);
      assert Steps(c, states[i - 1], states[i - 1 + 1]);
      StepsDescend(c, states[i - 1], states[i]);
    }
  }

  /** No run goes on forever: the number of steps is bounded by the planned requests and the workers. */
  lemma RunsEnd(c: Setup, states: seq<State>)
    requires IsRun(c, states)
    ensures |states| - 1 <= 4 * c.count + 2 * c.workers + 4
  {
    hide Rank;
    RankBoundsRun(c, states, |states| - 1);
    InitRank(c);
  }

  // ---------------------------------------------------------------- what a returned run reports

  lemma {:induction false} OccurrencesAreCounts(s: seq<nat>, j: nat)
    ensures Occurrences(s, j) == multiset(s)[j]
  {
    if s != [] {
      OccurrencesAreCounts(s[..|s| - 1], j);
      assert s == s[..|s| - 1] + [s[|s| - 1]];
    }
  }

  function Below(n: nat): (r: seq<nat>)
    ensures |r| == n && forall i :: 0 <= i < n ==> r[i] == i
  {
    seq(n, i => i)
  }

  lemma {:induction false} BelowCounts(n: nat, j: nat)
    ensures multiset(Below(n))[j] == if j < n then 1 else 0
  {
    if n > 0 {
      BelowCounts(n - 1, j);
      assert Below(n) == Below(n - 1) + [n - 1];
    }
  }

  /** Two lists that together hold each index below n once have n entries. */
  lemma PartitionSize(a: seq<nat>, b: seq<nat>, n: nat)
    requires forall j: nat :: Occurrences(a, j) + Occurrences(b, j) == if j < n then 1 else 0
    ensures |a| + |b| == n
  {
    forall j: nat ensures multiset(a + b)[j] == multiset(Below(n))[j] {
      OccurrencesAreCounts(a, j);
      OccurrencesAreCounts(b, j);
      BelowCounts(n, j);
    }
    assert multiset(a + b) == multiset(Below(n));
    assert |multiset(a + b)| == |a + b| && |multiset(Below(n))| == n;
  }

  /**
   When the run returns, every planned index is exactly once a result or dropped. Nothing is
   assumed about the requests: a worker that dies makes the run raise or hang, never return.
   */
  lemma ReturnedRunIsComplete(c: Setup, states: seq<State>, j: nat)
    requires c.Valid() && IsRun(c, states) && states[|states| - 1].phase.Returned?
    ensures var s := states[|states| - 1];
            && Occurrences(s.results, j) + Occurrences(s.dropped, j) == (if j < c.count then 1 else 0)
            && |s.results| + |s.dropped| == c.count
  {
    var s := states[|states| - 1];
    EveryStateKeepsInvariant(c, states, |states| - 1);
    NobodyRuns(s.workers);
    forall i: nat ensures Occurrences(s.results, i) + Occurrences(s.dropped, i) == if i < c.count then 1 else 0 {
      NothingCounted(s.queue, s.workers, i);
      assert Places(s, i) == if i < s.next then 1 else 0;
    }
    PartitionSize(s.results, s.dropped, c.count);
  }

  /** If no worker dies, a run that can go no further has returned. */
  lemma HealthyRunReturns(c: Setup, states: seq<State>)
    requires c.Valid() && IsRun(c, states)
    requires !SomeoneCrashed(states[|states| - 1].workers)
    requires Finished(states[|states| - 1]) || Final(c, states[|states| - 1])
    ensures states[|states| - 1].phase.Returned?
  {
    var s := states[|states| - 1];
    EveryStateKeepsInvariant(c, states, |states| - 1);
    assert |s.workers| >= 1 && !s.workers[0].Crashed?;
    if !Finished(s) {
      StuckExactlyWhenHung(c, s);
    }
  }

  // ---------------------------------------------------------------- totals

  datatype Outcome = Status(code: nat) | Timeout | TransportError {

    function Label(): string {
      match this
      case Status(code) => Decimal.Print(code)
      case Timeout => "timeout"
      case TransportError => "transport_error"
    }

    predicate Failed() { !Status? || !(200 <= code < 300) }
  }

  function Failures(outcomes: seq<Outcome>): nat {
    if outcomes == [] then 0
    else Failures(outcomes[..|outcomes| - 1]) + if outcomes[|outcomes| - 1].Failed() then 1 else 0
  }

  function Labels(outcomes: seq<Outcome>): (r: seq<string>)
    ensures |r| == |outcomes| && forall i :: 0 <= i < |outcomes| ==> r[i] == outcomes[i].Label()
  {
    seq(|outcomes|, i requires 0 <= i < |outcomes| => outcomes[i].Label())
  }

  function Distribution(outcomes: seq<Outcome>, dropped: nat): Items<string, nat> {
    SortedItems(Put<string, nat>(CounterOf(Labels(outcomes)), "dropped", dropped))
  }

  datatype Totals = Totals(errorRate: real, checkRate: real, requestCount: nat, dropped: nat,
                           distribution: Items<string, nat>)

  function BuildTotals(planned: nat, outcomes: seq<Outcome>, dropped: nat): Totals
    requires planned >= 1
  {
    var failures := Failures(outcomes);
    Totals(Ratio(failures + dropped, planned), Ratio(planned - failures - dropped, planned),
           |outcomes|, dropped, Distribution(outcomes, dropped))
  }

  /** Each outcome is listed under its status, or as what kept it from having one. */
  lemma LabelsAre(code: nat)
    ensures Status(code).Label() == Decimal.Print(code) && Timeout.Label() == "timeout" && TransportError.Label() == "transport_error"
  {}

  lemma LabelIsNotDropped(o: Outcome)
    ensures o.Label() != "dropped"
  {
    assert "dropped"[0] == 'd' && "timeout"[0] == 't' && "transport_error"[0] == 't';
  }

  lemma {:induction false} FailuresBound(outcomes: seq<Outcome>)
    ensures Failures(outcomes) <= |outcomes|
  {
    if outcomes != [] { FailuresBound(outcomes[..|outcomes| - 1]); }
  }

  lemma DistributionSum(outcomes: seq<Outcome>, dropped: nat)
    ensures Sum(Distribution(outcomes, dropped)) == |outcomes| + dropped
  {
    hide Put;
    hide SortedItems;
    var tally := CounterOf(Labels(outcomes));
    CounterCountsAll(Labels(outcomes));
    forall i | 0 <= i < |outcomes| ensures Labels(outcomes)[i] != "dropped" {
      LabelIsNotDropped(outcomes[i]);
    }
    SumPut(tally, "dropped", dropped);
    assert Get(tally, "dropped") == 0;
    SumSorted(Put<string, nat>(tally, "dropped", dropped));
  }

  /** Every entry of the distribution says how many requests ended that way, or how many were dropped. */
  lemma DistributionEntries(outcomes: seq<Outcome>, dropped: nat, name: string, n: nat)
    requires (name, n) in Distribution(outcomes, dropped)
    ensures n == if name == "dropped" then dropped else multiset(Labels(outcomes))[name]
  {
    hide Put;
    hide Get;
    var tally := CounterOf(Labels(outcomes));
    var all := Put<string, nat>(tally, "dropped", dropped);
    SortKeeps(NameLe, all);
    SameElements(Distribution(outcomes, dropped), all, (name, n));
    CounterCountsAll(Labels(outcomes));
    PutKeys<string, nat>(tally, "dropped", dropped);
    GetItem(all, (name, n));
    GetPut(tally, "dropped", dropped, name);
    CounterCountsEach(Labels(outcomes), name);
  }

  /**
   The totals of a complete run: rates in [0, 1] that add up to 1, and a distribution whose entries
   add up to the plan.
   */
  lemma CompleteTotals(planned: nat, outcomes: seq<Outcome>, dropped: nat)
    requires planned >= 1 && |outcomes| + dropped == planned
    ensures var t := BuildTotals(planned, outcomes, dropped);
            && 0.0 <= t.errorRate <= 1.0 && 0.0 <= t.checkRate <= 1.0 && t.errorRate + t.checkRate == 1.0
            && Sum(t.distribution) == planned
            && t.requestCount + t.dropped == planned
  {
    hide Distribution;
    hide Ratio;
    var bad := Failures(outcomes) + dropped;
    FailuresBound(outcomes);
    RatioInUnit(bad, planned);
    RatioInUnit(planned - bad, planned);
    RatioSum(bad, planned - bad, planned);
    RatioUnit(planned);
    DistributionSum(outcomes, dropped);
  }

  /** A request that was answered with a status from 200 to 299. */
  predicate Answered(o: Outcome) { o.Status? && 200 <= o.code <= 299 }

  /** The positions of the requests that were not so answered. */
  ghost function Unanswered(outcomes: seq<Outcome>): set<nat> {
    set i: nat | i < |outcomes| && !Answered(outcomes[i])
  }

  lemma {:induction false} FailuresCounted(outcomes: seq<Outcome>)
    ensures Failures(outcomes) == |Unanswered(outcomes)|
  {
    if outcomes == [] {
      assert Unanswered(outcomes) == {};
    } else {
      var init, last := outcomes[..|outcomes| - 1], |outcomes| - 1;
      FailuresCounted(init);
      assert forall i :: 0 <= i < last ==> init[i] == outcomes[i];
      assert Unanswered(outcomes) == Unanswered(init) + if Answered(outcomes[last]) then {} else {last};
    }
  }

  /**
   What the rates mean: of the planned requests the error rate is the part that was dropped or not answered with a status
   from 200 to 299, and the check rate the rest.
   */
  lemma RatesMean(planned: nat, outcomes: seq<Outcome>, dropped: nat)
    requires planned >= 1
    ensures var t := BuildTotals(planned, outcomes, dropped);
            && t.errorRate * planned as real == (|Unanswered(outcomes)| + dropped) as real
            && t.checkRate * planned as real == (planned - |Unanswered(outcomes)| - dropped) as real
            && (t.errorRate == 0.0 <==> dropped == 0 && forall i :: 0 <= i < |outcomes| ==> Answered(outcomes[i]))
            && t.requestCount == |outcomes| && t.dropped == dropped
  {
    FailuresCounted(outcomes);
    hide Distribution;
    var bad := Failures(outcomes) + dropped;
    RatioTimes(bad, planned);
    RatioTimes(planned - bad, planned);
    RatioZero(bad, planned);
    if forall i :: 0 <= i < |outcomes| ==> Answered(outcomes[i]) { assert Unanswered(outcomes) == {}; }
    forall i: nat | i < |outcomes| && |Unanswered(outcomes)| == 0 ensures Answered(outcomes[i]) {
      assert i !in Unanswered(outcomes);
    }
  }

  lemma RatioZero(k: nat, n: nat)
    requires n >= 1
    ensures Ratio(k, n) == 0.0 <==> k == 0
  {
    RatioTimes(k, n);
  }

  /** The distribution lists its labels in order and once each: those of the outcomes, and "dropped". */
  lemma DistributionLists(outcomes: seq<Outcome>, dropped: nat, name: string)
    ensures var d := Distribution(outcomes, dropped);
            && Ordered(NameLe, d) && NoDuplicates(Keys(d))
            && (name in Keys(d) <==> name == "dropped" || exists i :: 0 <= i < |outcomes| && outcomes[i].Label() == name)
  {
    hide Put;
    hide NoDuplicates;
    hide Ordered;
    var tally := CounterOf(Labels(outcomes));
    var all := Put<string, nat>(tally, "dropped", dropped);
    CounterCountsAll(Labels(outcomes));
    PutKeys<string, nat>(tally, "dropped", dropped);
    NameOrder();
    SortOrders(NameLe, all);
    SortDistinct(all);
    assert name in Labels(outcomes) <==> exists i :: 0 <= i < |outcomes| && Labels(outcomes)[i] == name;
  }

  // ---------------------------------------------------------------- set-up, and whole profiles

  function Ceil(x: real): int { -((-x).Floor) }

  /** The planned requests; `run_http_load_matrix` and `_build_python_profile` both compute this. */
  function Planned(rate: real, duration: real): (n: nat)
    ensures n >= 1 && n as real >= rate * duration / 60.0
  {
    var n := Ceil(rate * duration / 60.0);
    if n >= 1 then n else 1
  }

  function WorkerCount(maxWorkers: int, rate: real): int {
    var wanted := Ceil(rate / 60.0 * 2.0);
    var most := if wanted >= 4 then wanted else 4;
    if maxWorkers <= most then maxWorkers else most
  }

  function QueueBound(maxWorkers: int): int { if 2 * maxWorkers >= 1 then 2 * maxWorkers else 1 }

  /** As many requests as fit into the duration, rounded up, and at least one. */
  lemma PlannedExactly(rate: real, duration: real, n: nat)
    ensures n == Planned(rate, duration) <==>
              && n >= 1 && n as real >= rate * duration / 60.0
              && (n == 1 || (n - 1) as real < rate * duration / 60.0)
  {
    CeilExactly(rate * duration / 60.0, n);
  }

  lemma CeilExactly(x: real, n: int)
    ensures n == Ceil(x) <==> (n - 1) as real < x <= n as real
  {}

  /** Two workers for each request a second, at least four, but never more than allowed; room for two jobs a worker. */
  lemma WorkersExactly(maxWorkers: int, rate: real, n: int)
    requires 1 <= maxWorkers <= 1000 && rate > 0.0
    ensures n == WorkerCount(maxWorkers, rate) <==>
              && n <= maxWorkers && (n == maxWorkers || (n >= 4 && n as real >= rate / 60.0 * 2.0))
              && (n <= 4 || (n - 1) as real < rate / 60.0 * 2.0)
              && (n < 4 ==> n == maxWorkers)
    ensures QueueBound(maxWorkers) == 2 * maxWorkers
  {
    CeilExactly(rate / 60.0 * 2.0, Ceil(rate / 60.0 * 2.0));
  }

  /** For every accepted configuration the stop signals fit into the empty queue. */
  lemma SetupIsValid(maxWorkers: int, rate: real, count: nat)
    requires 1 <= maxWorkers <= 1000 && rate > 0.0
    ensures WorkerCount(maxWorkers, rate) >= 1 && QueueBound(maxWorkers) >= 0
    ensures Setup(count, QueueBound(maxWorkers), WorkerCount(maxWorkers, rate)).Valid()
  {}

  /** The run that a configuration asks for. */
  function SetupOf(maxWorkers: int, rate: real, duration: real): Setup
    requires 1 <= maxWorkers <= 1000 && rate > 0.0
  {
    SetupIsValid(maxWorkers, rate, Planned(rate, duration));
    Setup(Planned(rate, duration), QueueBound(maxWorkers), WorkerCount(maxWorkers, rate))
  }

  /** An accepted configuration, one worker for two requests, has such a run. */
  lemma RunCanHang()
    ensures exists states :: IsRun(SetupOf(1, 60.0, 2.0), states) && Hung(states[|states| - 1])
  {
    assert SetupOf(1, 60.0, 2.0) == Setup(2, 2, 1);
    HangsExactly(SetupOf(1, 60.0, 2.0));
  }

  /** What became of the requests, in the order in which they finished. */
  function OutcomesOf(outcome: nat -> Outcome, results: seq<nat>): (r: seq<Outcome>)
    ensures |r| == |results| && forall i :: 0 <= i < |results| ==> r[i] == outcome(results[i])
  {
    seq(|results|, i requires 0 <= i < |results| => outcome(results[i]))
  }

  /**
   Whatever the requests bring and however producer and workers interleave: a run that returns gives a
   profile whose error and check rates lie in [0, 1] and add up to 1, and whose distribution adds up to
   the planned requests, each of which is counted as one result or one drop.
   */
  lemma ReturnedRunProfile(maxWorkers: int, rate: real, duration: real, states: seq<State>, outcome: nat -> Outcome)
    requires 1 <= maxWorkers <= 1000 && rate > 0.0
    requires IsRun(SetupOf(maxWorkers, rate, duration), states) && states[|states| - 1].phase.Returned?
    ensures var s := states[|states| - 1];
            var planned := Planned(rate, duration);
            var t := BuildTotals(planned, OutcomesOf(outcome, s.results), |s.dropped|);
            && 0.0 <= t.errorRate <= 1.0 && 0.0 <= t.checkRate <= 1.0 && t.errorRate + t.checkRate == 1.0
            && Sum(t.distribution) == planned && t.requestCount + t.dropped == planned
            && t.errorRate * planned as real == (|Unanswered(OutcomesOf(outcome, s.results))| + |s.dropped|) as real
            && forall j: nat :: Occurrences(s.results, j) + Occurrences(s.dropped, j) == if j < planned then 1 else 0
  {
    hide Planned;
    hide Occurrences;
    hide BuildTotals;
    var c := SetupOf(maxWorkers, rate, duration);
    var s := states[|states| - 1];
    SetupIsValid(maxWorkers, rate, Planned(rate, duration));
    forall j: nat ensures Occurrences(s.results, j) + Occurrences(s.dropped, j) == if j < c.count then 1 else 0 {
      ReturnedRunIsComplete(c, states, j);
    }
    ReturnedRunIsComplete(c, states, 0);
    CompleteTotals(c.count, OutcomesOf(outcome, s.results), |s.dropped|);
    RatesMean(c.count, OutcomesOf(outcome, s.results), |s.dropped|);
  }

  // ---------------------------------------------------------------- percentiles

  /** `_percentile` on an ordered list, for a fraction in (0, 1]: the nearest-rank value. */
  function Percentile(values: seq<real>, fraction: real): (r: real)
    requires 0.0 < fraction <= 1.0
    ensures values == [] ==> r == 0.0
    ensures values != [] ==>
              exists i :: 0 <= i < |values| && r == values[i]
                && (i as real) < |values| as real * fraction <= (i + 1) as real
  {
    if values == [] then 0.0
    else
      var rank := Ceil(|values| as real * fraction);
      var i := if rank - 1 >= 0 then rank - 1 else 0;
      RankInRange(|values|, fraction);
      values[i]
  }

  lemma RankInRange(n: nat, fraction: real)
    requires n >= 1 && 0.0 < fraction <= 1.0
    ensures 1 <= Ceil(n as real * fraction) <= n
    ensures (Ceil(n as real * fraction) - 1) as real < n as real * fraction <= Ceil(n as real * fraction) as real
  {
    var x := n as real * fraction;
    assert 0.0 < x <= n as real;
  }
}
