/** What every run of the dispatcher does: safety, progress, termination and the way it ends. */
module DispatchTheorems {
  import opened Wrappers
  import opened Tasks
  import opened Dispatch
  import opened DispatchInvariant

  // ---- Dispatch order ----

  /**
   * In every reachable state the tasks dispatched so far form the beginning of a
   * topological order: no task twice, each after all its dependencies, and those
   * dependencies have settled.
   */
  lemma {:induction false} DispatchFollowsDependencies(tasks: seq<Task>, cap: nat, run: seq<State>, k: nat)
    requires UniqueIds(tasks) && IsRun(tasks, cap, run) && k < |run|
    ensures AllBelow(run[k].v.started, |tasks|)
    ensures Distinct(StartedIds(tasks, run[k].v.started))
    ensures DependenciesFirst(GraphOf(tasks), StartedIds(tasks, run[k].v.started))
    ensures forall j, d :: 0 <= j < |run[k].v.started| && d in tasks[run[k].v.started[j]].dependencies ==>
              d in run[k].v.completed
  {
    RunHolds(tasks, cap, run, k);
    StartedIsOrdered(tasks, run[k].v);
  }

  lemma StartedIsOrdered(tasks: seq<Task>, v: Vars)
    requires UniqueIds(tasks) && StartedInv(tasks, v) && OrderInv(tasks, v)
    ensures Distinct(StartedIds(tasks, v.started))
    ensures DependenciesFirst(GraphOf(tasks), StartedIds(tasks, v.started))
  {
    var ids := StartedIds(tasks, v.started);
    forall i, j | 0 <= i < j < |ids| ensures ids[i] != ids[j] {
      assert v.started[i] != v.started[j];
    }
    forall i, d | 0 <= i < |ids| && d in Dependencies(GraphOf(tasks), ids[i]) ensures d in ids[..i] {
      GraphHasEveryTask(tasks, v.started[i]);
      assert StartedIds(tasks, v.started[..i]) == ids[..i];
    }
  }

  // ---- Lanes ----

  ghost function Holders(v: Vars): set<nat> {
    set i | i in v.phase && HasLane(v, i)
  }

  function FreeLanes(pool: seq<bool>): (n: nat)
    ensures n <= |pool|
  {
    if pool == [] then 0
    else FreeLanes(pool[..|pool| - 1]) + if pool[|pool| - 1] then 1 else 0
  }

  ghost function TakenLanes(pool: seq<bool>): set<nat> {
    set l: nat | l < |pool| && !pool[l]
  }

  lemma {:induction false} FreeAndTaken(pool: seq<bool>)
    ensures FreeLanes(pool) + |TakenLanes(pool)| == |pool|
  {
    if pool == [] {
      assert TakenLanes(pool) == {};
    } else {
      var n := |pool| - 1;
      FreeAndTaken(pool[..n]);
      if pool[n] {
        assert TakenLanes(pool) == TakenLanes(pool[..n]);
      } else {
        assert TakenLanes(pool) == TakenLanes(pool[..n]) + {n};
      }
    }
  }

  /** Sets in one-to-one correspondence have the same size. */
  lemma {:induction false} SameSize(a: set<nat>, b: set<nat>, f: map<nat, nat>)
    requires f.Keys == a && f.Values == b
    requires forall i, j :: i in a && j in a && f[i] == f[j] ==> i == j
    ensures |a| == |b|
    decreases |a|
  {
    if a == {} {
      assert b == {};
    } else {
      var i :| i in a;
      var g := f - {i};
      assert g.Values == b - {f[i]} by {
        forall y | y in b - {f[i]} ensures y in g.Values {
          var x :| x in f && f[x] == y;
          assert x in g && g[x] == y;
        }
      }
      SameSize(a - {i}, b - {f[i]}, g);
    }
  }

  lemma TakenLanesAreHeld(cap: nat, v: Vars)
    requires LaneInv(cap, v)
    ensures FreeLanes(v.pool) + |Holders(v)| == cap
  {
    FreeAndTaken(v.pool);
    var f := map i | i in Holders(v) :: v.phase[i].lane.value;
    forall l: nat | l in TakenLanes(v.pool) ensures l in f.Values {
      assert l < cap && !v.pool[l];
      var i: nat :| Holds(v, i, l);
      assert i in f && f[i] == l;
    }
    forall l | l in f.Values ensures l in TakenLanes(v.pool) {
      var i :| i in f && f[i] == l;
      assert Holds(v, i, l);
    }
    assert f.Values == TakenLanes(v.pool);
    SameSize(Holders(v), TakenLanes(v.pool), f);
  }

  /**
   * Lane conservation in every reachable state: at most `cap` tasks are active,
   * free lanes and lane holders add up to the pool, no lane has two holders, and
   * `acquire` finds a lane whenever `executeAll` calls it.
   */
  lemma LanesAreConserved(tasks: seq<Task>, cap: nat, run: seq<State>, k: nat)
    requires UniqueIds(tasks) && IsRun(tasks, cap, run) && k < |run|
    ensures |run[k].v.active| <= cap
    ensures FreeLanes(run[k].v.pool) + |Holders(run[k].v)| == cap
    ensures forall i: nat, j: nat, l: nat :: Holds(run[k].v, i, l) && Holds(run[k].v, j, l) ==> i == j
    ensures run[k].pc.Dispatching? ==> FirstFree(run[k].v.pool, 0).Some?
    ensures run[k].pc.Exited? || run[k].pc.Broke? ==> FreeLanes(run[k].v.pool) == cap
  {
    RunHolds(tasks, cap, run, k);
    var s := run[k];
    TakenLanesAreHeld(cap, s.v);
    if s.pc.Dispatching? {
      LaneIsFree(tasks, cap, s.v);
    } else if s.pc.Exited? || s.pc.Broke? {
      NoHoldersAtEnd(tasks, s.v);
    }
  }

  lemma NoHoldersAtEnd(tasks: seq<Task>, v: Vars)
    requires StartedInv(tasks, v) && ActiveInv(tasks, v) && v.active == map[] && AcquiredOnly(v, {})
    ensures Holders(v) == {}
  {
    if i :| i in Holders(v) {
      LiveIsStarted(tasks, v, i);
      LiveIsActive(tasks, v, i);
    }
  }

  // ---- Termination ----

  function Weight(v: Vars, i: nat): nat {
    if i !in v.phase then 5
    else match v.phase[i]
      case Acquired(_) => 4
      case Running(_) => 3
      case Settled(_) => 2
      case Released => 1
      case Dropped => 0
  }

  /** The steps that tasks below `n` still have to take. */
  function Work(v: Vars, n: nat): nat {
    if n == 0 then 0 else Work(v, n - 1) + Weight(v, n - 1)
  }

  function Measure(tasks: seq<Task>, s: State): nat {
    2 * Work(s.v, |tasks|) + if RaceWon(s) then 1 else 0
  }

  lemma {:induction false} WorkFalls(v: Vars, v': Vars, i: nat, n: nat)
    requires forall j: nat :: j != i ==> Weight(v', j) == Weight(v, j)
    requires Weight(v', i) == Weight(v, i) - 1
    ensures Work(v', n) == Work(v, n) - if i < n then 1 else 0
  {
    if n > 0 {
      WorkFalls(v, v', i, n - 1);
    }
  }

  lemma NewAwaitIsNotWon(tasks: seq<Task>, cap: nat, v: Vars, ready: seq<nat>)
    requires ActiveInv(tasks, v)
    ensures InnerHead(cap, v, ready).v == v && !RaceWon(InnerHead(cap, v, ready))
  {
  }

  lemma PhaseChangeLowersMeasure(tasks: seq<Task>, v: Vars, v': Vars, i: nat)
    requires i < |tasks| && Weight(v', i) == Weight(v, i) - 1
    requires forall j: nat :: j != i ==> Weight(v', j) == Weight(v, j)
    ensures Work(v', |tasks|) == Work(v, |tasks|) - 1
  {
    WorkFalls(v, v', i, |tasks|);
  }

  lemma LaunchLowersMeasure(tasks: seq<Task>, cap: nat, s: State)
    requires UniqueIds(tasks) && ActiveInv(tasks, s.v)
    requires s.pc.Acquiring? && s.pc.task < |tasks| && s.pc.task in s.v.phase && s.v.phase[s.pc.task].Acquired?
    ensures Measure(tasks, InnerHead(cap, Launch(tasks, s.v, s.pc.task), s.pc.rest)) < Measure(tasks, s)
  {
    var task := s.pc.task;
    var v' := Launch(tasks, s.v, task);
    assert InnerHead(cap, v', s.pc.rest).v == v' && !RaceWon(InnerHead(cap, v', s.pc.rest)) by {
      LaunchKeepsActive(tasks, s.v, task);
      NewAwaitIsNotWon(tasks, cap, v', s.pc.rest);
    }
    LaunchLowersWork(tasks, s.v, task);
  }

  lemma LaunchLowersWork(tasks: seq<Task>, v: Vars, task: nat)
    requires task < |tasks| && task in v.phase && v.phase[task].Acquired?
    ensures Work(Launch(tasks, v, task), |tasks|) == Work(v, |tasks|) - 1
  {
    PhaseChangeLowersMeasure(tasks, v, Launch(tasks, v, task), task);
  }

  lemma BeginLowersMeasure(tasks: seq<Task>, s: State)
    requires s.pc.Dispatching? && s.pc.task < |tasks| && s.pc.task !in s.v.phase
    ensures Measure(tasks, State(Acquiring(s.pc.task, s.pc.rest), Begin(s.v, s.pc.task))) < Measure(tasks, s)
  {
    PhaseChangeLowersMeasure(tasks, s.v, Begin(s.v, s.pc.task), s.pc.task);
  }

  lemma CallbackLowersMeasure(tasks: seq<Task>, s: State, s': State)
    requires CallbackStep(tasks, s, s')
    ensures Measure(tasks, s') < Measure(tasks, s)
  {
    if r :| SettleStep(tasks, s, s', r) {
      PhaseChangeLowersMeasure(tasks, s.v, s'.v, r.task);
    } else if i :| ReleaseStep(tasks, s, s', i) {
      PhaseChangeLowersMeasure(tasks, s.v, s'.v, i);
    } else {
      var i :| DropStep(tasks, s, s', i);
      PhaseChangeLowersMeasure(tasks, s.v, s'.v, i);
    }
  }

  /** Every step lowers the measure, so no run is infinite. */
  lemma {:induction false} StepLowersMeasure(tasks: seq<Task>, cap: nat, s: State, s': State)
    requires UniqueIds(tasks) && Inv(tasks, cap, s) && Step(tasks, cap, s, s')
    ensures Measure(tasks, s') < Measure(tasks, s)
  {
    if CallbackStep(tasks, s, s') {
      CallbackLowersMeasure(tasks, s, s');
    } else {
      match s.pc
      case Dispatching(task, rest) =>
        assert ([task] + rest)[0] == task;
        BeginLowersMeasure(tasks, s);
      case Acquiring(_, _) => LaunchLowersMeasure(tasks, cap, s);
      case Racing(_) => NewAwaitIsNotWon(tasks, cap, s.v, ReadyTasks(tasks, s.v, 0));
    }
  }

  lemma {:induction false} InitialWork(tasks: seq<Task>, cap: nat, n: nat)
    ensures Work(Initial(tasks, cap), n) == 5 * n
  {
    if n > 0 {
      InitialWork(tasks, cap, n - 1);
    }
  }

  /** However its callbacks interleave, a run has at most ten steps per task. */
  lemma RunsAreBounded(tasks: seq<Task>, cap: nat, run: seq<State>)
    requires UniqueIds(tasks) && IsRun(tasks, cap, run)
    ensures |run| <= 10 * |tasks| + 1
  {
    InitialWork(tasks, cap, |tasks|);
    NewAwaitIsNotWon(tasks, cap, Initial(tasks, cap), ReadyTasks(tasks, Initial(tasks, cap), 0));
    MeasureAlongRun(tasks, cap, run, |run| - 1);
  }

  lemma {:induction false} MeasureAlongRun(tasks: seq<Task>, cap: nat, run: seq<State>, k: nat)
    requires UniqueIds(tasks) && IsRun(tasks, cap, run) && k < |run|
    ensures Measure(tasks, run[k]) + k <= Measure(tasks, run[0])
  {
    if k > 0 {
      var j := k - 1;
      MeasureAlongRun(tasks, cap, run, j);
      NextLowersMeasure(tasks, cap, run, j, k);
    }
  }

  lemma NextLowersMeasure(tasks: seq<Task>, cap: nat, run: seq<State>, j: nat, k: nat)
    requires UniqueIds(tasks) && IsRun(tasks, cap, run) && k == j + 1 < |run|
    ensures Measure(tasks, run[k]) < Measure(tasks, run[j])
  {
    assert IsStepAt(tasks, cap, run, j, k);
    RunHolds(tasks, cap, run, j);
    StepLowersMeasure(tasks, cap, run[j], run[k]);
  }

  // ---- Progress ----

  /** `executeAll` never waits for something that cannot happen. */
  lemma {:induction false} StepIsPossible(tasks: seq<Task>, cap: nat, s: State) returns (s': State)
    requires UniqueIds(tasks) && Inv(tasks, cap, s) && !s.pc.Exited? && !s.pc.Broke?
    ensures Step(tasks, cap, s, s')
  {
    match s.pc
    case Dispatching(task, rest) =>
      s' := State(Acquiring(task, rest), Begin(s.v, task));
      assert ResumeStep(tasks, cap, s, s');
    case Acquiring(task, rest) =>
      LiveIsStarted(tasks, s.v, task);
      s' := InnerHead(cap, Launch(tasks, s.v, task), rest);
      assert ResumeStep(tasks, cap, s, s');
    case Racing(on) =>
      var i :| i in on;
      LiveIsStarted(tasks, s.v, i);
      match s.v.phase[i] {
        case Running(_) =>
          var r := SubagentResult(i, Failed, 0);
          s' := State(s.pc, Settle(tasks, s.v, r));
          assert SettleStep(tasks, s, s', r);
        case Settled(_) =>
          s' := State(s.pc, Release(s.v, i));
          assert ReleaseStep(tasks, s, s', i);
        case Released =>
          s' := State(s.pc, Drop(tasks, s.v, i));
          assert DropStep(tasks, s, s', i);
        case Dropped =>
          s' := OuterHead(tasks, cap, s.v);
          assert ResumeStep(tasks, cap, s, s');
      }
  }

  ghost predicate IsMaximalRun(tasks: seq<Task>, cap: nat, run: seq<State>) {
    IsRun(tasks, cap, run) && !CanStep(tasks, cap, run[|run| - 1])
  }

  /** A run that cannot be continued has left the loop. */
  lemma MaximalRunsEnd(tasks: seq<Task>, cap: nat, run: seq<State>)
    requires UniqueIds(tasks) && IsMaximalRun(tasks, cap, run)
    ensures run[|run| - 1].pc.Exited? || run[|run| - 1].pc.Broke?
  {
    var last := |run| - 1;
    var s := run[last];
    RunHolds(tasks, cap, run, last);
    if !s.pc.Exited? && !s.pc.Broke? {
      var s' := StepIsPossible(tasks, cap, s);
    }
  }

  // ---- How a run ends ----

  /** Exactly one result for each task, in the order the tasks settled. */
  ghost predicate OneResultPerTask(tasks: seq<Task>, results: seq<SubagentResult>) {
    && |results| == |tasks|
    && (forall i :: 0 <= i < |tasks| ==> ResultFor(results, i))
    && (forall j, k :: 0 <= j < k < |results| ==> results[j].task != results[k].task)
  }

  ghost function Below(n: nat): (all: set<nat>)
    ensures forall i: nat :: i in all <==> i < n
    ensures |all| == n
  {
    if n == 0 then {} else Below(n - 1) + {n - 1}
  }

  ghost function Elements(s: seq<nat>): (all: set<nat>)
    ensures forall i :: i in all <==> i in s
    ensures NoRepeats(s) ==> |all| == |s|
  {
    if s == [] then {}
    else
      var n := |s| - 1;
      assert s == s[..n] + [s[n]];
      Elements(s[..n]) + {s[n]}
  }

  lemma DistinctFills(s: seq<nat>, n: nat)
    requires NoRepeats(s) && AllBelow(s, n)
    requires forall i: nat :: i < n ==> i in s
    ensures |s| == n
  {
    assert Below(n) == Elements(s);
  }

  lemma AllHaveResults(tasks: seq<Task>, v: Vars)
    requires StartedInv(tasks, v) && ResultInv(tasks, v)
    requires forall i :: 0 <= i < |tasks| ==> HasResult(v, i)
    ensures OneResultPerTask(tasks, v.results)
  {
    var which := seq(|v.results|, k requires 0 <= k < |v.results| => v.results[k].task);
    forall i: nat | i < |tasks| ensures i in which {
      assert HasResult(v, i);
      var k :| 0 <= k < |v.results| && v.results[k].task == i;
      assert which[k] == i;
    }
    forall k | 0 <= k < |which| ensures which[k] < |tasks| {
      assert Finished(v, v.results[k].task);
      LiveIsStarted(tasks, v, which[k]);
    }
    DistinctFills(which, |tasks|);
    forall i | 0 <= i < |tasks| ensures ResultFor(v.results, i) {
      assert HasResult(v, i);
    }
  }

  lemma ExitHasAllResults(tasks: seq<Task>, cap: nat, s: State)
    requires UniqueIds(tasks) && Inv(tasks, cap, s) && s.pc.Exited?
    ensures OneResultPerTask(tasks, s.v.results)
    ensures IsTopologicalOrder(GraphOf(tasks), StartedIds(tasks, s.v.started))
    ensures ValidDependencies(tasks) && (tasks == [] || cap > 0)
  {
    AllAreFinished(tasks, s.v);
    AllHaveResults(tasks, s.v);
    AllInOrder(tasks, s.v);
    AllDependenciesExist(tasks, s.v);
  }

  lemma AllAreFinished(tasks: seq<Task>, v: Vars)
    requires StartedInv(tasks, v) && ActiveInv(tasks, v) && ResultInv(tasks, v) && AcquiredOnly(v, {})
    requires v.pending == {} && v.active == map[]
    ensures forall i :: 0 <= i < |tasks| ==> i in v.started && HasResult(v, i)
  {
    forall i | 0 <= i < |tasks| ensures i in v.started && HasResult(v, i) {
      assert tasks[i].id !in v.pending && tasks[i].id !in v.active;
      assert Launched(v, i) && !Live(v, i);
    }
  }

  lemma AllInOrder(tasks: seq<Task>, v: Vars)
    requires UniqueIds(tasks) && StartedInv(tasks, v) && OrderInv(tasks, v)
    requires forall i :: 0 <= i < |tasks| ==> i in v.started
    ensures IsTopologicalOrder(GraphOf(tasks), StartedIds(tasks, v.started))
  {
    StartedIsOrdered(tasks, v);
    forall id | id in GraphOf(tasks) ensures id in StartedIds(tasks, v.started) {
      AllIdsStarted(tasks, v.started, id);
    }
  }

  lemma AllIdsStarted(tasks: seq<Task>, started: seq<nat>, id: Id)
    requires AllBelow(started, |tasks|) && id in GraphOf(tasks)
    requires forall i :: 0 <= i < |tasks| ==> i in started
    ensures id in StartedIds(tasks, started)
  {
    GraphKeys(tasks, id);
    var i :| 0 <= i < |tasks| && tasks[i].id == id;
    assert i in started;
    var k :| 0 <= k < |started| && started[k] == i;
    assert StartedIds(tasks, started)[k] == id;
  }

  lemma AllDependenciesExist(tasks: seq<Task>, v: Vars)
    requires AllBelow(v.started, |tasks|) && OrderInv(tasks, v) && ResultInv(tasks, v)
    requires forall i :: 0 <= i < |tasks| ==> i in v.started
    ensures ValidDependencies(tasks)
  {
    forall i, d | 0 <= i < |tasks| && d in tasks[i].dependencies ensures HasId(tasks, d) {
      assert i in v.started;
      var k :| 0 <= k < |v.started| && v.started[k] == i;
      assert Satisfied(tasks, v, v.started[k]);
    }
  }

  ghost predicate DependsInto(g: Graph, id: Id, ids: set<Id>) {
    exists d :: d in ids && d in Dependencies(g, id)
  }

  /** Every id of the set depends on an id of the set. */
  ghost predicate IsStuck(g: Graph, ids: set<Id>) {
    ids != {} && forall id {:trigger DependsInto(g, id, ids)} :: id in ids ==> DependsInto(g, id, ids)
  }

  lemma {:induction false} StuckWalk(g: Graph, ids: set<Id>, n: nat) returns (walk: seq<Id>)
    requires IsStuck(g, ids)
    ensures |walk| == n + 1 && IsWalk(g, walk) && forall k :: 0 <= k < |walk| ==> walk[k] in ids
  {
    if n == 0 {
      var id :| id in ids;
      walk := [id];
    } else {
      var shorter := StuckWalk(g, ids, n - 1);
      assert DependsInto(g, shorter[n - 1], ids);
      var d :| d in ids && d in Dependencies(g, shorter[n - 1]);
      walk := shorter + [d];
    }
  }

  lemma SubwalkCloses(g: Graph, walk: seq<Id>, i: nat, j: nat)
    requires IsWalk(g, walk) && i < j < |walk| && walk[i] == walk[j]
    ensures IsClosedWalk(g, walk[i..j + 1])
  {
    var closed := walk[i..j + 1];
    forall k, m | 0 <= k < m < |closed| && m == k + 1 ensures closed[m] in Dependencies(g, closed[k]) {
      assert closed[k] == walk[i + k] && closed[m] == walk[i + m];
    }
  }

  /** A walk longer than the set it stays in meets some id twice. */
  lemma StuckSetHasCycle(g: Graph, ids: set<Id>)
    requires IsStuck(g, ids)
    ensures !Acyclic(g)
  {
    var walk := StuckWalk(g, ids, |ids|);
    if Distinct(walk) {
      DistinctFits(walk, ids);
    }
    var i, j :| 0 <= i < j < |walk| && walk[i] == walk[j];
    SubwalkCloses(g, walk, i, j);
  }

  /** A task that is not ready when nothing is active waits for another such task. */
  lemma BlockedTaskDependsOnBlocked(tasks: seq<Task>, v: Vars, i: nat)
    requires UniqueIds(tasks) && ValidDependencies(tasks)
    requires StartedInv(tasks, v) && ActiveInv(tasks, v) && ResultInv(tasks, v)
    requires v.active == map[] && AcquiredOnly(v, {})
    requires i < |tasks| && tasks[i].id in v.pending && !IsReady(tasks, v, i)
    ensures DependsInto(GraphOf(tasks), tasks[i].id, v.pending)
  {
    GraphHasEveryTask(tasks, i);
    var d :| d in tasks[i].dependencies && d !in v.completed;
    assert HasId(tasks, d);
    var j :| 0 <= j < |tasks| && tasks[j].id == d;
    if Launched(v, j) {
      assert !Finished(v, j);
      LiveIsActive(tasks, v, j);
    }
    assert d in v.pending && d in Dependencies(GraphOf(tasks), tasks[i].id);
  }

  lemma {:induction false} BreakMeansCycle(tasks: seq<Task>, cap: nat, s: State)
    requires UniqueIds(tasks) && Inv(tasks, cap, s) && s.pc.Broke?
    requires ValidDependencies(tasks) && cap > 0
    ensures !Acyclic(GraphOf(tasks))
  {
    forall id | id in s.v.pending ensures DependsInto(GraphOf(tasks), id, s.v.pending) {
      assert HasId(tasks, id);
      var i :| 0 <= i < |tasks| && tasks[i].id == id;
      BlockedTaskDependsOnBlocked(tasks, s.v, i);
    }
    StuckSetHasCycle(GraphOf(tasks), s.v.pending);
  }

  /**
   * How every maximal run ends. `executeAll` leaves its loop through the guard
   * exactly when the dependencies exist and are acyclic (and it may run anything
   * at all); then there is one result per task, the dispatch order was a
   * topological order and every lane is free again. Otherwise it ends at the
   * break, which an accepted task list can never reach.
   */
  lemma {:induction false} ExecuteAllEnds(tasks: seq<Task>, cap: nat, run: seq<State>)
    requires UniqueIds(tasks) && IsMaximalRun(tasks, cap, run)
    ensures run[|run| - 1].pc.Exited? <==>
            tasks == [] || (cap > 0 && ValidDependencies(tasks) && Acyclic(GraphOf(tasks)))
    ensures run[|run| - 1].pc.Broke? <==> !run[|run| - 1].pc.Exited?
    ensures run[|run| - 1].pc.Exited? ==>
              && OneResultPerTask(tasks, run[|run| - 1].v.results)
              && AllBelow(run[|run| - 1].v.started, |tasks|)
              && IsTopologicalOrder(GraphOf(tasks), StartedIds(tasks, run[|run| - 1].v.started))
              && FreeLanes(run[|run| - 1].v.pool) == cap
  {
    var last := |run| - 1;
    MaximalRunsEnd(tasks, cap, run);
    RunHolds(tasks, cap, run, last);
    LanesAreConserved(tasks, cap, run, last);
    EndState(tasks, cap, run[last]);
  }

  lemma EndState(tasks: seq<Task>, cap: nat, s: State)
    requires UniqueIds(tasks) && Inv(tasks, cap, s) && (s.pc.Exited? || s.pc.Broke?)
    ensures s.pc.Exited? <==> tasks == [] || (cap > 0 && ValidDependencies(tasks) && Acyclic(GraphOf(tasks)))
    ensures s.pc.Exited? ==> OneResultPerTask(tasks, s.v.results)
    ensures s.pc.Exited? ==> IsTopologicalOrder(GraphOf(tasks), StartedIds(tasks, s.v.started))
  {
    if s.pc.Exited? {
      ExitHasAllResults(tasks, cap, s);
      TopologicalOrderIsAcyclic(GraphOf(tasks), StartedIds(tasks, s.v.started));
    } else if cap > 0 && ValidDependencies(tasks) {
      var id :| id in s.v.pending;
      assert HasId(tasks, id);
      BreakMeansCycle(tasks, cap, s);
    } else {
      var id :| id in s.v.pending;
      assert HasId(tasks, id);
    }
  }

  // ---- Longer runs ----

  ghost predicate EndsAt(tasks: seq<Task>, cap: nat, run: seq<State>, s: State) {
    IsRun(tasks, cap, run) && run[|run| - 1] == s
  }

  lemma RunExtends(tasks: seq<Task>, cap: nat, run: seq<State>, s: State, s': State)
    requires EndsAt(tasks, cap, run, s) && Step(tasks, cap, s, s')
    ensures EndsAt(tasks, cap, run + [s'], s')
  {
    var longer := run + [s'];
    forall j, k | 0 <= j && k == j + 1 && k < |longer| ensures IsStepAt(tasks, cap, longer, j, k) {
      if k < |run| {
        assert IsStepAt(tasks, cap, run, j, k);
      }
    }
  }

  lemma EndHolds(tasks: seq<Task>, cap: nat, run: seq<State>, s: State)
    requires UniqueIds(tasks) && EndsAt(tasks, cap, run, s)
    ensures Inv(tasks, cap, s)
  {
    var last := |run| - 1;
    RunHolds(tasks, cap, run, last);
  }

  lemma RunGrows(tasks: seq<Task>, cap: nat, run: seq<State>, s: State, s': State)
    requires UniqueIds(tasks) && EndsAt(tasks, cap, run, s) && Step(tasks, cap, s, s')
    ensures EndsAt(tasks, cap, run + [s'], s')
    ensures Measure(tasks, s') < Measure(tasks, s)
  {
    RunExtends(tasks, cap, run, s, s');
    EndHolds(tasks, cap, run, s);
    StepLowersMeasure(tasks, cap, s, s');
  }

  /** Every run can be continued until it ends. */
  lemma {:induction false} Complete(tasks: seq<Task>, cap: nat, run: seq<State>, s: State) returns (full: seq<State>)
    requires UniqueIds(tasks) && EndsAt(tasks, cap, run, s)
    ensures IsMaximalRun(tasks, cap, full) && run <= full
    decreases Measure(tasks, s)
  {
    if CanStep(tasks, cap, s) {
      var s' :| Step(tasks, cap, s, s');
      RunGrows(tasks, cap, run, s, s');
      full := Complete(tasks, cap, run + [s'], s');
    } else {
      full := run;
    }
  }

  lemma StepKeepsResults(tasks: seq<Task>, cap: nat, s: State, s': State)
    requires Step(tasks, cap, s, s')
    ensures s.v.results <= s'.v.results
  {
  }

  /** Results are only added. */
  lemma {:induction false} ResultsGrow(tasks: seq<Task>, cap: nat, run: seq<State>, i: nat, j: nat)
    requires IsRun(tasks, cap, run) && i <= j < |run|
    ensures run[i].v.results <= run[j].v.results
  {
    if i < j {
      var k := j - 1;
      ResultsGrow(tasks, cap, run, i, k);
      assert IsStepAt(tasks, cap, run, k, j);
      StepKeepsResults(tasks, cap, run[k], run[j]);
    }
  }
}
