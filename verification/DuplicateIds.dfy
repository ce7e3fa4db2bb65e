/**
 * Why unique ids matter: neither the decomposer nor the manager checks them, and
 * for every list of ids with a repeated one there are accepted tasks, one of
 * which a run loses.
 */
module DuplicateIds {
  import opened Wrappers
  import opened Tasks
  import opened Dispatch
  import opened DispatchInvariant
  import opened DispatchTheorems

  const A: Id := "a"

  function Repeated(): seq<Task> {
    [Task(A, []), Task(A, [])]
  }

  function After(phase: Phase, pending: set<Id>, results: seq<SubagentResult>, free: bool): Vars {
    Vars([0], map[0 := phase], pending, if results == [] then {} else {A},
         if phase.Acquired? || phase.Dropped? then map[] else map[A := 0], results, [free])
  }

  /** With one lane: the first task runs, and dropping it also empties `pending` and `active`. */
  function LosingRun(): seq<State> {
    var done := [SubagentResult(0, Completed, 0)];
    [ State(Dispatching(0, [1]), Vars([], map[], {A}, {}, map[], [], [true])),
      State(Acquiring(0, [1]), After(Acquired(Some(0)), {A}, [], false)),
      State(Racing({0}), After(Running(Some(0)), {}, [], false)),
      State(Racing({0}), After(Settled(Some(0)), {}, done, false)),
      State(Racing({0}), After(Released, {}, done, true)),
      State(Racing({0}), After(Dropped, {}, done, true)),
      State(Exited, After(Dropped, {}, done, true)) ]
  }

  lemma LosingRunStarts()
    ensures LosingRun()[0] == OuterHead(Repeated(), 1, Initial(Repeated(), 1))
  {
    var tasks, v := Repeated(), Initial(Repeated(), 1);
    assert tasks[0].id in Ids(tasks);
    assert v == LosingRun()[0].v;
    assert IsReady(tasks, v, 0) && IsReady(tasks, v, 1);
    assert ReadyTasks(tasks, v, 2) == [];
    assert ReadyTasks(tasks, v, 1) == [1];
    assert ReadyTasks(tasks, v, 0) == [0, 1];
  }

  lemma LosingRunLaunches()
    ensures Step(Repeated(), 1, LosingRun()[0], LosingRun()[1])
    ensures Step(Repeated(), 1, LosingRun()[1], LosingRun()[2])
  {
    var tasks, run := Repeated(), LosingRun();
    assert FirstFree([true], 0) == Some(0);
    assert ResumeStep(tasks, 1, run[0], run[1]);
    var v := Launch(tasks, run[1].v, 0);
    assert v == run[2].v;
    assert v.active.Keys == {A} && |v.active| == 1;
    assert v.active.Values == {0} by { assert v.active[A] == 0; }
    assert ResumeStep(tasks, 1, run[1], run[2]);
  }

  lemma LosingRunSettles()
    ensures Step(Repeated(), 1, LosingRun()[2], LosingRun()[3])
    ensures Step(Repeated(), 1, LosingRun()[3], LosingRun()[4])
  {
    var tasks, run := Repeated(), LosingRun();
    assert SettleStep(tasks, run[2], run[3], SubagentResult(0, Completed, 0));
    assert ReleaseStep(tasks, run[3], run[4], 0);
  }

  lemma LosingRunExits()
    ensures Step(Repeated(), 1, LosingRun()[4], LosingRun()[5])
    ensures Step(Repeated(), 1, LosingRun()[5], LosingRun()[6])
  {
    var tasks, run := Repeated(), LosingRun();
    assert DropStep(tasks, run[4], run[5], 0);
    assert 0 in run[5].pc.on;
    assert ResumeStep(tasks, 1, run[5], run[6]);
  }

  lemma RepeatedIsAccepted()
    ensures ValidDependencies(Repeated()) && Acyclic(GraphOf(Repeated()))
  {
    assert GraphOf(Repeated()) == map[A := []] by {
      assert GraphOf(Repeated()[..1]) == map[A := []];
    }
    TopologicalOrderIsAcyclic(GraphOf(Repeated()), [A]);
  }

  lemma SixSteps(tasks: seq<Task>, cap: nat, run: seq<State>)
    requires |run| == 7 && run[0] == OuterHead(tasks, cap, Initial(tasks, cap))
    requires Step(tasks, cap, run[0], run[1]) && Step(tasks, cap, run[1], run[2])
    requires Step(tasks, cap, run[2], run[3]) && Step(tasks, cap, run[3], run[4])
    requires Step(tasks, cap, run[4], run[5]) && Step(tasks, cap, run[5], run[6])
    ensures IsRun(tasks, cap, run)
  {
    forall j, k | 0 <= j && k == j + 1 && k < |run| ensures IsStepAt(tasks, cap, run, j, k) {
      assert j in {0, 1, 2, 3, 4, 5};
    }
  }

  lemma LosingRunIsRun()
    ensures IsRun(Repeated(), 1, LosingRun())
  {
    LosingRunStarts();
    LosingRunLaunches();
    LosingRunSettles();
    LosingRunExits();
    SixSteps(Repeated(), 1, LosingRun());
  }

  /**
   * The list passes both checks of the decomposer, yet a run leaves the loop
   * through its guard with one result for two tasks.
   */
  lemma RepeatedIdLosesATask()
    ensures ValidDependencies(Repeated()) && Acyclic(GraphOf(Repeated()))
    ensures IsRun(Repeated(), 1, LosingRun()) && LosingRun()[|LosingRun()| - 1].pc == Exited
    ensures |LosingRun()[|LosingRun()| - 1].v.results| < |Repeated()|
  {
    RepeatedIsAccepted();
    LosingRunIsRun();
  }

  // ---- For which ids no task is ever lost ----

  ghost predicate HaveIds(tasks: seq<Task>, ids: seq<Id>) {
    |tasks| == |ids| && forall k :: 0 <= k < |tasks| ==> tasks[k].id == ids[k]
  }

  ghost predicate NeverLosesATask(tasks: seq<Task>, cap: nat) {
    forall run: seq<State> :: IsRun(tasks, cap, run) && run[|run| - 1].pc.Exited? ==>
      OneResultPerTask(tasks, run[|run| - 1].v.results)
  }

  /** Whatever the dependencies, as long as the decomposer accepts them, and however many lanes there are. */
  ghost predicate AlwaysOneResult(ids: seq<Id>) {
    forall tasks: seq<Task>, cap: nat ::
      HaveIds(tasks, ids) && ValidDependencies(tasks) && Acyclic(GraphOf(tasks)) && cap > 0 ==>
        NeverLosesATask(tasks, cap)
  }

  function Others(ids: seq<Id>, id: Id): (others: seq<Id>)
    ensures forall d :: d in others <==> d in ids && d != id
  {
    if ids == [] then []
    else (if ids[0] == id then [] else [ids[0]]) + Others(ids[1..], id)
  }

  /** The task at `j` waits for all other ids; the rest wait for nothing. */
  function OneWaiter(ids: seq<Id>, j: nat): (tasks: seq<Task>)
    requires j < |ids|
    ensures HaveIds(tasks, ids)
    ensures forall k :: 0 <= k < |tasks| ==> tasks[k].dependencies == if k == j then Others(ids, ids[j]) else []
  {
    seq(|ids|, k requires 0 <= k < |ids| => Task(ids[k], if k == j then Others(ids, ids[j]) else []))
  }

  lemma {:induction false} GraphIsFromTask(tasks: seq<Task>, id: Id)
    ensures Dependencies(GraphOf(tasks), id) == []
         || exists k :: 0 <= k < |tasks| && tasks[k].id == id
                        && Dependencies(GraphOf(tasks), id) == tasks[k].dependencies
  {
    if tasks != [] {
      var n := |tasks| - 1;
      GraphIsFromTask(tasks[..n], id);
      assert tasks[n].id == id ==> Dependencies(GraphOf(tasks), id) == tasks[n].dependencies;
    }
  }

  lemma OneWaiterIsAccepted(ids: seq<Id>, j: nat)
    requires j < |ids|
    ensures ValidDependencies(OneWaiter(ids, j)) && Acyclic(GraphOf(OneWaiter(ids, j)))
  {
    var tasks := OneWaiter(ids, j);
    var g := GraphOf(tasks);
    forall k, d | 0 <= k < |tasks| && d in tasks[k].dependencies ensures HasId(tasks, d) {
      var m :| 0 <= m < |ids| && ids[m] == d;
      assert tasks[m].id == d;
    }
    forall id, d | d in Dependencies(g, id) ensures d != id && Dependencies(g, d) == [] {
      GraphIsFromTask(tasks, id);
      GraphIsFromTask(tasks, d);
    }
    forall walk ensures !IsClosedWalk(g, walk) {
      if IsWalk(g, walk) && |walk| >= 2 {
        FirstSteps(g, walk);
      }
    }
  }

  lemma FirstSteps(g: Graph, walk: seq<Id>)
    requires IsWalk(g, walk) && |walk| >= 2
    ensures walk[1] in Dependencies(g, walk[0])
    ensures |walk| > 2 ==> walk[2] in Dependencies(g, walk[1])
  {
  }

  /** Nothing is active, the tasks in `done` have completed one after another in the only lane. */
  ghost predicate IsQuiet(tasks: seq<Task>, done: seq<nat>, v: Vars) {
    && AllBelow(done, |tasks|) && NoRepeats(done)
    && v.started == done && v.active == map[] && v.pool == [true]
    && (forall i :: i in v.phase <==> i in done) && (forall i :: i in v.phase ==> v.phase[i] == Dropped)
    && (forall id :: id in v.completed <==> id in StartedIds(tasks, done))
    && v.pending == Ids(tasks) - v.completed
    && |v.results| == |done| && forall k :: 0 <= k < |done| ==> v.results[k].task == done[k]
  }

  /** The result of running a ready task to its end while nothing else runs. */
  function RunAlone(tasks: seq<Task>, v: Vars, t: nat): Vars
    requires t < |tasks|
  {
    Vars(v.started + [t], v.phase[t := Dropped], v.pending - {tasks[t].id}, v.completed + {tasks[t].id},
         map[], v.results + [SubagentResult(t, Completed, 0)], [true])
  }

  lemma RunAloneIsQuiet(tasks: seq<Task>, done: seq<nat>, v: Vars, t: nat)
    requires IsQuiet(tasks, done, v) && t < |tasks| && t !in done
    ensures IsQuiet(tasks, done + [t], RunAlone(tasks, v, t))
  {
    assert StartedIds(tasks, done + [t]) == StartedIds(tasks, done) + [tasks[t].id];
  }

  /** The states in which `t` is launched, settled, released and dropped. */
  function Alone(tasks: seq<Task>, v: Vars, t: nat, phase: Phase): State
    requires t < |tasks|
  {
    var u, id := RunAlone(tasks, v, t), tasks[t].id;
    State(Racing({t}), u.(phase := v.phase[t := phase],
                          completed := if phase.Running? then v.completed else u.completed,
                          results := if phase.Running? then v.results else u.results,
                          active := if phase.Dropped? then map[] else map[id := t],
                          pool := [phase.Released? || phase.Dropped?]))
  }

  lemma LaunchAlone(tasks: seq<Task>, v: Vars, t: nat, rest: seq<nat>)
    requires t < |tasks| && v.active == map[] && v.pool == [true]
    ensures Step(tasks, 1, State(Dispatching(t, rest), v), State(Acquiring(t, rest), Begin(v, t)))
    ensures Step(tasks, 1, State(Acquiring(t, rest), Begin(v, t)), Alone(tasks, v, t, Running(Some(0))))
  {
    var begun := Begin(v, t);
    assert FirstFree([true], 0) == Some(0);
    assert begun.pool == [false];
    assert ResumeStep(tasks, 1, State(Dispatching(t, rest), v), State(Acquiring(t, rest), begun));
    var launched := Launch(tasks, begun, t);
    assert launched.phase == v.phase[t := Running(Some(0))];
    assert launched == Alone(tasks, v, t, Running(Some(0))).v;
    assert launched.active.Values == {t} by { assert launched.active[tasks[t].id] == t; }
    assert |launched.active| == 1;
    assert ResumeStep(tasks, 1, State(Acquiring(t, rest), begun), Alone(tasks, v, t, Running(Some(0))));
  }

  lemma SettleAlone(tasks: seq<Task>, v: Vars, t: nat)
    requires t < |tasks|
    ensures Step(tasks, 1, Alone(tasks, v, t, Running(Some(0))), Alone(tasks, v, t, Settled(Some(0))))
    ensures Step(tasks, 1, Alone(tasks, v, t, Settled(Some(0))), Alone(tasks, v, t, Released))
  {
    var r, s := SubagentResult(t, Completed, 0), Alone(tasks, v, t, Settled(Some(0)));
    var running := Alone(tasks, v, t, Running(Some(0)));
    assert Settle(tasks, running.v, r).phase == s.v.phase;
    assert Settle(tasks, running.v, r).pending == s.v.pending;
    assert SettleStep(tasks, running, s, r);
    assert Release(s.v, t).phase == v.phase[t := Released];
    assert ReleaseStep(tasks, s, Alone(tasks, v, t, Released), t);
  }

  lemma DropAlone(tasks: seq<Task>, v: Vars, t: nat)
    requires t < |tasks|
    ensures Alone(tasks, v, t, Dropped).v == RunAlone(tasks, v, t)
    ensures Step(tasks, 1, Alone(tasks, v, t, Released), Alone(tasks, v, t, Dropped))
    ensures Step(tasks, 1, Alone(tasks, v, t, Dropped), OuterHead(tasks, 1, RunAlone(tasks, v, t)))
  {
    var released, dropped := Alone(tasks, v, t, Released), Alone(tasks, v, t, Dropped);
    assert Drop(tasks, released.v, t).phase == dropped.v.phase;
    assert DropStep(tasks, released, dropped, t);
    assert t in dropped.pc.on;
    assert ResumeStep(tasks, 1, dropped, OuterHead(tasks, 1, dropped.v));
  }

  /** One round of the loop: the first ready task runs alone. */
  lemma Round(tasks: seq<Task>, run: seq<State>, v: Vars, t: nat, rest: seq<nat>) returns (longer: seq<State>)
    requires t < |tasks| && v.active == map[] && v.pool == [true]
    requires EndsAt(tasks, 1, run, State(Dispatching(t, rest), v))
    ensures EndsAt(tasks, 1, longer, OuterHead(tasks, 1, RunAlone(tasks, v, t)))
  {
    LaunchAlone(tasks, v, t, rest);
    SettleAlone(tasks, v, t);
    DropAlone(tasks, v, t);
    longer := Extended(tasks, run, State(Dispatching(t, rest), v), State(Acquiring(t, rest), Begin(v, t)));
    longer := Extended(tasks, longer, State(Acquiring(t, rest), Begin(v, t)), Alone(tasks, v, t, Running(Some(0))));
    longer := Extended(tasks, longer, Alone(tasks, v, t, Running(Some(0))), Alone(tasks, v, t, Settled(Some(0))));
    longer := Extended(tasks, longer, Alone(tasks, v, t, Settled(Some(0))), Alone(tasks, v, t, Released));
    longer := Extended(tasks, longer, Alone(tasks, v, t, Released), Alone(tasks, v, t, Dropped));
    longer := Extended(tasks, longer, Alone(tasks, v, t, Dropped), OuterHead(tasks, 1, RunAlone(tasks, v, t)));
  }

  lemma Extended(tasks: seq<Task>, run: seq<State>, s: State, s': State) returns (longer: seq<State>)
    requires EndsAt(tasks, 1, run, s) && Step(tasks, 1, s, s')
    ensures EndsAt(tasks, 1, longer, s')
  {
    RunExtends(tasks, 1, run, s, s');
    longer := run + [s'];
  }

  /** The waiter is never the first ready task: while its id is pending an earlier task with that id is ready. */
  lemma NextIsNotTheWaiter(ids: seq<Id>, i: nat, j: nat, done: seq<nat>, v: Vars)
    requires i < j < |ids| && ids[i] == ids[j] && IsQuiet(OneWaiter(ids, j), done, v) && v.pending != {}
    ensures var ready := ReadyTasks(OneWaiter(ids, j), v, 0);
            ready != [] && ready[0] < |ids| && ready[0] != j && ready[0] !in done
  {
    var tasks := OneWaiter(ids, j);
    var ready := ReadyTasks(tasks, v, 0);
    forall k: nat | k < |tasks| && k != j && tasks[k].id in v.pending ensures k in ready {
      UnfinishedIsReady(tasks, done, v, k);
    }
    var id :| id in v.pending;
    var m :| 0 <= m < |tasks| && tasks[m].id == id;
    assert (if m == j then i else m) in ready;
    assert ready[0] in ready;
    if j in ready {
      ReadyWaiterIsLast(ids, j, done, v);
      assert tasks[i].id in v.pending;
      assert i in ready;
    }
  }

  lemma ReadyWaiterIsLast(ids: seq<Id>, j: nat, done: seq<nat>, v: Vars)
    requires j < |ids| && IsQuiet(OneWaiter(ids, j), done, v) && IsReady(OneWaiter(ids, j), v, j)
    ensures v.pending <= {ids[j]}
  {
    var tasks := OneWaiter(ids, j);
    forall id | id in v.pending ensures id == ids[j] {
      var m :| 0 <= m < |tasks| && tasks[m].id == id;
      assert ids[m] in ids && id !in tasks[j].dependencies;
    }
  }

  lemma UnfinishedIsReady(tasks: seq<Task>, done: seq<nat>, v: Vars, k: nat)
    requires IsQuiet(tasks, done, v) && k < |tasks| && tasks[k].id in v.pending && tasks[k].dependencies == []
    ensures IsReady(tasks, v, k)
  {
    forall m | 0 <= m < |done| ensures done[m] != k {
      assert StartedIds(tasks, done)[m] == tasks[done[m]].id;
    }
  }

  lemma MoreAreDone(done: seq<nat>, t: nat, n: nat)
    requires NoRepeats(done) && AllBelow(done, n) && t < n && t !in done
    ensures |done| < n
  {
    assert NoRepeats(done + [t]) && AllBelow(done + [t], n);
    assert Elements(done + [t]) <= Below(n);
    SubsetIsSmaller(Elements(done + [t]), Below(n));
  }

  lemma {:induction false} SubsetIsSmaller(a: set<nat>, b: set<nat>)
    requires a <= b
    ensures |a| <= |b|
  {
    if a != {} {
      var x :| x in a;
      SubsetIsSmaller(a - {x}, b - {x});
    }
  }

  /** The next round; it does not start the waiter. */
  lemma NextRound(ids: seq<Id>, i: nat, j: nat, done: seq<nat>, v: Vars, run: seq<State>)
    returns (t: nat, longer: seq<State>)
    requires i < j < |ids| && ids[i] == ids[j] && IsQuiet(OneWaiter(ids, j), done, v) && v.pending != {}
    requires EndsAt(OneWaiter(ids, j), 1, run, OuterHead(OneWaiter(ids, j), 1, v))
    ensures t < |ids| && t != j && |done| < |ids|
    ensures IsQuiet(OneWaiter(ids, j), done + [t], RunAlone(OneWaiter(ids, j), v, t))
    ensures EndsAt(OneWaiter(ids, j), 1, longer, OuterHead(OneWaiter(ids, j), 1, RunAlone(OneWaiter(ids, j), v, t)))
  {
    var tasks := OneWaiter(ids, j);
    var ready := ReadyTasks(tasks, v, 0);
    NextIsNotTheWaiter(ids, i, j, done, v);
    t := ready[0];
    MoreAreDone(done, t, |ids|);
    longer := Round(tasks, run, v, t, ready[1..]);
    RunAloneIsQuiet(tasks, done, v, t);
  }

  /** The waiter has no result in a quiet state in which it is not done. */
  lemma QuietHasNoResult(tasks: seq<Task>, done: seq<nat>, v: Vars, j: nat)
    requires IsQuiet(tasks, done, v) && j !in done
    ensures !ResultFor(v.results, j)
  {
    forall k | 0 <= k < |v.results| ensures v.results[k].task != j {
      assert v.results[k].task == done[k];
    }
  }

  /** The loop goes on until no id is pending, without ever starting the waiter. */
  lemma {:induction false} Drain(ids: seq<Id>, i: nat, j: nat, done: seq<nat>, v: Vars, run: seq<State>)
    returns (full: seq<State>, end: Vars)
    requires i < j < |ids| && ids[i] == ids[j] && IsQuiet(OneWaiter(ids, j), done, v) && j !in done
    requires EndsAt(OneWaiter(ids, j), 1, run, OuterHead(OneWaiter(ids, j), 1, v))
    ensures EndsAt(OneWaiter(ids, j), 1, full, State(Exited, end)) && !ResultFor(end.results, j)
    decreases |ids| - |done|
  {
    if v.pending == {} {
      QuietHasNoResult(OneWaiter(ids, j), done, v, j);
      full, end := run, v;
    } else {
      var t, longer := NextRound(ids, i, j, done, v, run);
      var more, next := done + [t], RunAlone(OneWaiter(ids, j), v, t);
      full, end := Drain(ids, i, j, more, next, longer);
    }
  }

  lemma RepeatedIdsLoseATask(ids: seq<Id>, i: nat, j: nat)
    requires i < j < |ids| && ids[i] == ids[j]
    ensures !NeverLosesATask(OneWaiter(ids, j), 1)
  {
    var tasks := OneWaiter(ids, j);
    var v := Initial(tasks, 1);
    assert v.pool == [true];
    var run, end := Drain(ids, i, j, [], v, [OuterHead(tasks, 1, v)]);
    assert !OneResultPerTask(tasks, end.results);
  }

  lemma UniqueIdsLoseNothing(tasks: seq<Task>, cap: nat, run: seq<State>, last: nat)
    requires UniqueIds(tasks) && IsRun(tasks, cap, run) && last < |run| && run[last].pc.Exited?
    ensures OneResultPerTask(tasks, run[last].v.results)
  {
    RunHolds(tasks, cap, run, last);
    ExitHasAllResults(tasks, cap, run[last]);
  }

  /**
   * For every list of ids: every run of every accepted task list with these ids
   * that ends normally has one result per task, exactly when no id is repeated.
   */
  lemma OneResultIff(ids: seq<Id>)
    ensures AlwaysOneResult(ids) <==> Distinct(ids)
  {
    if Distinct(ids) {
      forall tasks: seq<Task>, cap: nat, run: seq<State>
        | HaveIds(tasks, ids) && IsRun(tasks, cap, run) && run[|run| - 1].pc.Exited?
        ensures OneResultPerTask(tasks, run[|run| - 1].v.results)
      {
        UniqueIdsLoseNothing(tasks, cap, run, |run| - 1);
      }
    } else {
      var i: nat, j: nat :| i < j < |ids| && ids[i] == ids[j];
      OneWaiterIsAccepted(ids, j);
      RepeatedIdsLoseATask(ids, i, j);
    }
  }
}
