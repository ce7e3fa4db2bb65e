/** Every step of the dispatcher keeps its invariant. */
module DispatchInvariant {
  import opened Wrappers
  import opened Tasks
  import opened Dispatch

  // ---- Choosing the next await ----

  lemma InnerHeadPc(tasks: seq<Task>, cap: nat, v: Vars, ready: seq<nat>)
    requires StartedInv(tasks, v) && ActiveInv(tasks, v) && AcquiredOnly(v, {})
    requires RestInv(tasks, v, ready)
    requires v.active == map[] ==> ready == ReadyTasks(tasks, v, 0)
    ensures PcInv(tasks, cap, InnerHead(cap, v, ready))
  {
    if ready != [] && |v.active| < cap {
      assert ready == [ready[0]] + ready[1..];
    } else if v.active != map[] {
      var id :| id in v.active;
      assert v.active[id] in v.active.Values;
      forall i | Live(v, i) ensures i in v.active.Values {
        LiveIsStarted(tasks, v, i);
      }
    }
  }

  lemma LiveIsStarted(tasks: seq<Task>, v: Vars, i: nat)
    requires StartedInv(tasks, v) && i in v.phase
    ensures i < |tasks|
  {
    var k :| 0 <= k < |v.started| && v.started[k] == i;
  }

  lemma OuterHeadHolds(tasks: seq<Task>, cap: nat, v: Vars)
    requires VarsInv(tasks, cap, v) && AcquiredOnly(v, {})
    ensures Inv(tasks, cap, OuterHead(tasks, cap, v))
  {
    var ready := ReadyTasks(tasks, v, 0);
    assert forall k :: 0 <= k < |ready| ==> ready[k] in ready;
    InnerHeadPc(tasks, cap, v, ready);
  }

  // ---- Begin: a lane is always free ----

  /**
   * While fewer tasks are active than there are lanes, some lane is free: the
   * holders of taken lanes are active tasks, one per lane.
   */
  lemma LaneIsFree(tasks: seq<Task>, cap: nat, v: Vars)
    requires StartedInv(tasks, v) && ActiveInv(tasks, v) && LaneInv(cap, v)
    requires AcquiredOnly(v, {}) && |v.active| < cap
    ensures FirstFree(v.pool, 0).Some?
  {
    if FirstFree(v.pool, 0).None? {
      var ids := HolderIds(tasks, cap, v, cap);
      DistinctFits(ids, v.active.Keys);
    }
  }

  lemma {:induction false} HolderIds(tasks: seq<Task>, cap: nat, v: Vars, n: nat) returns (ids: seq<Id>)
    requires StartedInv(tasks, v) && ActiveInv(tasks, v) && LaneInv(cap, v) && AcquiredOnly(v, {})
    requires n <= cap && forall l :: 0 <= l < n ==> !v.pool[l]
    ensures |ids| == n && Distinct(ids)
    ensures forall l :: 0 <= l < n ==> ids[l] in v.active && Holds(v, v.active[ids[l]], l)
  {
    if n == 0 {
      ids := [];
    } else {
      ids := HolderIds(tasks, cap, v, n - 1);
      var l: nat := n - 1;
      assert !v.pool[l];
      var i: nat :| Holds(v, i, l);
      LiveIsStarted(tasks, v, i);
      assert Live(v, i);
      ids := ids + [tasks[i].id];
    }
  }

  lemma {:induction false} DistinctFits(s: seq<Id>, all: set<Id>)
    requires Distinct(s) && forall k :: 0 <= k < |s| ==> s[k] in all
    ensures |s| <= |all|
  {
    if s != [] {
      var n := |s| - 1;
      DistinctFits(s[..n], all - {s[n]});
    }
  }

  lemma BeginKeepsLanes(cap: nat, v: Vars, task: nat)
    requires LaneInv(cap, v) && task !in v.phase && FirstFree(v.pool, 0).Some?
    ensures LaneInv(cap, Begin(v, task))
  {
    var v' := Begin(v, task);
    var lane := FirstFree(v.pool, 0).value;
    assert forall i: nat :: HasLane(v', i) <==> HasLane(v, i) || i == task;
    assert forall i: nat, l: nat :: Holds(v', i, l) <==> Holds(v, i, l) || (i == task && l == lane);
    forall i: nat | HasLane(v, i) ensures v.phase[i].lane != Some(lane) {
      assert Holds(v, i, v.phase[i].lane.value);
    }
    forall l: nat | l < cap ensures !v'.pool[l] <==> exists i: nat :: Holds(v', i, l) {
      if l == lane {
        assert Holds(v', task, l);
      } else if !v.pool[l] {
        var i: nat :| Holds(v, i, l);
        assert Holds(v', i, l);
      }
    }
  }

  lemma BeginKeepsOrder(tasks: seq<Task>, v: Vars, task: nat)
    requires StartedInv(tasks, v) && ResultInv(tasks, v) && OrderInv(tasks, v)
    requires task < |tasks| && task !in v.started && Satisfied(tasks, v, task)
    ensures StartedInv(tasks, Begin(v, task)) && OrderInv(tasks, Begin(v, task))
  {
    var v' := Begin(v, task);
    forall k, d | 0 <= k < |v'.started| && d in tasks[v'.started[k]].dependencies
      ensures d in StartedIds(tasks, v'.started[..k])
    {
      if k < |v.started| {
        assert v'.started[..k] == v.started[..k];
      } else {
        assert v'.started[..k] == v.started;
        CompletedWasStarted(tasks, v, d);
      }
    }
  }

  lemma CompletedWasStarted(tasks: seq<Task>, v: Vars, id: Id)
    requires StartedInv(tasks, v) && ResultInv(tasks, v) && id in v.completed
    ensures id in StartedIds(tasks, v.started)
  {
    var i :| 0 <= i < |tasks| && tasks[i].id == id;
    assert Finished(v, i);
    var k :| 0 <= k < |v.started| && v.started[k] == i;
    assert StartedIds(tasks, v.started)[k] == id;
  }

  lemma BeginKeepsActive(tasks: seq<Task>, v: Vars, task: nat)
    requires ActiveInv(tasks, v) && task !in v.phase
    ensures ActiveInv(tasks, Begin(v, task))
  {
    var v' := Begin(v, task);
    assert forall i: nat :: Live(v', i) <==> Live(v, i);
    assert forall i: nat :: Launched(v', i) <==> Launched(v, i);
  }

  lemma BeginKeeps(tasks: seq<Task>, cap: nat, v: Vars, task: nat)
    requires VarsInv(tasks, cap, v) && AcquiredOnly(v, {}) && |v.active| < cap
    requires task < |tasks| && task !in v.started && Satisfied(tasks, v, task)
    ensures VarsInv(tasks, cap, Begin(v, task))
  {
    LaneIsFree(tasks, cap, v);
    BeginKeepsLanes(cap, v, task);
    BeginKeepsOrder(tasks, v, task);
    BeginKeepsActive(tasks, v, task);
    SameResults(tasks, v, Begin(v, task));
  }

  lemma BeginKeepsRest(tasks: seq<Task>, v: Vars, task: nat, rest: seq<nat>)
    requires RestInv(tasks, v, [task] + rest) && AcquiredOnly(v, {})
    ensures task < |tasks| && task !in v.started && Satisfied(tasks, v, task)
    ensures RestInv(tasks, Begin(v, task), rest) && AcquiredOnly(Begin(v, task), {task})
  {
    assert ([task] + rest)[0] == task;
    assert forall k :: 0 <= k < |rest| ==> ([task] + rest)[k + 1] == rest[k];
  }

  lemma BeginHolds(tasks: seq<Task>, cap: nat, s: State)
    requires Inv(tasks, cap, s) && s.pc.Dispatching?
    ensures Inv(tasks, cap, State(Acquiring(s.pc.task, s.pc.rest), Begin(s.v, s.pc.task)))
  {
    var task := s.pc.task;
    BeginKeepsRest(tasks, s.v, task, s.pc.rest);
    assert VarsInv(tasks, cap, Begin(s.v, task)) by { BeginKeeps(tasks, cap, s.v, task); }
  }

  // ---- What a step has to leave alone ----

  lemma SameLanes(cap: nat, v: Vars, v': Vars)
    requires LaneInv(cap, v) && v'.pool == v.pool
    requires forall i: nat :: HasLane(v', i) <==> HasLane(v, i)
    requires forall i: nat :: HasLane(v', i) && HasLane(v, i) ==> v'.phase[i].lane == v.phase[i].lane
    ensures LaneInv(cap, v')
  {
    assert forall i: nat, l: nat :: Holds(v', i, l) <==> Holds(v, i, l);
  }

  /** Nothing new is started, and nothing completed is forgotten. */
  lemma SameOrder(tasks: seq<Task>, v: Vars, v': Vars)
    requires StartedInv(tasks, v) && OrderInv(tasks, v)
    requires v'.started == v.started && v.completed <= v'.completed && v'.phase.Keys == v.phase.Keys
    ensures StartedInv(tasks, v') && OrderInv(tasks, v')
  {
  }

  /** The same tasks have settled, with the same results. */
  lemma SameResults(tasks: seq<Task>, v: Vars, v': Vars)
    requires ResultInv(tasks, v) && v'.results == v.results && v'.completed == v.completed
    requires forall i: nat :: Finished(v', i) <==> Finished(v, i)
    ensures ResultInv(tasks, v')
  {
    assert forall i: nat :: HasResult(v', i) <==> HasResult(v, i);
  }

  // ---- Launch ----

  lemma LaunchKeepsActive(tasks: seq<Task>, v: Vars, task: nat)
    requires UniqueIds(tasks) && ActiveInv(tasks, v)
    requires task < |tasks| && task in v.phase && v.phase[task].Acquired?
    ensures ActiveInv(tasks, Launch(tasks, v, task))
  {
    var v' := Launch(tasks, v, task);
    assert forall i: nat :: Live(v', i) <==> Live(v, i) || i == task;
    assert forall i: nat :: Launched(v', i) <==> Launched(v, i) || i == task;
  }

  lemma LaunchKeeps(tasks: seq<Task>, cap: nat, v: Vars, task: nat)
    requires UniqueIds(tasks) && VarsInv(tasks, cap, v) && |v.active| < cap
    requires task < |tasks| && task in v.phase && v.phase[task].Acquired?
    ensures VarsInv(tasks, cap, Launch(tasks, v, task))
  {
    var v' := Launch(tasks, v, task);
    LaunchKeepsActive(tasks, v, task);
    SameLanes(cap, v, v');
    SameOrder(tasks, v, v');
    SameResults(tasks, v, v');
  }

  lemma LaunchKeepsRest(tasks: seq<Task>, v: Vars, task: nat, rest: seq<nat>)
    requires task < |tasks| && task in v.phase && v.phase[task].Acquired?
    requires RestInv(tasks, v, rest) && AcquiredOnly(v, {task})
    ensures RestInv(tasks, Launch(tasks, v, task), rest) && AcquiredOnly(Launch(tasks, v, task), {})
    ensures Launch(tasks, v, task).active != map[]
  {
    assert tasks[task].id in Launch(tasks, v, task).active;
  }

  lemma LaunchHolds(tasks: seq<Task>, cap: nat, s: State)
    requires UniqueIds(tasks) && Inv(tasks, cap, s) && s.pc.Acquiring?
    ensures s.pc.task < |tasks|
    ensures Inv(tasks, cap, InnerHead(cap, Launch(tasks, s.v, s.pc.task), s.pc.rest))
  {
    var task := s.pc.task;
    LiveIsStarted(tasks, s.v, task);
    var v' := Launch(tasks, s.v, task);
    assert VarsInv(tasks, cap, v') by { LaunchKeeps(tasks, cap, s.v, task); }
    LaunchKeepsRest(tasks, s.v, task, s.pc.rest);
    InnerHeadPc(tasks, cap, v', s.pc.rest);
  }

  // ---- The callbacks ----

  lemma SettleKeepsActive(tasks: seq<Task>, v: Vars, r: SubagentResult)
    requires ActiveInv(tasks, v) && r.task < |tasks| && r.task in v.phase && v.phase[r.task].Running?
    ensures ActiveInv(tasks, Settle(tasks, v, r))
  {
    var v' := Settle(tasks, v, r);
    assert forall i: nat :: Live(v', i) <==> Live(v, i);
    assert forall i: nat :: Launched(v', i) <==> Launched(v, i);
  }

  lemma SettleKeepsResults(tasks: seq<Task>, v: Vars, r: SubagentResult)
    requires UniqueIds(tasks) && ResultInv(tasks, v)
    requires r.task < |tasks| && r.task in v.phase && v.phase[r.task].Running?
    ensures ResultInv(tasks, Settle(tasks, v, r))
  {
    var v' := Settle(tasks, v, r);
    assert forall i: nat :: Finished(v', i) <==> Finished(v, i) || i == r.task;
    forall i: nat ensures HasResult(v', i) <==> HasResult(v, i) || i == r.task {
      if HasResult(v, i) {
        var k :| 0 <= k < |v.results| && v.results[k].task == i;
        assert v'.results[k].task == i;
      }
      assert v'.results[|v.results|] == r;
    }
  }

  lemma SettleKeeps(tasks: seq<Task>, cap: nat, v: Vars, r: SubagentResult)
    requires UniqueIds(tasks) && VarsInv(tasks, cap, v)
    requires r.task < |tasks| && r.task in v.phase && v.phase[r.task].Running?
    ensures VarsInv(tasks, cap, Settle(tasks, v, r))
  {
    var v' := Settle(tasks, v, r);
    SettleKeepsActive(tasks, v, r);
    SettleKeepsResults(tasks, v, r);
    SameLanes(cap, v, v');
    SameOrder(tasks, v, v');
  }

  lemma SettleKeepsPc(tasks: seq<Task>, cap: nat, pc: Pc, v: Vars, r: SubagentResult)
    requires PcInv(tasks, cap, State(pc, v)) && v.active != map[]
    requires r.task < |tasks| && r.task in v.phase && v.phase[r.task].Running?
    ensures PcInv(tasks, cap, State(pc, Settle(tasks, v, r)))
  {
  }

  lemma LiveIsActive(tasks: seq<Task>, v: Vars, i: nat)
    requires ActiveInv(tasks, v) && i < |tasks| && Live(v, i)
    ensures tasks[i].id in v.active && v.active != map[]
  {
  }

  lemma ReleaseKeepsLanes(cap: nat, v: Vars, i: nat)
    requires LaneInv(cap, v) && i in v.phase && v.phase[i].Settled?
    ensures LaneInv(cap, Release(v, i))
  {
    var v' := Release(v, i);
    assert HasLane(v, i);
    var lane := v.phase[i].lane.value;
    assert Holds(v, i, lane);
    assert forall j: nat :: HasLane(v', j) <==> HasLane(v, j) && j != i;
    assert forall j: nat, l: nat :: Holds(v', j, l) <==> Holds(v, j, l) && j != i;
    assert forall j: nat, l: nat :: Holds(v, j, l) && j != i ==> l != lane;
    forall l: nat | l < cap ensures !v'.pool[l] <==> exists j: nat :: Holds(v', j, l) {
      if l != lane && !v.pool[l] {
        var j: nat :| Holds(v, j, l);
        assert Holds(v', j, l);
      }
    }
  }

  lemma ReleaseKeepsActive(tasks: seq<Task>, v: Vars, i: nat)
    requires ActiveInv(tasks, v) && i in v.phase && v.phase[i].Settled?
    ensures ActiveInv(tasks, Release(v, i))
  {
    var v' := Release(v, i);
    assert forall j: nat :: Live(v', j) <==> Live(v, j);
    assert forall j: nat :: Launched(v', j) <==> Launched(v, j);
  }

  lemma ReleaseKeeps(tasks: seq<Task>, cap: nat, v: Vars, i: nat)
    requires VarsInv(tasks, cap, v) && i in v.phase && v.phase[i].Settled?
    ensures VarsInv(tasks, cap, Release(v, i))
  {
    ReleaseKeepsLanes(cap, v, i);
    ReleaseKeepsActive(tasks, v, i);
    SameOrder(tasks, v, Release(v, i));
    SameResults(tasks, v, Release(v, i));
  }

  lemma ReleaseKeepsPc(tasks: seq<Task>, cap: nat, pc: Pc, v: Vars, i: nat)
    requires PcInv(tasks, cap, State(pc, v)) && v.active != map[]
    requires i in v.phase && v.phase[i].Settled?
    ensures PcInv(tasks, cap, State(pc, Release(v, i)))
  {
  }

  lemma DropKeepsActive(tasks: seq<Task>, v: Vars, i: nat)
    requires UniqueIds(tasks) && ActiveInv(tasks, v)
    requires i < |tasks| && i in v.phase && v.phase[i].Released?
    ensures ActiveInv(tasks, Drop(tasks, v, i))
  {
    var v' := Drop(tasks, v, i);
    assert forall j: nat :: Live(v', j) <==> Live(v, j) && j != i;
    assert forall j: nat :: Launched(v', j) <==> Launched(v, j);
  }

  lemma DropKeeps(tasks: seq<Task>, cap: nat, v: Vars, i: nat)
    requires UniqueIds(tasks) && VarsInv(tasks, cap, v)
    requires i < |tasks| && i in v.phase && v.phase[i].Released?
    ensures VarsInv(tasks, cap, Drop(tasks, v, i)) && |Drop(tasks, v, i).active| <= |v.active|
  {
    var v' := Drop(tasks, v, i);
    DropKeepsActive(tasks, v, i);
    SameLanes(cap, v, v');
    SameOrder(tasks, v, v');
    SameResults(tasks, v, v');
    assert v'.active.Keys == v.active.Keys - {tasks[i].id};
  }

  lemma DropKeepsPc(tasks: seq<Task>, cap: nat, pc: Pc, v: Vars, i: nat)
    requires PcInv(tasks, cap, State(pc, v)) && v.active != map[]
    requires i < |tasks| && i in v.phase && v.phase[i].Released?
    ensures PcInv(tasks, cap, State(pc, Drop(tasks, v, i)))
  {
    assert Drop(tasks, v, i).active.Keys == v.active.Keys - {tasks[i].id};
  }

  /** A callback of any task, at whatever await it runs. */
  lemma CallbackHolds(tasks: seq<Task>, cap: nat, s: State, s': State)
    requires UniqueIds(tasks) && Inv(tasks, cap, s) && CallbackStep(tasks, s, s')
    ensures Inv(tasks, cap, s')
  {
    if r :| SettleStep(tasks, s, s', r) {
      assert VarsInv(tasks, cap, s'.v) by { SettleKeeps(tasks, cap, s.v, r); }
      assert PcInv(tasks, cap, s') by {
        LiveIsActive(tasks, s.v, r.task);
        SettleKeepsPc(tasks, cap, s.pc, s.v, r);
      }
    } else if i :| ReleaseStep(tasks, s, s', i) {
      assert VarsInv(tasks, cap, s'.v) by { ReleaseKeeps(tasks, cap, s.v, i); }
      assert PcInv(tasks, cap, s') by {
        LiveIsActive(tasks, s.v, i);
        ReleaseKeepsPc(tasks, cap, s.pc, s.v, i);
      }
    } else {
      var i :| DropStep(tasks, s, s', i);
      assert VarsInv(tasks, cap, s'.v) by { DropKeeps(tasks, cap, s.v, i); }
      assert PcInv(tasks, cap, s') by {
        LiveIsActive(tasks, s.v, i);
        DropKeepsPc(tasks, cap, s.pc, s.v, i);
      }
    }
  }

  /** The invariant survives every step, whichever callback runs and whenever `executeAll` resumes. */
  lemma {:induction false} StepHolds(tasks: seq<Task>, cap: nat, s: State, s': State)
    requires UniqueIds(tasks) && Inv(tasks, cap, s) && Step(tasks, cap, s, s')
    ensures Inv(tasks, cap, s')
  {
    if ResumeStep(tasks, cap, s, s') {
      match s.pc
      case Dispatching(_, _) => BeginHolds(tasks, cap, s);
      case Acquiring(_, _) => LaunchHolds(tasks, cap, s);
      case Racing(_) => OuterHeadHolds(tasks, cap, s.v);
    } else {
      CallbackHolds(tasks, cap, s, s');
    }
  }

  lemma FirstStateHolds(tasks: seq<Task>, cap: nat, run: seq<State>)
    requires UniqueIds(tasks) && IsRun(tasks, cap, run)
    ensures Inv(tasks, cap, run[0])
  {
    OuterHeadHolds(tasks, cap, Initial(tasks, cap));
  }

  lemma NextHolds(tasks: seq<Task>, cap: nat, run: seq<State>, j: nat, k: nat)
    requires UniqueIds(tasks) && IsRun(tasks, cap, run) && k == j + 1 < |run| && Inv(tasks, cap, run[j])
    ensures Inv(tasks, cap, run[k])
  {
    assert IsStepAt(tasks, cap, run, j, k);
    StepHolds(tasks, cap, run[j], run[k]);
  }

  /** The invariant holds in every state of every run. */
  lemma {:induction false} RunHolds(tasks: seq<Task>, cap: nat, run: seq<State>, k: nat)
    requires UniqueIds(tasks) && IsRun(tasks, cap, run) && k < |run|
    ensures Inv(tasks, cap, run[k])
  {
    if k == 0 {
      FirstStateHolds(tasks, cap, run);
    } else {
      var j := k - 1;
      RunHolds(tasks, cap, run, j);
      NextHolds(tasks, cap, run, j, k);
    }
  }
}
