/**
 * When `executeAll` returns its results in the order of its tasks. It adds them as
 * tasks settle, so the orders agree in every run only for special task lists.
 */
module ResultOrder {
  import opened Wrappers
  import opened Tasks
  import opened Dispatch
  import opened DispatchInvariant
  import opened DispatchTheorems

  ghost predicate InTaskOrder(results: seq<SubagentResult>) {
    forall k :: 0 <= k < |results| ==> results[k].task == k
  }

  ghost predicate IsBefore(tasks: seq<Task>, id: Id, i: int) {
    exists j :: 0 <= j < i && j < |tasks| && tasks[j].id == id
  }

  /** Each task depends only on earlier tasks. */
  ghost predicate DependBackward(tasks: seq<Task>) {
    forall i, d :: 0 <= i < |tasks| && d in tasks[i].dependencies ==> IsBefore(tasks, d, i)
  }

  predicate DependsOnPrevious(tasks: seq<Task>, i: int) {
    0 < i < |tasks| ==> tasks[i - 1].id in tasks[i].dependencies
  }

  /** Each task after the first depends on the one before it. */
  ghost predicate IsChain(tasks: seq<Task>) {
    forall i :: DependsOnPrevious(tasks, i)
  }

  // ---- When the orders agree ----

  ghost predicate OrderedInv(cap: nat, s: State) {
    && InTaskOrder(s.v.results)
    && (cap == 1 ==>
          && (forall k :: 0 <= k < |s.v.started| ==> s.v.started[k] == k)
          && (s.pc.Dispatching? ==> s.pc.task == |s.v.started|))
  }

  /** A task that is started and neither acquired nor live has its result. */
  lemma SettledHasResult(tasks: seq<Task>, v: Vars, i: nat)
    requires StartedInv(tasks, v) && ResultInv(tasks, v) && i in v.started && !Live(v, i) && !v.phase[i].Acquired?
    ensures i < |tasks| && HasResult(v, i) && tasks[i].id in v.completed
  {
    LiveIsStarted(tasks, v, i);
    assert Finished(v, i);
  }

  /** With results in task order, a running task's place is not before the end of them. */
  lemma RunningIsLater(tasks: seq<Task>, v: Vars, j: nat)
    requires ResultInv(tasks, v) && InTaskOrder(v.results) && j in v.phase && v.phase[j].Running?
    ensures j >= |v.results|
  {
    if j < |v.results| {
      EarlyIsFinished(tasks, v, j);
    }
  }

  lemma EarlyIsFinished(tasks: seq<Task>, v: Vars, j: nat)
    requires ResultInv(tasks, v) && InTaskOrder(v.results) && j < |v.results|
    ensures Finished(v, j)
  {
    assert v.results[j].task == j;
  }

  lemma ResultIsEarly(v: Vars, i: nat)
    requires HasResult(v, i) && InTaskOrder(v.results)
    ensures i < |v.results|
  {
    var k :| 0 <= k < |v.results| && v.results[k].task == i;
  }

  lemma SettlesNext(tasks: seq<Task>, v: Vars, j: nat)
    requires ResultInv(tasks, v) && InTaskOrder(v.results) && j in v.phase && v.phase[j].Running?
    requires j > 0 ==> HasResult(v, j - 1)
    ensures j == |v.results|
  {
    RunningIsLater(tasks, v, j);
    if j > 0 {
      ResultIsEarly(v, j - 1);
    }
  }

  lemma ChainSettlesInOrder(tasks: seq<Task>, v: Vars, j: nat)
    requires StartedInv(tasks, v) && ResultInv(tasks, v) && OrderInv(tasks, v) && InTaskOrder(v.results)
    requires IsChain(tasks) && j in v.phase && v.phase[j].Running?
    ensures j == |v.results|
  {
    LiveIsStarted(tasks, v, j);
    if j > 0 {
      assert DependsOnPrevious(tasks, j);
      var k :| 0 <= k < |v.started| && v.started[k] == j;
      assert Satisfied(tasks, v, v.started[k]);
      assert Finished(v, j - 1);
    }
    SettlesNext(tasks, v, j);
  }

  /** With one lane, every started task but the running one has its result. */
  lemma OthersAreSettled(tasks: seq<Task>, s: State, j: nat, i: nat)
    requires UniqueIds(tasks) && Inv(tasks, 1, s) && j in s.v.phase && s.v.phase[j].Running?
    requires i in s.v.started && i != j
    ensures HasResult(s.v, i)
  {
    LiveIsStarted(tasks, s.v, j);
    LiveIsStarted(tasks, s.v, i);
    assert tasks[j].id in s.v.active;
    if Live(s.v, i) {
      assert tasks[i].id in s.v.active;
      TwoAreMore(s.v.active.Keys, tasks[i].id, tasks[j].id);
    }
    SettledHasResult(tasks, s.v, i);
  }

  lemma TwoAreMore(ids: set<Id>, a: Id, b: Id)
    requires a in ids && b in ids && a != b
    ensures |ids| >= 2
  {
    assert |ids - {a}| == |ids| - 1;
    assert b in ids - {a};
  }

  lemma PreviousIsStarted(v: Vars, j: nat)
    requires (forall k :: 0 <= k < |v.started| ==> v.started[k] == k) && j in v.started && j > 0
    ensures j - 1 in v.started
  {
    assert v.started[j - 1] == j - 1;
  }

  ghost predicate OthersHaveResults(v: Vars, j: nat) {
    forall i :: i in v.started && i != j ==> HasResult(v, i)
  }

  lemma OneLaneSettlesInOrder(tasks: seq<Task>, v: Vars, j: nat)
    requires ResultInv(tasks, v) && InTaskOrder(v.results) && j in v.phase && v.phase[j].Running?
    requires j in v.started && OthersHaveResults(v, j) && forall k :: 0 <= k < |v.started| ==> v.started[k] == k
    ensures j == |v.results|
  {
    if j > 0 {
      PreviousIsStarted(v, j);
    }
    SettlesNext(tasks, v, j);
  }

  /** With one lane, the first ready task is the one after those started. */
  lemma FirstReadyIsNext(tasks: seq<Task>, v: Vars, ready: seq<nat>)
    requires VarsInv(tasks, 1, v) && AcquiredOnly(v, {}) && v.active == map[] && DependBackward(tasks)
    requires forall k :: 0 <= k < |v.started| ==> v.started[k] == k
    requires ready == ReadyTasks(tasks, v, 0) && ready != []
    ensures ready[0] == |v.started|
  {
    var m := |v.started|;
    forall k: nat | k < m ensures k in v.started {
      assert v.started[k] == k;
    }
    assert ready[0] in ready;
    NextIsReady(tasks, v, m);
  }

  lemma NextIsReady(tasks: seq<Task>, v: Vars, m: nat)
    requires VarsInv(tasks, 1, v) && AcquiredOnly(v, {}) && v.active == map[] && DependBackward(tasks)
    requires m == |v.started| < |tasks| && forall k :: 0 <= k < m ==> v.started[k] == k
    ensures IsReady(tasks, v, m)
  {
    forall d | d in tasks[m].dependencies ensures d in v.completed {
      assert IsBefore(tasks, d, m);
      var j :| 0 <= j < m && j < |tasks| && tasks[j].id == d;
      assert v.started[j] == j;
      assert !Live(v, j);
      SettledHasResult(tasks, v, j);
    }
    assert m !in v.started;
    assert !Finished(v, m);
    assert forall k :: 0 <= k < |v.results| ==> Finished(v, v.results[k].task);
  }

  lemma BusyLaneRaces(v: Vars, rest: seq<nat>)
    requires v.active != map[]
    ensures InnerHead(1, v, rest).pc.Racing? && InnerHead(1, v, rest).v == v
  {
    assert |v.active| > 0;
  }

  lemma LoopKeepsOrdered(tasks: seq<Task>, cap: nat, v: Vars)
    requires UniqueIds(tasks) && VarsInv(tasks, cap, v) && AcquiredOnly(v, {}) && DependBackward(tasks)
    requires InTaskOrder(v.results) && (cap == 1 ==> forall k :: 0 <= k < |v.started| ==> v.started[k] == k)
    ensures OrderedInv(cap, OuterHead(tasks, cap, v))
  {
    if cap == 1 && OuterHead(tasks, cap, v).pc.Dispatching? {
      assert v.active == map[];
      FirstReadyIsNext(tasks, v, ReadyTasks(tasks, v, 0));
    }
  }

  lemma ResumeKeepsOrdered(tasks: seq<Task>, cap: nat, s: State, s': State)
    requires UniqueIds(tasks) && Inv(tasks, cap, s) && OrderedInv(cap, s) && DependBackward(tasks)
    requires ResumeStep(tasks, cap, s, s')
    ensures OrderedInv(cap, s')
  {
    match s.pc
    case Dispatching(task, rest) =>
    case Acquiring(task, rest) =>
      var v' := Launch(tasks, s.v, task);
      assert tasks[task].id in v'.active;
      if cap == 1 {
        BusyLaneRaces(v', rest);
      }
    case Racing(_) => LoopKeepsOrdered(tasks, cap, s.v);
  }

  lemma SettleKeepsOrdered(tasks: seq<Task>, cap: nat, s: State, r: SubagentResult)
    requires UniqueIds(tasks) && Inv(tasks, cap, s) && OrderedInv(cap, s) && (cap == 1 || IsChain(tasks))
    requires r.task < |tasks| && r.task in s.v.phase && s.v.phase[r.task].Running?
    ensures OrderedInv(cap, State(s.pc, Settle(tasks, s.v, r)))
  {
    if cap == 1 {
      forall i | i in s.v.started && i != r.task ensures HasResult(s.v, i) {
        OthersAreSettled(tasks, s, r.task, i);
      }
      OneLaneSettlesInOrder(tasks, s.v, r.task);
    } else {
      ChainSettlesInOrder(tasks, s.v, r.task);
    }
  }

  lemma StepKeepsOrdered(tasks: seq<Task>, cap: nat, s: State, s': State)
    requires UniqueIds(tasks) && Inv(tasks, cap, s) && OrderedInv(cap, s) && DependBackward(tasks)
    requires cap == 1 || IsChain(tasks)
    requires Step(tasks, cap, s, s')
    ensures OrderedInv(cap, s')
  {
    if ResumeStep(tasks, cap, s, s') {
      ResumeKeepsOrdered(tasks, cap, s, s');
    } else if r :| SettleStep(tasks, s, s', r) {
      SettleKeepsOrdered(tasks, cap, s, r);
    } else {
      assert s'.v.results == s.v.results && s'.v.started == s.v.started && s'.pc == s.pc;
    }
  }

  lemma FirstStateIsOrdered(tasks: seq<Task>, cap: nat)
    requires UniqueIds(tasks) && DependBackward(tasks)
    ensures OrderedInv(cap, OuterHead(tasks, cap, Initial(tasks, cap)))
  {
    LoopKeepsOrdered(tasks, cap, Initial(tasks, cap));
  }

  lemma NextIsOrdered(tasks: seq<Task>, cap: nat, run: seq<State>, j: nat, k: nat)
    requires UniqueIds(tasks) && IsRun(tasks, cap, run) && k == j + 1 < |run| && DependBackward(tasks)
    requires (cap == 1 || IsChain(tasks)) && OrderedInv(cap, run[j])
    ensures OrderedInv(cap, run[k])
  {
    assert IsStepAt(tasks, cap, run, j, k);
    assert Inv(tasks, cap, run[j]) by { RunHolds(tasks, cap, run, j); }
    StepKeepsOrdered(tasks, cap, run[j], run[k]);
  }

  lemma {:induction false} RunKeepsOrdered(tasks: seq<Task>, cap: nat, run: seq<State>, k: nat)
    requires UniqueIds(tasks) && IsRun(tasks, cap, run) && k < |run| && DependBackward(tasks)
    requires cap == 1 || IsChain(tasks)
    ensures OrderedInv(cap, run[k])
  {
    if k == 0 {
      FirstStateIsOrdered(tasks, cap);
    } else {
      var j := k - 1;
      RunKeepsOrdered(tasks, cap, run, j);
      NextIsOrdered(tasks, cap, run, j, k);
    }
  }

  // ---- A dependency on a later task ----

  ghost predicate SettledIn(tasks: seq<Task>, results: seq<SubagentResult>, id: Id) {
    exists m :: 0 <= m < |results| && results[m].task < |tasks| && tasks[results[m].task].id == id
  }

  /** Every result stands after those of the task's dependencies. */
  ghost predicate ResultsFollow(tasks: seq<Task>, results: seq<SubagentResult>) {
    forall k, d :: 0 <= k < |results| && results[k].task < |tasks| && d in tasks[results[k].task].dependencies ==>
      SettledIn(tasks, results[..k], d)
  }

  lemma CompletedIsSettledIn(tasks: seq<Task>, v: Vars, id: Id)
    requires ResultInv(tasks, v) && id in v.completed
    ensures SettledIn(tasks, v.results, id)
  {
    assert HasId(tasks, id);
    var i :| 0 <= i < |tasks| && tasks[i].id == id;
    assert HasResult(v, i);
    var k :| 0 <= k < |v.results| && v.results[k].task == i;
  }

  lemma SettleFollows(tasks: seq<Task>, v: Vars, r: SubagentResult)
    requires StartedInv(tasks, v) && ResultInv(tasks, v) && OrderInv(tasks, v) && ResultsFollow(tasks, v.results)
    requires r.task < |tasks| && r.task in v.phase && v.phase[r.task].Running?
    ensures ResultsFollow(tasks, Settle(tasks, v, r).results)
  {
    var longer := v.results + [r];
    forall k, d | 0 <= k < |longer| && longer[k].task < |tasks| && d in tasks[longer[k].task].dependencies
      ensures SettledIn(tasks, longer[..k], d)
    {
      if k < |v.results| {
        assert longer[..k] == v.results[..k];
      } else {
        assert longer[..k] == v.results;
        var at :| 0 <= at < |v.started| && v.started[at] == r.task;
        assert Satisfied(tasks, v, v.started[at]);
        CompletedIsSettledIn(tasks, v, d);
      }
    }
  }

  lemma StepFollows(tasks: seq<Task>, cap: nat, s: State, s': State)
    requires VarsInv(tasks, cap, s.v) && ResultsFollow(tasks, s.v.results) && Step(tasks, cap, s, s')
    ensures ResultsFollow(tasks, s'.v.results)
  {
    if r :| SettleStep(tasks, s, s', r) {
      SettleFollows(tasks, s.v, r);
    } else {
      OnlySettlingAddsResults(tasks, cap, s, s');
    }
  }

  lemma OnlySettlingAddsResults(tasks: seq<Task>, cap: nat, s: State, s': State)
    requires Step(tasks, cap, s, s') && forall r :: !SettleStep(tasks, s, s', r)
    ensures s'.v.results == s.v.results
  {
  }

  lemma NextFollows(tasks: seq<Task>, cap: nat, run: seq<State>, j: nat, k: nat)
    requires UniqueIds(tasks) && IsRun(tasks, cap, run) && k == j + 1 < |run| && ResultsFollow(tasks, run[j].v.results)
    ensures ResultsFollow(tasks, run[k].v.results)
  {
    assert IsStepAt(tasks, cap, run, j, k);
    assert VarsInv(tasks, cap, run[j].v) by { RunHolds(tasks, cap, run, j); }
    StepFollows(tasks, cap, run[j], run[k]);
  }

  lemma {:induction false} RunFollows(tasks: seq<Task>, cap: nat, run: seq<State>, k: nat)
    requires UniqueIds(tasks) && IsRun(tasks, cap, run) && k < |run|
    ensures ResultsFollow(tasks, run[k].v.results)
  {
    if k > 0 {
      var j := k - 1;
      RunFollows(tasks, cap, run, j);
      NextFollows(tasks, cap, run, j, k);
    } else {
      assert run[0].v.results == [];
    }
  }

  /** If the results of all tasks are in task order, tasks depend on earlier tasks only. */
  lemma OrderedMeansBackward(tasks: seq<Task>, results: seq<SubagentResult>)
    requires ResultsFollow(tasks, results) && InTaskOrder(results) && |results| == |tasks|
    ensures DependBackward(tasks)
  {
    forall i, d | 0 <= i < |tasks| && d in tasks[i].dependencies ensures IsBefore(tasks, d, i) {
      assert results[i].task == i;
      assert SettledIn(tasks, results[..i], d);
      var m :| 0 <= m < i && results[..i][m].task < |tasks| && tasks[results[..i][m].task].id == d;
      assert results[m].task == m;
    }
  }

  // ---- Withholding a task ----

  /** No callback is half done: what was launched either runs or is dropped. */
  ghost predicate IsCalm(v: Vars, but: set<nat>) {
    forall t :: t in v.phase && t !in but ==> v.phase[t].Acquired? || v.phase[t].Running? || v.phase[t].Dropped?
  }

  /** Every ready task is in the list. */
  ghost predicate AllReadyIn(tasks: seq<Task>, v: Vars, rest: seq<nat>) {
    forall t: nat :: t < |tasks| && IsReady(tasks, v, t) ==> t in rest
  }

  /** The raced task whose callbacks are under way. */
  ghost predicate IsUnderWay(s: State, t: nat) {
    && s.pc.Racing? && t in s.pc.on && t in s.v.phase && (s.v.phase[t].Settled? || s.v.phase[t].Released?)
    && IsCalm(s.v, {t})
  }

  /** The schedule followed below: callbacks run only during a race, one task at a time, and a won race is resumed. */
  ghost predicate IsSteered(tasks: seq<Task>, cap: nat, s: State) {
    match s.pc
    case Dispatching(task, rest) => IsCalm(s.v, {}) && AllReadyIn(tasks, s.v, [task] + rest)
    case Acquiring(_, rest) => IsCalm(s.v, {}) && AllReadyIn(tasks, s.v, rest)
    case Racing(_) =>
      || (exists t :: IsUnderWay(s, t))
      || (IsCalm(s.v, {}) && (RaceWon(s) || |s.v.active| >= cap || AllReadyIn(tasks, s.v, [])))
    case _ => true
  }

  lemma SteeredInnerHead(tasks: seq<Task>, cap: nat, v: Vars, rest: seq<nat>)
    requires IsCalm(v, {}) && AllReadyIn(tasks, v, rest)
    ensures IsSteered(tasks, cap, InnerHead(cap, v, rest)) && InnerHead(cap, v, rest).v == v
  {
    if rest != [] {
      assert [rest[0]] + rest[1..] == rest;
    }
  }

  lemma SteeredOuterHead(tasks: seq<Task>, cap: nat, v: Vars)
    requires IsCalm(v, {})
    ensures IsSteered(tasks, cap, OuterHead(tasks, cap, v)) && OuterHead(tasks, cap, v).v == v
  {
    SteeredInnerHead(tasks, cap, v, ReadyTasks(tasks, v, 0));
  }

  lemma SteeredBegin(tasks: seq<Task>, v: Vars, task: nat, rest: seq<nat>)
    requires IsCalm(v, {}) && AllReadyIn(tasks, v, [task] + rest)
    ensures IsCalm(Begin(v, task), {}) && AllReadyIn(tasks, Begin(v, task), rest)
  {
    var v' := Begin(v, task);
    forall t: nat | t < |tasks| && IsReady(tasks, v', t) ensures t in rest {
      assert task in v'.started by { assert v'.started[|v.started|] == task; }
      assert t !in v.started by { assert forall x :: x in v.started ==> x in v'.started; }
      assert HasResult(v', t) <==> HasResult(v, t);
      assert IsReady(tasks, v, t);
    }
  }

  lemma SteeredLaunch(tasks: seq<Task>, v: Vars, task: nat, rest: seq<nat>)
    requires IsCalm(v, {}) && AllReadyIn(tasks, v, rest) && task < |tasks| && task in v.phase && v.phase[task].Acquired?
    ensures IsCalm(Launch(tasks, v, task), {}) && AllReadyIn(tasks, Launch(tasks, v, task), rest)
  {
    var v' := Launch(tasks, v, task);
    forall t: nat | t < |tasks| && IsReady(tasks, v', t) ensures t in rest {
      assert HasResult(v', t) <==> HasResult(v, t);
      assert IsReady(tasks, v, t);
    }
  }

  /** The withheld task is the only live one. */
  ghost predicate OnlyLive(v: Vars, w: int) {
    forall t :: Live(v, t) ==> t == w
  }

  /** A task all of whose dependencies have settled has settled, unless it is live or ready. */
  lemma SettledUnlessReady(tasks: seq<Task>, v: Vars, w: int, j: nat)
    requires StartedInv(tasks, v) && ResultInv(tasks, v) && AcquiredOnly(v, {}) && IsCalm(v, {}) && OnlyLive(v, w)
    requires AllReadyIn(tasks, v, []) && j < |tasks| && j != w && Satisfied(tasks, v, j)
    ensures Finished(v, j) && HasResult(v, j)
  {
    assert !IsReady(tasks, v, j);
    if j in v.started {
      assert !Live(v, j);
      assert v.phase[j].Dropped?;
    }
  }

  /** When nothing but the withheld task is live and nothing is ready, all tasks before it have settled. */
  lemma {:induction false} EarlierHaveSettled(tasks: seq<Task>, v: Vars, w: nat, j: nat)
    requires StartedInv(tasks, v) && ResultInv(tasks, v) && AcquiredOnly(v, {}) && IsCalm(v, {}) && OnlyLive(v, w)
    requires AllReadyIn(tasks, v, []) && DependBackward(tasks) && j < w && w < |tasks|
    ensures Finished(v, j)
    decreases j
  {
    forall d | d in tasks[j].dependencies ensures d in v.completed {
      assert IsBefore(tasks, d, j);
      var k :| 0 <= k < j && k < |tasks| && tasks[k].id == d;
      EarlierHaveSettled(tasks, v, w, k);
    }
    SettledUnlessReady(tasks, v, w, j);
  }

  /** The task after the withheld one does not wait for it, so it settles or something else is live. */
  lemma NextHasSettled(tasks: seq<Task>, v: Vars, i: nat)
    requires StartedInv(tasks, v) && ResultInv(tasks, v) && AcquiredOnly(v, {}) && IsCalm(v, {}) && OnlyLive(v, i - 1)
    requires AllReadyIn(tasks, v, []) && DependBackward(tasks) && 0 < i < |tasks| && !DependsOnPrevious(tasks, i)
    ensures HasResult(v, i)
  {
    forall d | d in tasks[i].dependencies ensures d in v.completed {
      assert IsBefore(tasks, d, i);
      var k :| 0 <= k < i && k < |tasks| && tasks[k].id == d;
      EarlierHaveSettled(tasks, v, i - 1, k);
    }
    SettledUnlessReady(tasks, v, i - 1, i);
  }

  /** In a calm race some task other than the withheld one is running. */
  lemma AnotherIsRunning(tasks: seq<Task>, cap: nat, s: State, i: nat) returns (t: nat)
    requires Inv(tasks, cap, s) && s.pc.Racing? && IsCalm(s.v, {}) && cap >= 2
    requires |s.v.active| >= cap || AllReadyIn(tasks, s.v, [])
    requires DependBackward(tasks) && 0 < i < |tasks| && !DependsOnPrevious(tasks, i) && !HasResult(s.v, i)
    ensures t != i - 1 && t < |tasks| && t in s.pc.on && t in s.v.phase && s.v.phase[t].Running?
  {
    if OnlyLive(s.v, i - 1) {
      if |s.v.active| >= 2 {
        OneActiveAtMost(tasks, s.v, i - 1);
      }
      NextHasSettled(tasks, s.v, i);
      assert false;
    }
    t :| Live(s.v, t) && t != i - 1;
    LiveIsStarted(tasks, s.v, t);
  }

  lemma OneActiveAtMost(tasks: seq<Task>, v: Vars, w: nat)
    requires ActiveInv(tasks, v) && OnlyLive(v, w) && w < |tasks|
    ensures |v.active| <= 1
  {
    assert forall id :: id in v.active ==> Live(v, v.active[id]);
    assert v.active.Keys <= {tasks[w].id};
    SubsetSize(v.active.Keys, tasks[w].id);
  }

  lemma SubsetSize(ids: set<Id>, id: Id)
    requires ids <= {id}
    ensures |ids| <= 1
  {
    if id in ids {
      assert ids == {id};
    }
  }

  /** The step the schedule takes; it never settles the withheld task. */
  lemma SteeredStep(tasks: seq<Task>, cap: nat, s: State, i: nat) returns (s': State)
    requires UniqueIds(tasks) && Inv(tasks, cap, s) && IsSteered(tasks, cap, s) && cap >= 2
    requires DependBackward(tasks) && 0 < i < |tasks| && !DependsOnPrevious(tasks, i)
    requires !HasResult(s.v, i) && !Finished(s.v, i - 1) && !s.pc.Exited? && !s.pc.Broke?
    ensures Step(tasks, cap, s, s') && IsSteered(tasks, cap, s') && !Finished(s'.v, i - 1)
  {
    match s.pc
    case Dispatching(task, rest) =>
      s' := State(Acquiring(task, rest), Begin(s.v, task));
      SteeredBegin(tasks, s.v, task, rest);
      assert ResumeStep(tasks, cap, s, s');
    case Acquiring(task, rest) =>
      LiveIsStarted(tasks, s.v, task);
      s' := InnerHead(cap, Launch(tasks, s.v, task), rest);
      SteeredLaunch(tasks, s.v, task, rest);
      SteeredInnerHead(tasks, cap, Launch(tasks, s.v, task), rest);
      assert ResumeStep(tasks, cap, s, s');
    case Racing(_) => s' := SteeredRace(tasks, cap, s, i);
  }

  lemma SteeredRace(tasks: seq<Task>, cap: nat, s: State, i: nat) returns (s': State)
    requires UniqueIds(tasks) && Inv(tasks, cap, s) && IsSteered(tasks, cap, s) && cap >= 2 && s.pc.Racing?
    requires DependBackward(tasks) && 0 < i < |tasks| && !DependsOnPrevious(tasks, i)
    requires !HasResult(s.v, i) && !Finished(s.v, i - 1)
    ensures Step(tasks, cap, s, s') && IsSteered(tasks, cap, s') && !Finished(s'.v, i - 1)
  {
    if t :| IsUnderWay(s, t) {
      s' := RaceUnderWay(tasks, cap, s, i, t);
    } else if RaceWon(s) {
      s' := RaceIsWon(tasks, cap, s, i);
    } else {
      s' := RaceGoesOn(tasks, cap, s, i);
    }
  }

  lemma RaceUnderWay(tasks: seq<Task>, cap: nat, s: State, i: nat, t: nat) returns (s': State)
    requires Inv(tasks, cap, s) && IsUnderWay(s, t) && 0 < i && !Finished(s.v, i - 1)
    ensures Step(tasks, cap, s, s') && IsSteered(tasks, cap, s') && !Finished(s'.v, i - 1)
  {
    s' := SteeredCallback(tasks, cap, s, t);
  }

  lemma RaceIsWon(tasks: seq<Task>, cap: nat, s: State, i: nat) returns (s': State)
    requires RaceWon(s) && IsCalm(s.v, {}) && 0 < i && !Finished(s.v, i - 1)
    ensures Step(tasks, cap, s, s') && IsSteered(tasks, cap, s') && !Finished(s'.v, i - 1)
  {
    s' := OuterHead(tasks, cap, s.v);
    SteeredOuterHead(tasks, cap, s.v);
    assert ResumeStep(tasks, cap, s, s');
  }

  lemma RaceGoesOn(tasks: seq<Task>, cap: nat, s: State, i: nat) returns (s': State)
    requires Inv(tasks, cap, s) && s.pc.Racing? && IsCalm(s.v, {}) && cap >= 2
    requires |s.v.active| >= cap || AllReadyIn(tasks, s.v, [])
    requires DependBackward(tasks) && 0 < i < |tasks| && !DependsOnPrevious(tasks, i)
    requires !HasResult(s.v, i) && !Finished(s.v, i - 1)
    ensures Step(tasks, cap, s, s') && IsSteered(tasks, cap, s') && !Finished(s'.v, i - 1)
  {
    var t := AnotherIsRunning(tasks, cap, s, i);
    s' := SteeredSettle(tasks, cap, s, t);
  }

  lemma SteeredRelease(tasks: seq<Task>, cap: nat, s: State, t: nat) returns (s': State)
    requires IsUnderWay(s, t) && t < |tasks| && s.v.phase[t].Settled?
    ensures Step(tasks, cap, s, s') && IsSteered(tasks, cap, s')
    ensures forall j: nat :: Finished(s'.v, j) <==> Finished(s.v, j)
  {
    s' := State(s.pc, Release(s.v, t));
    assert ReleaseStep(tasks, s, s', t);
    assert IsUnderWay(s', t);
  }

  lemma SteeredDrop(tasks: seq<Task>, cap: nat, s: State, t: nat) returns (s': State)
    requires IsUnderWay(s, t) && t < |tasks| && s.v.phase[t].Released?
    ensures Step(tasks, cap, s, s') && IsSteered(tasks, cap, s')
    ensures forall j: nat :: Finished(s'.v, j) <==> Finished(s.v, j)
  {
    s' := State(s.pc, Drop(tasks, s.v, t));
    assert DropStep(tasks, s, s', t);
    assert IsCalm(s'.v, {}) && s'.v.phase[t].Dropped?;
    assert RaceWon(s');
  }

  /** The callback of the task under way that is due. */
  lemma SteeredCallback(tasks: seq<Task>, cap: nat, s: State, t: nat) returns (s': State)
    requires Inv(tasks, cap, s) && IsUnderWay(s, t)
    ensures Step(tasks, cap, s, s') && IsSteered(tasks, cap, s')
    ensures forall j: nat :: Finished(s'.v, j) <==> Finished(s.v, j)
  {
    LiveIsStarted(tasks, s.v, t);
    if s.v.phase[t].Settled? {
      s' := SteeredRelease(tasks, cap, s, t);
    } else {
      s' := SteeredDrop(tasks, cap, s, t);
    }
  }

  lemma SteeredSettle(tasks: seq<Task>, cap: nat, s: State, t: nat) returns (s': State)
    requires s.pc.Racing? && IsCalm(s.v, {}) && t < |tasks| && t in s.pc.on && t in s.v.phase && s.v.phase[t].Running?
    ensures Step(tasks, cap, s, s') && IsSteered(tasks, cap, s')
    ensures forall j: nat :: Finished(s'.v, j) <==> Finished(s.v, j) || j == t
  {
    var r := SubagentResult(t, Completed, 0);
    s' := State(s.pc, Settle(tasks, s.v, r));
    assert SettleStep(tasks, s, s', r);
    assert IsUnderWay(s', t);
  }

  /** Tasks and a cap for which `executeAll` leaves through its guard. */
  ghost predicate IsAccepted(tasks: seq<Task>, cap: nat) {
    UniqueIds(tasks) && ValidDependencies(tasks) && Acyclic(GraphOf(tasks)) && cap > 0
  }

  /** A run in which task `i` has its result and the one before it has not. */
  lemma {:induction false} Withhold(tasks: seq<Task>, cap: nat, run: seq<State>, s: State, i: nat)
    returns (longer: seq<State>, s': State)
    requires IsAccepted(tasks, cap) && cap >= 2 && DependBackward(tasks)
    requires 0 < i < |tasks| && !DependsOnPrevious(tasks, i)
    requires EndsAt(tasks, cap, run, s) && IsSteered(tasks, cap, s) && !Finished(s.v, i - 1)
    ensures EndsAt(tasks, cap, longer, s') && HasResult(s'.v, i) && !HasResult(s'.v, i - 1)
    decreases Measure(tasks, s)
  {
    if HasResult(s.v, i) {
      longer, s' := run, s;
      WithheldHasNoResult(tasks, cap, run, s, i - 1);
    } else {
      var next := SteeredNext(tasks, cap, run, s, i);
      RunGrows(tasks, cap, run, s, next);
      longer, s' := Withhold(tasks, cap, run + [next], next, i);
    }
  }

  lemma SteeredNext(tasks: seq<Task>, cap: nat, run: seq<State>, s: State, i: nat) returns (next: State)
    requires IsAccepted(tasks, cap) && cap >= 2 && DependBackward(tasks)
    requires 0 < i < |tasks| && !DependsOnPrevious(tasks, i) && !HasResult(s.v, i)
    requires EndsAt(tasks, cap, run, s) && IsSteered(tasks, cap, s) && !Finished(s.v, i - 1)
    ensures Step(tasks, cap, s, next) && IsSteered(tasks, cap, next) && !Finished(next.v, i - 1)
  {
    EndHolds(tasks, cap, run, s);
    NotEndedYet(tasks, cap, s, i);
    next := SteeredStep(tasks, cap, s, i);
  }

  lemma WithheldHasNoResult(tasks: seq<Task>, cap: nat, run: seq<State>, s: State, w: nat)
    requires UniqueIds(tasks) && EndsAt(tasks, cap, run, s) && !Finished(s.v, w)
    ensures !HasResult(s.v, w)
  {
    EndHolds(tasks, cap, run, s);
    UnfinishedHasNoResult(tasks, s.v, w);
  }

  lemma UnfinishedHasNoResult(tasks: seq<Task>, v: Vars, w: nat)
    requires ResultInv(tasks, v) && !Finished(v, w)
    ensures !HasResult(v, w)
  {
    assert forall k :: 0 <= k < |v.results| ==> Finished(v, v.results[k].task);
  }

  lemma NotEndedYet(tasks: seq<Task>, cap: nat, s: State, i: nat)
    requires IsAccepted(tasks, cap) && Inv(tasks, cap, s) && i < |tasks| && !HasResult(s.v, i)
    ensures !s.pc.Exited? && !s.pc.Broke?
  {
    if s.pc.Exited? {
      ExitHasAllResults(tasks, cap, s);
    } else if s.pc.Broke? {
      BreakMeansCycle(tasks, cap, s);
    }
  }

  // ---- Exactly when the results come in task order ----

  ghost predicate ResultsInOrder(tasks: seq<Task>, cap: nat) {
    forall run: seq<State> :: IsMaximalRun(tasks, cap, run) ==> InTaskOrder(run[|run| - 1].v.results)
  }

  lemma FirstRun(tasks: seq<Task>, cap: nat) returns (run: seq<State>, s: State)
    ensures EndsAt(tasks, cap, run, s) && IsSteered(tasks, cap, s) && s.v == Initial(tasks, cap)
  {
    s := OuterHead(tasks, cap, Initial(tasks, cap));
    run := [s];
    SteeredOuterHead(tasks, cap, Initial(tasks, cap));
  }

  lemma MaximalRunHasAllResults(tasks: seq<Task>, cap: nat, run: seq<State>)
    requires IsAccepted(tasks, cap) && IsMaximalRun(tasks, cap, run)
    ensures OneResultPerTask(tasks, run[|run| - 1].v.results)
  {
    ExecuteAllEnds(tasks, cap, run);
  }

  /** The `k`-th result is that of `i`, and none up to it is that of `w`. */
  ghost predicate ComesFirst(results: seq<SubagentResult>, k: int, i: int, w: int) {
    0 <= k < |results| && results[k].task == i && forall m :: 0 <= m <= k ==> results[m].task != w
  }

  /**
   * With two lanes, a task that does not wait for the one before it can settle
   * first: some run returns the two results the other way round.
   */
  lemma OutOfOrderRun(tasks: seq<Task>, cap: nat, i: nat) returns (run: seq<State>, k: nat)
    requires IsAccepted(tasks, cap) && cap >= 2 && DependBackward(tasks)
    requires 0 < i < |tasks| && !DependsOnPrevious(tasks, i)
    ensures IsMaximalRun(tasks, cap, run) && ComesFirst(run[|run| - 1].v.results, k, i, i - 1)
  {
    var first, s := FirstRun(tasks, cap);
    var longer, s' := Withhold(tasks, cap, first, s, i);
    run := Complete(tasks, cap, longer, s');
    ResultsGrow(tasks, cap, run, |longer| - 1, |run| - 1);
    var results := s'.v.results;
    assert run[|longer| - 1] == s' && results <= run[|run| - 1].v.results;
    k :| 0 <= k < |results| && results[k].task == i;
    FirstStaysFirst(results, run[|run| - 1].v.results, k, i);
  }

  lemma FirstStaysFirst(results: seq<SubagentResult>, longer: seq<SubagentResult>, k: nat, i: nat)
    requires results <= longer && k < |results| && results[k].task == i && i > 0 && !ResultFor(results, i - 1)
    ensures ComesFirst(longer, k, i, i - 1)
  {
    forall m | 0 <= m <= k ensures longer[m].task != i - 1 {
      assert longer[m] == results[m];
    }
  }

  lemma NotInTaskOrder(results: seq<SubagentResult>, k: nat, i: nat)
    requires ComesFirst(results, k, i, i - 1) && i > 0
    ensures !InTaskOrder(results)
  {
    if k == i {
      assert results[i - 1].task != i - 1;
    } else {
      assert results[k].task != k;
    }
  }

  lemma ChainIsNeeded(tasks: seq<Task>, cap: nat)
    requires IsAccepted(tasks, cap) && cap >= 2 && DependBackward(tasks) && !IsChain(tasks)
    ensures !ResultsInOrder(tasks, cap)
  {
    var i: int :| !DependsOnPrevious(tasks, i);
    var run, k := OutOfOrderRun(tasks, cap, i);
    NotInTaskOrder(run[|run| - 1].v.results, k, i);
  }

  /**
   * For tasks that pass the decomposer's checks, `executeAll` returns the results
   * in task order in every run exactly when each task depends only on earlier
   * ones, and either there is one lane or each task depends on the one before it.
   */
  lemma ResultsInOrderIff(tasks: seq<Task>, cap: nat)
    requires IsAccepted(tasks, cap)
    ensures ResultsInOrder(tasks, cap) <==> DependBackward(tasks) && (cap == 1 || IsChain(tasks))
  {
    if DependBackward(tasks) && (cap == 1 || IsChain(tasks)) {
      forall run: seq<State> | IsMaximalRun(tasks, cap, run) ensures InTaskOrder(run[|run| - 1].v.results) {
        RunKeepsOrdered(tasks, cap, run, |run| - 1);
      }
    }
    if ResultsInOrder(tasks, cap) {
      BackwardIsNeeded(tasks, cap);
      if cap != 1 && !IsChain(tasks) {
        ChainIsNeeded(tasks, cap);
      }
    }
  }

  lemma BackwardIsNeeded(tasks: seq<Task>, cap: nat)
    requires IsAccepted(tasks, cap) && ResultsInOrder(tasks, cap)
    ensures DependBackward(tasks)
  {
    var run := SomeMaximalRun(tasks, cap);
    OrderedMeansBackward(tasks, run[|run| - 1].v.results);
  }

  lemma SomeMaximalRun(tasks: seq<Task>, cap: nat) returns (run: seq<State>)
    requires IsAccepted(tasks, cap)
    ensures IsMaximalRun(tasks, cap, run) && ResultsFollow(tasks, run[|run| - 1].v.results)
    ensures |run[|run| - 1].v.results| == |tasks|
  {
    var first, s := FirstRun(tasks, cap);
    run := Complete(tasks, cap, first, s);
    RunFollows(tasks, cap, run, |run| - 1);
    MaximalRunHasAllResults(tasks, cap, run);
  }

  /** Two independent tasks and two lanes: a run that returns the second result first. */
  lemma TwoTasksOutOfOrder() returns (run: seq<State>)
    ensures var tasks := [Task("A", []), Task("B", [])];
            && IsAccepted(tasks, 2) && IsMaximalRun(tasks, 2, run)
            && |run[|run| - 1].v.results| == 2
            && run[|run| - 1].v.results[0].task == 1 && run[|run| - 1].v.results[1].task == 0
  {
    var tasks := [Task("A", []), Task("B", [])];
    IndependentAreAccepted(tasks);
    var k;
    run, k := OutOfOrderRun(tasks, 2, 1);
    MaximalRunHasAllResults(tasks, 2, run);
    TwoResults(tasks, run[|run| - 1].v.results, k);
  }

  lemma IndependentAreAccepted(tasks: seq<Task>)
    requires UniqueIds(tasks) && forall i :: 0 <= i < |tasks| ==> tasks[i].dependencies == []
    ensures IsAccepted(tasks, 2) && DependBackward(tasks)
  {
    forall id ensures Dependencies(GraphOf(tasks), id) == [] {
      GraphKeys(tasks, id);
      if id in GraphOf(tasks) {
        var i :| 0 <= i < |tasks| && tasks[i].id == id;
        GraphHasEveryTask(tasks, i);
      }
    }
    forall walk ensures !IsClosedWalk(GraphOf(tasks), walk) {
      if |walk| >= 2 {
        assert walk[1] !in Dependencies(GraphOf(tasks), walk[0]);
      }
    }
  }

  lemma TwoResults(tasks: seq<Task>, results: seq<SubagentResult>, k: nat)
    requires |tasks| == 2 && OneResultPerTask(tasks, results) && ComesFirst(results, k, 1, 0)
    ensures results[0].task == 1 && results[1].task == 0
  {
    assert ResultFor(results, 0);
    var z :| 0 <= z < |results| && results[z].task == 0;
  }
}
