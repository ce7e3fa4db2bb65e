/** `SubagentManager` and the lane pool of `WorktreeManager`, in the form of the source. */
module SubagentManager {
  import opened Wrappers
  import opened Tasks
  import opened Dispatch
  import opened DispatchInvariant
  import opened DispatchTheorems

  // ---- The lane pool ----

  /** The in-process pool: a map from lane to availability that remembers insertion order. */
  class WorktreePool {
    var keys: seq<nat>
    var available: map<nat, bool>

    ghost predicate Valid()
      reads this
    {
      && NoRepeats(keys)
      && forall l :: l in available <==> l in keys
    }

    /** The availability of each lane, in iteration order. */
    ghost function Pool(): seq<bool>
      reads this
      requires Valid()
    {
      seq(|keys|, k requires 0 <= k < |keys| reads this requires Valid() => available[keys[k]])
    }

    constructor (maxWorktrees: nat)
      ensures Valid() && keys == seq(maxWorktrees, l => l)
      ensures Pool() == seq(maxWorktrees, _ => true)
    {
      keys, available := [], map[];
      new;
      var i := 0;
      while i < maxWorktrees
        invariant 0 <= i <= maxWorktrees
        invariant keys == seq(i, l => l)
        invariant forall l :: l in available <==> l in keys
        invariant forall l :: l in available <==> 0 <= l < i
        invariant forall l :: 0 <= l < i ==> available[l]
      {
        keys := keys + [i];
        available := available[i := true];
        i := i + 1;
      }
    }

    /** Takes the first available lane in iteration order; `None` only when there is none. */
    method Acquire() returns (lane: Option<nat>)
      requires Valid()
      modifies this
      ensures Valid() && keys == old(keys)
      ensures match FirstFree(old(Pool()), 0)
              case None => lane == None && Pool() == old(Pool())
              case Some(k) => lane == Some(keys[k]) && Pool() == old(Pool())[k := false]
    {
      var k := 0;
      while k < |keys|
        invariant 0 <= k <= |keys|
        invariant forall m :: 0 <= m < k ==> !Pool()[m]
      {
        if available[keys[k]] {
          assert Pool()[k];
          available := available[keys[k] := false];
          assert Pool() == old(Pool())[k := false];
          return Some(keys[k]);
        }
        k := k + 1;
      }
      lane := None;
    }

    /** Gives a lane back. A lane the pool does not know is added to it. */
    method Release(id: nat)
      requires Valid()
      modifies this
      ensures Valid()
      ensures id in old(keys) ==> keys == old(keys)
      ensures forall k :: 0 <= k < |old(keys)| && old(keys)[k] == id ==> Pool() == old(Pool())[k := true]
      ensures id !in old(keys) ==> keys == old(keys) + [id] && Pool() == old(Pool()) + [true]
    {
      if id !in available {
        keys := keys + [id];
      }
      available := available[id := true];
    }

    method GetAvailableCount() returns (count: nat)
      requires Valid()
      ensures count == FreeLanes(Pool())
    {
      count := 0;
      var k := 0;
      while k < |keys|
        invariant 0 <= k <= |keys|
        invariant count == FreeLanes(Pool()[..k])
      {
        assert Pool()[..k + 1][..k] == Pool()[..k];
        if available[keys[k]] {
          count := count + 1;
        }
        k := k + 1;
      }
      assert Pool()[..k] == Pool();
    }
  }

  // ---- One task ----

  /** What a provider call does: the two facts about an error that decide on a retry. */
  datatype Attempt = Succeeds | Throws(retryable: bool, unauthorized: bool)

  predicate IsRetried(a: Attempt) {
    a.Throws? && a.retryable && !a.unauthorized
  }

  /**
   * Runs one task: it calls the provider until an attempt succeeds or fails for
   * good, at most `maxRetries + 1` times, and always comes back with a result.
   */
  method ExecuteTask(task: nat, maxRetries: nat, outcome: nat -> Attempt) returns (r: SubagentResult, calls: nat)
    ensures r.task == task && r.retries <= maxRetries && calls == r.retries + 1
    ensures forall a :: 0 <= a < r.retries ==> IsRetried(outcome(a))
    ensures r.retries < maxRetries ==> !IsRetried(outcome(r.retries))
    ensures r.status == Completed <==> outcome(r.retries) == Succeeds
  {
    calls := 0;
    var attempt := 0;
    while attempt <= maxRetries
      invariant attempt <= maxRetries + 1 && calls == attempt
      invariant forall a :: 0 <= a < attempt ==> IsRetried(outcome(a))
    {
      calls := calls + 1;
      match outcome(attempt) {
        case Succeeds =>
          return SubagentResult(task, Completed, attempt), calls;
        case Throws(retryable, unauthorized) =>
          if !retryable || unauthorized {
            return SubagentResult(task, Failed, attempt), calls;
          }
      }
      attempt := attempt + 1;
    }
    r := SubagentResult(task, Failed, maxRetries);
  }

  // ---- All tasks ----

  /**
   * The result says what the provider did with the task: it names the last
   * attempt, all attempts before it were retried, it was the last one allowed or
   * not to be retried, and the task is completed exactly when it succeeded.
   */
  ghost predicate IsOutcome(r: SubagentResult, maxRetries: nat, outcome: (nat, nat) -> Attempt) {
    && r.retries <= maxRetries
    && (r.status == Completed <==> outcome(r.task, r.retries) == Succeeds)
    && (forall a :: 0 <= a < r.retries ==> IsRetried(outcome(r.task, a)))
    && (r.retries < maxRetries ==> !IsRetried(outcome(r.task, r.retries)))
  }

  ghost predicate AreOutcomes(results: seq<SubagentResult>, maxRetries: nat, outcome: (nat, nat) -> Attempt) {
    forall k :: 0 <= k < |results| ==> IsOutcome(results[k], maxRetries, outcome)
  }

  /** The callback of task `i` that is due next. */
  method RunCallback(tasks: seq<Task>, maxRetries: nat, outcome: (nat, nat) -> Attempt, s: State, i: nat)
    returns (s': State)
    requires i < |tasks| && Live(s.v, i)
    ensures CallbackStep(tasks, s, s')
    ensures AreOutcomes(s.v.results, maxRetries, outcome) ==> AreOutcomes(s'.v.results, maxRetries, outcome)
  {
    match s.v.phase[i]
    case Running(_) =>
      var attempts := (a: nat) => outcome(i, a);
      var r, _ := ExecuteTask(i, maxRetries, attempts);
      forall a | 0 <= a < r.retries ensures IsRetried(outcome(i, a)) {
        assert IsRetried(attempts(a));
      }
      assert IsOutcome(r, maxRetries, outcome);
      s' := State(s.pc, Settle(tasks, s.v, r));
      assert SettleStep(tasks, s, s', r);
    case Settled(_) =>
      s' := State(s.pc, Release(s.v, i));
      assert ReleaseStep(tasks, s, s', i);
    case Released =>
      s' := State(s.pc, Drop(tasks, s.v, i));
      assert DropStep(tasks, s, s', i);
  }

  lemma StartedIsATask(tasks: seq<Task>, cap: nat, run: seq<State>, s: State, i: nat)
    requires UniqueIds(tasks) && EndsAt(tasks, cap, run, s) && i in s.v.phase
    ensures i < |tasks|
  {
    EndHolds(tasks, cap, run, s);
    LiveIsStarted(tasks, s.v, i);
  }

  /** An await: any number of callbacks run, in any order, before `executeAll` goes on. */
  method Interleave(tasks: seq<Task>, cap: nat, maxRetries: nat, outcome: (nat, nat) -> Attempt,
                    s: State, ghost run: seq<State>)
    returns (s': State, ghost run': seq<State>)
    requires UniqueIds(tasks) && EndsAt(tasks, cap, run, s) && AreOutcomes(s.v.results, maxRetries, outcome)
    ensures EndsAt(tasks, cap, run', s') && s'.pc == s.pc && AreOutcomes(s'.v.results, maxRetries, outcome)
    ensures Measure(tasks, s') <= Measure(tasks, s)
  {
    s', run' := s, run;
    while *
      invariant EndsAt(tasks, cap, run', s') && s'.pc == s.pc && AreOutcomes(s'.v.results, maxRetries, outcome)
      invariant Measure(tasks, s') <= Measure(tasks, s)
      decreases Measure(tasks, s')
    {
      var live := set i | i in s'.v.phase && !s'.v.phase[i].Acquired? && !s'.v.phase[i].Dropped?;
      if live == {} { break; }
      var i :| i in live;
      StartedIsATask(tasks, cap, run', s', i);
      var next := RunCallback(tasks, maxRetries, outcome, s', i);
      RunGrows(tasks, cap, run', s', next);
      s', run' := next, run' + [next];
    }
  }

  lemma SomeTaskIsRaced(tasks: seq<Task>, cap: nat, run: seq<State>, s: State)
    requires UniqueIds(tasks) && EndsAt(tasks, cap, run, s) && s.pc.Racing? && !RaceWon(s)
    ensures s.pc.on != {} && forall i :: i in s.pc.on ==> i < |tasks| && Live(s.v, i)
  {
    EndHolds(tasks, cap, run, s);
    forall i | i in s.pc.on ensures i < |tasks| && Live(s.v, i) {
      LiveIsStarted(tasks, s.v, i);
    }
  }

  /** `Promise.race`: callbacks run until one of the raced promises is done. */
  method AwaitRace(tasks: seq<Task>, cap: nat, maxRetries: nat, outcome: (nat, nat) -> Attempt,
                   s: State, ghost run: seq<State>)
    returns (s': State, ghost run': seq<State>)
    requires UniqueIds(tasks) && EndsAt(tasks, cap, run, s) && s.pc.Racing?
    requires AreOutcomes(s.v.results, maxRetries, outcome)
    ensures EndsAt(tasks, cap, run', s') && RaceWon(s') && AreOutcomes(s'.v.results, maxRetries, outcome)
    ensures Measure(tasks, s') <= Measure(tasks, s)
  {
    s', run' := Interleave(tasks, cap, maxRetries, outcome, s, run);
    while !RaceWon(s')
      invariant EndsAt(tasks, cap, run', s') && s'.pc.Racing? && AreOutcomes(s'.v.results, maxRetries, outcome)
      invariant Measure(tasks, s') <= Measure(tasks, s)
      decreases Measure(tasks, s')
    {
      SomeTaskIsRaced(tasks, cap, run', s');
      var i :| i in s'.pc.on;
      var next := RunCallback(tasks, maxRetries, outcome, s', i);
      RunGrows(tasks, cap, run', s', next);
      s', run' := Interleave(tasks, cap, maxRetries, outcome, next, run' + [next]);
    }
  }

  /** The body of the inner loop: the awaits before a task is launched, and its launch. */
  method DispatchTask(tasks: seq<Task>, cap: nat, maxRetries: nat, outcome: (nat, nat) -> Attempt,
                      v: Vars, task: nat, rest: seq<nat>, ghost run: seq<State>)
    returns (v': Vars, ghost run': seq<State>)
    requires UniqueIds(tasks) && EndsAt(tasks, cap, run, State(Dispatching(task, rest), v))
    requires AreOutcomes(v.results, maxRetries, outcome)
    ensures EndsAt(tasks, cap, run', InnerHead(cap, v', rest)) && v'.active != map[]
    ensures AreOutcomes(v'.results, maxRetries, outcome)
    ensures Measure(tasks, InnerHead(cap, v', rest)) < Measure(tasks, State(Dispatching(task, rest), v))
  {
    // Await the dispatch log, the routing decision and the second log.
    var s, run1 := Interleave(tasks, cap, maxRetries, outcome, State(Dispatching(task, rest), v), run);
    var begun := State(Acquiring(task, rest), Begin(s.v, task));
    RunGrows(tasks, cap, run1, s, begun);

    // Await the lane.
    s, run1 := Interleave(tasks, cap, maxRetries, outcome, begun, run1 + [begun]);
    AcquiredIsATask(tasks, cap, run1, s);
    v' := Launch(tasks, s.v, task);
    assert v'.active[tasks[task].id] == task;
    RunGrows(tasks, cap, run1, s, InnerHead(cap, v', rest));
    run' := run1 + [InnerHead(cap, v', rest)];
  }

  lemma AcquiredIsATask(tasks: seq<Task>, cap: nat, run: seq<State>, s: State)
    requires UniqueIds(tasks) && EndsAt(tasks, cap, run, s) && s.pc.Acquiring?
    ensures s.pc.task < |tasks| && s.pc.task in s.v.phase && s.v.phase[s.pc.task].Acquired?
  {
    EndHolds(tasks, cap, run, s);
    LiveIsStarted(tasks, s.v, s.pc.task);
  }

  lemma RunHasEnded(tasks: seq<Task>, cap: nat, run: seq<State>, s: State)
    requires UniqueIds(tasks) && EndsAt(tasks, cap, run, s) && (s.pc.Exited? || s.pc.Broke?)
    ensures s.pc.Exited? <==> tasks == [] || (cap > 0 && ValidDependencies(tasks) && Acyclic(GraphOf(tasks)))
    ensures s.pc.Exited? ==> OneResultPerTask(tasks, s.v.results)
  {
    EndHolds(tasks, cap, run, s);
    EndState(tasks, cap, s);
  }

  /**
   * Executes all tasks. Whatever the interleaving, it follows a run of the step
   * system; it comes back through the loop guard with one result per task exactly
   * when the dependencies exist and are acyclic, and through the break otherwise.
   * Each result says what the provider did with its task.
   */
  method ExecuteAll(tasks: seq<Task>, cap: nat, maxRetries: nat, outcome: (nat, nat) -> Attempt)
    returns (results: seq<SubagentResult>, broke: bool, ghost run: seq<State>)
    requires UniqueIds(tasks)
    ensures IsRun(tasks, cap, run) && results == run[|run| - 1].v.results
    ensures run[|run| - 1].pc == if broke then Broke else Exited
    ensures !broke <==> tasks == [] || (cap > 0 && ValidDependencies(tasks) && Acyclic(GraphOf(tasks)))
    ensures !broke ==> OneResultPerTask(tasks, results)
    ensures AreOutcomes(results, maxRetries, outcome)
  {
    var v := Initial(tasks, cap);
    broke := false;
    run := [OuterHead(tasks, cap, v)];
    while v.pending != {} || v.active != map[]
      invariant EndsAt(tasks, cap, run, OuterHead(tasks, cap, v)) && !broke
      invariant AreOutcomes(v.results, maxRetries, outcome)
      decreases Measure(tasks, OuterHead(tasks, cap, v))
    {
      var ready := ReadyTasks(tasks, v, 0);
      ghost var atGuard := v;
      while ready != [] && |v.active| < cap
        invariant EndsAt(tasks, cap, run, InnerHead(cap, v, ready))
        invariant (v == atGuard || v.active != map[]) && AreOutcomes(v.results, maxRetries, outcome)
        invariant Measure(tasks, InnerHead(cap, v, ready)) <= Measure(tasks, OuterHead(tasks, cap, atGuard))
        decreases Measure(tasks, InnerHead(cap, v, ready))
      {
        var task := ready[0];
        ready := ready[1..];
        v, run := DispatchTask(tasks, cap, maxRetries, outcome, v, task, ready, run);
      }

      if v.active != map[] {
        var s, run1 := AwaitRace(tasks, cap, maxRetries, outcome, State(Racing(v.active.Values), v), run);
        v := s.v;
        RunGrows(tasks, cap, run1, s, OuterHead(tasks, cap, v));
        run := run1 + [OuterHead(tasks, cap, v)];
      } else if v.pending != {} {
        broke := true;
        break;
      }
    }
    results := v.results;
    RunHasEnded(tasks, cap, run, State(if broke then Broke else Exited, v));
  }
}
