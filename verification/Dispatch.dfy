/**
 * The concurrent dispatcher of `SubagentManager.executeAll` as a step system.
 *
 * JavaScript runs one piece of code at a time, from one `await` to the next. A
 * state is a moment at which `executeAll` waits at an `await` (or has left its
 * loop); a step either resumes it, or runs one of the callbacks attached to a
 * launched task: settle (`then`), release of the lane, and removal from the
 * active map (`finally`). Steps are taken in any order.
 */
module Dispatch {
  import opened Wrappers
  import opened Tasks

  datatype Status = Completed | Failed

  /** The outcome of one task, named by its position in the task list. */
  datatype SubagentResult = SubagentResult(task: nat, status: Status, retries: nat)

  /** How far a started task has come: its lane is taken, then its promise runs. */
  datatype Phase =
    | Acquired(lane: Option<nat>)
    | Running(lane: Option<nat>)
    | Settled(lane: Option<nat>)
    | Released
    | Dropped

  /** The variables of `executeAll` and the lane pool. */
  datatype Vars = Vars(
    started: seq<nat>,            // tasks with `startedAt`, in the order it was set
    phase: map<nat, Phase>,       // for each started task
    pending: set<Id>,
    completed: set<Id>,
    active: map<Id, nat>,         // `activePromises`, a promise named by its task
    results: seq<SubagentResult>,
    pool: seq<bool>)              // per lane: is it available

  /** The `await` at which `executeAll` is suspended, or the way it left the loop. */
  datatype Pc =
    | Dispatching(task: nat, rest: seq<nat>)   // logging and routing, before `startedAt` is set
    | Acquiring(task: nat, rest: seq<nat>)     // the lane is taken, the task is not launched yet
    | Racing(on: set<nat>)                     // waiting for one of these promises
    | Exited                                   // the loop guard became false
    | Broke                                    // the "shouldn't happen" break

  datatype State = State(pc: Pc, v: Vars)

  // ---- The code between two awaits ----

  predicate ResultFor(results: seq<SubagentResult>, i: nat) {
    exists k :: 0 <= k < |results| && results[k].task == i
  }

  predicate HasResult(v: Vars, i: nat) {
    ResultFor(v.results, i)
  }

  predicate Satisfied(tasks: seq<Task>, v: Vars, i: nat)
    requires i < |tasks|
  {
    forall d :: d in tasks[i].dependencies ==> d in v.completed
  }

  predicate IsReady(tasks: seq<Task>, v: Vars, i: nat)
    requires i < |tasks|
  {
    !HasResult(v, i) && i !in v.started && Satisfied(tasks, v, i)
  }

  /** `getReadyTasks`, for the tasks from position `from` on. */
  function ReadyTasks(tasks: seq<Task>, v: Vars, from: nat): (ready: seq<nat>)
    requires from <= |tasks|
    ensures forall i :: i in ready <==> from <= i < |tasks| && IsReady(tasks, v, i)
    ensures forall i, j :: 0 <= i < j < |ready| ==> ready[i] < ready[j]
    decreases |tasks| - from
  {
    if from == |tasks| then []
    else if IsReady(tasks, v, from) then
      var later := ReadyTasks(tasks, v, from + 1);
      assert forall j :: 0 <= j < |later| ==> later[j] in later;
      [from] + later
    else ReadyTasks(tasks, v, from + 1)
  }

  /** From the inner loop's guard to the next await or exit. */
  function InnerHead(cap: nat, v: Vars, ready: seq<nat>): State {
    if ready != [] && |v.active| < cap then State(Dispatching(ready[0], ready[1..]), v)
    else if v.active != map[] then State(Racing(v.active.Values), v)
    else if v.pending != {} then State(Broke, v)
    else State(Exited, v)
  }

  /** From the outer loop's guard to the next await or exit. */
  function OuterHead(tasks: seq<Task>, cap: nat, v: Vars): State {
    if v.pending == {} && v.active == map[] then State(Exited, v)
    else InnerHead(cap, v, ReadyTasks(tasks, v, 0))
  }

  function Ids(tasks: seq<Task>): set<Id> {
    set i | 0 <= i < |tasks| :: tasks[i].id
  }

  function Initial(tasks: seq<Task>, cap: nat): Vars {
    Vars([], map[], Ids(tasks), {}, map[], [], seq(cap, _ => true))
  }

  /** The first available lane from position `from` on. */
  function FirstFree(pool: seq<bool>, from: nat): (lane: Option<nat>)
    requires from <= |pool|
    ensures lane.Some? ==> from <= lane.value < |pool| && pool[lane.value]
    ensures lane.Some? ==> forall l :: from <= l < lane.value ==> !pool[l]
    ensures lane.None? <==> forall l :: from <= l < |pool| ==> !pool[l]
    decreases |pool| - from
  {
    if from == |pool| then None
    else if pool[from] then Some(from)
    else FirstFree(pool, from + 1)
  }

  /** Marks the task as started and takes a lane. */
  function Begin(v: Vars, task: nat): Vars {
    var lane := FirstFree(v.pool, 0);
    v.(started := v.started + [task],
       phase := v.phase[task := Acquired(lane)],
       pool := if lane.Some? then v.pool[lane.value := false] else v.pool)
  }

  /** Starts the task's promise. */
  function Launch(tasks: seq<Task>, v: Vars, task: nat): Vars
    requires task < |tasks| && task in v.phase && v.phase[task].Acquired?
  {
    var id := tasks[task].id;
    v.(phase := v.phase[task := Running(v.phase[task].lane)],
       active := v.active[id := task],
       pending := v.pending - {id})
  }

  /** The promise's `then` callback. A failed task enters `completed` as well. */
  function Settle(tasks: seq<Task>, v: Vars, r: SubagentResult): Vars
    requires r.task < |tasks| && r.task in v.phase && v.phase[r.task].Running?
  {
    var id := tasks[r.task].id;
    v.(phase := v.phase[r.task := Settled(v.phase[r.task].lane)],
       results := v.results + [r],
       completed := v.completed + {id},
       pending := v.pending - {id})
  }

  function Release(v: Vars, i: nat): Vars
    requires i in v.phase && v.phase[i].Settled?
  {
    var lane := v.phase[i].lane;
    v.(phase := v.phase[i := Released],
       pool := if lane.Some? && lane.value < |v.pool| then v.pool[lane.value := true] else v.pool)
  }

  function Drop(tasks: seq<Task>, v: Vars, i: nat): Vars
    requires i < |tasks| && i in v.phase && v.phase[i].Released?
  {
    v.(phase := v.phase[i := Dropped], active := v.active - {tasks[i].id})
  }

  // ---- Steps and runs ----

  predicate RaceWon(s: State) {
    s.pc.Racing? && exists i :: i in s.pc.on && i in s.v.phase && s.v.phase[i].Dropped?
  }

  predicate ResumeStep(tasks: seq<Task>, cap: nat, s: State, s': State) {
    match s.pc
    case Dispatching(task, rest) => s' == State(Acquiring(task, rest), Begin(s.v, task))
    case Acquiring(task, rest) =>
      && task < |tasks| && task in s.v.phase && s.v.phase[task].Acquired?
      && s' == InnerHead(cap, Launch(tasks, s.v, task), rest)
    case Racing(_) => RaceWon(s) && s' == OuterHead(tasks, cap, s.v)
    case Exited => false
    case Broke => false
  }

  predicate SettleStep(tasks: seq<Task>, s: State, s': State, r: SubagentResult) {
    && r.task < |tasks| && r.task in s.v.phase && s.v.phase[r.task].Running?
    && s' == State(s.pc, Settle(tasks, s.v, r))
  }

  predicate ReleaseStep(tasks: seq<Task>, s: State, s': State, i: nat) {
    && i < |tasks| && i in s.v.phase && s.v.phase[i].Settled?
    && s' == State(s.pc, Release(s.v, i))
  }

  predicate DropStep(tasks: seq<Task>, s: State, s': State, i: nat) {
    && i < |tasks| && i in s.v.phase && s.v.phase[i].Released?
    && s' == State(s.pc, Drop(tasks, s.v, i))
  }

  ghost predicate CallbackStep(tasks: seq<Task>, s: State, s': State) {
    || (exists r :: SettleStep(tasks, s, s', r))
    || (exists i :: ReleaseStep(tasks, s, s', i))
    || (exists i :: DropStep(tasks, s, s', i))
  }

  ghost predicate Step(tasks: seq<Task>, cap: nat, s: State, s': State) {
    ResumeStep(tasks, cap, s, s') || CallbackStep(tasks, s, s')
  }

  ghost predicate CanStep(tasks: seq<Task>, cap: nat, s: State) {
    exists s' :: Step(tasks, cap, s, s')
  }

  ghost predicate IsStepAt(tasks: seq<Task>, cap: nat, run: seq<State>, j: nat, k: nat)
    requires j < |run| && k < |run|
  {
    Step(tasks, cap, run[j], run[k])
  }

  ghost predicate IsRun(tasks: seq<Task>, cap: nat, run: seq<State>) {
    && run != []
    && run[0] == OuterHead(tasks, cap, Initial(tasks, cap))
    && forall j, k :: 0 <= j && k == j + 1 && k < |run| ==> IsStepAt(tasks, cap, run, j, k)
  }

  // ---- The invariant ----

  /** The task's promise is in the active map. */
  ghost predicate Live(v: Vars, i: nat) {
    i in v.phase && !v.phase[i].Acquired? && !v.phase[i].Dropped?
  }

  ghost predicate Launched(v: Vars, i: nat) {
    i in v.phase && !v.phase[i].Acquired?
  }

  ghost predicate Finished(v: Vars, i: nat) {
    i in v.phase && !v.phase[i].Acquired? && !v.phase[i].Running?
  }

  /** The task has a lane to give back. */
  ghost predicate HasLane(v: Vars, i: nat) {
    i in v.phase && !v.phase[i].Released? && !v.phase[i].Dropped?
  }

  /** Task `i` is the one to give lane `l` back. */
  ghost predicate Holds(v: Vars, i: nat, l: nat) {
    HasLane(v, i) && v.phase[i].lane == Some(l)
  }

  ghost predicate AllBelow(s: seq<nat>, n: nat) {
    forall k :: 0 <= k < |s| ==> s[k] < n
  }

  ghost predicate NoRepeats(s: seq<nat>) {
    forall j, k :: 0 <= j < k < |s| ==> s[j] != s[k]
  }

  ghost predicate StartedInv(tasks: seq<Task>, v: Vars) {
    && AllBelow(v.started, |tasks|)
    && NoRepeats(v.started)
    && (forall i :: i in v.phase <==> i in v.started)
  }

  /** `active` and `pending` say which tasks are launched and not yet dropped. */
  ghost predicate ActiveInv(tasks: seq<Task>, v: Vars) {
    && (forall id :: id in v.active ==>
          v.active[id] < |tasks| && Live(v, v.active[id]) && tasks[v.active[id]].id == id)
    && (forall i :: 0 <= i < |tasks| && Live(v, i) ==> tasks[i].id in v.active && v.active[tasks[i].id] == i)
    && (forall i :: 0 <= i < |tasks| ==> (tasks[i].id in v.pending <==> !Launched(v, i)))
    && (forall id :: id in v.pending ==> HasId(tasks, id))
  }

  /** `completed` and `results` say which tasks have settled. */
  ghost predicate ResultInv(tasks: seq<Task>, v: Vars) {
    && (forall i :: 0 <= i < |tasks| ==> (tasks[i].id in v.completed <==> Finished(v, i)))
    && (forall id :: id in v.completed ==> HasId(tasks, id))
    && (forall k :: 0 <= k < |v.results| ==> Finished(v, v.results[k].task))
    && (forall j, k :: 0 <= j < k < |v.results| ==> v.results[j].task != v.results[k].task)
    && (forall i :: 0 <= i < |tasks| && Finished(v, i) ==> HasResult(v, i))
  }

  /** A lane is taken exactly while one task holds it. */
  ghost predicate LaneInv(cap: nat, v: Vars) {
    && |v.pool| == cap
    && (forall i :: HasLane(v, i) ==> v.phase[i].lane.Some? && v.phase[i].lane.value < cap)
    && (forall l: nat :: l < cap ==> (!v.pool[l] <==> exists i: nat :: Holds(v, i, l)))
    && (forall i: nat, j: nat :: HasLane(v, i) && HasLane(v, j) && v.phase[i].lane == v.phase[j].lane ==> i == j)
  }

  ghost function StartedIds(tasks: seq<Task>, started: seq<nat>): (ids: seq<Id>)
    requires AllBelow(started, |tasks|)
    ensures |ids| == |started|
    ensures forall k :: 0 <= k < |started| ==> ids[k] == tasks[started[k]].id
  {
    seq(|started|, k requires 0 <= k < |started| => tasks[started[k]].id)
  }

  /** Every dependency of a started task was itself started earlier and has settled. */
  ghost predicate OrderInv(tasks: seq<Task>, v: Vars)
    requires AllBelow(v.started, |tasks|)
  {
    && (forall k :: 0 <= k < |v.started| ==> Satisfied(tasks, v, v.started[k]))
    && (forall k, d :: 0 <= k < |v.started| && d in tasks[v.started[k]].dependencies ==>
          d in StartedIds(tasks, v.started[..k]))
  }

  ghost predicate VarsInv(tasks: seq<Task>, cap: nat, v: Vars) {
    && StartedInv(tasks, v)
    && ActiveInv(tasks, v)
    && ResultInv(tasks, v)
    && LaneInv(cap, v)
    && OrderInv(tasks, v)
    && |v.active| <= cap
    && (v.started == [] || cap > 0)
  }

  /** The tasks still to be dispatched from a list of ready tasks. */
  ghost predicate RestInv(tasks: seq<Task>, v: Vars, rest: seq<nat>) {
    && AllBelow(rest, |tasks|)
    && NoRepeats(rest)
    && forall k :: 0 <= k < |rest| ==> rest[k] !in v.started && Satisfied(tasks, v, rest[k])
  }

  /** Between steps a lane is taken for a task that is not launched only while acquiring. */
  ghost predicate AcquiredOnly(v: Vars, only: set<nat>) {
    forall i :: i in v.phase && v.phase[i].Acquired? ==> i in only
  }

  ghost predicate PcInv(tasks: seq<Task>, cap: nat, s: State) {
    match s.pc
    case Dispatching(task, rest) =>
      && RestInv(tasks, s.v, [task] + rest)
      && |s.v.active| < cap && AcquiredOnly(s.v, {})
    case Acquiring(task, rest) =>
      && RestInv(tasks, s.v, rest)
      && task in s.v.phase && s.v.phase[task].Acquired?
      && |s.v.active| < cap && AcquiredOnly(s.v, {task})
    case Racing(on) =>
      && on != {} && AcquiredOnly(s.v, {})
      && (forall i :: i in on ==> Launched(s.v, i))
      && (forall i :: Live(s.v, i) ==> i in on)
    case Exited => s.v.pending == {} && s.v.active == map[] && AcquiredOnly(s.v, {})
    case Broke =>
      && s.v.pending != {} && s.v.active == map[] && AcquiredOnly(s.v, {})
      && (cap == 0 || forall i :: 0 <= i < |tasks| ==> !IsReady(tasks, s.v, i))
  }

  ghost predicate Inv(tasks: seq<Task>, cap: nat, s: State) {
    VarsInv(tasks, cap, s.v) && PcInv(tasks, cap, s)
  }
}
