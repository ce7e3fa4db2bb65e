/**
 * The verification mesh: each call runs agent A, and for a qualifying task agent B
 * and an arbiter. Calls may overlap; a step runs from one await to the next. Costs
 * are in cents.
 */
module VerificationMesh {
  import opened Wrappers
  import opened Providers

  // ---- Prices ----

  function ListedPrice(p: Provider): real {
    match p
    case OpencodeGo => 2.0
    case AnthropicApi => 3.0
    case GeminiApi => 1.0
    case DeepseekV4 => 2.0
    case Deepseek => 1.0
    case Tavily => 0.5
    case Gemini => 0.5
    case MoonshotK25 => 2.0
    case MoonshotK26 => 2.5
    case XiaomiMimo => 0.5
    case CarniceLocal => 0.0
    case Qwen35Plus => 1.0
    case Qwen36Plus => 1.5
    case MinimaxM25 => 1.0
    case MinimaxM27 => 1.5
    case GlmDeepinfra => 0.5
    case GlmFireworks => 0.5
    case GlmZai => 0.5
    case Groq => 0.3
    case KiroAi => 0.2
    case Mistral => 0.5
    case Openai => 1.0
    case ClaudeCodeCli => 0.0
    case CodexCli => 0.0
    case GeminiCli => 0.0
  }

  const LOWEST_PRICE := 0.2
  const TOP_PRICE := 3.0

  /** What one provider call is estimated at. */
  type Price = c: real | LOWEST_PRICE <= c <= TOP_PRICE witness 1.0

  /** A listed price of 0 counts as missing and is replaced by 1. */
  function EstimateCost(p: Provider): (cost: Price)
    ensures cost == if p in {CarniceLocal, ClaudeCodeCli, CodexCli, GeminiCli} then 1.0 else ListedPrice(p)
    ensures ListedPrice(p) == 0.0 <==> p in {CarniceLocal, ClaudeCodeCli, CodexCli, GeminiCli}
  {
    var price := ListedPrice(p);
    if price == 0.0 then 1.0 else price
  }

  // ---- Which tasks qualify ----

  datatype Complexity = Unspecified | Low | Medium | High | Critical

  datatype Policy = Policy(enabled: bool, minComplexity: Complexity, maxExtraCostPct: real)

  datatype MeshTask = MeshTask(complexity: Complexity, filesModified: Option<nat>)

  function ShouldVerify(task: MeshTask, policy: Policy, meshEnabled: bool): bool {
    if !policy.enabled || !meshEnabled then false
    else if policy.minComplexity == Critical && task.complexity != Critical then false
    else if policy.minComplexity == High && task.complexity != High && task.complexity != Critical then false
    else if task.filesModified.Some? && task.filesModified.value != 0 && task.filesModified.value < 3 then false
    else true
  }

  function Rank(c: Complexity): nat {
    match c
    case Unspecified => 0
    case Low => 1
    case Medium => 2
    case High => 3
    case Critical => 4
  }

  /** A task qualifies by its complexity, and by touching three files, none, or an unknown number. */
  lemma QualifyingTasks(task: MeshTask, policy: Policy, meshEnabled: bool)
    requires policy.minComplexity == High || policy.minComplexity == Critical
    ensures ShouldVerify(task, policy, meshEnabled) <==>
              && policy.enabled && meshEnabled
              && Rank(task.complexity) >= Rank(policy.minComplexity)
              && task.filesModified != Some(1) && task.filesModified != Some(2)
  {
    assert task.filesModified.Some? && task.filesModified.value < 3 ==> task.filesModified.value in {0, 1, 2};
  }

  // ---- Calls and steps ----

  /** `paid` is what the call has added to the session costs so far. */
  datatype Call =
    | RunningA(verify: bool)
    | RunningB(paid: real)
    | Arbitrating(paid: real, costB: Price)
    | Finishing(paid: real, applied: bool)
    | Returned(paid: real, applied: bool)     // `paid` is the returned total cost
    | Threw(paid: real)
  {
    predicate InFlight() { !Returned? && !Threw? }
    /** The call will be verified, but has not paid its share of the base cost yet. */
    predicate Unpaid() { RunningA? && verify }
    /** The call has paid for agent A and may still add to the verification cost. */
    predicate Paying() { RunningB? || Arbitrating? }
    function Paid(): real { if RunningA? then 0.0 else paid }
  }

  datatype State = State(base: real, verification: real, enabled: bool, calls: seq<Call>)

  const Fresh := State(0.0, 0.0, true, [])

  datatype Step =
    | Start(task: MeshTask)
    | SettleA(c: nat, cost: Price)
    | SettleB(c: nat, costB: Option<Price>)   // `None`: timed out or crashed
    | Arbitrate(c: nat, arbiter: Price)
    | Return(c: nat)
    | Throw(c: nat)

  /** The budget test after a verification: extra cost above the policy's share of the base cost. */
  predicate Exceeds(verification: real, base: real, policy: Policy)
    requires base != 0.0
  {
    verification / base * 100.0 > policy.maxExtraCostPct
  }

  ghost predicate Next(policy: Policy, s: State, t: State, step: Step) {
    match step
    case Start(task) =>
      t == s.(calls := s.calls + [RunningA(ShouldVerify(task, policy, s.enabled))])
    case SettleA(c, cost) =>
      && c < |s.calls| && s.calls[c].RunningA?
      && t == s.(base := s.base + cost,
                 calls := s.calls[c := if s.calls[c].verify then RunningB(cost) else Finishing(cost, false)])
    case SettleB(c, b) =>
      && c < |s.calls| && s.calls[c].RunningB?
      && t == s.(calls := s.calls[c := if b.None? then Finishing(s.calls[c].paid, false)
                                       else Arbitrating(s.calls[c].paid, b.value)])
    case Arbitrate(c, arbiter) =>
      && c < |s.calls| && s.calls[c].Arbitrating? && s.base != 0.0
      && var cost := s.calls[c].costB + arbiter;
         var verification := s.verification + cost;
         t == State(s.base, verification, s.enabled && !Exceeds(verification, s.base, policy),
                    s.calls[c := Finishing(s.calls[c].paid + cost, true)])
    case Return(c) =>
      && c < |s.calls| && s.calls[c].Finishing?
      && t == s.(calls := s.calls[c := Returned(s.calls[c].paid, s.calls[c].applied)])
    case Throw(c) =>
      && c < |s.calls| && s.calls[c].InFlight()
      && t == s.(calls := s.calls[c := Threw(s.calls[c].Paid())])
  }

  // ---- Sums over the calls ----

  function TotalPaid(calls: seq<Call>): real {
    if calls == [] then 0.0 else TotalPaid(calls[..|calls| - 1]) + calls[|calls| - 1].Paid()
  }

  function CountInFlight(calls: seq<Call>): nat {
    if calls == [] then 0
    else CountInFlight(calls[..|calls| - 1]) + if calls[|calls| - 1].InFlight() then 1 else 0
  }

  function CountUnpaid(calls: seq<Call>): nat {
    if calls == [] then 0
    else CountUnpaid(calls[..|calls| - 1]) + if calls[|calls| - 1].Unpaid() then 1 else 0
  }

  function CountPaying(calls: seq<Call>): nat {
    if calls == [] then 0
    else CountPaying(calls[..|calls| - 1]) + if calls[|calls| - 1].Paying() then 1 else 0
  }

  lemma {:induction false} SumsAfterUpdate(calls: seq<Call>, c: nat, call: Call)
    requires c < |calls|
    ensures var after := calls[c := call];
            && TotalPaid(after) == TotalPaid(calls) - calls[c].Paid() + call.Paid()
            && CountInFlight(after) == CountInFlight(calls)
                 - (if calls[c].InFlight() then 1 else 0) + (if call.InFlight() then 1 else 0)
            && CountUnpaid(after) == CountUnpaid(calls)
                 - (if calls[c].Unpaid() then 1 else 0) + (if call.Unpaid() then 1 else 0)
            && CountPaying(after) == CountPaying(calls)
                 - (if calls[c].Paying() then 1 else 0) + (if call.Paying() then 1 else 0)
  {
    var n := |calls| - 1;
    var after := calls[c := call];
    if c < n {
      SumsAfterUpdate(calls[..n], c, call);
      assert after[..n] == calls[..n][c := call];
    } else {
      assert after[..n] == calls[..n];
    }
  }

  lemma SumsAfterStart(calls: seq<Call>, call: Call)
    ensures var after := calls + [call];
            && TotalPaid(after) == TotalPaid(calls) + call.Paid()
            && CountInFlight(after) == CountInFlight(calls) + (if call.InFlight() then 1 else 0)
            && CountUnpaid(after) == CountUnpaid(calls) + (if call.Unpaid() then 1 else 0)
            && CountPaying(after) == CountPaying(calls) + (if call.Paying() then 1 else 0)
  {
    assert (calls + [call])[..|calls|] == calls;
  }

  lemma {:induction false} VerifyingAreInFlight(calls: seq<Call>)
    ensures CountUnpaid(calls) + CountPaying(calls) <= CountInFlight(calls)
  {
    if calls != [] {
      VerifyingAreInFlight(calls[..|calls| - 1]);
    }
  }

  // ---- Runs ----

  ghost predicate Steps(policy: Policy, s: State, t: State) {
    exists step :: Next(policy, s, t, step)
  }

  /** A session in which at most `width` calls are in flight at a time. */
  ghost predicate IsSession(policy: Policy, width: nat, trace: seq<State>) {
    && |trace| > 0 && trace[0] == Fresh
    && (forall i, j :: 0 <= i && j == i + 1 && j < |trace| ==> Steps(policy, trace[i], trace[j]))
    && forall i :: 0 <= i < |trace| ==> CountInFlight(trace[i].calls) <= width
  }

  /** What the session has cost is what its calls have paid. */
  ghost predicate IsConserved(s: State) {
    && s.base >= 0.0 && s.base + s.verification == TotalPaid(s.calls)
    && forall c :: 0 <= c < |s.calls| ==> PaysFor(s, s.calls[c])
  }

  ghost predicate PaysFor(s: State, call: Call) {
    call.RunningB? || call.Arbitrating? ==> s.base > 0.0
  }

  lemma StepKeepsConserved(policy: Policy, s: State, t: State, step: Step)
    requires IsConserved(s) && Next(policy, s, t, step)
    ensures IsConserved(t)
  {
    if step.Start? {
      SumsAfterStart(s.calls, t.calls[|s.calls|]);
    } else {
      SumsAfterUpdate(s.calls, step.c, t.calls[step.c]);
      assert PaysFor(s, s.calls[step.c]);
    }
    forall c | 0 <= c < |t.calls| ensures PaysFor(t, t.calls[c]) {
      assert c < |s.calls| ==> PaysFor(s, s.calls[c]);
    }
  }

  lemma {:induction false} SessionIsConserved(policy: Policy, width: nat, trace: seq<State>, i: nat)
    requires IsSession(policy, width, trace) && i < |trace|
    ensures IsConserved(trace[i])
  {
    if i > 0 {
      SessionIsConserved(policy, width, trace, i - 1);
      assert Steps(policy, trace[i - 1], trace[i]);
      var step :| Next(policy, trace[i - 1], trace[i], step);
      StepKeepsConserved(policy, trace[i - 1], trace[i], step);
    }
  }

  /** When every call has returned, the returned totals add up to base plus verification cost. */
  lemma TotalsAddUp(policy: Policy, width: nat, trace: seq<State>, i: nat)
    requires IsSession(policy, width, trace) && i < |trace|
    requires forall c :: 0 <= c < |trace[i].calls| ==> trace[i].calls[c].Returned?
    ensures trace[i].base + trace[i].verification == SumOfReturned(trace[i].calls)
  {
    SessionIsConserved(policy, width, trace, i);
    AllReturned(trace[i].calls);
  }

  function SumOfReturned(calls: seq<Call>): real {
    if calls == [] then 0.0
    else
      var last := calls[|calls| - 1];
      SumOfReturned(calls[..|calls| - 1]) + if last.Returned? then last.paid else 0.0
  }

  lemma {:induction false} AllReturned(calls: seq<Call>)
    requires forall c :: 0 <= c < |calls| ==> calls[c].Returned?
    ensures SumOfReturned(calls) == TotalPaid(calls)
  {
    if calls != [] {
      AllReturned(calls[..|calls| - 1]);
    }
  }

  // ---- The circuit breaker ----

  /** The call neither has applied the mesh nor will. */
  predicate IsPlain(call: Call) {
    match call
    case RunningA(verify) => !verify
    case Finishing(_, applied) => !applied
    case Returned(_, applied) => !applied
    case Threw(_) => true
    case _ => false
  }

  /** Once the breaker has tripped it stays so, and no call started since applies the mesh. */
  lemma {:induction false} TrippedStaysTripped(policy: Policy, width: nat, trace: seq<State>, i: nat, j: nat)
    requires IsSession(policy, width, trace) && i <= j < |trace| && !trace[i].enabled
    ensures !trace[j].enabled && |trace[i].calls| <= |trace[j].calls|
    ensures forall c :: |trace[i].calls| <= c < |trace[j].calls| ==> IsPlain(trace[j].calls[c])
  {
    if i < j {
      TrippedStaysTripped(policy, width, trace, i, j - 1);
      assert Steps(policy, trace[j - 1], trace[j]);
      StepKeepsTripped(policy, trace[j - 1], trace[j], |trace[i].calls|);
    }
  }

  lemma StepKeepsTripped(policy: Policy, s: State, t: State, from: nat)
    requires Steps(policy, s, t) && !s.enabled && from <= |s.calls|
    requires forall c :: from <= c < |s.calls| ==> IsPlain(s.calls[c])
    ensures !t.enabled && from <= |t.calls| && forall c :: from <= c < |t.calls| ==> IsPlain(t.calls[c])
  {
  }

  // ---- Reachable states ----

  ghost predicate EndsIn(policy: Policy, width: nat, trace: seq<State>, s: State) {
    IsSession(policy, width, trace) && trace[|trace| - 1] == s
  }

  /** Some session of the width leads to the state. */
  ghost predicate IsReachable(policy: Policy, width: nat, s: State) {
    exists trace :: EndsIn(policy, width, trace, s)
  }

  lemma Extend(policy: Policy, width: nat, s: State, t: State, step: Step)
    requires IsReachable(policy, width, s) && Next(policy, s, t, step) && CountInFlight(t.calls) <= width
    ensures IsReachable(policy, width, t)
  {
    var trace :| EndsIn(policy, width, trace, s);
    assert Steps(policy, s, t);
    assert EndsIn(policy, width, trace + [t], t);
  }

  lemma FreshIsReachable(policy: Policy, width: nat)
    ensures IsReachable(policy, width, Fresh)
  {
    assert EndsIn(policy, width, [Fresh], Fresh);
  }

  // ---- One call while no other takes a step ----

  /**
   * How the awaits of a call settle; `None` is an exception, and `logs` says
   * whether the ledger takes what the call logs before it returns.
   */
  datatype Outcome = Outcome(a: Option<Price>, b: Option<Option<Price>>, arbiter: Option<Price>, logs: bool)

  /** The state a call leaves behind when no other call takes a step. */
  function Executed(policy: Policy, s: State, task: MeshTask, o: Outcome): (t: State)
    requires s.base >= 0.0
    ensures t.base >= s.base
  {
    if o.a.None? then s.(calls := s.calls + [Threw(0.0)])
    else Answered(policy, s.(base := s.base + o.a.value), s.calls, o.a.value, ShouldVerify(task, policy, s.enabled), o)
  }

  /** What becomes of a call once agent A has answered; `others` are the calls before it. */
  function Answered(policy: Policy, s: State, others: seq<Call>, cost: real, verify: bool, o: Outcome): State
    requires s.base > 0.0
  {
    if !verify || o.b == Some(None) then s.(calls := others + [Ended(cost, false, o.logs)])
    else if o.b.None? || o.arbiter.None? then s.(calls := others + [Threw(cost)])
    else
      var extra := o.b.value.value + o.arbiter.value;
      Judged(policy, s, extra).(calls := others + [Ended(cost + extra, true, o.logs)])
  }

  /** A call that has booked all its costs: a failing log keeps it from returning. */
  function Ended(paid: real, applied: bool, logs: bool): Call {
    if logs then Returned(paid, applied) else Threw(paid)
  }

  /** The verification is paid for and the budget tested. */
  function Judged(policy: Policy, s: State, extra: real): State
    requires s.base > 0.0
  {
    var verification := s.verification + extra;
    s.(verification := verification, enabled := s.enabled && !Exceeds(verification, s.base, policy))
  }

  /** The state with one more call after `others`. */
  function WithLast(s: State, others: seq<Call>, call: Call): State {
    s.(calls := others + [call])
  }

  /** There is room for one more call beside the others. */
  ghost predicate IsOpen(policy: Policy, width: nat, s: State, others: seq<Call>, call: Call) {
    IsReachable(policy, width, WithLast(s, others, call)) && CountInFlight(others) < width
  }

  /** A step of the last call. */
  lemma StepLast(policy: Policy, width: nat, s: State, t: State, others: seq<Call>,
                 before: Call, after: Call, step: Step)
    requires IsOpen(policy, width, s, others, before)
    requires Next(policy, WithLast(s, others, before), WithLast(t, others, after), step)
    ensures IsOpen(policy, width, t, others, after)
  {
    SumsAfterStart(others, after);
    Extend(policy, width, WithLast(s, others, before), WithLast(t, others, after), step);
  }

  lemma ReplaceLast(others: seq<Call>, before: Call, after: Call)
    ensures (others + [before])[|others| := after] == others + [after]
  {
  }

  lemma StartLast(policy: Policy, width: nat, s: State, task: MeshTask)
    requires IsReachable(policy, width, s) && CountInFlight(s.calls) < width
    ensures IsOpen(policy, width, s, s.calls, RunningA(ShouldVerify(task, policy, s.enabled)))
  {
    var call := RunningA(ShouldVerify(task, policy, s.enabled));
    SumsAfterStart(s.calls, call);
    Extend(policy, width, s, WithLast(s, s.calls, call), Start(task));
  }

  lemma AnswerLast(policy: Policy, width: nat, s: State, others: seq<Call>, verify: bool, cost: Price)
    requires IsOpen(policy, width, s, others, RunningA(verify))
    ensures IsOpen(policy, width, s.(base := s.base + cost), others,
                   if verify then RunningB(cost) else Finishing(cost, false))
  {
    var after := if verify then RunningB(cost) else Finishing(cost, false);
    ReplaceLast(others, RunningA(verify), after);
    StepLast(policy, width, s, s.(base := s.base + cost), others, RunningA(verify), after, SettleA(|others|, cost));
  }

  lemma EndLast(policy: Policy, width: nat, s: State, others: seq<Call>, paid: real, applied: bool, logs: bool)
    requires IsOpen(policy, width, s, others, Finishing(paid, applied))
    ensures IsOpen(policy, width, s, others, Ended(paid, applied, logs))
  {
    var before, after := Finishing(paid, applied), Ended(paid, applied, logs);
    ReplaceLast(others, before, after);
    StepLast(policy, width, s, s, others, before, after, if logs then Return(|others|) else Throw(|others|));
  }

  lemma ThrowLast(policy: Policy, width: nat, s: State, others: seq<Call>, call: Call)
    requires IsOpen(policy, width, s, others, call) && call.InFlight()
    ensures IsOpen(policy, width, s, others, Threw(call.Paid()))
  {
    ReplaceLast(others, call, Threw(call.Paid()));
    StepLast(policy, width, s, s, others, call, Threw(call.Paid()), Throw(|others|));
  }

  lemma CompareLast(policy: Policy, width: nat, s: State, others: seq<Call>, paid: real, b: Option<Price>)
    requires IsOpen(policy, width, s, others, RunningB(paid))
    ensures IsOpen(policy, width, s, others, if b.None? then Finishing(paid, false) else Arbitrating(paid, b.value))
  {
    var after := if b.None? then Finishing(paid, false) else Arbitrating(paid, b.value);
    ReplaceLast(others, RunningB(paid), after);
    StepLast(policy, width, s, s, others, RunningB(paid), after, SettleB(|others|, b));
  }

  lemma JudgeLast(policy: Policy, width: nat, s: State, others: seq<Call>, paid: real, costB: Price, arbiter: Price)
    requires s.base > 0.0 && IsOpen(policy, width, s, others, Arbitrating(paid, costB))
    ensures IsOpen(policy, width, Judged(policy, s, costB + arbiter), others, Finishing(paid + (costB + arbiter), true))
  {
    var before, after := Arbitrating(paid, costB), Finishing(paid + (costB + arbiter), true);
    ReplaceLast(others, before, after);
    StepLast(policy, width, s, Judged(policy, s, costB + arbiter), others, before, after, Arbitrate(|others|, arbiter));
  }

  /** A call while the others take no step goes through the steps above: it extends any session with room for it. */
  lemma ExecutedIsReachable(policy: Policy, width: nat, s: State, task: MeshTask, o: Outcome)
    requires IsReachable(policy, width, s) && CountInFlight(s.calls) < width && s.base >= 0.0
    ensures IsReachable(policy, width, Executed(policy, s, task, o))
    ensures CountInFlight(Executed(policy, s, task, o).calls) == CountInFlight(s.calls)
  {
    StartLast(policy, width, s, task);
    if o.a.None? {
      FailedIsReachable(policy, width, s, ShouldVerify(task, policy, s.enabled));
    } else {
      StartedIsReachable(policy, width, s, ShouldVerify(task, policy, s.enabled), o);
    }
  }

  lemma FailedIsReachable(policy: Policy, width: nat, s: State, verify: bool)
    requires IsOpen(policy, width, s, s.calls, RunningA(verify))
    ensures IsReachable(policy, width, s.(calls := s.calls + [Threw(0.0)]))
    ensures CountInFlight(s.calls + [Threw(0.0)]) == CountInFlight(s.calls)
  {
    ThrowLast(policy, width, s, s.calls, RunningA(verify));
    SumsAfterStart(s.calls, Threw(0.0));
  }

  lemma StartedIsReachable(policy: Policy, width: nat, s: State, verify: bool, o: Outcome)
    requires IsOpen(policy, width, s, s.calls, RunningA(verify)) && o.a.Some? && s.base >= 0.0
    ensures var t := Answered(policy, s.(base := s.base + o.a.value), s.calls, o.a.value, verify, o);
            IsReachable(policy, width, t) && CountInFlight(t.calls) == CountInFlight(s.calls)
  {
    AnswerLast(policy, width, s, s.calls, verify, o.a.value);
    AnsweredIsReachable(policy, width, s.(base := s.base + o.a.value), s.calls, o.a.value, verify, o);
  }

  lemma AnsweredIsReachable(policy: Policy, width: nat, s: State, others: seq<Call>,
                            cost: Price, verify: bool, o: Outcome)
    requires s.base > 0.0
    requires IsOpen(policy, width, s, others, if verify then RunningB(cost) else Finishing(cost, false))
    ensures IsReachable(policy, width, Answered(policy, s, others, cost, verify, o))
    ensures CountInFlight(Answered(policy, s, others, cost, verify, o).calls) == CountInFlight(others)
  {
    var last: Call;
    if !verify {
      EndLast(policy, width, s, others, cost, false, o.logs);
      last := Ended(cost, false, o.logs);
    } else if o.b.None? {
      ThrowLast(policy, width, s, others, RunningB(cost));
      last := Threw(cost);
    } else {
      CompareLast(policy, width, s, others, cost, o.b.value);
      last := ComparedIsReachable(policy, width, s, others, cost, o);
    }
    SumsAfterStart(others, last);
  }

  lemma VerdictIsReachable(policy: Policy, width: nat, s: State, others: seq<Call>, cost: Price,
                           costB: Price, arbiter: Price, logs: bool)
    requires s.base > 0.0 && IsOpen(policy, width, s, others, Arbitrating(cost, costB))
    ensures IsOpen(policy, width, Judged(policy, s, costB + arbiter), others,
                   Ended(cost + (costB + arbiter), true, logs))
  {
    JudgeLast(policy, width, s, others, cost, costB, arbiter);
    EndLast(policy, width, Judged(policy, s, costB + arbiter), others, cost + (costB + arbiter), true, logs);
  }

  lemma ComparedIsReachable(policy: Policy, width: nat, s: State, others: seq<Call>, cost: Price, o: Outcome)
    returns (last: Call)
    requires s.base > 0.0 && o.b.Some?
    requires IsOpen(policy, width, s, others,
                    if o.b.value.None? then Finishing(cost, false) else Arbitrating(cost, o.b.value.value))
    ensures IsReachable(policy, width, Answered(policy, s, others, cost, true, o)) && !last.InFlight()
    ensures Answered(policy, s, others, cost, true, o).calls == others + [last]
  {
    if o.b.value.None? {
      EndLast(policy, width, s, others, cost, false, o.logs);
      last := Ended(cost, false, o.logs);
    } else if o.arbiter.None? {
      ThrowLast(policy, width, s, others, Arbitrating(cost, o.b.value.value));
      last := Threw(cost);
    } else {
      VerdictIsReachable(policy, width, s, others, cost, o.b.value.value, o.arbiter.value, o.logs);
      last := Ended(cost + (o.b.value.value + o.arbiter.value), true, o.logs);
    }
  }

  /** A session of calls made one after another. */
  function ExecutedAll(policy: Policy, calls: seq<(MeshTask, Outcome)>): (s: State)
    ensures s.base >= 0.0
  {
    if calls == [] then Fresh
    else
      var n := |calls| - 1;
      Executed(policy, ExecutedAll(policy, calls[..n]), calls[n].0, calls[n].1)
  }

  /**
   * Calls made one after another, however their awaits settle, form a session of
   * width 1 and leave nothing in flight.
   */
  lemma {:induction false} SequentialCalls(policy: Policy, calls: seq<(MeshTask, Outcome)>)
    ensures IsReachable(policy, 1, ExecutedAll(policy, calls))
    ensures CountInFlight(ExecutedAll(policy, calls).calls) == 0
  {
    if calls == [] {
      FreshIsReachable(policy, 1);
    } else {
      var n := |calls| - 1;
      SequentialCalls(policy, calls[..n]);
      ExecutedIsReachable(policy, 1, ExecutedAll(policy, calls[..n]), calls[n].0, calls[n].1);
    }
  }

  function Estimate(p: Option<Provider>): Option<Price> {
    if p.None? then None else Some(EstimateCost(p.value))
  }

  class VerificationMesh {
    var sessionCostBase: real
    var sessionVerificationCost: real
    var meshEnabled: bool
    ghost var calls: seq<Call>

    ghost function Current(): State
      reads this
    {
      State(sessionCostBase, sessionVerificationCost, meshEnabled, calls)
    }

    constructor ()
      ensures Current() == Fresh
    {
      sessionCostBase, sessionVerificationCost, meshEnabled, calls := 0.0, 0.0, true, [];
    }

    /**
     * The total cost and whether the mesh was applied; `None` when an await threw.
     * The providers say how the awaits settle, as in `Outcome`.
     */
    method Execute(policy: Policy, task: MeshTask,
                   a: Option<Provider>, b: Option<Option<Provider>>, arbiter: Option<Provider>, logs: bool)
      returns (r: Option<(real, bool)>)
      requires sessionCostBase >= 0.0
      modifies this
      ensures Current() == Executed(policy, old(Current()), task,
                                    Outcome(Estimate(a), if b.None? then None else Some(Estimate(b.value)),
                                            Estimate(arbiter), logs))
      ensures r == match calls[|calls| - 1]
                   case Returned(total, applied) => Some((total, applied))
                   case _ => None
    {
      var verify := ShouldVerify(task, policy, meshEnabled);
      if a.None? {
        calls := calls + [Threw(0.0)];
        return None;
      }
      var costA := EstimateCost(a.value);
      sessionCostBase := sessionCostBase + costA;
      if !verify {
        calls := calls + [Ended(costA, false, logs)];
        return if logs then Some((costA, false)) else None;
      }
      if b.None? {
        calls := calls + [Threw(costA)];
        return None;
      }
      if b.value.None? {
        calls := calls + [Ended(costA, false, logs)];
        return if logs then Some((costA, false)) else None;
      }
      if arbiter.None? {
        calls := calls + [Threw(costA)];
        return None;
      }
      var meshCost := EstimateCost(b.value.value) + EstimateCost(arbiter.value);
      sessionVerificationCost := sessionVerificationCost + meshCost;
      if Exceeds(sessionVerificationCost, sessionCostBase, policy) {
        meshEnabled := false;
      }
      calls := calls + [Ended(costA + meshCost, true, logs)];
      r := if logs then Some((costA + meshCost, true)) else None;
    }
  }
}
