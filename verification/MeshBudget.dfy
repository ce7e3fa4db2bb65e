/**
 * The budget of the verification mesh: how far the verification cost of a session
 * can run ahead of the policy's share of the base cost, and that it can run that
 * far. The circuit breaker stops calls that start later, not those in flight.
 */
module MeshBudget {
  import opened Wrappers
  import opened VerificationMesh

  /** The policy's share of the base cost. */
  function Share(policy: Policy, base: real): real {
    policy.maxExtraCostPct / 100.0 * base
  }

  /** What one verification costs at most: two calls at the top price. */
  const OVERSHOOT := 2.0 * TOP_PRICE

  /** What the cheapest call adds to the share. */
  function LeastShare(policy: Policy): real {
    Share(policy, LOWEST_PRICE)
  }

  /**
   * The most a session can spend on verification. The call that is the last to
   * overshoot has first paid for agent A, which raises the share; if that pays for
   * a whole verification, none overshoots.
   */
  function Limit(policy: Policy, width: nat, base: real): real {
    if width > 0 && LeastShare(policy) < OVERSHOOT
    then Share(policy, base - LOWEST_PRICE) + OVERSHOOT * width as real
    else Share(policy, base)
  }

  ghost predicate IsWithinBudget(policy: Policy, width: nat, s: State) {
    s.verification <= Limit(policy, width, s.base)
  }

  // ---- No session spends more ----

  /**
   * The budget invariant, with `share` to spend, `least` the least addition to it,
   * `unpaid` calls that have yet to pay for agent A and `paying` that have done so.
   */
  ghost predicate Fits(enabled: bool, verification: real, share: real, least: real,
                       unpaid: nat, paying: nat, width: nat)
  {
    if least >= OVERSHOOT then verification + OVERSHOOT * paying as real <= share
    else if enabled then verification <= share && (paying == width > 0 ==> verification <= share - least)
    else
      && width > 0
      && verification + OVERSHOOT * paying as real + (OVERSHOOT - least) * unpaid as real
           <= share - least + OVERSHOOT * width as real
  }

  ghost predicate BudgetInv(policy: Policy, width: nat, s: State) {
    Fits(s.enabled, s.verification, Share(policy, s.base), LeastShare(policy),
         CountUnpaid(s.calls), CountPaying(s.calls), width)
  }

  lemma ExceedsMeans(verification: real, base: real, policy: Policy)
    requires base > 0.0
    ensures Exceeds(verification, base, policy) <==> verification > Share(policy, base)
  {
    var q, p := verification / base, policy.maxExtraCostPct / 100.0;
    assert verification == q * base;
    if q > p {
      assert (q - p) * base > 0.0;
    } else {
      assert (p - q) * base >= 0.0;
    }
  }

  lemma ShareIsLinear(policy: Policy, base: real, cost: real)
    ensures Share(policy, base + cost) == Share(policy, base) + Share(policy, cost)
  {
    var p := policy.maxExtraCostPct / 100.0;
    assert p * (base + cost) == p * base + p * cost;
  }

  lemma ShareGrows(policy: Policy, low: real, high: real)
    requires policy.maxExtraCostPct >= 0.0 && low <= high
    ensures Share(policy, low) <= Share(policy, high)
  {
    var p := policy.maxExtraCostPct / 100.0;
    assert p * (high - low) >= 0.0;
    ShareIsLinear(policy, low, high - low);
  }

  lemma LimitMeans(policy: Policy, width: nat, base: real)
    ensures Limit(policy, width, base)
         == Share(policy, base) + if width > 0 && LeastShare(policy) < OVERSHOOT
                                  then OVERSHOOT * width as real - LeastShare(policy) else 0.0
  {
    ShareIsLinear(policy, base - LOWEST_PRICE, LOWEST_PRICE);
  }

  lemma FitsAfterAnswer(enabled: bool, verification: real, share: real, least: real,
                        unpaid: nat, paying: nat, width: nat, higher: real)
    requires Fits(enabled, verification, share, least, unpaid + 1, paying, width)
    requires least >= 0.0 && higher >= share + least
    ensures Fits(enabled, verification, higher, least, unpaid, paying + 1, width)
  {
    assert (OVERSHOOT - least) * (unpaid + 1) as real == (OVERSHOOT - least) * unpaid as real + (OVERSHOOT - least);
  }

  lemma FitsAfterDrop(enabled: bool, verification: real, share: real, least: real,
                      unpaid: nat, paying: nat, width: nat, higher: real, unpaid': nat, paying': nat)
    requires Fits(enabled, verification, share, least, unpaid, paying, width) && higher >= share
    requires unpaid' <= unpaid && paying' <= paying <= width
    ensures Fits(enabled, verification, higher, least, unpaid', paying', width)
  {
    if least < OVERSHOOT && !enabled {
      assert (OVERSHOOT - least) * (unpaid - unpaid') as real >= 0.0;
      assert (OVERSHOOT - least) * unpaid as real
          == (OVERSHOOT - least) * unpaid' as real + (OVERSHOOT - least) * (unpaid - unpaid') as real;
    }
  }

  lemma FitsAfterVerdict(enabled: bool, verification: real, share: real, least: real,
                         unpaid: nat, paying: nat, width: nat, cost: real)
    requires Fits(enabled, verification, share, least, unpaid, paying, width)
    requires least >= 0.0 && cost <= OVERSHOOT && 0 < paying && unpaid + paying <= width
    ensures Fits(enabled && verification + cost <= share, verification + cost, share, least, unpaid, paying - 1, width)
  {
    if least < OVERSHOOT && enabled {
      Trips(least, unpaid, paying, width);
    }
  }

  /** The first verdict over budget leaves room for those still in flight. */
  lemma Trips(least: real, unpaid: nat, paying: nat, width: nat)
    requires 0.0 <= least < OVERSHOOT && unpaid + paying <= width
    ensures OVERSHOOT * paying as real + (OVERSHOOT - least) * unpaid as real
         <= OVERSHOOT * width as real - if paying < width then least else 0.0
  {
    var free := width - unpaid - paying;
    assert OVERSHOOT * width as real
        == OVERSHOOT * paying as real + OVERSHOOT * unpaid as real + OVERSHOOT * free as real;
    assert (OVERSHOOT - least) * unpaid as real == OVERSHOOT * unpaid as real - least * unpaid as real;
    assert unpaid > 0 ==> least * unpaid as real >= least;
  }

  lemma AnswerKeepsBudget(policy: Policy, width: nat, s: State, t: State, c: nat, cost: Price)
    requires policy.maxExtraCostPct >= 0.0 && BudgetInv(policy, width, s) && CountInFlight(s.calls) <= width
    requires Next(policy, s, t, SettleA(c, cost))
    ensures BudgetInv(policy, width, t)
  {
    SumsAfterUpdate(s.calls, c, t.calls[c]);
    VerifyingAreInFlight(s.calls);
    ShareIsLinear(policy, s.base, cost);
    ShareGrows(policy, 0.0, LOWEST_PRICE);
    ShareGrows(policy, LOWEST_PRICE, cost);
    ShareGrows(policy, s.base, s.base + cost);
    var share, higher := Share(policy, s.base), Share(policy, s.base + cost);
    if s.calls[c].verify {
      FitsAfterAnswer(s.enabled, s.verification, share, LeastShare(policy),
                      CountUnpaid(t.calls), CountPaying(s.calls), width, higher);
    } else {
      FitsAfterDrop(s.enabled, s.verification, share, LeastShare(policy), CountUnpaid(s.calls),
                    CountPaying(s.calls), width, higher, CountUnpaid(t.calls), CountPaying(t.calls));
    }
  }

  lemma VerdictKeepsBudget(policy: Policy, width: nat, s: State, t: State, c: nat, arbiter: Price)
    requires policy.maxExtraCostPct >= 0.0 && IsConserved(s) && BudgetInv(policy, width, s)
    requires CountInFlight(s.calls) <= width && Next(policy, s, t, Arbitrate(c, arbiter))
    ensures BudgetInv(policy, width, t)
  {
    SumsAfterUpdate(s.calls, c, t.calls[c]);
    VerifyingAreInFlight(s.calls);
    assert PaysFor(s, s.calls[c]);
    ExceedsMeans(t.verification, s.base, policy);
    ShareGrows(policy, 0.0, LOWEST_PRICE);
    FitsAfterVerdict(s.enabled, s.verification, Share(policy, s.base), LeastShare(policy),
                     CountUnpaid(s.calls), CountPaying(s.calls), width, s.calls[c].costB + arbiter);
  }

  lemma ProgressKeepsBudget(policy: Policy, width: nat, s: State, c: nat, call: Call)
    requires BudgetInv(policy, width, s) && CountInFlight(s.calls) <= width && c < |s.calls|
    requires (call.Unpaid() ==> s.calls[c].Unpaid()) && (call.Paying() ==> s.calls[c].Paying())
    ensures BudgetInv(policy, width, s.(calls := s.calls[c := call]))
  {
    SumsAfterUpdate(s.calls, c, call);
    VerifyingAreInFlight(s.calls);
    FitsAfterDrop(s.enabled, s.verification, Share(policy, s.base), LeastShare(policy), CountUnpaid(s.calls),
                  CountPaying(s.calls), width, Share(policy, s.base),
                  CountUnpaid(s.calls[c := call]), CountPaying(s.calls[c := call]));
  }

  lemma StartKeepsBudget(policy: Policy, width: nat, s: State, verify: bool)
    requires BudgetInv(policy, width, s) && (verify ==> s.enabled)
    ensures BudgetInv(policy, width, s.(calls := s.calls + [RunningA(verify)]))
  {
    SumsAfterStart(s.calls, RunningA(verify));
  }

  lemma StepKeepsBudget(policy: Policy, width: nat, s: State, t: State, step: Step)
    requires policy.maxExtraCostPct >= 0.0 && IsConserved(s) && BudgetInv(policy, width, s) && Next(policy, s, t, step)
    requires CountInFlight(s.calls) <= width
    ensures BudgetInv(policy, width, t)
  {
    if step.Start? {
      StartKeepsBudget(policy, width, s, ShouldVerify(step.task, policy, s.enabled));
    } else if step.SettleA? {
      AnswerKeepsBudget(policy, width, s, t, step.c, step.cost);
    } else if step.Arbitrate? {
      VerdictKeepsBudget(policy, width, s, t, step.c, step.arbiter);
    } else {
      ProgressKeepsBudget(policy, width, s, step.c, t.calls[step.c]);
    }
  }

  lemma FreshFits(policy: Policy, width: nat)
    ensures BudgetInv(policy, width, Fresh)
  {
    assert Share(policy, 0.0) == 0.0;
  }

  lemma {:induction false} SessionKeepsBudget(policy: Policy, width: nat, trace: seq<State>, i: nat)
    requires policy.maxExtraCostPct >= 0.0 && IsSession(policy, width, trace) && i < |trace|
    ensures BudgetInv(policy, width, trace[i])
  {
    if i == 0 {
      FreshFits(policy, width);
    } else {
      SessionKeepsBudget(policy, width, trace, i - 1);
      SessionIsConserved(policy, width, trace, i - 1);
      assert Steps(policy, trace[i - 1], trace[i]);
      var step :| Next(policy, trace[i - 1], trace[i], step);
      StepKeepsBudget(policy, width, trace[i - 1], trace[i], step);
    }
  }

  lemma FittingIsBounded(enabled: bool, verification: real, share: real, least: real,
                         unpaid: nat, paying: nat, width: nat)
    requires Fits(enabled, verification, share, least, unpaid, paying, width)
    ensures verification <= share
              + if width > 0 && least < OVERSHOOT then OVERSHOOT * width as real - least else 0.0
  {
    if least < OVERSHOOT && !enabled {
      assert (OVERSHOOT - least) * unpaid as real >= 0.0;
    }
  }

  lemma FittingIsWithin(policy: Policy, width: nat, s: State)
    requires BudgetInv(policy, width, s)
    ensures IsWithinBudget(policy, width, s)
  {
    LimitMeans(policy, width, s.base);
    FittingIsBounded(s.enabled, s.verification, Share(policy, s.base), LeastShare(policy),
                     CountUnpaid(s.calls), CountPaying(s.calls), width);
  }

  /**
   * The budget: with at most `width` calls in flight, verification costs at most
   * the share of the base cost before the cheapest call, plus 6 cents for each
   * call in flight; and no more than the share itself if even the cheapest call
   * raises that by 6 cents.
   */
  lemma VerificationIsWithinBudget(policy: Policy, width: nat, trace: seq<State>, i: nat)
    requires policy.maxExtraCostPct >= 0.0 && IsSession(policy, width, trace) && i < |trace|
    ensures IsWithinBudget(policy, width, trace[i])
    ensures trace[i].verification <= Share(policy, trace[i].base) + OVERSHOOT * width as real
  {
    SessionKeepsBudget(policy, width, trace, i);
    FittingIsWithin(policy, width, trace[i]);
    LimitMeans(policy, width, trace[i].base);
    ShareGrows(policy, 0.0, LOWEST_PRICE);
  }

  lemma ReachableIsWithinBudget(policy: Policy, width: nat, s: State)
    requires policy.maxExtraCostPct >= 0.0 && IsReachable(policy, width, s)
    ensures IsWithinBudget(policy, width, s)
  {
    var trace :| EndsIn(policy, width, trace, s);
    VerificationIsWithinBudget(policy, width, trace, |trace| - 1);
  }

  /** Calls made one after another, however their awaits settle, are within the budget of width 1. */
  lemma SequentialCallsAreWithinBudget(policy: Policy, calls: seq<(MeshTask, Outcome)>)
    requires policy.maxExtraCostPct >= 0.0
    ensures IsWithinBudget(policy, 1, ExecutedAll(policy, calls))
  {
    SequentialCalls(policy, calls);
    ReachableIsWithinBudget(policy, 1, ExecutedAll(policy, calls));
  }

  // ---- Some session spends that much ----

  /** Every call in flight has paid for agent A and waits for agent B. */
  ghost predicate AllHeld(calls: seq<Call>) {
    forall c :: 0 <= c < |calls| && calls[c].InFlight() ==> calls[c].RunningB?
  }

  /** A state some session leads to, with `flying` calls waiting for agent B and nothing else in flight. */
  ghost predicate IsHeld(policy: Policy, width: nat, s: State, flying: nat) {
    IsReachable(policy, width, s) && AllHeld(s.calls) && CountInFlight(s.calls) == flying && s.base >= 0.0
  }

  /** One more call starts and waits for agent B. */
  lemma HoldOne(policy: Policy, width: nat, s: State, flying: nat, cost: Price)
    requires policy.enabled && s.enabled && IsHeld(policy, width, s, flying) && flying < width
    ensures IsHeld(policy, width, WithLast(s.(base := s.base + cost), s.calls, RunningB(cost)), flying + 1)
  {
    StartLast(policy, width, s, MeshTask(Critical, None));
    AnswerLast(policy, width, s, s.calls, true, cost);
    SumsAfterStart(s.calls, RunningB(cost));
  }

  lemma {:induction false} Hold(policy: Policy, width: nat, k: nat, cost: Price) returns (s: State)
    requires policy.enabled && k <= width
    ensures IsHeld(policy, width, s, k) && s.enabled && s.base == k as real * cost && s.verification == 0.0
  {
    if k == 0 {
      FreshIsReachable(policy, width);
      s := Fresh;
    } else {
      OneOf(k, cost);
      s := Hold(policy, width, k - 1, cost);
      HoldOne(policy, width, s, k - 1, cost);
      s := WithLast(s.(base := s.base + cost), s.calls, RunningB(cost));
    }
  }

  lemma ExecutedAddsOne(policy: Policy, s: State, task: MeshTask, o: Outcome) returns (last: Call)
    requires s.base >= 0.0
    ensures Executed(policy, s, task, o).calls == s.calls + [last] && !last.InFlight()
  {
    last := Executed(policy, s, task, o).calls[|s.calls|];
  }

  lemma HeldWithOneMore(calls: seq<Call>, last: Call)
    requires AllHeld(calls) && !last.InFlight()
    ensures AllHeld(calls + [last])
  {
  }

  /** A call that is made and ends while the held ones wait. */
  lemma RunBeside(policy: Policy, width: nat, s: State, flying: nat, task: MeshTask, o: Outcome)
    requires IsHeld(policy, width, s, flying) && flying < width
    ensures IsHeld(policy, width, Executed(policy, s, task, o), flying)
  {
    var last := ExecutedAddsOne(policy, s, task, o);
    HeldWithOneMore(s.calls, last);
    ExecutedIsReachable(policy, width, s, task, o);
  }

  /** A call that does not qualify. */
  lemma RunPlain(policy: Policy, width: nat, s: State, flying: nat, cost: Price) returns (t: State)
    requires IsHeld(policy, width, s, flying) && flying < width
    ensures IsHeld(policy, width, t, flying) && t.enabled == s.enabled
    ensures t.base == s.base + cost && t.verification == s.verification
  {
    var o := Outcome(Some(cost), None, None, true);
    RunBeside(policy, width, s, flying, MeshTask(Critical, Some(1)), o);
    t := Executed(policy, s, MeshTask(Critical, Some(1)), o);
  }

  lemma VerifiedIsJudged(policy: Policy, s: State, o: Outcome, extra: real)
    requires policy.enabled && s.enabled && s.base >= 0.0
    requires o.a.Some? && o.b.Some? && o.b.value.Some? && o.arbiter.Some?
    requires extra == o.b.value.value + o.arbiter.value
    ensures var t, after := Executed(policy, s, MeshTask(Critical, None), o), s.(base := s.base + o.a.value);
            t == Judged(policy, after, extra).(calls := t.calls)
  {
  }

  lemma JudgedFields(policy: Policy, s: State, extra: real)
    requires s.base > 0.0
    ensures var t := Judged(policy, s, extra);
            && t.base == s.base && t.verification == s.verification + extra
            && t.enabled == (s.enabled && !Exceeds(t.verification, t.base, policy))
  {
  }

  /** A verified call. */
  lemma RunVerified(policy: Policy, width: nat, s: State, flying: nat, cost: Price, other: Price, arbiter: Price)
    returns (t: State)
    requires policy.enabled && s.enabled && IsHeld(policy, width, s, flying) && flying < width
    ensures IsHeld(policy, width, t, flying)
    ensures t.base == s.base + cost && t.verification == s.verification + (other + arbiter)
    ensures t.enabled == !Exceeds(t.verification, t.base, policy)
  {
    var o := Outcome(Some(cost), Some(Some(other)), Some(arbiter), true);
    t := Executed(policy, s, MeshTask(Critical, None), o);
    assert IsHeld(policy, width, t, flying) by {
      RunBeside(policy, width, s, flying, MeshTask(Critical, None), o);
    }
    VerifiedIsJudged(policy, s, o, other + arbiter);
    JudgedFields(policy, s.(base := s.base + cost), other + arbiter);
  }

  /** Calls that do not qualify raise the base cost by any amount a price allows. */
  lemma {:induction false} PayPlain(policy: Policy, width: nat, s: State, flying: nat, amount: real) returns (t: State)
    requires IsHeld(policy, width, s, flying) && flying < width && amount >= LOWEST_PRICE
    ensures IsHeld(policy, width, t, flying) && t.enabled == s.enabled
    ensures t.base == s.base + amount && t.verification == s.verification
    decreases amount.Floor
  {
    var cost := if amount <= TOP_PRICE then amount else if amount >= TOP_PRICE + LOWEST_PRICE then TOP_PRICE else 1.6;
    t := RunPlain(policy, width, s, flying, cost);
    if amount > TOP_PRICE {
      t := PayPlain(policy, width, t, flying, amount - cost);
    }
  }

  /** One verified call within budget. */
  lemma PayOneVerified(policy: Policy, width: nat, s: State, flying: nat, extra: real) returns (t: State)
    requires policy.enabled && s.enabled && IsHeld(policy, width, s, flying) && flying < width
    requires 2.0 * LOWEST_PRICE <= extra <= OVERSHOOT
    requires s.verification + extra <= Share(policy, s.base) + LeastShare(policy)
    ensures IsHeld(policy, width, t, flying) && t.enabled
    ensures t.base == s.base + LOWEST_PRICE && t.verification == s.verification + extra
  {
    t := RunVerified(policy, width, s, flying, LOWEST_PRICE, extra / 2.0, extra / 2.0);
    ShareIsLinear(policy, s.base, LOWEST_PRICE);
    ExceedsMeans(t.verification, t.base, policy);
  }

  lemma {:induction false} PayVerified(policy: Policy, width: nat, s: State, flying: nat, extra: real, n: nat)
    returns (t: State)
    requires policy.enabled && s.enabled && IsHeld(policy, width, s, flying) && flying < width
    requires 2.0 * LOWEST_PRICE <= extra <= OVERSHOOT && LeastShare(policy) <= extra
    requires s.verification + n as real * (extra - LeastShare(policy)) <= Share(policy, s.base)
    ensures IsHeld(policy, width, t, flying) && t.enabled
    ensures t.base == s.base + n as real * LOWEST_PRICE && t.verification == s.verification + n as real * extra
    decreases n
  {
    if n == 0 {
      t := s;
    } else {
      OneOf(n, extra - LeastShare(policy));
      t := PayOneVerified(policy, width, s, flying, extra);
      ShareIsLinear(policy, s.base, LOWEST_PRICE);
      t := PayVerified(policy, width, t, flying, extra, n - 1);
    }
  }

  lemma OneOf(n: nat, gap: real)
    requires n > 0 && gap >= 0.0
    ensures n as real * gap == (n - 1) as real * gap + gap && (n - 1) as real * gap >= 0.0
  {
  }

  lemma TimesShare(policy: Policy, n: nat)
    ensures Share(policy, n as real * LOWEST_PRICE) == n as real * LeastShare(policy)
  {
  }

  /** A session with one free place that has spent exactly its share. */
  lemma SpentShare(policy: Policy, width: nat) returns (s: State)
    requires policy.enabled && policy.maxExtraCostPct >= 0.0 && width > 0 && LeastShare(policy) < OVERSHOOT
    ensures IsHeld(policy, width, s, width - 1) && s.enabled && s.verification == Share(policy, s.base)
  {
    s := Hold(policy, width, width - 1, LOWEST_PRICE);
    TimesShare(policy, width - 1);
    if width > 1 && policy.maxExtraCostPct > 0.0 {
      var n, amount := Amounts(policy, width);
      var extra := (OVERSHOOT + LeastShare(policy)) / 2.0;
      ShareIsLinear(policy, s.base, amount);
      s := PayPlain(policy, width, s, width - 1, amount);
      ShareIsLinear(policy, s.base, n as real * LOWEST_PRICE);
      TimesShare(policy, n);
      s := PayVerified(policy, width, s, width - 1, extra, n);
    }
  }

  /** So many verified calls use up the share of the held calls, their own and that of a plain amount. */
  lemma Amounts(policy: Policy, width: nat) returns (n: nat, amount: real)
    requires policy.maxExtraCostPct > 0.0 && width > 1 && 0.0 < LeastShare(policy) < OVERSHOOT
    ensures amount >= LOWEST_PRICE
    ensures n as real * ((OVERSHOOT - LeastShare(policy)) / 2.0)
         == (width - 1) as real * LeastShare(policy) + Share(policy, amount)
  {
    var least, gap := LeastShare(policy), (OVERSHOOT - LeastShare(policy)) / 2.0;
    n := Multiple(gap, width as real * least);
    var rest := n as real * gap - (width - 1) as real * least;
    amount := rest / least * LOWEST_PRICE;
    Proportion(policy, rest, amount);
  }

  lemma Multiple(unit: real, goal: real) returns (n: nat)
    requires unit > 0.0 && goal >= 0.0
    ensures n as real * unit >= goal
  {
    var quotient := goal / unit;
    assert goal == quotient * unit;
    n := quotient.Floor + 1;
    ProductIsPositive(n as real - quotient, unit);
    assert n as real * unit == quotient * unit + (n as real - quotient) * unit;
  }

  lemma ProductIsPositive(a: real, b: real)
    requires a >= 0.0 && b >= 0.0
    ensures a * b >= 0.0
  {
  }

  lemma Proportion(policy: Policy, rest: real, amount: real)
    requires LeastShare(policy) > 0.0 && rest >= LeastShare(policy)
    requires amount == rest / LeastShare(policy) * LOWEST_PRICE
    ensures amount >= LOWEST_PRICE && Share(policy, amount) == rest
  {
    var least, q := LeastShare(policy), rest / LeastShare(policy);
    assert rest == q * least;
    assert q >= 1.0;
    assert Share(policy, amount) == q * least;
  }

  /** All held calls are verified at the top price. */
  lemma {:induction false} SpendAll(policy: Policy, width: nat, s: State, flying: nat) returns (t: State)
    requires IsHeld(policy, width, s, flying) && s.base > 0.0
    ensures IsReachable(policy, width, t)
    ensures t.base == s.base && t.verification == s.verification + OVERSHOOT * flying as real
    decreases flying
  {
    if flying == 0 {
      t := s;
    } else {
      var c := FlyingCall(s.calls);
      t := SpendOne(policy, width, s, flying, c);
      t := SpendAll(policy, width, t, flying - 1);
    }
  }

  lemma {:induction false} FlyingCall(calls: seq<Call>) returns (c: nat)
    requires CountInFlight(calls) > 0
    ensures c < |calls| && calls[c].InFlight()
  {
    c := |calls| - 1;
    if !calls[c].InFlight() {
      c := FlyingCall(calls[..c]);
    }
  }

  lemma SpendOne(policy: Policy, width: nat, s: State, flying: nat, c: nat) returns (t: State)
    requires IsHeld(policy, width, s, flying) && s.base > 0.0 && c < |s.calls| && s.calls[c].InFlight()
    ensures flying > 0 && IsHeld(policy, width, t, flying - 1)
    ensures t.base == s.base && t.verification == s.verification + OVERSHOOT
  {
    var paid, verification := s.calls[c].paid, s.verification + OVERSHOOT;
    var compared := s.(calls := s.calls[c := Arbitrating(paid, TOP_PRICE)]);
    var judged := State(s.base, verification, s.enabled && !Exceeds(verification, s.base, policy),
                        compared.calls[c := Finishing(paid + OVERSHOOT, true)]);
    t := judged.(calls := judged.calls[c := Returned(paid + OVERSHOOT, true)]);
    Progress(policy, width, s, compared, SettleB(c, Some(TOP_PRICE)));
    Progress(policy, width, compared, judged, Arbitrate(c, TOP_PRICE));
    Progress(policy, width, judged, t, Return(c));
    assert t.calls == s.calls[c := Returned(paid + OVERSHOOT, true)];
    SumsAfterUpdate(s.calls, c, Returned(paid + OVERSHOOT, true));
  }

  /** A step of a call that has started needs no more room. */
  lemma Progress(policy: Policy, width: nat, s: State, t: State, step: Step)
    requires IsReachable(policy, width, s) && !step.Start? && Next(policy, s, t, step)
    ensures IsReachable(policy, width, t)
  {
    ReachableHasRoom(policy, width, s);
    SumsAfterUpdate(s.calls, step.c, t.calls[step.c]);
    Extend(policy, width, s, t, step);
  }

  lemma ReachableHasRoom(policy: Policy, width: nat, s: State)
    requires IsReachable(policy, width, s)
    ensures CountInFlight(s.calls) <= width
  {
    var trace: seq<State> :| EndsIn(policy, width, trace, s);
    assert CountInFlight(trace[|trace| - 1].calls) <= width;
  }

  /**
   * The bound cannot be lowered: at every width, for every percentage that lets a
   * call overshoot, some session attains it.
   */
  lemma BudgetIsAttained(policy: Policy, width: nat)
    requires policy.enabled && policy.maxExtraCostPct >= 0.0 && width > 0 && LeastShare(policy) < OVERSHOOT
    ensures exists s :: IsReachable(policy, width, s) && s.verification == Limit(policy, width, s.base)
  {
    var s := SpentShare(policy, width);
    HoldOne(policy, width, s, width - 1, LOWEST_PRICE);
    var t := WithLast(s.(base := s.base + LOWEST_PRICE), s.calls, RunningB(LOWEST_PRICE));
    t := SpendAll(policy, width, t, width);
  }

  /** At every width the bound holds in all sessions exactly when the percentage is not negative. */
  lemma BudgetHoldsIff(policy: Policy, width: nat)
    requires policy.enabled && width > 0
    ensures policy.maxExtraCostPct >= 0.0 <==>
            forall s :: IsReachable(policy, width, s) ==> IsWithinBudget(policy, width, s)
  {
    if policy.maxExtraCostPct >= 0.0 {
      forall s | IsReachable(policy, width, s) ensures IsWithinBudget(policy, width, s) {
        ReachableIsWithinBudget(policy, width, s);
      }
    } else {
      var s := Hold(policy, width, width, TOP_PRICE);
      s := SpendAll(policy, width, s, width);
      NegativeShare(policy, s.base - LOWEST_PRICE);
      NegativeShare(policy, LOWEST_PRICE);
    }
  }

  lemma NegativeShare(policy: Policy, base: real)
    requires policy.maxExtraCostPct < 0.0 && base > 0.0
    ensures Share(policy, base) < 0.0
  {
  }
}
