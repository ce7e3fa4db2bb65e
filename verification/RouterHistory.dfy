/**
 * The failure counts of the router over its whole history: which failures of a
 * provider count towards its cooldown, and when they start one.
 */
module RouterHistory {
  import opened Wrappers
  import opened Providers
  import opened Router

  /** A run together with the steps that make it. */
  ghost predicate IsHistory(config: Config, trace: seq<State>, steps: seq<Step>) {
    && |trace| == |steps| + 1 && IsInitial(trace[0])
    && forall i, j :: 0 <= i < |steps| && j == i + 1 ==> IsNextAt(config, trace, steps, i, j)
  }

  ghost predicate IsNextAt(config: Config, trace: seq<State>, steps: seq<Step>, i: nat, j: nat)
    requires i < |steps| && i < |trace| && j < |trace|
  {
    Next(config, trace[i], trace[j], steps[i])
  }

  /** The provider that request `r` has called last. */
  predicate IsCalledBy(s: State, r: nat, p: Provider) {
    r < |s.requests| && s.requests[r].made != [] && s.requests[r].made[|s.requests[r].made| - 1] == p
  }

  /** The step is a failure of the provider. */
  predicate FailsAt(s: State, step: Step, p: Provider) {
    step.CallFails? && IsCalledBy(s, step.r, p)
  }

  /** The step is a success of the provider, or its timer fires. */
  predicate ResetsAt(s: State, step: Step, p: Provider) {
    (step.CallSucceeds? && IsCalledBy(s, step.r, p)) || step == Fire(p)
  }

  /** The failures of the provider before state `i`, since its last success or timer, or since the start. */
  function FailuresSince(trace: seq<State>, steps: seq<Step>, p: Provider, i: nat): nat
    requires i <= |steps| <= |trace|
  {
    if i == 0 || ResetsAt(trace[i - 1], steps[i - 1], p) then 0
    else FailuresSince(trace, steps, p, i - 1) + if FailsAt(trace[i - 1], steps[i - 1], p) then 1 else 0
  }

  /** Every run has its steps, so what is said of histories is said of runs. */
  lemma {:induction false} RunHasSteps(config: Config, trace: seq<State>) returns (steps: seq<Step>)
    requires IsRun(config, trace)
    ensures IsHistory(config, trace, steps)
  {
    if |trace| == 1 {
      steps := [];
    } else {
      var n := |trace| - 1;
      var m := n - 1;
      forall i ensures IsStepAt(config, trace[..n], i) {
        assert IsStepAt(config, trace, i);
      }
      var before := RunHasSteps(config, trace[..n]);
      StepInRun(config, trace, m);
      var step :| Next(config, trace[m], trace[m + 1], step);
      steps := before + [step];
      forall i, j | 0 <= i < |steps| && j == i + 1 ensures IsNextAt(config, trace, steps, i, j) {
        assert i < m ==> IsNextAt(config, trace[..n], before, i, j);
      }
    }
  }

  // ---- What one step does to a count ----

  lemma FailureCounts(config: Config, s: State, t: State, step: Step, p: Provider)
    requires Next(config, s, t, step) && p in s.health && FailsAt(s, step, p)
    ensures p in t.health && t.health[p].failureCount == s.health[p].failureCount + 1
  {
  }

  lemma ResetCounts(config: Config, s: State, t: State, step: Step, p: Provider)
    requires Next(config, s, t, step) && p in s.health && ResetsAt(s, step, p)
    ensures p in t.health && t.health[p].failureCount == 0 && !t.health[p].isOnCooldown
  {
  }

  lemma OthersKeepCount(config: Config, s: State, t: State, step: Step, p: Provider)
    requires Next(config, s, t, step) && p in s.health && !FailsAt(s, step, p) && !ResetsAt(s, step, p)
    ensures p in t.health && t.health[p].failureCount == s.health[p].failureCount
  {
  }

  /**
   * In every run the failure count of a provider is the number of its failures
   * since its last success or timer, or since the start.
   */
  lemma {:induction false} CountIsFailuresSince(config: Config, trace: seq<State>, steps: seq<Step>,
                                                p: Provider, i: nat)
    requires IsHistory(config, trace, steps) && p in trace[0].health && i <= |steps|
    ensures p in trace[i].health && trace[i].health[p].failureCount == FailuresSince(trace, steps, p, i)
  {
    if i > 0 {
      var m := i - 1;
      CountIsFailuresSince(config, trace, steps, p, m);
      assert IsNextAt(config, trace, steps, m, i);
      if ResetsAt(trace[m], steps[m], p) {
        ResetCounts(config, trace[m], trace[i], steps[m], p);
      } else if FailsAt(trace[m], steps[m], p) {
        FailureCounts(config, trace[m], trace[i], steps[m], p);
      } else {
        OthersKeepCount(config, trace[m], trace[i], steps[m], p);
      }
    }
  }

  // ---- When the count starts a cooldown ----

  /**
   * Right after a success or a timer the provider is not cooling, and from there
   * failures of one class in a row cool it from the threshold on and not before,
   * whatever its record was.
   */
  lemma CoolsAfresh(config: Config, s: State, t: State, step: Step, p: Provider,
                    errorClass: ErrorClass, reports: seq<Report>)
    requires Next(config, s, t, step) && p in s.health && ResetsAt(s, step, p)
    ensures p in t.health && !t.health[p].isOnCooldown && t.health[p].cooldownExpiresAt == None
    ensures AfterFailures(config, t.health[p], errorClass, reports).isOnCooldown
       <==> |reports| >= Threshold(config, errorClass)
  {
    ResetCounts(config, s, t, step, p);
    CoolsAtThreshold(config, t.health[p], errorClass, reports);
  }

  /** How long failures of a class keep a provider cooling. */
  function Pause(config: Config, errorClass: ErrorClass, retryAfterMs: Option<nat>): nat {
    match errorClass
    case AuthFailure => config.cooldownAuthMs
    case RateLimit => if retryAfterMs.Some? then retryAfterMs.value else 5 * 60 * 1000
    case Network => 30 * 1000
    case ModelError => 60 * 1000
  }

  lemma FailureCools(config: Config, s: State, t: State, step: Step, p: Provider)
    requires Next(config, s, t, step) && p in s.health && FailsAt(s, step, p) && step.errorClass != ModelError
    ensures p in t.health
    ensures var reached := t.health[p].failureCount >= Threshold(config, step.errorClass);
            && (t.health[p].isOnCooldown <==> s.health[p].isOnCooldown || reached)
            && t.health[p].cooldownExpiresAt == if reached
                 then Some(step.now + Pause(config, step.errorClass, step.retryAfterMs))
                 else s.health[p].cooldownExpiresAt
  {
  }


  lemma ModelErrorWaits(config: Config, s: State, t: State, step: Step, p: Provider)
    requires Next(config, s, t, step) && p in s.health && FailsAt(s, step, p) && step.errorClass == ModelError
    ensures p in t.health && t.health[p].isOnCooldown == s.health[p].isOnCooldown
    ensures t.handlers == s.handlers
              + [LoggingModelError(p, if t.health[p].failureCount >= Threshold(config, ModelError)
                                      then Some(Pause(config, ModelError, None)) else None)]
  {
  }

  /**
   * In every run a failure of a class other than MODEL_ERROR leaves the provider
   * cooling exactly if it was, or if its failures since its last success or timer
   * have reached the threshold; in that case the cooldown ends that long after it.
   */
  lemma FailureCoolsFromThreshold(config: Config, trace: seq<State>, steps: seq<Step>, p: Provider, i: nat, j: nat)
    requires IsHistory(config, trace, steps) && p in trace[0].health && i < |steps| && j == i + 1
    requires FailsAt(trace[i], steps[i], p) && steps[i].errorClass != ModelError
    ensures p in trace[i].health && p in trace[j].health
    ensures var reached := FailuresSince(trace, steps, p, j) >= Threshold(config, steps[i].errorClass);
            && (IsCooling(trace[j], p) <==> IsCooling(trace[i], p) || reached)
            && trace[j].health[p].cooldownExpiresAt == if reached
                 then Some(steps[i].now + Pause(config, steps[i].errorClass, steps[i].retryAfterMs))
                 else trace[i].health[p].cooldownExpiresAt
  {
    CountIsFailuresSince(config, trace, steps, p, i);
    CountIsFailuresSince(config, trace, steps, p, j);
    assert IsNextAt(config, trace, steps, i, j);
    FailureCools(config, trace[i], trace[j], steps[i], p);
  }

  /**
   * A MODEL_ERROR is logged first. The cooldown it may start afterwards is decided
   * by the failures since the last success or timer up to and including it.
   */
  lemma ModelErrorCoolsFromThreshold(config: Config, trace: seq<State>, steps: seq<Step>, p: Provider, i: nat, j: nat)
    requires IsHistory(config, trace, steps) && p in trace[0].health && i < |steps| && j == i + 1
    requires FailsAt(trace[i], steps[i], p) && steps[i].errorClass == ModelError
    ensures IsCooling(trace[j], p) <==> IsCooling(trace[i], p)
    ensures trace[j].handlers == trace[i].handlers
              + [LoggingModelError(p, if FailuresSince(trace, steps, p, j) >= Threshold(config, ModelError)
                                      then Some(Pause(config, ModelError, None)) else None)]
  {
    CountIsFailuresSince(config, trace, steps, p, i);
    CountIsFailuresSince(config, trace, steps, p, j);
    assert IsNextAt(config, trace, steps, i, j);
    ModelErrorWaits(config, trace[i], trace[j], steps[i], p);
  }

  /** Once it is logged, the cooldown it decided on starts, and otherwise nothing changes. */
  lemma LoggedModelErrorCools(config: Config, s: State, t: State, step: Step, p: Provider)
    requires Next(config, s, t, step) && step.ModelErrorLogged? && s.handlers[step.h].p == p
    ensures p in s.health && p in t.health
    ensures var ms := s.handlers[step.h].cooldownMs;
            && (IsCooling(t, p) <==> IsCooling(s, p) || ms.Some?)
            && t.health[p].cooldownExpiresAt == if ms.Some? then Some(step.now + ms.value)
                                                else s.health[p].cooldownExpiresAt
  {
  }

  /** A failure without a class counts towards the configured number, and cools for the configured minutes. */
  lemma UnclassifiedFailureCools(config: Config, health: HealthMap, p: Provider, retryAfterMs: Option<nat>, now: nat)
    requires p in health
    ensures var (after, handler) := StartFailure(config, health, p, None, retryAfterMs, now);
            var reached := health[p].failureCount + 1 >= config.maxFailuresBeforeCooldown;
            var ms := config.cooldownMinutes * 60000;
            && p in after && (after[p].isOnCooldown <==> health[p].isOnCooldown || reached)
            && after[p].cooldownExpiresAt == (if reached then Some(now + ms) else health[p].cooldownExpiresAt)
            && handler == if reached then LoggingCooldown(p, ms) else Finished
  {
  }
}
