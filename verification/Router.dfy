/**
 * The provider router: health records, cooldowns, the fallback ring and
 * `completion`, as a system of steps from one await to the next. Any number of
 * requests, failure handlers and timers interleave.
 */
module Router {
  import opened Wrappers
  import opened Providers

  datatype ErrorClass = AuthFailure | RateLimit | Network | ModelError

  datatype Health = Health(failureCount: nat, lastFailureTime: Option<nat>, isOnCooldown: bool,
                           lastErrorClass: Option<ErrorClass>, needsAuthRefresh: bool,
                           retryAfterMs: Option<nat>, cooldownExpiresAt: Option<nat>)

  type HealthMap = map<Provider, Health>

  const Healthy := Health(0, None, false, None, false, None, None)

  datatype Config = Config(cooldownAuthMs: nat, cooldownMinutes: nat, maxFailuresBeforeCooldown: nat,
                           ring: seq<Provider>)

  const COOLDOWN_RATE_LIMIT_DEFAULT_MS := 300000
  const COOLDOWN_NETWORK_MS := 30000
  const COOLDOWN_MODEL_ERROR_MS := 60000
  const NETWORK_MAX_RETRIES := 3

  // ---- Health updates ----

  /** The synchronous start of `recordProviderFailure`. */
  function Failed(h: Health, errorClass: Option<ErrorClass>, retryAfterMs: Option<nat>, now: nat): Health {
    h.(failureCount := h.failureCount + 1,
       lastFailureTime := Some(now),
       lastErrorClass := if errorClass.Some? then errorClass else h.lastErrorClass,
       retryAfterMs := retryAfterMs,
       needsAuthRefresh := errorClass == Some(AuthFailure))
  }

  /** How long to cool down, given the count after the failure; `None`: not at all. */
  function CooldownMs(config: Config, failureCount: nat, errorClass: Option<ErrorClass>, retryAfterMs: Option<nat>)
    : Option<nat>
  {
    match errorClass
    case Some(AuthFailure) => Some(config.cooldownAuthMs)
    case Some(RateLimit) => Some(if retryAfterMs.Some? then retryAfterMs.value else COOLDOWN_RATE_LIMIT_DEFAULT_MS)
    case Some(Network) => if failureCount >= NETWORK_MAX_RETRIES then Some(COOLDOWN_NETWORK_MS) else None
    case Some(ModelError) =>
      if failureCount >= config.maxFailuresBeforeCooldown then Some(COOLDOWN_MODEL_ERROR_MS) else None
    case None =>
      if failureCount >= config.maxFailuresBeforeCooldown then Some(config.cooldownMinutes * 60 * 1000) else None
  }

  function Cooling(h: Health, cooldownMs: nat, now: nat): Health {
    h.(isOnCooldown := true, cooldownExpiresAt := Some(now + cooldownMs))
  }

  /** What the timer does; `needsAuthRefresh` stays. */
  function Expired(h: Health): Health {
    h.(isOnCooldown := false, cooldownExpiresAt := None, failureCount := 0, retryAfterMs := None)
  }

  function Succeeded(h: Health): Health {
    h.(failureCount := 0, isOnCooldown := false, cooldownExpiresAt := None, needsAuthRefresh := false,
       retryAfterMs := None, lastErrorClass := None)
  }

  // ---- When a provider cools down ----

  /** What a failure brings along besides its class. */
  datatype Report = Report(retryAfterMs: Option<nat>, now: nat)

  /** A provider's record after failures of one class in a row. */
  function AfterFailures(config: Config, start: Health, errorClass: ErrorClass, reports: seq<Report>): Health {
    if reports == [] then start
    else
      var n := |reports| - 1;
      var r := reports[n];
      var h := Failed(AfterFailures(config, start, errorClass, reports[..n]), Some(errorClass), r.retryAfterMs, r.now);
      match CooldownMs(config, h.failureCount, Some(errorClass), r.retryAfterMs)
      case None => h
      case Some(ms) => Cooling(h, ms, r.now)
  }

  /** The failure that starts the cooldown: the first, the third, or the configured one. */
  function Threshold(config: Config, errorClass: ErrorClass): nat {
    match errorClass
    case Network => 3
    case ModelError => if config.maxFailuresBeforeCooldown == 0 then 1 else config.maxFailuresBeforeCooldown
    case _ => 1
  }

  /** A provider that has no failures and is not cooling starts to cool at the threshold, and not before. */
  lemma {:induction false} CoolsAtThreshold(config: Config, start: Health, errorClass: ErrorClass, reports: seq<Report>)
    requires start.failureCount == 0 && !start.isOnCooldown
    ensures var h, n := AfterFailures(config, start, errorClass, reports), |reports|;
            && h.failureCount == n
            && (h.isOnCooldown <==> n >= Threshold(config, errorClass))
            && (n > 0 ==> (h.needsAuthRefresh <==> errorClass == AuthFailure))
  {
    if reports != [] {
      CoolsAtThreshold(config, start, errorClass, reports[..|reports| - 1]);
    }
  }

  // ---- The fallback ring ----

  /** The providers `fallback` goes through, most capable first. */
  const RING: seq<Provider> :=
    [AnthropicApi, GeminiApi, Groq, DeepseekV4, KiroAi, Openai, MoonshotK26, Qwen36Plus, OpencodeGo, MinimaxM27,
     Mistral, MoonshotK25, Gemini, Tavily, Qwen35Plus, Deepseek, GlmDeepinfra, GlmFireworks, GlmZai, XiaomiMimo,
     MinimaxM25]

  predicate IsHealthy(health: HealthMap, p: Provider) {
    p in health && !health[p].isOnCooldown
  }

  /** The provider the search looks at after `k` others. */
  function Visited(ring: seq<Provider>, start: nat, k: nat): Provider
    requires ring != []
  {
    ring[(start + k) % |ring|]
  }

  /** The first healthy provider from the `i`-th visit on; `None` after a full round. */
  function FirstHealthy(ring: seq<Provider>, health: HealthMap, start: nat, i: nat): Option<Provider>
    requires ring != [] && i <= |ring|
    decreases |ring| - i
  {
    if i == |ring| then None
    else if IsHealthy(health, Visited(ring, start, i)) then Some(Visited(ring, start, i))
    else FirstHealthy(ring, health, start, i + 1)
  }

  /** `indexOf`: the first place of a provider, -1 for one that is not in the ring. */
  function IndexOf(ring: seq<Provider>, p: Provider): (i: int)
    ensures -1 <= i < |ring| && (i >= 0 ==> ring[i] == p) && (i == -1 <==> p !in ring)
  {
    if ring == [] then -1
    else if ring[0] == p then 0
    else
      var i := IndexOf(ring[1..], p);
      if i == -1 then -1 else i + 1
  }

  function FallbackFrom(ring: seq<Provider>, health: HealthMap, start: nat): Provider
    requires ring != []
  {
    match FirstHealthy(ring, health, start, 0)
    case Some(p) => p
    case None => ring[0]
  }

  /** `fallback(from)`: the search starts after `from`, at the front if it is not in the ring. */
  function FallbackOf(ring: seq<Provider>, health: HealthMap, from: Provider): Provider
    requires ring != []
  {
    FallbackFrom(ring, health, IndexOf(ring, from) + 1)
  }

  /** Everything visited before the result is unhealthy. */
  lemma {:induction false} FirstHealthyIsFirst(ring: seq<Provider>, health: HealthMap, start: nat, i: nat)
    returns (found: nat)
    requires ring != [] && i <= |ring|
    ensures i <= found <= |ring|
    ensures FirstHealthy(ring, health, start, i) == if found == |ring| then None else Some(Visited(ring, start, found))
    ensures found < |ring| ==> IsHealthy(health, Visited(ring, start, found))
    ensures forall k :: i <= k < found ==> !IsHealthy(health, Visited(ring, start, k))
    decreases |ring| - i
  {
    if i == |ring| || IsHealthy(health, Visited(ring, start, i)) {
      found := i;
    } else {
      found := FirstHealthyIsFirst(ring, health, start, i + 1);
    }
  }

  lemma Wraps(x: nat, n: nat)
    requires x < n + n
    ensures x % n == if x < n then x else x - n
  {
  }

  /** A full round from any start visits each place of the ring. */
  lemma PlaceIsVisited(ring: seq<Provider>, start: nat, j: nat) returns (k: nat)
    requires start <= |ring| && j < |ring|
    ensures k < |ring| && Visited(ring, start, k) == ring[j]
    ensures k == if j >= start then j - start else j + |ring| - start
  {
    k := if j >= start then j - start else j + |ring| - start;
    Wraps(start + k, |ring|);
  }

  ghost predicate AnyHealthy(ring: seq<Provider>, health: HealthMap) {
    exists p :: p in ring && IsHealthy(health, p)
  }

  /** A cooling provider is chosen only if the whole ring is cooling, and then the first of the ring. */
  lemma FallbackPrefersHealthy(ring: seq<Provider>, health: HealthMap, start: nat)
    requires ring != [] && start <= |ring|
    ensures FallbackFrom(ring, health, start) in ring
    ensures IsHealthy(health, FallbackFrom(ring, health, start)) <==> AnyHealthy(ring, health)
    ensures !AnyHealthy(ring, health) ==> FallbackFrom(ring, health, start) == ring[0]
  {
    var found := FirstHealthyIsFirst(ring, health, start, 0);
    if AnyHealthy(ring, health) {
      var p :| p in ring && IsHealthy(health, p);
      var j :| 0 <= j < |ring| && ring[j] == p;
      var k := PlaceIsVisited(ring, start, j);
    }
  }

  ghost predicate NoRepeats(ring: seq<Provider>) {
    forall i, j :: 0 <= i < j < |ring| ==> ring[i] != ring[j]
  }

  ghost function RingPlace(p: Provider): int {
    match p
    case AnthropicApi => 0
    case GeminiApi => 1
    case Groq => 2
    case DeepseekV4 => 3
    case KiroAi => 4
    case Openai => 5
    case MoonshotK26 => 6
    case Qwen36Plus => 7
    case OpencodeGo => 8
    case MinimaxM27 => 9
    case Mistral => 10
    case MoonshotK25 => 11
    case Gemini => 12
    case Tavily => 13
    case Qwen35Plus => 14
    case Deepseek => 15
    case GlmDeepinfra => 16
    case GlmFireworks => 17
    case GlmZai => 18
    case XiaomiMimo => 19
    case MinimaxM25 => 20
    case _ => -1
  }

  /** Each provider stands in the ring once. */
  lemma RingHasNoRepeats()
    ensures NoRepeats(RING)
  {
    assert forall i :: 0 <= i < |RING| ==> RingPlace(RING[i]) == i;
  }

  ghost predicate OthersCool(ring: seq<Provider>, health: HealthMap, from: Provider) {
    forall p :: p in ring && p != from ==> !IsHealthy(health, p)
  }

  /**
   * A request is given up after one failure exactly when every other provider of
   * the ring is cooling, and the failed one is still healthy or heads the ring.
   */
  lemma ExhaustedIff(ring: seq<Provider>, health: HealthMap, from: Provider)
    requires NoRepeats(ring) && from in ring
    ensures FallbackOf(ring, health, from) == from
       <==> OthersCool(ring, health, from) && (IsHealthy(health, from) || from == ring[0])
  {
    FallbackPrefersHealthy(ring, health, IndexOf(ring, from) + 1);
    if FallbackOf(ring, health, from) == from && IsHealthy(health, from) {
      ChosenItselfLast(ring, health, from);
    }
  }

  /** The failed provider is visited last. */
  lemma ChosenItselfLast(ring: seq<Provider>, health: HealthMap, from: Provider)
    requires NoRepeats(ring) && from in ring && FallbackOf(ring, health, from) == from && IsHealthy(health, from)
    ensures OthersCool(ring, health, from)
  {
    var n, at := |ring|, IndexOf(ring, from);
    var found := FirstHealthyIsFirst(ring, health, at + 1, 0);
    if found == n {
      var k := PlaceIsVisited(ring, at + 1, at);
    } else {
      VisitOfItself(ring, at, found);
    }
    forall p | p in ring && p != from ensures !IsHealthy(health, p) {
      var j :| 0 <= j < n && ring[j] == p;
      var k := PlaceIsVisited(ring, at + 1, j);
    }
  }

  lemma VisitOfItself(ring: seq<Provider>, at: nat, k: nat)
    requires NoRepeats(ring) && at < |ring| && k < |ring| && Visited(ring, at + 1, k) == ring[at]
    ensures k == |ring| - 1
  {
    Wraps(at + 1 + k, |ring|);
  }

  lemma RingFallback(ring: seq<Provider>, health: HealthMap, from: Provider, first: Provider)
    requires NoRepeats(ring) && ring != [] && ring[0] == first
    ensures IsFallback(ring, health, from, first)
  {
    FallbackPrefersHealthy(ring, health, IndexOf(ring, from) + 1);
    if from in ring {
      ExhaustedIff(ring, health, from);
    }
  }

  ghost predicate IsFallback(ring: seq<Provider>, health: HealthMap, from: Provider, first: Provider)
    requires ring != []
  {
    var r := FallbackOf(ring, health, from);
    && r in ring && (IsHealthy(health, r) <==> AnyHealthy(ring, health))
    && (!AnyHealthy(ring, health) ==> r == first)
    && (from in ring ==> (r == from <==> OthersCool(ring, health, from) && (IsHealthy(health, from) || from == first)))
  }

  /** Both results on the ring the source lists, which `anthropic-api` heads. */
  lemma SourceRingFallback(health: HealthMap, from: Provider)
    ensures IsFallback(RING, health, from, AnthropicApi)
  {
    RingHasNoRepeats();
    RingFallback(RING, health, from, AnthropicApi);
  }

  // ---- Handlers, timers and requests ----

  /** A call of `recordProviderFailure`, by the await it is in. */
  datatype Handler =
    | LoggingModelError(p: Provider, cooldownMs: Option<nat>)
    | LoggingCooldown(p: Provider, ms: nat)         // cooling; the timer is armed when the log is written
    | Finished
    | LogFailed                                     // threw; the timer is never armed

  /** A call of `completion`; `made` lists the providers called so far. */
  datatype Request =
    | Calling(made: seq<Provider>)
    | Recording(made: seq<Provider>, retryable: bool, handler: nat)
    | LoggingFallback(made: seq<Provider>)
    | Answered(made: seq<Provider>)
    | Threw(made: seq<Provider>)

  datatype State = State(health: HealthMap, handlers: seq<Handler>, timers: multiset<Provider>, requests: seq<Request>)

  /** `recordProviderFailure` up to its first await: the health map and what the handler waits for. */
  function StartFailure(config: Config, health: HealthMap, p: Provider, errorClass: Option<ErrorClass>,
                        retryAfterMs: Option<nat>, now: nat): (HealthMap, Handler)
  {
    if p !in health then (health, Finished)
    else
      var h := Failed(health[p], errorClass, retryAfterMs, now);
      var cooldownMs := CooldownMs(config, h.failureCount, errorClass, retryAfterMs);
      if errorClass == Some(ModelError) then (health[p := h], LoggingModelError(p, cooldownMs))
      else StartCooldown(health, p, h, cooldownMs, now)
  }

  /** One more failure, with its time, class and hint; the auth flag says whether its class is AUTH_FAILURE. */
  ghost predicate IsRecorded(before: Health, after: Health, errorClass: Option<ErrorClass>,
                             retryAfterMs: Option<nat>, now: nat)
  {
    && after.failureCount == before.failureCount + 1 && after.lastFailureTime == Some(now)
    && after.lastErrorClass == (if errorClass.Some? then errorClass else before.lastErrorClass)
    && after.retryAfterMs == retryAfterMs && (after.needsAuthRefresh <==> errorClass == Some(AuthFailure))
  }

  /** The part of `recordProviderFailure` that decides on a cooldown, up to the await of its log. */
  function StartCooldown(health: HealthMap, p: Provider, h: Health, cooldownMs: Option<nat>, now: nat)
    : (HealthMap, Handler)
  {
    match cooldownMs
    case None => (health[p := h], Finished)
    case Some(ms) => (health[p := Cooling(h, ms, now)], LoggingCooldown(p, ms))
  }

  function Last(made: seq<Provider>): Provider
    requires made != []
  {
    made[|made| - 1]
  }

  datatype Step =
    | Begin(preferred: Provider)
    | CallSucceeds(r: nat)
    | CallFails(r: nat, errorClass: ErrorClass, retryAfterMs: Option<nat>, retryable: bool, now: nat)
    | ModelErrorLogged(h: nat, now: nat)
    | CooldownLogged(h: nat)
    | LogFails(h: nat)
    | FailureRecorded(r: nat)
    | FallBack(r: nat)
    | FallbackLogFails(r: nat)
    | Fire(p: Provider)

  ghost predicate Next(config: Config, s: State, t: State, step: Step) {
    match step
    case Begin(preferred) => t == s.(requests := s.requests + [Calling([preferred])])
    case CallSucceeds(r) =>
      && r < |s.requests| && s.requests[r].Calling? && s.requests[r].made != []
      && var p := Last(s.requests[r].made);
         t == s.(health := if p in s.health then s.health[p := Succeeded(s.health[p])] else s.health,
                 requests := s.requests[r := Answered(s.requests[r].made)])
    case CallFails(r, errorClass, retryAfterMs, retryable, now) =>
      && r < |s.requests| && s.requests[r].Calling? && s.requests[r].made != []
      && var p := Last(s.requests[r].made);
         var (health, handler) := StartFailure(config, s.health, p, Some(errorClass), retryAfterMs, now);
         t == s.(health := health, handlers := s.handlers + [handler],
                 requests := s.requests[r := Recording(s.requests[r].made, retryable, |s.handlers|)])
    case ModelErrorLogged(h, now) =>
      && h < |s.handlers| && s.handlers[h].LoggingModelError? && s.handlers[h].p in s.health
      && var p, cooldownMs := s.handlers[h].p, s.handlers[h].cooldownMs;
         var (health, handler) := StartCooldown(s.health, p, s.health[p], cooldownMs, now);
         t == s.(health := health, handlers := s.handlers[h := handler])
    case CooldownLogged(h) =>
      && h < |s.handlers| && s.handlers[h].LoggingCooldown?
      && t == s.(timers := s.timers + multiset{s.handlers[h].p}, handlers := s.handlers[h := Finished])
    case LogFails(h) =>
      && h < |s.handlers| && (s.handlers[h].LoggingModelError? || s.handlers[h].LoggingCooldown?)
      && t == s.(handlers := s.handlers[h := LogFailed])
    case FailureRecorded(r) =>
      && r < |s.requests| && s.requests[r].Recording? && s.requests[r].handler < |s.handlers|
      && var handler, made := s.handlers[s.requests[r].handler], s.requests[r].made;
         (handler.Finished? || handler.LogFailed?)
         && t == s.(requests := s.requests[r := if handler.Finished? && s.requests[r].retryable && |made| == 1
                                                then LoggingFallback(made) else Threw(made)])
    case FallBack(r) =>
      && r < |s.requests| && s.requests[r].LoggingFallback? && s.requests[r].made != [] && config.ring != []
      && var made := s.requests[r].made;
         var next := FallbackOf(config.ring, s.health, Last(made));
         t == s.(requests := s.requests[r := if next == Last(made) then Threw(made) else Calling(made + [next])])
    case FallbackLogFails(r) =>
      && r < |s.requests| && s.requests[r].LoggingFallback?
      && t == s.(requests := s.requests[r := Threw(s.requests[r].made)])
    case Fire(p) =>
      && p in s.timers && p in s.health
      && t == s.(health := s.health[p := Expired(s.health[p])], timers := s.timers - multiset{p})
  }

  /** The state after the constructor: every provider it tracks is healthy. */
  ghost predicate IsInitial(s: State) {
    s == State(s.health, [], multiset{}, []) && forall p :: p in s.health ==> s.health[p] == Healthy
  }

  ghost predicate Steps(config: Config, s: State, t: State) {
    exists step :: Next(config, s, t, step)
  }

  ghost predicate IsStepAt(config: Config, trace: seq<State>, i: int) {
    0 <= i < |trace| - 1 ==> Steps(config, trace[i], trace[i + 1])
  }

  ghost predicate IsRun(config: Config, trace: seq<State>) {
    |trace| > 0 && IsInitial(trace[0]) && forall i :: IsStepAt(config, trace, i)
  }

  // ---- Invariants of every run ----

  predicate IsCooling(s: State, p: Provider) {
    p in s.health && s.health[p].isOnCooldown
  }

  ghost predicate IsSound(h: Health) {
    && (h.isOnCooldown <==> h.cooldownExpiresAt.Some?)
    && (h.needsAuthRefresh ==> h.lastErrorClass == Some(AuthFailure))
  }

  ghost predicate AboutToArm(s: State, p: Provider) {
    exists h :: 0 <= h < |s.handlers| && s.handlers[h].LoggingCooldown? && s.handlers[h].p == p
  }

  /** At most two calls, to different providers, and a second only as the last. */
  ghost predicate IsModest(request: Request) {
    && 1 <= |request.made| <= 2
    && (|request.made| == 2 ==> request.made[0] != request.made[1])
    && (request.LoggingFallback? ==> |request.made| == 1)
  }

  ghost predicate AllSound(health: HealthMap) {
    forall p :: p in health ==> IsSound(health[p])
  }

  /** A handler that is not done belongs to a tracked provider. */
  ghost predicate IsKnown(handler: Handler, health: HealthMap) {
    handler.LoggingModelError? || handler.LoggingCooldown? ==> handler.p in health
  }

  ghost predicate AllKnown(handlers: seq<Handler>, health: HealthMap) {
    forall h :: 0 <= h < |handlers| ==> IsKnown(handlers[h], health)
  }

  ghost predicate Inv(s: State) {
    && AllSound(s.health) && AllKnown(s.handlers, s.health)
    && (forall r :: 0 <= r < |s.requests| ==> IsModest(s.requests[r]))
  }

  lemma StartCooldownIsSound(health: HealthMap, p: Provider, h: Health, cooldownMs: Option<nat>, now: nat)
    requires AllSound(health) && IsSound(h) && p in health
    ensures var (after, handler) := StartCooldown(health, p, h, cooldownMs, now);
            AllSound(after) && after.Keys == health.Keys && IsKnown(handler, health)
  {
  }

  lemma StartFailureIsSound(config: Config, health: HealthMap, p: Provider, errorClass: Option<ErrorClass>,
                            retryAfterMs: Option<nat>, now: nat)
    requires AllSound(health)
    ensures var (after, handler) := StartFailure(config, health, p, errorClass, retryAfterMs, now);
            AllSound(after) && after.Keys == health.Keys && IsKnown(handler, health)
  {
    if p in health {
      var h := Failed(health[p], errorClass, retryAfterMs, now);
      assert IsSound(h);
      StartCooldownIsSound(health, p, h, CooldownMs(config, h.failureCount, errorClass, retryAfterMs), now);
    }
  }

  lemma FailureKeepsSound(config: Config, s: State, t: State, step: Step)
    requires AllSound(s.health) && AllKnown(s.handlers, s.health) && Next(config, s, t, step) && step.CallFails?
    ensures t.health.Keys == s.health.Keys && AllSound(t.health) && AllKnown(t.handlers, t.health)
  {
    var p := Last(s.requests[step.r].made);
    StartFailureIsSound(config, s.health, p, Some(step.errorClass), step.retryAfterMs, step.now);
  }

  lemma ModelErrorKeepsSound(config: Config, s: State, t: State, step: Step)
    requires AllSound(s.health) && AllKnown(s.handlers, s.health) && Next(config, s, t, step) && step.ModelErrorLogged?
    ensures t.health.Keys == s.health.Keys && AllSound(t.health) && AllKnown(t.handlers, t.health)
  {
    var handler := s.handlers[step.h];
    StartCooldownIsSound(s.health, handler.p, s.health[handler.p], handler.cooldownMs, step.now);
  }

  /** A success or a timer updates one record and no handler. */
  lemma RecordKeepsSound(config: Config, s: State, t: State, step: Step)
    requires AllSound(s.health) && AllKnown(s.handlers, s.health) && Next(config, s, t, step)
    requires step.CallSucceeds? || step.Fire?
    ensures t.health.Keys == s.health.Keys && AllSound(t.health) && AllKnown(t.handlers, t.health)
  {
    assert t.handlers == s.handlers;
  }

  /** The end of a log write finishes one handler and touches no record. */
  lemma LogKeepsSound(config: Config, s: State, t: State, step: Step)
    requires AllSound(s.health) && AllKnown(s.handlers, s.health) && Next(config, s, t, step)
    requires step.CooldownLogged? || step.LogFails?
    ensures t.health.Keys == s.health.Keys && AllSound(t.health) && AllKnown(t.handlers, t.health)
  {
    assert t.health == s.health;
  }

  lemma StepKeepsSound(config: Config, s: State, t: State, step: Step)
    requires AllSound(s.health) && AllKnown(s.handlers, s.health) && Next(config, s, t, step)
    ensures t.health.Keys == s.health.Keys && AllSound(t.health) && AllKnown(t.handlers, t.health)
  {
    if step.CallFails? {
      FailureKeepsSound(config, s, t, step);
    } else if step.ModelErrorLogged? {
      ModelErrorKeepsSound(config, s, t, step);
    } else if step.CallSucceeds? || step.Fire? {
      RecordKeepsSound(config, s, t, step);
    } else if step.CooldownLogged? || step.LogFails? {
      LogKeepsSound(config, s, t, step);
    } else {
      assert t.health == s.health && t.handlers == s.handlers;
    }
  }

  lemma StepKeepsModest(config: Config, s: State, t: State, step: Step)
    requires (forall r :: 0 <= r < |s.requests| ==> IsModest(s.requests[r])) && Next(config, s, t, step)
    ensures forall r :: 0 <= r < |t.requests| ==> IsModest(t.requests[r])
  {
  }

  lemma {:induction false} RunKeepsInv(config: Config, trace: seq<State>, i: nat)
    requires IsRun(config, trace) && i < |trace|
    ensures Inv(trace[i]) && trace[i].health.Keys == trace[0].health.Keys
  {
    if i > 0 {
      RunKeepsInv(config, trace, i - 1);
      var s, t := trace[i - 1], trace[i];
      StepInRun(config, trace, i - 1);
      var step :| Next(config, s, t, step);
      StepKeepsSound(config, s, t, step);
      StepKeepsModest(config, s, t, step);
    }
  }

  /**
   * In every reachable state a provider is on cooldown exactly when its expiry is
   * set, and is flagged for a new key only while its last error is of that class.
   */
  lemma HealthIsSound(config: Config, trace: seq<State>, i: nat, p: Provider)
    requires IsRun(config, trace) && i < |trace| && p in trace[0].health
    ensures p in trace[i].health && IsSound(trace[i].health[p])
  {
    RunKeepsInv(config, trace, i);
  }

  // ---- Who ends a cooldown ----

  /** The provider cools with no timer armed and no handler about to arm one. */
  ghost predicate Orphan(s: State, p: Provider) {
    IsCooling(s, p) && p !in s.timers && !AboutToArm(s, p)
  }

  /** The handler is writing the log after which it would arm a timer for the provider. */
  predicate WillArm(s: State, h: nat, p: Provider) {
    h < |s.handlers| && s.handlers[h].LoggingCooldown? && s.handlers[h].p == p
  }

  /** The log write of the last handler that would arm a timer for a cooling provider without one fails. */
  ghost predicate LosesLastWatch(s: State, step: Step, p: Provider) {
    && step.LogFails? && WillArm(s, step.h, p)
    && IsCooling(s, p) && p !in s.timers
    && forall k :: k != step.h ==> !WillArm(s, k, p)
  }

  lemma AboutToArmIff(s: State, p: Provider)
    ensures AboutToArm(s, p) <==> exists h :: WillArm(s, h, p)
  {
    if AboutToArm(s, p) {
      var h :| 0 <= h < |s.handlers| && s.handlers[h].LoggingCooldown? && s.handlers[h].p == p;
      assert WillArm(s, h, p);
    }
    if h :| WillArm(s, h, p) {
      assert AboutToArm(s, p);
    }
  }

  /** A handler step changes one handler. */
  lemma OtherHandlersStay(config: Config, s: State, t: State, step: Step, p: Provider, k: nat)
    requires Next(config, s, t, step)
    requires step.ModelErrorLogged? || step.CooldownLogged? || step.LogFails? ==> k != step.h
    requires step.CallFails? ==> k != |s.handlers|
    ensures WillArm(t, k, p) <==> WillArm(s, k, p)
  {
  }

  /** Only a failure makes a provider cool, and it leaves a handler to arm the timer. */
  lemma FailureWatches(config: Config, s: State, t: State, step: Step, p: Provider)
    requires Next(config, s, t, step) && IsCooling(t, p) && !IsCooling(s, p)
    ensures step.CallFails? || step.ModelErrorLogged?
    ensures WillArm(t, if step.CallFails? then |s.handlers| else step.h, p)
  {
  }

  /**
   * The exact moment: a step orphans a provider if and only if it fails the log
   * write of the only handler left to arm a timer for it.
   */
  lemma OrphansIff(config: Config, s: State, t: State, step: Step, p: Provider)
    requires Next(config, s, t, step)
    ensures Orphan(t, p) && !Orphan(s, p) <==> LosesLastWatch(s, step, p)
  {
    AboutToArmIff(s, p);
    AboutToArmIff(t, p);
    if Orphan(t, p) && !Orphan(s, p) {
      OnlyLogFailureOrphans(config, s, t, step, p);
    }
    if LosesLastWatch(s, step, p) {
      assert WillArm(s, step.h, p);
      forall k ensures !WillArm(t, k, p) {
        if k != step.h {
          OtherHandlersStay(config, s, t, step, p, k);
        }
      }
    }
  }

  lemma NewlyCoolingIsWatched(config: Config, s: State, t: State, step: Step, p: Provider)
    requires Next(config, s, t, step) && IsCooling(t, p) && !IsCooling(s, p)
    ensures exists h :: WillArm(t, h, p)
  {
    FailureWatches(config, s, t, step, p);
  }

  /** Only its own firing takes a timer away, and that ends the cooldown. */
  lemma TimerStays(config: Config, s: State, t: State, step: Step, p: Provider)
    requires Next(config, s, t, step) && p in s.timers && IsCooling(t, p)
    ensures p in t.timers
  {
    if step.Fire? {
      assert step.p != p;
    } else if !step.CooldownLogged? {
      assert t.timers == s.timers;
    }
  }

  lemma WatchStays(config: Config, s: State, t: State, step: Step, p: Provider, k: nat)
    requires Next(config, s, t, step) && WillArm(s, k, p) && !(step.LogFails? && k == step.h)
    ensures WillArm(t, k, p) || p in t.timers
  {
    if !(step.CooldownLogged? && k == step.h) {
      OtherHandlersStay(config, s, t, step, p, k);
    }
  }

  lemma OnlyLogFailureOrphans(config: Config, s: State, t: State, step: Step, p: Provider)
    requires Next(config, s, t, step) && Orphan(t, p) && !Orphan(s, p)
    ensures LosesLastWatch(s, step, p)
  {
    AboutToArmIff(s, p);
    AboutToArmIff(t, p);
    if !IsCooling(s, p) {
      NewlyCoolingIsWatched(config, s, t, step, p);
    }
    if p in s.timers {
      TimerStays(config, s, t, step, p);
    }
    forall k: nat | !(step.LogFails? && k == step.h) ensures !WillArm(s, k, p) {
      if WillArm(s, k, p) {
        WatchStays(config, s, t, step, p, k);
      }
    }
  }

  /** An orphaned provider stays so until a call to it succeeds, or a further failure starts another cooldown. */
  lemma OrphanStays(config: Config, s: State, t: State, step: Step, p: Provider)
    requires Next(config, s, t, step) && Orphan(s, p)
    requires !(step.CallSucceeds? && Last(s.requests[step.r].made) == p)
    requires !((step.CallFails? || step.ModelErrorLogged?) && AboutToArm(t, p))
    ensures Orphan(t, p)
  {
    AboutToArmIff(s, p);
    AboutToArmIff(t, p);
    if !step.CallFails? && !step.ModelErrorLogged? {
      forall k: nat ensures !WillArm(t, k, p) {
        NoNewWatch(config, s, t, step, p, k);
      }
    }
    CoolingStays(config, s, t, step, p);
    NoTimerIsArmed(config, s, t, step, p);
  }

  lemma NoNewWatch(config: Config, s: State, t: State, step: Step, p: Provider, k: nat)
    requires Next(config, s, t, step) && !step.CallFails? && !step.ModelErrorLogged? && !WillArm(s, k, p)
    ensures !WillArm(t, k, p)
  {
    if step.CooldownLogged? || step.LogFails? ==> k != step.h {
      OtherHandlersStay(config, s, t, step, p, k);
    }
  }

  /** Without a timer nothing but a success ends the cooldown. */
  lemma CoolingStays(config: Config, s: State, t: State, step: Step, p: Provider)
    requires Next(config, s, t, step) && IsCooling(s, p) && p !in s.timers
    requires !(step.CallSucceeds? && Last(s.requests[step.r].made) == p)
    ensures IsCooling(t, p)
  {
  }

  lemma NoTimerIsArmed(config: Config, s: State, t: State, step: Step, p: Provider)
    requires Next(config, s, t, step) && p !in s.timers && forall k: nat :: !WillArm(s, k, p)
    ensures p !in t.timers
  {
    assert step.CooldownLogged? ==> !WillArm(s, step.h, p);
  }

  ghost predicate LosesWatchAt(config: Config, s: State, t: State, p: Provider) {
    exists step :: Next(config, s, t, step) && LosesLastWatch(s, step, p)
  }

  /**
   * In every run an orphaned provider has been orphaned without a gap since a
   * cooldown log for it failed to be written.
   */
  lemma {:induction false} OrphanedSince(config: Config, trace: seq<State>, i: nat, p: Provider) returns (j: nat)
    requires IsRun(config, trace) && i < |trace| && Orphan(trace[i], p)
    ensures j < i && LosesWatchAt(config, trace[j], trace[j + 1], p)
    ensures forall k :: j < k <= i ==> Orphan(trace[k], p)
  {
    StartsCool(config, trace, p);
    if Orphan(trace[i - 1], p) {
      j := OrphanedSince(config, trace, i - 1, p);
    } else {
      StepInRun(config, trace, i - 1);
      OrphaningStep(config, trace[i - 1], trace[i], p);
      j := i - 1;
    }
  }

  lemma StartsCool(config: Config, trace: seq<State>, p: Provider)
    requires IsRun(config, trace)
    ensures !Orphan(trace[0], p)
  {
  }

  lemma StepInRun(config: Config, trace: seq<State>, i: nat)
    requires IsRun(config, trace) && i + 1 < |trace|
    ensures Steps(config, trace[i], trace[i + 1])
  {
    assert IsStepAt(config, trace, i);
  }

  lemma OrphaningStep(config: Config, s: State, t: State, p: Provider)
    requires Steps(config, s, t) && Orphan(t, p) && !Orphan(s, p)
    ensures LosesWatchAt(config, s, t, p)
  {
    var step :| Next(config, s, t, step);
    OrphansIff(config, s, t, step, p);
  }

  /** At some point of the run the log write of the last handler that would wake the cooling provider fails. */
  ghost predicate LastWatchFails(config: Config, trace: seq<State>, p: Provider) {
    exists j, k :: 0 <= j && k == j + 1 && k < |trace| && LosesWatchAt(config, trace[j], trace[k], p)
  }

  /**
   * In every reachable state of a run in which no last watch of a provider fails,
   * the provider has an armed timer or a handler about to arm one whenever it is
   * cooling.
   */
  lemma CoolingIsWatched(config: Config, trace: seq<State>, i: nat, p: Provider)
    requires IsRun(config, trace) && i < |trace| && IsCooling(trace[i], p) && !LastWatchFails(config, trace, p)
    ensures p in trace[i].timers || AboutToArm(trace[i], p)
  {
    if Orphan(trace[i], p) {
      var j := OrphanedSince(config, trace, i, p);
    }
  }

  ghost predicate CooldownLogFailsAt(config: Config, s: State, t: State, p: Provider) {
    exists h: nat :: Next(config, s, t, LogFails(h)) && WillArm(s, h, p)
  }

  /** The log write of some cooldown of the provider fails during the run. */
  ghost predicate CooldownLogFails(config: Config, trace: seq<State>, p: Provider) {
    exists j, k :: 0 <= j && k == j + 1 && k < |trace| && CooldownLogFailsAt(config, trace[j], trace[k], p)
  }

  /** In particular a cooling provider is watched while all its cooldown logs are written. */
  lemma LoggedCooldownsAreWatched(config: Config, trace: seq<State>, i: nat, p: Provider)
    requires IsRun(config, trace) && i < |trace| && IsCooling(trace[i], p) && !CooldownLogFails(config, trace, p)
    ensures p in trace[i].timers || AboutToArm(trace[i], p)
  {
    forall j, k | 0 <= j && k == j + 1 && k < |trace| ensures !LosesWatchAt(config, trace[j], trace[k], p) {
      assert !CooldownLogFailsAt(config, trace[j], trace[k], p);
      LostWatchIsALog(config, trace[j], trace[k], p);
    }
    CoolingIsWatched(config, trace, i, p);
  }

  lemma LostWatchIsALog(config: Config, s: State, t: State, p: Provider)
    ensures LosesWatchAt(config, s, t, p) ==> CooldownLogFailsAt(config, s, t, p)
  {
    if LosesWatchAt(config, s, t, p) {
      var step :| Next(config, s, t, step) && LosesLastWatch(s, step, p);
      assert Next(config, s, t, LogFails(step.h)) && WillArm(s, step.h, p);
    }
  }

  ghost predicate IsRunFrom(config: Config, health: HealthMap, trace: seq<State>) {
    IsRun(config, trace) && trace[0].health == health
  }

  ghost predicate NeverOrphans(trace: seq<State>, p: Provider) {
    forall i :: 0 <= i < |trace| ==> !Orphan(trace[i], p)
  }

  /**
   * Per provider: among the runs from given healthy records, those in which no
   * last watch of it fails never orphan it, and if such failures may occur some
   * run does.
   */
  lemma NeverOrphanedIff(config: Config, health: HealthMap, p: Provider, mayFail: bool)
    requires p in health && forall q :: q in health ==> health[q] == Healthy
    ensures !mayFail <==>
            forall trace: seq<State> ::
              IsRunFrom(config, health, trace) && (mayFail || !LastWatchFails(config, trace, p)) ==>
                NeverOrphans(trace, p)
  {
    if mayFail {
      var trace := FailedLogAbandonsProvider(config, health, p);
      assert !NeverOrphans(trace, p) by { assert Orphan(trace[|trace| - 1], p); }
    } else {
      forall trace: seq<State> | IsRunFrom(config, health, trace) && !LastWatchFails(config, trace, p)
        ensures NeverOrphans(trace, p)
      {
        forall i | 0 <= i < |trace| ensures !Orphan(trace[i], p) {
          if IsCooling(trace[i], p) {
            CoolingIsWatched(config, trace, i, p);
          }
        }
      }
    }
  }

  /** A request calls at most two providers, and they differ. */
  lemma RequestsAreModest(config: Config, trace: seq<State>, i: nat, r: nat)
    requires IsRun(config, trace) && i < |trace| && r < |trace[i].requests|
    ensures var made := trace[i].requests[r].made;
            1 <= |made| <= 2 && forall j, k :: 0 <= j < k < |made| ==> made[j] != made[k]
  {
    RunKeepsInv(config, trace, i);
    assert IsModest(trace[i].requests[r]);
  }

  /**
   * The second provider a request calls is healthy at that moment, or else the
   * whole ring is cooling and it is the first of the ring.
   */
  lemma SecondProviderIsHealthy(config: Config, s: State, t: State, r: nat)
    requires Next(config, s, t, FallBack(r)) && t.requests[r].Calling?
    ensures var p := Last(t.requests[r].made);
            p in config.ring && (IsHealthy(s.health, p) || (!AnyHealthy(config.ring, s.health) && p == config.ring[0]))
  {
    FallbackPrefersHealthy(config.ring, s.health, IndexOf(config.ring, Last(s.requests[r].made)) + 1);
  }

  /** The log write does matter: when it fails, the provider cools with nothing left to end it. */
  lemma FailedLogAbandonsProvider(config: Config, health: HealthMap, p: Provider) returns (trace: seq<State>)
    requires p in health && forall q :: q in health ==> health[q] == Healthy
    ensures IsRun(config, trace) && trace[0].health == health
    ensures Orphan(trace[|trace| - 1], p)
  {
    var ms := config.cooldownAuthMs;
    var cooling := health[p := Cooling(Failed(Healthy, Some(AuthFailure), None, 0), ms, 0)];
    trace := [State(health, [], multiset{}, []),
              State(health, [], multiset{}, [Calling([p])]),
              State(cooling, [LoggingCooldown(p, ms)], multiset{}, [Recording([p], false, 0)]),
              State(cooling, [LogFailed], multiset{}, [Recording([p], false, 0)])];
    var failed := health[p := Failed(Healthy, Some(AuthFailure), None, 0)];
    assert failed[p := Cooling(failed[p], ms, 0)] == cooling;
    assert Next(config, trace[0], trace[1], Begin(p));
    assert Next(config, trace[1], trace[2], CallFails(0, AuthFailure, None, false, 0));
    assert Next(config, trace[2], trace[3], LogFails(0));
    forall i ensures IsStepAt(config, trace, i) {
      assert 0 <= i < 3 ==> Steps(config, trace[i], trace[i + 1]);
    }
  }

  // ---- The methods ----

  class ProviderRouter {
    const config: Config
    var providerHealth: HealthMap

    /** The tracked providers are those of the ring. */
    constructor (config: Config)
      ensures this.config == config && providerHealth == map p | p in config.ring :: Healthy
    {
      this.config := config;
      providerHealth := map p | p in config.ring :: Healthy;
    }

    /** Up to the first await; the handler says what is awaited. */
    method RecordProviderFailure(p: Provider, errorClass: Option<ErrorClass>, retryAfterMs: Option<nat>, now: nat)
      returns (handler: Handler)
      modifies this
      ensures (providerHealth, handler) == StartFailure(config, old(providerHealth), p, errorClass, retryAfterMs, now)
      ensures p in old(providerHealth) ==>
                && p in providerHealth
                && IsRecorded(old(providerHealth)[p], providerHealth[p], errorClass, retryAfterMs, now)
    {
      if p !in providerHealth {
        return Finished;
      }
      var health := providerHealth[p];
      health := health.(failureCount := health.failureCount + 1);
      health := health.(lastFailureTime := Some(now));
      if errorClass.Some? {
        health := health.(lastErrorClass := errorClass);
      }
      health := health.(retryAfterMs := retryAfterMs);
      health := health.(needsAuthRefresh := errorClass == Some(AuthFailure));
      ghost var failed := Failed(providerHealth[p], errorClass, retryAfterMs, now);
      assert health == failed;
      var cooldownMs := CooldownMs(config, health.failureCount, errorClass, retryAfterMs);
      if errorClass == Some(ModelError) {
        handler := LoggingModelError(p, cooldownMs);
      } else if cooldownMs.None? {
        handler := Finished;
        assert StartCooldown(providerHealth, p, failed, cooldownMs, now) == (providerHealth[p := health], handler);
      } else {
        health := health.(isOnCooldown := true);
        health := health.(cooldownExpiresAt := Some(now + cooldownMs.value));
        assert health == Cooling(failed, cooldownMs.value, now);
        handler := LoggingCooldown(p, cooldownMs.value);
        assert StartCooldown(providerHealth, p, failed, cooldownMs, now) == (providerHealth[p := health], handler);
      }
      providerHealth := providerHealth[p := health];
    }

    method RecordProviderSuccess(p: Provider)
      modifies this
      ensures providerHealth == if p in old(providerHealth)
                                then old(providerHealth)[p := Succeeded(old(providerHealth)[p])]
                                else old(providerHealth)
      ensures p in old(providerHealth) ==>
                providerHealth[p] == Health(0, old(providerHealth)[p].lastFailureTime, false, None, false, None, None)
    {
      if p in providerHealth {
        providerHealth := providerHealth[p := Succeeded(providerHealth[p])];
      }
    }

    /**
     * The first healthy provider in ring order after `from`, or from a random place
     * without `from`; the first of the ring when all are cooling.
     */
    method Fallback(from: Option<Provider>, random: nat) returns (r: Provider)
      requires config.ring != [] && random < |config.ring|
      ensures r == FallbackFrom(config.ring, providerHealth,
                                if from.Some? then IndexOf(config.ring, from.value) + 1 else random)
      ensures r in config.ring && (IsHealthy(providerHealth, r) <==> AnyHealthy(config.ring, providerHealth))
    {
      var startIdx: nat := if from.Some? then IndexOf(config.ring, from.value) + 1 else random;
      FallbackPrefersHealthy(config.ring, providerHealth, startIdx);
      r := SearchRing(config.ring, providerHealth, startIdx);
    }
  }

  method SearchRing(providers: seq<Provider>, health: HealthMap, startIdx: nat) returns (r: Provider)
    requires providers != []
    ensures r == FallbackFrom(providers, health, startIdx)
  {
    for i := 0 to |providers|
      invariant FirstHealthy(providers, health, startIdx, 0) == FirstHealthy(providers, health, startIdx, i)
    {
      var idx := (startIdx + i) % |providers|;
      var provider := providers[idx];
      assert provider == Visited(providers, startIdx, i);
      if IsHealthy(health, provider) {
        return provider;
      }
    }
    r := providers[0];
  }
}
