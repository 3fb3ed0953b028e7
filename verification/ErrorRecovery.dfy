/**
 Execution with recovery: a retry loop behind a circuit breaker, with capped
 exponential delays and a recovery attempt after each failed call but the last.
 The environment (clock, outcome of the operation, outcome of each recovery
 strategy) is an input, one record per attempt.
 */
module ErrorRecovery {
  import opened Prelude
  import CB = CircuitBreaker
  import RA = RunningAverage

  datatype RecoveryStrategy = RestartContainer | RecreateContainer | ScaleUp | NodeFailover | ResetCircuitBreaker

  datatype ErrorRecoveryConfig = ErrorRecoveryConfig(
    maxRetryAttempts: nat,
    baseRetryDelay: nat,    // nanoseconds
    maxRetryDelay: nat,
    circuitBreaker: CB.CircuitBreakerConfig,
    recoveryStrategies: seq<RecoveryStrategy>)

  datatype Metrics = Metrics(
    totalErrors: nat,
    recoveredErrors: nat,
    failedRecoveries: nat,
    circuitBreakerOpens: nat,
    containerRestarts: nat,
    containerRecreations: nat,
    avgRecoveryTime: nat)

  /** What a container call answers: done, failed, or nothing there to act on. */
  datatype ContainerAnswer = Done | Failed | Missing

  /** The environment of one attempt. `container` answers strategy by strategy. */
  datatype Attempt = Attempt(
    checkAt: int,
    succeeds: bool,
    elapsed: nat,
    recordAt: int,
    container: nat -> ContainerAnswer,
    recoveryElapsed: nat)

  // ---------------------------------------------------------------- retry delays

  const DURATION_MAX: nat := 0x1_0000_0000_0000_0000 * 1_000_000_000 - 1

  function Pow2(n: nat): (p: nat)
    ensures p >= 1
  {
    if n == 0 then 1 else 2 * Pow2(n - 1)
  }

  /** The base delay times the n-th power of two. */
  function Doubled(base: nat, n: nat): nat {
    if n == 0 then base else 2 * Doubled(base, n - 1)
  }

  lemma {:induction false} DoubledIsPower(base: nat, n: nat)
    ensures Doubled(base, n) == base * Pow2(n)
  {
    if n > 0 {
      DoubledIsPower(base, n - 1);
      var p := Pow2(n - 1);
      assert 2 * (base * p) == base * (2 * p);
    }
  }

  /** `None` is the arithmetic overflow: of the 32-bit power, or of the duration it multiplies. */
  function CalculateRetryDelay(config: ErrorRecoveryConfig, attempt: nat): Option<nat>
    requires attempt >= 1
  {
    if attempt > 32 then None
    else if Doubled(config.baseRetryDelay, attempt - 1) > DURATION_MAX then None
    else Some(Capped(config, attempt))
  }

  function Capped(config: ErrorRecoveryConfig, attempt: nat): nat
    requires attempt >= 1
  {
    var exponential := Doubled(config.baseRetryDelay, attempt - 1);
    if exponential <= config.maxRetryDelay then exponential else config.maxRetryDelay
  }

  /** The delay after `attempt` failed calls: the base times a power of two, up to the cap. */
  lemma RetryDelayIs(config: ErrorRecoveryConfig, attempt: nat)
    requires attempt >= 1
    ensures var exponential := config.baseRetryDelay * Pow2(attempt - 1);
            CalculateRetryDelay(config, attempt) ==
            if attempt > 32 || exponential > DURATION_MAX then None
            else if exponential <= config.maxRetryDelay then Some(exponential) else Some(config.maxRetryDelay)
  {
    DoubledIsPower(config.baseRetryDelay, attempt - 1);
  }

  /** `sleeps` are the delays after the first, second, ... failed call, all of them representable. */
  ghost predicate IsBackoff(config: ErrorRecoveryConfig, sleeps: seq<nat>) {
    var n := |sleeps|;
    n > 0 ==> IsBackoff(config, sleeps[..n - 1]) && CalculateRetryDelay(config, n) == Some(sleeps[n - 1])
  }

  lemma {:induction false} BackoffAt(config: ErrorRecoveryConfig, sleeps: seq<nat>, k: nat)
    requires IsBackoff(config, sleeps) && k < |sleeps|
    ensures CalculateRetryDelay(config, k + 1) == Some(sleeps[k])
  {
    if k < |sleeps| - 1 {
      BackoffAt(config, sleeps[..|sleeps| - 1], k);
    }
  }

  lemma BackoffSnoc(config: ErrorRecoveryConfig, sleeps: seq<nat>, delay: nat)
    requires IsBackoff(config, sleeps) && CalculateRetryDelay(config, |sleeps| + 1) == Some(delay)
    ensures IsBackoff(config, sleeps + [delay])
  {
    assert (sleeps + [delay])[..|sleeps|] == sleeps;
  }

  lemma {:induction false} DoubledMonotone(base: nat, i: nat, j: nat)
    requires i <= j
    ensures Doubled(base, i) <= Doubled(base, j)
  {
    if i < j {
      DoubledMonotone(base, i, j - 1);
    }
  }

  /** Sleeps never get shorter and never exceed the cap. */
  lemma DelaysAreMonotoneAndCapped(config: ErrorRecoveryConfig, sleeps: seq<nat>, i: nat, j: nat)
    requires IsBackoff(config, sleeps) && i <= j < |sleeps|
    ensures sleeps[i] <= sleeps[j] <= config.maxRetryDelay
  {
    BackoffAt(config, sleeps, i);
    BackoffAt(config, sleeps, j);
    DoubledMonotone(config.baseRetryDelay, i, j);
  }

  lemma {:induction false} TotalDelay(config: ErrorRecoveryConfig, sleeps: seq<nat>)
    requires IsBackoff(config, sleeps)
    ensures RA.Sum(sleeps) <= Doubled(config.baseRetryDelay, |sleeps|) - config.baseRetryDelay
    ensures (forall k :: 0 <= k < |sleeps| ==> sleeps[k] < config.maxRetryDelay) ==>
              RA.Sum(sleeps) == Doubled(config.baseRetryDelay, |sleeps|) - config.baseRetryDelay
  {
    if sleeps != [] {
      TotalDelay(config, sleeps[..|sleeps| - 1]);
    }
  }

  /** The sleeps between m attempts last at most base * (2^(m - 1) - 1) together, and exactly that below the cap. */
  lemma TotalDelayBound(config: ErrorRecoveryConfig, sleeps: seq<nat>)
    requires IsBackoff(config, sleeps)
    ensures RA.Sum(sleeps) <= config.baseRetryDelay * (Pow2(|sleeps|) - 1)
    ensures (forall k :: 0 <= k < |sleeps| ==> sleeps[k] < config.maxRetryDelay) ==>
              RA.Sum(sleeps) == config.baseRetryDelay * (Pow2(|sleeps|) - 1)
  {
    TotalDelay(config, sleeps);
    DoubledIsPower(config.baseRetryDelay, |sleeps|);
  }

  /** The last delay of a full run is representable, if there is one. */
  predicate DelaysFit(config: ErrorRecoveryConfig) {
    var m := config.maxRetryAttempts;
    m >= 2 ==> m <= 33 && config.baseRetryDelay * Pow2(m - 2) <= DURATION_MAX
  }

  /** No delay that a run may need overflows if and only if the last one does not. */
  lemma NoOverflowIff(config: ErrorRecoveryConfig)
    ensures (forall attempt: nat ::
               1 <= attempt < config.maxRetryAttempts ==> CalculateRetryDelay(config, attempt).Some?)
       <==> DelaysFit(config)
  {
    var m := config.maxRetryAttempts;
    if m >= 2 {
      DoubledIsPower(config.baseRetryDelay, m - 2);
      assert CalculateRetryDelay(config, m - 1).Some? <==> DelaysFit(config);
      forall attempt: nat | 1 <= attempt < m && DelaysFit(config)
        ensures CalculateRetryDelay(config, attempt).Some?
      {
        DoubledMonotone(config.baseRetryDelay, attempt - 1, m - 2);
      }
    }
  }

  // --------------------------------------------------------------- the system

  datatype Outcome =
    | Succeeded
    | Blocked       // the breaker refused an attempt
    | Exhausted     // every attempt ran and failed
    | Overflowed    // the next delay is not representable

  /** The breaker an operation meets; one that was never used starts closed. */
  function BreakerOf(breakers: map<string, CB.Breaker>, id: string, now: int): CB.Breaker {
    if id in breakers then breakers[id] else CB.New(now)
  }

  /** What one attempt came to. */
  datatype CallResult = Refused | Returned | Raised

  /** Refused by the breaker, or as the operation itself ends. */
  function Answer(config: ErrorRecoveryConfig, b: CB.Breaker, a: Attempt): CallResult {
    if !CB.Admits(config.circuitBreaker, b, a.checkAt) then Refused
    else if a.succeeds then Returned else Raised
  }

  /** What the breaker is told by one attempt; a refusal is itself recorded as a failure. */
  function CallEvents(a: Attempt, r: CallResult): seq<CB.Event> {
    [CB.Check(a.checkAt), if r.Returned? then CB.Success(a.recordAt) else CB.Failure(a.recordAt)]
  }

  /** The breaker once an attempt has come to `r`. */
  function AfterAttempt(config: ErrorRecoveryConfig, b: CB.Breaker, a: Attempt, r: CallResult): CB.Breaker {
    var checked := CB.OnCheck(config.circuitBreaker, b, a.checkAt);
    if r.Returned? then CB.OnSuccess(config.circuitBreaker, checked, a.recordAt)
    else CB.OnFailure(config.circuitBreaker, checked, a.recordAt)
  }

  /** An attempt is refused exactly by a breaker that does not admit it; else it ends as the operation does. */
  lemma AnswerMeans(config: ErrorRecoveryConfig, b: CB.Breaker, a: Attempt)
    ensures Answer(config, b, a) == Refused <==> !CB.Admits(config.circuitBreaker, b, a.checkAt)
    ensures Answer(config, b, a) == Returned ==> a.succeeds
    ensures Answer(config, b, a) == Raised ==> !a.succeeds
  {
  }

  lemma AttemptIsRun(config: ErrorRecoveryConfig, b: CB.Breaker, a: Attempt, r: CallResult)
    ensures AfterAttempt(config, b, a, r) == CB.Run(config.circuitBreaker, b, CallEvents(a, r))
  {
    var events := CallEvents(a, r);
    assert events[..1] == [events[0]];
    assert events[..1][..0] == [];
    assert CB.Run(config.circuitBreaker, b, events[..1]) == CB.Step(config.circuitBreaker, b, events[0]);
  }

  /** The strategies whose answer counts as success. */
  predicate Works(strategy: RecoveryStrategy, answer: ContainerAnswer) {
    match strategy
    case RestartContainer => answer == Done
    case RecreateContainer => answer != Failed
    case _ => true
  }

  /**
   A recovery fails only if every strategy is a restart that is not done or a recreation that
   fails; a container that is not there does not make a recreation fail.
   */
  lemma RecoversIff(config: ErrorRecoveryConfig, a: Attempt)
    ensures Recovers(config, a)
       <==> exists i: nat :: && i < |config.recoveryStrategies|
                             && !StrategyFails(config.recoveryStrategies[i], a.container(i))
  {
    FirstWorkingIsFirst(config.recoveryStrategies, a, 0);
  }

  ghost predicate StrategyFails(strategy: RecoveryStrategy, answer: ContainerAnswer) {
    || (strategy == RestartContainer && answer != Done)
    || (strategy == RecreateContainer && answer == Failed)
  }

  ghost predicate IsFirstReset(strategies: seq<RecoveryStrategy>, a: Attempt, j: nat) {
    && j < |strategies| && strategies[j] == ResetCircuitBreaker
    && forall k: nat :: k < j ==> StrategyFails(strategies[k], a.container(k))
  }

  /** It resets the breaker exactly if a reset is the first strategy that does not fail. */
  lemma ResetsIff(config: ErrorRecoveryConfig, a: Attempt)
    ensures Resets(config, a) <==> exists j :: IsFirstReset(config.recoveryStrategies, a, j)
  {
    FirstWorkingIsFirst(config.recoveryStrategies, a, 0);
    if Resets(config, a) {
      assert IsFirstReset(config.recoveryStrategies, a, FirstWorking(config.recoveryStrategies, a, 0).value);
    }
  }

  /** The strategies are tried in order from `i`; the first that works ends the recovery. */
  function FirstWorking(strategies: seq<RecoveryStrategy>, a: Attempt, i: nat): Option<nat>
    decreases |strategies| - i
  {
    if i >= |strategies| then None
    else if Works(strategies[i], a.container(i)) then Some(i)
    else FirstWorking(strategies, a, i + 1)
  }

  lemma {:induction false} FirstWorkingIsFirst(strategies: seq<RecoveryStrategy>, a: Attempt, i: nat)
    ensures var r := FirstWorking(strategies, a, i);
            match r
            case Some(j) => i <= j < |strategies| && Works(strategies[j], a.container(j)) &&
                            forall k :: i <= k < j ==> !Works(strategies[k], a.container(k))
            case None => forall k :: i <= k < |strategies| ==> !Works(strategies[k], a.container(k))
    decreases |strategies| - i
  {
    if i < |strategies| && !Works(strategies[i], a.container(i)) {
      FirstWorkingIsFirst(strategies, a, i + 1);
    }
  }

  predicate Recovers(config: ErrorRecoveryConfig, a: Attempt) {
    FirstWorking(config.recoveryStrategies, a, 0).Some?
  }

  /** The effect on the counters and the breakers of the strategy that worked. */
  function ApplyStrategy(m: Metrics, strategy: RecoveryStrategy, answer: ContainerAnswer): Metrics {
    match strategy
    case RestartContainer => m.(containerRestarts := m.containerRestarts + 1)
    case RecreateContainer =>
      if answer == Done then m.(containerRecreations := m.containerRecreations + 1) else m
    case _ => m
  }

  /** The recovery times recorded after the first `n` failed calls. */
  function RecoveryTimes(config: ErrorRecoveryConfig, env: nat -> Attempt, n: nat): seq<nat> {
    if n == 0 then []
    else RecoveryTimes(config, env, n - 1) + if Recovers(config, env(n - 1)) then [env(n - 1).recoveryElapsed] else []
  }

  /** The recovery after a failed call ends by resetting the container's breaker. */
  predicate Resets(config: ErrorRecoveryConfig, a: Attempt) {
    var j := FirstWorking(config.recoveryStrategies, a, 0);
    j.Some? && j.value < |config.recoveryStrategies| && config.recoveryStrategies[j.value].ResetCircuitBreaker?
  }

  /**
   The breaker that attempt `n` meets, all before it having failed. `own` says that the
   operation's breaker is the container's: then a reset hands the next attempt a fresh one.
   */
  function Met(config: ErrorRecoveryConfig, start: CB.Breaker, env: nat -> Attempt, own: bool, n: nat): CB.Breaker {
    if n == 0 then start
    else if own && Resets(config, env(n - 1)) then CB.New(env(n).checkAt)
    else AfterAttempt(config, Met(config, start, env, own, n - 1), env(n - 1), Raised)
  }

  /**
   After a reset of the operation's own breaker the next attempt meets a closed one without
   failures, and is admitted.
   */
  lemma MetAfterReset(config: ErrorRecoveryConfig, start: CB.Breaker, env: nat -> Attempt, n: nat)
    requires n > 0 && Resets(config, env(n - 1))
    ensures Met(config, start, env, true, n) == CB.Breaker(CB.Closed, [], 0, env(n).checkAt)
    ensures Answer(config, Met(config, start, env, true, n), env(n)) != Refused
  {
  }

  /** What the breaker is told by the first `n` attempts, all of which failed. */
  function FailedCalls(env: nat -> Attempt, n: nat): seq<CB.Event> {
    if n == 0 then [] else FailedCalls(env, n - 1) + CallEvents(env(n - 1), Raised)
  }

  /** Without a reset the attempts are one run of one breaker. */
  lemma {:induction false} MetIsRun(config: ErrorRecoveryConfig, start: CB.Breaker, env: nat -> Attempt, own: bool,
                                    n: nat)
    requires forall i: nat :: i < n ==> !(own && Resets(config, env(i)))
    ensures Met(config, start, env, own, n) == CB.Run(config.circuitBreaker, start, FailedCalls(env, n))
  {
    if n > 0 {
      MetIsRun(config, start, env, own, n - 1);
      AttemptIsRun(config, Met(config, start, env, own, n - 1), env(n - 1), Raised);
      CB.RunAppend(config.circuitBreaker, start, FailedCalls(env, n - 1), CallEvents(env(n - 1), Raised));
    }
  }

  // ------------------------------------------------------------- how an execution goes

  datatype Ending = Ending(outcome: Outcome, calls: nat)

  /** What one turn of the loop comes to. */
  datatype Turn = Ends(ending: Ending) | Goes(delay: nat)

  /** The rest of the retry loop after `calls` failed calls. */
  function EndingFrom(config: ErrorRecoveryConfig, start: CB.Breaker, env: nat -> Attempt, own: bool, calls: nat)
    : Ending
    decreases config.maxRetryAttempts - calls
  {
    if calls >= config.maxRetryAttempts then Ending(Exhausted, calls)
    else
      match Answer(config, Met(config, start, env, own, calls), env(calls))
      case Refused => Ending(Blocked, calls)
      case Returned => Ending(Succeeded, calls + 1)
      case Raised =>
        if calls + 1 < config.maxRetryAttempts && CalculateRetryDelay(config, calls + 1).None?
        then Ending(Overflowed, calls + 1)
        else EndingFrom(config, start, env, own, calls + 1)
  }

  /** The calls before the last one failed, and so did the last unless it succeeded. */
  ghost predicate CallsFailed(env: nat -> Attempt, e: Ending) {
    forall i: nat :: i < e.calls ==> (env(i).succeeds <==> e.outcome == Succeeded && i == e.calls - 1)
  }

  ghost predicate LetThrough(config: ErrorRecoveryConfig, start: CB.Breaker, env: nat -> Attempt, own: bool, i: nat) {
    CB.Admits(config.circuitBreaker, Met(config, start, env, own, i), env(i).checkAt)
  }

  /** Every call was let through by the breaker it met, and a blocked execution was refused by the next. */
  ghost predicate BreakerObeyed(config: ErrorRecoveryConfig, start: CB.Breaker, env: nat -> Attempt, own: bool,
                                e: Ending)
  {
    && (forall i: nat :: i < e.calls ==> LetThrough(config, start, env, own, i))
    && (e.outcome == Blocked ==> !LetThrough(config, start, env, own, e.calls))
  }

  /** Every outcome has its reason. */
  ghost predicate OutcomeFits(config: ErrorRecoveryConfig, e: Ending) {
    match e.outcome
    case Succeeded => 0 < e.calls <= config.maxRetryAttempts
    case Blocked =>
      e.calls < config.maxRetryAttempts && (e.calls > 0 ==> CalculateRetryDelay(config, e.calls).Some?)
    case Exhausted => e.calls == config.maxRetryAttempts
    case Overflowed => 0 < e.calls < config.maxRetryAttempts && CalculateRetryDelay(config, e.calls).None?
  }

  /** After each failed call but the last there was a delay to sleep. */
  ghost predicate DelaysBefore(config: ErrorRecoveryConfig, calls: nat) {
    forall i: nat :: 0 < i < calls ==> CalculateRetryDelay(config, i).Some?
  }

  lemma {:induction false} CallsFailedFrom(config: ErrorRecoveryConfig, start: CB.Breaker, env: nat -> Attempt,
                                           own: bool, calls: nat)
    requires CallsFailed(env, Ending(Exhausted, calls))
    ensures CallsFailed(env, EndingFrom(config, start, env, own, calls))
    decreases config.maxRetryAttempts - calls
  {
    if calls < config.maxRetryAttempts {
      var r := Answer(config, Met(config, start, env, own, calls), env(calls));
      assert r.Raised? ==> !env(calls).succeeds;
      if r.Raised? && (calls + 1 == config.maxRetryAttempts || CalculateRetryDelay(config, calls + 1).Some?) {
        CallsFailedFrom(config, start, env, own, calls + 1);
      }
    }
  }

  lemma {:induction false} ObeyedFrom(config: ErrorRecoveryConfig, start: CB.Breaker, env: nat -> Attempt, own: bool,
                                      calls: nat)
    requires BreakerObeyed(config, start, env, own, Ending(Exhausted, calls))
    ensures BreakerObeyed(config, start, env, own, EndingFrom(config, start, env, own, calls))
    decreases config.maxRetryAttempts - calls
  {
    if calls < config.maxRetryAttempts {
      var r := Answer(config, Met(config, start, env, own, calls), env(calls));
      assert r.Refused? <==> !LetThrough(config, start, env, own, calls);
      if r.Raised? && (calls + 1 == config.maxRetryAttempts || CalculateRetryDelay(config, calls + 1).Some?) {
        ObeyedFrom(config, start, env, own, calls + 1);
      }
    }
  }

  lemma {:induction false} OutcomeFitsFrom(config: ErrorRecoveryConfig, start: CB.Breaker, env: nat -> Attempt,
                                           own: bool, calls: nat)
    requires calls <= config.maxRetryAttempts
    requires DelaysBefore(config, if calls < config.maxRetryAttempts then calls + 1 else calls)
    ensures var e := EndingFrom(config, start, env, own, calls);
            OutcomeFits(config, e) && DelaysBefore(config, e.calls)
    decreases config.maxRetryAttempts - calls
  {
    if calls < config.maxRetryAttempts {
      var r := Answer(config, Met(config, start, env, own, calls), env(calls));
      if r.Raised? && (calls + 1 == config.maxRetryAttempts || CalculateRetryDelay(config, calls + 1).Some?) {
        OutcomeFitsFrom(config, start, env, own, calls + 1);
      }
    }
  }

  /**
   An execution makes at most the allowed calls and stops at the first success, at the first
   refusal, at the first delay that overflows, or when every attempt has run and failed; and
   the breaker is obeyed all the way.
   */
  lemma EndingIsRight(config: ErrorRecoveryConfig, start: CB.Breaker, env: nat -> Attempt, own: bool)
    ensures var e := EndingFrom(config, start, env, own, 0);
            && CallsFailed(env, e) && BreakerObeyed(config, start, env, own, e)
            && OutcomeFits(config, e) && DelaysBefore(config, e.calls)
  {
    CallsFailedFrom(config, start, env, own, 0);
    ObeyedFrom(config, start, env, own, 0);
    OutcomeFitsFrom(config, start, env, own, 0);
  }

  /** And no other ending is right. */
  lemma OnlyRightEnding(config: ErrorRecoveryConfig, start: CB.Breaker, env: nat -> Attempt, own: bool, e: Ending)
    requires CallsFailed(env, e) && BreakerObeyed(config, start, env, own, e)
    requires OutcomeFits(config, e) && DelaysBefore(config, e.calls)
    ensures e == EndingFrom(config, start, env, own, 0)
  {
    OnlyEndingFrom(config, start, env, own, e, 0);
  }

  lemma {:induction false} OnlyEndingFrom(config: ErrorRecoveryConfig, start: CB.Breaker, env: nat -> Attempt,
                                          own: bool,
                                          e: Ending, calls: nat)
    requires CallsFailed(env, e) && BreakerObeyed(config, start, env, own, e)
    requires OutcomeFits(config, e) && DelaysBefore(config, e.calls)
    requires calls <= if e.outcome == Succeeded then e.calls - 1 else e.calls
    requires e.outcome == Overflowed ==> calls < e.calls
    ensures e == EndingFrom(config, start, env, own, calls)
    decreases e.calls - calls
  {
    if calls < e.calls {
      assert LetThrough(config, start, env, own, calls);
      if !(e.outcome == Succeeded && calls == e.calls - 1) && !(e.outcome == Overflowed && calls + 1 == e.calls) {
        assert !env(calls).succeeds;
        OnlyEndingFrom(config, start, env, own, e, calls + 1);
      }
    }
  }

  /**
   An execution that is admitted throughout, and whose calls all fail, overflows exactly when
   the delays do not fit.
   */
  lemma OverflowedIff(config: ErrorRecoveryConfig, start: CB.Breaker, env: nat -> Attempt, own: bool)
    ensures var e := EndingFrom(config, start, env, own, 0);
            DelaysFit(config) ==> e.outcome != Overflowed
    ensures var e := EndingFrom(config, start, env, own, 0);
            e.outcome != Blocked && e.outcome != Succeeded ==> (e.outcome == Overflowed <==> !DelaysFit(config))
  {
    EndingIsRight(config, start, env, own);
    NoOverflowIff(config);
  }

  /** Every failed call is an error, and so is a refusal. */
  function ErrorsOf(e: Ending): int {
    if e.outcome == Succeeded then e.calls - 1 else if e.outcome == Blocked then e.calls + 1 else e.calls
  }

  /** How often the execution slept: after each failed call that another attempt followed. */
  function SleepsOf(e: Ending): nat {
    if e.outcome == Blocked || e.calls == 0 then e.calls else e.calls - 1
  }

  /** The recovery times after the failed calls, and the time of the call that succeeded. */
  function SamplesOf(config: ErrorRecoveryConfig, env: nat -> Attempt, e: Ending): seq<nat> {
    RecoveryTimes(config, env, SleepsOf(e)) + LastSample(env, e)
  }

  function LastSample(env: nat -> Attempt, e: Ending): seq<nat> {
    if e.outcome == Succeeded && e.calls > 0 then [env(e.calls - 1).elapsed] else []
  }

  ghost predicate Told(config: ErrorRecoveryConfig, breakers: map<string, CB.Breaker>, id: string,
                       met: CB.Breaker, a: Attempt, r: CallResult)
  {
    id in breakers && breakers[id] == AfterAttempt(config, met, a, r)
  }

  /** The breaker was told last how the last attempt ended, if there was one. */
  ghost predicate ToldLast(config: ErrorRecoveryConfig, breakers: map<string, CB.Breaker>, id: string,
                           start: CB.Breaker, env: nat -> Attempt, own: bool, e: Ending)
  {
    match e.outcome
    case Succeeded =>
      && e.calls > 0
      && Told(config, breakers, id, Met(config, start, env, own, e.calls - 1), env(e.calls - 1), Returned)
    case Blocked => Told(config, breakers, id, Met(config, start, env, own, e.calls), env(e.calls), Refused)
    case _ =>
      e.calls > 0 ==> Told(config, breakers, id, Met(config, start, env, own, e.calls - 1), env(e.calls - 1), Raised)
  }

  /** What a turn means: the execution has ended as `EndingFrom` says, or goes on as it does after one more call. */
  ghost predicate TurnFits(config: ErrorRecoveryConfig, breakers: map<string, CB.Breaker>, id: string,
                           start: CB.Breaker, env: nat -> Attempt, own: bool, calls: nat, base: seq<nat>,
                           samples: seq<nat>, turn: Turn)
  {
    match turn
    case Ends(e) =>
      && e == EndingFrom(config, start, env, own, calls) && SleepsOf(e) == calls
      && ToldLast(config, breakers, id, start, env, own, e)
      && samples == base + SamplesOf(config, env, e)
    case Goes(_) =>
      && calls + 1 < config.maxRetryAttempts
      && EndingFrom(config, start, env, own, calls) == EndingFrom(config, start, env, own, calls + 1)
      && BreakerOf(breakers, id, env(calls + 1).checkAt) == Met(config, start, env, own, calls + 1)
      && samples == base + RecoveryTimes(config, env, calls + 1)
  }

  lemma TurnOf(config: ErrorRecoveryConfig, breakers: map<string, CB.Breaker>, id: string, start: CB.Breaker,
               env: nat -> Attempt, own: bool, calls: nat, base: seq<nat>, samples: seq<nat>,
               r: CallResult, delay: Option<nat>, turn: Turn)
    requires calls < config.maxRetryAttempts
    requires r == Answer(config, Met(config, start, env, own, calls), env(calls))
    requires delay == if r.Raised? && calls + 1 < config.maxRetryAttempts then CalculateRetryDelay(config, calls + 1)
                      else None
    requires if delay.Some? && own && Resets(config, env(calls)) then id !in breakers
             else Told(config, breakers, id, Met(config, start, env, own, calls), env(calls), r)
    requires samples == base + RecoveryTimes(config, env, calls) +
                        if r.Returned? then [env(calls).elapsed]
                        else if delay.Some? && Recovers(config, env(calls)) then [env(calls).recoveryElapsed] else []
    requires turn == match r
                     case Refused => Ends(Ending(Blocked, calls))
                     case Returned => Ends(Ending(Succeeded, calls + 1))
                     case Raised =>
                       if calls + 1 == config.maxRetryAttempts then Ends(Ending(Exhausted, calls + 1))
                       else if delay.None? then Ends(Ending(Overflowed, calls + 1))
                       else Goes(delay.value)
    ensures TurnFits(config, breakers, id, start, env, own, calls, base, samples, turn)
  {
    match r
    case Refused => assert samples == base + SamplesOf(config, env, Ending(Blocked, calls));
    case Returned => assert samples == base + SamplesOf(config, env, Ending(Succeeded, calls + 1));
    case Raised =>
      if delay.Some? {
        assert samples == base + RecoveryTimes(config, env, calls + 1);
      } else {
        assert samples == base + RecoveryTimes(config, env, calls);
      }
  }

  lemma NoAttempts(config: ErrorRecoveryConfig, breakers: map<string, CB.Breaker>, id: string, start: CB.Breaker,
                   env: nat -> Attempt, own: bool)
    requires config.maxRetryAttempts == 0
    ensures EndingFrom(config, start, env, own, 0) == Ending(Exhausted, 0)
    ensures ToldLast(config, breakers, id, start, env, own, Ending(Exhausted, 0))
    ensures SamplesOf(config, env, Ending(Exhausted, 0)) == RecoveryTimes(config, env, 0)
  {
  }

  class ErrorRecoverySystem {
    const config: ErrorRecoveryConfig
    var breakers: map<string, CB.Breaker>
    var metrics: Metrics
    ghost var samples: seq<nat>    // every recovery time recorded so far

    /** `recovered_errors` counts the samples averaged. */
    ghost predicate Valid()
      reads this
    {
      metrics.recoveredErrors == |samples| && metrics.avgRecoveryTime == RA.Average(samples)
    }

    constructor (config: ErrorRecoveryConfig)
      ensures Valid() && this.config == config && samples == [] && breakers == map[]
      ensures metrics == Metrics(0, 0, 0, 0, 0, 0, 0)
    {
      this.config := config;
      breakers, samples := map[], [];
      metrics := Metrics(0, 0, 0, 0, 0, 0, 0);
    }

    method CanExecute(id: string, now: int) returns (allowed: bool)
      modifies this`breakers
      ensures allowed == CB.Admits(config.circuitBreaker, BreakerOf(old(breakers), id, now), now)
      ensures breakers == old(breakers)[id := CB.OnCheck(config.circuitBreaker, BreakerOf(old(breakers), id, now), now)]
      ensures id in old(breakers) ==> allowed == CB.Admits(config.circuitBreaker, old(breakers)[id], now)
      ensures id !in old(breakers) ==> allowed && breakers[id] == CB.Breaker(CB.Closed, [], 0, now)
    {
      var breaker := BreakerOf(breakers, id, now);
      allowed := CB.Admits(config.circuitBreaker, breaker, now);
      breakers := breakers[id := CB.OnCheck(config.circuitBreaker, breaker, now)];
    }

    /** Adds one sample to the average, in one critical section. */
    method UpdateRecoveryMetrics(elapsed: nat)
      requires Valid()
      modifies this`metrics, this`samples
      ensures Valid() && samples == old(samples) + [elapsed]
      ensures metrics == old(metrics).(recoveredErrors := |samples|, avgRecoveryTime := RA.Average(samples))
    {
      RA.AverageSnoc(samples, elapsed);
      var count := metrics.recoveredErrors + 1;
      metrics := metrics.(recoveredErrors := count,
                          avgRecoveryTime := RA.Update(metrics.avgRecoveryTime, elapsed, count));
      samples := samples + [elapsed];
    }

    method RecordSuccess(id: string, now: int, elapsed: nat)
      requires Valid()
      modifies this
      ensures Valid() && samples == old(samples) + [elapsed]
      ensures metrics == old(metrics).(recoveredErrors := |samples|, avgRecoveryTime := RA.Average(samples))
      ensures breakers == if id in old(breakers)
                          then old(breakers)[id := CB.OnSuccess(config.circuitBreaker, old(breakers)[id], now)]
                          else old(breakers)
    {
      if id in breakers {
        breakers := breakers[id := CB.OnSuccess(config.circuitBreaker, breakers[id], now)];
      }
      UpdateRecoveryMetrics(elapsed);
    }

    method RecordFailure(id: string, now: int)
      modifies this`breakers, this`metrics
      ensures breakers ==
              old(breakers)[id := CB.OnFailure(config.circuitBreaker, BreakerOf(old(breakers), id, now), now)]
      ensures metrics == old(metrics).(
                totalErrors := old(metrics).totalErrors + 1,
                circuitBreakerOpens := old(metrics).circuitBreakerOpens +
                  if !BreakerOf(old(breakers), id, now).state.Open? && breakers[id].state.Open? then 1 else 0)
    {
      var breaker := BreakerOf(breakers, id, now);
      var wasOpen := breaker.state.Open?;
      breaker := CB.OnFailure(config.circuitBreaker, breaker, now);
      breakers := breakers[id := breaker];
      if !wasOpen && breaker.state.Open? {
        metrics := metrics.(circuitBreakerOpens := metrics.circuitBreakerOpens + 1);
      }
      metrics := metrics.(totalErrors := metrics.totalErrors + 1);
    }

    /** Tries the strategies in order; the first that works is counted and its time averaged. */
    method AttemptRecovery(container: string, a: Attempt) returns (recovered: bool)
      requires Valid()
      modifies this
      ensures Valid()
      ensures recovered == Recovers(config, a)
      ensures !recovered ==> samples == old(samples) && metrics == old(metrics) && breakers == old(breakers)
      ensures recovered ==>
                var j := FirstWorking(config.recoveryStrategies, a, 0).value;
                0 <= j < |config.recoveryStrategies| &&
                var strategy := config.recoveryStrategies[j];
                && samples == old(samples) + [a.recoveryElapsed]
                && metrics == ApplyStrategy(old(metrics), strategy, a.container(j)).(
                                recoveredErrors := |samples|, avgRecoveryTime := RA.Average(samples))
                && metrics == old(metrics).(
                                recoveredErrors := |samples|, avgRecoveryTime := RA.Average(samples),
                                containerRestarts := old(metrics).containerRestarts +
                                  if strategy == RestartContainer then 1 else 0,
                                containerRecreations := old(metrics).containerRecreations +
                                  if strategy == RecreateContainer && a.container(j) == Done then 1 else 0)
                && breakers == if strategy.ResetCircuitBreaker? then old(breakers) - {container} else old(breakers)
    {
      for i := 0 to |config.recoveryStrategies|
        invariant Valid()
        invariant samples == old(samples) && metrics == old(metrics) && breakers == old(breakers)
        invariant FirstWorking(config.recoveryStrategies, a, 0) == FirstWorking(config.recoveryStrategies, a, i)
      {
        var strategy := config.recoveryStrategies[i];
        var answer := a.container(i);
        if Works(strategy, answer) {
          metrics := ApplyStrategy(metrics, strategy, answer);
          if strategy.ResetCircuitBreaker? {
            breakers := breakers - {container};
          }
          UpdateRecoveryMetrics(a.recoveryElapsed);
          return true;
        }
      }
      return false;
    }

    /** One pass: ask the breaker, run the operation if it allows, record what happened. */
    method TryCall(id: string, a: Attempt) returns (r: CallResult)
      requires Valid()
      modifies this
      ensures Valid()
      ensures r == Answer(config, BreakerOf(old(breakers), id, a.checkAt), a)
      ensures breakers == old(breakers)[id := AfterAttempt(config, BreakerOf(old(breakers), id, a.checkAt), a, r)]
      // the breaker decides, then the operation, and the breaker is told
      ensures r == Refused <==> !CB.Admits(config.circuitBreaker, BreakerOf(old(breakers), id, a.checkAt), a.checkAt)
      ensures (r == Returned ==> a.succeeds) && (r == Raised ==> !a.succeeds)
      ensures var checked := CB.OnCheck(config.circuitBreaker, BreakerOf(old(breakers), id, a.checkAt), a.checkAt);
              breakers[id] == if r == Returned then CB.OnSuccess(config.circuitBreaker, checked, a.recordAt)
                              else CB.OnFailure(config.circuitBreaker, checked, a.recordAt)
      ensures metrics.totalErrors == old(metrics).totalErrors + if r.Returned? then 0 else 1
      ensures metrics.failedRecoveries == old(metrics).failedRecoveries
      ensures samples == old(samples) + if r.Returned? then [a.elapsed] else []
    {
      var allowed := CanExecute(id, a.checkAt);
      if !allowed {
        RecordFailure(id, a.recordAt);
        r := Refused;
      } else if a.succeeds {
        RecordSuccess(id, a.recordAt, a.elapsed);
        r := Returned;
      } else {
        RecordFailure(id, a.recordAt);
        r := Raised;
      }
    }

    /** Between two attempts: sleep for the computed delay, then try to recover the container. */
    method PauseAndRecover(container: string, a: Attempt, attempt: nat, ghost before: seq<nat>)
      returns (delay: Option<nat>)
      requires Valid() && IsBackoff(config, before) && attempt == |before| + 1
      modifies this
      ensures Valid()
      ensures delay == CalculateRetryDelay(config, attempt)
      ensures delay.Some? ==> IsBackoff(config, before + [delay.value])
      ensures samples == old(samples) + if delay.Some? && Recovers(config, a) then [a.recoveryElapsed] else []
      ensures metrics.totalErrors == old(metrics).totalErrors
      ensures metrics.failedRecoveries == old(metrics).failedRecoveries
      ensures breakers == if delay.Some? && Resets(config, a) then old(breakers) - {container} else old(breakers)
    {
      delay := CalculateRetryDelay(config, attempt);
      if delay.Some? {
        BackoffSnoc(config, before, delay.value);
        var recovered := AttemptRecovery(container, a);
      }
    }

    /** One attempt, after `calls` failed ones, and the pause behind it; `met` is the breaker it meets. */
    method TryOnce(id: string, container: string, a: Attempt, calls: nat, ghost met: CB.Breaker, ghost sleeps: seq<nat>)
      returns (r: CallResult, delay: Option<nat>)
      requires Valid() && IsBackoff(config, sleeps) && |sleeps| == calls
      requires met == BreakerOf(breakers, id, a.checkAt)
      modifies this
      ensures Valid()
      ensures r == Answer(config, met, a)
      ensures delay == if r.Raised? && calls + 1 < config.maxRetryAttempts then CalculateRetryDelay(config, calls + 1)
                       else None
      ensures delay.Some? ==> IsBackoff(config, sleeps + [delay.value])
      ensures metrics.totalErrors == old(metrics).totalErrors + if r.Returned? then 0 else 1
      ensures metrics.failedRecoveries == old(metrics).failedRecoveries
      ensures samples == old(samples) + if r.Returned? then [a.elapsed]
                                        else if delay.Some? && Recovers(config, a) then [a.recoveryElapsed] else []
      ensures if delay.Some? && id == container && Resets(config, a) then id !in breakers
              else Told(config, breakers, id, met, a, r)
    {
      delay := None;
      r := TryCall(id, a);
      if r.Raised? && calls + 1 < config.maxRetryAttempts {
        delay := PauseAndRecover(container, a, calls + 1, sleeps);
      }
    }

    /** One turn of the retry loop: it ends the execution, or another turn follows. */
    method TakeTurn(id: string, container: string, env: nat -> Attempt, calls: nat, ghost start: CB.Breaker,
                    ghost sleeps: seq<nat>, ghost base: seq<nat>)
      returns (turn: Turn)
      requires Valid() && calls < config.maxRetryAttempts && IsBackoff(config, sleeps) && |sleeps| == calls
      requires BreakerOf(breakers, id, env(calls).checkAt) == Met(config, start, env, id == container, calls)
      requires samples == base + RecoveryTimes(config, env, calls)
      modifies this
      ensures Valid() && metrics.failedRecoveries == old(metrics).failedRecoveries
      ensures metrics.totalErrors == old(metrics).totalErrors +
                if turn.Goes? then 1 else ErrorsOf(turn.ending) - calls
      ensures turn.Goes? ==> IsBackoff(config, sleeps + [turn.delay])
      ensures TurnFits(config, breakers, id, start, env, id == container, calls, base, samples, turn)
    {
      ghost var before := samples;
      var r, delay := TryOnce(id, container, env(calls), calls, Met(config, start, env, id == container, calls),
                              sleeps);
      match r {
        case Refused => turn := Ends(Ending(Blocked, calls));
        case Returned => turn := Ends(Ending(Succeeded, calls + 1));
        case Raised =>
          if calls + 1 == config.maxRetryAttempts {
            turn := Ends(Ending(Exhausted, calls + 1));
          } else if delay.None? {
            turn := Ends(Ending(Overflowed, calls + 1));
          } else {
            turn := Goes(delay.value);
          }
      }
      TurnOf(config, breakers, id, start, env, id == container, calls, base, samples, r, delay, turn);
    }

    /** The retry loop, up to the count of a recovery that failed. */
    method RetryCalls(id: string, container: string, env: nat -> Attempt) returns (e: Ending, sleeps: seq<nat>)
      requires Valid()
      modifies this
      ensures Valid() && metrics.failedRecoveries == old(metrics).failedRecoveries
      ensures var start := BreakerOf(old(breakers), id, env(0).checkAt);
              && e == EndingFrom(config, start, env, id == container, 0)
              && ToldLast(config, breakers, id, start, env, id == container, e)
      ensures IsBackoff(config, sleeps) && |sleeps| == SleepsOf(e)
      ensures metrics.totalErrors == old(metrics).totalErrors + ErrorsOf(e)
      ensures samples == old(samples) + SamplesOf(config, env, e)
    {
      ghost var start, own := BreakerOf(breakers, id, env(0).checkAt), id == container;
      ghost var whole := EndingFrom(config, start, env, own, 0);
      var calls := 0;
      sleeps := [];
      while calls < config.maxRetryAttempts
        invariant Valid() && metrics.failedRecoveries == old(metrics).failedRecoveries
        invariant calls == 0 || calls < config.maxRetryAttempts
        invariant metrics.totalErrors == old(metrics).totalErrors + calls
        invariant EndingFrom(config, start, env, own, calls) == whole
        invariant IsBackoff(config, sleeps) && |sleeps| == calls
        invariant samples == old(samples) + RecoveryTimes(config, env, calls)
        invariant BreakerOf(breakers, id, env(calls).checkAt) == Met(config, start, env, own, calls)
      {
        var turn := TakeTurn(id, container, env, calls, start, sleeps, old(samples));
        if turn.Ends? {
          return turn.ending, sleeps;
        }
        calls, sleeps := calls + 1, sleeps + [turn.delay];
      }
      NoAttempts(config, breakers, id, start, env, own);
      return Ending(Exhausted, 0), sleeps;
    }

    method ExecuteWithRecovery(id: string, container: string, env: nat -> Attempt) returns (e: Ending, sleeps: seq<nat>)
      requires Valid()
      modifies this
      ensures Valid()
      // how it ended, and what its breaker was told
      ensures var start := BreakerOf(old(breakers), id, env(0).checkAt);
              && e == EndingFrom(config, start, env, id == container, 0)
              && ToldLast(config, breakers, id, start, env, id == container, e)
              && CallsFailed(env, e) && BreakerObeyed(config, start, env, id == container, e)
              && OutcomeFits(config, e) && DelaysBefore(config, e.calls)
      ensures config.maxRetryAttempts > 0 && env(0).succeeds &&
              CB.Admits(config.circuitBreaker, BreakerOf(old(breakers), id, env(0).checkAt), env(0).checkAt) ==>
                e == Ending(Succeeded, 1)
      // how long it slept
      ensures IsBackoff(config, sleeps)
      ensures |sleeps| == if e.outcome == Blocked || e.calls == 0 then e.calls else e.calls - 1
      // what is counted
      ensures metrics.totalErrors == old(metrics).totalErrors +
                match e.outcome
                case Succeeded => e.calls - 1
                case Blocked => e.calls + 1
                case _ => e.calls
      ensures metrics.failedRecoveries == old(metrics).failedRecoveries + if e.outcome == Exhausted then 1 else 0
      ensures samples == old(samples) + SamplesOf(config, env, e)
      ensures samples == old(samples) + RecoveryTimes(config, env, |sleeps|) +
                         if e.outcome == Succeeded then [env(e.calls - 1).elapsed] else []
    {
      ghost var start := BreakerOf(breakers, id, env(0).checkAt);
      e, sleeps := RetryCalls(id, container, env);
      EndingIsRight(config, start, env, id == container);
      if e.outcome == Exhausted {
        UpdateFailedRecoveryMetrics();
      }
    }

    method UpdateFailedRecoveryMetrics()
      modifies this`metrics
      ensures metrics == old(metrics).(failedRecoveries := old(metrics).failedRecoveries + 1)
    {
      metrics := metrics.(failedRecoveries := metrics.failedRecoveries + 1);
    }
  }
}
