/**
 The container circuit breaker: closed with a pruned window of failures, open
 for a timeout, half-open until enough successes. Clock readings are inputs.
 */
module CircuitBreaker {
  import opened Prelude

  datatype CircuitBreakerState = Closed | Open | HalfOpen

  datatype CircuitBreakerConfig = CircuitBreakerConfig(
    failureThreshold: nat,
    failureWindow: nat,
    openTimeout: nat,
    successThreshold: nat)

  datatype Breaker = Breaker(
    state: CircuitBreakerState,
    failures: seq<int>,
    successes: nat,
    lastStateChange: int)

  /** `Instant::duration_since`, which is zero for a later instant. */
  function DurationSince(now: int, earlier: int): nat {
    if now >= earlier then now - earlier else 0
  }

  function New(now: int): Breaker {
    Breaker(Closed, [], 0, now)
  }

  /** The failures at most `window` older than `now`, in order. */
  function InWindow(failures: seq<int>, now: int, window: nat): (kept: seq<int>)
    ensures |kept| <= |failures|
  {
    if failures == [] then []
    else
      var front, last := failures[..|failures| - 1], failures[|failures| - 1];
      InWindow(front, now, window) + if DurationSince(now, last) <= window then [last] else []
  }

  /** A failure stays as often as it is there if it is at most `window` old, and else not at all. */
  lemma {:induction false} InWindowKeeps(failures: seq<int>, now: int, window: nat, t: int)
    ensures multiset(InWindow(failures, now, window))[t] == if now - t <= window then multiset(failures)[t] else 0
  {
    if failures != [] {
      var front, last := failures[..|failures| - 1], failures[|failures| - 1];
      InWindowKeeps(front, now, window, t);
      assert failures == front + [last];
    }
  }

  /** Where the failures stand that are at most `window` old. */
  ghost function Recent(failures: seq<int>, now: int, window: nat): set<nat> {
    set i: nat | i < |failures| && now - failures[i] <= window
  }

  lemma {:induction false} InWindowCounts(failures: seq<int>, now: int, window: nat)
    ensures |InWindow(failures, now, window)| == |Recent(failures, now, window)|
  {
    if failures != [] {
      var n := |failures| - 1;
      var front := failures[..n];
      InWindowCounts(front, now, window);
      assert forall i: nat :: i < n ==> front[i] == failures[i];
      assert Recent(failures, now, window) ==
             Recent(front, now, window) + if now - failures[n] <= window then {n} else {};
    }
  }

  /** What the breaker is told: an outcome, or a question whether to run. */
  datatype Event =
    | Success(now: int)
    | Failure(now: int)
    | Check(now: int)

  function OnSuccess(config: CircuitBreakerConfig, b: Breaker, now: int): Breaker {
    match b.state
    case HalfOpen =>
      if b.successes + 1 >= config.successThreshold then Breaker(Closed, [], 0, now)
      else b.(successes := b.successes + 1)
    case Closed => b.(failures := [])
    case Open => b
  }

  function OnFailure(config: CircuitBreakerConfig, b: Breaker, now: int): Breaker {
    match b.state
    case Closed =>
      var kept := InWindow(b.failures + [now], now, config.failureWindow);
      if |kept| >= config.failureThreshold then b.(failures := kept, state := Open, lastStateChange := now)
      else b.(failures := kept)
    case HalfOpen => b.(state := Open, lastStateChange := now, successes := 0)
    case Open => b
  }

  function Admits(config: CircuitBreakerConfig, b: Breaker, now: int): bool {
    b.state.Open? ==> DurationSince(now, b.lastStateChange) >= config.openTimeout
  }

  function OnCheck(config: CircuitBreakerConfig, b: Breaker, now: int): Breaker {
    if b.state.Open? && Admits(config, b, now) then b.(state := HalfOpen, lastStateChange := now, successes := 0)
    else b
  }

  function Step(config: CircuitBreakerConfig, b: Breaker, e: Event): Breaker {
    match e
    case Success(now) => OnSuccess(config, b, now)
    case Failure(now) => OnFailure(config, b, now)
    case Check(now) => OnCheck(config, b, now)
  }

  function Run(config: CircuitBreakerConfig, b: Breaker, events: seq<Event>): Breaker {
    if events == [] then b
    else Step(config, Run(config, b, events[..|events| - 1]), events[|events| - 1])
  }

  lemma {:induction false} RunAppend(config: CircuitBreakerConfig, b: Breaker, events: seq<Event>, more: seq<Event>)
    ensures Run(config, b, events + more) == Run(config, Run(config, b, events), more)
  {
    if more == [] {
      assert events + more == events;
    } else {
      assert (events + more)[..|events| + |more| - 1] == events + more[..|more| - 1];
      RunAppend(config, b, events, more[..|more| - 1]);
    }
  }

  /** The object whose three methods take the steps above on their own fields. */
  class CircuitBreaker {
    const config: CircuitBreakerConfig
    var state: CircuitBreakerState
    var failures: seq<int>
    var successes: nat
    var lastFailureTime: Option<int>
    var lastStateChange: int

    ghost function View(): Breaker
      reads this
    {
      Breaker(state, failures, successes, lastStateChange)
    }

    constructor (config: CircuitBreakerConfig, now: int)
      ensures View() == New(now) == Breaker(Closed, [], 0, now) && this.config == config
    {
      this.config := config;
      state, failures, successes, lastStateChange := Closed, [], 0, now;
      lastFailureTime := None;
    }

    method RecordSuccess(now: int)
      modifies this
      ensures View() == OnSuccess(config, old(View()), now)
      // a closed breaker forgets its failures, an open one is left alone, a half-open one closes at its quota
      ensures old(state) != HalfOpen ==>
                state == old(state) && successes == old(successes) && lastStateChange == old(lastStateChange) &&
                failures == if state == Closed then [] else old(failures)
      ensures old(state) == HalfOpen ==>
                if old(successes) + 1 >= config.successThreshold
                then state == Closed && failures == [] && successes == 0 && lastStateChange == now
                else state == HalfOpen && successes == old(successes) + 1
      ensures lastFailureTime == old(lastFailureTime)
    {
      match state
      case HalfOpen =>
        successes := successes + 1;
        if successes >= config.successThreshold {
          state := Closed;
          failures := [];
          successes := 0;
          lastStateChange := now;
        }
      case Closed =>
        failures := [];
      case Open =>
    }

    method RecordFailure(now: int)
      modifies this
      ensures View() == OnFailure(config, old(View()), now)
      // a closed breaker opens at its threshold, a half-open one at once, an open one is left alone
      ensures old(state) == Closed ==>
                failures == InWindow(old(failures) + [now], now, config.failureWindow) &&
                state == if |failures| >= config.failureThreshold then Open else Closed
      ensures old(state) != Closed ==> state == Open && failures == old(failures)
      ensures lastStateChange == if old(state) != Open && state == Open then now else old(lastStateChange)
      ensures lastFailureTime == if old(state) == Closed then Some(now) else old(lastFailureTime)
    {
      match state
      case Closed =>
        failures := failures + [now];
        lastFailureTime := Some(now);
        Retain(now);
        if |failures| >= config.failureThreshold {
          state := Open;
          lastStateChange := now;
        }
      case HalfOpen =>
        state := Open;
        lastStateChange := now;
        successes := 0;
      case Open =>
    }

    /** Drops the failures outside the window, in place. */
    method Retain(now: int)
      modifies this`failures
      ensures failures == InWindow(old(failures), now, config.failureWindow)
    {
      var kept := [];
      for i := 0 to |failures|
        invariant failures == old(failures)
        invariant kept == InWindow(failures[..i], now, config.failureWindow)
      {
        assert failures[..i + 1][..i] == failures[..i];
        if DurationSince(now, failures[i]) <= config.failureWindow {
          kept := kept + [failures[i]];
        }
      }
      assert failures[..|failures|] == failures;
      failures := kept;
    }

    method CanExecute(now: int) returns (allowed: bool)
      modifies this
      ensures allowed == Admits(config, old(View()), now)
      ensures allowed
         <==> old(state) != Open || now - old(lastStateChange) >= config.openTimeout || config.openTimeout == 0
      ensures View() == OnCheck(config, old(View()), now)
      ensures lastFailureTime == old(lastFailureTime)
    {
      match state
      case Closed => allowed := true;
      case Open =>
        if DurationSince(now, lastStateChange) >= config.openTimeout {
          state := HalfOpen;
          lastStateChange := now;
          successes := 0;
          allowed := true;
        } else {
          allowed := false;
        }
      case HalfOpen => allowed := true;
    }
  }

  // ------------------------------------- pruning loses nothing while the clock runs

  ghost predicate ClockRuns(events: seq<Event>) {
    forall i, j :: 0 <= i < j < |events| ==> events[i].now <= events[j].now
  }

  /**
   The breaker that keeps every failure since its last reset and counts, at each failure, how
   many of them are recent. A reset is a success that meets a closed breaker or closes a
   half-open one.
   */
  ghost function FullStep(config: CircuitBreakerConfig, b: Breaker, e: Event): Breaker {
    match (b.state, e)
    case (Closed, Success(_)) => b.(failures := [])
    case (Closed, Failure(now)) =>
      var all := b.failures + [now];
      if |Recent(all, now, config.failureWindow)| >= config.failureThreshold then Breaker(Open, all, b.successes, now)
      else b.(failures := all)
    case (HalfOpen, Success(now)) =>
      if b.successes + 1 < config.successThreshold then b.(successes := b.successes + 1)
      else Breaker(Closed, [], 0, now)
    case (HalfOpen, Failure(now)) => Breaker(Open, b.failures, 0, now)
    case (Open, Check(now)) =>
      if now - b.lastStateChange >= config.openTimeout || config.openTimeout == 0
      then Breaker(HalfOpen, b.failures, 0, now) else b
    case _ => b
  }

  ghost function FullRun(config: CircuitBreakerConfig, b: Breaker, events: seq<Event>): Breaker {
    if events == [] then b
    else FullStep(config, FullRun(config, b, events[..|events| - 1]), events[|events| - 1])
  }

  ghost predicate UpTo(failures: seq<int>, now: int) {
    forall i :: 0 <= i < |failures| ==> failures[i] <= now
  }

  /** Pruning at one time and again at a later one is pruning at the later one. */
  lemma {:induction false} PruneTwice(failures: seq<int>, earlier: int, now: int, window: nat)
    requires UpTo(failures, earlier) && earlier <= now
    ensures InWindow(InWindow(failures, earlier, window), now, window) == InWindow(failures, now, window)
    ensures UpTo(InWindow(failures, earlier, window), earlier)
  {
    if failures != [] {
      var front, last := failures[..|failures| - 1], failures[|failures| - 1];
      PruneTwice(front, earlier, now, window);
      var kept := InWindow(front, earlier, window);
      if DurationSince(earlier, last) <= window {
        assert (kept + [last])[..|kept|] == kept;
      } else {
        assert kept + [] == kept;
      }
    }
  }

  lemma PruneSnoc(failures: seq<int>, last: int, now: int, window: nat)
    ensures InWindow(failures + [last], now, window)
         == InWindow(failures, now, window) + if DurationSince(now, last) <= window then [last] else []
  {
    assert (failures + [last])[..|failures|] == failures;
  }

  /** The pruned breaker against the full one, in lockstep. */
  ghost predicate Refines(config: CircuitBreakerConfig, pruned: Breaker, full: Breaker, now: int) {
    && pruned.state == full.state
    && pruned.successes == full.successes
    && pruned.lastStateChange == full.lastStateChange
    && UpTo(full.failures, now)
    && (full.failures == [] ==> pruned.failures == [])
    && (full.failures != [] ==>
          var latest := full.failures[|full.failures| - 1];
          UpTo(full.failures, latest) && pruned.failures == InWindow(full.failures, latest, config.failureWindow))
  }

  /** The window of a longer history, from the window of the shorter one. */
  lemma PruneNewFailure(pruned: seq<int>, full: seq<int>, now: int, window: nat)
    requires full == [] ==> pruned == []
    requires full != [] ==> UpTo(full, full[|full| - 1]) && full[|full| - 1] <= now
    requires full != [] ==> pruned == InWindow(full, full[|full| - 1], window)
    ensures InWindow(pruned + [now], now, window) == InWindow(full + [now], now, window)
  {
    PruneSnoc(pruned, now, now, window);
    PruneSnoc(full, now, now, window);
    if full != [] {
      PruneTwice(full, full[|full| - 1], now, window);
    }
  }

  /** A failure recorded by a closed breaker. */
  lemma FailureRefines(config: CircuitBreakerConfig, pruned: Breaker, full: Breaker, before: int, now: int)
    requires Refines(config, pruned, full, before) && before <= now && full.state.Closed?
    ensures Refines(config, Step(config, pruned, Failure(now)), FullStep(config, full, Failure(now)), now)
  {
    PruneNewFailure(pruned.failures, full.failures, now, config.failureWindow);
    var all := full.failures + [now];
    InWindowCounts(all, now, config.failureWindow);
    assert FullStep(config, full, Failure(now)).failures == all && all[|all| - 1] == now;
  }

  lemma StepRefines(config: CircuitBreakerConfig, pruned: Breaker, full: Breaker, before: int, e: Event)
    requires Refines(config, pruned, full, before) && before <= e.now
    ensures Refines(config, Step(config, pruned, e), FullStep(config, full, e), e.now)
  {
    if e.Failure? && full.state.Closed? {
      FailureRefines(config, pruned, full, before, e.now);
    } else {
      var p, f := Step(config, pruned, e), FullStep(config, full, e);
      assert (p.failures == pruned.failures && f.failures == full.failures) || (p.failures == [] && f.failures == []);
    }
  }

  /**
   With a clock that never runs backwards, the incrementally pruned list is
   always the full history since the last reset cut to the window that ends at
   the latest failure, and both breakers are in the same state throughout.
   */
  lemma {:induction false} PrunedWindowRefinesHistory(config: CircuitBreakerConfig, start: int, events: seq<Event>)
    requires ClockRuns(events) && (events != [] ==> start <= events[0].now)
    ensures Refines(config, Run(config, New(start), events), FullRun(config, New(start), events),
                    if events == [] then start else events[|events| - 1].now)
  {
    if events != [] {
      var front := events[..|events| - 1];
      PrunedWindowRefinesHistory(config, start, front);
      StepRefines(config, Run(config, New(start), front), FullRun(config, New(start), front),
                  if front == [] then start else front[|front| - 1].now, events[|events| - 1]);
    }
  }

  /** A closed breaker is below its threshold, unless the threshold is zero and nothing has failed. */
  lemma {:induction false} ClosedIsBelowThreshold(config: CircuitBreakerConfig, start: int, events: seq<Event>)
    ensures var b := Run(config, New(start), events);
            b.state.Closed? ==> |b.failures| < config.failureThreshold || b.failures == []
  {
    if events != [] {
      ClosedIsBelowThreshold(config, start, events[..|events| - 1]);
    }
  }

  /**
   A closed breaker opens on exactly the failure that makes the window of the
   full history reach the threshold: no earlier, no later, and on nothing else.
   */
  lemma OpensExactlyAtThreshold(config: CircuitBreakerConfig, start: int, events: seq<Event>, e: Event)
    requires ClockRuns(events + [e]) && start <= (events + [e])[0].now
    requires Run(config, New(start), events).state.Closed?
    ensures Step(config, Run(config, New(start), events), e).state.Open? <==>
              e.Failure? &&
              |Recent(FullRun(config, New(start), events).failures + [e.now], e.now, config.failureWindow)|
                >= config.failureThreshold
  {
    var last := ClockBefore(start, events, e);
    PrunedWindowRefinesHistory(config, start, events);
    StepRefines(config, Run(config, New(start), events), FullRun(config, New(start), events), last, e);
  }

  lemma ClockBefore(start: int, events: seq<Event>, e: Event) returns (last: int)
    requires ClockRuns(events + [e]) && start <= (events + [e])[0].now
    ensures ClockRuns(events) && (events != [] ==> start <= events[0].now)
    ensures last == (if events == [] then start else events[|events| - 1].now) <= e.now
  {
    assert forall i :: 0 <= i < |events| ==> (events + [e])[i] == events[i];
    last := if events == [] then start else events[|events| - 1].now;
    if events != [] {
      assert (events + [e])[|events| - 1].now <= (events + [e])[|events|].now;
    }
  }

  // ------------------------------------------------------- how an open breaker closes

  function CountSuccesses(events: seq<Event>): nat {
    if events == [] then 0
    else CountSuccesses(events[..|events| - 1]) + if events[|events| - 1].Success? then 1 else 0
  }

  /** The successes that close a half-open breaker; the first one does when the threshold is zero. */
  function Quota(config: CircuitBreakerConfig): nat {
    if config.successThreshold == 0 then 1 else config.successThreshold
  }

  ghost predicate NoFailure(events: seq<Event>) {
    forall i :: 0 <= i < |events| ==> !events[i].Failure?
  }

  /** The event at `i` is a check that found the breaker open for at least the timeout. */
  ghost predicate Reopening(config: CircuitBreakerConfig, b: Breaker, events: seq<Event>, i: nat) {
    && i < |events| && events[i].Check?
    && Run(config, b, events[..i]).state.Open?
    && DurationSince(events[i].now, Run(config, b, events[..i]).lastStateChange) >= config.openTimeout
  }

  /** Half-open since the check at `i`, with no failure and `successes` successes since. */
  ghost predicate Probing(config: CircuitBreakerConfig, b: Breaker, events: seq<Event>, i: nat, successes: nat) {
    Reopening(config, b, events, i) && NoFailure(events[i + 1..]) && CountSuccesses(events[i + 1..]) == successes
  }

  lemma ProbingExtends(config: CircuitBreakerConfig, b: Breaker, events: seq<Event>, e: Event, i: nat, successes: nat)
    requires Probing(config, b, events, i, successes) && !e.Failure?
    ensures Probing(config, b, events + [e], i, successes + if e.Success? then 1 else 0)
  {
    assert (events + [e])[..i] == events[..i];
    assert (events + [e])[i + 1..] == events[i + 1..] + [e];
    assert (events[i + 1..] + [e])[..|events[i + 1..]|] == events[i + 1..];
  }

  lemma RunSnoc(config: CircuitBreakerConfig, b: Breaker, events: seq<Event>, e: Event)
    ensures Run(config, b, events + [e]) == Step(config, Run(config, b, events), e)
  {
    assert (events + [e])[..|events|] == events;
  }

  /** From any start that is not half-open, a half-open breaker is probing. */
  lemma {:induction false} HalfOpenIsProbing(config: CircuitBreakerConfig, b: Breaker, events: seq<Event>)
    requires !b.state.HalfOpen?
    requires Run(config, b, events).state.HalfOpen?
    ensures exists i: nat :: Probing(config, b, events, i, Run(config, b, events).successes)
  {
    var front, e := events[..|events| - 1], events[|events| - 1];
    assert events == front + [e];
    if Run(config, b, front).state.HalfOpen? {
      HalfOpenIsProbing(config, b, front);
      var i: nat :| Probing(config, b, front, i, Run(config, b, front).successes);
      ProbingExtends(config, b, front, e, i, Run(config, b, front).successes);
    } else {
      assert events[|front| + 1..] == [];
      assert Probing(config, b, events, |front|, 0);
    }
  }

  /**
   Whenever a step closes a breaker, it is the success that completes the quota
   since a check made at least the timeout after the breaker opened, with no
   failure in between.
   */
  lemma ClosesOnlyAfterRecovery(config: CircuitBreakerConfig, b: Breaker, events: seq<Event>, e: Event)
    requires !b.state.HalfOpen?
    requires !Run(config, b, events).state.Closed? && Run(config, b, events + [e]).state.Closed?
    ensures exists i: nat :: Probing(config, b, events + [e], i, Quota(config))
  {
    RunSnoc(config, b, events, e);
    HalfOpenIsProbing(config, b, events);
    var successes := Run(config, b, events).successes;
    var i: nat :| Probing(config, b, events, i, successes);
    ProbingExtends(config, b, events, e, i, successes);
    QuotaNotExceeded(config, b, events);
    assert e.Success? && successes + 1 == Quota(config);
    assert Probing(config, b, events + [e], i, Quota(config));
  }

  lemma {:induction false} QuotaNotExceeded(config: CircuitBreakerConfig, b: Breaker, events: seq<Event>)
    requires !b.state.HalfOpen? && Run(config, b, events).state.HalfOpen?
    ensures Run(config, b, events).successes < config.successThreshold || Run(config, b, events).successes == 0
  {
    var front := events[..|events| - 1];
    if Run(config, b, front).state.HalfOpen? {
      QuotaNotExceeded(config, b, front);
    }
  }

  // ------------------------------------------------------------- while it is open

  /** Nothing that happens before the timeout moves an open breaker at all, rejected calls included. */
  lemma {:induction false} OpenIsUndisturbed(config: CircuitBreakerConfig, b: Breaker, events: seq<Event>)
    requires b.state.Open?
    requires forall i :: 0 <= i < |events| ==> DurationSince(events[i].now, b.lastStateChange) < config.openTimeout
    ensures Run(config, b, events) == b
  {
    if events != [] {
      OpenIsUndisturbed(config, b, events[..|events| - 1]);
    }
  }

  /** Hence the first check at or after the timeout is admitted, however many calls were rejected before it. */
  lemma FirstCheckAfterTimeoutAdmitted(config: CircuitBreakerConfig, b: Breaker, rejected: seq<Event>, now: int)
    requires b.state.Open?
    requires forall i :: 0 <= i < |rejected| ==> DurationSince(rejected[i].now, b.lastStateChange) < config.openTimeout
    ensures Admits(config, Run(config, b, rejected), now)
       <==> DurationSince(now, b.lastStateChange) >= config.openTimeout
    ensures Admits(config, Run(config, b, rejected), now) ==>
              Run(config, b, rejected + [Check(now)]) == b.(state := HalfOpen, lastStateChange := now, successes := 0)
  {
    OpenIsUndisturbed(config, b, rejected);
    RunSnoc(config, b, rejected, Check(now));
  }

  /** And the quota of successes then does close it, with a clean window. */
  lemma {:induction false} SuccessesClose(config: CircuitBreakerConfig, b: Breaker, events: seq<Event>)
    requires b.state.HalfOpen? && b.successes == 0
    requires forall i :: 0 <= i < |events| ==> events[i].Success?
    requires |events| == Quota(config)
    ensures Run(config, b, events).state.Closed? && Run(config, b, events).failures == []
  {
    var front := events[..|events| - 1];
    SuccessesCount(config, b, front);
  }

  lemma {:induction false} SuccessesCount(config: CircuitBreakerConfig, b: Breaker, events: seq<Event>)
    requires b.state.HalfOpen? && b.successes == 0
    requires forall i :: 0 <= i < |events| ==> events[i].Success?
    requires events == [] || |events| < config.successThreshold
    ensures Run(config, b, events).state.HalfOpen? && Run(config, b, events).successes == |events|
  {
    if events != [] {
      SuccessesCount(config, b, events[..|events| - 1]);
    }
  }
}
