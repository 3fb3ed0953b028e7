/** Container health with hysteresis: several failures in a row mark a container down, several successes up again. */
module HealthMonitor {

  datatype HealthCheckConfig = HealthCheckConfig(failureThreshold: nat, successThreshold: nat)

  datatype Health = Health(
    isHealthy: bool,
    consecutiveFailures: nat,
    consecutiveSuccesses: nat,
    totalFailures: nat,
    totalChecks: nat)

  const FRESH := Health(true, 0, 0, 0, 0)

  function Observe(config: HealthCheckConfig, h: Health, ok: bool): Health {
    if ok then
      var successes := h.consecutiveSuccesses + 1;
      Health(h.isHealthy || successes >= config.successThreshold, 0, successes, h.totalFailures, h.totalChecks + 1)
    else
      var failures := h.consecutiveFailures + 1;
      Health(h.isHealthy && failures < config.failureThreshold, failures, 0, h.totalFailures + 1, h.totalChecks + 1)
  }

  function ObserveAll(config: HealthCheckConfig, h: Health, results: seq<bool>): Health {
    if results == [] then h
    else Observe(config, ObserveAll(config, h, results[..|results| - 1]), results[|results| - 1])
  }

  /** The results that concern one container, in order. */
  function ResultsFor(checks: seq<(string, bool)>, id: string): seq<bool> {
    if checks == [] then []
    else
      var last := checks[|checks| - 1];
      ResultsFor(checks[..|checks| - 1], id) + if last.0 == id then [last.1] else []
  }

  /** A container that was never checked starts as healthy. */
  function HealthIn(health: map<string, Health>, id: string): Health {
    if id in health then health[id] else FRESH
  }

  function Ids(checks: seq<(string, bool)>, n: nat): set<string>
    requires n <= |checks|
  {
    set i | 0 <= i < n :: checks[i].0
  }

  lemma CheckedIds(checks: seq<(string, bool)>, n: nat)
    requires n < |checks|
    ensures Ids(checks, n + 1) == Ids(checks, n) + {checks[n].0}
  {
  }

  /** Every container's record has taken its results among the first `n` checks. */
  ghost predicate Checked(config: HealthCheckConfig, start: map<string, Health>, checks: seq<(string, bool)>, n: nat,
                          health: map<string, Health>)
    requires n <= |checks|
  {
    && (forall id :: HealthIn(health, id) == ObserveAll(config, HealthIn(start, id), ResultsFor(checks[..n], id)))
    && health.Keys == start.Keys + Ids(checks, n)
  }

  class Monitor {
    const config: HealthCheckConfig
    var health: map<string, Health>

    constructor (config: HealthCheckConfig)
      ensures this.config == config && health == map[]
    {
      this.config := config;
      health := map[];
    }

    /** One round: `checks` lists each container found with the outcome of its check. */
    method PerformHealthChecks(checks: seq<(string, bool)>)
      modifies this
      ensures Checked(config, old(health), checks, |checks|, health)
    {
      NothingChecked(config, health, checks);
      for i := 0 to |checks|
        invariant Checked(config, old(health), checks, i, health)
      {
        var (id, ok) := checks[i];
        var h := HealthIn(health, id);
        h := h.(totalChecks := h.totalChecks + 1);
        if ok {
          h := h.(consecutiveSuccesses := h.consecutiveSuccesses + 1, consecutiveFailures := 0);
          if !h.isHealthy && h.consecutiveSuccesses >= config.successThreshold {
            h := h.(isHealthy := true);
          }
        } else {
          h := h.(consecutiveFailures := h.consecutiveFailures + 1, consecutiveSuccesses := 0,
                  totalFailures := h.totalFailures + 1);
          if h.isHealthy && h.consecutiveFailures >= config.failureThreshold {
            h := h.(isHealthy := false);
          }
        }
        assert h == Observe(config, HealthIn(health, id), ok);
        CheckedOneMore(config, old(health), checks, i, health);
        health := health[id := h];
      }
    }
  }

  lemma NothingChecked(config: HealthCheckConfig, start: map<string, Health>, checks: seq<(string, bool)>)
    ensures Checked(config, start, checks, 0, start)
  {
  }

  lemma CheckedOneMore(config: HealthCheckConfig, start: map<string, Health>, checks: seq<(string, bool)>, n: nat,
                       health: map<string, Health>)
    requires n < |checks| && Checked(config, start, checks, n, health)
    ensures var (id, ok) := checks[n];
            Checked(config, start, checks, n + 1, health[id := Observe(config, HealthIn(health, id), ok)])
  {
    var (id, ok) := checks[n];
    var health' := health[id := Observe(config, HealthIn(health, id), ok)];
    forall x
      ensures HealthIn(health', x) == ObserveAll(config, HealthIn(start, x), ResultsFor(checks[..n + 1], x))
    {
      CheckConcerns(config, HealthIn(start, x), checks, n, x);
    }
    CheckedIds(checks, n);
  }

  /** One more check is one more result for its container, and none for the others. */
  lemma CheckConcerns(config: HealthCheckConfig, start: Health, checks: seq<(string, bool)>, i: nat, id: string)
    requires i < |checks|
    ensures var before := ObserveAll(config, start, ResultsFor(checks[..i], id));
            ObserveAll(config, start, ResultsFor(checks[..i + 1], id)) ==
            if checks[i].0 == id then Observe(config, before, checks[i].1) else before
  {
    var results := ResultsFor(checks[..i], id);
    assert checks[..i + 1][..i] == checks[..i];
    assert (results + [checks[i].1])[..|results|] == results;
    assert results + [] == results;
  }

  // ------------------------------------------------------------- the hysteresis law

  /** The last `k` results before position `n` all equal `ok`. */
  ghost predicate Streak(results: seq<bool>, n: nat, k: nat, ok: bool)
    requires n <= |results|
  {
    k <= n && forall i :: n - k <= i < n ==> results[i] == ok
  }

  /** A threshold of zero acts like one. */
  function AtLeastOne(threshold: nat): nat {
    if threshold == 0 then 1 else threshold
  }

  /** Some streak of failures has not been followed by a streak of successes. */
  ghost predicate Down(config: HealthCheckConfig, results: seq<bool>) {
    exists i: nat :: DownSince(config, results, i)
  }

  ghost predicate DownSince(config: HealthCheckConfig, results: seq<bool>, i: nat) {
    && i <= |results|
    && Streak(results, i, AtLeastOne(config.failureThreshold), false)
    && forall j: nat :: i < j <= |results| ==> !Streak(results, j, AtLeastOne(config.successThreshold), true)
  }

  lemma {:induction false} CountersAreStreaks(config: HealthCheckConfig, results: seq<bool>, k: nat)
    requires k > 0
    ensures var h := ObserveAll(config, FRESH, results);
            && (k <= h.consecutiveFailures <==> Streak(results, |results|, k, false))
            && (k <= h.consecutiveSuccesses <==> Streak(results, |results|, k, true))
  {
    var n := |results|;
    if n > 0 {
      var front := results[..n - 1];
      if k > 1 {
        CountersAreStreaks(config, front, k - 1);
      }
      StreakSnoc(results, k, false);
      StreakSnoc(results, k, true);
    }
  }

  lemma StreakSnoc(results: seq<bool>, k: nat, ok: bool)
    requires k > 0 && results != []
    ensures Streak(results, |results|, k, ok) <==>
              results[|results| - 1] == ok && Streak(results[..|results| - 1], |results| - 1, k - 1, ok)
  {
    var front := results[..|results| - 1];
    assert forall i :: 0 <= i < |front| ==> front[i] == results[i];
  }

  lemma StreakPrefix(results: seq<bool>, m: nat, n: nat, k: nat, ok: bool)
    requires n <= m <= |results|
    ensures Streak(results[..m], n, k, ok) <==> Streak(results, n, k, ok)
  {
    assert forall i :: 0 <= i < m ==> results[..m][i] == results[i];
  }

  /**
   A container is marked unhealthy exactly when a full streak of failures is not yet outlived by
   a full streak of successes.
   */
  lemma {:induction false} UnhealthyIffDown(config: HealthCheckConfig, results: seq<bool>)
    ensures !ObserveAll(config, FRESH, results).isHealthy <==> Down(config, results)
  {
    var n := |results|;
    var f, s := AtLeastOne(config.failureThreshold), AtLeastOne(config.successThreshold);
    if n > 0 {
      var front, last := results[..n - 1], results[n - 1];
      UnhealthyIffDown(config, front);
      CountersAreStreaks(config, results, f);
      CountersAreStreaks(config, results, s);
      forall i: nat, k: nat, ok: bool | i <= n - 1
        ensures Streak(front, i, k, ok) <==> Streak(results, i, k, ok)
      {
        StreakPrefix(results, n - 1, i, k, ok);
      }
      if last {
        assert forall i: nat :: DownSince(config, results, i) <==>
          DownSince(config, front, i) && !Streak(results, n, s, true);
      } else {
        assert !Streak(results, n, s, true);
        assert forall i: nat :: i < n ==> (DownSince(config, results, i) <==> DownSince(config, front, i));
        assert DownSince(config, results, n) <==> Streak(results, n, f, false);
      }
    }
  }

  /** The totals count the checks and the failed ones, whatever the thresholds. */
  lemma {:induction false} TotalsCount(config: HealthCheckConfig, results: seq<bool>)
    ensures var h := ObserveAll(config, FRESH, results);
            h.totalChecks == |results| && h.totalFailures == multiset(results)[false]
  {
    if results != [] {
      TotalsCount(config, results[..|results| - 1]);
      assert results == results[..|results| - 1] + [results[|results| - 1]];
    }
  }
}
