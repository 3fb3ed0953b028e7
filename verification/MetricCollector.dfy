/**
 The metrics buffer and the tasks around it: one processor, which puts a batch it could
 not store back into the buffer, and any number of timed and final flushes, which do not.
 */
module MetricCollector {
  import opened BillingModels
  import Bags

  const FLUSH_AGE: int := 30_000    // milliseconds

  // ------------------------------------------------------------------------ the buffer

  /** The oldest metric makes room for a new one in a full buffer. */
  function Push(buffer: seq<UsageMetric>, m: UsageMetric, capacity: nat): seq<UsageMetric> {
    (if |buffer| >= capacity && buffer != [] then buffer[1..] else buffer) + [m]
  }

  function Dropped(buffer: seq<UsageMetric>, capacity: nat): seq<UsageMetric> {
    if |buffer| >= capacity && buffer != [] then [buffer[0]] else []
  }

  predicate ShouldFlush(buffer: seq<UsageMetric>, capacity: nat, age: int) {
    |buffer| >= capacity / 2 || age >= FLUSH_AGE
  }

  function PushAll(buffer: seq<UsageMetric>, batch: seq<UsageMetric>, capacity: nat): seq<UsageMetric> {
    if batch == [] then buffer
    else Push(PushAll(buffer, batch[..|batch| - 1], capacity), batch[|batch| - 1], capacity)
  }

  function DroppedAll(buffer: seq<UsageMetric>, batch: seq<UsageMetric>, capacity: nat): seq<UsageMetric> {
    if batch == [] then []
    else
      var front := batch[..|batch| - 1];
      DroppedAll(buffer, front, capacity) + Dropped(PushAll(buffer, front, capacity), capacity)
  }

  /** How often a metric occurs; with this, conservation is arithmetic. */
  function Count(s: seq<UsageMetric>, x: UsageMetric): nat {
    multiset(s)[x]
  }

  lemma CountAppend(s: seq<UsageMetric>, t: seq<UsageMetric>, x: UsageMetric)
    ensures Count(s + t, x) == Count(s, x) + Count(t, x)
  {
  }

  lemma CountSnoc(s: seq<UsageMetric>, m: UsageMetric, x: UsageMetric)
    ensures Count(s + [m], x) == Count(s, x) + if m == x then 1 else 0
  {
  }

  lemma PushConserves(buffer: seq<UsageMetric>, m: UsageMetric, capacity: nat, x: UsageMetric)
    ensures Count(Push(buffer, m, capacity), x) + Count(Dropped(buffer, capacity), x) ==
            Count(buffer, x) + if m == x then 1 else 0
  {
    CountSnoc(buffer, m, x);
    if buffer != [] {
      CountSnoc(buffer[1..], m, x);
      CountAppend([buffer[0]], buffer[1..], x);
      assert buffer == [buffer[0]] + buffer[1..];
    }
  }

  lemma {:induction false} PushAllConserves(buffer: seq<UsageMetric>, batch: seq<UsageMetric>, capacity: nat,
                                            x: UsageMetric)
    ensures Count(PushAll(buffer, batch, capacity), x) + Count(DroppedAll(buffer, batch, capacity), x) ==
            Count(buffer, x) + Count(batch, x)
  {
    if batch != [] {
      var front, last := batch[..|batch| - 1], batch[|batch| - 1];
      var pushed := PushAll(buffer, front, capacity);
      assert Count(batch, x) == Count(front, x) + if last == x then 1 else 0 by {
        CountSnoc(front, last, x);
        assert batch == front + [last];
      }
      PushAllConserves(buffer, front, capacity, x);
      PushConserves(pushed, last, capacity, x);
      CountAppend(DroppedAll(buffer, front, capacity), Dropped(pushed, capacity), x);
    }
  }

  /** A buffer holds one metric even at capacity zero. */
  function Room(capacity: nat): nat {
    if capacity > 0 then capacity else 1
  }

  /** A batch that fits an empty buffer is put back whole and in order. */
  lemma {:induction false} RequeueLosesNothing(batch: seq<UsageMetric>, capacity: nat)
    requires |batch| <= Room(capacity)
    ensures PushAll([], batch, capacity) == batch && DroppedAll([], batch, capacity) == []
  {
    if batch != [] {
      var front, last := batch[..|batch| - 1], batch[|batch| - 1];
      RequeueLosesNothing(front, capacity);
      assert batch == front + [last];
    }
  }

  class SimpleMetricBuffer {
    var metrics: seq<UsageMetric>
    var lastFlush: int
    const capacity: nat

    constructor (capacity: nat, now: int)
      ensures metrics == [] && lastFlush == now && this.capacity == capacity
    {
      metrics, lastFlush, this.capacity := [], now, capacity;
    }

    method AddMetric(m: UsageMetric, now: int) returns (flush: bool)
      modifies this`metrics
      ensures metrics == Push(old(metrics), m, capacity)
      ensures flush == ShouldFlush(metrics, capacity, now - lastFlush)
      ensures metrics ==
              (if |old(metrics)| >= capacity && old(metrics) != [] then old(metrics)[1..] else old(metrics)) + [m]
      ensures flush <==> |metrics| >= capacity / 2 || now - lastFlush >= 30_000
    {
      if |metrics| >= capacity && metrics != [] {
        metrics := metrics[1..];
      }
      metrics := metrics + [m];
      flush := |metrics| >= capacity / 2 || now - lastFlush >= FLUSH_AGE;
    }

    method Flush(now: int) returns (batch: seq<UsageMetric>)
      modifies this
      ensures batch == old(metrics) && metrics == [] && lastFlush == now
    {
      batch, metrics, lastFlush := metrics, [], now;
    }
  }

  // --------------------------------------------------------------------- the collector

  /** Where the processor is between its steps; it holds the buffer's lock within each. */
  datatype Processor =
    | Idle
    | Storing(batch: seq<UsageMetric>)
    | Requeueing(batch: seq<UsageMetric>)

  datatype Collector = Collector(
    capacity: nat,
    buffer: seq<UsageMetric>,
    lastFlush: int,
    processor: Processor,
    flights: seq<seq<UsageMetric>>,    // batches other flushes have taken and not yet stored
    received: seq<UsageMetric>,        // every metric the processor took from the channel
    stored: multiset<UsageMetric>,
    dropped: seq<UsageMetric>,         // pushed out of a full buffer
    lost: multiset<UsageMetric>,       // in other flushes that failed
    streak: nat,                       // failed stores of the processor since its last success
    worst: nat,                        // the longest streak so far
    failedFlushes: nat)

  datatype Action =
    | Receive(m: UsageMetric, now: int)    // the processor adds a metric, and takes the buffer if it should flush
    | Store(ok: bool)                      // its store ends
    | Requeue                              // it puts a failed batch back
    | Take(now: int)                       // a timed or final flush takes the buffer
    | Finish(i: nat, ok: bool)             // and its store ends

  function Start(capacity: nat, now: int): Collector {
    Collector(capacity, [], now, Idle, [], [], multiset{}, [], multiset{}, 0, 0, 0)
  }

  predicate Enabled(s: Collector, a: Action) {
    match a
    case Receive(_, _) => s.processor.Idle?
    case Store(_) => s.processor.Storing?
    case Requeue => s.processor.Requeueing?
    case Take(_) => s.buffer != []
    case Finish(i, _) => i < |s.flights|
  }

  function Received(s: Collector, m: UsageMetric, now: int): Collector {
    var buffer := Push(s.buffer, m, s.capacity);
    var s' := s.(received := s.received + [m], dropped := s.dropped + Dropped(s.buffer, s.capacity));
    if ShouldFlush(buffer, s.capacity, now - s.lastFlush)
    then s'.(buffer := [], lastFlush := now, processor := Storing(buffer))
    else s'.(buffer := buffer)
  }

  function Stored(s: Collector, ok: bool): Collector
    requires s.processor.Storing?
  {
    if ok then s.(processor := Idle, stored := s.stored + multiset(s.processor.batch), streak := 0)
    else
      s.(processor := Requeueing(s.processor.batch), streak := s.streak + 1,
         worst := if s.worst > s.streak then s.worst else s.streak + 1)
  }

  function Requeued(s: Collector): Collector
    requires s.processor.Requeueing?
  {
    s.(processor := Idle,
       buffer := PushAll(s.buffer, s.processor.batch, s.capacity),
       dropped := s.dropped + DroppedAll(s.buffer, s.processor.batch, s.capacity))
  }

  function Taken(s: Collector, now: int): Collector {
    s.(flights := s.flights + [s.buffer], buffer := [], lastFlush := now)
  }

  function Finished(s: Collector, i: nat, ok: bool): Collector
    requires i < |s.flights|
  {
    var s' := s.(flights := Bags.Without(s.flights, i));
    if ok then s'.(stored := s.stored + multiset(s.flights[i]))
    else s'.(lost := s.lost + multiset(s.flights[i]), failedFlushes := s.failedFlushes + 1)
  }

  /** One step of any of the tasks; a step that is not possible is none. */
  function Step(s: Collector, a: Action): Collector {
    if !Enabled(s, a) then s
    else
      match a
      case Receive(m, now) => Received(s, m, now)
      case Store(ok) => Stored(s, ok)
      case Requeue => Requeued(s)
      case Take(now) => Taken(s, now)
      case Finish(i, ok) => Finished(s, i, ok)
  }

  function Run(s: Collector, actions: seq<Action>): Collector {
    if actions == [] then s else Step(Run(s, actions[..|actions| - 1]), actions[|actions| - 1])
  }

  // ---------------------------------------------------------------------- conservation

  function Flying(flights: seq<seq<UsageMetric>>): multiset<UsageMetric> {
    if flights == [] then multiset{} else Flying(flights[..|flights| - 1]) + multiset(flights[|flights| - 1])
  }

  lemma {:induction false} FlyingWithout(flights: seq<seq<UsageMetric>>, i: nat)
    requires i < |flights|
    ensures Flying(flights) == Flying(Bags.Without(flights, i)) + multiset(flights[i])
  {
    var n := |flights| - 1;
    if i == n {
      assert Bags.Without(flights, i) == flights[..n];
    } else {
      FlyingWithout(flights[..n], i);
      Bags.WithoutSnoc(flights, i);
    }
  }

  /** What the processor is holding. */
  function Held(p: Processor): seq<UsageMetric> {
    if p.Idle? then [] else p.batch
  }

  /** How often a metric is in any of the places where it can be. */
  ghost function Places(s: Collector, x: UsageMetric): nat {
    s.stored[x] + Count(s.buffer, x) + Count(Held(s.processor), x) + Flying(s.flights)[x] +
    Count(s.dropped, x) + s.lost[x]
  }

  lemma ReceiveConserves(s: Collector, m: UsageMetric, now: int, x: UsageMetric)
    requires s.processor.Idle?
    ensures Places(Received(s, m, now), x) - Places(s, x) ==
            Count(Received(s, m, now).received, x) - Count(s.received, x)
  {
    PushConserves(s.buffer, m, s.capacity, x);
    CountSnoc(s.received, m, x);
    CountAppend(s.dropped, Dropped(s.buffer, s.capacity), x);
  }

  lemma RequeueConserves(s: Collector, x: UsageMetric)
    requires s.processor.Requeueing?
    ensures Places(Requeued(s), x) == Places(s, x)
  {
    var batch := s.processor.batch;
    PushAllConserves(s.buffer, batch, s.capacity, x);
    CountAppend(s.dropped, DroppedAll(s.buffer, batch, s.capacity), x);
  }

  lemma TakeConserves(s: Collector, now: int, x: UsageMetric)
    ensures Places(Taken(s, now), x) == Places(s, x)
  {
    assert (s.flights + [s.buffer])[..|s.flights|] == s.flights;
  }

  lemma FinishConserves(s: Collector, i: nat, ok: bool, x: UsageMetric)
    requires i < |s.flights|
    ensures Places(Finished(s, i, ok), x) == Places(s, x)
  {
    FlyingWithout(s.flights, i);
  }

  /** No step loses or repeats a metric. */
  lemma StepConserves(s: Collector, a: Action, x: UsageMetric)
    ensures Places(Step(s, a), x) - Places(s, x) == Count(Step(s, a).received, x) - Count(s.received, x)
  {
    if Enabled(s, a) {
      match a
      case Receive(m, now) => ReceiveConserves(s, m, now, x);
      case Store(_) =>
      case Requeue => RequeueConserves(s, x);
      case Take(now) => TakeConserves(s, now, x);
      case Finish(i, ok) => FinishConserves(s, i, ok, x);
    }
  }

  lemma {:induction false} RunConserves(capacity: nat, now: int, actions: seq<Action>, x: UsageMetric)
    ensures var s := Run(Start(capacity, now), actions);
            Places(s, x) == Count(s.received, x)
  {
    if actions != [] {
      var front := actions[..|actions| - 1];
      RunConserves(capacity, now, front, x);
      StepConserves(Run(Start(capacity, now), front), actions[|actions| - 1], x);
    }
  }

  /**
   On every run of all the tasks, every metric received is stored, waiting, on its way,
   dropped or lost, and in one of these only.
   */
  lemma EveryMetricInOnePlace(capacity: nat, now: int, actions: seq<Action>)
    ensures var s := Run(Start(capacity, now), actions);
            multiset(s.received) ==
            s.stored + multiset(s.buffer) + multiset(Held(s.processor)) + Flying(s.flights) +
            multiset(s.dropped) + s.lost
  {
    var s := Run(Start(capacity, now), actions);
    forall x: UsageMetric
      ensures multiset(s.received)[x] == Places(s, x)
    {
      RunConserves(capacity, now, actions, x);
    }
  }

  // ----------------------------------------------------------------------------- drops

  /** How many metrics wait in the buffer, at most, when every store of the processor succeeds. */
  function Slack(capacity: nat): nat {
    if capacity / 2 > 0 then capacity / 2 - 1 else 0
  }

  /** Each failed store of the processor lets the buffer grow by one over that. */
  ghost predicate Bounded(s: Collector) {
    && s.streak <= s.worst
    && |s.buffer| <= Room(s.capacity) && |Held(s.processor)| <= Room(s.capacity)
    && (s.processor.Idle? ==> |s.buffer| <= Slack(s.capacity) + s.streak)
    && (s.processor.Storing? ==> s.buffer == [] && |s.processor.batch| <= Slack(s.capacity) + s.streak + 1)
    && (s.processor.Requeueing? ==> s.buffer == [] && |s.processor.batch| <= Slack(s.capacity) + s.streak)
    && (s.dropped != [] ==> Slack(s.capacity) + s.worst >= Room(s.capacity))
  }

  lemma ReceiveKeepsBounds(s: Collector, m: UsageMetric, now: int)
    requires Bounded(s) && s.processor.Idle?
    ensures Bounded(Received(s, m, now))
  {
    var buffer := Push(s.buffer, m, s.capacity);
    assert 1 <= |buffer| <= Room(s.capacity) && |buffer| <= |s.buffer| + 1;
    if !ShouldFlush(buffer, s.capacity, now - s.lastFlush) {
      assert |buffer| <= Slack(s.capacity);
    }
  }

  lemma StepKeepsBounds(s: Collector, a: Action)
    requires Bounded(s)
    ensures Bounded(Step(s, a)) && Step(s, a).capacity == s.capacity
  {
    if Enabled(s, a) {
      match a
      case Receive(m, now) => ReceiveKeepsBounds(s, m, now);
      case Store(_) =>
      case Requeue => RequeueLosesNothing(s.processor.batch, s.capacity);
      case Take(_) =>
      case Finish(_, _) =>
    }
  }

  lemma {:induction false} RunIsBounded(capacity: nat, now: int, actions: seq<Action>)
    ensures Bounded(Run(Start(capacity, now), actions)) && Run(Start(capacity, now), actions).capacity == capacity
  {
    if actions != [] {
      RunIsBounded(capacity, now, actions[..|actions| - 1]);
      StepKeepsBounds(Run(Start(capacity, now), actions[..|actions| - 1]), actions[|actions| - 1]);
    }
  }

  /** Putting a batch back never pushes anything out, and puts it back in order. */
  lemma RequeueIsLossless(capacity: nat, now: int, actions: seq<Action>)
    requires Run(Start(capacity, now), actions).processor.Requeueing?
    ensures var s := Run(Start(capacity, now), actions);
            Step(s, Requeue) == s.(processor := Idle, buffer := s.processor.batch)
  {
    var s := Run(Start(capacity, now), actions);
    RunIsBounded(capacity, now, actions);
    RequeueLosesNothing(s.processor.batch, s.capacity);
    assert s.dropped + [] == s.dropped;
  }

  /** The streak counts the failed stores of the processor since its last success, and `worst` is the longest so far. */
  lemma StreakCounts(s: Collector, a: Action)
    ensures s.processor.Storing? && a == Store(true) ==> Step(s, a).streak == 0 && Step(s, a).worst == s.worst
    ensures s.processor.Storing? && a == Store(false) ==>
              && Step(s, a).streak == s.streak + 1
              && Step(s, a).worst == if s.streak + 1 > s.worst then s.streak + 1 else s.worst
    ensures !a.Store? ==> Step(s, a).streak == s.streak && Step(s, a).worst == s.worst
    ensures Step(s, a).failedFlushes ==
            s.failedFlushes + if a.Finish? && !a.ok && a.i < |s.flights| then 1 else 0
  {
  }

  /** Nothing is dropped before the processor has failed to store often enough in a row to fill the buffer. */
  lemma DropsNeedFailures(capacity: nat, now: int, actions: seq<Action>)
    ensures var s := Run(Start(capacity, now), actions);
            s.dropped != [] ==> s.worst >= Room(capacity) - Slack(capacity) >= 1
  {
    RunIsBounded(capacity, now, actions);
  }

  lemma RunSnoc(s: Collector, actions: seq<Action>, a: Action)
    ensures Run(s, actions + [a]) == Step(Run(s, actions), a)
  {
    assert (actions + [a])[..|actions|] == actions;
  }

  /** An idle collector with `n` metrics waiting after `failures` failed stores, and nothing dropped. */
  ghost predicate Waiting(s: Collector, capacity: nat, now: int, n: nat, failures: nat) {
    && s.capacity == capacity && s.lastFlush == now && s.processor.Idle?
    && |s.buffer| == n && s.dropped == [] && s.streak == s.worst == failures
  }

  lemma {:induction false} FillSlack(capacity: nat, now: int, m: UsageMetric, n: nat) returns (actions: seq<Action>)
    requires n <= Slack(capacity)
    ensures Waiting(Run(Start(capacity, now), actions), capacity, now, n, 0)
  {
    actions := [];
    if n > 0 {
      actions := FillSlack(capacity, now, m, n - 1);
      RunSnoc(Start(capacity, now), actions, Receive(m, now));
      actions := actions + [Receive(m, now)];
    }
  }

  /** One more metric, whose batch fails, leaves one more waiting. */
  lemma FailOnce(s: Collector, capacity: nat, now: int, m: UsageMetric, n: nat, failures: nat)
    requires Waiting(s, capacity, now, n, failures) && capacity / 2 <= n + 1 <= Room(capacity)
    ensures Waiting(Step(Step(Step(s, Receive(m, now)), Store(false)), Requeue), capacity, now, n + 1, failures + 1)
  {
    var batch := s.buffer + [m];
    assert Step(s, Receive(m, now)).processor == Storing(batch);
    RequeueLosesNothing(batch, capacity);
    assert s.dropped + [] == s.dropped;
  }

  lemma {:induction false} FailOften(capacity: nat, now: int, m: UsageMetric, failures: nat)
    returns (actions: seq<Action>)
    requires Slack(capacity) + failures <= Room(capacity)
    ensures Waiting(Run(Start(capacity, now), actions), capacity, now, Slack(capacity) + failures, failures)
  {
    if failures == 0 {
      actions := FillSlack(capacity, now, m, Slack(capacity));
    } else {
      actions := FailOften(capacity, now, m, failures - 1);
      var start := Start(capacity, now);
      FailOnce(Run(start, actions), capacity, now, m, Slack(capacity) + failures - 1, failures - 1);
      RunSnoc(start, actions, Receive(m, now));
      RunSnoc(start, actions + [Receive(m, now)], Store(false));
      RunSnoc(start, actions + [Receive(m, now)] + [Store(false)], Requeue);
      actions := actions + [Receive(m, now)] + [Store(false)] + [Requeue];
    }
  }

  /** And that many failures do suffice: at every capacity some run with no more of them drops a metric. */
  lemma DropBoundIsTight(capacity: nat, now: int, m: UsageMetric) returns (actions: seq<Action>)
    ensures var s := Run(Start(capacity, now), actions);
            s.dropped != [] && s.worst == Room(capacity) - Slack(capacity)
  {
    actions := FailOften(capacity, now, m, Room(capacity) - Slack(capacity));
    RunSnoc(Start(capacity, now), actions, Receive(m, now));
    actions := actions + [Receive(m, now)];
  }

  /** Only non-empty batches fly. */
  ghost predicate NoEmptyFlight(flights: seq<seq<UsageMetric>>) {
    forall i :: 0 <= i < |flights| ==> flights[i] != []
  }

  /** Metrics are lost exactly when a timed or final flush fails. */
  lemma {:induction false} LossIsFailedFlush(capacity: nat, now: int, actions: seq<Action>)
    ensures var s := Run(Start(capacity, now), actions);
            (s.lost == multiset{} <==> s.failedFlushes == 0) && NoEmptyFlight(s.flights)
  {
    if actions != [] {
      LossIsFailedFlush(capacity, now, actions[..|actions| - 1]);
      var s, a := Run(Start(capacity, now), actions[..|actions| - 1]), actions[|actions| - 1];
      if a.Finish? && Enabled(s, a) && !a.ok {
        LossGrows(s, a.i);
      }
    }
  }

  lemma LossGrows(s: Collector, i: nat)
    requires i < |s.flights| && NoEmptyFlight(s.flights)
    ensures Finished(s, i, false).lost != multiset{} && NoEmptyFlight(Finished(s, i, false).flights)
  {
    assert s.flights[i][0] in multiset(s.flights[i]);
  }

  ghost predicate NoFailures(actions: seq<Action>) {
    forall i :: 0 <= i < |actions| ==> !(actions[i].Store? && !actions[i].ok) && !(actions[i].Finish? && !actions[i].ok)
  }

  lemma {:induction false} NoStreak(capacity: nat, now: int, actions: seq<Action>)
    requires NoFailures(actions)
    ensures var s := Run(Start(capacity, now), actions);
            s.worst == 0 && s.streak == 0 && s.failedFlushes == 0 && !s.processor.Requeueing?
  {
    if actions != [] {
      NoStreak(capacity, now, actions[..|actions| - 1]);
    }
  }

  /** Without a failed store everything received is stored, waiting or on its way, at any capacity. */
  lemma NothingLostWithoutFailures(capacity: nat, now: int, actions: seq<Action>)
    requires NoFailures(actions)
    ensures var s := Run(Start(capacity, now), actions);
            multiset(s.received) == s.stored + multiset(s.buffer) + multiset(Held(s.processor)) + Flying(s.flights)
  {
    EveryMetricInOnePlace(capacity, now, actions);
    NoStreak(capacity, now, actions);
    DropsNeedFailures(capacity, now, actions);
    LossIsFailedFlush(capacity, now, actions);
  }

  // ------------------------------------------------------------------- the tasks' code

  class SimpleMetricsCollector {
    const buffer: SimpleMetricBuffer
    var errorCount: nat
    ghost var state: Collector

    ghost predicate Valid()
      reads this, buffer
    {
      && state.processor.Idle? && buffer.metrics == state.buffer
      && buffer.lastFlush == state.lastFlush && buffer.capacity == state.capacity
    }

    constructor (capacity: nat, now: int)
      ensures Valid() && fresh(buffer) && state == Start(capacity, now) && errorCount == 0
    {
      buffer := new SimpleMetricBuffer(capacity, now);
      errorCount, state := 0, Start(capacity, now);
    }

    /** One turn of the processor's loop, with no other task in between. `ok` says whether a store succeeds. */
    method ProcessMetric(m: UsageMetric, now: int, ok: bool)
      requires Valid()
      modifies this, buffer
      ensures Valid() && state == Step(Step(Step(old(state), Receive(m, now)), Store(ok)), Requeue)
      ensures errorCount == old(errorCount) +
                (if Step(old(state), Receive(m, now)).processor.Storing? && !ok then 1 else 0)
    {
      ghost var received := Step(state, Receive(m, now));
      state := Step(Step(received, Store(ok)), Requeue);
      var flush := buffer.AddMetric(m, now);
      if flush {
        var batch := buffer.Flush(now);
        assert received.processor == Storing(batch);
        if !ok {
          errorCount := errorCount + 1;
          PutBack(batch, now);
        }
      }
    }

    method PutBack(batch: seq<UsageMetric>, now: int)
      modifies buffer
      ensures buffer.metrics == PushAll(old(buffer.metrics), batch, buffer.capacity)
      ensures buffer.lastFlush == old(buffer.lastFlush)
    {
      for i := 0 to |batch|
        invariant buffer.metrics == PushAll(old(buffer.metrics), batch[..i], buffer.capacity)
        invariant buffer.lastFlush == old(buffer.lastFlush)
      {
        assert batch[..i + 1][..i] == batch[..i];
        var _ := buffer.AddMetric(batch[i], now);
      }
      assert batch[..|batch|] == batch;
    }

    /** A timed or final flush, with no other task in between; `failed` says whether its batch was lost. */
    method FlushBuffer(now: int, ok: bool) returns (failed: bool)
      requires Valid()
      modifies this, buffer
      ensures Valid() && failed == (old(state).buffer != [] && !ok)
      ensures state == if old(state).buffer == [] then old(state)
                       else Step(Step(old(state), Take(now)), Finish(|old(state).flights|, ok))
    {
      failed := false;
      if buffer.metrics != [] {
        var batch := buffer.Flush(now);
        state := Step(Step(state, Take(now)), Finish(|state.flights|, ok));
        failed := !ok;
      }
    }
  }
}
