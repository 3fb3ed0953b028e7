/** The periodic walk over whole hours, from the last tick to this one. */
module HourWalk {
  import opened HourRounding

  /** The hours from `start` up to, and without, `end`. */
  function Hours(start: int, end: int): seq<int>
    decreases end - start
  {
    if start < end then [start] + Hours(start + HOUR, end) else []
  }

  /** `b` is `n` whole hours after `a`. */
  predicate HoursLater(a: int, b: int, n: int) {
    b == a + n * HOUR
  }

  lemma {:induction false} HoursAppend(a: int, b: int, c: int, n: nat, m: nat)
    requires HoursLater(a, b, n) && HoursLater(b, c, m)
    ensures Hours(a, b) + Hours(b, c) == Hours(a, c)
    decreases n
  {
    if n == 0 {
      assert Hours(a, b) == [];
    } else {
      HoursAppend(a + HOUR, b, c, n - 1, m);
      assert Hours(a, b) == [a] + Hours(a + HOUR, b) && Hours(a, c) == [a] + Hours(a + HOUR, c);
    }
  }

  lemma {:induction false} HoursLength(a: int, b: int, n: int)
    requires HoursLater(a, b, n)
    ensures |Hours(a, b)| == if n >= 0 then n else 0
    decreases n
  {
    if n > 0 {
      HoursLength(a + HOUR, b, n - 1);
    }
  }

  /** An hour is on the walk once or not at all. */
  lemma {:induction false} HoursOnce(a: int, b: int, n: nat, h: int, k: int)
    requires HoursLater(a, b, n) && HoursLater(a, h, k)
    ensures multiset(Hours(a, b))[h] == if 0 <= k < n then 1 else 0
    decreases n
  {
    if n > 0 {
      HoursOnce(a + HOUR, b, n - 1, h, k - 1);
      assert multiset([a] + Hours(a + HOUR, b)) == multiset{a} + multiset(Hours(a + HOUR, b));
    }
  }

  // ------------------------------------------------------------------- runs of ticks

  /** The last tick of a run, or its start. */
  function LastTick(start: int, ticks: seq<int>): int {
    if ticks == [] then start else ticks[|ticks| - 1]
  }

  /** Every hour a run of ticks aggregates, in order. */
  ghost function Walked(start: int, ticks: seq<int>): seq<int> {
    if ticks == [] then []
    else
      var front := ticks[..|ticks| - 1];
      Walked(start, front) + Hours(RoundHour(LastTick(start, front)), RoundHour(ticks[|ticks| - 1]))
  }

  function Ahead(from: int, to: int): nat {
    if from < to then to - from else 0
  }

  /** How far the rounded clock moved forward over the run, in all. */
  ghost function Forward(start: int, ticks: seq<int>): nat {
    if ticks == [] then 0
    else
      var front := ticks[..|ticks| - 1];
      Forward(start, front) + Ahead(RoundHour(LastTick(start, front)), RoundHour(ticks[|ticks| - 1]))
  }

  /** How far it moved back. */
  ghost function Backward(start: int, ticks: seq<int>): nat {
    if ticks == [] then 0
    else
      var front := ticks[..|ticks| - 1];
      Backward(start, front) + Ahead(RoundHour(ticks[|ticks| - 1]), RoundHour(LastTick(start, front)))
  }

  /** The whole hours between two rounded timestamps. */
  lemma HoursBetween(a: int, b: int) returns (n: int)
    ensures HoursLater(RoundHour(a), RoundHour(b), n)
    ensures |Hours(RoundHour(a), RoundHour(b))| == if n >= 0 then n else 0
  {
    var i := RoundHourIndex(a);
    var j := RoundHourIndex(b);
    n := j - i;
    HoursLength(RoundHour(a), RoundHour(b), n);
  }

  lemma {:induction false} WalkLength(start: int, ticks: seq<int>)
    ensures |Walked(start, ticks)| * HOUR == Forward(start, ticks)
    ensures RoundHour(LastTick(start, ticks)) == RoundHour(start) + Forward(start, ticks) - Backward(start, ticks)
  {
    if ticks != [] {
      WalkLength(start, ticks[..|ticks| - 1]);
      var n := HoursBetween(LastTick(start, ticks[..|ticks| - 1]), ticks[|ticks| - 1]);
    }
  }

  lemma {:induction false} ForwardWalk(start: int, ticks: seq<int>)
    requires Backward(start, ticks) == 0
    ensures Walked(start, ticks) == Hours(RoundHour(start), RoundHour(LastTick(start, ticks)))
  {
    if ticks != [] {
      var front, last := ticks[..|ticks| - 1], ticks[|ticks| - 1];
      ForwardWalk(start, front);
      WalkLength(start, front);
      var n := HoursBetween(start, LastTick(start, front));
      var m := HoursBetween(LastTick(start, front), last);
      HoursAppend(RoundHour(start), RoundHour(LastTick(start, front)), RoundHour(last), n, m);
    }
  }

  /**
   The ticks of a run walk exactly the hours from its start to its end, each once and in
   order, if and only if the rounded clock only ever moved one way.
   */
  lemma WalkIsExactIffOneWay(start: int, ticks: seq<int>)
    ensures Walked(start, ticks) == Hours(RoundHour(start), RoundHour(LastTick(start, ticks)))
       <==> Forward(start, ticks) == 0 || Backward(start, ticks) == 0
  {
    WalkLength(start, ticks);
    var n := HoursBetween(start, LastTick(start, ticks));
    if Backward(start, ticks) == 0 {
      ForwardWalk(start, ticks);
    }
  }

  ghost predicate NeverBack(start: int, ticks: seq<int>) {
    ticks != [] ==>
      var front := ticks[..|ticks| - 1];
      NeverBack(start, front) && LastTick(start, front) <= ticks[|ticks| - 1]
  }

  lemma {:induction false} NeverBackRounds(start: int, ticks: seq<int>)
    requires NeverBack(start, ticks)
    ensures Backward(start, ticks) == 0
  {
    if ticks != [] {
      var front := ticks[..|ticks| - 1];
      RoundHourMonotone(LastTick(start, front), ticks[|ticks| - 1]);
      NeverBackRounds(start, front);
    }
  }

  /**
   Under a clock that never runs back, the hour of a timestamp is aggregated exactly once
   when it lies between the rounded start and the rounded last tick, and otherwise not.
   */
  lemma EachHourOnce(start: int, ticks: seq<int>, timestamp: int)
    requires NeverBack(start, ticks)
    ensures multiset(Walked(start, ticks))[RoundHour(timestamp)] ==
            if RoundHour(start) <= RoundHour(timestamp) < RoundHour(LastTick(start, ticks)) then 1 else 0
  {
    NeverBackRounds(start, ticks);
    ForwardWalk(start, ticks);
    WalkLength(start, ticks);
    var n := HoursBetween(start, LastTick(start, ticks));
    var k := HoursBetween(start, timestamp);
    HoursOnce(RoundHour(start), RoundHour(LastTick(start, ticks)), n, RoundHour(timestamp), k);
  }

  // ------------------------------------------------------------------- the aggregator

  /** How many of the hours were aggregated without an error. */
  ghost function Successes(hours: seq<int>, succeeds: int -> bool): nat {
    if hours == [] then 0 else (if succeeds(hours[0]) then 1 else 0) + Successes(hours[1..], succeeds)
  }

  /** One more hour counts exactly if it succeeds. */
  lemma {:induction false} SuccessesSnoc(hours: seq<int>, hour: int, succeeds: int -> bool)
    ensures Successes([], succeeds) == 0
    ensures Successes(hours + [hour], succeeds) == Successes(hours, succeeds) + if succeeds(hour) then 1 else 0
  {
    if hours != [] {
      assert (hours + [hour])[1..] == hours[1..] + [hour];
      SuccessesSnoc(hours[1..], hour, succeeds);
    }
  }

  class SimpleUsageAggregator {
    var lastAggregation: int
    var processedCount: nat
    ghost const start: int
    ghost var ticks: seq<int>
    ghost var aggregated: seq<int>    // the hours aggregation was called for

    ghost predicate Valid()
      reads this
    {
      lastAggregation == LastTick(start, ticks) && aggregated == Walked(start, ticks)
    }

    constructor (now: int)
      ensures Valid() && start == now && ticks == [] && processedCount == 0
    {
      lastAggregation, processedCount, start, ticks, aggregated := now, 0, now, [], [];
    }

    /** One tick. `succeeds` says which hours can be aggregated; a failed hour is passed over. */
    method RunPeriodicAggregation(now: int, succeeds: int -> bool) returns (count: nat)
      requires Valid()
      modifies this
      ensures Valid() && ticks == old(ticks) + [now] && lastAggregation == now
      ensures var hours := Hours(RoundHour(old(lastAggregation)), RoundHour(now));
              aggregated == old(aggregated) + hours && count == Successes(hours, succeeds)
      ensures processedCount == old(processedCount) + count
    {
      var since := lastAggregation;
      lastAggregation := now;
      WalkSnoc(start, ticks, now);
      ghost var hours;
      count, hours := AggregateHours(RoundHour(since), RoundHour(now), succeeds);
      processedCount := processedCount + count;
      aggregated, ticks := aggregated + hours, ticks + [now];
    }
  }

  lemma WalkSnoc(start: int, ticks: seq<int>, now: int)
    ensures Walked(start, ticks + [now]) ==
            Walked(start, ticks) + Hours(RoundHour(LastTick(start, ticks)), RoundHour(now))
  {
    assert (ticks + [now])[..|ticks|] == ticks;
  }

  /** The walk itself; `hours` are the hours it called aggregation for. */
  method AggregateHours(startHour: int, endHour: int, succeeds: int -> bool) returns (count: nat, ghost hours: seq<int>)
    ensures hours == Hours(startHour, endHour)
    ensures count == Successes(Hours(startHour, endHour), succeeds)
  {
    count, hours := 0, [];
    var currentHour := startHour;
    while currentHour < endHour
      invariant hours + Hours(currentHour, endHour) == Hours(startHour, endHour)
      invariant count + Successes(Hours(currentHour, endHour), succeeds) ==
                Successes(Hours(startHour, endHour), succeeds)
      decreases endHour - currentHour
    {
      hours := hours + [currentHour];
      if succeeds(currentHour) {
        count := count + 1;
      }
      currentHour := currentHour + HOUR;
    }
  }
}
