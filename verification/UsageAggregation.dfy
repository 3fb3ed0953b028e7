/**
 Aggregating raw metrics into summaries, and merging summaries: both in the
 order a hash map happens to yield, which must not show in the result.
 */
module UsageAggregation {
  import opened Prelude
  import opened BillingModels
  import Bags

  // ------------------------------------------------------------- aggregating values

  function Maximum(values: seq<real>): real
    requires values != []
  {
    if |values| == 1 then values[0] else Greater(Maximum(values[..|values| - 1]), values[|values| - 1])
  }

  function Minimum(values: seq<real>): real
    requires values != []
  {
    if |values| == 1 then values[0] else Lesser(Minimum(values[..|values| - 1]), values[|values| - 1])
  }

  function Average(total: real, count: nat): real {
    if count > 0 then total / count as real else 0.0
  }

  function Aggregate(values: seq<real>): AggregatedMetric
    requires values != []
  {
    AggregatedMetric(Sum(values), Average(Sum(values), |values|), Maximum(values), Minimum(values), |values|)
  }

  /** What the source does to an existing entry when another one of its type arrives. */
  function MergeMetric(existing: AggregatedMetric, metric: AggregatedMetric): AggregatedMetric {
    var total, count := existing.total + metric.total, existing.count + metric.count;
    AggregatedMetric(total, Average(total, count), Greater(existing.maximum, metric.maximum),
                     Lesser(existing.minimum, metric.minimum), count)
  }

  lemma {:induction false} AggregateAppend(v: seq<real>, w: seq<real>)
    requires v != [] && w != []
    ensures Aggregate(v + w) == MergeMetric(Aggregate(v), Aggregate(w))
  {
    var n := |w| - 1;
    var front, last := w[..n], w[n];
    assert (v + w)[..|v| + n] == v + front && (v + w)[|v| + n] == last;
    if n > 0 {
      AggregateAppend(v, front);
    } else {
      assert v + front == v;
      assert Sum(front) == 0.0;
    }
  }

  /**
   The aggregate means what its fields say: bounds that are attained, the sum, and its average
   over so many values.
   */
  lemma AggregateBounds(values: seq<real>)
    requires values != []
    ensures var a := Aggregate(values);
            && a.maximum in values && a.minimum in values
            && (forall i :: 0 <= i < |values| ==> a.minimum <= values[i] <= a.maximum)
            && a.total == Sum(values) && a.count == |values| && IsMeanOf(a, a.total, a.count)
  {
    ExtremesBound(values);
    AggregateAdds(values);
  }

  lemma AverageTimesCount(total: real, count: nat)
    requires count > 0
    ensures Average(total, count) * count as real == total
  {
  }

  lemma AggregateAdds(values: seq<real>)
    requires values != []
    ensures IsMeanOf(Aggregate(values), Sum(values), |values|)
  {
    AverageTimesCount(Sum(values), |values|);
  }

  lemma {:induction false} ExtremesBound(values: seq<real>)
    requires values != []
    ensures Maximum(values) in values && Minimum(values) in values
    ensures forall i :: 0 <= i < |values| ==> Minimum(values) <= values[i] <= Maximum(values)
  {
    if |values| > 1 {
      var front := values[..|values| - 1];
      ExtremesBound(front);
      assert values == front + [values[|values| - 1]];
    }
  }

  // ---------------------------------------------------------------- raw metrics

  /** The values of one type, in order. */
  function Values(metrics: seq<UsageMetric>, t: MetricType): seq<real> {
    if metrics == [] then []
    else
      var last := metrics[|metrics| - 1];
      Values(metrics[..|metrics| - 1], t) + if last.metricType == t then [last.value] else []
  }

  function Types(metrics: seq<UsageMetric>): set<MetricType> {
    set i | 0 <= i < |metrics| :: metrics[i].metricType
  }

  function Sessions(metrics: seq<UsageMetric>): set<SessionId> {
    set i | 0 <= i < |metrics| :: metrics[i].sessionId
  }

  lemma {:induction false} ValuesOfPresentType(metrics: seq<UsageMetric>, t: MetricType)
    ensures Values(metrics, t) != [] <==> t in Types(metrics)
  {
    if metrics != [] {
      var n := |metrics| - 1;
      var front := metrics[..n];
      ValuesOfPresentType(front, t);
      assert forall i :: 0 <= i < n ==> front[i] == metrics[i];
      assert Types(metrics) == Types(front) + {metrics[n].metricType};
    }
  }

  /** The per-type part of the summary of raw metrics. */
  function MetricsOf(metrics: seq<UsageMetric>): map<MetricType, AggregatedMetric> {
    map t | t in Types(metrics) :: (ValuesOfPresentType(metrics, t); Aggregate(Values(metrics, t)))
  }

  /** What a type comes to, metric by metric. */
  function SumOf(metrics: seq<UsageMetric>, t: MetricType): real {
    if metrics == [] then 0.0
    else
      var m := metrics[|metrics| - 1];
      SumOf(metrics[..|metrics| - 1], t) + if m.metricType == t then m.value else 0.0
  }

  function CountOf(metrics: seq<UsageMetric>, t: MetricType): nat {
    if metrics == [] then 0
    else CountOf(metrics[..|metrics| - 1], t) + if metrics[|metrics| - 1].metricType == t then 1 else 0
  }

  lemma {:induction false} ValuesAddUp(metrics: seq<UsageMetric>, t: MetricType)
    ensures Sum(Values(metrics, t)) == SumOf(metrics, t) && |Values(metrics, t)| == CountOf(metrics, t)
  {
    if metrics != [] {
      var front, m := metrics[..|metrics| - 1], metrics[|metrics| - 1];
      ValuesAddUp(front, t);
      var values := Values(front, t);
      assert (values + [m.value])[..|values|] == values;
      assert values + [] == values;
    }
  }

  lemma {:induction false} ValuesAre(metrics: seq<UsageMetric>, t: MetricType, v: real)
    ensures v in Values(metrics, t) <==> HasValue(metrics, t, v)
  {
    if metrics != [] {
      var n := |metrics| - 1;
      var front := metrics[..n];
      ValuesAre(front, t, v);
      assert forall i :: 0 <= i < n ==> front[i] == metrics[i];
    }
  }

  lemma MetricsOfEntry(metrics: seq<UsageMetric>, t: MetricType)
    ensures t in MetricsOf(metrics) <==> Values(metrics, t) != []
    ensures t in MetricsOf(metrics) ==> MetricsOf(metrics)[t] == Aggregate(Values(metrics, t))
  {
    ValuesOfPresentType(metrics, t);
  }

  /** The entry of a type sums, counts and averages the metrics of that type and no others. */
  lemma MetricsOfSums(metrics: seq<UsageMetric>, t: MetricType)
    ensures t in MetricsOf(metrics) <==> CountOf(metrics, t) > 0
    ensures t in MetricsOf(metrics) ==>
              IsMeanOf(MetricsOf(metrics)[t], SumOf(metrics, t), CountOf(metrics, t))
  {
    MetricsOfEntry(metrics, t);
    ValuesAddUp(metrics, t);
    if t in MetricsOf(metrics) {
      AggregateAdds(Values(metrics, t));
    }
  }

  ghost predicate IsMeanOf(a: AggregatedMetric, total: real, count: nat) {
    a.total == total && a.count == count && a.average * a.count as real == a.total
  }

  ghost predicate HasValue(metrics: seq<UsageMetric>, t: MetricType, v: real) {
    exists i :: 0 <= i < |metrics| && metrics[i].metricType == t && metrics[i].value == v
  }

  /** And its bounds are the least and the greatest of their values. */
  lemma MetricsOfBounds(metrics: seq<UsageMetric>, t: MetricType)
    requires t in MetricsOf(metrics)
    ensures HasValue(metrics, t, MetricsOf(metrics)[t].minimum) && HasValue(metrics, t, MetricsOf(metrics)[t].maximum)
    ensures forall v :: HasValue(metrics, t, v) ==> MetricsOf(metrics)[t].minimum <= v <= MetricsOf(metrics)[t].maximum
  {
    ValuesOfPresentType(metrics, t);
    var values := Values(metrics, t);
    AggregateBounds(values);
    ValuesAre(metrics, t, Aggregate(values).minimum);
    ValuesAre(metrics, t, Aggregate(values).maximum);
    forall v | HasValue(metrics, t, v)
      ensures Aggregate(values).minimum <= v <= Aggregate(values).maximum
    {
      ValuesAre(metrics, t, v);
    }
  }

  function MergeMetrics(a: map<MetricType, AggregatedMetric>, b: map<MetricType, AggregatedMetric>)
    : map<MetricType, AggregatedMetric>
  {
    map t | t in a.Keys + b.Keys ::
      if t in a && t in b then MergeMetric(a[t], b[t]) else if t in a then a[t] else b[t]
  }

  // --------------------------------------------------------- merging is aggregating

  lemma {:induction false} ValuesAppend(xs: seq<UsageMetric>, ys: seq<UsageMetric>, t: MetricType)
    ensures Values(xs + ys, t) == Values(xs, t) + Values(ys, t)
  {
    if ys == [] {
      assert xs + ys == xs;
    } else {
      var front := ys[..|ys| - 1];
      assert (xs + ys)[..|xs + ys| - 1] == xs + front;
      ValuesAppend(xs, front, t);
    }
  }

  lemma TypesAppend(xs: seq<UsageMetric>, ys: seq<UsageMetric>)
    ensures Types(xs + ys) == Types(xs) + Types(ys)
    ensures Sessions(xs + ys) == Sessions(xs) + Sessions(ys)
  {
    var zs := xs + ys;
    assert forall i :: 0 <= i < |xs| ==> zs[i] == xs[i];
    assert forall i :: 0 <= i < |ys| ==> zs[|xs| + i] == ys[i];
  }

  lemma Singleton(m: UsageMetric)
    ensures Types([m]) == {m.metricType} && Sessions([m]) == {m.sessionId}
  {
    assert [m][0].metricType in Types([m]) && [m][0].sessionId in Sessions([m]);
  }

  /** One entry of the summary of the whole, from the values of the two parts. */
  lemma EntryOfWhole(xs: seq<UsageMetric>, ys: seq<UsageMetric>, t: MetricType)
    requires t in Types(xs + ys)
    ensures t in Types(xs) + Types(ys)
    ensures MetricsOf(xs + ys)[t] ==
              if t in Types(xs) && t in Types(ys) then MergeMetric(MetricsOf(xs)[t], MetricsOf(ys)[t])
              else if t in Types(xs) then MetricsOf(xs)[t] else MetricsOf(ys)[t]
  {
    TypesAppend(xs, ys);
    ValuesAppend(xs, ys, t);
    ValuesOfPresentType(xs, t);
    ValuesOfPresentType(ys, t);
    var v, w := Values(xs, t), Values(ys, t);
    if v == [] {
      assert v + w == w;
    } else if w == [] {
      assert v + w == v;
    } else {
      AggregateAppend(v, w);
    }
  }

  /** Merging the summaries of two parts is summarizing the whole. */
  lemma MergeIsAggregation(xs: seq<UsageMetric>, ys: seq<UsageMetric>)
    ensures MetricsOf(xs + ys) == MergeMetrics(MetricsOf(xs), MetricsOf(ys))
  {
    TypesAppend(xs, ys);
    var whole, merged := MetricsOf(xs + ys), MergeMetrics(MetricsOf(xs), MetricsOf(ys));
    assert whole.Keys == merged.Keys;
    forall t | t in whole
      ensures whole[t] == merged[t]
    {
      EntryOfWhole(xs, ys, t);
    }
  }

  /** Whatever the two records hold, they merge to the sums of totals and counts, and the wider bounds. */
  lemma MergedEntry(a: map<MetricType, AggregatedMetric>, b: map<MetricType, AggregatedMetric>, t: MetricType)
    ensures t in MergeMetrics(a, b) <==> t in a || t in b
    ensures t in a && t !in b ==> MergeMetrics(a, b)[t] == a[t]
    ensures t in b && t !in a ==> MergeMetrics(a, b)[t] == b[t]
    ensures t in a && t in b ==>
              var m := MergeMetrics(a, b)[t];
              && m.total == a[t].total + b[t].total && m.count == a[t].count + b[t].count
              && (if m.count > 0 then m.average * m.count as real == m.total else m.average == 0.0)
              && a[t].maximum <= m.maximum && b[t].maximum <= m.maximum
              && (m.maximum == a[t].maximum || m.maximum == b[t].maximum)
              && m.minimum <= a[t].minimum && m.minimum <= b[t].minimum
              && (m.minimum == a[t].minimum || m.minimum == b[t].minimum)
  {
    if t in a && t in b && a[t].count + b[t].count > 0 {
      AverageTimesCount(a[t].total + b[t].total, a[t].count + b[t].count);
    }
  }

  lemma MergeCommutes(a: map<MetricType, AggregatedMetric>, b: map<MetricType, AggregatedMetric>)
    ensures MergeMetrics(a, b) == MergeMetrics(b, a)
  {
  }

  /** Only which metrics there are matters, never their order. */
  lemma {:induction false} OrderIsIrrelevant(xs: seq<UsageMetric>, ys: seq<UsageMetric>)
    requires multiset(xs) == multiset(ys)
    ensures MetricsOf(xs) == MetricsOf(ys)
    ensures Sessions(xs) == Sessions(ys)
    decreases |xs|
  {
    if xs == [] {
      Bags.OnlyEmptyIsEmpty(ys);
    } else {
      var front, x := xs[..|xs| - 1], xs[|xs| - 1];
      var i := Bags.LastHasAPlace(xs, ys);
      var a, b := ys[..i], ys[i + 1..];
      assert xs == front + [x] && ys == (a + [x]) + b;
      OrderIsIrrelevant(front, a + b);
      MoveToFront(x, a, b);
      MergeIsAggregation([x], a + b);
      MergeIsAggregation(front, [x]);
      MergeCommutes(MetricsOf(front), MetricsOf([x]));
      TypesAppend(front, [x]);
      TypesAppend([x], a + b);
    }
  }

  lemma MoveToFront(x: UsageMetric, a: seq<UsageMetric>, b: seq<UsageMetric>)
    ensures MetricsOf((a + [x]) + b) == MetricsOf([x] + (a + b))
    ensures Sessions((a + [x]) + b) == Sessions([x] + (a + b))
  {
    MergeIsAggregation(a + [x], b);
    MergeIsAggregation(a, [x]);
    MergeCommutes(MetricsOf(a), MetricsOf([x]));
    MergeIsAggregation([x], a);
    MergeIsAggregation([x] + a, b);
    assert ([x] + a) + b == [x] + (a + b);
    TypesAppend(a + [x], b);
    TypesAppend(a, [x]);
    TypesAppend([x], a);
    TypesAppend([x] + a, b);
  }

  // ------------------------------------------------------------- any merge order at all

  /** Some way of splitting the metrics into parts and merging their summaries pairwise. */
  datatype MergeTree = Part(metrics: seq<UsageMetric>) | Merge(left: MergeTree, right: MergeTree)

  function Flatten(tree: MergeTree): seq<UsageMetric> {
    match tree
    case Part(metrics) => metrics
    case Merge(left, right) => Flatten(left) + Flatten(right)
  }

  function FoldMetrics(tree: MergeTree): map<MetricType, AggregatedMetric> {
    match tree
    case Part(metrics) => MetricsOf(metrics)
    case Merge(left, right) => MergeMetrics(FoldMetrics(left), FoldMetrics(right))
  }

  function FoldSessions(tree: MergeTree): nat {
    match tree
    case Part(metrics) => |Sessions(metrics)|
    case Merge(left, right) => FoldSessions(left) + FoldSessions(right)
  }

  ghost predicate SessionsDisjoint(tree: MergeTree) {
    match tree
    case Part(_) => true
    case Merge(left, right) =>
      SessionsDisjoint(left) && SessionsDisjoint(right) && Sessions(Flatten(left)) * Sessions(Flatten(right)) == {}
  }

  lemma {:induction false} FoldIsAggregation(tree: MergeTree)
    ensures FoldMetrics(tree) == MetricsOf(Flatten(tree))
  {
    match tree
    case Part(_) =>
    case Merge(left, right) =>
      FoldIsAggregation(left);
      FoldIsAggregation(right);
      MergeIsAggregation(Flatten(left), Flatten(right));
  }

  /** Whatever the split and whatever the order of merging, the result is the summary of all the metrics. */
  lemma AnyMergeOrderAgrees(tree: MergeTree, metrics: seq<UsageMetric>)
    requires multiset(Flatten(tree)) == multiset(metrics)
    ensures FoldMetrics(tree) == MetricsOf(metrics)
  {
    FoldIsAggregation(tree);
    OrderIsIrrelevant(Flatten(tree), metrics);
  }

  /** Two parts over-count the sessions by exactly those they share. */
  lemma SessionOvercount(xs: seq<UsageMetric>, ys: seq<UsageMetric>)
    ensures |Sessions(xs)| + |Sessions(ys)| == |Sessions(xs + ys)| + |Sessions(xs) * Sessions(ys)|
  {
    TypesAppend(xs, ys);
  }

  /** Session counts never fall short, and are right exactly when no two merged parts share a session. */
  lemma {:induction false} SessionsRightIffDisjoint(tree: MergeTree)
    ensures |Sessions(Flatten(tree))| <= FoldSessions(tree)
    ensures |Sessions(Flatten(tree))| == FoldSessions(tree) <==> SessionsDisjoint(tree)
  {
    match tree
    case Part(_) =>
    case Merge(left, right) =>
      SessionsRightIffDisjoint(left);
      SessionsRightIffDisjoint(right);
      SessionOvercount(Flatten(left), Flatten(right));
      var shared := Sessions(Flatten(left)) * Sessions(Flatten(right));
      assert |shared| == 0 <==> shared == {};
  }

  // ------------------------------------------------------------------ the operations

  /** The merge of a list of summaries, from the first to the last. */
  function MergeAll(parts: seq<map<MetricType, AggregatedMetric>>): map<MetricType, AggregatedMetric> {
    if parts == [] then map[] else MergeMetrics(MergeAll(parts[..|parts| - 1]), parts[|parts| - 1])
  }

  function Concat(parts: seq<seq<UsageMetric>>): seq<UsageMetric> {
    if parts == [] then [] else Concat(parts[..|parts| - 1]) + parts[|parts| - 1]
  }

  /** Merging the stored summaries of any parts of the metrics is aggregating the metrics afresh. */
  lemma {:induction false} ListMergeIsAggregation(parts: seq<seq<UsageMetric>>,
                                                  stored: seq<map<MetricType, AggregatedMetric>>)
    requires |stored| == |parts| && forall i :: 0 <= i < |parts| ==> stored[i] == MetricsOf(parts[i])
    ensures MergeAll(stored) == MetricsOf(Concat(parts))
  {
    if parts != [] {
      var n := |parts| - 1;
      ListMergeIsAggregation(parts[..n], stored[..n]);
      MergeIsAggregation(Concat(parts[..n]), parts[n]);
    }
  }

  /** Groups raw metrics by type in one pass and aggregates each group. */
  method AggregateMetricsForPeriod(userId: UserId, startTime: int, endTime: int, metrics: seq<UsageMetric>)
    returns (summary: UsageSummary)
    ensures summary == UsageSummary(userId, startTime, endTime, MetricsOf(metrics), |Sessions(metrics)|)
    ensures summary.sessionCount == |set i | 0 <= i < |metrics| :: metrics[i].sessionId|
  {
    var groups: map<MetricType, seq<real>> := map[];
    var sessionIds: set<SessionId> := {};
    for i := 0 to |metrics|
      invariant groups.Keys == Types(metrics[..i])
      invariant forall t :: t in groups ==> groups[t] == Values(metrics[..i], t)
      invariant sessionIds == Sessions(metrics[..i])
    {
      var metric := metrics[i];
      assert metrics[..i + 1] == metrics[..i] + [metric];
      TypesAppend(metrics[..i], [metric]);
      Singleton(metric);
      ValuesOfPresentType(metrics[..i], metric.metricType);
      sessionIds := sessionIds + {metric.sessionId};
      var group := if metric.metricType in groups then groups[metric.metricType] else [];
      groups := groups[metric.metricType := group + [metric.value]];
    }
    assert metrics[..|metrics|] == metrics;
    var aggregated := AggregateGroups(groups);
    forall t | t in groups
      ensures groups[t] != []
    {
      ValuesOfPresentType(metrics, t);
    }
    assert aggregated == MetricsOf(metrics);
    summary := UsageSummary(userId, startTime, endTime, aggregated, |sessionIds|);
  }

  /** One entry per non-empty group, whatever order the groups come in. */
  method AggregateGroups(groups: map<MetricType, seq<real>>) returns (aggregated: map<MetricType, AggregatedMetric>)
    ensures aggregated == map t | t in groups && groups[t] != [] :: Aggregate(groups[t])
  {
    aggregated := map[];
    var pending := groups.Keys;
    while pending != {}
      invariant pending <= groups.Keys
      invariant aggregated == map t | t in groups && t !in pending && groups[t] != [] :: Aggregate(groups[t])
      decreases pending
    {
      var t :| t in pending;
      pending := pending - {t};
      if groups[t] != [] {
        aggregated := aggregated[t := Aggregate(groups[t])];
      }
    }
  }

  /** Folds one summary's entries into an accumulated map, in whatever order they come. */
  method MergeInto(merged: map<MetricType, AggregatedMetric>, metrics: map<MetricType, AggregatedMetric>)
    returns (result: map<MetricType, AggregatedMetric>)
    ensures result == MergeMetrics(merged, metrics)
  {
    result := merged;
    var pending := metrics.Keys;
    while pending != {}
      invariant pending <= metrics.Keys
      invariant result.Keys == merged.Keys + (metrics.Keys - pending)
      invariant forall t :: t in result && t in metrics && t !in pending ==>
                  result[t] == MergeMetrics(merged, metrics)[t]
      invariant forall t :: t in result && (t !in metrics || t in pending) ==> result[t] == merged[t]
      decreases pending
    {
      var t :| t in pending;
      pending := pending - {t};
      if t in result {
        var existing, metric := result[t], metrics[t];
        existing := existing.(total := existing.total + metric.total, count := existing.count + metric.count);
        existing := existing.(average := if existing.count > 0 then existing.total / existing.count as real else 0.0);
        existing := existing.(maximum := Greater(existing.maximum, metric.maximum),
                              minimum := Lesser(existing.minimum, metric.minimum));
        result := result[t := existing];
      } else {
        result := result[t := metrics[t]];
      }
    }
    assert result.Keys == MergeMetrics(merged, metrics).Keys;
  }

  function TotalSessions(summaries: seq<UsageSummary>): nat {
    if summaries == [] then 0
    else TotalSessions(summaries[..|summaries| - 1]) + summaries[|summaries| - 1].sessionCount
  }

  /** The session count of merged summaries is the sum of theirs, however the list is cut. */
  lemma {:induction false} TotalSessionsAdd(xs: seq<UsageSummary>, ys: seq<UsageSummary>)
    ensures TotalSessions(xs + ys) == TotalSessions(xs) + TotalSessions(ys)
    ensures |xs| == 1 ==> TotalSessions(xs) == xs[0].sessionCount
  {
    if ys == [] {
      assert xs + ys == xs;
      assert |xs| == 1 ==> xs[..0] == [];
    } else {
      assert (xs + ys)[..|xs + ys| - 1] == xs + ys[..|ys| - 1];
      TotalSessionsAdd(xs, ys[..|ys| - 1]);
    }
  }

  function MetricMaps(summaries: seq<UsageSummary>): (maps: seq<map<MetricType, AggregatedMetric>>)
    ensures |maps| == |summaries| && forall i :: 0 <= i < |summaries| ==> maps[i] == summaries[i].metrics
  {
    seq(|summaries|, i requires 0 <= i < |summaries| => summaries[i].metrics)
  }

  /** Merges a user's stored summaries; `fallback` stands for the empty summary made when there are none. */
  method MergeSummaries(summaries: seq<UsageSummary>, fallback: UsageSummary) returns (summary: UsageSummary)
    ensures summaries == [] ==> summary == fallback
    ensures summaries != [] ==>
              && summary.userId == summaries[0].userId
              && summary.metrics == MergeAll(MetricMaps(summaries))
              && summary.sessionCount == TotalSessions(summaries)
              && (forall i :: 0 <= i < |summaries| ==>
                    summary.startTime <= summaries[i].startTime && summaries[i].endTime <= summary.endTime)
              && (exists i :: 0 <= i < |summaries| && summaries[i].startTime == summary.startTime)
              && (exists i :: 0 <= i < |summaries| && summaries[i].endTime == summary.endTime)
  {
    if |summaries| == 0 {
      return fallback;
    }
    if |summaries| == 1 {
      MergeOfOne(summaries);
      return summaries[0];
    }
    var merged: map<MetricType, AggregatedMetric> := map[];
    var sessions, startTime, endTime := 0, summaries[0].startTime, summaries[0].endTime;
    ghost var first, last := 0, 0;
    for i := 0 to |summaries|
      invariant merged == MergeAll(MetricMaps(summaries)[..i])
      invariant sessions == TotalSessions(summaries[..i])
      invariant forall j :: 0 <= j < i ==> startTime <= summaries[j].startTime && summaries[j].endTime <= endTime
      invariant 0 <= first < |summaries| && summaries[first].startTime == startTime
      invariant 0 <= last < |summaries| && summaries[last].endTime == endTime
    {
      assert summaries[..i + 1][..i] == summaries[..i];
      assert MetricMaps(summaries)[..i + 1][..i] == MetricMaps(summaries)[..i];
      sessions := sessions + summaries[i].sessionCount;
      if summaries[i].startTime < startTime {
        startTime, first := summaries[i].startTime, i;
      }
      if summaries[i].endTime > endTime {
        endTime, last := summaries[i].endTime, i;
      }
      merged := MergeInto(merged, summaries[i].metrics);
    }
    assert summaries[..|summaries|] == summaries;
    assert MetricMaps(summaries)[..|summaries|] == MetricMaps(summaries);
    summary := UsageSummary(summaries[0].userId, startTime, endTime, merged, sessions);
  }

  lemma MergeOfOne(summaries: seq<UsageSummary>)
    requires |summaries| == 1
    ensures MergeAll(MetricMaps(summaries)) == summaries[0].metrics
    ensures TotalSessions(summaries) == summaries[0].sessionCount
  {
    var maps := MetricMaps(summaries);
    assert MergeAll(maps[..0]) == map[];
    assert MergeMetrics(map[], maps[0]) == maps[0];
  }

  /** Some entry present on both sides has no samples at all, so its average is a division by zero. */
  predicate DividesByZero(a: map<MetricType, AggregatedMetric>, b: map<MetricType, AggregatedMetric>) {
    exists t :: t in a && t in b && a[t].count + b[t].count == 0
  }

  /** What the aggregator makes of raw metrics, and by merging of other such summaries. */
  ghost predicate Aggregated(s: UsageSummary) {
    exists xs :: s.metrics == MetricsOf(xs)
  }

  /** Whatever the other side holds, an aggregation of metrics is never merged with a division by zero. */
  lemma AggregatesNeverDivideByZero(xs: seq<UsageMetric>, stored: map<MetricType, AggregatedMetric>)
    ensures !DividesByZero(stored, MetricsOf(xs)) && !DividesByZero(MetricsOf(xs), stored)
  {
    forall t | t in MetricsOf(xs)
      ensures MetricsOf(xs)[t].count > 0
    {
      ValuesOfPresentType(xs, t);
    }
  }

  lemma AggregatedNeverDividesByZero(s: UsageSummary, stored: map<MetricType, AggregatedMetric>)
    requires Aggregated(s)
    ensures !DividesByZero(stored, s.metrics) && !DividesByZero(s.metrics, stored)
  {
    var xs :| s.metrics == MetricsOf(xs);
    AggregatesNeverDivideByZero(xs, stored);
  }

  function Earlier(a: int, b: int): int {
    if a < b then a else b
  }

  function Later(a: int, b: int): int {
    if a > b then a else b
  }

  /** Merges what is live with what is stored, when there is both; `None` is the division by zero. */
  method MergeActiveAndStored(active: Option<UsageSummary>, stored: Option<UsageSummary>, fallback: UsageSummary)
    returns (r: Option<UsageSummary>)
    ensures active == None && stored == None ==> r == Some(fallback)
    ensures active == None && stored.Some? ==> r == stored
    ensures active.Some? && stored == None ==> r == active
    ensures active.Some? && stored.Some? ==>
              r == if DividesByZero(stored.value.metrics, active.value.metrics) then None
                   else Some(UsageSummary(
                     active.value.userId,
                     Earlier(active.value.startTime, stored.value.startTime),
                     Later(active.value.endTime, stored.value.endTime),
                     MergeMetrics(stored.value.metrics, active.value.metrics),
                     stored.value.sessionCount + active.value.sessionCount))
    ensures active.Some? && stored.Some? && r.Some? ==>
              && r.value.startTime <= active.value.startTime && r.value.startTime <= stored.value.startTime
              && (r.value.startTime == active.value.startTime || r.value.startTime == stored.value.startTime)
              && active.value.endTime <= r.value.endTime && stored.value.endTime <= r.value.endTime
              && (r.value.endTime == active.value.endTime || r.value.endTime == stored.value.endTime)
    ensures r == None ==> !Aggregated(active.value) && !Aggregated(stored.value)
  {
    match (active, stored)
    case (Some(a), Some(s)) =>
      if DividesByZero(s.metrics, a.metrics) {
        if Aggregated(a) { AggregatedNeverDividesByZero(a, s.metrics); }
        if Aggregated(s) { AggregatedNeverDividesByZero(s, a.metrics); }
        return None;
      }
      var merged := MergeInto(s.metrics, a.metrics);
      r := Some(UsageSummary(
        a.userId,
        Earlier(a.startTime, s.startTime),
        Later(a.endTime, s.endTime),
        merged,
        s.sessionCount + a.sessionCount));
    case (Some(a), None) => r := active;
    case (None, Some(s)) => r := stored;
    case (None, None) => r := Some(fallback);
  }
}
