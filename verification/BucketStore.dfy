/**
 Hourly buckets in memory, flushed into a keyed store. The class keeps, beside
 its real fields, the raw metrics behind each bucket and each stored summary,
 so that one can say what a flush keeps and what it loses.
 */
module BucketStore {
  import opened Prelude
  import opened BillingModels
  import opened HourRounding
  import Bags
  import UA = UsageAggregation

  // ------------------------------------------------------------------------ buckets

  datatype Key = Key(userId: UserId, hour: int)

  function BucketKey(userId: UserId, timestamp: int): Key {
    Key(userId, RoundHour(timestamp))
  }

  /** The same routing without a remainder: the window of a whole hour. */
  ghost predicate Routes(m: UsageMetric, k: Key) {
    && k.userId == m.userId
    && (exists n: int :: IsHour(k.hour, n))
    && k.hour - HALF_HOUR <= m.timestamp < k.hour + HALF_HOUR
  }

  lemma RoutesIsRounding(m: UsageMetric, k: Key)
    ensures Routes(m, k) <==> k == BucketKey(m.userId, m.timestamp)
  {
    var n := RoundHourIndex(m.timestamp);
    if Routes(m, k) {
      var i: int :| IsHour(k.hour, i);
      OneHourWindow(m.timestamp, n, i);
    }
  }

  datatype Bucket = Bucket(
    userId: UserId,
    startTime: int,
    endTime: int,
    metrics: map<MetricType, seq<real>>,
    sessions: set<SessionId>)

  function NewBucket(userId: UserId, startTime: int): Bucket {
    Bucket(userId, startTime, startTime + HOUR, map[], {})
  }

  function AddToBucket(b: Bucket, m: UsageMetric): Bucket {
    var values := if m.metricType in b.metrics then b.metrics[m.metricType] else [];
    b.(metrics := b.metrics[m.metricType := values + [m.value]], sessions := b.sessions + {m.sessionId})
  }

  function ToUsageSummary(b: Bucket): UsageSummary {
    UsageSummary(b.userId, b.startTime, b.endTime,
                 map t | t in b.metrics && b.metrics[t] != [] :: UA.Aggregate(b.metrics[t]),
                 |b.sessions|)
  }

  /** The bucket of `k` after taking in `raw`, in order. */
  ghost predicate Buckets(b: Bucket, k: Key, raw: seq<UsageMetric>) {
    && b.userId == k.userId && b.startTime == k.hour && b.endTime == k.hour + HOUR
    && b.metrics.Keys == UA.Types(raw)
    && (forall t :: t in b.metrics ==> b.metrics[t] == UA.Values(raw, t))
    && b.sessions == UA.Sessions(raw)
  }

  ghost function SummaryOf(k: Key, raw: seq<UsageMetric>): UsageSummary {
    UsageSummary(k.userId, k.hour, k.hour + HOUR, UA.MetricsOf(raw), |UA.Sessions(raw)|)
  }

  lemma EmptyBucket(k: Key)
    ensures Buckets(NewBucket(k.userId, k.hour), k, [])
  {
  }

  lemma BucketTakes(b: Bucket, k: Key, raw: seq<UsageMetric>, m: UsageMetric)
    requires Buckets(b, k, raw)
    ensures Buckets(AddToBucket(b, m), k, raw + [m])
  {
    UA.TypesAppend(raw, [m]);
    UA.Singleton(m);
    UA.ValuesOfPresentType(raw, m.metricType);
    assert (raw + [m])[..|raw|] == raw;
  }

  /** A bucket's summary is the aggregation of the raw metrics it took in. */
  lemma BucketSummary(b: Bucket, k: Key, raw: seq<UsageMetric>)
    requires Buckets(b, k, raw)
    ensures ToUsageSummary(b) == SummaryOf(k, raw)
  {
    forall t | t in b.metrics
      ensures b.metrics[t] != []
    {
      UA.ValuesOfPresentType(raw, t);
    }
    assert ToUsageSummary(b).metrics == UA.MetricsOf(raw);
  }

  // ------------------------------------------------------------------- the aggregator

  /** What has become of the metrics of one key. */
  datatype Account = Account(
    added: seq<UsageMetric>,    // everything ever added
    live: seq<UsageMetric>,     // in the bucket
    kept: seq<UsageMetric>,     // behind the stored summary
    lost: seq<UsageMetric>,     // overwritten, or in a flush whose store failed
    flushes: seq<bool>)         // the flushes so far, true where the store succeeded

  const NOTHING := Account([], [], [], [], [])

  function AccountAdd(a: Account, m: UsageMetric): Account {
    a.(added := a.added + [m], live := a.live + [m])
  }

  /** A successful store replaces whatever was stored under the key. */
  function AccountFlush(a: Account, stored: bool): Account {
    if stored then Account(a.added, [], a.live, a.lost + a.kept, a.flushes + [true])
    else Account(a.added, [], a.kept, a.lost + a.live, a.flushes + [false])
  }

  /** Nothing is in two places or in none, and losses are exactly failed and repeated flushes. */
  ghost predicate Balanced(a: Account) {
    && multiset(a.added) == multiset(a.live) + multiset(a.kept) + multiset(a.lost)
    && (a.lost == [] <==> a.flushes == [] || a.flushes == [true])
    && (a.kept == [] <==> true !in a.flushes)
  }

  lemma AddKeepsBalance(a: Account, m: UsageMetric)
    requires Balanced(a)
    ensures Balanced(AccountAdd(a, m))
  {
  }

  lemma FlushKeepsBalance(a: Account, stored: bool)
    requires Balanced(a) && a.live != []
    ensures Balanced(AccountFlush(a, stored))
  {
    assert true in a.flushes + [true];
    if a.flushes != [] {
      assert |a.flushes + [stored]| >= 2;
      assert a.flushes == [false] ==> a.lost != [];
    }
  }

  /**
   Conservation: the stored and the live summary of a key together are the summary of
   everything ever added to it when no flush of the key failed or came second; and if
   one did, metrics are missing.
   */
  lemma ConservedIffFlushedOnce(a: Account)
    requires Balanced(a)
    ensures |a.kept| + |a.live| == |a.added| <==> a.flushes == [] || a.flushes == [true]
    ensures (a.flushes == [] || a.flushes == [true]) ==>
              UA.MergeMetrics(UA.MetricsOf(a.kept), UA.MetricsOf(a.live)) == UA.MetricsOf(a.added)
  {
    assert |multiset(a.added)| == |multiset(a.live)| + |multiset(a.kept)| + |multiset(a.lost)|;
    if a.lost == [] {
      assert multiset(a.kept + a.live) == multiset(a.added);
      UA.OrderIsIrrelevant(a.kept + a.live, a.added);
      UA.MergeIsAggregation(a.kept, a.live);
    }
  }

  /** What a summary says about one type; a type it does not list has no samples. */
  function TotalIn(metrics: map<MetricType, AggregatedMetric>, t: MetricType): real {
    if t in metrics then metrics[t].total else 0.0
  }

  function CountIn(metrics: map<MetricType, AggregatedMetric>, t: MetricType): nat {
    if t in metrics then metrics[t].count else 0
  }

  lemma TotalsAdd(xs: seq<UsageMetric>, ys: seq<UsageMetric>, t: MetricType)
    ensures TotalIn(UA.MetricsOf(xs + ys), t) == TotalIn(UA.MetricsOf(xs), t) + TotalIn(UA.MetricsOf(ys), t)
    ensures CountIn(UA.MetricsOf(xs + ys), t) == CountIn(UA.MetricsOf(xs), t) + CountIn(UA.MetricsOf(ys), t)
  {
    UA.MergeIsAggregation(xs, ys);
  }

  lemma TotalsAreSums(metrics: seq<UsageMetric>, t: MetricType)
    ensures TotalIn(UA.MetricsOf(metrics), t) == UA.SumOf(metrics, t)
    ensures CountIn(UA.MetricsOf(metrics), t) == UA.CountOf(metrics, t)
  {
    UA.MetricsOfSums(metrics, t);
    if UA.CountOf(metrics, t) == 0 {
      UA.ValuesAddUp(metrics, t);
    }
  }

  /**
   For every type the totals of what is stored, live and lost are together the sum of the values
   of that type added, and the counts their number.
   */
  lemma TotalsBalance(a: Account, t: MetricType)
    requires Balanced(a)
    ensures TotalIn(UA.MetricsOf(a.kept), t) + TotalIn(UA.MetricsOf(a.live), t) + TotalIn(UA.MetricsOf(a.lost), t)
         == UA.SumOf(a.added, t)
    ensures CountIn(UA.MetricsOf(a.kept), t) + CountIn(UA.MetricsOf(a.live), t) + CountIn(UA.MetricsOf(a.lost), t)
         == UA.CountOf(a.added, t)
  {
    TotalsAdd(a.kept, a.live, t);
    TotalsAdd(a.kept + a.live, a.lost, t);
    UA.OrderIsIrrelevant(a.kept + a.live + a.lost, a.added);
    TotalsAreSums(a.added, t);
  }

  /** One key: its bucket if it has one, its stored summary if it has one, and its account. */
  ghost predicate KeyValid(k: Key, bucket: Option<Bucket>, summary: Option<UsageSummary>, a: Account) {
    && Balanced(a)
    && (bucket.Some? <==> a.live != [])
    && (bucket.Some? ==> Buckets(bucket.value, k, a.live))
    && (summary.Some? <==> a.kept != [])
    && (summary.Some? ==> summary.value == SummaryOf(k, a.kept))
  }

  /** The bucket of `k` once it has taken `m`, made if there was none. */
  function Taking(bucket: Option<Bucket>, k: Key, m: UsageMetric): Bucket {
    AddToBucket(if bucket.Some? then bucket.value else NewBucket(k.userId, k.hour), m)
  }

  lemma AddKeepsKey(k: Key, bucket: Option<Bucket>, summary: Option<UsageSummary>, a: Account, m: UsageMetric)
    requires KeyValid(k, bucket, summary, a)
    ensures KeyValid(k, Some(Taking(bucket, k, m)), summary, AccountAdd(a, m))
  {
    AddKeepsBalance(a, m);
    EmptyBucket(k);
    BucketTakes(if bucket.Some? then bucket.value else NewBucket(k.userId, k.hour), k, a.live, m);
  }

  lemma FlushKeepsKey(k: Key, bucket: Bucket, summary: Option<UsageSummary>, a: Account, stored: bool)
    requires KeyValid(k, Some(bucket), summary, a)
    ensures KeyValid(k, None, if stored then Some(ToUsageSummary(bucket)) else summary, AccountFlush(a, stored))
  {
    FlushKeepsBalance(a, stored);
    BucketSummary(bucket, k, a.live);
  }

  function Lookup<V>(m: map<Key, V>, k: Key): Option<V> {
    if k in m then Some(m[k]) else None
  }

  ghost function AccountOf(accounts: map<Key, Account>, k: Key): Account {
    if k in accounts then accounts[k] else NOTHING
  }

  /** Every flushed key is booked once, others not at all. */
  ghost function AfterFlush(accounts: map<Key, Account>, flushed: set<Key>, stored: Key -> bool): map<Key, Account> {
    map k | k in accounts.Keys + flushed ::
      if k in flushed then AccountFlush(AccountOf(accounts, k), stored(k)) else accounts[k]
  }

  lemma AfterFlushGrows(accounts: map<Key, Account>, flushed: set<Key>, k: Key, stored: Key -> bool)
    requires k !in flushed
    ensures var before := AfterFlush(accounts, flushed, stored);
            AfterFlush(accounts, flushed + {k}, stored) == before[k := AccountFlush(AccountOf(before, k), stored(k))]
  {
    assert AccountOf(AfterFlush(accounts, flushed, stored), k) == AccountOf(accounts, k);
  }

  /** `held` is every bucket not yet dealt with, whether in the map or already taken out of it. */
  ghost predicate AllValid(held: map<Key, Bucket>, store: map<Key, UsageSummary>, accounts: map<Key, Account>) {
    forall k: Key :: KeyHolds(k, held, store, accounts)
  }

  ghost predicate KeyHolds(k: Key, held: map<Key, Bucket>, store: map<Key, UsageSummary>, accounts: map<Key, Account>) {
    KeyValid(k, Lookup(held, k), Lookup(store, k), AccountOf(accounts, k))
  }

  /** A change that concerns one key only. */
  lemma ChangeKeepsAll(held: map<Key, Bucket>, store: map<Key, UsageSummary>, accounts: map<Key, Account>, key: Key,
                       held': map<Key, Bucket>, store': map<Key, UsageSummary>, accounts': map<Key, Account>)
    requires AllValid(held, store, accounts)
    requires KeyHolds(key, held', store', accounts')
    requires forall k: Key :: k != key ==> Lookup(held', k) == Lookup(held, k)
    requires forall k: Key :: k != key ==> Lookup(store', k) == Lookup(store, k)
    requires forall k: Key :: k != key ==> AccountOf(accounts', k) == AccountOf(accounts, k)
    ensures AllValid(held', store', accounts')
  {
    forall k: Key
      ensures KeyHolds(k, held', store', accounts')
    {
      if k != key {
        assert KeyHolds(k, held, store, accounts);
      }
    }
  }

  function Inserted(held: map<Key, Bucket>, m: UsageMetric, key: Key): map<Key, Bucket> {
    held[key := AddToBucket(if key in held then held[key] else NewBucket(key.userId, key.hour), m)]
  }

  lemma AddHolds(held: map<Key, Bucket>, store: map<Key, UsageSummary>, accounts: map<Key, Account>, m: UsageMetric,
                 key: Key)
    requires KeyHolds(key, held, store, accounts)
    ensures KeyHolds(key, Inserted(held, m, key), store, accounts[key := AccountAdd(AccountOf(accounts, key), m)])
  {
    var a := AccountOf(accounts, key);
    InsertedLookup(held, m, key);
    AddKeepsKey(key, Lookup(held, key), Lookup(store, key), a, m);
    assert AccountOf(accounts[key := AccountAdd(a, m)], key) == AccountAdd(a, m);
  }

  lemma AddKeepsAll(held: map<Key, Bucket>, store: map<Key, UsageSummary>, accounts: map<Key, Account>, m: UsageMetric,
                    key: Key)
    requires AllValid(held, store, accounts)
    ensures AllValid(Inserted(held, m, key), store, accounts[key := AccountAdd(AccountOf(accounts, key), m)])
  {
    var held', accounts' := Inserted(held, m, key), accounts[key := AccountAdd(AccountOf(accounts, key), m)];
    assert KeyHolds(key, held, store, accounts);
    AddHolds(held, store, accounts, m, key);
    InsertedLookup(held, m, key);
    ChangeKeepsAll(held, store, accounts, key, held', store, accounts');
  }

  lemma InsertedLookup(held: map<Key, Bucket>, m: UsageMetric, key: Key)
    ensures Lookup(Inserted(held, m, key), key) == Some(Taking(Lookup(held, key), key, m))
    ensures forall k: Key :: k != key ==> Lookup(Inserted(held, m, key), k) == Lookup(held, k)
  {
  }

  /** The store after the flush of some of the `taken` buckets. */
  ghost function AfterStore(store: map<Key, UsageSummary>, taken: map<Key, Bucket>, flushed: set<Key>,
                            stored: Key -> bool)
    : map<Key, UsageSummary>
    requires flushed <= taken.Keys
  {
    map k | k in store.Keys + flushed && (k in store || stored(k)) ::
      if k in flushed && stored(k) then ToUsageSummary(taken[k]) else store[k]
  }

  lemma AfterStoreGrows(store: map<Key, UsageSummary>, taken: map<Key, Bucket>, flushed: set<Key>, k: Key,
                        stored: Key -> bool)
    requires flushed <= taken.Keys && k in taken && k !in flushed
    ensures var before := AfterStore(store, taken, flushed, stored);
            AfterStore(store, taken, flushed + {k}, stored) ==
            if stored(k) then before[k := ToUsageSummary(taken[k])] else before
  {
  }

  /** The flush of a set of buckets, key by key. */
  lemma FlushSetKeepsAll(held: map<Key, Bucket>, store: map<Key, UsageSummary>, accounts: map<Key, Account>,
                         taken: map<Key, Bucket>, left: map<Key, Bucket>, stored: Key -> bool)
    requires AllValid(held, store, accounts)
    requires taken.Keys !! left.Keys && held == taken + left
    ensures AllValid(left, AfterStore(store, taken, taken.Keys, stored), AfterFlush(accounts, taken.Keys, stored))
  {
    var store', accounts' := AfterStore(store, taken, taken.Keys, stored), AfterFlush(accounts, taken.Keys, stored);
    forall k: Key
      ensures KeyHolds(k, left, store', accounts')
    {
      assert KeyHolds(k, held, store, accounts);
      if k in taken {
        FlushKeepsKey(k, taken[k], Lookup(store, k), AccountOf(accounts, k), stored(k));
        assert Lookup(left, k) == None;
        assert Lookup(store', k) == if stored(k) then Some(ToUsageSummary(taken[k])) else Lookup(store, k);
        assert AccountOf(accounts', k) == AccountFlush(AccountOf(accounts, k), stored(k));
      } else {
        assert Lookup(left, k) == Lookup(held, k) && Lookup(store', k) == Lookup(store, k);
        assert AccountOf(accounts', k) == AccountOf(accounts, k);
      }
    }
  }

  // ---------------------------------------------------------------------- whole runs

  /** What the aggregator is asked to do, with the clock and the fate of the stores. */
  datatype Event =
    | Add(m: UsageMetric, key: Key, now: int)
    | Expire(now: int, stored: Key -> bool)
    | Stop(now: int, stored: Key -> bool)

  function Book(a: Account, k: Key, e: Event): Account {
    match e
    case Add(m, key, _) => if key == k then AccountAdd(a, m) else a
    case Expire(now, stored) => if a.live != [] && now > k.hour + HOUR then AccountFlush(a, stored(k)) else a
    case Stop(_, stored) => if a.live != [] then AccountFlush(a, stored(k)) else a
  }

  /** The account of `k` after a run from an empty aggregator. */
  ghost function AccountAfter(k: Key, events: seq<Event>): Account {
    if events == [] then NOTHING else Book(AccountAfter(k, events[..|events| - 1]), k, events[|events| - 1])
  }

  /** Every metric of the run that belongs to `k`, in order. */
  ghost function AddedTo(k: Key, events: seq<Event>): seq<UsageMetric> {
    if events == [] then []
    else
      var e := events[|events| - 1];
      AddedTo(k, events[..|events| - 1]) + if e.Add? && e.key == k then [e.m] else []
  }

  lemma {:induction false} RunBalances(k: Key, events: seq<Event>)
    ensures Balanced(AccountAfter(k, events)) && AccountAfter(k, events).added == AddedTo(k, events)
  {
    if events != [] {
      var a, e := AccountAfter(k, events[..|events| - 1]), events[|events| - 1];
      RunBalances(k, events[..|events| - 1]);
      if e.Add? {
        AddKeepsBalance(a, e.m);
      } else if a.live != [] {
        FlushKeepsBalance(a, e.stored(k));
      }
    }
  }

  /**
   Metrics go where they belong, the clock never runs back, no metric is added over half
   an hour after its timestamp, and nothing follows a stop.
   */
  ghost predicate Punctual(events: seq<Event>) {
    events != [] ==>
      var front, e := events[..|events| - 1], events[|events| - 1];
      && Punctual(front)
      && (front != [] ==> front[|front| - 1].now <= e.now && !front[|front| - 1].Stop?)
      && (e.Add? ==> Routes(e.m, e.key) && e.now - e.m.timestamp <= HALF_HOUR)
  }

  /** Then a bucket that was flushed is never opened again. */
  lemma {:induction false} PunctualFlushesOnce(k: Key, events: seq<Event>)
    requires Punctual(events)
    ensures var a := AccountAfter(k, events);
            && |a.flushes| <= 1
            && (a.flushes != [] ==> a.live == [])
            && (a.flushes != [] && !events[|events| - 1].Stop? ==> events[|events| - 1].now > k.hour + HOUR)
  {
    if events != [] {
      var front, e := events[..|events| - 1], events[|events| - 1];
      PunctualFlushesOnce(k, front);
    }
  }

  ghost predicate StoresSucceed(k: Key, events: seq<Event>) {
    forall i :: 0 <= i < |events| && !events[i].Add? ==> events[i].stored(k)
  }

  lemma {:induction false} FlushesSucceed(k: Key, events: seq<Event>)
    requires StoresSucceed(k, events)
    ensures false !in AccountAfter(k, events).flushes
  {
    if events != [] {
      assert StoresSucceed(k, events[..|events| - 1]);
      FlushesSucceed(k, events[..|events| - 1]);
    }
  }

  /**
   Over every punctual run whose stores succeed, what is stored for an hour merged with
   what is live for it is the summary of every metric of that hour ever added.
   */
  lemma PunctualRunsConserve(k: Key, events: seq<Event>)
    requires Punctual(events) && StoresSucceed(k, events)
    ensures var a := AccountAfter(k, events);
            UA.MergeMetrics(UA.MetricsOf(a.kept), UA.MetricsOf(a.live)) == UA.MetricsOf(AddedTo(k, events))
  {
    var a := AccountAfter(k, events);
    RunBalances(k, events);
    PunctualFlushesOnce(k, events);
    FlushesSucceed(k, events);
    if a.flushes != [] {
      assert a.flushes[0] in a.flushes;
      assert a.flushes == [a.flushes[0]];
    }
    ConservedIffFlushedOnce(a);
  }

  /** The accounts are those of the run so far. */
  ghost predicate Traced(accounts: map<Key, Account>, events: seq<Event>) {
    forall k: Key :: AccountOf(accounts, k) == AccountAfter(k, events)
  }

  lemma TracedSnoc(accounts: map<Key, Account>, accounts': map<Key, Account>, events: seq<Event>, e: Event)
    requires Traced(accounts, events)
    requires forall k: Key :: AccountOf(accounts', k) == Book(AccountOf(accounts, k), k, e)
    ensures Traced(accounts', events + [e])
  {
    assert (events + [e])[..|events|] == events;
  }

  lemma AddIsBooked(accounts: map<Key, Account>, events: seq<Event>, m: UsageMetric, key: Key, now: int)
    requires Traced(accounts, events)
    ensures Traced(accounts[key := AccountAdd(AccountOf(accounts, key), m)], events + [Add(m, key, now)])
  {
    TracedSnoc(accounts, accounts[key := AccountAdd(AccountOf(accounts, key), m)], events, Add(m, key, now));
  }

  /** The state after an addition, which is as sound as the one before. */
  lemma Admit(held: map<Key, Bucket>, store: map<Key, UsageSummary>, accounts: map<Key, Account>, events: seq<Event>,
              m: UsageMetric, key: Key, now: int)
    returns (held': map<Key, Bucket>, accounts': map<Key, Account>, events': seq<Event>)
    requires AllValid(held, store, accounts) && Traced(accounts, events)
    ensures held' == Inserted(held, m, key)
    ensures accounts' == accounts[key := AccountAdd(AccountOf(accounts, key), m)]
    ensures events' == events + [Add(m, key, now)]
    ensures AllValid(held', store, accounts') && Traced(accounts', events')
  {
    AddKeepsAll(held, store, accounts, m, key);
    AddIsBooked(accounts, events, m, key, now);
    held', events' := Inserted(held, m, key), events + [Add(m, key, now)];
    accounts' := accounts[key := AccountAdd(AccountOf(accounts, key), m)];
  }

  /** A flush of the right buckets books what `Book` says, for every key. */
  lemma FlushIsBooked(held: map<Key, Bucket>, store: map<Key, UsageSummary>, accounts: map<Key, Account>,
                      flushed: set<Key>, e: Event)
    requires AllValid(held, store, accounts)
    requires !e.Add?
    requires flushed == set k | k in held && (e.Expire? ==> e.now > held[k].endTime)
    ensures forall k: Key :: AccountOf(AfterFlush(accounts, flushed, e.stored), k) == Book(AccountOf(accounts, k), k, e)
  {
    forall k: Key
      ensures AccountOf(AfterFlush(accounts, flushed, e.stored), k) == Book(AccountOf(accounts, k), k, e)
    {
      assert KeyHolds(k, held, store, accounts);
    }
  }

  /** The live metrics of one bucket, if it is the user's and overlaps the range. */
  ghost function LiveOf(accounts: map<Key, Account>, k: Key, userId: UserId, startTime: int, endTime: int)
    : seq<UsageMetric>
  {
    if k.userId == userId && k.hour < endTime && k.hour + HOUR > startTime then AccountOf(accounts, k).live else []
  }

  /** A metric is among them exactly when it is live in a bucket of the user that overlaps the range. */
  lemma LiveOfMeans(accounts: map<Key, Account>, k: Key, userId: UserId, startTime: int, endTime: int, m: UsageMetric)
    ensures m in LiveOf(accounts, k, userId, startTime, endTime)
       <==> && k in accounts && m in accounts[k].live
            && k.userId == userId && k.hour < endTime && startTime < k.hour + HOUR
  {
  }

  /** Those of all buckets, in the order the map yields them. */
  ghost function LiveIn(accounts: map<Key, Account>, order: seq<Key>, userId: UserId, startTime: int, endTime: int)
    : seq<UsageMetric>
  {
    if order == [] then []
    else
      LiveIn(accounts, order[..|order| - 1], userId, startTime, endTime) +
      LiveOf(accounts, order[|order| - 1], userId, startTime, endTime)
  }

  lemma {:induction false} LiveInMeans(accounts: map<Key, Account>, order: seq<Key>,
                                       userId: UserId, startTime: int, endTime: int, m: UsageMetric)
    ensures m in LiveIn(accounts, order, userId, startTime, endTime)
       <==> exists i :: && 0 <= i < |order| && order[i] in accounts && m in accounts[order[i]].live
                        && order[i].userId == userId && order[i].hour < endTime && startTime < order[i].hour + HOUR
  {
    if order != [] {
      var n := |order| - 1;
      var front := order[..n];
      LiveInMeans(accounts, front, userId, startTime, endTime, m);
      LiveOfMeans(accounts, order[n], userId, startTime, endTime, m);
      assert forall i :: 0 <= i < n ==> front[i] == order[i];
    }
  }

  lemma {:induction false} LiveWithout(accounts: map<Key, Account>, order: seq<Key>, i: nat,
                                       userId: UserId, startTime: int, endTime: int)
    requires i < |order|
    ensures multiset(LiveIn(accounts, order, userId, startTime, endTime)) ==
            multiset(LiveIn(accounts, Bags.Without(order, i), userId, startTime, endTime)) +
            multiset(LiveOf(accounts, order[i], userId, startTime, endTime))
  {
    var n := |order| - 1;
    if i == n {
      assert Bags.Without(order, i) == order[..n];
    } else {
      var rest := Bags.Without(order[..n], i);
      var last := LiveOf(accounts, order[n], userId, startTime, endTime);
      LiveWithout(accounts, order[..n], i, userId, startTime, endTime);
      Bags.WithoutSnoc(order, i);
      assert LiveIn(accounts, Bags.Without(order, i), userId, startTime, endTime) ==
             LiveIn(accounts, rest, userId, startTime, endTime) + last;
      Bags.BagsAppend(LiveIn(accounts, order[..n], userId, startTime, endTime),
                      LiveIn(accounts, rest, userId, startTime, endTime),
                      multiset(LiveOf(accounts, order[i], userId, startTime, endTime)), last);
    }
  }

  lemma {:induction false} LiveBag(accounts: map<Key, Account>, order: seq<Key>, other: seq<Key>,
                                   userId: UserId, startTime: int, endTime: int)
    requires multiset(order) == multiset(other)
    ensures multiset(LiveIn(accounts, order, userId, startTime, endTime)) ==
            multiset(LiveIn(accounts, other, userId, startTime, endTime))
    decreases |order|
  {
    if order == [] {
      Bags.OnlyEmptyIsEmpty(other);
    } else {
      var i := Bags.LastHasAPlace(order, other);
      LiveBag(accounts, order[..|order| - 1], Bags.Without(other, i), userId, startTime, endTime);
      LiveWithout(accounts, other, i, userId, startTime, endTime);
    }
  }

  /** The summary of what is live, and none of nothing. */
  ghost function LiveSummary(accounts: map<Key, Account>, order: seq<Key>, userId: UserId, startTime: int, endTime: int)
    : Option<UsageSummary>
  {
    var raw := LiveIn(accounts, order, userId, startTime, endTime);
    if raw == [] then None
    else Some(UsageSummary(userId, startTime, endTime, UA.MetricsOf(raw), |UA.Sessions(raw)|))
  }

  /** It is the same in whatever order the map yields its buckets. */
  lemma LiveSummaryIgnoresOrder(accounts: map<Key, Account>, order: seq<Key>, other: seq<Key>,
                                userId: UserId, startTime: int, endTime: int)
    requires multiset(order) == multiset(other)
    ensures LiveSummary(accounts, order, userId, startTime, endTime) ==
            LiveSummary(accounts, other, userId, startTime, endTime)
  {
    var raw := LiveIn(accounts, order, userId, startTime, endTime);
    var raw' := LiveIn(accounts, other, userId, startTime, endTime);
    LiveBag(accounts, order, other, userId, startTime, endTime);
    assert |multiset(raw)| == |raw| && |multiset(raw')| == |raw'|;
    UA.OrderIsIrrelevant(raw, raw');
  }

  /** `groups` and `sessions` are what `raw` comes to. */
  ghost predicate Grouped(groups: map<MetricType, seq<real>>, sessions: set<SessionId>, raw: seq<UsageMetric>) {
    && groups.Keys == UA.Types(raw)
    && (forall t :: t in groups ==> groups[t] == UA.Values(raw, t))
    && sessions == UA.Sessions(raw)
  }

  /** Appends every value list of `more` to its group, in whatever order the types come. */
  method ExtendGroups(groups: map<MetricType, seq<real>>, more: map<MetricType, seq<real>>)
    returns (result: map<MetricType, seq<real>>)
    ensures result == map t | t in groups.Keys + more.Keys ::
                        (if t in groups then groups[t] else []) + (if t in more then more[t] else [])
  {
    result := groups;
    var pending := more.Keys;
    assert forall t :: t in groups ==> groups[t] + [] == groups[t];
    while pending != {}
      invariant pending <= more.Keys
      invariant result == map t | t in groups.Keys + (more.Keys - pending) ::
                            (if t in groups then groups[t] else []) +
                            (if t in more && t !in pending then more[t] else [])
      decreases pending
    {
      var t :| t in pending;
      pending := pending - {t};
      result := result[t := (if t in result then result[t] else []) + more[t]];
    }
  }

  lemma GroupedAppend(groups: map<MetricType, seq<real>>, sessions: set<SessionId>, raw: seq<UsageMetric>,
                      b: Bucket, k: Key, live: seq<UsageMetric>)
    requires Grouped(groups, sessions, raw) && Buckets(b, k, live)
    ensures Grouped(map t | t in groups.Keys + b.metrics.Keys ::
                      (if t in groups then groups[t] else []) + (if t in b.metrics then b.metrics[t] else []),
                    sessions + b.sessions, raw + live)
  {
    UA.TypesAppend(raw, live);
    forall t | t in groups.Keys + b.metrics.Keys
      ensures (if t in groups then groups[t] else []) + (if t in b.metrics then b.metrics[t] else []) ==
              UA.Values(raw + live, t)
    {
      UA.ValuesAppend(raw, live, t);
      UA.ValuesOfPresentType(raw, t);
      UA.ValuesOfPresentType(live, t);
    }
  }

  class UsageAggregator {
    var buckets: map<Key, Bucket>
    var store: map<Key, UsageSummary>    // the summaries under their user, start and end
    ghost var accounts: map<Key, Account>
    ghost var events: seq<Event>

    /** Buckets and stored summaries are those of the accounts, and the accounts those of the run so far. */
    ghost predicate Valid()
      reads this
    {
      AllValid(buckets, store, accounts) && Traced(accounts, events)
    }

    constructor ()
      ensures Valid() && events == []
    {
      buckets, store, accounts, events := map[], map[], map[], [];
    }

    method AddMetric(m: UsageMetric, ghost now: int) returns (k: Key)
      requires Valid()
      modifies this`buckets, this`accounts, this`events
      ensures Valid() && Routes(m, k)
      ensures events == old(events) + [Add(m, k, now)]
      ensures accounts == old(accounts)[k := AccountAdd(AccountOf(old(accounts), k), m)]
    {
      k := GetBucketKey(m);
      ghost var buckets', accounts', events' := Admit(buckets, store, accounts, events, m, k, now);
      InsertMetric(m, k);
      accounts, events := accounts', events';
    }

    method GetBucketKey(m: UsageMetric) returns (k: Key)
      ensures Routes(m, k)
    {
      k := BucketKey(m.userId, m.timestamp);
      RoutesIsRounding(m, k);
    }

    /** Finds or makes the bucket of `k` and puts the metric in. */
    method InsertMetric(m: UsageMetric, k: Key)
      modifies this`buckets
      ensures buckets == Inserted(old(buckets), m, k)
    {
      if k !in buckets {
        buckets := buckets[k := NewBucket(k.userId, k.hour)];
      }
      buckets := buckets[k := AddToBucket(buckets[k], m)];
    }

    /** Flushes the buckets whose period is over. `stored` says for which keys the store succeeds. */
    method FlushExpired(now: int, stored: Key -> bool)
      requires Valid()
      modifies this
      ensures Valid() && events == old(events) + [Expire(now, stored)]
      ensures buckets == map k | k in old(buckets) && now <= old(buckets)[k].endTime :: old(buckets)[k]
      ensures accounts == AfterFlush(old(accounts), old(buckets).Keys - buckets.Keys, stored)
    {
      var taken := map k | k in buckets && now > buckets[k].endTime :: buckets[k];
      var left := map k | k in buckets && now <= buckets[k].endTime :: buckets[k];
      assert taken + left == buckets;
      assert taken.Keys == buckets.Keys - left.Keys;
      FlushSetKeepsAll(buckets, store, accounts, taken, left, stored);
      FlushIsBooked(buckets, store, accounts, taken.Keys, Expire(now, stored));
      TracedSnoc(accounts, AfterFlush(accounts, taken.Keys, stored), events, Expire(now, stored));
      buckets := left;
      StoreFlushed(taken, stored);
      events := events + [Expire(now, stored)];
    }

    /** Flushes everything, on the way out. */
    method FlushAll(ghost now: int, stored: Key -> bool)
      requires Valid()
      modifies this
      ensures Valid() && buckets == map[] && events == old(events) + [Stop(now, stored)]
      ensures accounts == AfterFlush(old(accounts), old(buckets).Keys, stored)
    {
      var taken := buckets;
      assert taken + map[] == buckets;
      FlushSetKeepsAll(buckets, store, accounts, taken, map[], stored);
      FlushIsBooked(buckets, store, accounts, taken.Keys, Stop(now, stored));
      TracedSnoc(accounts, AfterFlush(accounts, taken.Keys, stored), events, Stop(now, stored));
      buckets := map[];
      StoreFlushed(taken, stored);
      events := events + [Stop(now, stored)];
    }

    /** Summarizes and stores buckets that were already taken out of the map, in any order. */
    method StoreFlushed(taken: map<Key, Bucket>, stored: Key -> bool)
      modifies this`store, this`accounts
      ensures store == AfterStore(old(store), taken, taken.Keys, stored)
      ensures accounts == AfterFlush(old(accounts), taken.Keys, stored)
    {
      var pending := taken.Keys;
      ghost var done := {};
      assert AfterFlush(accounts, {}, stored) == accounts && AfterStore(store, taken, {}, stored) == store;
      while pending != {}
        invariant pending <= taken.Keys && done == taken.Keys - pending
        invariant store == AfterStore(old(store), taken, done, stored)
        invariant accounts == AfterFlush(old(accounts), done, stored)
        decreases pending
      {
        var k :| k in pending;
        AfterFlushGrows(old(accounts), done, k, stored);
        AfterStoreGrows(old(store), taken, done, k, stored);
        if stored(k) {
          store := store[k := ToUsageSummary(taken[k])];
        }
        accounts := accounts[k := AccountFlush(AccountOf(accounts, k), stored(k))];
        pending, done := pending - {k}, done + {k};
      }
      assert done == taken.Keys;
    }

    /**
     The summary of what is live for a user in a range; `order` is the order in which the map
     yields its buckets, each once.
     */
    method GetActiveBucketSummary(userId: UserId, startTime: int, endTime: int, order: seq<Key>)
      returns (r: Option<UsageSummary>)
      requires Valid() && multiset(order) == multiset(buckets.Keys)
      ensures r == LiveSummary(accounts, order, userId, startTime, endTime)
    {
      var groups: map<MetricType, seq<real>> := map[];
      var sessions: set<SessionId> := {};
      ghost var raw := [];
      for i := 0 to |order|
        invariant raw == LiveIn(accounts, order[..i], userId, startTime, endTime)
        invariant Grouped(groups, sessions, raw)
      {
        var k := order[i];
        assert k in multiset(order);
        var bucket := buckets[k];
        assert order[..i + 1][..i] == order[..i];
        assert KeyHolds(k, buckets, store, accounts);
        if bucket.userId == userId && bucket.startTime < endTime && bucket.endTime > startTime {
          GroupedAppend(groups, sessions, raw, bucket, k, AccountOf(accounts, k).live);
          groups := ExtendGroups(groups, bucket.metrics);
          sessions := sessions + bucket.sessions;
          raw := raw + AccountOf(accounts, k).live;
        } else {
          assert raw + [] == raw;
        }
      }
      assert order[..|order|] == order;
      NoGroupsIffEmpty(raw);
      if groups == map[] {
        return None;
      }
      var aggregated := UA.AggregateGroups(groups);
      GroupsAggregate(groups, sessions, raw);
      return Some(UsageSummary(userId, startTime, endTime, aggregated, |sessions|));
    }
  }

  lemma NoGroupsIffEmpty(raw: seq<UsageMetric>)
    ensures UA.Types(raw) == {} <==> raw == []
  {
    if raw != [] {
      assert raw[0].metricType in UA.Types(raw);
    }
  }

  lemma GroupsAggregate(groups: map<MetricType, seq<real>>, sessions: set<SessionId>, raw: seq<UsageMetric>)
    requires Grouped(groups, sessions, raw)
    ensures (map t | t in groups && groups[t] != [] :: UA.Aggregate(groups[t])) == UA.MetricsOf(raw)
  {
    forall t | t in groups
      ensures groups[t] != []
    {
      UA.ValuesOfPresentType(raw, t);
    }
  }
}
