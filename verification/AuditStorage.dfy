/** The ring of audit logs, and queries over it: filter, stable sort, page. */
module AuditStorage {
  import opened Prelude

  type u32 = x: int | 0 <= x < U32_LIMIT
  const U32_LIMIT: int := 0x1_0000_0000

  // Enumerations of which only equality matters here.
  type AuditEventType = nat
  type AuditSeverity = nat
  type AuditResult = nat

  datatype AuditLog = AuditLog(
    id: nat,
    eventType: AuditEventType,
    severity: AuditSeverity,
    result: AuditResult,
    timestamp: int,
    userId: Option<nat>,
    tenantId: Option<nat>,
    resourceType: Option<string>,
    resourceId: Option<string>)

  datatype AuditQuery = AuditQuery(
    eventType: Option<AuditEventType>,
    severity: Option<AuditSeverity>,
    result: Option<AuditResult>,
    userId: Option<nat>,
    tenantId: Option<nat>,
    resourceType: Option<string>,
    resourceId: Option<string>,
    startTime: Option<int>,
    endTime: Option<int>,
    page: Option<u32>,
    limit: Option<u32>,
    orderDesc: Option<bool>)

  // ----------------------------------------------------------------------------- filter

  /** Every criterion that is given must hold; a log without the field meets none on it. */
  predicate MatchesQuery(log: AuditLog, query: AuditQuery) {
    && (query.eventType.Some? ==> log.eventType == query.eventType.value)
    && (query.severity.Some? ==> log.severity == query.severity.value)
    && (query.result.Some? ==> log.result == query.result.value)
    && (query.userId.Some? ==> log.userId == query.userId)
    && (query.tenantId.Some? ==> log.tenantId == query.tenantId)
    && (query.resourceType.Some? ==> log.resourceType == query.resourceType)
    && (query.resourceId.Some? ==> log.resourceId == query.resourceId)
    && (query.startTime.Some? ==> log.timestamp >= query.startTime.value)
    && (query.endTime.Some? ==> log.timestamp <= query.endTime.value)
  }

  predicate NoCriteria(query: AuditQuery) {
    && query.eventType.None? && query.severity.None? && query.result.None? && query.userId.None?
    && query.tenantId.None? && query.resourceType.None? && query.resourceId.None?
    && query.startTime.None? && query.endTime.None?
  }

  /** An empty query matches every log, and each criterion that is given lets through only what meets it. */
  lemma CriteriaNarrow(log: AuditLog, query: AuditQuery, n: nat, id: nat, s: string, time: int)
    ensures NoCriteria(query) ==> MatchesQuery(log, query)
    ensures MatchesQuery(log, query.(eventType := Some(n)))
       <==> MatchesQuery(log, query.(eventType := None)) && log.eventType == n
    ensures MatchesQuery(log, query.(severity := Some(n)))
       <==> MatchesQuery(log, query.(severity := None)) && log.severity == n
    ensures MatchesQuery(log, query.(result := Some(n)))
       <==> MatchesQuery(log, query.(result := None)) && log.result == n
    ensures MatchesQuery(log, query.(userId := Some(id)))
       <==> MatchesQuery(log, query.(userId := None)) && log.userId == Some(id)
    ensures MatchesQuery(log, query.(tenantId := Some(id)))
       <==> MatchesQuery(log, query.(tenantId := None)) && log.tenantId == Some(id)
    ensures MatchesQuery(log, query.(resourceType := Some(s)))
       <==> MatchesQuery(log, query.(resourceType := None)) && log.resourceType == Some(s)
    ensures MatchesQuery(log, query.(resourceId := Some(s)))
       <==> MatchesQuery(log, query.(resourceId := None)) && log.resourceId == Some(s)
    ensures MatchesQuery(log, query.(startTime := Some(time)))
       <==> MatchesQuery(log, query.(startTime := None)) && time <= log.timestamp
    ensures MatchesQuery(log, query.(endTime := Some(time)))
       <==> MatchesQuery(log, query.(endTime := None)) && log.timestamp <= time
  {
  }

  function Matching(logs: seq<AuditLog>, query: AuditQuery): seq<AuditLog> {
    if logs == [] then []
    else
      var last := logs[|logs| - 1];
      Matching(logs[..|logs| - 1], query) + if MatchesQuery(last, query) then [last] else []
  }

  /** The filter keeps each matching log as often as it is stored, and no other. */
  lemma {:induction false} MatchingCounts(logs: seq<AuditLog>, query: AuditQuery, log: AuditLog)
    ensures multiset(Matching(logs, query))[log] == if MatchesQuery(log, query) then multiset(logs)[log] else 0
  {
    if logs != [] {
      MatchingCounts(logs[..|logs| - 1], query, log);
      assert logs == logs[..|logs| - 1] + [logs[|logs| - 1]];
    }
  }

  // ------------------------------------------------------------------------------- sort

  predicate Before(a: int, b: int, desc: bool) {
    if desc then a > b else a < b
  }

  /** Insertion behind everything that does not have to come later. */
  function InsertLog(sorted: seq<AuditLog>, log: AuditLog, desc: bool): seq<AuditLog> {
    if sorted == [] then [log]
    else
      var last := sorted[|sorted| - 1];
      if Before(log.timestamp, last.timestamp, desc) then InsertLog(sorted[..|sorted| - 1], log, desc) + [last]
      else sorted + [log]
  }

  /** A stable sort by timestamp. */
  function SortLogs(logs: seq<AuditLog>, desc: bool): seq<AuditLog> {
    if logs == [] then [] else InsertLog(SortLogs(logs[..|logs| - 1], desc), logs[|logs| - 1], desc)
  }

  /** The logs of one timestamp, in the order in which they stand. */
  function At(logs: seq<AuditLog>, timestamp: int): seq<AuditLog> {
    if logs == [] then []
    else
      var last := logs[|logs| - 1];
      At(logs[..|logs| - 1], timestamp) + if last.timestamp == timestamp then [last] else []
  }

  /** Newest first if descending, and else oldest first. */
  predicate Ordered(logs: seq<AuditLog>, desc: bool) {
    forall i, j :: 0 <= i < j < |logs| ==>
      if desc then logs[i].timestamp >= logs[j].timestamp else logs[i].timestamp <= logs[j].timestamp
  }

  /** What a stable sort is: in order of time, and within one timestamp in the order of the input. */
  ghost predicate StablySorts(sorted: seq<AuditLog>, logs: seq<AuditLog>, desc: bool) {
    Ordered(sorted, desc) && forall t :: At(sorted, t) == At(logs, t)
  }

  lemma AtSnoc(logs: seq<AuditLog>, log: AuditLog, t: int)
    ensures At(logs + [log], t) == At(logs, t) + if log.timestamp == t then [log] else []
  {
    assert (logs + [log])[..|logs|] == logs;
  }

  lemma {:induction false} AtHead(logs: seq<AuditLog>, t: int)
    requires logs != []
    ensures At(logs, t) == (if logs[0].timestamp == t then [logs[0]] else []) + At(logs[1..], t)
  {
    var n := |logs| - 1;
    if n > 0 {
      AtHead(logs[..n], t);
      assert logs[..n][1..] == logs[1..][..n - 1];
    } else {
      assert logs[..0] == [] && logs[1..] == [];
    }
  }

  lemma {:induction false} AtIsEmptyIff(logs: seq<AuditLog>, t: int)
    ensures At(logs, t) == [] <==> forall i :: 0 <= i < |logs| ==> logs[i].timestamp != t
  {
    if logs != [] {
      AtIsEmptyIff(logs[..|logs| - 1], t);
    }
  }

  lemma {:induction false} InsertKeepsSlices(sorted: seq<AuditLog>, log: AuditLog, desc: bool, t: int)
    ensures At(InsertLog(sorted, log, desc), t) == At(sorted, t) + if log.timestamp == t then [log] else []
  {
    if sorted != [] {
      var front, last := sorted[..|sorted| - 1], sorted[|sorted| - 1];
      if Before(log.timestamp, last.timestamp, desc) {
        InsertKeepsSlices(front, log, desc, t);
        AtSnoc(InsertLog(front, log, desc), last, t);
      } else {
        AtSnoc(sorted, log, t);
      }
    }
  }

  lemma {:induction false} InsertKeepsOrder(sorted: seq<AuditLog>, log: AuditLog, desc: bool)
    requires Ordered(sorted, desc)
    ensures Ordered(InsertLog(sorted, log, desc), desc)
  {
    if sorted != [] {
      var front, last := sorted[..|sorted| - 1], sorted[|sorted| - 1];
      if Before(log.timestamp, last.timestamp, desc) {
        InsertKeepsOrder(front, log, desc);
        var inserted := InsertLog(front, log, desc);
        forall i | 0 <= i < |inserted|
          ensures !Before(last.timestamp, inserted[i].timestamp, desc)
        {
          InsertAddsToBag(front, log, desc);
          assert inserted[i] in multiset(inserted);
          if inserted[i] != log {
            assert inserted[i] in front;
          }
        }
      }
    }
  }

  lemma {:induction false} SortIsStable(logs: seq<AuditLog>, desc: bool)
    ensures StablySorts(SortLogs(logs, desc), logs, desc)
  {
    if logs != [] {
      var front, last := logs[..|logs| - 1], logs[|logs| - 1];
      SortIsStable(front, desc);
      InsertKeepsOrder(SortLogs(front, desc), last, desc);
      forall t
        ensures At(SortLogs(logs, desc), t) == At(logs, t)
      {
        InsertKeepsSlices(SortLogs(front, desc), last, desc, t);
      }
    }
  }

  /** There is only one stable sort of a list, so nothing hangs on how the library sorts. */
  lemma StableSortIsUnique(a: seq<AuditLog>, b: seq<AuditLog>, logs: seq<AuditLog>, desc: bool)
    requires StablySorts(a, logs, desc) && StablySorts(b, logs, desc)
    ensures a == b
  {
    SameSlicesSameOrder(a, b, desc);
  }

  lemma HeadIsNotLater(a: seq<AuditLog>, b: seq<AuditLog>, desc: bool)
    requires a != [] && Ordered(b, desc) && At(a, a[0].timestamp) == At(b, a[0].timestamp)
    ensures b != [] && !Before(a[0].timestamp, b[0].timestamp, desc)
  {
    AtIsEmptyIff(a, a[0].timestamp);
    AtIsEmptyIff(b, a[0].timestamp);
    var j: nat :| j < |b| && b[j].timestamp == a[0].timestamp;
  }

  lemma {:induction false} SameSlicesSameOrder(a: seq<AuditLog>, b: seq<AuditLog>, desc: bool)
    requires Ordered(a, desc) && Ordered(b, desc) && forall t :: At(a, t) == At(b, t)
    ensures a == b
    decreases |a|
  {
    if a != [] {
      HeadIsNotLater(a, b, desc);
    }
    if b != [] {
      HeadIsNotLater(b, a, desc);
    }
    if a != [] {
      AtHead(a, a[0].timestamp);
      AtHead(b, a[0].timestamp);
      assert At(a, a[0].timestamp)[0] == a[0] && At(b, a[0].timestamp)[0] == b[0];
      forall t
        ensures At(a[1..], t) == At(b[1..], t)
      {
        TailSlice(a, b, t);
      }
      SameSlicesSameOrder(a[1..], b[1..], desc);
    }
  }

  lemma TailSlice(a: seq<AuditLog>, b: seq<AuditLog>, t: int)
    requires a != [] && b != [] && a[0] == b[0] && At(a, t) == At(b, t)
    ensures At(a[1..], t) == At(b[1..], t)
  {
    AtHead(a, t);
    AtHead(b, t);
    var head := if a[0].timestamp == t then [a[0]] else [];
    assert At(a[1..], t) == (head + At(a[1..], t))[|head|..];
    assert At(b[1..], t) == (head + At(b[1..], t))[|head|..];
  }

  lemma {:induction false} SortKeepsBag(logs: seq<AuditLog>, desc: bool)
    ensures multiset(SortLogs(logs, desc)) == multiset(logs)
  {
    if logs != [] {
      SortKeepsBag(logs[..|logs| - 1], desc);
      InsertAddsToBag(SortLogs(logs[..|logs| - 1], desc), logs[|logs| - 1], desc);
      assert logs == logs[..|logs| - 1] + [logs[|logs| - 1]];
    }
  }

  lemma {:induction false} InsertAddsToBag(sorted: seq<AuditLog>, log: AuditLog, desc: bool)
    ensures multiset(InsertLog(sorted, log, desc)) == multiset(sorted) + multiset{log}
  {
    if sorted != [] {
      var front, last := sorted[..|sorted| - 1], sorted[|sorted| - 1];
      assert sorted == front + [last];
      if Before(log.timestamp, last.timestamp, desc) {
        InsertAddsToBag(front, log, desc);
      }
    }
  }

  // ------------------------------------------------------------------------------ pages

  datatype QueryError = PageOverflow

  function Least(a: int, b: int): int {
    if a <= b then a else b
  }

  function OrderDesc(query: AuditQuery): bool {
    if query.orderDesc.Some? then query.orderDesc.value else true
  }

  function PageOf(query: AuditQuery): u32 {
    if query.page.Some? then query.page.value else 1
  }

  function LimitOf(query: AuditQuery): u32 {
    if query.limit.Some? then query.limit.value else 100
  }

  /** Everything a query matches, in the order it asks for. */
  function Results(logs: seq<AuditLog>, query: AuditQuery): seq<AuditLog> {
    SortLogs(Matching(logs, query), OrderDesc(query))
  }

  function Slice(results: seq<AuditLog>, start: nat, limit: nat): seq<AuditLog> {
    if start < |results| then results[start..Least(start + limit, |results|)] else []
  }

  /** The page a query asks for; pages count from one, and their first index must be an unsigned 32-bit number. */
  function QueryPage(logs: seq<AuditLog>, query: AuditQuery): Result<seq<AuditLog>, QueryError> {
    var start := (PageOf(query) - 1) * LimitOf(query);
    if 0 < PageOf(query) && 0 <= start < U32_LIMIT then Ok(Slice(Results(logs, query), start, LimitOf(query)))
    else Err(PageOverflow)
  }

  /** A page are the results from its first index on, as many as there are up to the limit. */
  lemma PageMeans(logs: seq<AuditLog>, query: AuditQuery, start: nat)
    requires PageOf(query) > 0 && start == (PageOf(query) - 1) * LimitOf(query) < 0x1_0000_0000
    ensures var r, results := QueryPage(logs, query), SortLogs(Matching(logs, query), OrderDesc(query));
            && r.Ok?
            && |r.value| == Least(LimitOf(query), if start < |results| then |results| - start else 0)
            && forall j :: 0 <= j < |r.value| ==> r.value[j] == results[start + j]
  {
    SliceMeans(Results(logs, query), start, LimitOf(query));
  }

  lemma SliceMeans(results: seq<AuditLog>, start: nat, limit: nat)
    ensures |Slice(results, start, limit)| == Least(limit, if start < |results| then |results| - start else 0)
    ensures forall j :: 0 <= j < |Slice(results, start, limit)| ==>
              Slice(results, start, limit)[j] == results[start + j]
  {
  }

  /** What a query leaves out: it starts at page one, with a hundred logs a page, newest first. */
  lemma QueryDefaults(logs: seq<AuditLog>, query: AuditQuery)
    ensures query.page.None? ==> QueryPage(logs, query) == QueryPage(logs, query.(page := Some(1)))
    ensures query.limit.None? ==> QueryPage(logs, query) == QueryPage(logs, query.(limit := Some(100)))
    ensures query.orderDesc.None? ==> QueryPage(logs, query) == QueryPage(logs, query.(orderDesc := Some(true)))
  {
    SameMatches(logs, query, query.(page := Some(1)));
    SameMatches(logs, query, query.(limit := Some(100)));
    SameMatches(logs, query, query.(orderDesc := Some(true)));
  }

  lemma {:induction false} SameMatches(logs: seq<AuditLog>, query: AuditQuery, other: AuditQuery)
    requires other == query.(page := other.page, limit := other.limit, orderDesc := other.orderDesc)
    ensures Matching(logs, query) == Matching(logs, other)
  {
    if logs != [] {
      SameMatches(logs[..|logs| - 1], query, other);
    }
  }

  /** The first `k` pages, one after the other. */
  ghost function FirstPages(logs: seq<AuditLog>, query: AuditQuery, k: u32): seq<AuditLog> {
    if k == 0 then []
    else
      var page := QueryPage(logs, query.(page := Some(k)));
      FirstPages(logs, query, k - 1) + if page.Ok? then page.value else []
  }

  lemma PageIs(logs: seq<AuditLog>, query: AuditQuery, k: u32, start: nat)
    requires k > 0 && start == (k - 1) * LimitOf(query) < U32_LIMIT
    ensures QueryPage(logs, query.(page := Some(k))) == Ok(Slice(Results(logs, query), start, LimitOf(query)))
  {
    SameMatches(logs, query, query.(page := Some(k)));
  }

  lemma SliceExtends(results: seq<AuditLog>, start: nat, limit: nat)
    ensures results[..Least(start, |results|)] + Slice(results, start, limit) ==
            results[..Least(start + limit, |results|)]
  {
  }

  lemma {:induction false} PagesArePrefix(logs: seq<AuditLog>, query: AuditQuery, k: u32, end: nat)
    requires end == k * LimitOf(query) && (k > 0 ==> end - LimitOf(query) < U32_LIMIT)
    ensures FirstPages(logs, query, k) == Results(logs, query)[..Least(end, |Results(logs, query)|)]
  {
    if k > 0 {
      var limit := LimitOf(query);
      var start := end - limit;
      OnePageLess(k, limit, end);
      PagesArePrefix(logs, query, k - 1, start);
      PageIs(logs, query, k, start);
      SliceExtends(Results(logs, query), start, limit);
    }
  }

  lemma OnePageLess(k: nat, limit: nat, end: nat)
    requires k > 0 && end == k * limit
    ensures end - limit == (k - 1) * limit >= 0
  {
  }

  /**
   Reading page after page until they cover the number of matches gives every matching
   log once, in order of time, ties in the order in which they are stored.
   */
  lemma PagesAreComplete(logs: seq<AuditLog>, query: AuditQuery, k: u32)
    requires k > 0 ==> (k - 1) * LimitOf(query) < U32_LIMIT
    requires k * LimitOf(query) >= |Matching(logs, query)|
    ensures StablySorts(FirstPages(logs, query, k), Matching(logs, query), OrderDesc(query))
    ensures multiset(FirstPages(logs, query, k)) == multiset(Matching(logs, query))
  {
    var results := Results(logs, query);
    if k > 0 {
      OnePageLess(k, LimitOf(query), k * LimitOf(query));
    }
    PagesArePrefix(logs, query, k, k * LimitOf(query));
    SortIsStable(Matching(logs, query), OrderDesc(query));
    SortKeepsBag(Matching(logs, query), OrderDesc(query));
    assert |results| == |multiset(results)| == |multiset(Matching(logs, query))|;
    assert results[..|results|] == results;
  }

  // ---------------------------------------------------------------------------- storage

  datatype Op = Add(log: AuditLog) | Cleanup(keepCount: nat)

  /** Everything ever added, in order. */
  ghost function Added(ops: seq<Op>): seq<AuditLog> {
    if ops == [] then []
    else Added(ops[..|ops| - 1]) + if ops[|ops| - 1].Add? then [ops[|ops| - 1].log] else []
  }

  /** How many of them are still there: no more than the capacity, of which there is always one. */
  ghost function Kept(ops: seq<Op>, maxSize: nat): nat {
    if ops == [] then 0
    else
      var kept := Kept(ops[..|ops| - 1], maxSize);
      match ops[|ops| - 1]
      case Add(_) => Least(kept + 1, if maxSize > 0 then maxSize else 1)
      case Cleanup(keepCount) => Least(kept, keepCount)
  }

  ghost predicate IsNewest(logs: seq<AuditLog>, added: seq<AuditLog>, kept: nat) {
    |logs| == kept <= |added| && logs == added[|added| - kept..]
  }

  lemma NewestOfNewest(logs: seq<AuditLog>, added: seq<AuditLog>, kept: nat, k: nat)
    requires IsNewest(logs, added, kept) && k <= |logs|
    ensures IsNewest(logs[|logs| - k..], added, k)
  {
  }

  lemma CleanedUp(logs: seq<AuditLog>, left: seq<AuditLog>, ops: seq<Op>, maxSize: nat, keepCount: nat)
    requires IsNewest(logs, Added(ops), Kept(ops, maxSize))
    requires |left| == Least(|logs|, keepCount) && left == logs[|logs| - |left|..]
    ensures IsNewest(left, Added(ops + [Cleanup(keepCount)]), Kept(ops + [Cleanup(keepCount)], maxSize))
  {
    assert (ops + [Cleanup(keepCount)])[..|ops|] == ops;
    NewestOfNewest(logs, Added(ops), |logs|, |left|);
  }

  lemma TailOfTail(logs: seq<AuditLog>, n: nat)
    requires n < |logs|
    ensures logs[n..][1..] == logs[n + 1..]
  {
  }

  class AuditStorage {
    var logs: seq<AuditLog>
    const maxSize: nat
    ghost var ops: seq<Op>

    /** The storage is always the newest part of everything ever added. */
    ghost predicate Valid()
      reads this
    {
      IsNewest(logs, Added(ops), Kept(ops, maxSize)) && |logs| <= if maxSize > 0 then maxSize else 1
    }

    constructor (maxSize: nat)
      ensures Valid() && this.maxSize == maxSize && ops == []
    {
      logs, this.maxSize, ops := [], maxSize, [];
      assert Added([]) == [] && Kept([], maxSize) == 0;
    }

    method AddLog(log: AuditLog)
      requires Valid()
      modifies this
      ensures Valid() && ops == old(ops) + [Add(log)]
      ensures logs == (if |old(logs)| >= maxSize && old(logs) != [] then old(logs)[1..] else old(logs)) + [log]
    {
      if |logs| >= maxSize && logs != [] {
        logs := logs[1..];
      }
      logs := logs + [log];
      assert (ops + [Add(log)])[..|ops|] == ops;
      ops := ops + [Add(log)];
    }

    method CleanupOldLogs(keepCount: nat) returns (removed: nat)
      requires Valid()
      modifies this
      ensures Valid() && ops == old(ops) + [Cleanup(keepCount)]
      ensures removed == |old(logs)| - |logs|
      ensures |logs| == Least(|old(logs)|, keepCount) && logs == old(logs)[removed..]
    {
      var originalCount := |logs|;
      ghost var all, n := logs, 0;
      while |logs| > keepCount
        invariant n <= originalCount && logs == all[n..]
        invariant n == 0 || |logs| >= keepCount
        invariant ops == old(ops)
      {
        TailOfTail(all, n);
        logs, n := logs[1..], n + 1;
      }
      removed := originalCount - |logs|;
      CleanedUp(all, logs, ops, maxSize, keepCount);
      ops := ops + [Cleanup(keepCount)];
    }

    method QueryLogs(query: AuditQuery) returns (r: Result<seq<AuditLog>, QueryError>)
      ensures r == QueryPage(logs, query)
      ensures r == Err(PageOverflow)
         <==> PageOf(query) == 0 || (PageOf(query) - 1) * LimitOf(query) >= 0x1_0000_0000
    {
      var results := Matching(logs, query);
      results := SortLogs(results, OrderDesc(query));
      var page, limit := PageOf(query), LimitOf(query);
      if page == 0 || (page - 1) * limit >= U32_LIMIT {
        return Err(PageOverflow);
      }
      StartIsNat(page, limit);
      var start := (page - 1) * limit;
      var end := Least(start + limit, |results|);
      if start < |results| {
        return Ok(results[start..end]);
      } else {
        return Ok([]);
      }
    }
  }

  lemma StartIsNat(page: nat, limit: nat)
    requires page > 0
    ensures (page - 1) * limit >= 0
  {
  }
}
