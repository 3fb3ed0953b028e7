/**
 The bounded cache. An entry is stamped when it is inserted and never
 restamped by a read, so the entry evicted is the least recently inserted one.
 */
module EvictingCache {
  import opened Prelude

  // ------------------------------------------- the unbounded cache it agrees with

  ghost predicate Distinct<K(!new)>(keys: seq<K>) {
    forall i, j :: 0 <= i < j < |keys| ==> keys[i] != keys[j]
  }

  lemma DistinctCons<K(!new)>(k: K, keys: seq<K>)
    requires Distinct(keys) && k !in keys
    ensures Distinct([k] + keys)
  {
  }

  /** The keys of an insertion log, each once, most recently inserted first. */
  function Recent<K(==,!new)>(log: seq<K>): (keys: seq<K>)
    ensures forall k :: k in keys <==> k in log
    ensures Distinct(keys)
  {
    if log == [] then []
    else
      var last := log[|log| - 1];
      var rest := Removing(Recent(log[..|log| - 1]), last);
      DistinctCons(last, rest);
      [last] + rest
  }

  function Removing<K(==,!new)>(keys: seq<K>, k: K): (out: seq<K>)
    requires Distinct(keys)
    ensures forall x :: x in out <==> x in keys && x != k
    ensures Distinct(out)
  {
    if keys == [] then []
    else if keys[0] == k then keys[1..]
    else
      var rest := Removing(keys[1..], k);
      DistinctCons(keys[0], rest);
      [keys[0]] + rest
  }

  /** What an unbounded map would answer: the latest value inserted under `k`. */
  function Latest<K(==,!new), V>(log: seq<(K, V)>, k: K): Option<V> {
    if log == [] then None
    else if log[|log| - 1].0 == k then Some(log[|log| - 1].1)
    else Latest(log[..|log| - 1], k)
  }

  function Keys<K, V>(log: seq<(K, V)>): (keys: seq<K>)
    ensures |keys| == |log| && forall i :: 0 <= i < |log| ==> keys[i] == log[i].0
  {
    seq(|log|, i requires 0 <= i < |log| => log[i].0)
  }

  lemma RemovingCons<K(!new)>(head: K, rest: seq<K>, k: K)
    requires Distinct([head] + rest)
    ensures Distinct(rest)
    ensures Removing([head] + rest, k) == if head == k then rest else [head] + Removing(rest, k)
  {
    assert ([head] + rest)[1..] == rest;
    DistinctPart([head] + rest, 1, |rest| + 1);
  }

  lemma DistinctPart<K(!new)>(keys: seq<K>, i: nat, j: nat)
    requires Distinct(keys) && i <= j <= |keys|
    ensures Distinct(keys[i..j])
  {
  }

  lemma PrefixCons<K>(k: K, rest: seq<K>, n: nat)
    requires n <= |rest|
    ensures ([k] + rest)[..n + 1] == [k] + rest[..n]
  {
  }

  /** Dropping a key that is not among the first `m` keys leaves those as they are. */
  lemma {:induction false} RemovingLater<K(!new)>(keys: seq<K>, k: K, m: nat)
    requires m <= |keys| && Distinct(keys) && k !in keys[..m]
    ensures |Removing(keys, k)| >= m && Removing(keys, k)[..m] == keys[..m]
  {
    if m > 0 {
      var head, rest := keys[0], keys[1..];
      assert keys == [head] + rest && keys[..m] == [head] + rest[..m - 1];
      RemovingCons(head, rest, k);
      RemovingLater(rest, k, m - 1);
      if head != k {
        PrefixCons(head, Removing(rest, k), m - 1);
      }
    }
  }

  /** Dropping one that is takes it from the first `m`, and no other. */
  lemma {:induction false} RemovingEarly<K(!new)>(keys: seq<K>, k: K, m: nat)
    requires m <= |keys| && Distinct(keys) && Distinct(keys[..m]) && k in keys[..m]
    ensures |Removing(keys, k)| >= m - 1 && Removing(keys[..m], k) == Removing(keys, k)[..m - 1]
  {
    var head, rest := keys[0], keys[1..];
    var front := rest[..m - 1];
    SplitFirst(keys, m);
    if head == k {
      RemovingCons(head, rest, k);
      RemovingCons(head, front, k);
    } else {
      RemovingCons(head, front, k);
      RemovingCons(head, rest, k);
      RemovingEarly(rest, k, m - 1);
      PrefixCons(head, Removing(rest, k), m - 2);
    }
  }

  lemma SplitFirst<K>(keys: seq<K>, m: nat)
    requires 0 < m <= |keys|
    ensures keys == [keys[0]] + keys[1..] && keys[..m] == [keys[0]] + keys[1..][..m - 1]
    ensures forall k :: k in keys[..m] && k != keys[0] ==> k in keys[1..][..m - 1]
  {
    assert keys[..m] == [keys[0]] + keys[1..][..m - 1];
  }

  lemma RemovingPrefix<K(!new)>(keys: seq<K>, k: K, m: nat)
    requires m <= |keys| && Distinct(keys) && Distinct(keys[..m])
    ensures k in keys[..m] ==> |Removing(keys, k)| >= m - 1 && Removing(keys[..m], k) == Removing(keys, k)[..m - 1]
    ensures k !in keys[..m] ==> |Removing(keys, k)| >= m && Removing(keys, k)[..m] == keys[..m]
  {
    if k in keys[..m] {
      RemovingEarly(keys, k, m);
    } else {
      RemovingLater(keys, k, m);
    }
  }

  /** The set of the `n` most recently inserted distinct keys. */
  ghost function Newest<K(!new)>(log: seq<K>, n: nat): set<K>
    requires n <= |Recent(log)|
  {
    KeySet(Recent(log)[..n])
  }

  ghost function KeySet<K(!new)>(keys: seq<K>): set<K> {
    set k | k in keys
  }

  /** Inserting `k` among the newest `n` keys keeps them; inserting another grows them by it. */
  lemma NewestAfterInsert<K(!new)>(log: seq<K>, k: K, n: nat)
    requires n <= |Recent(log)|
    ensures var m := if k in Newest(log, n) then n else n + 1;
            m <= |Recent(log + [k])| && Newest(log + [k], m) == Newest(log, n) + {k}
  {
    var keys, after := Recent(log), Recent(log + [k]);
    RecentSnoc(log, k);
    DistinctPart(keys, 0, n);
    assert keys[..n] == keys[0..n];
    RemovingPrefix(keys, k, n);
    if k in keys[..n] {
      PrefixCons(k, Removing(keys, k), n - 1);
      assert after[..n] == [k] + Removing(keys[..n], k);
    } else {
      PrefixCons(k, Removing(keys, k), n);
      assert after[..n + 1] == [k] + keys[..n];
    }
  }

  // ------------------------------------------------------------ the cache itself

  datatype CacheEntry<V> = CacheEntry(value: V, lastAccess: int, accessCount: nat)

  /** Stamps fall along the recency order. */
  ghost predicate Falling<K(!new), V>(keys: seq<K>, data: map<K, CacheEntry<V>>) {
    forall i, j :: 0 <= i < j < |keys| && keys[i] in data && keys[j] in data ==>
      data[keys[j]].lastAccess < data[keys[i]].lastAccess
  }

  /** The cache holds the newest `|data|` keys of the log, each with its latest value. */
  ghost predicate Agrees<K(!new), V>(data: map<K, CacheEntry<V>>, log: seq<(K, V)>, clock: int) {
    && HoldsNewest(data.Keys, Keys(log))
    && Current(data, log, clock)
    && Falling(Recent(Keys(log)), data)
  }

  ghost predicate HoldsNewest<K(!new)>(held: set<K>, log: seq<K>) {
    |held| <= |Recent(log)| && held == Newest(log, |held|)
  }

  /** Held values are the latest ones, and no stamp is ahead of the clock. */
  ghost predicate Current<K(!new), V>(data: map<K, CacheEntry<V>>, log: seq<(K, V)>, clock: int) {
    forall k :: k in data ==> Latest(log, k) == Some(data[k].value) && data[k].lastAccess <= clock
  }

  ghost predicate IsOldest<K(!new), V>(data: map<K, CacheEntry<V>>, k: K) {
    k in data && forall x :: x in data ==> data[k].lastAccess <= data[x].lastAccess
  }

  /** The stamp of `head`, if it has one, is above all stamps of `rest`. */
  ghost predicate Above<K(!new), V>(head: K, rest: seq<K>, data: map<K, CacheEntry<V>>) {
    head in data ==> forall x :: x in rest && x in data ==> data[x].lastAccess < data[head].lastAccess
  }

  lemma FallingCons<K(!new), V>(head: K, rest: seq<K>, data: map<K, CacheEntry<V>>)
    ensures Falling([head] + rest, data) <==> Falling(rest, data) && Above(head, rest, data)
  {
    var keys := [head] + rest;
    if Falling(keys, data) {
      forall i, j | 0 <= i < j < |rest| && rest[i] in data && rest[j] in data
        ensures data[rest[j]].lastAccess < data[rest[i]].lastAccess
      {
        assert keys[i + 1] == rest[i] && keys[j + 1] == rest[j];
      }
      forall x | head in data && x in rest && x in data
        ensures data[x].lastAccess < data[head].lastAccess
      {
        var j: nat :| j < |rest| && rest[j] == x;
        assert keys[0] == head && keys[j + 1] == x;
      }
    }
  }

  lemma {:induction false} RemovingFalling<K(!new), V>(keys: seq<K>, k: K, data: map<K, CacheEntry<V>>)
    requires Distinct(keys)
    requires Falling(keys, data)
    ensures Falling(Removing(keys, k), data)
  {
    if keys != [] {
      var head, rest := keys[0], keys[1..];
      assert keys == [head] + rest;
      FallingCons(head, rest, data);
      if head != k {
        RemovingFalling(rest, k, data);
        FallingCons(head, Removing(rest, k), data);
      }
    }
  }

  /** Eviction takes the last of the newest keys, so what is left is the newest again. */
  lemma EvictionAgrees<K(!new), V>(data: map<K, CacheEntry<V>>, log: seq<(K, V)>, clock: int, oldest: K)
    requires Agrees(data, log, clock) && IsOldest(data, oldest)
    ensures |(data - {oldest}).Keys| == |data.Keys| - 1
    ensures Agrees(data - {oldest}, log, clock)
  {
    assert (data - {oldest}).Keys == data.Keys - {oldest};
    OldestIsLast(Recent(Keys(log)), data, |data.Keys|, oldest);
    EvictionHoldsNewest(data.Keys, Keys(log), oldest);
    EvictionFalls(Recent(Keys(log)), data, oldest);
  }

  lemma EvictionHoldsNewest<K(!new)>(held: set<K>, log: seq<K>, oldest: K)
    requires HoldsNewest(held, log) && held != {} && Recent(log)[|held| - 1] == oldest
    ensures |held - {oldest}| == |held| - 1 && HoldsNewest(held - {oldest}, log)
  {
    PrefixLosesLast(Recent(log), |held|, held, oldest);
    var left := held - {oldest};
    assert left == Newest(log, |left|);
  }

  lemma PrefixLosesLast<K(!new)>(keys: seq<K>, n: nat, held: set<K>, last: K)
    requires Distinct(keys) && 0 < n <= |keys| && keys[n - 1] == last && held == KeySet(keys[..n])
    ensures held - {last} == KeySet(keys[..n - 1]) && |held - {last}| == |held| - 1
    ensures n == |held| ==> held - {last} == KeySet(keys[..|held - {last}|])
  {
    assert keys[..n] == keys[..n - 1] + [last];
    assert last !in keys[..n - 1];
    SetLosesLast(keys[..n - 1], last);
  }

  lemma SetLosesLast<K(!new)>(front: seq<K>, last: K)
    requires last !in front
    ensures last in KeySet(front + [last]) && KeySet(front + [last]) - {last} == KeySet(front)
  {
  }

  lemma EvictionFalls<K(!new), V>(keys: seq<K>, data: map<K, CacheEntry<V>>, oldest: K)
    requires Falling(keys, data)
    ensures Falling(keys, data - {oldest})
  {
  }

  lemma OldestIsLast<K(!new), V>(keys: seq<K>, data: map<K, CacheEntry<V>>, n: nat, oldest: K)
    requires Distinct(keys) && Falling(keys, data) && n <= |keys| && IsOldest(data, oldest)
    requires data.Keys == KeySet(keys[..n])
    ensures n > 0 && keys[n - 1] == oldest
  {
    var i :| 0 <= i < n && keys[..n][i] == oldest;
    assert keys[..n][n - 1] in data.Keys;
  }

  lemma InsertionAgrees<K(!new), V>(data: map<K, CacheEntry<V>>, log: seq<(K, V)>, clock: int, k: K, value: V, now: int)
    requires Agrees(data, log, clock) && clock < now
    ensures |data[k := CacheEntry(value, now, 0)].Keys| == |data.Keys| + if k in data then 0 else 1
    ensures Agrees(data[k := CacheEntry(value, now, 0)], log + [(k, value)], now)
  {
    assert data[k := CacheEntry(value, now, 0)].Keys == data.Keys + {k};
    KeysSnoc(log, k, value);
    InsertionIsCurrent(data, log, clock, k, value, now);
    InsertionHoldsNewest(data.Keys, Keys(log), k);
    InsertionFalls(Recent(Keys(log)), data, clock, k, value, now);
    RecentSnoc(Keys(log), k);
  }

  lemma InsertionIsCurrent<K(!new), V>(data: map<K, CacheEntry<V>>, log: seq<(K, V)>, clock: int,
                                       k: K, value: V, now: int)
    requires Current(data, log, clock) && clock < now
    ensures Current(data[k := CacheEntry(value, now, 0)], log + [(k, value)], now)
  {
    assert (log + [(k, value)])[..|log|] == log;
  }

  lemma InsertionHoldsNewest<K(!new)>(held: set<K>, log: seq<K>, k: K)
    requires HoldsNewest(held, log)
    ensures HoldsNewest(held + {k}, log + [k])
    ensures |held + {k}| == |held| + if k in held then 0 else 1
  {
    NewestAfterInsert(log, k, |held|);
    assert k in held ==> held + {k} == held;
  }

  lemma KeysSnoc<K, V>(log: seq<(K, V)>, k: K, value: V)
    ensures Keys(log + [(k, value)]) == Keys(log) + [k]
  {
  }

  lemma RecentSnoc<K(!new)>(log: seq<K>, k: K)
    ensures Recent(log + [k]) == [k] + Removing(Recent(log), k)
  {
    assert (log + [k])[..|log|] == log;
  }

  lemma InsertionFalls<K(!new), V>(keys: seq<K>, data: map<K, CacheEntry<V>>, clock: int, k: K, value: V, now: int)
    requires Distinct(keys) && Falling(keys, data) && clock < now
    requires forall x :: x in data ==> data[x].lastAccess <= clock
    ensures Falling([k] + Removing(keys, k), data[k := CacheEntry(value, now, 0)])
  {
    RemovingFalling(keys, k, data);
    var rest := Removing(keys, k);
    assert k !in rest;
  }

  /** How many of `n` entries survive the eviction that precedes an insertion. */
  function Kept(n: nat, maxSize: nat): nat {
    if n >= maxSize && n > 0 then n - 1 else n
  }

  /** The size of a cache of bound `maxSize` after the inserts of `keys`, oldest first. */
  ghost function SizeAfter<K(!new)>(keys: seq<K>, maxSize: nat): (n: nat)
    ensures n <= |Recent(keys)|
    ensures n <= if maxSize > 0 then maxSize else 1
  {
    if keys == [] then 0
    else
      var before, k := keys[..|keys| - 1], keys[|keys| - 1];
      var kept := Kept(SizeAfter(before, maxSize), maxSize);
      NewestAfterInsert(before, k, kept);
      assert before + [k] == keys;
      if k in Newest(before, kept) then kept else kept + 1
  }

  lemma SizeSnoc<K(!new)>(keys: seq<K>, k: K, maxSize: nat)
    ensures var kept := Kept(SizeAfter(keys, maxSize), maxSize);
            SizeAfter(keys + [k], maxSize) == if k in Newest(keys, kept) then kept else kept + 1
  {
    assert (keys + [k])[..|keys|] == keys;
  }

  /** Without repeated keys nothing is evicted before the bound is reached, and the bound is kept from then on. */
  lemma {:induction false} DistinctKeysFillTheCache<K(!new)>(keys: seq<K>, maxSize: nat)
    requires Distinct(keys)
    ensures SizeAfter(keys, maxSize) == if maxSize == 0 then (if keys == [] then 0 else 1)
                                        else if |keys| < maxSize then |keys| else maxSize
  {
    if keys != [] {
      var before, k := keys[..|keys| - 1], keys[|keys| - 1];
      DistinctKeysFillTheCache(before, maxSize);
      SizeSnoc(before, k, maxSize);
      assert before + [k] == keys;
      assert k !in before;
    }
  }

  /** What an insertion leaves behind, after its eviction. */
  lemma AfterInsertion<K(!new), V>(data: map<K, CacheEntry<V>>, log: seq<(K, V)>, clock: int, k: K, value: V, now: int,
                                   maxSize: nat)
    requires Agrees(data, log, clock) && clock < now && |data.Keys| == Kept(SizeAfter(Keys(log), maxSize), maxSize)
    ensures var after, log' := data[k := CacheEntry(value, now, 0)], log + [(k, value)];
            Agrees(after, log', now) && |after.Keys| == SizeAfter(Keys(log'), maxSize)
    ensures |data[k := CacheEntry(value, now, 0)].Keys| ==
            if k in Newest(Keys(log), |data.Keys|) then |data.Keys| else |data.Keys| + 1
  {
    InsertionAgrees(data, log, clock, k, value, now);
    SizeSnoc(Keys(log), k, maxSize);
    KeysSnoc(log, k, value);
  }

  /** Whatever the stamps, a held key has its latest value. */
  ghost predicate HoldsLatest<K(!new), V>(data: map<K, CacheEntry<V>>, log: seq<(K, V)>) {
    forall k :: k in data ==> Latest(log, k) == Some(data[k].value)
  }

  lemma InsertionHoldsLatest<K(!new), V>(data: map<K, CacheEntry<V>>, log: seq<(K, V)>, k: K, value: V, now: int)
    requires HoldsLatest(data, log)
    ensures HoldsLatest(data[k := CacheEntry(value, now, 0)], log + [(k, value)])
    ensures |data[k := CacheEntry(value, now, 0)].Keys| == |data.Keys| + if k in data then 0 else 1
  {
    assert (log + [(k, value)])[..|log|] == log;
    assert data[k := CacheEntry(value, now, 0)].Keys == data.Keys + {k};
    assert k in data ==> data.Keys + {k} == data.Keys;
  }

  /** What the cache keeps, the second part while every stamp was later than the one before. */
  ghost predicate Sound<K(!new), V>(data: map<K, CacheEntry<V>>, log: seq<(K, V)>, clock: int, strict: bool) {
    HoldsLatest(data, log) && (strict ==> Agrees(data, log, clock))
  }

  lemma EvictionIsSound<K(!new), V>(data: map<K, CacheEntry<V>>, log: seq<(K, V)>, clock: int, strict: bool, oldest: K)
    requires Sound(data, log, clock, strict) && IsOldest(data, oldest)
    ensures Sound(data - {oldest}, log, clock, strict) && |(data - {oldest}).Keys| == |data.Keys| - 1
  {
    assert (data - {oldest}).Keys == data.Keys - {oldest};
    if strict {
      EvictionAgrees(data, log, clock, oldest);
    }
  }

  lemma InsertionIsSound<K(!new), V>(data: map<K, CacheEntry<V>>, log: seq<(K, V)>, clock: int, strict: bool,
                                     k: K, value: V, now: int, maxSize: nat)
    requires Sound(data, log, clock, strict)
    requires strict ==> |data.Keys| == Kept(SizeAfter(Keys(log), maxSize), maxSize)
    requires strict ==> log == [] || clock < now
    ensures var after, log' := data[k := CacheEntry(value, now, 0)], log + [(k, value)];
            && Sound(after, log', now, strict)
            && |after.Keys| == |data.Keys| + (if k in data then 0 else 1)
            && (strict ==> |after.Keys| == SizeAfter(Keys(log'), maxSize))
            && (strict ==> (k in data <==> k in Newest(Keys(log), |data.Keys|)))
  {
    InsertionHoldsLatest(data, log, k, value, now);
    if strict {
      AfterInsertion(data, log, if log == [] then now - 1 else clock, k, value, now, maxSize);
    }
  }

  /** And how large it is. */
  ghost predicate Holds<K(!new), V>(data: map<K, CacheEntry<V>>, log: seq<(K, V)>, clock: int, strict: bool,
                                    maxSize: nat)
  {
    && Sound(data, log, clock, strict)
    && |data.Keys| <= (if maxSize > 0 then maxSize else 1)
    && (strict ==> |data.Keys| == SizeAfter(Keys(log), maxSize))
  }

  /** What an eviction, if one is due, leaves for the insertion. */
  ghost predicate HasRoom<K(!new), V>(data: map<K, CacheEntry<V>>, log: seq<(K, V)>, clock: int, strict: bool,
                                      maxSize: nat, n: nat)
  {
    && Sound(data, log, clock, strict)
    && |data.Keys| == Kept(n, maxSize) && n <= (if maxSize > 0 then maxSize else 1)
    && (strict ==> n == SizeAfter(Keys(log), maxSize))
  }

  lemma EvictionMakesRoom<K(!new), V>(data: map<K, CacheEntry<V>>, log: seq<(K, V)>, clock: int, strict: bool,
                                      maxSize: nat, oldest: Option<K>)
    requires Holds(data, log, clock, strict, maxSize)
    requires oldest.Some? <==> |data.Keys| >= maxSize && data != map[]
    requires oldest.Some? ==> IsOldest(data, oldest.value)
    ensures HasRoom(if oldest.Some? then data - {oldest.value} else data, log, clock, strict, maxSize, |data.Keys|)
  {
    if oldest.Some? {
      EvictionIsSound(data, log, clock, strict, oldest.value);
    }
    assert |data.Keys| == 0 <==> data == map[];
  }

  lemma InsertionHolds<K(!new), V>(data: map<K, CacheEntry<V>>, log: seq<(K, V)>, clock: int, strict: bool,
                                   maxSize: nat, n: nat, k: K, value: V, now: int)
    requires HasRoom(data, log, clock, strict, maxSize, n)
    ensures var still, after := strict && (log == [] || clock < now), data[k := CacheEntry(value, now, 0)];
            && Holds(after, log + [(k, value)], now, still, maxSize)
            && Kept(n, maxSize) <= |after.Keys| <= Kept(n, maxSize) + 1
            && (still ==> (|after.Keys| == Kept(n, maxSize) <==> k in Newest(Keys(log), Kept(n, maxSize))))
  {
    InsertionIsSound(data, log, clock, strict && (log == [] || clock < now), k, value, now, maxSize);
  }

  /** A read counts, but changes no value and no stamp. */
  lemma ReadHolds<K(!new), V>(data: map<K, CacheEntry<V>>, log: seq<(K, V)>, clock: int, strict: bool,
                              maxSize: nat, k: K)
    requires Holds(data, log, clock, strict, maxSize) && k in data
    ensures data[k := data[k].(accessCount := data[k].accessCount + 1)].Keys == data.Keys
    ensures Holds(data[k := data[k].(accessCount := data[k].accessCount + 1)], log, clock, strict, maxSize)
  {
    var read := data[k := data[k].(accessCount := data[k].accessCount + 1)];
    assert read.Keys == data.Keys;
  }

  /** `k` has the new entry, and of the others at most an oldest one is gone, and only from a full cache. */
  ghost predicate Replaces<K(!new), V>(before: map<K, CacheEntry<V>>, after: map<K, CacheEntry<V>>, k: K,
                                       entry: CacheEntry<V>, maxSize: nat)
  {
    && k in after && after[k] == entry
    && (forall x :: x in after && x != k ==> x in before && after[x] == before[x])
    && (forall x :: x in before && x !in after ==> IsOldest(before, x) && |before.Keys| >= maxSize)
    && |before.Keys| - 1 <= |after.Keys| <= |before.Keys| + 1
  }

  lemma OldestIsReplaced<K(!new), V>(before: map<K, CacheEntry<V>>, oldest: Option<K>, k: K, entry: CacheEntry<V>,
                                     maxSize: nat)
    requires oldest.Some? ==> IsOldest(before, oldest.value) && |before.Keys| >= maxSize
    ensures var left := if oldest.Some? then before - {oldest.value} else before;
            Replaces(before, left[k := entry], k, entry, maxSize)
  {
    var left := if oldest.Some? then before - {oldest.value} else before;
    assert left.Keys == if oldest.Some? then before.Keys - {oldest.value} else before.Keys;
    assert left[k := entry].Keys == left.Keys + {k};
  }

  class LockFreeCache<K(==,!new), V> {
    var data: map<K, CacheEntry<V>>
    const maxSize: nat
    ghost var log: seq<(K, V)>    // every insertion, oldest first
    ghost var clock: int          // the stamp of the last insertion
    ghost var strict: bool        // whether every stamp so far was later than the one before

    ghost predicate Valid()
      reads this
    {
      Holds(data, log, clock, strict, maxSize)
    }

    constructor (maxSize: nat)
      ensures Valid() && strict && log == [] && data == map[] && this.maxSize == maxSize
    {
      data := map[];
      log := [];
      strict := true;
      this.maxSize := maxSize;
      assert Newest<K>([], 0) == {};
    }

    /** Answers exactly as an unbounded map would, except for keys that are no longer held. */
    method Get(k: K) returns (r: Option<V>)
      requires Valid()
      modifies this`data
      ensures Valid() && data.Keys == old(data.Keys)
      ensures forall x :: x in data && x != k ==> data[x] == old(data[x])
      ensures r == if k in data.Keys then Latest(log, k) else None
      ensures k in data ==>
                r == Some(data[k].value) && data[k] == old(data)[k].(accessCount := old(data)[k].accessCount + 1)
    {
      if k in data {
        var entry := data[k];
        ReadHolds(data, log, clock, strict, maxSize, k);
        data := data[k := entry.(accessCount := entry.accessCount + 1)];
        r := Some(entry.value);
      } else {
        r := None;
      }
    }

    /**
     A full cache first loses its oldest key, even when `k` itself is present,
     so re-inserting a held key can shrink the cache.
     */
    method Insert(k: K, value: V, now: int)
      requires Valid()
      modifies this
      ensures Valid() && log == old(log) + [(k, value)] && clock == now
      ensures strict == (old(strict) && (old(log) == [] || old(clock) < now))
      ensures var kept := Kept(old(|data.Keys|), maxSize);
              && kept <= |data.Keys| <= kept + 1
              && (strict ==> (|data.Keys| == kept <==> k in old(Newest(Keys(log), kept))))
      // the new entry, and of the others at most an oldest one gone, and only from a full cache
      ensures Replaces(old(data), data, k, CacheEntry(value, now, 0), maxSize)
    {
      ghost var before := data;
      var oldest := None;
      if |data.Keys| >= maxSize {
        oldest := FindOldestKey();
        if oldest.Some? {
          data := data - {oldest.value};
        }
      }
      EvictionMakesRoom(before, log, clock, strict, maxSize, oldest);
      InsertionHolds(data, log, clock, strict, maxSize, |before.Keys|, k, value, now);
      OldestIsReplaced(before, oldest, k, CacheEntry(value, now, 0), maxSize);
      data := data[k := CacheEntry(value, now, 0)];
      log, clock, strict := log + [(k, value)], now, strict && (log == [] || clock < now);
    }

    /** The first minimum over the map's entries, whatever order they come in. */
    method FindOldestKey() returns (oldest: Option<K>)
      ensures oldest == None <==> data == map[]
      ensures oldest.Some? ==> IsOldest(data, oldest.value)
    {
      oldest := None;
      var pending := data.Keys;
      while pending != {}
        invariant pending <= data.Keys
        invariant oldest == None ==> pending == data.Keys
        invariant oldest.Some? ==> oldest.value in data
        invariant oldest.Some? ==>
          forall x :: x in data && x !in pending ==> data[oldest.value].lastAccess <= data[x].lastAccess
        decreases pending
      {
        var k :| k in pending;
        pending := pending - {k};
        if oldest.None? || data[k].lastAccess < data[oldest.value].lastAccess {
          oldest := Some(k);
        }
      }
    }
  }
}
