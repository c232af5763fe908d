/** The bounded TTL replay cache, and its agreement with a full history of recordings. */
module ReplayCache {
  import opened Common

  type Key = Bytes
  type Time = int

  function EvictCount(size: nat): (r: nat) { Max(1, size / 10) }

  /** `after` is `before` without `count` entries, none of which is newer than any entry kept. */
  ghost predicate EvictsOldest(before: map<Key, Time>, after: map<Key, Time>, count: nat) {
    && (forall k <- after :: k in before && after[k] == before[k])
    && |after| + Min(count, |before|) == |before|
    && (forall k <- before, o <- after :: k !in after ==> before[k] <= before[o])
  }

  /** evictExpired: entries strictly older than the cut-off go. */
  function Unexpired(entries: map<Key, Time>, cutoff: Time): (r: map<Key, Time>) {
    map k | k in entries && entries[k] >= cutoff :: entries[k]
  }

  predicate Hit(entries: map<Key, Time>, ttl: int, key: Key, now: Time) {
    key in entries && now - entries[key] < ttl
  }

  /** One CheckAndAdd that does not hit: evict when full, in any order among equal times, then record. */
  ghost predicate Recorded(before: map<Key, Time>, evicted: map<Key, Time>, after: map<Key, Time>, maxSize: nat, key: Key, now: Time) {
    && (if |before| >= maxSize then EvictsOldest(before, evicted, EvictCount(|before|)) else evicted == before)
    && after == evicted[key := now]
  }

  // ----- sorting by time -----------------------------------------------------------------------

  predicate Sorted(s: seq<(Key, Time)>) {
    forall i, j :: 0 <= i < j < |s| ==> s[i].1 <= s[j].1
  }

  ghost predicate DistinctKeys(s: seq<(Key, Time)>) {
    forall i, j :: 0 <= i < j < |s| ==> s[i].0 != s[j].0
  }

  /** Same length and members; for lists with distinct keys, a permutation. */
  ghost predicate Permutes(a: seq<(Key, Time)>, b: seq<(Key, Time)>) {
    |a| == |b| && DistinctKeys(b) && forall x :: x in a <==> x in b
  }

  ghost predicate FitsAt(s: seq<(Key, Time)>, x: (Key, Time), k: nat) {
    && k <= |s|
    && (forall i :: 0 <= i < k ==> s[i].1 <= x.1)
    && (forall i :: k <= i < |s| ==> x.1 <= s[i].1)
  }

  method FindSlot(s: seq<(Key, Time)>, x: (Key, Time)) returns (k: nat)
    requires Sorted(s)
    ensures FitsAt(s, x, k)
  {
    k := 0;
    while k < |s| && s[k].1 <= x.1
      invariant 0 <= k <= |s|
      invariant forall i :: 0 <= i < k ==> s[i].1 <= x.1
    {
      k := k + 1;
    }
  }

  function InsertAt(s: seq<(Key, Time)>, x: (Key, Time), k: nat): (r: seq<(Key, Time)>)
    requires k <= |s|
    ensures |r| == |s| + 1
    ensures forall i :: 0 <= i < |r| ==> r[i] == if i < k then s[i] else if i == k then x else s[i - 1]
  {
    s[..k] + [x] + s[k..]
  }

  lemma InsertKeepsSorted(s: seq<(Key, Time)>, x: (Key, Time), k: nat)
    requires Sorted(s) && FitsAt(s, x, k)
    ensures Sorted(InsertAt(s, x, k))
  {}

  lemma InsertKeepsPermutation(done: seq<(Key, Time)>, s: seq<(Key, Time)>, x: (Key, Time), k: nat)
    requires Permutes(done, s) && k <= |s| && forall y <- s :: y.0 != x.0
    ensures Permutes(done + [x], InsertAt(s, x, k))
  {
    var r := InsertAt(s, x, k);
    assert s == s[..k] + s[k..];
    assert r[k] == x;
    forall i, j | 0 <= i < j < |r|
      ensures r[i].0 != r[j].0
    {
      if i == k { assert r[j] in s; } else if j == k { assert r[i] in s; }
    }
  }

  method SortByTime(all: seq<(Key, Time)>) returns (sorted: seq<(Key, Time)>)
    requires DistinctKeys(all)
    ensures Sorted(sorted) && Permutes(all, sorted)
  {
    sorted := [];
    for i := 0 to |all|
      invariant Sorted(sorted) && Permutes(all[..i], sorted)
    {
      assert all[..i + 1] == all[..i] + [all[i]];
      assert forall y <- sorted :: y.0 != all[i].0;
      var k := FindSlot(sorted, all[i]);
      InsertKeepsSorted(sorted, all[i], k);
      InsertKeepsPermutation(all[..i], sorted, all[i], k);
      sorted := InsertAt(sorted, all[i], k);
    }
    assert all[..|all|] == all;
  }

  // ----- the cache object ----------------------------------------------------------------------

  class TTLCache {
    var entries: map<Key, Time>
    const ttl: int
    const maxSize: nat

    ghost predicate Valid()
      reads this
    {
      maxSize >= 1 && |entries| <= maxSize
    }

    /** New: a non-positive size means the default of 10000. */
    constructor (ttl: int, size: int)
      ensures Valid() && entries == map[] && this.ttl == ttl
      ensures maxSize == if size <= 0 then 10000 else size
    {
      this.ttl := ttl;
      maxSize := if size <= 0 then 10000 else size;
      entries := map[];
    }

    method CollectEntries() returns (all: seq<(Key, Time)>)
      ensures DistinctKeys(all) && |all| == |entries|
      ensures forall x :: x in all <==> x.0 in entries && entries[x.0] == x.1
    {
      all := [];
      var todo := entries.Keys;
      while todo != {}
        invariant todo <= entries.Keys && DistinctKeys(all)
        invariant |all| + |todo| == |entries|
        invariant forall x :: x in all <==> x.0 in entries.Keys - todo && entries[x.0] == x.1
        decreases todo
      {
        var k :| k in todo;
        todo := todo - {k};
        all := all + [(k, entries[k])];
      }
    }

    /** Deletes the first `count` listed keys. */
    method DeleteFirst(sorted: seq<(Key, Time)>, count: nat) returns (i: nat)
      requires DistinctKeys(sorted) && |sorted| == |entries|
      requires forall j :: 0 <= j < |sorted| ==> sorted[j].0 in entries
      modifies this
      ensures i == Min(count, |sorted|) && |entries| + i == |old(entries)|
      ensures forall j :: 0 <= j < i ==> sorted[j].0 !in entries
      ensures forall j :: i <= j < |sorted| ==> sorted[j].0 in entries
      ensures forall k <- entries :: k in old(entries) && entries[k] == old(entries)[k]
    {
      i := 0;
      while i < count && i < |sorted|
        invariant 0 <= i <= |sorted| && i <= count
        invariant forall j :: 0 <= j < i ==> sorted[j].0 !in entries
        invariant forall j :: i <= j < |sorted| ==> sorted[j].0 in entries
        invariant forall k <- entries :: k in old(entries) && entries[k] == old(entries)[k]
        invariant |entries| + i == |old(entries)|
      {
        ghost var was := entries;
        entries := entries - {sorted[i].0};
        assert entries.Keys == was.Keys - {sorted[i].0};
        i := i + 1;
      }
    }

    method EvictOldestLocked()
      modifies this
      ensures EvictsOldest(old(entries), entries, EvictCount(|old(entries)|))
    {
      var evictCount := |entries| / 10;
      if evictCount < 1 { evictCount := 1; }
      var all := CollectEntries();
      var sorted := SortByTime(all);
      assert forall j :: 0 <= j < |sorted| ==> sorted[j] in all;
      ghost var before := entries;
      assert forall k <- before :: (k, before[k]) in sorted;
      var i := DeleteFirst(sorted, evictCount);
      SortedSplit(before, entries, sorted, i);
    }

    /** True exactly on a live entry; otherwise the key is recorded now, after eviction if the cache is full. */
    method CheckAndAdd(key: Key, now: Time) returns (replay: bool)
      requires Valid()
      modifies this
      ensures Valid()
      ensures replay == old(Hit(entries, ttl, key, now))
      ensures replay ==> entries == old(entries)
      ensures !replay ==> exists evicted :: Recorded(old(entries), evicted, entries, maxSize, key, now)
    {
      if key in entries && now - entries[key] < ttl { return true; }
      ghost var before := entries;
      if |entries| >= maxSize { EvictOldestLocked(); }
      ghost var evicted := entries;
      entries := entries[key := now];
      assert Recorded(before, evicted, entries, maxSize, key, now);
      assert |entries| <= |evicted| + 1 by {
        assert entries.Keys == evicted.Keys + {key};
      }
      return false;
    }

    method EvictExpired(now: Time)
      requires Valid()
      modifies this
      ensures Valid() && entries == Unexpired(old(entries), now - ttl)
    {
      ghost var before := entries;
      var todo := entries.Keys;
      while todo != {}
        invariant todo <= before.Keys
        invariant entries == map k | k in before && (k in todo || before[k] >= now - ttl) :: before[k]
        decreases todo
      {
        var k :| k in todo;
        todo := todo - {k};
        if entries[k] < now - ttl { entries := entries - {k}; }
      }
      SubMapSize(before, entries);
    }
  }

  lemma SortedSplit(before: map<Key, Time>, after: map<Key, Time>, sorted: seq<(Key, Time)>, i: nat)
    requires Sorted(sorted) && i <= |sorted|
    requires forall j :: 0 <= j < |sorted| ==> sorted[j].0 in before && before[sorted[j].0] == sorted[j].1
    requires forall k <- before :: (k, before[k]) in sorted
    requires forall j :: 0 <= j < i ==> sorted[j].0 !in after
    requires forall j :: i <= j < |sorted| ==> sorted[j].0 in after
    requires forall k <- after :: k in before
    ensures forall k <- before, o <- after :: k !in after ==> before[k] <= before[o]
  {
    forall k <- before, o <- after | k !in after
      ensures before[k] <= before[o]
    {
      assert (k, before[k]) in sorted && (o, before[o]) in sorted;
      var a :| 0 <= a < |sorted| && sorted[a] == (k, before[k]);
      var b :| 0 <= b < |sorted| && sorted[b] == (o, before[o]);
    }
  }

  lemma SubMapSize(big: map<Key, Time>, small: map<Key, Time>)
    requires small.Keys <= big.Keys
    ensures |small| <= |big|
  {
    SubsetSize(small.Keys, big.Keys);
  }

  // ----- agreement with a full history ---------------------------------------------------------

  /** The cache with an unbounded memory of every key's last recording and of capacity evictions since. */
  datatype History = History(entries: map<Key, Time>, last: map<Key, Time>, evicted: set<Key>, now: Time)

  datatype Op = Check(key: Key, at: Time) | Cleanup(at: Time)

  /** The specification: recorded less than a TTL ago, and not evicted for lack of room since. */
  predicate Seen(h: History, ttl: int, key: Key, now: Time) {
    key in h.last && now - h.last[key] < ttl && key !in h.evicted
  }

  ghost predicate Step(h: History, ttl: int, maxSize: nat, op: Op, h': History) {
    && op.at >= h.now && h'.now == op.at
    && match op
       case Cleanup(at) => h' == h.(entries := Unexpired(h.entries, at - ttl), now := at)
       case Check(key, at) =>
         if Hit(h.entries, ttl, key, at) then h' == h.(now := at)
         else
           exists kept :: && Recorded(h.entries, kept, h'.entries, maxSize, key, at)
                          && h'.last == h.last[key := at]
                          && h'.evicted == h.evicted + (h.entries.Keys - kept.Keys) - {key}
  }

  ghost predicate Agrees(h: History, ttl: int, maxSize: nat) {
    && maxSize >= 1 && |h.entries| <= maxSize
    && (forall k <- h.entries :: k in h.last && h.entries[k] == h.last[k] <= h.now && k !in h.evicted)
    && (forall k <- h.last :: k in h.entries || k in h.evicted || h.now - h.last[k] >= ttl)
    && (forall k <- h.evicted :: k in h.last)
  }

  function Empty(now: Time): (r: History) { History(map[], map[], {}, now) }

  lemma RecordKeepsAgreement(h: History, ttl: int, maxSize: nat, key: Key, at: Time, kept: map<Key, Time>, h': History)
    requires Agrees(h, ttl, maxSize) && at >= h.now
    requires Recorded(h.entries, kept, h'.entries, maxSize, key, at)
    requires h' == h.(entries := h'.entries, last := h.last[key := at],
                      evicted := h.evicted + (h.entries.Keys - kept.Keys) - {key}, now := at)
    ensures Agrees(h', ttl, maxSize)
  {
    assert h'.entries.Keys == kept.Keys + {key};
    assert |h'.entries| <= |kept| + 1;
  }

  lemma StepKeepsAgreement(h: History, ttl: int, maxSize: nat, op: Op, h': History)
    requires Agrees(h, ttl, maxSize) && Step(h, ttl, maxSize, op, h')
    ensures Agrees(h', ttl, maxSize)
  {
    match op
    case Cleanup(at) => SubMapSize(h.entries, h'.entries);
    case Check(key, at) =>
      if !Hit(h.entries, ttl, key, at) {
        var kept :| && Recorded(h.entries, kept, h'.entries, maxSize, key, at)
                    && h'.last == h.last[key := at]
                    && h'.evicted == h.evicted + (h.entries.Keys - kept.Keys) - {key};
        RecordKeepsAgreement(h, ttl, maxSize, key, at, kept, h');
      }
  }

  ghost predicate Run(start: History, ttl: int, maxSize: nat, ops: seq<Op>, end: History)
    decreases |ops|
  {
    if ops == [] then start == end
    else exists h :: Run(start, ttl, maxSize, Front(ops), h) && Step(h, ttl, maxSize, Last(ops), end)
  }

  /**
    Over every run with a non-decreasing clock: a check reports a replay exactly when the full history has a
    recording less than a TTL old that was not evicted for lack of room, and the size bound holds.
  */
  lemma {:induction false} CacheRefinesHistory(ttl: int, maxSize: nat, start: Time, ops: seq<Op>, end: History)
    requires maxSize >= 1 && Run(Empty(start), ttl, maxSize, ops, end)
    ensures Agrees(end, ttl, maxSize) && |end.entries| <= maxSize
    ensures forall key, at :: at >= end.now ==> (Hit(end.entries, ttl, key, at) <==> Seen(end, ttl, key, at))
    decreases |ops|
  {
    if ops != [] {
      var h :| Run(Empty(start), ttl, maxSize, Front(ops), h) && Step(h, ttl, maxSize, Last(ops), end);
      CacheRefinesHistory(ttl, maxSize, start, Front(ops), h);
      StepKeepsAgreement(h, ttl, maxSize, Last(ops), end);
    }
  }

  /** Background cleanup never changes the answer of any later check. */
  lemma CleanupIsInvisible(h: History, ttl: int, maxSize: nat, at: Time, h': History, key: Key, now: Time)
    requires Agrees(h, ttl, maxSize) && Step(h, ttl, maxSize, Cleanup(at), h') && now >= at
    ensures Hit(h'.entries, ttl, key, now) <==> Hit(h.entries, ttl, key, now)
  {}

  /** A key loses its entry to a full cache only when 90% of the cache is no older than it. */
  lemma EvictionSparesRecent(before: map<Key, Time>, after: map<Key, Time>, maxSize: nat, key: Key)
    requires |before| == maxSize >= 1 && EvictsOldest(before, after, EvictCount(maxSize))
    requires key in before && key !in after
    ensures |after| >= maxSize - Max(1, maxSize / 10)
    ensures key !in after && forall o <- after :: o in before && before[o] >= before[key]
  {}
}
