/** New Session replay prevention: DateTime freshness window plus replay cache. */
module Freshness {
  import opened Common
  import opened Payload
  import opened ReplayCache

  const SECOND := 1_000_000_000
  const MINUTE := 60 * SECOND
  const CACHE_SIZE := 50000

  /** Accepted clock skew, configurable; the defaults are five minutes back and two ahead. */
  datatype Limits = Limits(past: int, future: int)

  function CacheTtl(l: Limits): (r: int) { l.past + l.future + MINUTE }

  predicate InWindow(l: Limits, stamp: Time, now: Time) { -l.future <= now - stamp <= l.past }

  predicate FreshBlocks(l: Limits, blocks: seq<Block>, now: Time) {
    blocks != [] && DateTime(blocks[0]).Some? && InWindow(l, DateTime(blocks[0]).value * SECOND, now)
  }

  /** The payload parses, its first block is a well-formed DateTime, and that time is within the window. */
  ghost predicate FreshPayload(l: Limits, payload: Bytes, now: Time) {
    exists blocks :: Encodes(blocks, payload) && FreshBlocks(l, blocks, now)
  }

  method ValidateNSDateTimeFreshness(l: Limits, payload: Bytes, now: Time) returns (ok: bool)
    ensures ok <==> FreshPayload(l, payload, now)
  {
    var parsed := ParsePayload(payload);
    if parsed.Err? { return false; }
    var blocks := parsed.value;
    ok := false;
    if |blocks| > 0 && blocks[0].kind == BLOCK_DATETIME {
      var t := DateTime(blocks[0]);
      if t.Some? {
        var elapsed := now - t.value * SECOND;
        ok := elapsed <= l.past && elapsed >= -l.future;
      }
    }
    forall other | Encodes(other, payload)
      ensures other == blocks
    {
      EncodesUnique(blocks, other, payload);
    }
  }

  /**
    Accepted is exactly a payload that starts with the DateTime block of some uint32 time which lies at most `past`
    behind the clock and at most `future` ahead of it, whatever blocks follow.
  */
  lemma FreshIff(l: Limits, payload: Bytes, now: Time)
    ensures FreshPayload(l, payload, now) <==>
            exists seconds: nat, rest :: && seconds < 0x1_0000_0000 && Encodes([DateTimeBlock(seconds)] + rest, payload)
                                         && now - 1_000_000_000 * seconds <= l.past && 1_000_000_000 * seconds - now <= l.future
  {
    if FreshPayload(l, payload, now) {
      var blocks :| Encodes(blocks, payload) && FreshBlocks(l, blocks, now);
      var seconds := DateTime(blocks[0]).value;
      DateTimeUnique(blocks[0]);
      assert blocks == [DateTimeBlock(seconds)] + blocks[1..];
    }
    forall seconds: nat, rest | && seconds < U32 && Encodes([DateTimeBlock(seconds)] + rest, payload)
                                && now - SECOND * seconds <= l.past && SECOND * seconds - now <= l.future
      ensures FreshPayload(l, payload, now)
    {
      DateTimeRoundTrip(seconds);
      assert FreshBlocks(l, [DateTimeBlock(seconds)] + rest, now);
    }
  }

  lemma StampIsUnique(seconds: nat, rest: seq<Block>, payload: Bytes, s: nat, r: seq<Block>)
    requires seconds < U32 && Encodes([DateTimeBlock(seconds)] + rest, payload)
    requires s < U32 && Encodes([DateTimeBlock(s)] + r, payload)
    ensures s == seconds
  {
    hide WireAll, Be32;
    EncodesUnique([DateTimeBlock(s)] + r, [DateTimeBlock(seconds)] + rest, payload);
    assert ([DateTimeBlock(s)] + r)[0] == ([DateTimeBlock(seconds)] + rest)[0];
    DateTimeRoundTrip(s);
    DateTimeRoundTrip(seconds);
    hide DateTime, DateTimeBlock;
  }

  /** For one payload: when it is accepted. The two limits are different ones, and both are inclusive. */
  lemma FreshBetween(l: Limits, seconds: nat, rest: seq<Block>, payload: Bytes, now: Time)
    requires seconds < 0x1_0000_0000 && Encodes([DateTimeBlock(seconds)] + rest, payload)
    ensures FreshPayload(l, payload, now) <==>
            1_000_000_000 * seconds - l.future <= now <= 1_000_000_000 * seconds + l.past
  {
    FreshIff(l, payload, now);
    if FreshPayload(l, payload, now) {
      var s: nat, r :| && s < 0x1_0000_0000 && Encodes([DateTimeBlock(s)] + r, payload)
                       && now - 1_000_000_000 * s <= l.past && 1_000_000_000 * s - now <= l.future;
      StampIsUnique(seconds, rest, payload, s, r);
    }
  }

  // ----- concurrent New Session processing -----------------------------------------------------

  /** A bound New Session message: its ephemeral key (first 32 bytes) and the timestamp in its payload. */
  datatype Message = Message(eph: Key, stamp: Time)

  /** An accepted message with the two clock readings of its call. */
  datatype Acceptance = Acceptance(m: Message, checked: Time, at: Time)

  datatype Node = Node(
    cache: History,
    waiting: seq<(Message, Time)>,     // passed the freshness check, cache not yet consulted
    log: seq<Acceptance>)

  datatype Event = Check1(m: Message, at: Time) | Check2(i: nat, at: Time) | Sweep(at: Time)

  /** One clock reading; calls of different messages interleave, each taking under a minute between its readings. */
  ghost predicate Step(l: Limits, n: Node, e: Event, n': Node) {
    match e
    case Check1(m, at) =>
      && at >= n.cache.now
      && n' == n.(cache := n.cache.(now := at), waiting := n.waiting + if InWindow(l, m.stamp, at) then [(m, at)] else [])
    case Check2(i, at) =>
      && i < |n.waiting| && at < n.waiting[i].1 + MINUTE
      && var m := n.waiting[i].0;
      && ReplayCache.Step(n.cache, CacheTtl(l), CACHE_SIZE, Check(m.eph, at), n'.cache)
      && n'.waiting == Without(n.waiting, i)
      && n'.log == n.log + if Hit(n.cache.entries, CacheTtl(l), m.eph, at) then [] else [Acceptance(m, n.waiting[i].1, at)]
    case Sweep(at) =>
      && ReplayCache.Step(n.cache, CacheTtl(l), CACHE_SIZE, Cleanup(at), n'.cache)
      && n'.waiting == n.waiting && n'.log == n.log
  }

  function Start(now: Time): (r: Node) { Node(Empty(now), [], []) }

  ghost predicate Run(l: Limits, start: Node, es: seq<Event>, end: Node)
    decreases |es|
  {
    if es == [] then start == end
    else exists n :: Run(l, start, Front(es), n) && Step(l, n, Last(es), end)
  }

  /** Other keys recorded at or after a time. */
  function Others(log: seq<Acceptance>, since: Time, key: Key): (r: set<Key>) {
    set a | a in log && a.at >= since && a.m.eph != key :: a.m.eph
  }

  lemma OthersGrow(log: seq<Acceptance>, more: seq<Acceptance>, since: Time, earlier: Time, key: Key)
    requires earlier <= since
    ensures |Others(log, since, key)| <= |Others(log + more, earlier, key)|
  {
    SubsetSize(Others(log, since, key), Others(log + more, earlier, key));
  }

  const SPARED := 45000

  ghost predicate CallsInWindow(l: Limits, n: Node) {
    && (forall w <- n.waiting :: InWindow(l, w.0.stamp, w.1) && w.1 <= n.cache.now)
    && (forall a <- n.log :: InWindow(l, a.m.stamp, a.checked) && a.checked <= a.at < a.checked + MINUTE)
  }

  /** The log explains the cache's history. */
  ghost predicate LogExplains(n: Node) {
    && (forall a <- n.log :: a.m.eph in n.cache.last && a.at <= n.cache.last[a.m.eph] <= n.cache.now)
    && (forall k <- n.cache.last :: exists a :: a in n.log && a.m.eph == k && a.at == n.cache.last[k])
    && (forall k <- n.cache.evicted :: k in n.cache.last && |Others(n.log, n.cache.last[k], k)| >= SPARED)
  }

  /** A message accepted twice was flushed in between by at least 45000 other keys. */
  ghost predicate NoFreeReplay(log: seq<Acceptance>) {
    forall i, j :: 0 <= i < j < |log| && log[i].m == log[j].m ==>
      |Others(log[..j], log[i].at, log[i].m.eph)| >= SPARED
  }

  ghost predicate Inv(l: Limits, n: Node) {
    && Agrees(n.cache, CacheTtl(l), CACHE_SIZE)
    && CallsInWindow(l, n) && LogExplains(n) && NoFreeReplay(n.log)
  }

  /** Freshness forces a replay to fall within a TTL of the earlier recording. */
  lemma ReplayIsRecent(l: Limits, n: Node, w: (Message, Time), at: Time, a: Acceptance)
    requires Inv(l, n) && w in n.waiting && a in n.log && a.m == w.0
    requires at < w.1 + MINUTE
    ensures at - n.cache.last[a.m.eph] < CacheTtl(l)
  {}

  /** And no shorter TTL would do: a message can be fresh at its first check and again at one that much later. */
  lemma TtlIsTight(l: Limits, stamp: Time)
    requires l.past + l.future >= 0
    ensures var (first, again) := (stamp - l.future, stamp + l.past);
            && InWindow(l, stamp, first) && InWindow(l, stamp, again)
            && (again + 60_000_000_000 - 1) - first == CacheTtl(l) - 1
  {}

  /** So if it is accepted all the same, the key had been evicted for lack of room. */
  lemma AcceptedAgainMeansEvicted(l: Limits, n: Node, w: (Message, Time), at: Time, a: Acceptance)
    requires Inv(l, n) && w in n.waiting && a in n.log && a.m == w.0
    requires n.cache.now <= at < w.1 + MINUTE && !Hit(n.cache.entries, CacheTtl(l), a.m.eph, at)
    ensures |Others(n.log, a.at, a.m.eph)| >= SPARED
  {
    ReplayIsRecent(l, n, w, at, a);
    var last := n.cache.last[a.m.eph];
    assert a.m.eph in n.cache.evicted;
    OthersGrow(n.log, [], last, a.at, a.m.eph);
    assert n.log + [] == n.log;
  }

  /** A full cache that evicts a key keeps 45000 others that are no older, all of them in the log. */
  lemma EvictionIsExplained(l: Limits, n: Node, kept: map<Key, Time>, key: Key)
    requires Inv(l, n) && |n.cache.entries| >= CACHE_SIZE
    requires EvictsOldest(n.cache.entries, kept, EvictCount(|n.cache.entries|))
    requires key in n.cache.entries && key !in kept
    ensures |Others(n.log, n.cache.last[key], key)| >= SPARED
  {
    EvictionSparesRecent(n.cache.entries, kept, CACHE_SIZE, key);
    var others := Others(n.log, n.cache.last[key], key);
    forall o <- kept
      ensures o in others
    {
      var a :| a in n.log && a.m.eph == o && a.at == n.cache.last[o];
    }
    SubsetSize(kept.Keys, others);
  }

  /** What the cache and the log look like after a message was accepted. */
  ghost predicate Accepts(n: Node, a: Acceptance, kept: map<Key, Time>, n': Node) {
    && a.at == n'.cache.now >= n.cache.now
    && Recorded(n.cache.entries, kept, n'.cache.entries, CACHE_SIZE, a.m.eph, a.at)
    && n'.cache.last == n.cache.last[a.m.eph := a.at]
    && n'.cache.evicted == n.cache.evicted + (n.cache.entries.Keys - kept.Keys) - {a.m.eph}
    && n'.log == n.log + [a]
  }

  lemma LastIsLogged(l: Limits, n: Node, a: Acceptance, kept: map<Key, Time>, n': Node)
    requires Inv(l, n) && Accepts(n, a, kept, n')
    ensures forall b <- n'.log :: b.m.eph in n'.cache.last && b.at <= n'.cache.last[b.m.eph] <= n'.cache.now
    ensures forall k <- n'.cache.last :: exists b :: b in n'.log && b.m.eph == k && b.at == n'.cache.last[k]
  {
    forall k <- n'.cache.last
      ensures exists b :: b in n'.log && b.m.eph == k && b.at == n'.cache.last[k]
    {
      if k == a.m.eph {
        assert a in n'.log;
      } else {
        var b :| b in n.log && b.m.eph == k && b.at == n.cache.last[k];
        assert b in n'.log;
      }
    }
  }

  lemma EvictedIsFlushed(l: Limits, n: Node, a: Acceptance, kept: map<Key, Time>, n': Node)
    requires Inv(l, n) && Accepts(n, a, kept, n')
    ensures forall k <- n'.cache.evicted :: k in n'.cache.last && |Others(n'.log, n'.cache.last[k], k)| >= SPARED
  {
    forall k <- n'.cache.evicted
      ensures k in n'.cache.last && |Others(n'.log, n'.cache.last[k], k)| >= SPARED
    {
      if k !in n.cache.evicted { EvictionIsExplained(l, n, kept, k); }
      OthersGrow(n.log, [a], n.cache.last[k], n.cache.last[k], k);
    }
  }

  lemma ReplayIsFlushed(l: Limits, n: Node, w: (Message, Time), at: Time)
    requires Inv(l, n) && w in n.waiting && n.cache.now <= at < w.1 + MINUTE
    requires !Hit(n.cache.entries, CacheTtl(l), w.0.eph, at)
    ensures NoFreeReplay(n.log + [Acceptance(w.0, w.1, at)])
  {
    var log := n.log + [Acceptance(w.0, w.1, at)];
    forall p, q | 0 <= p < q < |log| && log[p].m == log[q].m
      ensures |Others(log[..q], log[p].at, log[p].m.eph)| >= SPARED
    {
      assert log[..q] == n.log[..q];
      if q == |n.log| {
        AcceptedAgainMeansEvicted(l, n, w, at, n.log[p]);
        assert n.log[..q] == n.log;
      }
    }
  }

  lemma RecordKeepsInv(l: Limits, n: Node, i: nat, at: Time, n': Node, kept: map<Key, Time>)
    requires Inv(l, n) && i < |n.waiting| && at < n.waiting[i].1 + MINUTE
    requires !Hit(n.cache.entries, CacheTtl(l), n.waiting[i].0.eph, at)
    requires Accepts(n, Acceptance(n.waiting[i].0, n.waiting[i].1, at), kept, n') && n'.waiting == Without(n.waiting, i)
    ensures CallsInWindow(l, n') && LogExplains(n') && NoFreeReplay(n'.log)
  {
    var w := n.waiting[i];
    var a := Acceptance(w.0, w.1, at);
    assert w in n.waiting;
    LastIsLogged(l, n, a, kept, n');
    EvictedIsFlushed(l, n, a, kept, n');
    ReplayIsFlushed(l, n, w, at);
  }

  lemma StepKeepsInv(l: Limits, n: Node, e: Event, n': Node)
    requires Inv(l, n) && Step(l, n, e, n')
    ensures Inv(l, n')
  {
    match e
    case Check1(m, at) =>
    case Sweep(at) => StepKeepsAgreement(n.cache, CacheTtl(l), CACHE_SIZE, Cleanup(at), n'.cache);
    case Check2(i, at) =>
      var key := n.waiting[i].0.eph;
      StepKeepsAgreement(n.cache, CacheTtl(l), CACHE_SIZE, Check(key, at), n'.cache);
      if Hit(n.cache.entries, CacheTtl(l), key, at) {
        assert n.log + [] == n.log;
      } else {
        var kept :| && Recorded(n.cache.entries, kept, n'.cache.entries, CACHE_SIZE, key, at)
                    && n'.cache.last == n.cache.last[key := at]
                    && n'.cache.evicted == n.cache.evicted + (n.cache.entries.Keys - kept.Keys) - {key};
        RecordKeepsInv(l, n, i, at, n', kept);
      }
  }

  /**
    Over every interleaving of New Session calls with a non-decreasing clock: a bound message is accepted a second
    time only if at least 45000 other keys were recorded in between at or after its own recording time.
  */
  lemma {:induction false} NoReplayAccepted(l: Limits, now: Time, es: seq<Event>, end: Node)
    requires Run(l, Start(now), es, end)
    ensures Inv(l, end) && NoFreeReplay(end.log)
    decreases |es|
  {
    if es != [] {
      var n :| Run(l, Start(now), Front(es), n) && Step(l, n, Last(es), end);
      NoReplayAccepted(l, now, Front(es), n);
      StepKeepsInv(l, n, Last(es), end);
    }
  }

  lemma {:induction false} LogSize(log: seq<Acceptance>, since: Time, key: Key)
    ensures |Others(log, since, key)| <= |log|
  {
    if log != [] {
      LogSize(Front(log), since, key);
      assert log == Front(log) + [Last(log)];
      var others := Others(log, since, key);
      SubsetSize(others, Others(Front(log), since, key) + {Last(log).m.eph});
    } else {
      assert Others(log, since, key) == {};
    }
  }

  /** In particular a run that records at most 45000 messages accepts none of them twice. */
  lemma NoReplayInShortRuns(l: Limits, now: Time, es: seq<Event>, end: Node)
    requires Run(l, Start(now), es, end) && |end.log| <= SPARED
    ensures forall i, j :: 0 <= i < j < |end.log| ==> end.log[i].m != end.log[j].m
  {
    NoReplayAccepted(l, now, es, end);
    forall i, j | 0 <= i < j < |end.log|
      ensures end.log[i].m != end.log[j].m
    {
      LogSize(end.log[..j], end.log[i].at, end.log[i].m.eph);
    }
  }
}
