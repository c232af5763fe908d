/** The session table: tag indexes, tag windows, and eviction. Sessions live in `heap`, under their pointer. */
module SessionTable {
  import opened Common

  type Tag = Bytes
  type Hash = Bytes
  type Sid = nat
  type Time = int

  const TAG_WINDOW := 24
  const REPLENISH_BELOW := 12
  const MAX_SESSIONS := 5000
  const MAX_PER_PEER := 32

  /** `ratchet` lists the tags RecvTagRatchet will still produce before it reports an error. */
  datatype Session = Session(
    peer: Bytes, pending: seq<Tag>, ratchet: seq<Tag>, nextCounter: nat,
    nsrTag: Option<Tag>, handshake: bool, lastUsed: Time)

  datatype Manager = Manager(
    table: map<Hash, Sid>, tagIndex: map<Tag, Sid>, counters: map<Tag, nat>, nsrIndex: map<Tag, Sid>,
    heap: map<Sid, Session>)

  /** Every pointer in use is live. */
  ghost predicate Live(m: Manager) {
    && (forall h <- m.table :: m.table[h] in m.heap)
    && (forall t <- m.tagIndex :: m.tagIndex[t] in m.heap)
    && (forall t <- m.nsrIndex :: m.nsrIndex[t] in m.heap)
  }

  // ----- tag windows ---------------------------------------------------------------------------

  predicate Collides(m: Manager, sid: Sid, t: Tag) { t in m.tagIndex && m.tagIndex[t] != sid }

  /** Registers a tag for a session. */
  function Put(m: Manager, sid: Sid, t: Tag, counter: nat): (r: Manager)
    requires sid in m.heap
  {
    var s := m.heap[sid];
    m.(tagIndex := m.tagIndex[t := sid], counters := m.counters[t := counter],
       heap := m.heap[sid := s.(pending := s.pending + [t])])
  }

  /** Takes the next tag from the session's ratchet. */
  function Advance(m: Manager, sid: Sid): (r: Manager)
    requires sid in m.heap && m.heap[sid].ratchet != []
  {
    var s := m.heap[sid];
    m.(heap := m.heap[sid := s.(ratchet := s.ratchet[1..], nextCounter := s.nextCounter + 1)])
  }

  /** generateTagWindow: draw until 24 tags are pending, skipping tags another session holds. */
  function FillWindow(m: Manager, sid: Sid): (r: Manager)
    requires sid in m.heap
    ensures r.heap.Keys == m.heap.Keys
    decreases |m.heap[sid].ratchet|
  {
    var s := m.heap[sid];
    if |s.pending| >= TAG_WINDOW || s.ratchet == [] then m
    else if Collides(m, sid, s.ratchet[0]) then FillWindow(Advance(m, sid), sid)
    else FillWindow(Put(Advance(m, sid), sid, s.ratchet[0], s.nextCounter), sid)
  }

  datatype TagCounter = TagCounter(tag: Tag, counter: nat)

  /** installGeneratedTagsLocked: stops when the window is full. */
  function InstallAll(m: Manager, sid: Sid, batch: seq<TagCounter>): (r: Manager)
    requires sid in m.heap
    ensures r.heap.Keys == m.heap.Keys
    decreases |batch|
  {
    if batch == [] || |m.heap[sid].pending| >= TAG_WINDOW then m
    else if Collides(m, sid, batch[0].tag) then InstallAll(m, sid, batch[1..])
    else InstallAll(Put(m, sid, batch[0].tag, batch[0].counter), sid, batch[1..])
  }

  /** First `n` tags of the ratchet with their counters. */
  function DrawnTags(s: Session, n: nat): (b: seq<TagCounter>)
    requires n <= |s.ratchet|
    ensures |b| == n
  {
    seq(n, i requires 0 <= i < n => TagCounter(s.ratchet[i], s.nextCounter + i))
  }

  function Needed(s: Session): (r: nat) { if |s.pending| >= TAG_WINDOW then 0 else TAG_WINDOW - |s.pending| }

  /** generateTagsOutsideLock: number of tags actually drawn before the window is full or the ratchet fails. */
  function DrawCount(s: Session): (r: nat) { Min(Needed(s), |s.ratchet|) }

  function AfterDraw(s: Session): (r: Session) {
    s.(ratchet := s.ratchet[DrawCount(s)..], nextCounter := s.nextCounter + DrawCount(s))
  }

  const MAX_ATTEMPTS := 3

  /** One round of drawing the missing tags and installing them; the flag asks for another round. */
  function ReplenishOnce(m: Manager, sid: Sid): (r: (Manager, bool))
    requires sid in m.heap
    ensures r.0.heap.Keys == m.heap.Keys
  {
    var s := m.heap[sid];
    if Needed(s) == 0 then (m, false)
    else
      var d := m.(heap := m.heap[sid := AfterDraw(s)]);
      if |s.ratchet| < Needed(s) then (d, false)
      else
        var i := InstallAll(d, sid, DrawnTags(s, Needed(s)));
        (i, Needed(i.heap[sid]) > 0)
  }

  /** replenishTagWindowOutsideLock run without interruption: retries while collisions keep the window short. */
  function Replenish(m: Manager, sid: Sid, attempts: nat): (r: Manager)
    requires sid in m.heap
    ensures r.heap.Keys == m.heap.Keys
    decreases attempts
  {
    if attempts == 0 then m
    else
      var (r, again) := ReplenishOnce(m, sid);
      if again then Replenish(r, sid, attempts - 1) else r
  }

  // ----- claims --------------------------------------------------------------------------------

  function Lookup(m: Manager, t: Tag): (r: Manager) {
    m.(tagIndex := m.tagIndex - {t}, counters := m.counters - {t})
  }

  /** Removes the first occurrence by moving the last element into its place. */
  function SwapRemove(s: seq<Tag>, t: Tag): (r: seq<Tag>) {
    if t !in s then s else SwapRemoveAt(s, IndexOf(s, t))
  }

  function SwapRemoveAt(s: seq<Tag>, i: nat): (r: seq<Tag>)
    requires i < |s|
  {
    s[i := s[|s| - 1]][..|s| - 1]
  }

  lemma SwapRemoveAtExact(s: seq<Tag>, i: nat)
    requires i < |s|
    ensures multiset(SwapRemoveAt(s, i)) == multiset(s) - multiset{s[i]}
  {
    var r, last := s[i := s[|s| - 1]], s[|s| - 1];
    assert r == r[..|s| - 1] + [last];
    assert multiset(r[..|s| - 1] + [last]) == multiset(r[..|s| - 1]) + multiset{last};
    assert multiset(r) == multiset(s) - multiset{s[i]} + multiset{last};
    assert multiset(r[..|s| - 1]) == multiset(r) - multiset{last};
  }

  function IndexOf(s: seq<Tag>, t: Tag): (i: nat)
    requires t in s
    ensures i < |s| && s[i] == t && t !in s[..i]
  {
    if s[0] == t then 0 else 1 + IndexOf(s[1..], t)
  }

  lemma {:induction false} IndexOfIs(s: seq<Tag>, t: Tag, i: nat)
    requires i < |s| && s[i] == t && t !in s[..i]
    ensures IndexOf(s, t) == i
  {
    if i > 0 {
      assert s[0] in s[..i];
      assert s[1..][..i - 1] == s[1..i] && forall x <- s[1..i] :: x in s[..i];
      IndexOfIs(s[1..], t, i - 1);
    }
  }

  /** Exactly one occurrence of the tag goes. */
  lemma SwapRemoveExact(s: seq<Tag>, t: Tag)
    ensures multiset(SwapRemove(s, t)) == multiset(s) - multiset{t}
    ensures |SwapRemove(s, t)| == |s| - if t in s then 1 else 0
  {
    if t in s {
      SwapRemoveAtExact(s, IndexOf(s, t));
    } else {
      assert t !in multiset(s);
    }
  }

  lemma SwapRemoveMembers(s: seq<Tag>, t: Tag, x: Tag)
    requires x != t
    ensures x in SwapRemove(s, t) <==> x in s
  {
    SwapRemoveExact(s, t);
    assert x in multiset(SwapRemove(s, t)) <==> x in multiset(s);
  }

  function ConsumeTag(m: Manager, sid: Sid, t: Tag): (r: Manager)
    requires sid in m.heap
  {
    var s := m.heap[sid];
    m.(heap := m.heap[sid := s.(pending := SwapRemove(s.pending, t))])
  }

  /** The tag bookkeeping of one incoming Existing Session message, run without interruption. */
  function Receive(m: Manager, t: Tag): (r: Manager)
    requires t in m.tagIndex ==> m.tagIndex[t] in m.heap
  {
    if t !in m.tagIndex then m
    else
      var sid := m.tagIndex[t];
      var c := ConsumeTag(Lookup(m, t), sid, t);
      if |c.heap[sid].pending| < REPLENISH_BELOW then Replenish(c, sid, MAX_ATTEMPTS) else c
  }

  /** tryDecryptNSR's first section. */
  function ClaimReply(m: Manager, t: Tag): (r: Manager)
    requires t in m.nsrIndex && m.nsrIndex[t] in m.heap
  {
    var sid := m.nsrIndex[t];
    var s := m.heap[sid];
    m.(nsrIndex := m.nsrIndex - {t}, heap := m.heap[sid := if s.nsrTag == Some(t) then s.(nsrTag := None) else s])
  }

  // ----- removal -------------------------------------------------------------------------------

  function Purge(m: Manager, sid: Sid): (r: Manager)
    requires sid in m.heap
  {
    var gone := Elements(m.heap[sid].pending);
    m.(tagIndex := m.tagIndex - gone, counters := m.counters - gone)
  }

  /** Deletes a table entry with all its index entries. */
  function Remove(m: Manager, h: Hash): (r: Manager)
    requires h in m.table && m.table[h] in m.heap
  {
    var s := m.heap[m.table[h]];
    var p := Purge(m, m.table[h]);
    p.(nsrIndex := (if s.nsrTag.Some? then m.nsrIndex - {s.nsrTag.value} else m.nsrIndex), table := m.table - {h})
  }

  /** Index entries to delete along with a set of table entries. */
  function PendingOf(m: Manager, hs: set<Hash>): (r: set<Tag>) {
    set h, t | h in hs && h in m.table && m.table[h] in m.heap && t in m.heap[m.table[h]].pending :: t
  }

  function ReplyTagsOf(m: Manager, hs: set<Hash>): (r: set<Tag>) {
    set h | h in hs && h in m.table && m.table[h] in m.heap && m.heap[m.table[h]].nsrTag.Some? :: m.heap[m.table[h]].nsrTag.value
  }

  /** Removal of several sessions, in any order. */
  function RemoveAll(m: Manager, hs: set<Hash>): (r: Manager) {
    m.(tagIndex := m.tagIndex - PendingOf(m, hs), counters := m.counters - PendingOf(m, hs),
       nsrIndex := m.nsrIndex - ReplyTagsOf(m, hs), table := m.table - hs)
  }

  lemma RemoveOneMore(m: Manager, hs: set<Hash>, h: Hash)
    requires h in m.table && m.table[h] in m.heap && h !in hs
    ensures Remove(RemoveAll(m, hs), h) == RemoveAll(m, hs + {h})
  {
    var s := m.heap[m.table[h]];
    assert PendingOf(m, hs + {h}) == PendingOf(m, hs) + Elements(s.pending);
    assert ReplyTagsOf(m, hs + {h}) == ReplyTagsOf(m, hs) + if s.nsrTag.Some? then {s.nsrTag.value} else {};
    assert m.tagIndex - PendingOf(m, hs + {h}) == m.tagIndex - PendingOf(m, hs) - Elements(s.pending);
    assert m.counters - PendingOf(m, hs + {h}) == m.counters - PendingOf(m, hs) - Elements(s.pending);
    assert m.table - (hs + {h}) == m.table - hs - {h};
  }

  function Expired(m: Manager, now: Time, timeout: int): (r: set<Hash>) {
    set h | h in m.table && m.table[h] in m.heap && now - m.heap[m.table[h]].lastUsed > timeout
  }

  /** A session survives the clean-up exactly if it was used no longer ago than the timeout. */
  lemma CleanupSparesRecent(m: Manager, now: Time, timeout: int, h: Hash)
    requires Live(m) && h in m.table
    ensures h in RemoveAll(m, Expired(m, now, timeout)).table <==> now - m.heap[m.table[h]].lastUsed <= timeout
  {}

  /** Replaces the receive ratchet after the handshake: old tags go, a new window is filled. */
  function ReplaceRatchet(m: Manager, sid: Sid, ratchet: seq<Tag>): (r: Manager)
    requires sid in m.heap
  {
    var p := Purge(m, sid);
    p.(heap := m.heap[sid := m.heap[sid].(pending := [], ratchet := ratchet, nextCounter := 1)])
  }

  // ----- eviction order ------------------------------------------------------------------------

  /** Lexicographic order on byte strings. */
  predicate Less(a: Bytes, b: Bytes) {
    if a == [] then b != []
    else b != [] && (a[0] < b[0] || (a[0] == b[0] && Less(a[1..], b[1..])))
  }

  lemma {:induction false} LessTotal(a: Bytes, b: Bytes)
    ensures !(Less(a, b) && Less(b, a))
    ensures a != b ==> Less(a, b) || Less(b, a)
    ensures !Less(a, a)
  {
    if a != [] { LessTotal(a[1..], a[1..]); }
    if a != [] && b != [] {
      LessTotal(a[1..], b[1..]);
      assert a == [a[0]] + a[1..] && b == [b[0]] + b[1..];
    }
  }

  /** The strings agree before k, and there the first ends or has the smaller byte. */
  predicate LessAt(a: Bytes, b: Bytes, k: nat) {
    k < |b| && k <= |a| && a[..k] == b[..k] && (k == |a| || a[k] < b[k])
  }

  lemma CommonHead(a: Bytes, b: Bytes, k: nat)
    requires LessAt(a, b, k)
    ensures k > 0 ==> a != [] && b != [] && a[0] == b[0]
  {
    if k > 0 { assert a[..k][0] == b[..k][0]; }
  }

  lemma {:induction false} LessIff(a: Bytes, b: Bytes)
    ensures Less(a, b) <==> exists k: nat :: LessAt(a, b, k)
  {
    if a == [] || b == [] || a[0] != b[0] {
      if Less(a, b) { assert LessAt(a, b, 0); }
      forall k: nat | LessAt(a, b, k) ensures Less(a, b) {
        CommonHead(a, b, k);
      }
    } else {
      LessIff(a[1..], b[1..]);
      if Less(a, b) {
        var k: nat :| LessAt(a[1..], b[1..], k);
        assert a[..k + 1] == [a[0]] + a[1..][..k] && b[..k + 1] == [b[0]] + b[1..][..k];
        assert LessAt(a, b, k + 1);
      }
      forall k: nat | LessAt(a, b, k) ensures Less(a, b) {
        assert k > 0;
        assert a[1..][..k - 1] == a[..k][1..] && b[1..][..k - 1] == b[..k][1..];
        assert LessAt(a[1..], b[1..], k - 1);
      }
    }
  }

  lemma {:induction false} LessTransitive(a: Bytes, b: Bytes, c: Bytes)
    requires Less(a, b) && Less(b, c)
    ensures Less(a, c)
  {
    if a != [] && a[0] == b[0] == c[0] { LessTransitive(a[1..], b[1..], c[1..]); }
  }

  method BytesLess(a: Bytes, b: Bytes) returns (r: bool)
    ensures r == Less(a, b)
  {
    var n := |a|;
    if |b| < n { n := |b|; }
    for i := 0 to n
      invariant Less(a, b) == Less(a[i..], b[i..])
    {
      if a[i] < b[i] { return true; }
      if a[i] > b[i] { return false; }
    }
    return |a| < |b|;
  }

  predicate Older(m: Manager, g: Hash, h: Hash)
    requires g in m.table && m.table[g] in m.heap && h in m.table && m.table[h] in m.heap
  {
    var s, t := m.heap[m.table[g]].lastUsed, m.heap[m.table[h]].lastUsed;
    s < t || (s == t && Less(g, h))
  }

  /** Strictly first in (last used, hash) order. */
  ghost predicate IsLru(m: Manager, h: Hash)
    requires Live(m)
  {
    h in m.table && forall g <- m.table :: g != h ==> Older(m, h, g)
  }

  /** The eviction choice does not depend on the order in which the map is visited. */
  lemma LruIsUnique(m: Manager, g: Hash, h: Hash)
    requires Live(m) && IsLru(m, g) && IsLru(m, h)
    ensures g == h
  {
    LessTotal(g, h);
  }

  /** No session was used longer ago than the one evicted; among those used last at the same time it has the least hash. */
  lemma LruIsOldest(m: Manager, h: Hash, g: Hash)
    requires Live(m) && IsLru(m, h) && g in m.table && g != h
    ensures var (s, t) := (m.heap[m.table[h]].lastUsed, m.heap[m.table[g]].lastUsed);
            s < t || (s == t && exists k: nat :: LessAt(h, g, k))
  {
    LessIff(h, g);
  }

  predicate OfPeer(m: Manager, peer: Bytes, h: Hash) {
    h in m.table && m.table[h] in m.heap && m.heap[m.table[h]].peer == peer
  }

  predicate Established(m: Manager, h: Hash) {
    h in m.table && m.table[h] in m.heap && m.heap[m.table[h]].nsrTag.None? && !m.heap[m.table[h]].handshake
  }

  function LastUsed(m: Manager, h: Hash): (r: Time) {
    if h in m.table && m.table[h] in m.heap then m.heap[m.table[h]].lastUsed else 0
  }

  function PeerHashes(m: Manager, peer: Bytes): (r: set<Hash>) { set h | h in m.table && OfPeer(m, peer, h) }

  ghost predicate IsOldest(m: Manager, candidates: set<Hash>, h: Hash) {
    h in candidates && forall g <- candidates :: LastUsed(m, h) <= LastUsed(m, g)
  }

  function EstablishedOf(m: Manager, hs: set<Hash>): (r: set<Hash>) { set h | h in hs && Established(m, h) }

  /** A least recently used session of the peer, among the established ones if there are any. */
  ghost predicate IsQuotaVictim(m: Manager, peer: Bytes, h: Hash) {
    var own := PeerHashes(m, peer);
    if EstablishedOf(m, own) != {} then IsOldest(m, EstablishedOf(m, own), h) else IsOldest(m, own, h)
  }

  /** The session the handshake of which is over: no reply awaited and no handshake state kept. */
  predicate Settled(s: Session) { s.nsrTag == None && s.handshake == false }

  /** The victim belongs to the peer; it is settled if any of the peer's sessions is, and the oldest of its kind. */
  lemma QuotaVictimIsOldest(m: Manager, peer: Bytes, h: Hash, g: Hash)
    requires Live(m) && IsQuotaVictim(m, peer, h) && g in m.table && m.heap[m.table[g]].peer == peer
    ensures h in m.table && m.table[h] in m.heap && m.heap[m.table[h]].peer == peer
    ensures var (victim, other) := (m.heap[m.table[h]], m.heap[m.table[g]]);
            && (Settled(other) ==> Settled(victim))
            && (Settled(other) == Settled(victim) ==> victim.lastUsed <= other.lastUsed)
  {
    var own := PeerHashes(m, peer);
    assert g in own;
    if Settled(m.heap[m.table[g]]) { assert g in EstablishedOf(m, own); }
  }

  // ----- storing a session ---------------------------------------------------------------------

  ghost predicate Evicted(m: Manager, m': Manager)
    requires Live(m)
  {
    if |m.table| >= MAX_SESSIONS then exists h :: IsLru(m, h) && m' == Remove(m, h) else m' == m
  }

  ghost predicate QuotaEnforced(m: Manager, peer: Bytes, m': Manager) {
    if |PeerHashes(m, peer)| >= MAX_PER_PEER then exists h :: IsQuotaVictim(m, peer, h) && m' == Remove(m, h) else m' == m
  }

  /** A new session under a hash, with its reply tag registered if it has one. */
  function Inserted(m: Manager, h: Hash, sid: Sid, s: Session): (r: Manager) {
    m.(table := m.table[h := sid], heap := m.heap[sid := s],
       nsrIndex := if s.nsrTag.Some? then m.nsrIndex[s.nsrTag.value := sid] else m.nsrIndex)
  }

  /** The same, with its tag window filled. */
  function Insert(m: Manager, h: Hash, sid: Sid, s: Session): (r: Manager) { FillWindow(Inserted(m, h, sid, s), sid) }

  // ----- the manager object --------------------------------------------------------------------

  class SessionManager {
    var sessions: map<Hash, Sid>
    var tagIndex: map<Tag, Sid>
    var tagCounterIndex: map<Tag, nat>
    var nsrTagIndex: map<Tag, Sid>
    var heap: map<Sid, Session>

    function View(): (r: Manager)
      reads this
    {
      Manager(sessions, tagIndex, tagCounterIndex, nsrTagIndex, heap)
    }

    constructor ()
      ensures View() == Manager(map[], map[], map[], map[], map[])
    {
      sessions, tagIndex, tagCounterIndex, nsrTagIndex, heap := map[], map[], map[], map[], map[];
    }

    method PutTag(sid: Sid, t: Tag, counter: nat)
      requires sid in heap
      modifies this
      ensures View() == old(Put(View(), sid, t, counter))
    {
      heap := heap[sid := heap[sid].(pending := heap[sid].pending + [t])];
      tagIndex := tagIndex[t := sid];
      tagCounterIndex := tagCounterIndex[t := counter];
    }

    method TakeTag(sid: Sid) returns (t: Tag, counter: nat)
      requires sid in heap && heap[sid].ratchet != []
      modifies this
      ensures View() == old(Advance(View(), sid))
      ensures t == old(heap[sid].ratchet[0]) && counter == old(heap[sid].nextCounter)
    {
      var s := heap[sid];
      heap := heap[sid := s.(ratchet := s.ratchet[1..], nextCounter := s.nextCounter + 1)];
      return s.ratchet[0], s.nextCounter;
    }

    /** Fails exactly when the ratchet runs dry before 24 tags are pending. */
    method GenerateTagWindow(sid: Sid) returns (ok: bool)
      requires sid in heap
      modifies this
      ensures View() == old(FillWindow(View(), sid))
      ensures ok <==> |heap[sid].pending| >= TAG_WINDOW
    {
      while |heap[sid].pending| < TAG_WINDOW
        invariant sid in heap
        invariant FillWindow(View(), sid) == old(FillWindow(View(), sid))
        decreases |heap[sid].ratchet|
      {
        if heap[sid].ratchet == [] { return false; }
        var t, counter := TakeTag(sid);
        if t in tagIndex && tagIndex[t] != sid { continue; }
        PutTag(sid, t, counter);
      }
      return true;
    }

    /** Draws the missing tags under the session lock only; on a ratchet error the drawn tags are lost. */
    method GenerateTagsOutsideLock(sid: Sid) returns (batch: Option<seq<TagCounter>>)
      requires sid in heap
      modifies this
      ensures View() == old(View().(heap := heap[sid := AfterDraw(heap[sid])]))
      ensures var s := old(heap[sid]);
              batch == if |s.ratchet| < Needed(s) then None else Some(DrawnTags(s, Needed(s)))
    {
      var s := heap[sid];
      var needed := TAG_WINDOW - |s.pending|;
      if needed <= 0 {
        assert AfterDraw(s) == s && heap[sid := s] == heap;
        return Some([]);
      }
      var tags: seq<TagCounter> := [];
      var rest, counter := s.ratchet, s.nextCounter;
      var i := 0;
      while i < needed && rest != []
        invariant 0 <= i <= needed && i <= |s.ratchet|
        invariant rest == s.ratchet[i..] && counter == s.nextCounter + i && tags == DrawnTags(s, i)
      {
        tags := tags + [TagCounter(rest[0], counter)];
        rest, counter, i := rest[1..], counter + 1, i + 1;
      }
      heap := heap[sid := s.(ratchet := rest, nextCounter := counter)];
      return if i < needed then None else Some(tags);
    }

    method InstallGeneratedTagsLocked(sid: Sid, batch: seq<TagCounter>)
      requires sid in heap
      modifies this
      ensures View() == old(InstallAll(View(), sid, batch))
    {
      var i := 0;
      while i < |batch| && |heap[sid].pending| < TAG_WINDOW
        invariant 0 <= i <= |batch| && sid in heap
        invariant InstallAll(View(), sid, batch[i..]) == old(InstallAll(View(), sid, batch))
      {
        var tc := batch[i];
        i := i + 1;
        if tc.tag in tagIndex && tagIndex[tc.tag] != sid { continue; }
        PutTag(sid, tc.tag, tc.counter);
      }
    }

    method ReplenishRound(sid: Sid) returns (again: bool)
      requires sid in heap
      modifies this
      ensures (View(), again) == old(ReplenishOnce(View(), sid))
    {
      if |heap[sid].pending| >= TAG_WINDOW { return false; }
      var batch := GenerateTagsOutsideLock(sid);
      if batch.None? { return false; }
      InstallGeneratedTagsLocked(sid, batch.value);
      return |heap[sid].pending| < TAG_WINDOW;
    }

    method ReplenishRounds(sid: Sid, attempts: nat)
      requires sid in heap
      modifies this
      ensures View() == old(Replenish(View(), sid, attempts))
    {
      hide ReplenishOnce;
      var left := attempts;
      while left > 0
        invariant sid in heap
        invariant Replenish(View(), sid, left) == old(Replenish(View(), sid, attempts))
      {
        var again := ReplenishRound(sid);
        if !again { return; }
        left := left - 1;
      }
    }

    method ReplenishTagWindow(sid: Sid)
      requires sid in heap
      modifies this
      ensures View() == old(Replenish(View(), sid, 3))
    {
      ReplenishRounds(sid, MAX_ATTEMPTS);
    }

    method LookupSessionByTag(t: Tag) returns (r: Option<(Sid, Option<nat>)>)
      modifies this
      ensures r.Some? <==> t in old(tagIndex)
      ensures r.None? ==> View() == old(View())
      ensures r.Some? ==> View() == old(Lookup(View(), t))
      ensures r.Some? ==> r.value == (old(tagIndex)[t], if t in old(tagCounterIndex) then Some(old(tagCounterIndex)[t]) else None)
    {
      if t !in tagIndex { return None; }
      var sid := tagIndex[t];
      var hint := if t in tagCounterIndex then Some(tagCounterIndex[t]) else None;
      tagIndex := tagIndex - {t};
      tagCounterIndex := tagCounterIndex - {t};
      return Some((sid, hint));
    }

    /** Consumes the tag unless the session is too old; asks for replenishment below 12 pending tags. */
    method ValidateAndConsumeTag(sid: Sid, t: Tag, now: Time, timeout: int) returns (valid: bool, needsReplenish: bool)
      requires sid in heap
      modifies this
      ensures valid <==> now - old(heap)[sid].lastUsed <= timeout
      ensures View() == if valid then old(ConsumeTag(View(), sid, t)) else old(View())
      ensures needsReplenish <==> valid && |heap[sid].pending| < REPLENISH_BELOW
    {
      var s := heap[sid];
      if now - s.lastUsed > timeout { return false, false; }
      var pending := RemoveFromPending(s.pending, t);
      heap := heap[sid := s.(pending := pending)];
      return true, |pending| < REPLENISH_BELOW;
    }

    method RemoveSession(h: Hash)
      requires h in sessions && sessions[h] in heap
      modifies this
      ensures View() == old(Remove(View(), h))
    {
      var s := heap[sessions[h]];
      PurgePending(sessions[h]);
      if s.nsrTag.Some? { nsrTagIndex := nsrTagIndex - {s.nsrTag.value}; }
      sessions := sessions - {h};
    }

    /** One visit of the clean-up loop that started in state `m` and still has `todo` to visit. */
    method DropIfExpired(h: Hash, now: Time, timeout: int, ghost m: Manager, ghost todo: set<Hash>) returns (dropped: bool)
      requires Live(m) && h in todo && todo <= m.table.Keys
      requires View() == RemoveAll(m, Expired(m, now, timeout) - todo)
      modifies this
      ensures View() == RemoveAll(m, Expired(m, now, timeout) - (todo - {h}))
      ensures |Expired(m, now, timeout) - (todo - {h})| == |Expired(m, now, timeout) - todo| + if dropped then 1 else 0
    {
      VisitExpired(m, Expired(m, now, timeout), todo, h);
      dropped := now - heap[sessions[h]].lastUsed > timeout;
      if dropped { RemoveSession(h); }
    }

    /** Removes every expired session, visiting the table in any order. */
    method CleanupExpiredSessions(now: Time, timeout: int) returns (removed: nat)
      requires Live(View())
      modifies this
      ensures View() == old(RemoveAll(View(), Expired(View(), now, timeout)))
      ensures removed == old(|Expired(View(), now, timeout)|)
    {
      hide RemoveAll;
      ghost var m := View();
      ghost var expired := Expired(m, now, timeout);
      removed := 0;
      var todo := sessions.Keys;
      assert expired - todo == {};
      RemoveNone(m);
      while todo != {}
        invariant todo <= m.table.Keys && removed == |expired - todo|
        invariant View() == RemoveAll(m, expired - todo)
        decreases todo
      {
        var h :| h in todo;
        var dropped := DropIfExpired(h, now, timeout, m, todo);
        if dropped { removed := removed + 1; }
        todo := todo - {h};
      }
      assert expired - {} == expired;
    }

    /** Stores a freshly created session: LRU eviction, peer quota, reply tag, table entry, tag window. */
    method StoreNewSession(h: Hash, sid: Sid, s: Session) returns (ok: bool)
      requires Live(View()) && sid !in heap
      modifies this
      ensures exists evicted, capped :: && Evicted(old(View()), evicted) && QuotaEnforced(evicted, s.peer, capped)
                                        && View() == Insert(capped, h, sid, s)
      ensures ok <==> sid in heap && |heap[sid].pending| >= TAG_WINDOW
    {
      hide FillWindow;
      if |sessions| >= MAX_SESSIONS { EvictLRUSessionLocked(); }
      ghost var evicted := View();
      EnforcePerPeerQuotaLocked(s.peer);
      ghost var capped := View();
      if s.nsrTag.Some? { nsrTagIndex := nsrTagIndex[s.nsrTag.value := sid]; }
      heap := heap[sid := s];
      sessions := sessions[h := sid];
      ok := GenerateTagWindow(sid);
      assert QuotaEnforced(evicted, s.peer, capped);
    }

    /** Receive side of applyNSRKeysToSessionWhileLocked. */
    method ApplyReplyTags(sid: Sid, ratchet: seq<Tag>) returns (ok: bool)
      requires sid in heap
      modifies this
      ensures View() == old(FillWindow(ReplaceRatchet(View(), sid, ratchet), sid))
      ensures ok <==> sid in heap && |heap[sid].pending| >= TAG_WINDOW
    {
      PurgePending(sid);
      heap := heap[sid := heap[sid].(pending := [], ratchet := ratchet, nextCounter := 1)];
      ok := GenerateTagWindow(sid);
    }

    method PurgePending(sid: Sid)
      requires sid in heap
      modifies this
      ensures View() == old(Purge(View(), sid))
    {
      var pending := heap[sid].pending;
      var i := 0;
      while i < |pending|
        invariant 0 <= i <= |pending|
        invariant tagIndex == old(tagIndex) - Elements(pending[..i])
        invariant tagCounterIndex == old(tagCounterIndex) - Elements(pending[..i])
        invariant sessions == old(sessions) && nsrTagIndex == old(nsrTagIndex) && heap == old(heap)
      {
        assert Elements(pending[..i + 1]) == Elements(pending[..i]) + {pending[i]};
        tagIndex := tagIndex - {pending[i]};
        tagCounterIndex := tagCounterIndex - {pending[i]};
        i := i + 1;
      }
      assert pending[..i] == pending;
    }

    /** First section of tryDecryptNSR: a reply tag can be claimed once. */
    method ClaimReplyTag(t: Tag) returns (sid: Option<Sid>)
      requires Live(View())
      modifies this
      ensures sid == if t in old(nsrTagIndex) then Some(old(nsrTagIndex)[t]) else None
      ensures View() == if sid.Some? then old(ClaimReply(View(), t)) else old(View())
    {
      if t !in nsrTagIndex { return None; }
      var owner := nsrTagIndex[t];
      nsrTagIndex := nsrTagIndex - {t};
      var s := heap[owner];
      heap := heap[owner := if s.nsrTag == Some(t) then s.(nsrTag := None) else s];
      return Some(owner);
    }

    /** Finds the session under whatever hash it is stored, visiting the table in any order. */
    method RemoveSessionByPointer(sid: Sid) returns (removed: bool)
      requires Live(View())
      modifies this
      ensures removed <==> sid in old(sessions).Values
      ensures !removed ==> View() == old(View())
      ensures removed ==> exists h :: h in old(sessions) && old(sessions)[h] == sid && View() == Remove(old(View()), h)
    {
      var todo := sessions.Keys;
      while todo != {}
        invariant todo <= sessions.Keys && View() == old(View())
        invariant forall h <- sessions :: sessions[h] == sid ==> h in todo
        decreases todo
      {
        var h :| h in todo;
        if sessions[h] == sid {
          RemoveSession(h);
          return true;
        }
        todo := todo - {h};
      }
      return false;
    }

    /** Removes the least recently used session, whatever order the table is visited in. */
    method EvictLRUSessionLocked()
      requires Live(View())
      modifies this
      ensures old(sessions) == map[] ==> View() == old(View())
      ensures old(sessions) != map[] ==> exists h :: IsLru(old(View()), h) && View() == Remove(old(View()), h)
    {
      var best := FindLru();
      if best.Some? { RemoveSession(best.value); }
    }

    method FindLru() returns (best: Option<Hash>)
      requires Live(View())
      ensures best.None? <==> sessions == map[]
      ensures best.Some? ==> IsLru(View(), best.value)
    {
      best := None;
      var todo := sessions.Keys;
      while todo != {}
        invariant todo <= sessions.Keys
        invariant best.None? <==> todo == sessions.Keys
        invariant best.Some? ==> best.value in sessions.Keys - todo
        invariant best.Some? ==> forall g <- sessions.Keys - todo :: g != best.value ==> Older(View(), best.value, g)
        decreases todo
      {
        var h :| h in todo;
        var better := best.None?;
        if best.Some? {
          var less := BytesLess(h, best.value);
          var a, b := heap[sessions[h]].lastUsed, heap[sessions[best.value]].lastUsed;
          better := a < b || (a == b && less);
          NextBest(View(), sessions.Keys - todo, best.value, h);
        }
        if better { best := Some(h); }
        todo := todo - {h};
      }
    }

    /** Enforces the per-peer cap by removing one of that peer's own sessions. */
    method EnforcePerPeerQuotaLocked(peer: Bytes)
      requires Live(View())
      modifies this
      ensures QuotaEnforced(old(View()), peer, View())
    {
      var count, victim := FindQuotaVictim(peer);
      if count < MAX_PER_PEER { return; }
      if victim.None? { return; }
      RemoveSession(victim.value);
    }

    method FindQuotaVictim(peer: Bytes) returns (count: nat, victim: Option<Hash>)
      requires Live(View())
      ensures count == |PeerHashes(View(), peer)|
      ensures victim.None? <==> count == 0
      ensures victim.Some? ==> IsQuotaVictim(View(), peer, victim.value)
    {
      hide BestOf, EstablishedOf, IsQuotaVictim;
      ghost var m := View();
      NoneVisited(m, peer);
      var oldest: Option<Hash>, established: Option<Hash> := None, None;
      count := 0;
      var todo := sessions.Keys;
      while todo != {}
        invariant todo <= sessions.Keys && m == View()
        invariant oldest.Some? ==> oldest.value in sessions
        invariant established.Some? ==> established.value in sessions
        invariant count == |PeerHashes(m, peer) - todo|
        invariant BestOf(m, PeerHashes(m, peer) - todo, oldest)
        invariant BestOf(m, EstablishedOf(m, PeerHashes(m, peer) - todo), established)
        decreases todo
      {
        var h :| h in todo;
        VisitOne(m, peer, todo, h, oldest, established);
        todo := todo - {h};
        var s := heap[sessions[h]];
        if s.peer != peer { continue; }
        count := count + 1;
        if oldest.None? || s.lastUsed < heap[sessions[oldest.value]].lastUsed { oldest := Some(h); }
        if s.nsrTag.None? && !s.handshake
           && (established.None? || s.lastUsed < heap[sessions[established.value]].lastUsed) {
          established := Some(h);
        }
      }
      assert PeerHashes(m, peer) - {} == PeerHashes(m, peer);
      AllVisited(m, peer, oldest, established);
      victim := if established.Some? then established else oldest;
    }
  }

  lemma RemoveNone(m: Manager)
    ensures RemoveAll(m, {}) == m
  {
    assert PendingOf(m, {}) == {} && ReplyTagsOf(m, {}) == {};
    assert m.tagIndex - {} == m.tagIndex && m.counters - {} == m.counters && m.nsrIndex - {} == m.nsrIndex && m.table - {} == m.table;
  }

  lemma VisitExpired(m: Manager, expired: set<Hash>, todo: set<Hash>, h: Hash)
    requires Live(m) && h in todo && todo <= m.table.Keys && expired <= m.table.Keys
    ensures var gone, more := expired - todo, expired - (todo - {h});
            && h in RemoveAll(m, gone).table && RemoveAll(m, gone).table[h] == m.table[h]
            && if h in expired then |more| == |gone| + 1 && Remove(RemoveAll(m, gone), h) == RemoveAll(m, more)
               else more == gone
  {
    var gone, more := expired - todo, expired - (todo - {h});
    if h in expired {
      assert more == gone + {h};
      RemoveOneMore(m, gone, h);
    } else {
      assert more == gone;
    }
  }

  function Better(m: Manager, best: Option<Hash>, h: Hash): (r: Option<Hash>) {
    if best.None? || LastUsed(m, h) < LastUsed(m, best.value) then Some(h) else best
  }

  /** Visiting one more table entry. */
  lemma NoneVisited(m: Manager, peer: Bytes)
    ensures PeerHashes(m, peer) - m.table.Keys == {}
    ensures BestOf(m, PeerHashes(m, peer) - m.table.Keys, None)
    ensures BestOf(m, EstablishedOf(m, PeerHashes(m, peer) - m.table.Keys), None)
  {
    assert PeerHashes(m, peer) - m.table.Keys == {};
    assert EstablishedOf(m, {}) == {};
  }

  lemma AllVisited(m: Manager, peer: Bytes, oldest: Option<Hash>, established: Option<Hash>)
    requires BestOf(m, PeerHashes(m, peer), oldest) && BestOf(m, EstablishedOf(m, PeerHashes(m, peer)), established)
    ensures PeerHashes(m, peer) == {} ==> oldest.None? && established.None?
    ensures PeerHashes(m, peer) != {} ==>
              oldest.Some? && IsQuotaVictim(m, peer, if established.Some? then established.value else oldest.value)
  {}

  lemma VisitOne(m: Manager, peer: Bytes, todo: set<Hash>, h: Hash, oldest: Option<Hash>, established: Option<Hash>)
    requires h in todo && todo <= m.table.Keys
    requires BestOf(m, PeerHashes(m, peer) - todo, oldest)
    requires BestOf(m, EstablishedOf(m, PeerHashes(m, peer) - todo), established)
    ensures var seen, more := PeerHashes(m, peer) - todo, PeerHashes(m, peer) - (todo - {h});
            if OfPeer(m, peer, h) then
              && |more| == |seen| + 1
              && BestOf(m, more, Better(m, oldest, h))
              && BestOf(m, EstablishedOf(m, more), if Established(m, h) then Better(m, established, h) else established)
            else more == seen
  {
    hide BestOf, Better;
    var seen, more := PeerHashes(m, peer) - todo, PeerHashes(m, peer) - (todo - {h});
    if OfPeer(m, peer, h) {
      assert more == seen + {h};
      BestStep(m, seen, oldest, h);
      if Established(m, h) {
        assert EstablishedOf(m, more) == EstablishedOf(m, seen) + {h};
        BestStep(m, EstablishedOf(m, seen), established, h);
      } else {
        assert EstablishedOf(m, more) == EstablishedOf(m, seen);
      }
    } else {
      assert more == seen;
    }
  }

  /** The best candidate so far, if there is any. */
  ghost predicate BestOf(m: Manager, candidates: set<Hash>, best: Option<Hash>) {
    if candidates == {} then best.None? else best.Some? && IsOldest(m, candidates, best.value)
  }

  lemma BestStep(m: Manager, candidates: set<Hash>, best: Option<Hash>, h: Hash)
    requires BestOf(m, candidates, best)
    ensures BestOf(m, candidates + {h}, Better(m, best, h))
  {}

  /** Comparing a newcomer with the best so far decides the order against everything seen. */
  lemma NextBest(m: Manager, seen: set<Hash>, best: Hash, h: Hash)
    requires Live(m) && seen <= m.table.Keys && best in seen && h in m.table && h !in seen
    requires forall g <- seen :: g != best ==> Older(m, best, g)
    ensures Older(m, h, best) ==> forall g <- seen :: Older(m, h, g)
    ensures !Older(m, h, best) ==> Older(m, best, h)
  {
    LessTotal(h, best);
    forall g <- seen | Older(m, h, best)
      ensures Older(m, h, g)
    {
      if g != best && Less(h, best) && Less(best, g) { LessTransitive(h, best, g); }
    }
  }

  method RemoveFromPending(pending: seq<Tag>, t: Tag) returns (r: seq<Tag>)
    ensures r == SwapRemove(pending, t)
  {
    r := pending;
    for i := 0 to |pending|
      invariant r == pending && t !in pending[..i]
    {
      if pending[i] == t {
        IndexOfIs(pending, t, i);
        r := SwapRemoveAt(pending, i);
        return;
      }
    }
  }
}
