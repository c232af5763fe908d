/** Which tags a session has after its window was filled or replenished. */
module TagRefill {
  import opened Common
  import opened SessionTable

  /** Those of the drawn tags that no other session holds. */
  function Free(m: Manager, sid: Sid, batch: seq<TagCounter>): (r: seq<TagCounter>)
    ensures |r| <= |batch|
  {
    if batch == [] then []
    else (if batch[0].tag in m.tagIndex && m.tagIndex[batch[0].tag] != sid then [] else [batch[0]]) + Free(m, sid, batch[1..])
  }

  function TagsOf(batch: seq<TagCounter>): (r: seq<Tag>)
    ensures |r| == |batch|
  {
    seq(|batch|, i requires 0 <= i < |batch| => batch[i].tag)
  }

  ghost predicate Queued(m: Manager, sid: Sid, tags: seq<Tag>, r: Manager) {
    && sid in m.heap && r.table == m.table && r.nsrIndex == m.nsrIndex
    && r.heap == m.heap[sid := m.heap[sid].(pending := m.heap[sid].pending + tags)]
  }

  ghost predicate Indexed(before: map<Tag, Sid>, sid: Sid, tags: seq<Tag>, after: map<Tag, Sid>) {
    && (forall t :: t in after <==> t in before || t in tags)
    && (forall t <- after :: after[t] == if t in tags then sid else before[t])
  }

  ghost predicate AllHinted(added: seq<TagCounter>, counters: map<Tag, nat>) {
    forall tc <- added :: tc.tag in counters && counters[tc.tag] == tc.counter
  }

  /** A registered tag has the counter of its last registration. */
  ghost predicate Hinted(before: map<Tag, nat>, added: seq<TagCounter>, after: map<Tag, nat>) {
    && (forall t :: t !in TagsOf(added) ==> (t in after <==> t in before) && (t in after ==> after[t] == before[t]))
    && (NoDup(TagsOf(added)) ==> AllHinted(added, after))
  }

  /** The tags are registered for the session, behind those it had; nothing else changes. */
  ghost predicate Registered(m: Manager, sid: Sid, added: seq<TagCounter>, r: Manager) {
    && Queued(m, sid, TagsOf(added), r)
    && Indexed(m.tagIndex, sid, TagsOf(added), r.tagIndex)
    && Hinted(m.counters, added, r.counters)
  }

  lemma PutRegisters(m: Manager, sid: Sid, tc: TagCounter)
    requires sid in m.heap
    ensures Registered(m, sid, [tc], Put(m, sid, tc.tag, tc.counter))
  {
    assert TagsOf([tc]) == [tc.tag] && tc.tag in [tc.tag];
  }

  lemma NothingRegistered(m: Manager, sid: Sid)
    requires sid in m.heap
    ensures Registered(m, sid, [], m)
  {
    assert TagsOf([]) == [] && m.heap[sid].pending + [] == m.heap[sid].pending;
    assert m.heap[sid := m.heap[sid]] == m.heap;
  }

  lemma TagsOfAppend(a: seq<TagCounter>, b: seq<TagCounter>)
    ensures TagsOf(a + b) == TagsOf(a) + TagsOf(b)
    ensures forall t :: t in TagsOf(a + b) <==> t in TagsOf(a) || t in TagsOf(b)
  {
    assert TagsOf(a + b) == TagsOf(a) + TagsOf(b);
  }

  lemma DistinctParts(a: seq<TagCounter>, b: seq<TagCounter>)
    requires NoDup(TagsOf(a + b))
    ensures NoDup(TagsOf(a)) && NoDup(TagsOf(b)) && forall tc <- a :: tc.tag !in TagsOf(b)
  {
    var ts := TagsOf(a + b);
    assert forall i :: 0 <= i < |a| ==> ts[i] == TagsOf(a)[i];
    assert forall i :: 0 <= i < |b| ==> ts[|a| + i] == TagsOf(b)[i];
    forall tc <- a ensures tc.tag !in TagsOf(b) {
      var i :| 0 <= i < |a| && a[i] == tc;
      assert ts[i] == tc.tag;
    }
  }

  lemma HintedTwice(x: map<Tag, nat>, a: seq<TagCounter>, y: map<Tag, nat>, b: seq<TagCounter>, z: map<Tag, nat>)
    requires Hinted(x, a, y) && Hinted(y, b, z)
    ensures Hinted(x, a + b, z)
  {
    TagsOfAppend(a, b);
    if NoDup(TagsOf(a + b)) {
      DistinctParts(a, b);
      hide NoDup, TagsOf;
      assert AllHinted(a + b, z);
    }
  }

  lemma RegisteredTwice(m: Manager, sid: Sid, a: seq<TagCounter>, n: Manager, b: seq<TagCounter>, r: Manager)
    requires Registered(m, sid, a, n) && Registered(n, sid, b, r)
    ensures Registered(m, sid, a + b, r)
  {
    hide Hinted, TagsOf;
    TagsOfAppend(a, b);
    HintedTwice(m.counters, a, n.counters, b, r.counters);
    var pending := m.heap[sid].pending;
    assert pending + TagsOf(a) + TagsOf(b) == pending + TagsOf(a + b);
    assert m.heap[sid := n.heap[sid]][sid := r.heap[sid]] == m.heap[sid := r.heap[sid]];
  }

  /** Registering tags for a session does not change which tags other sessions hold. */
  lemma {:induction false} FreeStable(m: Manager, sid: Sid, added: seq<TagCounter>, r: Manager, batch: seq<TagCounter>)
    requires Registered(m, sid, added, r) && forall tc <- added :: !Collides(m, sid, tc.tag)
    ensures Free(r, sid, batch) == Free(m, sid, batch)
  {
    if batch != [] {
      FreeStable(m, sid, added, r, batch[1..]);
      var t := batch[0].tag;
      if t in TagsOf(added) {
        var i :| 0 <= i < |added| && TagsOf(added)[i] == t;
        assert added[i] in added;
      }
    }
  }

  lemma {:induction false} FreeDoesNotCollide(m: Manager, sid: Sid, batch: seq<TagCounter>)
    ensures forall tc <- Free(m, sid, batch) :: tc in batch && !Collides(m, sid, tc.tag)
  {
    if batch != [] { FreeDoesNotCollide(m, sid, batch[1..]); }
  }

  lemma {:induction false} AllFree(m: Manager, sid: Sid, batch: seq<TagCounter>)
    requires forall tc <- batch :: !Collides(m, sid, tc.tag)
    ensures Free(m, sid, batch) == batch
  {
    if batch != [] {
      assert batch[0] in batch;
      AllFree(m, sid, batch[1..]);
      assert batch == [batch[0]] + batch[1..];
    }
  }

  // ----- installing a batch -----------------------------------------------------------------------

  /** Of the tags drawn, those that are free are installed, up to a full window. */
  lemma {:induction false} InstallRegisters(m: Manager, sid: Sid, batch: seq<TagCounter>)
    requires sid in m.heap
    ensures var free := Free(m, sid, batch);
            Registered(m, sid, free[..Min(|free|, Needed(m.heap[sid]))], InstallAll(m, sid, batch))
    decreases |batch|
  {
    hide Queued, Indexed, Hinted;
    var free := Free(m, sid, batch);
    var s := m.heap[sid];
    if batch == [] || Needed(s) == 0 {
      assert free[..Min(|free|, Needed(s))] == [];
      NothingRegistered(m, sid);
    } else if Collides(m, sid, batch[0].tag) {
      assert free == Free(m, sid, batch[1..]);
      InstallRegisters(m, sid, batch[1..]);
    } else {
      var n := Put(m, sid, batch[0].tag, batch[0].counter);
      InstallRegisters(n, sid, batch[1..]);
      PutRegisters(m, sid, batch[0]);
      FreeStable(m, sid, [batch[0]], n, batch[1..]);
      var rest := Free(m, sid, batch[1..]);
      var more := rest[..Min(|rest|, Needed(s) - 1)];
      RegisteredTwice(m, sid, [batch[0]], n, more, InstallAll(m, sid, batch));
      assert [batch[0]] + more == free[..Min(|free|, Needed(s))];
    }
  }

  /** The session with d tags taken off its ratchet. */
  function Drew(m: Manager, sid: Sid, d: nat): (r: Manager)
    requires sid in m.heap && d <= |m.heap[sid].ratchet|
  {
    var s := m.heap[sid];
    m.(heap := m.heap[sid := s.(ratchet := s.ratchet[d..], nextCounter := s.nextCounter + d)])
  }

  /** Rounds of drawing what is missing: how many tags are drawn, and which of them are installed. */
  function Rounds(m: Manager, sid: Sid, tags: seq<TagCounter>, need: nat, attempts: nat): (r: (nat, seq<TagCounter>))
    ensures r.0 <= |tags|
    decreases attempts
  {
    if attempts == 0 || need == 0 then (0, [])
    else if |tags| < need then (|tags|, [])
    else
      var got := Free(m, sid, tags[..need]);
      var more := Rounds(m, sid, tags[need..], need - |got|, attempts - 1);
      (need + more.0, got + more.1)
  }

  /** The same tags are held by other sessions. */
  ghost predicate SameCollisions(m: Manager, r: Manager, sid: Sid) {
    forall t: Tag :: Collides(m, sid, t) <==> Collides(r, sid, t)
  }

  lemma {:induction false} SameFree(m: Manager, r: Manager, sid: Sid, batch: seq<TagCounter>)
    requires SameCollisions(m, r, sid)
    ensures Free(r, sid, batch) == Free(m, sid, batch)
  {
    if batch != [] {
      SameFree(m, r, sid, batch[1..]);
      assert Collides(m, sid, batch[0].tag) <==> Collides(r, sid, batch[0].tag);
    }
  }

  lemma {:induction false} RoundsStable(m: Manager, r: Manager, sid: Sid, tags: seq<TagCounter>, need: nat, attempts: nat)
    requires SameCollisions(m, r, sid)
    ensures Rounds(r, sid, tags, need, attempts) == Rounds(m, sid, tags, need, attempts)
    decreases attempts
  {
    if attempts > 0 && 0 < need <= |tags| {
      SameFree(m, r, sid, tags[..need]);
      RoundsStable(m, r, sid, tags[need..], need - |Free(m, sid, tags[..need])|, attempts - 1);
    }
  }

  lemma DrewTwice(m: Manager, sid: Sid, d: nat, e: nat)
    requires sid in m.heap && d + e <= |m.heap[sid].ratchet|
    ensures Drew(Drew(m, sid, d), sid, e) == Drew(m, sid, d + e)
  {
    var s := m.heap[sid];
    assert s.ratchet[d..][e..] == s.ratchet[d + e..];
  }

  lemma DrewRegistered(m: Manager, sid: Sid, added: seq<TagCounter>, r: Manager, e: nat)
    requires Registered(m, sid, added, r) && e <= |m.heap[sid].ratchet|
    ensures Registered(Drew(m, sid, e), sid, added, Drew(r, sid, e))
  {
    var s := m.heap[sid];
    assert Drew(r, sid, e).heap == m.heap[sid := Drew(r, sid, e).heap[sid]];
  }

  /** All tags still on the ratchet, with their counters. */
  function Coming(s: Session): (r: seq<TagCounter>)
    ensures |r| == |s.ratchet|
  {
    DrawnTags(s, |s.ratchet|)
  }

  lemma ComingAfter(s: Session, n: nat, after: Session)
    requires n <= |s.ratchet| && after.ratchet == s.ratchet[n..] && after.nextCounter == s.nextCounter + n
    ensures Coming(after) == Coming(s)[n..] && DrawnTags(s, n) == Coming(s)[..n]
  {
    assert Coming(after) == Coming(s)[n..];
    assert DrawnTags(s, n) == Coming(s)[..n];
  }

  /** What becomes of the session itself, and of the tags other sessions hold. */
  lemma RegisteredSession(m: Manager, sid: Sid, added: seq<TagCounter>, r: Manager)
    requires Registered(m, sid, added, r)
    ensures sid in m.heap && sid in r.heap
    ensures r.heap[sid] == m.heap[sid].(pending := m.heap[sid].pending + TagsOf(added))
    ensures (forall tc <- added :: !Collides(m, sid, tc.tag)) ==> SameCollisions(m, r, sid)
  {
    if forall tc <- added :: !Collides(m, sid, tc.tag) {
      forall t: Tag ensures Collides(m, sid, t) <==> Collides(r, sid, t) {
        if t in TagsOf(added) {
          var i :| 0 <= i < |added| && TagsOf(added)[i] == t;
          assert added[i] in added;
        }
      }
    }
  }

  /** A batch no longer than the room there is: all free tags are installed. */
  lemma InstallFits(m: Manager, sid: Sid, batch: seq<TagCounter>)
    requires sid in m.heap && |batch| <= Needed(m.heap[sid])
    ensures Registered(m, sid, Free(m, sid, batch), InstallAll(m, sid, batch))
    ensures SameCollisions(m, InstallAll(m, sid, batch), sid)
  {
    hide Queued, Indexed, Hinted, InstallAll;
    InstallRegisters(m, sid, batch);
    var free := Free(m, sid, batch);
    assert free[..|free|] == free;
    FreeDoesNotCollide(m, sid, batch);
    RegisteredSession(m, sid, free, InstallAll(m, sid, batch));
  }

  lemma RoundUnfolds(m: Manager, sid: Sid)
    requires sid in m.heap && 0 < Needed(m.heap[sid]) <= |m.heap[sid].ratchet|
    ensures var (need, s) := (Needed(m.heap[sid]), m.heap[sid]);
            var r := InstallAll(Drew(m, sid, need), sid, DrawnTags(s, need));
            ReplenishOnce(m, sid) == (r, Needed(r.heap[sid]) > 0)
  {
    var s := m.heap[sid];
    var need := Needed(s);
    assert DrawCount(s) == need;
    assert Drew(m, sid, need) == m.(heap := m.heap[sid := AfterDraw(s)]);
    hide InstallAll, DrawnTags, Drew, AfterDraw, Needed;
  }

  lemma OwnTagsOnly(m: Manager, d: Manager, sid: Sid)
    requires d.tagIndex == m.tagIndex
    ensures SameCollisions(m, d, sid)
  {}

  /** One full round: what is missing is drawn, and the free ones are installed. */
  lemma RoundRegisters(m: Manager, sid: Sid)
    requires sid in m.heap && 0 < Needed(m.heap[sid]) <= |m.heap[sid].ratchet|
    ensures var s := m.heap[sid];
            var (need, (r, again)) := (Needed(s), ReplenishOnce(m, sid));
            var got := Free(m, sid, Coming(s)[..need]);
            && Registered(Drew(m, sid, need), sid, got, r)
            && Needed(r.heap[sid]) == need - |got| && (again <==> Needed(r.heap[sid]) > 0)
            && Coming(r.heap[sid]) == Coming(s)[need..]
            && SameCollisions(m, r, sid)
  {
    RoundUnfolds(m, sid);
    hide Queued, Indexed, Hinted, InstallAll, Free, ReplenishOnce, Coming, TagsOf, Collides;
    var s := m.heap[sid];
    var need := Needed(s);
    var d := Drew(m, sid, need);
    ComingAfter(s, need, d.heap[sid]);
    var batch := DrawnTags(s, need);
    OwnTagsOnly(m, d, sid);
    SameFree(m, d, sid, batch);
    InstallFits(d, sid, batch);
    var r := InstallAll(d, sid, batch);
    RegisteredSession(d, sid, Free(d, sid, batch), r);
    ComingAfter(s, need, r.heap[sid]);
  }

  /** Another round on top of one that has been made. */
  lemma RoundOnTop(m: Manager, sid: Sid, need: nat, got: seq<TagCounter>, r: Manager, e: nat, more: seq<TagCounter>, end: Manager)
    requires sid in m.heap && need + e <= |m.heap[sid].ratchet| && Registered(Drew(m, sid, need), sid, got, r)
    requires sid in r.heap && e <= |r.heap[sid].ratchet| && Registered(Drew(r, sid, e), sid, more, end)
    ensures Registered(Drew(m, sid, need + e), sid, got + more, end)
  {
    hide Queued, Indexed, Hinted;
    DrewRegistered(Drew(m, sid, need), sid, got, r, e);
    DrewTwice(m, sid, need, e);
    RegisteredTwice(Drew(m, sid, need + e), sid, got, Drew(r, sid, e), more, end);
  }

  lemma DrewNone(m: Manager, sid: Sid)
    requires sid in m.heap
    ensures Drew(m, sid, 0) == m
  {
    var s := m.heap[sid];
    assert s.ratchet[0..] == s.ratchet && m.heap[sid := s] == m.heap;
  }

  lemma RunsDry(m: Manager, sid: Sid, attempts: nat)
    requires sid in m.heap && attempts > 0 && |m.heap[sid].ratchet| < Needed(m.heap[sid])
    ensures Replenish(m, sid, attempts) == Drew(m, sid, |m.heap[sid].ratchet|)
  {
    hide InstallAll;
  }

  lemma FullStays(m: Manager, sid: Sid, attempts: nat)
    requires sid in m.heap && Needed(m.heap[sid]) == 0
    ensures Replenish(m, sid, attempts) == m
  {}

  lemma MoreRounds(m: Manager, sid: Sid, attempts: nat)
    requires sid in m.heap && attempts > 0 && 0 < Needed(m.heap[sid]) <= |m.heap[sid].ratchet|
    requires var s := m.heap[sid];
             var (need, (r, again)) := (Needed(s), ReplenishOnce(m, sid));
             var got := Free(m, sid, Coming(s)[..need]);
             && Registered(Drew(m, sid, need), sid, got, r) && Coming(r.heap[sid]) == Coming(s)[need..]
             && Needed(r.heap[sid]) == need - |got| && (again <==> Needed(r.heap[sid]) > 0) && SameCollisions(m, r, sid)
             && var (e, more) := Rounds(r, sid, Coming(r.heap[sid]), Needed(r.heap[sid]), attempts - 1);
             Registered(Drew(r, sid, e), sid, more, Replenish(r, sid, attempts - 1))
    ensures var (d, got) := Rounds(m, sid, Coming(m.heap[sid]), Needed(m.heap[sid]), attempts);
            Registered(Drew(m, sid, d), sid, got, Replenish(m, sid, attempts))
  {
    hide Queued, Indexed, Hinted, ReplenishOnce, Free, Collides, Drew, DrawnTags;
    var s := m.heap[sid];
    var need := Needed(s);
    var (r, again) := ReplenishOnce(m, sid);
    if !again { FullStays(r, sid, attempts - 1); }
    var got := Free(m, sid, Coming(s)[..need]);
    RoundsStable(m, r, sid, Coming(s)[need..], need - |got|, attempts - 1);
    var (e, more) := Rounds(m, sid, Coming(s)[need..], need - |got|, attempts - 1);
    RoundOnTop(m, sid, need, got, r, e, more, Replenish(r, sid, attempts - 1));
  }

  /**
    What replenishing leaves behind, collisions or not: the tags drawn in all rounds are off the ratchet, and of those
    drawn in complete rounds exactly the free ones are pending and indexed, in order, each with its counter. A round
    for which the ratchet has too few tags loses them.
  */
  lemma {:induction false} ReplenishRegisters(m: Manager, sid: Sid, attempts: nat)
    requires sid in m.heap
    ensures var (d, got) := Rounds(m, sid, Coming(m.heap[sid]), Needed(m.heap[sid]), attempts);
            Registered(Drew(m, sid, d), sid, got, Replenish(m, sid, attempts))
    decreases attempts
  {
    hide Queued, Indexed, Hinted, Collides;
    var s := m.heap[sid];
    if attempts == 0 || Needed(s) == 0 {
      DrewNone(m, sid);
      NothingRegistered(m, sid);
    } else if |s.ratchet| < Needed(s) {
      RunsDry(m, sid, attempts);
      NothingRegistered(Drew(m, sid, |s.ratchet|), sid);
    } else {
      RoundRegisters(m, sid);
      ReplenishRegisters(ReplenishOnce(m, sid).0, sid, attempts - 1);
      MoreRounds(m, sid, attempts);
    }
  }

  lemma OneRound(m: Manager, sid: Sid, attempts: nat)
    requires sid in m.heap && attempts > 0 && Needed(m.heap[sid]) <= |m.heap[sid].ratchet|
    requires forall t <- m.heap[sid].ratchet[..Needed(m.heap[sid])] :: t !in m.tagIndex
    ensures var s := m.heap[sid];
            var (need, batch) := (Needed(s), Coming(s)[..Needed(s)]);
            Rounds(m, sid, Coming(s), need, attempts) == (need, batch) && TagsOf(batch) == s.ratchet[..need]
  {
    var s := m.heap[sid];
    var need := Needed(s);
    var batch := Coming(s)[..need];
    assert TagsOf(batch) == s.ratchet[..need];
    forall tc <- batch ensures tc.tag !in m.tagIndex {
      var i :| 0 <= i < need && batch[i] == tc;
      assert s.ratchet[..need][i] == tc.tag;
    }
    AllFree(m, sid, batch);
    if need > 0 { assert batch + [] == batch; } else { assert batch == []; }
  }

  /** The i-th tag of the ratchet is in the index, as the session's own, with its counter. */
  predicate Recognised(s: Session, sid: Sid, r: Manager, i: nat)
    requires i < |s.ratchet|
  {
    var t := s.ratchet[i];
    t in r.tagIndex && r.tagIndex[t] == sid && t in r.counters && r.counters[t] == s.nextCounter + i
  }

  lemma RegisteredEach(m: Manager, s: Session, sid: Sid, need: nat, r: Manager)
    requires need <= |s.ratchet| && NoDup(s.ratchet[..need]) && TagsOf(Coming(s)[..need]) == s.ratchet[..need]
    requires forall t <- s.ratchet[..need] :: t !in m.tagIndex
    requires Registered(m, sid, Coming(s)[..need], r)
    ensures forall i :: 0 <= i < need ==> Recognised(s, sid, r, i)
    ensures forall t <- m.tagIndex :: t in r.tagIndex && r.tagIndex[t] == m.tagIndex[t]
    ensures forall t <- r.tagIndex :: t in m.tagIndex || t in s.ratchet[..need]
    ensures forall t <- m.counters :: t in s.ratchet[..need] || (t in r.counters && r.counters[t] == m.counters[t])
  {
    hide Queued, NoDup, TagsOf;
    var batch := Coming(s)[..need];
    assert AllHinted(batch, r.counters);
    forall i | 0 <= i < need ensures Recognised(s, sid, r, i) {
      assert s.ratchet[i] == s.ratchet[..need][i];
      assert batch[i] in batch && batch[i] == TagCounter(s.ratchet[i], s.nextCounter + i);
    }
  }

  /** The next tags of the ratchet are there, distinct, and held by nobody. */
  ghost predicate NextAreFree(m: Manager, sid: Sid, need: nat) {
    && sid in m.heap && need <= |m.heap[sid].ratchet|
    && NoDup(m.heap[sid].ratchet[..need]) && forall t <- m.heap[sid].ratchet[..need] :: t !in m.tagIndex
  }

  /** So many tags have moved from the ratchet to the window, and all of them are recognised from now on. */
  ghost predicate Refilled(m: Manager, r: Manager, sid: Sid, need: nat) {
    && sid in m.heap && need <= |m.heap[sid].ratchet| && sid in r.heap
    && var s := m.heap[sid];
    && r.heap[sid] == s.(pending := s.pending + s.ratchet[..need], ratchet := s.ratchet[need..],
                         nextCounter := s.nextCounter + need)
    && (forall i :: 0 <= i < need ==> Recognised(s, sid, r, i))
    && (forall t <- m.tagIndex :: t in r.tagIndex && r.tagIndex[t] == m.tagIndex[t])
    && (forall t <- r.tagIndex :: t in m.tagIndex || t in s.ratchet[..need])
    && (forall t <- m.counters :: t in s.ratchet[..need] || (t in r.counters && r.counters[t] == m.counters[t]))
  }

  lemma DrewSession(m: Manager, sid: Sid, d: nat)
    requires sid in m.heap && d <= |m.heap[sid].ratchet|
    ensures var (s, r) := (m.heap[sid], Drew(m, sid, d));
            && r.tagIndex == m.tagIndex && r.counters == m.counters && sid in r.heap
            && r.heap[sid] == s.(ratchet := s.ratchet[d..], nextCounter := s.nextCounter + d)
  {}

  lemma NextRegistered(m: Manager, sid: Sid, attempts: nat)
    requires sid in m.heap && attempts > 0 && Needed(m.heap[sid]) <= |m.heap[sid].ratchet|
    requires forall t <- m.heap[sid].ratchet[..Needed(m.heap[sid])] :: t !in m.tagIndex
    ensures var (s, need) := (m.heap[sid], Needed(m.heap[sid]));
            && TagsOf(Coming(s)[..need]) == s.ratchet[..need]
            && Registered(Drew(m, sid, need), sid, Coming(s)[..need], Replenish(m, sid, attempts))
  {
    hide Replenish, Queued, Indexed, Hinted, Coming, TagsOf, Drew, Rounds;
    OneRound(m, sid, attempts);
    ReplenishRegisters(m, sid, attempts);
  }

  /**
    Without collisions one round fills the window: the missing tags are the next ones of the ratchet, and each is
    indexed to this session with its counter.
  */
  lemma ReplenishFills(m: Manager, sid: Sid, attempts: nat)
    requires sid in m.heap && attempts > 0 && |m.heap[sid].pending| <= 24 && NextAreFree(m, sid, 24 - |m.heap[sid].pending|)
    ensures Refilled(m, Replenish(m, sid, attempts), sid, 24 - |m.heap[sid].pending|)
    ensures |Replenish(m, sid, attempts).heap[sid].pending| == 24
  {
    hide Replenish, Queued, Indexed, Hinted, Recognised, NoDup, Coming, TagsOf, Drew;
    var s := m.heap[sid];
    var need := Needed(s);
    NextRegistered(m, sid, attempts);
    var (d, r) := (Drew(m, sid, need), Replenish(m, sid, attempts));
    DrewSession(m, sid, need);
    RegisteredSession(d, sid, Coming(s)[..need], r);
    RegisteredEach(d, s, sid, need, r);
  }

  // ----- filling a window -------------------------------------------------------------------------

  /** A window is filled with the free ones of the tags drawn, and drawing goes on until it is full or nothing is left. */
  lemma {:induction false} FillRegisters(m: Manager, sid: Sid) returns (d: nat)
    requires sid in m.heap
    ensures d <= |m.heap[sid].ratchet|
    ensures Registered(Drew(m, sid, d), sid, Free(m, sid, DrawnTags(m.heap[sid], d)), FillWindow(m, sid))
    ensures d < |m.heap[sid].ratchet| ==> |FillWindow(m, sid).heap[sid].pending| >= 24
    ensures d > 0 ==> |FillWindow(m, sid).heap[sid].pending| <= 24
    decreases |m.heap[sid].ratchet|
  {
    var s := m.heap[sid];
    if |s.pending| >= TAG_WINDOW || s.ratchet == [] {
      d := 0;
      DrewNone(m, sid);
      NothingRegistered(m, sid);
    } else {
      d := FillMore(m, sid);
    }
  }

  lemma FillHead(m: Manager, sid: Sid) returns (first: seq<TagCounter>, put: Manager)
    requires sid in m.heap && |m.heap[sid].pending| < TAG_WINDOW && m.heap[sid].ratchet != []
    ensures var (s, tc) := (m.heap[sid], TagCounter(m.heap[sid].ratchet[0], m.heap[sid].nextCounter));
            && first == (if Collides(m, sid, tc.tag) then [] else [tc])
            && sid in put.heap && FillWindow(m, sid) == FillWindow(put, sid) && |put.heap[sid].pending| <= TAG_WINDOW
            && put.heap[sid].ratchet == s.ratchet[1..] && put.heap[sid].nextCounter == s.nextCounter + 1
    ensures Registered(Drew(m, sid, 1), sid, first, put) && SameCollisions(m, put, sid)
  {
    hide Queued, Indexed, Hinted;
    var tc := TagCounter(m.heap[sid].ratchet[0], m.heap[sid].nextCounter);
    var a := Drew(m, sid, 1);
    if Collides(m, sid, tc.tag) {
      first, put := [], a;
      NothingRegistered(a, sid);
    } else {
      first, put := [tc], Put(a, sid, tc.tag, tc.counter);
      PutRegisters(a, sid, tc);
    }
  }

  lemma FreeCons(m: Manager, sid: Sid, tc: TagCounter, all: seq<TagCounter>, rest: seq<TagCounter>)
    requires |all| == |rest| + 1 && all[0] == tc && forall i :: 0 <= i < |rest| ==> all[i + 1] == rest[i]
    ensures Free(m, sid, all) == (if Collides(m, sid, tc.tag) then [] else [tc]) + Free(m, sid, rest)
  {
    assert all[1..] == rest;
  }

  lemma {:induction false} FillMore(m: Manager, sid: Sid) returns (d: nat)
    requires sid in m.heap && |m.heap[sid].pending| < TAG_WINDOW && m.heap[sid].ratchet != []
    ensures 0 < d <= |m.heap[sid].ratchet|
    ensures Registered(Drew(m, sid, d), sid, Free(m, sid, DrawnTags(m.heap[sid], d)), FillWindow(m, sid))
    ensures d < |m.heap[sid].ratchet| ==> |FillWindow(m, sid).heap[sid].pending| >= 24
    ensures |FillWindow(m, sid).heap[sid].pending| <= 24
    decreases |m.heap[sid].ratchet|, 0
  {
    hide Queued, Indexed, Hinted, Free, TagsOf, FillWindow, Collides;
    var s := m.heap[sid];
    var first, put := FillHead(m, sid);
    var e := FillRegisters(put, sid);
    d := 1 + e;
    var batch := DrawnTags(put.heap[sid], e);
    FreeCons(m, sid, TagCounter(s.ratchet[0], s.nextCounter), DrawnTags(s, d), batch);
    SameFree(m, put, sid, batch);
    RegisteredSession(Drew(put, sid, e), sid, Free(put, sid, batch), FillWindow(put, sid));
    RoundOnTop(m, sid, 1, first, put, e, Free(m, sid, batch), FillWindow(put, sid));
  }
}
