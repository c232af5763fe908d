/** How many lost messages a session's tag window survives. */
module TagSupply {
  import opened Common
  import opened SessionTable
  import opened TagRefill

  /** The window of `sid` and the index agree in both directions, with no tag listed twice. */
  ghost predicate FullyIndexed(m: Manager, sid: Sid) {
    && sid in m.heap && NoDup(m.heap[sid].pending)
    && (forall t <- m.tagIndex :: m.tagIndex[t] in m.heap)
    && (forall t :: t in m.heap[sid].pending <==> t in m.tagIndex && m.tagIndex[t] == sid)
  }

  /** Deliveries of the session's own messages, in any order and with repeats. */
  ghost predicate OwnTags(m: Manager, sid: Sid, ds: seq<Tag>) {
    forall t <- ds :: t in m.tagIndex ==> m.tagIndex[t] == sid
  }

  lemma {:induction false} InstallKeepsLive(m: Manager, sid: Sid, batch: seq<TagCounter>)
    requires sid in m.heap && forall u <- m.tagIndex :: m.tagIndex[u] in m.heap
    ensures forall u <- InstallAll(m, sid, batch).tagIndex :: InstallAll(m, sid, batch).tagIndex[u] in m.heap
    ensures InstallAll(m, sid, batch).heap[sid].ratchet == m.heap[sid].ratchet
    decreases |batch|
  {
    if batch != [] && |m.heap[sid].pending| < TAG_WINDOW {
      if Collides(m, sid, batch[0].tag) {
        InstallKeepsLive(m, sid, batch[1..]);
      } else {
        InstallKeepsLive(Put(m, sid, batch[0].tag, batch[0].counter), sid, batch[1..]);
      }
    }
  }

  lemma RoundKeepsLive(m: Manager, sid: Sid)
    requires sid in m.heap && forall u <- m.tagIndex :: m.tagIndex[u] in m.heap
    ensures var r := ReplenishOnce(m, sid).0;
            && (forall u <- r.tagIndex :: r.tagIndex[u] in r.heap)
            && |r.heap[sid].ratchet| <= |m.heap[sid].ratchet|
            && (Needed(m.heap[sid]) > 0 && m.heap[sid].ratchet != [] ==> |r.heap[sid].ratchet| < |m.heap[sid].ratchet|)
  {
    var s := m.heap[sid];
    if Needed(s) > 0 && |s.ratchet| >= Needed(s) {
      InstallKeepsLive(m.(heap := m.heap[sid := AfterDraw(s)]), sid, DrawnTags(s, Needed(s)));
    }
  }

  /** Replenishing only shortens the ratchet, and shortens it whenever tags are missing and left. */
  lemma {:induction false} ReplenishKeepsLive(m: Manager, sid: Sid, attempts: nat)
    requires sid in m.heap && forall u <- m.tagIndex :: m.tagIndex[u] in m.heap
    ensures var r := Replenish(m, sid, attempts);
            && (forall u <- r.tagIndex :: r.tagIndex[u] in r.heap)
            && |r.heap[sid].ratchet| <= |m.heap[sid].ratchet|
            && (attempts > 0 && Needed(m.heap[sid]) > 0 && m.heap[sid].ratchet != [] ==> |r.heap[sid].ratchet| < |m.heap[sid].ratchet|)
    decreases attempts
  {
    hide ReplenishOnce;
    if attempts > 0 {
      RoundKeepsLive(m, sid);
      var (r, again) := ReplenishOnce(m, sid);
      if again { ReplenishKeepsLive(r, sid, attempts - 1); }
    }
  }

  lemma ReceiveKeepsLive(m: Manager, t: Tag)
    requires forall u <- m.tagIndex :: m.tagIndex[u] in m.heap
    ensures Receive(m, t).heap.Keys == m.heap.Keys
    ensures forall u <- Receive(m, t).tagIndex :: Receive(m, t).tagIndex[u] in Receive(m, t).heap
  {
    if t in m.tagIndex {
      var c := ConsumeTag(Lookup(m, t), m.tagIndex[t], t);
      ReplenishKeepsLive(c, m.tagIndex[t], MAX_ATTEMPTS);
    }
  }

  function Received(m: Manager, ds: seq<Tag>): (r: Manager)
    requires forall t <- m.tagIndex :: m.tagIndex[t] in m.heap
    ensures r.heap.Keys == m.heap.Keys
    ensures forall t <- r.tagIndex :: r.tagIndex[t] in r.heap
  {
    if ds == [] then m
    else
      var before := Received(m, Front(ds));
      ReceiveKeepsLive(before, Last(ds));
      Receive(before, Last(ds))
  }

  function Left(m: Manager, sid: Sid, ds: seq<Tag>): (r: set<Tag>)
    requires sid in m.heap
  {
    Elements(m.heap[sid].pending) - Elements(ds)
  }

  /** No tag has been drawn since `m`, and exactly the delivered tags are gone. */
  ghost predicate Waiting(m: Manager, r: Manager, sid: Sid, ds: seq<Tag>)
    requires sid in m.heap
  {
    && FullyIndexed(r, sid) && r.heap[sid].ratchet == m.heap[sid].ratchet
    && Elements(r.heap[sid].pending) == Left(m, sid, ds)
    && |r.heap[sid].pending| >= REPLENISH_BELOW
    && (forall t <- r.tagIndex :: t in m.tagIndex && r.tagIndex[t] == m.tagIndex[t])
  }

  lemma {:induction false} NoDupSize(s: seq<Tag>)
    requires NoDup(s)
    ensures |Elements(s)| == |s|
  {
    if s != [] {
      NoDupSize(Front(s));
      assert s == Front(s) + [Last(s)];
      assert Elements(s) == Elements(Front(s)) + {Last(s)};
      assert Last(s) !in Front(s);
    }
  }

  lemma SwapRemoveAtNoDup(s: seq<Tag>, i: nat)
    requires NoDup(s) && i < |s|
    ensures NoDup(SwapRemoveAt(s, i)) && s[i] !in SwapRemoveAt(s, i)
  {
    var r := SwapRemoveAt(s, i);
    assert forall j :: 0 <= j < |r| ==> r[j] == s[if j == i then |s| - 1 else j];
  }

  lemma SwapRemoveNoDup(s: seq<Tag>, t: Tag)
    requires NoDup(s)
    ensures NoDup(SwapRemove(s, t)) && Elements(SwapRemove(s, t)) == Elements(s) - {t}
  {
    if t in s {
      SwapRemoveAtNoDup(s, IndexOf(s, t));
      hide SwapRemove, IndexOf, NoDup;
      forall x ensures x in SwapRemove(s, t) <==> x in s && x != t {
        if x != t { SwapRemoveMembers(s, t, x); }
      }
    }
  }

  /** Consuming an indexed tag of the session removes it from both sides. */
  lemma ConsumeIndexed(m: Manager, sid: Sid, t: Tag)
    requires FullyIndexed(m, sid) && t in m.tagIndex && m.tagIndex[t] == sid
    ensures var c := ConsumeTag(Lookup(m, t), sid, t);
            && FullyIndexed(c, sid) && c.heap[sid].ratchet == m.heap[sid].ratchet
            && Elements(c.heap[sid].pending) == Elements(m.heap[sid].pending) - {t}
            && (forall u <- c.tagIndex :: u in m.tagIndex && c.tagIndex[u] == m.tagIndex[u])
  {
    var pending := m.heap[sid].pending;
    SwapRemoveNoDup(pending, t);
    var c := ConsumeTag(Lookup(m, t), sid, t);
    forall u ensures u in c.heap[sid].pending <==> u in c.tagIndex && c.tagIndex[u] == sid {
      assert u in Elements(SwapRemove(pending, t)) <==> u in Elements(pending) - {t};
    }
  }

  /** Outcome so far: still waiting, or fewer than 12 tags were left and new ones have been drawn. */
  ghost predicate Outcome(m: Manager, r: Manager, sid: Sid, ds: seq<Tag>)
    requires sid in m.heap
  {
    || Waiting(m, r, sid, ds)
    || (sid in r.heap && |r.heap[sid].ratchet| < |m.heap[sid].ratchet| && |Left(m, sid, ds)| < REPLENISH_BELOW)
  }

  lemma LeftSnoc(m: Manager, sid: Sid, ds: seq<Tag>)
    requires sid in m.heap && ds != []
    ensures Left(m, sid, ds) == Left(m, sid, Front(ds)) - {Last(ds)}
  {
    assert ds == Front(ds) + [Last(ds)];
    assert Elements(ds) == Elements(Front(ds)) + {Last(ds)};
  }

  lemma WaitingStep(m: Manager, r: Manager, sid: Sid, ds: seq<Tag>)
    requires sid in m.heap && m.heap[sid].ratchet != [] && ds != [] && OwnTags(m, sid, ds)
    requires Waiting(m, r, sid, Front(ds))
    ensures Outcome(m, Receive(r, Last(ds)), sid, ds)
  {
    var t := Last(ds);
    assert t in ds;
    LeftSnoc(m, sid, ds);
    if t !in r.tagIndex {
      assert t !in Elements(r.heap[sid].pending);
    } else {
      ConsumeIndexed(r, sid, t);
      var c := ConsumeTag(Lookup(r, t), sid, t);
      NoDupSize(c.heap[sid].pending);
      if |c.heap[sid].pending| < REPLENISH_BELOW { ReplenishKeepsLive(c, sid, MAX_ATTEMPTS); }
    }
  }

  lemma {:induction false} InstallKeepsOthers(m: Manager, sid: Sid, batch: seq<TagCounter>, other: Sid)
    requires sid in m.heap && other in m.heap && other != sid
    ensures InstallAll(m, sid, batch).heap[other] == m.heap[other]
    decreases |batch|
  {
    if batch != [] && |m.heap[sid].pending| < TAG_WINDOW {
      if Collides(m, sid, batch[0].tag) {
        InstallKeepsOthers(m, sid, batch[1..], other);
      } else {
        InstallKeepsOthers(Put(m, sid, batch[0].tag, batch[0].counter), sid, batch[1..], other);
      }
    }
  }

  lemma {:induction false} ReplenishKeepsOthers(m: Manager, sid: Sid, attempts: nat, other: Sid)
    requires sid in m.heap && other in m.heap
    ensures other != sid ==> Replenish(m, sid, attempts).heap[other] == m.heap[other]
    decreases attempts
  {
    var s := m.heap[sid];
    if other != sid && attempts > 0 && Needed(s) > 0 && |s.ratchet| >= Needed(s) {
      var d := m.(heap := m.heap[sid := AfterDraw(s)]);
      InstallKeepsOthers(d, sid, DrawnTags(s, Needed(s)), other);
      ReplenishKeepsOthers(InstallAll(d, sid, DrawnTags(s, Needed(s))), sid, attempts - 1, other);
    }
  }

  lemma DrawnStep(m: Manager, r: Manager, sid: Sid, ds: seq<Tag>)
    requires sid in m.heap && ds != [] && forall u <- r.tagIndex :: r.tagIndex[u] in r.heap
    requires sid in r.heap && |r.heap[sid].ratchet| < |m.heap[sid].ratchet| && |Left(m, sid, Front(ds))| < REPLENISH_BELOW
    ensures Outcome(m, Receive(r, Last(ds)), sid, ds)
  {
    LeftSnoc(m, sid, ds);
    SubsetSize(Left(m, sid, ds), Left(m, sid, Front(ds)));
    var t := Last(ds);
    if t in r.tagIndex {
      var owner := r.tagIndex[t];
      var c := ConsumeTag(Lookup(r, t), owner, t);
      ReplenishKeepsLive(c, owner, MAX_ATTEMPTS);
      ReplenishKeepsOthers(c, owner, MAX_ATTEMPTS, sid);
    }
  }

  lemma {:induction false} OutcomeHolds(m: Manager, sid: Sid, ds: seq<Tag>)
    requires FullyIndexed(m, sid) && |m.heap[sid].pending| >= REPLENISH_BELOW && m.heap[sid].ratchet != []
    requires OwnTags(m, sid, ds)
    ensures Outcome(m, Received(m, ds), sid, ds)
    decreases |ds|
  {
    if ds == [] {
      assert Elements(m.heap[sid].pending) == Left(m, sid, ds);
    } else {
      assert forall t <- Front(ds) :: t in ds;
      OutcomeHolds(m, sid, Front(ds));
      var r := Received(m, Front(ds));
      if Waiting(m, r, sid, Front(ds)) {
        WaitingStep(m, r, sid, ds);
      } else {
        DrawnStep(m, r, sid, ds);
      }
    }
  }

  // ----- what is drawn is recognised ----------------------------------------------------------------

  /** The tags to come are distinct, and nobody holds one of them. */
  ghost predicate FreshRatchet(m: Manager, sid: Sid)
    requires sid in m.heap
  {
    NoDup(m.heap[sid].ratchet) && forall t <- m.heap[sid].ratchet :: t !in m.tagIndex
  }

  predicate OwnedBy(m: Manager, sid: Sid, t: Tag) { t in m.tagIndex && m.tagIndex[t] == sid }

  /** Where the session stands on the ratchet it had at `m`. */
  predicate Advanced(s: Session, r: Session, d: nat) {
    d <= |s.ratchet| && r.ratchet == s.ratchet[d..] && r.nextCounter == s.nextCounter + d && |r.pending| <= TAG_WINDOW
  }

  /** Of the window and the d tags drawn since, whatever was not delivered is in the index, with its counter. */
  ghost predicate Held(m: Manager, r: Manager, sid: Sid, d: nat, ds: seq<Tag>)
    requires sid in m.heap && d <= |m.heap[sid].ratchet|
  {
    var s := m.heap[sid];
    && (forall t <- s.pending :: t in ds || OwnedBy(r, sid, t))
    && (forall i :: 0 <= i < d ==> s.ratchet[i] in ds || OwnedBy(r, sid, s.ratchet[i]))
    && (forall i :: 0 <= i < d && OwnedBy(r, sid, s.ratchet[i]) ==> Recognised(s, sid, r, i))
  }

  /** And nothing else: the session holds only such tags, and other sessions hold what they held. */
  ghost predicate OnlyThose(m: Manager, r: Manager, sid: Sid, d: nat)
    requires sid in m.heap && d <= |m.heap[sid].ratchet|
  {
    && (forall t <- r.tagIndex :: r.tagIndex[t] == sid ==> t in m.heap[sid].pending || t in m.heap[sid].ratchet[..d])
    && (forall t <- r.tagIndex :: r.tagIndex[t] != sid ==> t in m.tagIndex && m.tagIndex[t] == r.tagIndex[t])
  }

  ghost predicate Tracks(m: Manager, r: Manager, sid: Sid, d: nat, ds: seq<Tag>)
    requires sid in m.heap
  {
    && sid in r.heap && Advanced(m.heap[sid], r.heap[sid], d)
    && FullyIndexed(r, sid) && Held(m, r, sid, d, ds) && OnlyThose(m, r, sid, d)
  }

  lemma ConsumeHeld(m: Manager, r: Manager, c: Manager, sid: Sid, d: nat, ds: seq<Tag>)
    requires sid in m.heap && d <= |m.heap[sid].ratchet| && ds != []
    requires Held(m, r, sid, d, Front(ds)) && OnlyThose(m, r, sid, d)
    requires c.tagIndex == r.tagIndex - {Last(ds)} && c.counters == r.counters - {Last(ds)}
    ensures Held(m, c, sid, d, ds) && OnlyThose(m, c, sid, d)
  {
    assert ds == Front(ds) + [Last(ds)];
    var s := m.heap[sid];
    forall i | 0 <= i < d && OwnedBy(c, sid, s.ratchet[i]) ensures Recognised(s, sid, c, i) {
      assert Recognised(s, sid, r, i);
    }
  }

  lemma ConsumeTracks(m: Manager, r: Manager, sid: Sid, d: nat, ds: seq<Tag>)
    requires sid in m.heap && ds != [] && Tracks(m, r, sid, d, Front(ds)) && OwnedBy(r, sid, Last(ds))
    ensures Tracks(m, ConsumeTag(Lookup(r, Last(ds)), sid, Last(ds)), sid, d, ds)
  {
    hide SwapRemove, FullyIndexed, Held, OnlyThose;
    ConsumeIndexed(r, sid, Last(ds));
    SwapRemoveExact(r.heap[sid].pending, Last(ds));
    ConsumeHeld(m, r, ConsumeTag(Lookup(r, Last(ds)), sid, Last(ds)), sid, d, ds);
  }

  /** The next tags are still free when they are needed. */
  lemma StillFree(m: Manager, c: Manager, sid: Sid, d: nat, need: nat)
    requires sid in m.heap && sid in c.heap && FreshRatchet(m, sid)
    requires Advanced(m.heap[sid], c.heap[sid], d) && need <= |c.heap[sid].ratchet| && OnlyThose(m, c, sid, d)
    requires forall t <- m.heap[sid].pending :: OwnedBy(m, sid, t)
    ensures NextAreFree(c, sid, need)
  {
    var ratchet := m.heap[sid].ratchet;
    var next := c.heap[sid].ratchet[..need];
    assert forall i :: 0 <= i < need ==> next[i] == ratchet[d + i];
    forall t <- next ensures t !in c.tagIndex {
      var i :| 0 <= i < need && next[i] == t;
      assert t in ratchet;
      assert t !in ratchet[..d] by {
        forall j | 0 <= j < d ensures ratchet[..d][j] != t { assert ratchet[..d][j] == ratchet[j]; }
      }
    }
  }

  lemma RefillIndexed(c: Manager, r: Manager, sid: Sid, need: nat)
    requires FullyIndexed(c, sid) && Refilled(c, r, sid, need) && forall t <- r.tagIndex :: r.tagIndex[t] in r.heap
    requires NextAreFree(c, sid, need)
    ensures FullyIndexed(r, sid)
  {
    var pending: seq<Tag>, next: seq<Tag> := c.heap[sid].pending, c.heap[sid].ratchet[..need];
    forall t: Tag ensures t in pending + next <==> OwnedBy(r, sid, t) {
      if t in next {
        var i :| 0 <= i < need && next[i] == t;
        assert Recognised(c.heap[sid], sid, r, i);
      }
    }
    var all: seq<Tag> := pending + next;
    forall i, j | 0 <= i < j < |all| ensures all[i] != all[j] {
      if i < |pending| <= j { assert pending[i] in pending && next[j - |pending|] in next; }
    }
  }

  lemma EarlierIsNotNext(s: Session, now: Session, d: nat, need: nat, i: nat)
    requires NoDup(s.ratchet) && Advanced(s, now, d) && need <= |now.ratchet| && i < d
    ensures s.ratchet[i] !in now.ratchet[..need]
  {
    forall j | 0 <= j < need ensures now.ratchet[..need][j] != s.ratchet[i] {
      assert now.ratchet[..need][j] == s.ratchet[d + j];
    }
  }

  lemma RefillHeld(m: Manager, c: Manager, r: Manager, sid: Sid, d: nat, need: nat, ds: seq<Tag>)
    requires sid in m.heap && sid in c.heap && FreshRatchet(m, sid) && Refilled(c, r, sid, need)
    requires Advanced(m.heap[sid], c.heap[sid], d) && Held(m, c, sid, d, ds)
    ensures Held(m, r, sid, d + need, ds)
  {
    var s, now := m.heap[sid], c.heap[sid];
    forall i | 0 <= i < d + need && (i >= d || OwnedBy(c, sid, s.ratchet[i])) ensures Recognised(s, sid, r, i) {
      if i >= d {
        assert Recognised(now, sid, r, i - d) && now.ratchet[i - d] == s.ratchet[i];
      } else {
        EarlierIsNotNext(s, now, d, need, i);
        assert Recognised(s, sid, c, i);
      }
    }
    forall i | 0 <= i < d && OwnedBy(r, sid, s.ratchet[i]) ensures OwnedBy(c, sid, s.ratchet[i]) {
      EarlierIsNotNext(s, now, d, need, i);
    }
  }

  lemma RefillOnlyThose(m: Manager, c: Manager, r: Manager, sid: Sid, d: nat, need: nat)
    requires sid in m.heap && sid in c.heap && Refilled(c, r, sid, need)
    requires Advanced(m.heap[sid], c.heap[sid], d) && OnlyThose(m, c, sid, d)
    ensures OnlyThose(m, r, sid, d + need)
  {
    var s, now := m.heap[sid], c.heap[sid];
    assert s.ratchet[..d + need] == s.ratchet[..d] + now.ratchet[..need];
    forall t <- now.ratchet[..need] ensures OwnedBy(r, sid, t) {
      var i :| 0 <= i < need && now.ratchet[..need][i] == t;
      assert Recognised(now, sid, r, i);
    }
  }

  lemma ReplenishLive(c: Manager, sid: Sid)
    requires FullyIndexed(c, sid)
    ensures var r := Replenish(c, sid, MAX_ATTEMPTS); forall t <- r.tagIndex :: r.tagIndex[t] in r.heap
  {
    ReplenishKeepsLive(c, sid, MAX_ATTEMPTS);
  }

  lemma RefillAdvances(s: Session, c: Manager, r: Manager, sid: Sid, d: nat, need: nat)
    requires sid in c.heap && Advanced(s, c.heap[sid], d) && Refilled(c, r, sid, need) && |r.heap[sid].pending| <= 24
    ensures Advanced(s, r.heap[sid], d + need)
  {
    assert s.ratchet[d..][need..] == s.ratchet[d + need..];
  }

  /** Replenishing draws the next tags and has them recognised. */
  lemma RefillTracks(m: Manager, c: Manager, sid: Sid, d: nat, ds: seq<Tag>)
    requires sid in m.heap && FreshRatchet(m, sid) && forall t <- m.heap[sid].pending :: OwnedBy(m, sid, t)
    requires Tracks(m, c, sid, d, ds) && 24 - |c.heap[sid].pending| <= |c.heap[sid].ratchet|
    ensures var r := Replenish(c, sid, MAX_ATTEMPTS);
            Tracks(m, r, sid, d + 24 - |c.heap[sid].pending|, ds) && |r.heap[sid].pending| == 24
  {
    hide Replenish, Held, OnlyThose, FreshRatchet, Refilled, FullyIndexed, NextAreFree;
    var need := 24 - |c.heap[sid].pending|;
    StillFree(m, c, sid, d, need);
    ReplenishFills(c, sid, MAX_ATTEMPTS);
    ReplenishLive(c, sid);
    var r := Replenish(c, sid, MAX_ATTEMPTS);
    RefillIndexed(c, r, sid, need);
    RefillHeld(m, c, r, sid, d, need, ds);
    RefillOnlyThose(m, c, r, sid, d, need);
    RefillAdvances(m.heap[sid], c, r, sid, d, need);
  }

  /** As long as the ratchet has tags left: all of it holds, and at least 12 tags are waiting. */
  ghost predicate Supplied(m: Manager, r: Manager, sid: Sid, ds: seq<Tag>)
    requires sid in m.heap
  {
    && sid in r.heap && |r.heap[sid].ratchet| <= |m.heap[sid].ratchet|
    && (r.heap[sid].ratchet != [] ==>
          && Tracks(m, r, sid, |m.heap[sid].ratchet| - |r.heap[sid].ratchet|, ds)
          && |r.heap[sid].pending| >= REPLENISH_BELOW)
  }

  lemma MoreDelivered(m: Manager, r: Manager, sid: Sid, d: nat, ds: seq<Tag>)
    requires sid in m.heap && ds != [] && Tracks(m, r, sid, d, Front(ds))
    ensures Tracks(m, r, sid, d, ds)
  {
    hide FullyIndexed, OnlyThose, Recognised;
    assert ds == Front(ds) + [Last(ds)];
  }

  /** The window after a tag was consumed, replenished if it has become short. */
  lemma ReplenishSupplies(m: Manager, c: Manager, sid: Sid, d: nat, ds: seq<Tag>)
    requires sid in m.heap && FreshRatchet(m, sid) && (forall t <- m.heap[sid].pending :: OwnedBy(m, sid, t))
    requires Tracks(m, c, sid, d, ds)
    ensures var r := if |c.heap[sid].pending| < REPLENISH_BELOW then Replenish(c, sid, MAX_ATTEMPTS) else c;
            Supplied(m, r, sid, ds)
  {
    hide Held, OnlyThose, FreshRatchet, Replenish, FullyIndexed;
    if |c.heap[sid].pending| < REPLENISH_BELOW {
      if 24 - |c.heap[sid].pending| <= |c.heap[sid].ratchet| {
        RefillTracks(m, c, sid, d, ds);
      } else {
        RunsDry(c, sid, MAX_ATTEMPTS);
      }
    }
  }

  lemma OwnDelivery(m: Manager, r: Manager, sid: Sid, d: nat, ds: seq<Tag>, t: Tag)
    requires sid in m.heap && OwnTags(m, sid, ds) && t in ds && Tracks(m, r, sid, d, Front(ds)) && t in r.tagIndex
    ensures OwnedBy(r, sid, t)
  {
    hide FullyIndexed, Held;
  }

  lemma ReceiveSupplies(m: Manager, r: Manager, sid: Sid, ds: seq<Tag>)
    requires sid in m.heap && FreshRatchet(m, sid) && (forall t <- m.heap[sid].pending :: OwnedBy(m, sid, t))
    requires ds != [] && OwnTags(m, sid, ds) && Supplied(m, r, sid, Front(ds)) && r.heap[sid].ratchet != []
    requires forall t <- r.tagIndex :: r.tagIndex[t] in r.heap
    ensures Supplied(m, Receive(r, Last(ds)), sid, ds)
  {
    hide Tracks, FreshRatchet, Replenish, OwnTags, ConsumeTag;
    var t := Last(ds);
    var d := |m.heap[sid].ratchet| - |r.heap[sid].ratchet|;
    if t in r.tagIndex {
      OwnDelivery(m, r, sid, d, ds, t);
      ConsumeTracks(m, r, sid, d, ds);
      ReplenishSupplies(m, ConsumeTag(Lookup(r, t), sid, t), sid, d, ds);
    } else {
      MoreDelivered(m, r, sid, d, ds);
    }
  }

  /** A ratchet that has run out stays empty. */
  lemma EmptyStays(r: Manager, sid: Sid, t: Tag)
    requires sid in r.heap && r.heap[sid].ratchet == [] && forall u <- r.tagIndex :: r.tagIndex[u] in r.heap
    ensures sid in Receive(r, t).heap && Receive(r, t).heap[sid].ratchet == []
  {
    if t in r.tagIndex {
      var owner := r.tagIndex[t];
      var c := ConsumeTag(Lookup(r, t), owner, t);
      ReplenishKeepsLive(c, owner, MAX_ATTEMPTS);
      ReplenishKeepsOthers(c, owner, MAX_ATTEMPTS, sid);
    }
  }

  lemma {:induction false} SuppliedHolds(m: Manager, sid: Sid, ds: seq<Tag>)
    requires FullyIndexed(m, sid) && 12 <= |m.heap[sid].pending| <= 24 && FreshRatchet(m, sid) && OwnTags(m, sid, ds)
    ensures Supplied(m, Received(m, ds), sid, ds)
    decreases |ds|
  {
    if ds == [] {
      assert m.heap[sid].ratchet[0..] == m.heap[sid].ratchet;
    } else {
      assert forall t <- Front(ds) :: t in ds;
      SuppliedHolds(m, sid, Front(ds));
      var r := Received(m, Front(ds));
      assert forall t <- m.heap[sid].pending :: OwnedBy(m, sid, t);
      hide Tracks, FreshRatchet, Receive, FullyIndexed;
      if r.heap[sid].ratchet == [] {
        EmptyStays(r, sid, Last(ds));
      } else {
        ReceiveSupplies(m, r, sid, ds);
      }
    }
  }

  lemma WindowMoves(m: Manager, sid: Sid, ds: seq<Tag>)
    requires FullyIndexed(m, sid) && |m.heap[sid].pending| >= REPLENISH_BELOW && m.heap[sid].ratchet != []
    requires OwnTags(m, sid, ds)
    ensures Received(m, ds).heap[sid].ratchet != m.heap[sid].ratchet <==> |Left(m, sid, ds)| < REPLENISH_BELOW
    ensures |Left(m, sid, ds)| >= REPLENISH_BELOW ==>
              forall t <- Received(m, ds).tagIndex :: Received(m, ds).tagIndex[t] == sid ==> t in m.heap[sid].pending
  {
    OutcomeHolds(m, sid, ds);
    var r := Received(m, ds);
    if Waiting(m, r, sid, ds) {
      NoDupSize(r.heap[sid].pending);
    }
  }

  /**
    Whatever is delivered, in whatever order: new tags are drawn if and only if fewer than 12 tags of the current
    window remain undelivered; a session that loses 12 messages of one window never recognises a later one. What is
    drawn is recognised: if the tags to come are fresh and not used up, every tag of the window and every tag drawn
    since is in the index under its counter unless it was delivered, nothing else is, and at least 12 are waiting.
  */
  lemma WindowMovesIff(m: Manager, sid: Sid, ds: seq<Tag>)
    requires FullyIndexed(m, sid) && |m.heap[sid].pending| >= 12 && m.heap[sid].ratchet != []
    requires OwnTags(m, sid, ds)
    ensures Received(m, ds).heap[sid].ratchet != m.heap[sid].ratchet <==> |Left(m, sid, ds)| < 12
    ensures |Left(m, sid, ds)| >= 12 ==>
              forall t <- Received(m, ds).tagIndex :: Received(m, ds).tagIndex[t] == sid ==> t in m.heap[sid].pending
    ensures FreshRatchet(m, sid) && |m.heap[sid].pending| <= 24 ==> Supplied(m, Received(m, ds), sid, ds)
  {
    if FreshRatchet(m, sid) && |m.heap[sid].pending| <= 24 { SuppliedHolds(m, sid, ds); }
    WindowMoves(m, sid, ds);
    hide Receive, Supplied, FreshRatchet;
  }
}
