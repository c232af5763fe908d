/** The reply tags of initiators: each registration is claimed at most once, and lasts until it is claimed or removed. */
module ReplyTags {
  import opened Common
  import opened SessionTable
  import opened TagIndex
  import Removal
  import TagRefill

  predicate Registers(st: Step, t: Tag) { st.Store? && st.s.nsrTag == Some(t) }

  predicate Takes(st: Step, t: Tag) { st.TakeReply? && st.t == t }

  function Registrations(steps: seq<Step>, t: Tag): (n: nat) {
    if steps == [] then 0 else Registrations(Front(steps), t) + if Registers(Last(steps), t) then 1 else 0
  }

  function Claims(steps: seq<Step>, t: Tag): (n: nat) {
    if steps == [] then 0 else Claims(Front(steps), t) + if Takes(Last(steps), t) then 1 else 0
  }

  // ----- what a step does to the reply tags ---------------------------------------------------------

  lemma FillKeepsReplyTags(m: Manager, sid: Sid)
    requires sid in m.heap
    ensures FillWindow(m, sid).nsrIndex == m.nsrIndex
  {
    var d := TagRefill.FillRegisters(m, sid);
  }

  lemma InstallKeepsReplyTags(m: Manager, sid: Sid, batch: seq<TagCounter>)
    requires sid in m.heap
    ensures InstallAll(m, sid, batch).nsrIndex == m.nsrIndex
  {
    TagRefill.InstallRegisters(m, sid, batch);
  }

  predicate Holds(m: Manager, h: Hash, t: Tag) {
    h in m.table && m.table[h] in m.heap && m.heap[m.table[h]].nsrTag == Some(t)
  }

  /** The step removes a stored session that holds the tag. */
  ghost predicate RemovesHolder(w: World, st: Step, t: Tag) {
    match st
    case Drop(hs) => exists h :: h in hs && Holds(w.m, h, t)
    case Store(_, _, _, _, capped) => exists h :: h !in capped.table && Holds(w.m, h, t)
    case _ => false
  }

  /** What a removal leaves of the reply tags: those no removed session held. */
  ghost predicate Spared(m: Manager, r: Manager, t: Tag) {
    && r.heap == m.heap && (forall h <- r.table :: h in m.table && r.table[h] == m.table[h])
    && (t in r.nsrIndex <==> t in m.nsrIndex && !exists h :: h !in r.table && Holds(m, h, t))
    && (t in r.nsrIndex ==> r.nsrIndex[t] == m.nsrIndex[t])
  }

  lemma RemoveSpares(m: Manager, h: Hash, t: Tag)
    requires h in m.table && m.table[h] in m.heap
    ensures Spared(m, Remove(m, h), t)
  {
    if Holds(m, h, t) { assert h !in Remove(m, h).table; }
  }

  lemma EvictionSpares(m: Manager, evicted: Manager, t: Tag)
    requires Live(m) && Evicted(m, evicted)
    ensures Spared(m, evicted, t)
  {
    if |m.table| >= MAX_SESSIONS {
      var h :| IsLru(m, h) && evicted == Remove(m, h);
      RemoveSpares(m, h, t);
    }
  }

  lemma QuotaSpares(m: Manager, peer: Bytes, capped: Manager, t: Tag)
    requires QuotaEnforced(m, peer, capped)
    ensures Spared(m, capped, t)
  {
    if |PeerHashes(m, peer)| >= MAX_PER_PEER {
      var h :| IsQuotaVictim(m, peer, h) && capped == Remove(m, h);
      RemoveSpares(m, h, t);
    }
  }

  lemma SparedTwice(m: Manager, evicted: Manager, capped: Manager, t: Tag)
    requires Spared(m, evicted, t) && Spared(evicted, capped, t)
    ensures Spared(m, capped, t)
  {
    forall h | h !in capped.table && Holds(m, h, t) ensures t !in capped.nsrIndex {
      if h in evicted.table { assert Holds(evicted, h, t); }
    }
    forall h | h !in evicted.table && Holds(m, h, t) ensures h !in capped.table {}
    forall h | h !in capped.table && Holds(evicted, h, t) ensures Holds(m, h, t) {}
  }

  predicate Found(m: Manager, t: Tag, sid: Sid) { t in m.nsrIndex && m.nsrIndex[t] == sid }

  /** The step ends the registration: claims the tag, overwrites it, removes a session that holds it, or closes. */
  ghost predicate Ends(w: World, st: Step, t: Tag) {
    Takes(st, t) || Registers(st, t) || RemovesHolder(w, st, t) || st.Close?
  }

  lemma StoreReplyTags(w: World, st: Step, t: Tag)
    requires Enabled(w, st) && st.Store?
    ensures var m := After(w, st).m;
            if Registers(st, t) then Found(m, t, st.sid)
            else (t in m.nsrIndex <==> t in w.m.nsrIndex && !RemovesHolder(w, st, t))
                 && (t in m.nsrIndex ==> m.nsrIndex[t] == w.m.nsrIndex[t])
  {
    hide FillWindow, Evicted, QuotaEnforced, Holds;
    EvictionSpares(w.m, st.evicted, t);
    QuotaSpares(st.evicted, st.s.peer, st.capped, t);
    SparedTwice(w.m, st.evicted, st.capped, t);
    FillKeepsReplyTags(Inserted(st.capped, st.h, st.sid, st.s), st.sid);
  }

  lemma OtherReplyTags(w: World, st: Step, t: Tag)
    requires Enabled(w, st) && !st.Store?
    ensures var m := After(w, st).m;
            && (t in m.nsrIndex <==> t in w.m.nsrIndex && !Takes(st, t) && !RemovesHolder(w, st, t) && !st.Close?)
            && (t in m.nsrIndex ==> m.nsrIndex[t] == w.m.nsrIndex[t])
  {
    hide FillWindow, InstallAll;
    if st.ApplyReply? {
      FillKeepsReplyTags(ReplaceRatchet(w.m, st.sid, st.ratchet), st.sid);
    } else if st.Install? {
      InstallKeepsReplyTags(w.m, w.batches[st.i].sid, w.batches[st.i].tags);
    }
  }

  /** A claim leaves its session without a reply tag, and otherwise as it was. */
  lemma ClaimClears(w: World, t: Tag)
    requires Sound(w) && Enabled(w, TakeReply(t))
    ensures var (sid, r) := (w.m.nsrIndex[t], After(w, TakeReply(t)).m);
            && t !in r.nsrIndex && r.heap == w.m.heap[sid := w.m.heap[sid].(nsrTag := None)]
            && r.tagIndex == w.m.tagIndex && r.table == w.m.table
  {
    hide FillWindow, InstallAll, ClaimsSound, BatchesSound, Counted;
  }

  // ----- over every run -----------------------------------------------------------------------------

  lemma TakenWasThere(w: World, st: Step, t: Tag)
    requires Enabled(w, st)
    ensures Takes(st, t) ==> t in w.m.nsrIndex
  {}

  /** In every interleaving no reply tag is claimed more often than it was registered. */
  lemma {:induction false} EachRegistrationClaimedOnce(steps: seq<Step>, end: World, t: Tag)
    requires Run(Start(), steps, end)
    ensures Claims(steps, t) + (if t in end.m.nsrIndex then 1 else 0) <= Registrations(steps, t)
    decreases |steps|
  {
    hide After, Enabled;
    if steps != [] {
      var st := Last(steps);
      var w :| Run(Start(), Front(steps), w) && Enabled(w, st) && end == After(w, st);
      EachRegistrationClaimedOnce(Front(steps), w, t);
      if st.Store? { StoreReplyTags(w, st, t); } else { OtherReplyTags(w, st, t); }
      TakenWasThere(w, st, t);
    }
  }

  lemma NewSessionIsNew(w: World, st: Step, sid: Sid)
    requires Enabled(w, st) && sid in w.m.heap
    ensures st.Store? ==> st.sid != sid
  {}

  /** A step keeps a registration unless it ends it, and brings none back for a session that exists. */
  lemma FoundStep(w: World, st: Step, t: Tag, sid: Sid)
    requires Enabled(w, st) && sid in w.m.heap
    ensures Found(After(w, st).m, t, sid) <==> Found(w.m, t, sid) && !Ends(w, st, t)
  {
    NewSessionIsNew(w, st, sid);
    hide After, Enabled;
    if st.Store? { StoreReplyTags(w, st, t); } else { OtherReplyTags(w, st, t); }
  }

  ghost predicate EndsAt(ws: seq<World>, steps: seq<Step>, t: Tag, j: nat) { j < |steps| && j < |ws| && Ends(ws[j], steps[j], t) }

  lemma StoredNow(w: World, st: Step)
    requires Enabled(w, st) && st.Store?
    ensures st.sid in After(w, st).m.heap
  {}

  lemma {:induction false} StoredIsLive(ws: seq<World>, steps: seq<Step>, k: nat)
    requires Removal.Trace(ws, steps) && 1 <= k < |ws| && steps[0].Store?
    ensures steps[0].sid in ws[k].m.heap
    decreases k
  {
    hide Enabled, After;
    assert Enabled(ws[k - 1], steps[k - 1]) && ws[k] == After(ws[k - 1], steps[k - 1]);
    if k == 1 {
      StoredNow(ws[0], steps[0]);
    } else {
      StoredIsLive(ws, steps, k - 1);
      Removal.HeapGrows(ws[k - 1], steps[k - 1]);
    }
  }

  /**
    From the moment an initiator's session is stored: its reply tag is found at a later moment if and only if no step
    in between claimed it, stored another session with the same tag, removed a session that holds it, or closed.
  */
  lemma {:induction false} FoundUntilClaimedOrRemoved(ws: seq<World>, steps: seq<Step>, t: Tag, k: nat)
    requires Removal.Trace(ws, steps) && 1 <= k < |ws| && Registers(steps[0], t)
    ensures Found(ws[k].m, t, steps[0].sid) <==> forall j :: 1 <= j < k ==> !EndsAt(ws, steps, t, j)
    decreases k
  {
    hide Enabled, After, Ends;
    assert Enabled(ws[0], steps[0]) && ws[1] == After(ws[0], steps[0]);
    if k == 1 {
      StoreReplyTags(ws[0], steps[0], t);
    } else {
      FoundUntilClaimedOrRemoved(ws, steps, t, k - 1);
      StoredIsLive(ws, steps, k - 1);
      assert Enabled(ws[k - 1], steps[k - 1]) && ws[k] == After(ws[k - 1], steps[k - 1]);
      FoundStep(ws[k - 1], steps[k - 1], t, steps[0].sid);
      assert EndsAt(ws, steps, t, k - 1) <==> Ends(ws[k - 1], steps[k - 1], t);
    }
  }
}
