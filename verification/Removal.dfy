/** Removed sessions: forgotten by the removing step, and exactly when the tag index can name them again. */
module Removal {
  import opened Common
  import opened SessionTable
  import opened TagIndex

  /** No table, tag or reply-tag entry names the session. */
  ghost predicate Forgotten(m: Manager, sid: Sid) {
    && (forall h <- m.table :: m.table[h] != sid)
    && (forall t <- m.tagIndex :: m.tagIndex[t] != sid)
    && (forall t <- m.nsrIndex :: m.nsrIndex[t] != sid)
  }

  ghost predicate Named(m: Manager, sid: Sid) { exists t :: t in m.tagIndex && m.tagIndex[t] == sid }

  /** The step takes the session out of the table: termination, expiry, LRU eviction or quota. */
  ghost predicate Removes(w: World, st: Step, sid: Sid) {
    match st
    case Drop(hs) => exists h :: h in hs && h in w.m.table && w.m.table[h] == sid
    case Store(_, _, _, _, capped) => exists h :: h in w.m.table && h !in capped.table && w.m.table[h] == sid
    case _ => false
  }

  // ----- a removal forgets -----------------------------------------------------------------------

  lemma RemoveForgets(w: World, h: Hash)
    requires Sound(w) && h in w.m.table
    ensures Forgotten(Remove(w.m, h), w.m.table[h])
  {}

  lemma DropForgets(w: World, hs: set<Hash>, h: Hash)
    requires Sound(w) && h in hs && h in w.m.table
    ensures Forgotten(RemoveAll(w.m, hs), w.m.table[h])
  {
    hide RatchetsFresh, BatchesSound, Counted, ClaimsSound, IndexInstalled;
    var m, sid := RemoveAll(w.m, hs), w.m.table[h];
    assert forall t <- w.m.tagIndex :: w.m.tagIndex[t] == sid ==> t in PendingOf(w.m, hs);
    assert forall t <- w.m.nsrIndex :: w.m.nsrIndex[t] == sid ==> t in ReplyTagsOf(w.m, hs);
  }

  lemma ForgottenShrinks(m: Manager, r: Manager, sid: Sid)
    requires Forgotten(m, sid) && Shrunk(m, r)
    ensures Forgotten(r, sid)
  {}

  /** Both victims of a Store step are forgotten once the quota has been enforced. */
  lemma VictimForgotten(w: World, st: Step, h: Hash)
    requires Sound(w) && Enabled(w, st) && st.Store? && h in w.m.table && h !in st.capped.table
    ensures Forgotten(st.capped, w.m.table[h])
  {
    hide Forgotten, Sound;
    StoreShrinks(w, st);
    if h in st.evicted.table {
      var v :| IsQuotaVictim(st.evicted, st.s.peer, v) && st.capped == Remove(st.evicted, v);
      RemoveForgets(w.(m := st.evicted), h);
    } else {
      var v :| IsLru(w.m, v) && st.evicted == Remove(w.m, v);
      RemoveForgets(w, h);
      ForgottenShrinks(st.evicted, st.capped, w.m.table[h]);
    }
  }

  lemma InsertKeepsForgotten(m: Manager, h: Hash, new_: Sid, s: Session, sid: Sid)
    requires Forgotten(m, sid) && sid != new_
    ensures Forgotten(Insert(m, h, new_, s), sid)
  {
    var i := Inserted(m, h, new_, s);
    FillIndex(i, new_);
    FillKeepsTable(i, new_);
  }

  /** Whatever removes a session, at the end of that step no entry names it. */
  lemma RemovedIsForgotten(w: World, st: Step, sid: Sid)
    requires Sound(w) && Enabled(w, st) && Removes(w, st, sid)
    ensures Forgotten(After(w, st).m, sid)
  {
    hide Sound, Forgotten, FillWindow, RemoveAll;
    if st.Drop? {
      var h :| h in st.hs && h in w.m.table && w.m.table[h] == sid;
      DropForgets(w, st.hs, h);
    } else {
      var h :| h in w.m.table && h !in st.capped.table && w.m.table[h] == sid;
      VictimForgotten(w, st, h);
      assert sid != st.sid by { StoredIsLive(w, h); }
      InsertKeepsForgotten(st.capped, st.h, st.sid, st.s, sid);
    }
  }

  lemma StoredIsLive(w: World, h: Hash)
    requires Sound(w) && h in w.m.table
    ensures w.m.table[h] in w.m.heap
  {}

  // ----- named again -----------------------------------------------------------------------------

  /**
    The step puts a tag of the session into the index: a batch of it is installed while its window has room, or its
    reply is applied, and one of the tags is free.
  */
  ghost predicate Revives(w: World, st: Step, sid: Sid)
    requires Enabled(w, st) && sid in w.m.heap
  {
    match st
    case Install(i) =>
      && w.batches[i].sid == sid && |w.m.heap[sid].pending| < TAG_WINDOW
      && exists tc :: tc in w.batches[i].tags && !Collides(w.m, sid, tc.tag)
    case ApplyReply(s, ratchet) => s == sid && exists t :: t in ratchet && !Collides(Purge(w.m, sid), sid, t)
    case _ => false
  }

  /** Installing adds entries of its own session only. */
  lemma {:induction false} InstallIndex(m: Manager, sid: Sid, tags: seq<TagCounter>)
    requires sid in m.heap
    ensures var r := InstallAll(m, sid, tags);
            && (forall t <- m.tagIndex :: t in r.tagIndex && r.tagIndex[t] == m.tagIndex[t])
            && (forall t <- r.tagIndex :: r.tagIndex[t] == sid || (t in m.tagIndex && r.tagIndex[t] == m.tagIndex[t]))
    decreases |tags|
  {
    if tags != [] && |m.heap[sid].pending| < TAG_WINDOW {
      if Collides(m, sid, tags[0].tag) {
        InstallIndex(m, sid, tags[1..]);
      } else {
        InstallIndex(Put(m, sid, tags[0].tag, tags[0].counter), sid, tags[1..]);
      }
    }
  }

  lemma {:induction false} InstallNames(m: Manager, sid: Sid, tags: seq<TagCounter>)
    requires sid in m.heap && !Named(m, sid)
    ensures Named(InstallAll(m, sid, tags), sid) <==>
            |m.heap[sid].pending| < TAG_WINDOW && exists tc :: tc in tags && !Collides(m, sid, tc.tag)
    decreases |tags|
  {
    if tags != [] && |m.heap[sid].pending| < TAG_WINDOW {
      assert tags == [tags[0]] + tags[1..];
      if Collides(m, sid, tags[0].tag) {
        InstallNames(m, sid, tags[1..]);
      } else {
        var p := Put(m, sid, tags[0].tag, tags[0].counter);
        InstallIndex(p, sid, tags[1..]);
        assert tags[0].tag in InstallAll(p, sid, tags[1..]).tagIndex;
        assert tags[0] in tags;
      }
    }
  }

  /** Filling keeps what the index holds. */
  lemma {:induction false} FillKeeps(m: Manager, sid: Sid)
    requires sid in m.heap
    ensures forall t <- m.tagIndex :: t in FillWindow(m, sid).tagIndex && FillWindow(m, sid).tagIndex[t] == m.tagIndex[t]
    decreases |m.heap[sid].ratchet|
  {
    var s := m.heap[sid];
    if |s.pending| < TAG_WINDOW && s.ratchet != [] {
      if Collides(m, sid, s.ratchet[0]) {
        FillKeeps(Advance(m, sid), sid);
      } else {
        FillKeeps(Put(Advance(m, sid), sid, s.ratchet[0], s.nextCounter), sid);
      }
    }
  }

  lemma {:induction false} FillNames(m: Manager, sid: Sid)
    requires sid in m.heap && !Named(m, sid)
    ensures Named(FillWindow(m, sid), sid) <==>
            |m.heap[sid].pending| < TAG_WINDOW && exists t :: t in m.heap[sid].ratchet && !Collides(m, sid, t)
    decreases |m.heap[sid].ratchet|
  {
    var s := m.heap[sid];
    if |s.pending| < TAG_WINDOW && s.ratchet != [] {
      assert s.ratchet == [s.ratchet[0]] + s.ratchet[1..];
      if Collides(m, sid, s.ratchet[0]) {
        assert forall t :: Collides(Advance(m, sid), sid, t) <==> Collides(m, sid, t);
        assert !Named(Advance(m, sid), sid);
        FillNames(Advance(m, sid), sid);
      } else {
        var p := Put(Advance(m, sid), sid, s.ratchet[0], s.nextCounter);
        FillKeeps(p, sid);
        assert s.ratchet[0] in FillWindow(p, sid).tagIndex;
      }
    }
  }

  lemma StoreDoesNotRename(w: World, st: Step, sid: Sid)
    requires Sound(w) && Enabled(w, st) && st.Store? && sid in w.m.heap && !Named(w.m, sid)
    ensures !Named(After(w, st).m, sid)
  {
    hide Sound, FillWindow;
    EvictShrinks(w.m, st.evicted);
    QuotaShrinks(st.evicted, st.s.peer, st.capped);
    FillIndex(Inserted(st.capped, st.h, st.sid, st.s), st.sid);
  }

  lemma ReplyRenamesIff(w: World, sid: Sid, ratchet: seq<Tag>, other: Sid)
    requires Enabled(w, ApplyReply(sid, ratchet)) && other in w.m.heap && !Named(w.m, other)
    ensures Named(After(w, ApplyReply(sid, ratchet)).m, other) <==> Revives(w, ApplyReply(sid, ratchet), other)
  {
    var m := ReplaceRatchet(w.m, sid, ratchet);
    assert !Named(m, other);
    FillIndex(m, sid);
    FillNames(m, other);
    if sid == other {
      assert forall t :: Collides(m, sid, t) <==> Collides(Purge(w.m, sid), sid, t);
    }
  }

  lemma InstallRenamesIff(w: World, i: nat, sid: Sid)
    requires Enabled(w, Install(i)) && sid in w.m.heap && !Named(w.m, sid)
    ensures Named(After(w, Install(i)).m, sid) <==> Revives(w, Install(i), sid)
  {
    var b := w.batches[i];
    InstallIndex(w.m, b.sid, b.tags);
    if b.sid == sid { InstallNames(w.m, sid, b.tags); }
  }

  /** A session no tag names is named after a step exactly if that step revives it. */
  lemma RenamedIff(w: World, st: Step, sid: Sid)
    requires Sound(w) && Enabled(w, st) && sid in w.m.heap && !Named(w.m, sid)
    ensures Named(After(w, st).m, sid) <==> Revives(w, st, sid)
  {
    hide Sound, FillWindow, InstallAll;
    if st.Store? {
      StoreDoesNotRename(w, st, sid);
    } else if st.ApplyReply? {
      ReplyRenamesIff(w, st.sid, st.ratchet, sid);
    } else if st.Install? {
      InstallRenamesIff(w, st.i, sid);
    }
  }

  // ----- over whole runs -------------------------------------------------------------------------

  /** The worlds a sequence of steps passes through. */
  ghost predicate Trace(ws: seq<World>, steps: seq<Step>) {
    && |ws| == |steps| + 1
    && forall i :: 0 <= i < |steps| ==> Enabled(ws[i], steps[i]) && ws[i + 1] == After(ws[i], steps[i])
  }

  lemma HeapGrows(w: World, st: Step)
    requires Enabled(w, st)
    ensures w.m.heap.Keys <= After(w, st).m.heap.Keys
  {
    if st.Store? {
      EvictShrinks(w.m, st.evicted);
      QuotaShrinks(st.evicted, st.s.peer, st.capped);
    }
  }

  lemma {:induction false} TraceIsSound(ws: seq<World>, steps: seq<Step>, k: nat)
    requires Trace(ws, steps) && Sound(ws[0]) && k < |ws|
    ensures Sound(ws[k]) && ws[0].m.heap.Keys <= ws[k].m.heap.Keys
  {
    hide Sound, Enabled, After;
    if k > 0 {
      TraceIsSound(ws, steps, k - 1);
      StepKeepsSound(ws[k - 1], steps[k - 1]);
      HeapGrows(ws[k - 1], steps[k - 1]);
    }
  }

  ghost predicate RevivedAt(ws: seq<World>, steps: seq<Step>, sid: Sid, j: nat)
    requires Trace(ws, steps) && j < |steps|
  {
    sid in ws[j].m.heap && Revives(ws[j], steps[j], sid)
  }

  lemma {:induction false} NamedMeansRevived(ws: seq<World>, steps: seq<Step>, sid: Sid, k: nat) returns (j: nat)
    requires Trace(ws, steps) && Sound(ws[0]) && sid in ws[0].m.heap && !Named(ws[0].m, sid)
    requires k < |ws| && Named(ws[k].m, sid)
    ensures j < |steps| && RevivedAt(ws, steps, sid, j)
    decreases k
  {
    hide Sound, Enabled, After, Named, Revives;
    TraceIsSound(ws, steps, k - 1);
    if Named(ws[k - 1].m, sid) {
      j := NamedMeansRevived(ws, steps, sid, k - 1);
    } else {
      RenamedIff(ws[k - 1], steps[k - 1], sid);
      j := k - 1;
    }
  }

  lemma RevivedMeansNamed(ws: seq<World>, steps: seq<Step>, sid: Sid, j: nat) returns (k: nat)
    requires Trace(ws, steps) && Sound(ws[0]) && j < |steps| && RevivedAt(ws, steps, sid, j)
    ensures k < |ws| && Named(ws[k].m, sid)
  {
    hide Sound, Enabled, After, Named, Revives;
    TraceIsSound(ws, steps, j);
    if Named(ws[j].m, sid) { return j; }
    RenamedIff(ws[j], steps[j], sid);
    return j + 1;
  }

  /**
    Over every continuation of a sound world: a session just removed is named by the tag index again, at some moment,
    exactly if at some moment an outstanding batch of it with a free tag was installed, or its reply was applied.
  */
  lemma NamedAgainIff(ws: seq<World>, steps: seq<Step>, sid: Sid)
    requires Trace(ws, steps) && Sound(ws[0]) && sid in ws[0].m.heap && Forgotten(ws[0].m, sid)
    ensures (exists k :: 0 <= k < |ws| && Named(ws[k].m, sid)) <==>
            (exists j :: 0 <= j < |steps| && RevivedAt(ws, steps, sid, j))
  {
    hide Sound;
    if k :| 0 <= k < |ws| && Named(ws[k].m, sid) {
      var j := NamedMeansRevived(ws, steps, sid, k);
    }
    if j :| 0 <= j < |steps| && RevivedAt(ws, steps, sid, j) {
      var k := RevivedMeansNamed(ws, steps, sid, j);
    }
  }

  // ----- it happens ------------------------------------------------------------------------------

  /** A session as it is stored: nothing pending, counting from 1. */
  ghost predicate Fresh(s: Session) { s.pending == [] && s.nextCounter == 1 && NoDup(s.ratchet) }

  function StoreStep(w: World, h: Hash, sid: Sid, s: Session): (st: Step) { Store(h, sid, s, w.m, w.m) }

  /** With a single session in the table, a Store step neither evicts nor enforces a quota. */
  lemma SmallStoreEnabled(w: World, h: Hash, sid: Sid, s: Session)
    requires Sound(w) && |w.m.table| <= 1 && sid !in w.m.heap && Fresh(s)
    ensures Enabled(w, StoreStep(w, h, sid, s))
  {
    SubsetSize(PeerHashes(w.m, s.peer), w.m.table.Keys);
    assert Live(w.m);
  }

  lemma StartIsSound()
    ensures Sound(Start())
  {
    IndexIsSound([], Start());
  }

  /** The world after storing one session. */
  ghost function OneSession(h: Hash, s: Session): (w: World)
    requires Fresh(s)
  {
    StartIsSound();
    SmallStoreEnabled(Start(), h, 0, s);
    After(Start(), StoreStep(Start(), h, 0, s))
  }

  lemma OneSessionFacts(h: Hash, s: Session)
    requires Fresh(s)
    ensures var w := OneSession(h, s);
            && Sound(w) && w.m.table == map[h := 0] && w.m.heap.Keys == {0} && w.claims == [] && w.batches == []
            && (s.ratchet != [] ==> Named(w.m, 0))
  {
    hide Sound, FillWindow;
    StartIsSound();
    SmallStoreEnabled(Start(), h, 0, s);
    StepKeepsSound(Start(), StoreStep(Start(), h, 0, s));
    var m := Inserted(Start().m, h, 0, s);
    FillKeepsTable(m, 0);
    assert !Named(m, 0);
    FillNames(m, 0);
    if s.ratchet != [] { assert s.ratchet[0] in m.heap[0].ratchet && !Collides(m, 0, s.ratchet[0]); }
    FillKeepsRest(Start().(m := m), 0);
  }

  /** Filling leaves claims and batches alone. */
  lemma {:induction false} FillKeepsRest(w: World, sid: Sid)
    requires sid in w.m.heap
    ensures FillAll(w, sid).claims == w.claims && FillAll(w, sid).batches == w.batches
    decreases |w.m.heap[sid].ratchet|
  {
    hide FillWindow;
    var s := w.m.heap[sid];
    if |s.pending| < TAG_WINDOW && s.ratchet != [] {
      if Collides(w.m, sid, s.ratchet[0]) {
        FillKeepsRest(DrawOne(w, sid), sid);
      } else {
        FillKeepsRest(PutOne(DrawOne(w, sid), sid, s.ratchet[0], s.nextCounter), sid);
      }
    }
  }

  lemma OnlyNamesLive(w: World)
    requires Sound(w) && w.m.heap.Keys == {0}
    ensures forall t <- w.m.tagIndex :: w.m.tagIndex[t] == 0
  {}

  /** Dropping the only session empties table and tag index. */
  lemma DropEmpties(w: World, h: Hash)
    requires Sound(w) && w.m.table == map[h := 0] && w.m.heap.Keys == {0}
    ensures var m := After(w, Drop({h})).m; Forgotten(m, 0) && m.table == map[] && m.tagIndex == map[] && m.heap == w.m.heap
  {
    OnlyNamesLive(w);
    hide Sound;
    assert Removes(w, Drop({h}), 0);
    RemovedIsForgotten(w, Drop({h}), 0);
  }

  /** A session that was stored, dropped, and then has its reply applied is in the tag index but not in the table. */
  lemma ReplyRevives(h: Hash, s: Session, t: Tag)
    requires Fresh(s) && Claim(0, t) !in OneSession(h, s).drawn
    ensures var w := OneSession(h, s);
            var dropped := After(w, Drop({h}));
            && Forgotten(dropped.m, 0)
            && Enabled(dropped, ApplyReply(0, [t]))
            && var end := After(dropped, ApplyReply(0, [t])); end.m.table == map[] && Named(end.m, 0)
  {
    hide Sound, FillWindow, OneSession;
    var w := OneSession(h, s);
    OneSessionFacts(h, s);
    DropEmpties(w, h);
    var dropped := After(w, Drop({h}));
    ReplyRenamesIff(dropped, 0, [t], 0);
    assert t in [t] && !Collides(Purge(dropped.m, 0), 0, t);
    FillKeepsTable(ReplaceRatchet(dropped.m, 0, [t]), 0);
  }

  /** Without other sessions in the index, filling takes the next tags of the ratchet. */
  lemma {:induction false} FillAlone(m: Manager, sid: Sid)
    requires sid in m.heap && forall t <- m.tagIndex :: m.tagIndex[t] == sid
    ensures var s, r := m.heap[sid], FillWindow(m, sid);
            var k := Min(Needed(s), |s.ratchet|);
            r.heap[sid].pending == s.pending + s.ratchet[..k] && r.heap[sid].ratchet == s.ratchet[k..]
    decreases |m.heap[sid].ratchet|
  {
    var s := m.heap[sid];
    var k := Min(Needed(s), |s.ratchet|);
    if k > 0 {
      var p := Put(Advance(m, sid), sid, s.ratchet[0], s.nextCounter);
      FillAlone(p, sid);
      TakeOneMore(s.pending, s.ratchet, k);
    }
  }

  lemma TakeOneMore(pending: seq<Tag>, ratchet: seq<Tag>, k: nat)
    requires 0 < k <= |ratchet|
    ensures pending + [ratchet[0]] + ratchet[1..][..k - 1] == pending + ratchet[..k] && ratchet[1..][k - 1..] == ratchet[k..]
  {}

  lemma FirstIsIndexed(m: Manager, sid: Sid)
    requires sid in m.heap && m.tagIndex == map[] && m.heap[sid].pending == [] && m.heap[sid].ratchet != []
    ensures var t := m.heap[sid].ratchet[0]; t in FillWindow(m, sid).tagIndex && FillWindow(m, sid).tagIndex[t] == sid
  {
    var s := m.heap[sid];
    FillKeeps(Put(Advance(m, sid), sid, s.ratchet[0], s.nextCounter), sid);
  }

  /** The only session of a manager, with 24 pending tags and more to draw. */
  ghost predicate Full(w: World, h: Hash, t: Tag) {
    && Sound(w) && w.m.table == map[h := 0] && w.m.heap.Keys == {0} && w.claims == [] && w.batches == []
    && |w.m.heap[0].pending| == TAG_WINDOW && w.m.heap[0].ratchet != []
    && t in w.m.heap[0].pending && t in w.m.tagIndex && w.m.tagIndex[t] == 0
  }

  lemma OneSessionIsFull(h: Hash, s: Session)
    requires Fresh(s) && |s.ratchet| > TAG_WINDOW
    ensures Full(OneSession(h, s), h, s.ratchet[0])
  {
    var m := Inserted(Start().m, h, 0, s);
    FillAlone(m, 0);
    FirstIsIndexed(m, 0);
    assert s.ratchet[0] in s.ratchet[..TAG_WINDOW];
    hide Sound, FillWindow;
    OneSessionFacts(h, s);
  }

  /** A message has been received and the replacement tag drawn, but not installed. */
  ghost function Drawing(w: World, h: Hash, t: Tag): (r: World)
    requires Full(w, h, t)
  {
    var claimed := After(w, LookUp(t));
    var consumed := After(claimed, Consume(0));
    After(consumed, Draw(0))
  }

  lemma DrawingFacts(w: World, h: Hash, t: Tag)
    requires Full(w, h, t)
    ensures var d := Drawing(w, h, t);
            && Sound(d) && d.m.table == map[h := 0] && d.m.heap.Keys == {0}
            && |d.batches| == 1 && d.batches[0].sid == 0 && |d.batches[0].tags| == 1 && |d.m.heap[0].pending| == TAG_WINDOW - 1
  {
    hide Sound;
    var claimed := After(w, LookUp(t));
    StepKeepsSound(w, LookUp(t));
    var consumed := After(claimed, Consume(0));
    StepKeepsSound(claimed, Consume(0));
    SwapRemoveExact(w.m.heap[0].pending, t);
    assert Needed(consumed.m.heap[0]) == 1 && consumed.m.heap[0].ratchet == w.m.heap[0].ratchet;
    StepKeepsSound(consumed, Draw(0));
  }

  ghost function DrawnSession(h: Hash, s: Session): (w: World)
    requires Fresh(s) && |s.ratchet| > TAG_WINDOW
  {
    OneSessionIsFull(h, s);
    Drawing(OneSession(h, s), h, s.ratchet[0])
  }

  /**
    A session is stored, one of its tags is used, the replacement drawn, the session dropped and forgotten, and then
    the batch installed: the tag index names a session that is in no table. Step by step, for every session with more
    tags than fit into the window.
  */
  lemma BatchRevives(h: Hash, s: Session)
    requires Fresh(s) && |s.ratchet| > TAG_WINDOW
    ensures var w := DrawnSession(h, s);
            var dropped := After(w, Drop({h}));
            && Forgotten(dropped.m, 0)
            && Enabled(dropped, Install(0))
            && var end := After(dropped, Install(0)); end.m.table == map[] && Named(end.m, 0)
  {
    hide Sound, OneSession, Full, Drawing, InstallAll;
    var w := DrawnSession(h, s);
    OneSessionIsFull(h, s);
    DrawingFacts(OneSession(h, s), h, s.ratchet[0]);
    DropEmpties(w, h);
    var dropped := After(w, Drop({h}));
    var tc := dropped.batches[0].tags[0];
    assert tc in dropped.batches[0].tags && !Collides(dropped.m, 0, tc.tag);
    InstallRenamesIff(dropped, 0, 0);
    InstallKeepsTable(dropped.m, 0, dropped.batches[0].tags);
  }

  /** Storing a second session under the same hash orphans the tags of the first. */
  lemma OverwriteOrphans(h: Hash, s: Session, s2: Session)
    requires Fresh(s) && s.ratchet != [] && Fresh(s2)
    ensures var w := OneSession(h, s);
            && AllStored(w.m) && Enabled(w, StoreStep(w, h, 1, s2)) && !AllStored(After(w, StoreStep(w, h, 1, s2)).m)
  {
    hide OneSession;
    var w := OneSession(h, s);
    OneSessionFacts(h, s);
    OnlyNamesLive(w);
    hide Sound;
    assert AllStored(w.m) by { assert w.m.table[h] == 0; }
    SmallStoreEnabled(w, h, 1, s2);
    StoreOrphansIff(w, StoreStep(w, h, 1, s2));
  }
}
