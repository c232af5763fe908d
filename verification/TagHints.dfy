/** The counter hint of every indexed tag is the position of that tag on a ratchet of its session. */
module TagHints {
  import opened Common
  import opened SessionTable
  import opened TagIndex

  /** A tag ratchet and the number of tags its session had drawn when it was given that ratchet. */
  datatype Ratchet = Ratchet(sid: Sid, base: nat, tags: seq<Tag>)

  /** Every receive ratchet a session was ever given, and the one it has now. */
  datatype Ratchets = Ratchets(given: set<Ratchet>, current: map<Sid, Ratchet>)

  function Give(r: Ratchets, x: Ratchet): (r': Ratchets) {
    Ratchets(r.given + {x}, r.current[x.sid := x])
  }

  /** A stored session and an applied reply count from 1; a DH key update goes on counting. */
  ghost function Handed(r: Ratchets, w: World, st: Step): (r': Ratchets)
    requires Enabled(w, st)
  {
    match st
    case Store(_, sid, s, _, _) => Give(r, Ratchet(sid, 0, s.ratchet))
    case ApplyReply(sid, ratchet) => Give(r, Ratchet(sid, 0, ratchet))
    case Rekey(sid, _, ratchet) =>
      var n := w.m.heap[sid].nextCounter;
      Give(r, Ratchet(sid, if n == 0 then 0 else n - 1, ratchet))
    case _ => r
  }

  /** The runs of the tag index, with a record of the ratchets. */
  ghost predicate Traced(steps: seq<Step>, end: World, r: Ratchets)
    decreases |steps|
  {
    if steps == [] then end == Start() && r == Ratchets({}, map[])
    else
      exists w, before :: && Traced(Front(steps), w, before) && Enabled(w, Last(steps))
                          && end == After(w, Last(steps)) && r == Handed(before, w, Last(steps))
  }

  lemma {:induction false} RunIsTraced(steps: seq<Step>, end: World) returns (r: Ratchets)
    requires Run(Start(), steps, end)
    ensures Traced(steps, end, r)
    decreases |steps|
  {
    hide After, Enabled;
    if steps == [] { return Ratchets({}, map[]); }
    var w :| Run(Start(), Front(steps), w) && Enabled(w, Last(steps)) && end == After(w, Last(steps));
    var before := RunIsTraced(Front(steps), w);
    r := Handed(before, w, Last(steps));
  }

  /** Counting from the base of some ratchet of the session, the n-th tag. */
  ghost predicate At(given: set<Ratchet>, sid: Sid, t: Tag, n: nat) {
    exists x :: x in given && x.sid == sid && x.base < n <= x.base + |x.tags| && x.tags[n - x.base - 1] == t
  }

  ghost predicate HintsRight(tags: map<Tag, Sid>, counters: map<Tag, nat>, given: set<Ratchet>) {
    forall t <- tags :: t in counters && At(given, tags[t], t, counters[t])
  }

  /** What is left of the session's ratchet starts at its next counter. */
  predicate OnRatchet(s: Session, x: Ratchet) {
    x.base < s.nextCounter <= x.base + |x.tags| + 1 && s.ratchet == x.tags[s.nextCounter - x.base - 1..]
  }

  ghost predicate HeapRight(heap: map<Sid, Session>, r: Ratchets) {
    forall s <- heap :: s in r.current && r.current[s] in r.given && r.current[s].sid == s && OnRatchet(heap[s], r.current[s])
  }

  ghost predicate TagsRight(sid: Sid, tags: seq<TagCounter>, given: set<Ratchet>) {
    forall tc <- tags :: At(given, sid, tc.tag, tc.counter)
  }

  ghost predicate BatchesRight(batches: seq<Batch>, given: set<Ratchet>) {
    forall b <- batches :: TagsRight(b.sid, b.tags, given)
  }

  ghost predicate Right(w: World, r: Ratchets) {
    && HintsRight(w.m.tagIndex, w.m.counters, r.given)
    && HeapRight(w.m.heap, r)
    && BatchesRight(w.batches, r.given)
  }

  // ----- single tags ---------------------------------------------------------------------------

  lemma NextIsAt(w: World, r: Ratchets, sid: Sid)
    requires Right(w, r) && sid in w.m.heap && w.m.heap[sid].ratchet != []
    ensures At(r.given, sid, w.m.heap[sid].ratchet[0], w.m.heap[sid].nextCounter)
    ensures Right(DrawOne(w, sid), r)
  {
    var s, x := w.m.heap[sid], r.current[sid];
    assert x.tags[s.nextCounter - x.base - 1] == s.ratchet[0];
    assert x.tags[s.nextCounter - x.base..] == s.ratchet[1..];
  }

  lemma PutKeepsRight(w: World, r: Ratchets, sid: Sid, t: Tag, n: nat)
    requires Right(w, r) && sid in w.m.heap && At(r.given, sid, t, n)
    ensures Right(PutOne(w, sid, t, n), r)
  {
    hide At;
  }

  lemma {:induction false} FillKeepsRight(w: World, r: Ratchets, sid: Sid)
    requires Right(w, r) && sid in w.m.heap
    ensures Right(FillAll(w, sid), r)
    decreases |w.m.heap[sid].ratchet|
  {
    hide Right, FillWindow;
    var s := w.m.heap[sid];
    if |s.pending| < TAG_WINDOW && s.ratchet != [] {
      NextIsAt(w, r, sid);
      var d := DrawOne(w, sid);
      if Collides(w.m, sid, s.ratchet[0]) {
        FillKeepsRight(d, r, sid);
      } else {
        PutKeepsRight(d, r, sid, s.ratchet[0], s.nextCounter);
        FillKeepsRight(PutOne(d, sid, s.ratchet[0], s.nextCounter), r, sid);
      }
    }
  }

  lemma {:induction false} InstallKeepsRight(w: World, r: Ratchets, sid: Sid, tags: seq<TagCounter>)
    requires Right(w, r) && sid in w.m.heap && TagsRight(sid, tags, r.given)
    ensures Right(InstallEach(w, sid, tags), r)
    decreases |tags|
  {
    hide Right, At, InstallAll;
    if tags != [] && |w.m.heap[sid].pending| < TAG_WINDOW {
      assert tags[0] in tags;
      if Collides(w.m, sid, tags[0].tag) {
        InstallKeepsRight(w, r, sid, tags[1..]);
      } else {
        PutKeepsRight(w, r, sid, tags[0].tag, tags[0].counter);
        InstallKeepsRight(PutOne(w, sid, tags[0].tag, tags[0].counter), r, sid, tags[1..]);
      }
    }
  }

  // ----- lock sections -------------------------------------------------------------------------

  lemma AtGrows(given: set<Ratchet>, x: Ratchet, sid: Sid, t: Tag, n: nat)
    requires At(given, sid, t, n)
    ensures At(given + {x}, sid, t, n)
  {}

  lemma HintsGrow(tags: map<Tag, Sid>, counters: map<Tag, nat>, given: set<Ratchet>, x: Ratchet)
    requires HintsRight(tags, counters, given)
    ensures HintsRight(tags, counters, given + {x})
  {
    hide At;
    forall t <- tags ensures At(given + {x}, tags[t], t, counters[t]) { AtGrows(given, x, tags[t], t, counters[t]); }
  }

  lemma BatchesGrow(batches: seq<Batch>, given: set<Ratchet>, x: Ratchet)
    requires BatchesRight(batches, given)
    ensures BatchesRight(batches, given + {x})
  {
    hide At;
    forall b <- batches ensures TagsRight(b.sid, b.tags, given + {x}) {
      forall tc <- b.tags ensures At(given + {x}, b.sid, tc.tag, tc.counter) { AtGrows(given, x, b.sid, tc.tag, tc.counter); }
    }
  }

  lemma GiveKeepsRight(w: World, r: Ratchets, x: Ratchet, s: Session)
    requires Right(w, r) && s.ratchet == x.tags && s.nextCounter == x.base + 1
    ensures Right(w.(m := w.m.(heap := w.m.heap[x.sid := s])), Give(r, x))
  {
    assert OnRatchet(s, x);
    hide At, OnRatchet;
    HintsGrow(w.m.tagIndex, w.m.counters, r.given, x);
    BatchesGrow(w.batches, r.given, x);
  }

  /** Fewer index entries, the same hints for those that stay. */
  ghost predicate Fewer(m: Manager, m': Manager) {
    m'.heap == m.heap && forall t <- m'.tagIndex :: t in m.tagIndex && m'.tagIndex[t] == m.tagIndex[t]
                                                    && (t in m.counters ==> t in m'.counters && m'.counters[t] == m.counters[t])
  }

  lemma FewerKeepsRight(w: World, r: Ratchets, m: Manager)
    requires Right(w, r) && Fewer(w.m, m)
    ensures Right(w.(m := m), r)
  {
    hide At;
  }

  lemma EvictionIsFewer(m: Manager, evicted: Manager, peer: Bytes, capped: Manager)
    requires Live(m) && Evicted(m, evicted) && QuotaEnforced(evicted, peer, capped)
    ensures Fewer(m, evicted) && Fewer(evicted, capped)
  {
    if |m.table| >= MAX_SESSIONS { var h :| IsLru(m, h) && evicted == Remove(m, h); }
    if |PeerHashes(evicted, peer)| >= MAX_PER_PEER { var h :| IsQuotaVictim(evicted, peer, h) && capped == Remove(evicted, h); }
  }

  lemma DrawKeepsRight(w: World, r: Ratchets, sid: Sid)
    requires Right(w, r) && sid in w.m.heap
    ensures Right(After(w, Draw(sid)), r)
  {
    var s, x := w.m.heap[sid], r.current[sid];
    var tags := DrawnTags(s, DrawCount(s));
    assert OnRatchet(AfterDraw(s), x);
    forall tc <- tags ensures At(r.given, sid, tc.tag, tc.counter) {
      var i :| 0 <= i < |tags| && tags[i] == tc;
      assert x.tags[tc.counter - x.base - 1] == tc.tag;
    }
    assert TagsRight(sid, tags, r.given);
  }

  lemma StoreKeepsRight(w: World, r: Ratchets, st: Step)
    requires Right(w, r) && Enabled(w, st) && st.Store?
    ensures Right(After(w, st), Give(r, Ratchet(st.sid, 0, st.s.ratchet)))
  {
    hide Right, FillWindow;
    EvictionIsFewer(w.m, st.evicted, st.s.peer, st.capped);
    FewerKeepsRight(w, r, st.evicted);
    FewerKeepsRight(w.(m := st.evicted), r, st.capped);
    var w' := w.(m := Inserted(st.capped, st.h, st.sid, st.s).(heap := st.capped.heap));
    FewerKeepsRight(w.(m := st.capped), r, w'.m);
    GiveKeepsRight(w', r, Ratchet(st.sid, 0, st.s.ratchet), st.s);
    FillKeepsRight(w.(m := Inserted(st.capped, st.h, st.sid, st.s)), Give(r, Ratchet(st.sid, 0, st.s.ratchet)), st.sid);
  }

  lemma ReplyKeepsRight(w: World, r: Ratchets, sid: Sid, ratchet: seq<Tag>)
    requires Right(w, r) && Enabled(w, ApplyReply(sid, ratchet))
    ensures Right(After(w, ApplyReply(sid, ratchet)), Give(r, Ratchet(sid, 0, ratchet)))
  {
    hide Right, FillWindow;
    var p := Purge(w.m, sid);
    FewerKeepsRight(w, r, p);
    var s := w.m.heap[sid].(pending := [], ratchet := ratchet, nextCounter := 1);
    GiveKeepsRight(w.(m := p), r, Ratchet(sid, 0, ratchet), s);
    FillKeepsRight(w.(m := ReplaceRatchet(w.m, sid, ratchet)), Give(r, Ratchet(sid, 0, ratchet)), sid);
  }

  lemma InstallBatchKeepsRight(w: World, r: Ratchets, i: nat)
    requires Right(w, r) && Enabled(w, Install(i))
    ensures Right(After(w, Install(i)), r)
  {
    hide At, InstallAll;
    var b := w.batches[i];
    assert b in w.batches;
    InstallKeepsRight(w.(batches := Without(w.batches, i)), r, b.sid, b.tags);
  }

  lemma StepKeepsRight(w: World, r: Ratchets, st: Step)
    requires Right(w, r) && Enabled(w, st) && !st.Store? && !st.ApplyReply? && !st.Draw? && !st.Install? && !st.Rekey?
    ensures Right(After(w, st), r)
  {
    hide At;
    if st.Drop? { FewerKeepsRight(w, r, RemoveAll(w.m, st.hs)); }
  }

  lemma RekeyKeepsRight(w: World, r: Ratchets, sid: Sid, peer: Bytes, ratchet: seq<Tag>)
    requires Right(w, r) && Enabled(w, Rekey(sid, peer, ratchet))
    ensures var st := Rekey(sid, peer, ratchet); Right(After(w, st), Handed(r, w, st))
  {
    hide At;
    var s := w.m.heap[sid].(peer := peer, ratchet := ratchet);
    GiveKeepsRight(w, r, Ratchet(sid, s.nextCounter - 1, ratchet), s);
  }

  lemma HandedKeepsRight(w: World, r: Ratchets, st: Step)
    requires Right(w, r) && Enabled(w, st)
    ensures Right(After(w, st), Handed(r, w, st))
  {
    hide After, Right;
    if st.Store? {
      StoreKeepsRight(w, r, st);
    } else if st.ApplyReply? {
      ReplyKeepsRight(w, r, st.sid, st.ratchet);
    } else if st.Draw? {
      DrawKeepsRight(w, r, st.sid);
    } else if st.Install? {
      InstallBatchKeepsRight(w, r, st.i);
    } else if st.Rekey? {
      RekeyKeepsRight(w, r, st.sid, st.peer, st.ratchet);
    } else {
      StepKeepsRight(w, r, st);
    }
  }

  /**
    In every interleaving of the lock sections, each indexed tag carries as its hint the tag's number on one of the
    ratchets its session has had, counted from the base of that ratchet. A batch drawn before a ratchet was replaced
    may be installed afterwards, so it need not be the present one.
  */
  lemma {:induction false} HintIsPosition(steps: seq<Step>, end: World, r: Ratchets)
    requires Traced(steps, end, r)
    ensures Right(end, r)
    ensures HintsRight(end.m.tagIndex, end.m.counters, r.given)
    decreases |steps|
  {
    hide After, OnRatchet, At, Handed;
    if steps != [] {
      var st := Last(steps);
      var w, before :| && Traced(Front(steps), w, before) && Enabled(w, st)
                       && end == After(w, st) && r == Handed(before, w, st);
      HintIsPosition(Front(steps), w, before);
      HandedKeepsRight(w, before, st);
    }
  }

  /** The base is 0, and the hint so the plain number of the tag, unless a DH key update came after tags were drawn. */
  lemma {:induction false} BaseIsZero(steps: seq<Step>, end: World, r: Ratchets)
    requires Traced(steps, end, r) && forall st <- steps :: !st.Rekey?
    ensures forall x <- r.given :: x.base == 0
    decreases |steps|
  {
    hide After;
    if steps != [] {
      var st := Last(steps);
      var w, before :| && Traced(Front(steps), w, before) && Enabled(w, st)
                       && end == After(w, st) && r == Handed(before, w, st);
      assert st in steps && forall x <- Front(steps) :: x in steps;
      BaseIsZero(Front(steps), w, before);
    }
  }

  /**
    After a DH key update the hints are off: the next tag drawn is the first of its ratchet, and its hint is one more
    than the number of tags drawn before. It is the tag's number exactly if none was drawn.
  */
  lemma RekeyShiftsHints(w: World, r: Ratchets, sid: Sid, peer: Bytes, ratchet: seq<Tag>)
    requires Right(w, r) && Enabled(w, Rekey(sid, peer, ratchet)) && ratchet != []
    ensures var s := After(w, Rekey(sid, peer, ratchet)).m.heap[sid];
            && DrawnTags(s, 1) == [TagCounter(ratchet[0], w.m.heap[sid].nextCounter)]
            && (DrawnTags(s, 1)[0].counter == 1 <==> w.m.heap[sid].nextCounter == 1)
  {
    hide At;
  }

  // ----- no hint without a tag ------------------------------------------------------------------------

  predicate OneHintEach(m: Manager) { m.counters.Keys == m.tagIndex.Keys }

  lemma {:induction false} FillKeepsHints(m: Manager, sid: Sid)
    requires OneHintEach(m) && sid in m.heap
    ensures OneHintEach(FillWindow(m, sid))
    decreases |m.heap[sid].ratchet|
  {
    var s := m.heap[sid];
    if |s.pending| < TAG_WINDOW && s.ratchet != [] {
      if Collides(m, sid, s.ratchet[0]) {
        FillKeepsHints(Advance(m, sid), sid);
      } else {
        FillKeepsHints(Put(Advance(m, sid), sid, s.ratchet[0], s.nextCounter), sid);
      }
    }
  }

  lemma {:induction false} InstallKeepsHints(m: Manager, sid: Sid, batch: seq<TagCounter>)
    requires OneHintEach(m) && sid in m.heap
    ensures OneHintEach(InstallAll(m, sid, batch))
    decreases |batch|
  {
    if batch != [] && |m.heap[sid].pending| < TAG_WINDOW {
      if Collides(m, sid, batch[0].tag) {
        InstallKeepsHints(m, sid, batch[1..]);
      } else {
        InstallKeepsHints(Put(m, sid, batch[0].tag, batch[0].counter), sid, batch[1..]);
      }
    }
  }

  lemma EvictionKeepsHints(m: Manager, evicted: Manager, peer: Bytes, capped: Manager)
    requires Live(m) && Evicted(m, evicted) && QuotaEnforced(evicted, peer, capped) && OneHintEach(m)
    ensures OneHintEach(capped)
  {
    if |m.table| >= MAX_SESSIONS { var h :| IsLru(m, h) && evicted == Remove(m, h); }
    if |PeerHashes(evicted, peer)| >= MAX_PER_PEER { var h :| IsQuotaVictim(evicted, peer, h) && capped == Remove(evicted, h); }
  }

  lemma StepKeepsHints(w: World, st: Step)
    requires Enabled(w, st) && OneHintEach(w.m)
    ensures OneHintEach(After(w, st).m)
  {
    hide FillWindow, InstallAll;
    if st.Store? {
      EvictionKeepsHints(w.m, st.evicted, st.s.peer, st.capped);
      FillKeepsHints(Inserted(st.capped, st.h, st.sid, st.s), st.sid);
    } else if st.ApplyReply? {
      FillKeepsHints(ReplaceRatchet(w.m, st.sid, st.ratchet), st.sid);
    } else if st.Install? {
      InstallKeepsHints(w.m, w.batches[st.i].sid, w.batches[st.i].tags);
    }
  }

  /** In every interleaving the hints are those of the indexed tags: none is missing, and none outlives its tag. */
  lemma {:induction false} HintsMatchIndex(steps: seq<Step>, end: World)
    requires Run(Start(), steps, end)
    ensures end.m.counters.Keys == end.m.tagIndex.Keys
    decreases |steps|
  {
    hide After, Enabled;
    if steps != [] {
      var w :| Run(Start(), Front(steps), w) && Enabled(w, Last(steps)) && end == After(w, Last(steps));
      HintsMatchIndex(Front(steps), w);
      StepKeepsHints(w, Last(steps));
    }
  }
}
