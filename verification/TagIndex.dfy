/** Soundness of the tag indexes under every interleaving of the manager's and the sessions' lock sections. */
module TagIndex {
  import opened Common
  import opened SessionTable

  datatype Claim = Claim(sid: Sid, tag: Tag)
  datatype Batch = Batch(sid: Sid, tags: seq<TagCounter>)

  /**
    The manager between two lock sections, the continuations other goroutines still hold, and a record of what
    each session's ratchet has produced and what was installed and claimed.
  */
  datatype World = World(
    m: Manager,
    claims: seq<Claim>,         // looked up, not yet consumed from the session's pending list
    batches: seq<Batch>,        // generated outside the manager lock, not yet installed
    drawn: set<Claim>,
    installed: set<Claim>,
    installs: multiset<Tag>,
    claimed: multiset<Tag>)

  // ----- invariant -----------------------------------------------------------------------------

  /** An indexed tag is pending in the session it names. */
  ghost predicate IndexSound(tags: map<Tag, Sid>, heap: map<Sid, Session>) {
    forall t <- tags :: tags[t] in heap && t in heap[tags[t]].pending
  }

  ghost predicate ReplySound(nsr: map<Tag, Sid>, heap: map<Sid, Session>) {
    forall t <- nsr :: nsr[t] in heap && heap[nsr[t]].nsrTag == Some(t)
  }

  ghost predicate WindowsBounded(heap: map<Sid, Session>) {
    forall s <- heap :: |heap[s].pending| <= TAG_WINDOW
  }

  /** Every session is stored under at most one hash. */
  ghost predicate TableSound(table: map<Hash, Sid>, heap: map<Sid, Session>) {
    && (forall h <- table :: table[h] in heap)
    && (forall g <- table, h <- table :: table[g] == table[h] ==> g == h)
  }

  ghost predicate RatchetsFresh(heap: map<Sid, Session>, drawn: set<Claim>) {
    && (forall s <- heap :: NoDup(heap[s].ratchet) && forall t <- heap[s].ratchet :: Claim(s, t) !in drawn)
    && (forall d <- drawn :: d.sid in heap)
  }

  /** A claimed tag was installed once and is no longer indexed for that session. */
  ghost predicate ClaimsSound(claims: seq<Claim>, tags: map<Tag, Sid>, installed: set<Claim>) {
    forall c <- claims :: c in installed && !(c.tag in tags && tags[c.tag] == c.sid)
  }

  ghost predicate BatchFresh(b: Batch, drawn: set<Claim>, installed: set<Claim>) {
    && (forall tc <- b.tags :: Claim(b.sid, tc.tag) in drawn && Claim(b.sid, tc.tag) !in installed)
    && (forall i, j :: 0 <= i < j < |b.tags| ==> b.tags[i].tag != b.tags[j].tag)
  }

  ghost predicate Apart(a: Batch, b: Batch) {
    a.sid == b.sid ==> forall x <- a.tags, y <- b.tags :: x.tag != y.tag
  }

  ghost predicate BatchesSound(batches: seq<Batch>, drawn: set<Claim>, installed: set<Claim>) {
    && (forall b <- batches :: BatchFresh(b, drawn, installed))
    && (forall i, j :: 0 <= i < j < |batches| ==> Apart(batches[i], batches[j]))
  }

  /** Each installation is claimed at most once. */
  ghost predicate Counted(tags: map<Tag, Sid>, installs: multiset<Tag>, claimed: multiset<Tag>) {
    forall t :: claimed[t] + (if t in tags then 1 else 0) <= installs[t]
  }

  ghost predicate IndexInstalled(tags: map<Tag, Sid>, installed: set<Claim>) {
    forall t <- tags :: Claim(tags[t], t) in installed
  }

  ghost predicate Sound(w: World) {
    && IndexInstalled(w.m.tagIndex, w.installed)
    && IndexSound(w.m.tagIndex, w.m.heap) && ReplySound(w.m.nsrIndex, w.m.heap)
    && WindowsBounded(w.m.heap) && TableSound(w.m.table, w.m.heap)
    && RatchetsFresh(w.m.heap, w.drawn) && w.installed <= w.drawn
    && ClaimsSound(w.claims, w.m.tagIndex, w.installed)
    && BatchesSound(w.batches, w.drawn, w.installed)
    && Counted(w.m.tagIndex, w.installs, w.claimed)
    && (forall c <- w.claims :: c.sid in w.m.heap) && (forall b <- w.batches :: b.sid in w.m.heap)
  }

  // ----- drawing and installing, one tag at a time -----------------------------------------------

  function DrawOne(w: World, sid: Sid): (r: World)
    requires sid in w.m.heap && w.m.heap[sid].ratchet != []
  {
    w.(m := Advance(w.m, sid), drawn := w.drawn + {Claim(sid, w.m.heap[sid].ratchet[0])})
  }

  function PutOne(w: World, sid: Sid, t: Tag, counter: nat): (r: World)
    requires sid in w.m.heap
  {
    w.(m := Put(w.m, sid, t, counter), installed := w.installed + {Claim(sid, t)}, installs := w.installs + multiset{t})
  }

  lemma DrawKeepsSound(w: World, sid: Sid)
    requires Sound(w) && sid in w.m.heap && w.m.heap[sid].ratchet != []
    ensures Sound(DrawOne(w, sid))
    ensures var t := w.m.heap[sid].ratchet[0];
            && Claim(sid, t) !in w.installed
            && forall b <- w.batches :: b.sid == sid ==> forall tc <- b.tags :: tc.tag != t
  {
    var s := w.m.heap[sid];
    assert s.ratchet == [s.ratchet[0]] + s.ratchet[1..];
    forall t <- s.ratchet[1..] ensures t != s.ratchet[0] {
      var i :| 0 <= i < |s.ratchet[1..]| && s.ratchet[1..][i] == t;
    }
    assert forall b <- w.batches :: BatchFresh(b, w.drawn + {Claim(sid, s.ratchet[0])}, w.installed);
  }

  /** `sid` can take a drawn tag that is neither installed nor waiting in another batch. */
  ghost predicate Installable(w: World, sid: Sid, t: Tag) {
    && sid in w.m.heap && |w.m.heap[sid].pending| < TAG_WINDOW && !Collides(w.m, sid, t)
    && Claim(sid, t) in w.drawn && Claim(sid, t) !in w.installed
    && forall b <- w.batches :: b.sid == sid ==> forall tc <- b.tags :: tc.tag != t
  }

  lemma PutKeepsIndex(w: World, sid: Sid, t: Tag, counter: nat)
    requires Sound(w) && Installable(w, sid, t)
    ensures var w' := PutOne(w, sid, t, counter);
            && IndexSound(w'.m.tagIndex, w'.m.heap) && IndexInstalled(w'.m.tagIndex, w'.installed)
            && ReplySound(w'.m.nsrIndex, w'.m.heap) && WindowsBounded(w'.m.heap) && TableSound(w'.m.table, w'.m.heap)
  {}

  lemma PutKeepsSound(w: World, sid: Sid, t: Tag, counter: nat)
    requires Sound(w) && Installable(w, sid, t)
    ensures Sound(PutOne(w, sid, t, counter))
  {
    var w' := PutOne(w, sid, t, counter);
    PutKeepsIndex(w, sid, t, counter);
    assert forall b <- w.batches :: BatchFresh(b, w'.drawn, w'.installed);
  }

  function FillAll(w: World, sid: Sid): (r: World)
    requires sid in w.m.heap
    ensures r.m == FillWindow(w.m, sid)
    decreases |w.m.heap[sid].ratchet|
  {
    var s := w.m.heap[sid];
    if |s.pending| >= TAG_WINDOW || s.ratchet == [] then w
    else if Collides(w.m, sid, s.ratchet[0]) then FillAll(DrawOne(w, sid), sid)
    else FillAll(PutOne(DrawOne(w, sid), sid, s.ratchet[0], s.nextCounter), sid)
  }

  lemma {:induction false} FillKeepsSound(w: World, sid: Sid)
    requires Sound(w) && sid in w.m.heap
    ensures Sound(FillAll(w, sid))
    decreases |w.m.heap[sid].ratchet|
  {
    var s := w.m.heap[sid];
    if |s.pending| < TAG_WINDOW && s.ratchet != [] {
      DrawKeepsSound(w, sid);
      var d := DrawOne(w, sid);
      if Collides(w.m, sid, s.ratchet[0]) {
        FillKeepsSound(d, sid);
      } else {
        PutKeepsSound(d, sid, s.ratchet[0], s.nextCounter);
        FillKeepsSound(PutOne(d, sid, s.ratchet[0], s.nextCounter), sid);
      }
    }
  }

  function InstallEach(w: World, sid: Sid, tags: seq<TagCounter>): (r: World)
    requires sid in w.m.heap
    ensures r.m == InstallAll(w.m, sid, tags)
    decreases |tags|
  {
    if tags == [] || |w.m.heap[sid].pending| >= TAG_WINDOW then w
    else if Collides(w.m, sid, tags[0].tag) then InstallEach(w, sid, tags[1..])
    else InstallEach(PutOne(w, sid, tags[0].tag, tags[0].counter), sid, tags[1..])
  }

  /** A batch of this session that is in nobody else's hands. */
  ghost predicate OwnBatch(w: World, b: Batch) {
    BatchFresh(b, w.drawn, w.installed) && forall o <- w.batches :: Apart(b, o)
  }

  lemma {:induction false} InstallKeepsSound(w: World, sid: Sid, tags: seq<TagCounter>)
    requires Sound(w) && sid in w.m.heap && OwnBatch(w, Batch(sid, tags))
    ensures Sound(InstallEach(w, sid, tags))
    decreases |tags|
  {
    if tags != [] && |w.m.heap[sid].pending| < TAG_WINDOW {
      var t := tags[0].tag;
      TailIsOwn(w, sid, tags);
      if Collides(w.m, sid, t) {
        InstallKeepsSound(w, sid, tags[1..]);
      } else {
        PutKeepsSound(w, sid, t, tags[0].counter);
        InstallKeepsSound(PutOne(w, sid, t, tags[0].counter), sid, tags[1..]);
      }
    }
  }

  lemma TailIsOwn(w: World, sid: Sid, tags: seq<TagCounter>)
    requires tags != [] && sid in w.m.heap && OwnBatch(w, Batch(sid, tags))
    ensures OwnBatch(w, Batch(sid, tags[1..]))
    ensures OwnBatch(PutOne(w, sid, tags[0].tag, tags[0].counter), Batch(sid, tags[1..]))
    ensures forall b <- w.batches :: b.sid == sid ==> forall tc <- b.tags :: tc.tag != tags[0].tag
    ensures Claim(sid, tags[0].tag) in w.drawn && Claim(sid, tags[0].tag) !in w.installed
  {
    TailIsFresh(sid, tags, w.drawn, w.installed);
    assert tags[0] in tags && forall tc <- tags[1..] :: tc in tags;
  }

  lemma TailIsFresh(sid: Sid, tags: seq<TagCounter>, drawn: set<Claim>, installed: set<Claim>)
    requires tags != [] && BatchFresh(Batch(sid, tags), drawn, installed)
    ensures BatchFresh(Batch(sid, tags[1..]), drawn, installed)
    ensures BatchFresh(Batch(sid, tags[1..]), drawn, installed + {Claim(sid, tags[0].tag)})
  {
    var rest := tags[1..];
    forall tc <- rest ensures tc in tags && tc.tag != tags[0].tag {
      var i :| 0 <= i < |rest| && rest[i] == tc;
      assert tags[i + 1] == tc;
    }
  }

  // ----- lock sections -------------------------------------------------------------------------

  datatype Step =
    | Store(h: Hash, sid: Sid, s: Session, evicted: Manager, capped: Manager)
    | ApplyReply(sid: Sid, ratchet: seq<Tag>)
    | LookUp(t: Tag)
    | Consume(i: nat)
    | Expire(i: nat)               // the claimed session had timed out
    | Draw(sid: Sid)
    | Install(i: nat)
    | TakeReply(t: Tag)
    | Drop(hs: set<Hash>)          // termination or expiry
    | Touch(sid: Sid, lastUsed: Time, handshake: bool)
    | Rekey(sid: Sid, peer: Bytes, ratchet: seq<Tag>)   // a DH key update: new peer key and tag ratchet, same counter
    | Close

  /**
    A step is possible. The one assumption is that the tags of one session are distinct over all its ratchets; that
    pointers are live is always so (`Sound` implies it) and only makes the step function well defined.
  */
  ghost predicate Enabled(w: World, st: Step) {
    match st
    case Store(h, sid, s, evicted, capped) =>
      && sid !in w.m.heap && s.pending == [] && s.nextCounter == 1 && NoDup(s.ratchet) && Live(w.m)
      && Evicted(w.m, evicted) && QuotaEnforced(evicted, s.peer, capped)
    case ApplyReply(sid, ratchet) => sid in w.m.heap && NoDup(ratchet) && forall t <- ratchet :: Claim(sid, t) !in w.drawn
    case LookUp(t) => true
    case Consume(i) => i < |w.claims| && w.claims[i].sid in w.m.heap
    case Expire(i) => i < |w.claims|
    case Draw(sid) => sid in w.m.heap
    case Install(i) => i < |w.batches| && w.batches[i].sid in w.m.heap
    case TakeReply(t) => t in w.m.nsrIndex && w.m.nsrIndex[t] in w.m.heap
    case Drop(hs) => true
    case Touch(sid, _, _) => sid in w.m.heap
    case Rekey(sid, _, ratchet) => sid in w.m.heap && NoDup(ratchet) && forall t <- ratchet :: Claim(sid, t) !in w.drawn
    case Close => true
  }

  function DrawnSet(sid: Sid, tags: seq<TagCounter>): (r: set<Claim>) { set tc | tc in tags :: Claim(sid, tc.tag) }

  ghost function After(w: World, st: Step): (r: World)
    requires Enabled(w, st)
  {
    match st
    case Store(h, sid, s, evicted, capped) => FillAll(w.(m := Inserted(capped, h, sid, s)), sid)
    case ApplyReply(sid, ratchet) => FillAll(w.(m := ReplaceRatchet(w.m, sid, ratchet)), sid)
    case LookUp(t) =>
      if t in w.m.tagIndex
      then w.(m := Lookup(w.m, t), claims := w.claims + [Claim(w.m.tagIndex[t], t)], claimed := w.claimed + multiset{t})
      else w
    case Consume(i) => w.(m := ConsumeTag(w.m, w.claims[i].sid, w.claims[i].tag), claims := Without(w.claims, i))
    case Expire(i) => w.(claims := Without(w.claims, i))
    case Draw(sid) =>
      var s := w.m.heap[sid];
      var tags := DrawnTags(s, DrawCount(s));
      w.(m := w.m.(heap := w.m.heap[sid := AfterDraw(s)]), drawn := w.drawn + DrawnSet(sid, tags),
         batches := w.batches + if |s.ratchet| < Needed(s) then [] else [Batch(sid, tags)])
    case Install(i) =>
      InstallEach(w.(batches := Without(w.batches, i)), w.batches[i].sid, w.batches[i].tags)
    case TakeReply(t) => w.(m := ClaimReply(w.m, t))
    case Drop(hs) => w.(m := RemoveAll(w.m, hs))
    case Touch(sid, lastUsed, handshake) =>
      w.(m := w.m.(heap := w.m.heap[sid := w.m.heap[sid].(lastUsed := lastUsed, handshake := handshake)]))
    case Rekey(sid, peer, ratchet) =>
      w.(m := w.m.(heap := w.m.heap[sid := w.m.heap[sid].(peer := peer, ratchet := ratchet)]))
    case Close => w.(m := w.m.(table := map[], tagIndex := map[], counters := map[], nsrIndex := map[]))
  }

  // ----- every lock section keeps soundness ----------------------------------------------------

  predicate SubMap<K, V(==)>(a: map<K, V>, b: map<K, V>) { forall k <- a :: k in b && a[k] == b[k] }

  /** Deleting entries from the maps never hurts. */
  lemma ShrinkKeepsSound(w: World, m: Manager)
    requires Sound(w) && Shrunk(w.m, m)
    ensures Sound(w.(m := m))
  {}

  lemma LookUpKeepsSound(w: World, t: Tag)
    requires Sound(w) && t in w.m.tagIndex
    ensures Sound(After(w, LookUp(t)))
  {
    var m := Lookup(w.m, t);
    ShrinkKeepsSound(w, m);
  }

  function WithPending(w: World, sid: Sid, pending: seq<Tag>): (r: World)
    requires sid in w.m.heap
  {
    w.(m := w.m.(heap := w.m.heap[sid := w.m.heap[sid].(pending := pending)]))
  }

  lemma PendingKeepsSound(w: World, sid: Sid, pending: seq<Tag>)
    requires Sound(w) && sid in w.m.heap && |pending| <= TAG_WINDOW
    requires forall t <- w.m.tagIndex :: w.m.tagIndex[t] == sid ==> t in pending
    ensures Sound(WithPending(w, sid, pending))
  {
    var heap := WithPending(w, sid, pending).m.heap;
    assert IndexSound(w.m.tagIndex, heap) && ReplySound(w.m.nsrIndex, heap) && RatchetsFresh(heap, w.drawn);
  }

  lemma ConsumeKeepsSound(w: World, i: nat)
    requires Sound(w) && Enabled(w, Consume(i))
    ensures Sound(After(w, Consume(i)))
  {
    var c := w.claims[i];
    assert c in w.claims;
    var pending := w.m.heap[c.sid].pending;
    SwapRemoveExact(pending, c.tag);
    forall t <- w.m.tagIndex
      ensures w.m.tagIndex[t] == c.sid ==> t in SwapRemove(pending, c.tag)
    {
      if w.m.tagIndex[t] == c.sid { SwapRemoveMembers(pending, c.tag, t); }
    }
    PendingKeepsSound(w, c.sid, SwapRemove(pending, c.tag));
    assert forall d <- Without(w.claims, i) :: d in w.claims;
  }

  lemma RatchetTail(s: Session, n: nat)
    requires NoDup(s.ratchet) && n <= |s.ratchet|
    ensures NoDup(s.ratchet[n..])
    ensures forall tc <- DrawnTags(s, n) :: tc.tag in s.ratchet && tc.tag !in s.ratchet[n..]
    ensures forall i, j :: 0 <= i < j < n ==> DrawnTags(s, n)[i].tag != DrawnTags(s, n)[j].tag
  {
    forall tc <- DrawnTags(s, n)
      ensures tc.tag in s.ratchet && tc.tag !in s.ratchet[n..]
    {
      var i :| 0 <= i < n && DrawnTags(s, n)[i] == tc;
      assert s.ratchet[i] == tc.tag;
      forall k | n <= k < |s.ratchet| ensures s.ratchet[k] != tc.tag {}
    }
  }

  lemma DrawBatchKeepsSound(w: World, sid: Sid)
    requires Sound(w) && sid in w.m.heap
    ensures Sound(After(w, Draw(sid)))
  {
    var s := w.m.heap[sid];
    var n := DrawCount(s);
    var tags := DrawnTags(s, n);
    var drawn := w.drawn + DrawnSet(sid, tags);
    RatchetTail(s, n);
    var heap := w.m.heap[sid := AfterDraw(s)];
    assert RatchetsFresh(heap, drawn);
    assert IndexSound(w.m.tagIndex, heap) && ReplySound(w.m.nsrIndex, heap);
    forall tc <- tags ensures Claim(sid, tc.tag) in drawn && Claim(sid, tc.tag) !in w.drawn {
      assert Claim(sid, tc.tag) in DrawnSet(sid, tags);
    }
    var b := Batch(sid, tags);
    assert BatchFresh(b, drawn, w.installed);
    forall o <- w.batches ensures BatchFresh(o, drawn, w.installed) && Apart(o, b) {}
  }

  lemma InstallBatchKeepsSound(w: World, i: nat)
    requires Sound(w) && Enabled(w, Install(i))
    ensures Sound(After(w, Install(i)))
  {
    var b := w.batches[i];
    assert b in w.batches;
    var rest := Without(w.batches, i);
    var w' := w.(batches := rest);
    forall o <- rest ensures o in w.batches && Apart(b, o) {
      var j :| 0 <= j < |rest| && rest[j] == o;
      var k := if j < i then j else j + 1;
      assert w.batches[k] == o;
    }
    InstallKeepsSound(w', b.sid, b.tags);
  }

  lemma TakeReplyKeepsSound(w: World, t: Tag)
    requires Sound(w) && Enabled(w, TakeReply(t))
    ensures Sound(After(w, TakeReply(t)))
  {
    var m := ClaimReply(w.m, t);
    assert ReplySound(m.nsrIndex, m.heap);
    assert IndexSound(m.tagIndex, m.heap) && TableSound(m.table, m.heap) && RatchetsFresh(m.heap, w.drawn);
  }

  lemma ApplyReplyKeepsSound(w: World, sid: Sid, ratchet: seq<Tag>)
    requires Sound(w) && Enabled(w, ApplyReply(sid, ratchet))
    ensures Sound(After(w, ApplyReply(sid, ratchet)))
  {
    hide FillWindow, IndexInstalled, ClaimsSound, BatchesSound, Counted;
    var p := Purge(w.m, sid);
    ShrinkKeepsSound(w, p);
    var m := ReplaceRatchet(w.m, sid, ratchet);
    assert forall t <- p.tagIndex :: p.tagIndex[t] != sid;
    assert IndexSound(m.tagIndex, m.heap) && ReplySound(m.nsrIndex, m.heap);
    assert RatchetsFresh(m.heap, w.drawn) && TableSound(m.table, m.heap);
    FillKeepsSound(w.(m := m), sid);
  }

  /** Same sessions, fewer table and index entries. */
  ghost predicate Shrunk(m: Manager, r: Manager) {
    r.heap == m.heap && SubMap(r.tagIndex, m.tagIndex) && SubMap(r.nsrIndex, m.nsrIndex) && SubMap(r.table, m.table)
  }

  lemma RemoveShrinks(m: Manager, h: Hash)
    requires h in m.table && m.table[h] in m.heap
    ensures Shrunk(m, Remove(m, h))
  {}

  lemma ShrunkTransitive(a: Manager, b: Manager, c: Manager)
    requires Shrunk(a, b) && Shrunk(b, c)
    ensures Shrunk(a, c)
  {}

  lemma EvictShrinks(m: Manager, evicted: Manager)
    requires Live(m) && Evicted(m, evicted)
    ensures Shrunk(m, evicted)
  {
    if |m.table| >= MAX_SESSIONS {
      var h :| IsLru(m, h) && evicted == Remove(m, h);
      RemoveShrinks(m, h);
    }
  }

  lemma QuotaShrinks(m: Manager, peer: Bytes, capped: Manager)
    requires QuotaEnforced(m, peer, capped)
    ensures Shrunk(m, capped)
  {
    if |PeerHashes(m, peer)| >= MAX_PER_PEER {
      var h :| IsQuotaVictim(m, peer, h) && capped == Remove(m, h);
      RemoveShrinks(m, h);
    }
  }

  lemma StoreKeepsSound(w: World, st: Step)
    requires Sound(w) && Enabled(w, st) && st.Store?
    ensures Sound(After(w, st))
  {
    hide FillWindow, IndexInstalled, ClaimsSound, BatchesSound, Counted, Evicted, QuotaEnforced;
    EvictShrinks(w.m, st.evicted);
    QuotaShrinks(st.evicted, st.s.peer, st.capped);
    ShrunkTransitive(w.m, st.evicted, st.capped);
    ShrinkKeepsSound(w, st.capped);
    var m := Inserted(st.capped, st.h, st.sid, st.s);
    assert IndexSound(m.tagIndex, m.heap) && ReplySound(m.nsrIndex, m.heap) && WindowsBounded(m.heap);
    assert TableSound(m.table, m.heap) && RatchetsFresh(m.heap, w.drawn);
    FillKeepsSound(w.(m := m), st.sid);
  }

  lemma StepKeepsSound(w: World, st: Step)
    requires Sound(w) && Enabled(w, st)
    ensures Sound(After(w, st))
  {
    match st
    case Store(_, _, _, _, _) => StoreKeepsSound(w, st);
    case ApplyReply(sid, ratchet) => ApplyReplyKeepsSound(w, sid, ratchet);
    case LookUp(t) => if t in w.m.tagIndex { LookUpKeepsSound(w, t); }
    case Consume(i) => ConsumeKeepsSound(w, i);
    case Expire(i) =>
    case Draw(sid) => DrawBatchKeepsSound(w, sid);
    case Install(i) => InstallBatchKeepsSound(w, i);
    case TakeReply(t) => TakeReplyKeepsSound(w, t);
    case Drop(hs) => ShrinkKeepsSound(w, RemoveAll(w.m, hs));
    case Touch(_, _, _) =>
    case Rekey(_, _, _) =>
    case Close => ShrinkKeepsSound(w, w.m.(table := map[], tagIndex := map[], counters := map[], nsrIndex := map[]));
  }

  // ----- theorems ------------------------------------------------------------------------------

  function Start(): (r: World) { World(Manager(map[], map[], map[], map[], map[]), [], [], {}, {}, multiset{}, multiset{}) }

  ghost predicate Run(start: World, steps: seq<Step>, end: World)
    decreases |steps|
  {
    if steps == [] then start == end
    else exists w :: Run(start, Front(steps), w) && Enabled(w, Last(steps)) && end == After(w, Last(steps))
  }

  /**
    In every interleaving: an indexed tag is pending in the session it names, no session has more than 24 pending
    tags, and each installation of a tag is claimed at most once.
  */
  lemma {:induction false} IndexIsSound(steps: seq<Step>, end: World)
    requires Run(Start(), steps, end)
    ensures Sound(end)
    ensures IndexSound(end.m.tagIndex, end.m.heap) && WindowsBounded(end.m.heap)
    ensures forall t :: end.claimed[t] <= end.installs[t]
    decreases |steps|
  {
    if steps != [] {
      var w :| Run(Start(), Front(steps), w) && Enabled(w, Last(steps)) && end == After(w, Last(steps));
      IndexIsSound(Front(steps), w);
      StepKeepsSound(w, Last(steps));
    }
  }

  // ----- what does not hold: indexed sessions may be gone from the table -------------------------

  /** Every indexed tag names a session of the table. */
  ghost predicate AllStored(m: Manager) {
    forall t <- m.tagIndex :: exists h :: h in m.table && m.table[h] == m.tagIndex[t]
  }

  lemma {:induction false} FillIndex(m: Manager, sid: Sid)
    requires sid in m.heap
    ensures var r := FillWindow(m, sid);
            && r.nsrIndex == m.nsrIndex
            && (forall t <- m.tagIndex :: m.tagIndex[t] != sid ==> t in r.tagIndex && r.tagIndex[t] == m.tagIndex[t])
            && (forall t <- r.tagIndex :: r.tagIndex[t] == sid || (t in m.tagIndex && r.tagIndex[t] == m.tagIndex[t]))
    decreases |m.heap[sid].ratchet|
  {
    var s := m.heap[sid];
    if |s.pending| < TAG_WINDOW && s.ratchet != [] {
      if Collides(m, sid, s.ratchet[0]) {
        FillIndex(Advance(m, sid), sid);
      } else {
        FillIndex(Put(Advance(m, sid), sid, s.ratchet[0], s.nextCounter), sid);
      }
    }
  }

  /** Some indexed tag still names the session stored under `h`. */
  ghost predicate StillIndexed(m: Manager, h: Hash) {
    h in m.table && exists t :: t in m.tagIndex && m.tagIndex[t] == m.table[h]
  }

  lemma InsertOrphansIff(c: Manager, h: Hash, sid: Sid, s: Session)
    requires IndexSound(c.tagIndex, c.heap) && TableSound(c.table, c.heap) && AllStored(c) && sid !in c.heap
    ensures AllStored(FillWindow(Inserted(c, h, sid, s), sid)) <==> !StillIndexed(c, h)
  {
    var m := Inserted(c, h, sid, s);
    FillIndex(m, sid);
    FillKeepsTable(m, sid);
    var r := FillWindow(m, sid);
    if StillIndexed(c, h) {
      var t :| t in c.tagIndex && c.tagIndex[t] == c.table[h];
      assert t in r.tagIndex && r.tagIndex[t] == c.table[h];
      forall g <- r.table ensures r.table[g] != r.tagIndex[t] {}
    } else {
      forall t <- r.tagIndex ensures exists g :: g in r.table && r.table[g] == r.tagIndex[t] {
        if r.tagIndex[t] == sid {
          assert r.table[h] == sid;
        } else {
          var g :| g in c.table && c.table[g] == c.tagIndex[t];
          assert g in r.table;
        }
      }
    }
  }

  /**
    Storing a session orphans index entries exactly when its hash is taken by a session that still has indexed tags:
    the table entry is overwritten, the old session's tags stay.
  */
  lemma StoreOrphansIff(w: World, st: Step)
    requires Sound(w) && Enabled(w, st) && st.Store? && AllStored(st.capped)
    ensures AllStored(After(w, st).m) <==> !StillIndexed(st.capped, st.h)
  {
    EvictShrinks(w.m, st.evicted);
    QuotaShrinks(st.evicted, st.s.peer, st.capped);
    ShrunkTransitive(w.m, st.evicted, st.capped);
    ShrinkKeepsSound(w, st.capped);
    InsertOrphansIff(st.capped, st.h, st.sid, st.s);
  }

  // ----- table bounds --------------------------------------------------------------------------

  ghost predicate PeersBounded(m: Manager) {
    forall peer :: |PeerHashes(m, peer)| <= MAX_PER_PEER
  }

  /** At most 5000 sessions, at most 32 per peer. */
  ghost predicate Bounded(m: Manager) { |m.table| <= MAX_SESSIONS && PeersBounded(m) }

  /** Peers of stored sessions do not change. */
  ghost predicate SamePeers(a: map<Sid, Session>, b: map<Sid, Session>) {
    forall s <- a :: s in b && a[s].peer == b[s].peer
  }

  lemma FewerEntriesStayBounded(m: Manager, r: Manager)
    requires PeersBounded(m) && SubMap(r.table, m.table) && SamePeers(m.heap, r.heap)
    requires forall h <- m.table :: m.table[h] in m.heap
    ensures PeersBounded(r)
  {
    forall peer ensures |PeerHashes(r, peer)| <= MAX_PER_PEER {
      SubsetSize(PeerHashes(r, peer), PeerHashes(m, peer));
    }
  }

  lemma {:induction false} FillKeepsTable(m: Manager, sid: Sid)
    requires sid in m.heap
    ensures FillWindow(m, sid).table == m.table && SamePeers(m.heap, FillWindow(m, sid).heap)
    decreases |m.heap[sid].ratchet|
  {
    var s := m.heap[sid];
    if |s.pending| < TAG_WINDOW && s.ratchet != [] {
      if Collides(m, sid, s.ratchet[0]) {
        FillKeepsTable(Advance(m, sid), sid);
      } else {
        FillKeepsTable(Put(Advance(m, sid), sid, s.ratchet[0], s.nextCounter), sid);
      }
    }
  }

  lemma {:induction false} InstallKeepsTable(m: Manager, sid: Sid, batch: seq<TagCounter>)
    requires sid in m.heap
    ensures InstallAll(m, sid, batch).table == m.table && SamePeers(m.heap, InstallAll(m, sid, batch).heap)
    decreases |batch|
  {
    if batch != [] && |m.heap[sid].pending| < TAG_WINDOW {
      if Collides(m, sid, batch[0].tag) {
        InstallKeepsTable(m, sid, batch[1..]);
      } else {
        InstallKeepsTable(Put(m, sid, batch[0].tag, batch[0].counter), sid, batch[1..]);
      }
    }
  }

  /** LRU eviction leaves room for one more session. */
  lemma EvictLeavesRoom(m: Manager, evicted: Manager)
    requires Live(m) && |m.table| <= MAX_SESSIONS && Evicted(m, evicted)
    ensures |evicted.table| < MAX_SESSIONS
  {
    if |m.table| >= MAX_SESSIONS {
      var h :| IsLru(m, h) && evicted == Remove(m, h);
      assert evicted.table.Keys == m.table.Keys - {h};
    }
  }

  /** The quota takes only the peer's own sessions and leaves room for one more of them. */
  lemma QuotaLeavesRoom(m: Manager, peer: Bytes, capped: Manager)
    requires |PeerHashes(m, peer)| <= MAX_PER_PEER && QuotaEnforced(m, peer, capped)
    ensures |PeerHashes(capped, peer)| < MAX_PER_PEER
    ensures forall h <- m.table :: !OfPeer(m, peer, h) ==> h in capped.table && capped.table[h] == m.table[h]
  {
    if |PeerHashes(m, peer)| >= MAX_PER_PEER {
      var h :| IsQuotaVictim(m, peer, h) && capped == Remove(m, h);
      assert PeerHashes(capped, peer) == PeerHashes(m, peer) - {h};
    }
  }

  lemma InsertStaysBounded(m: Manager, h: Hash, sid: Sid, s: Session)
    requires PeersBounded(m) && Live(m) && |PeerHashes(m, s.peer)| < MAX_PER_PEER && sid !in m.heap
    ensures PeersBounded(Inserted(m, h, sid, s))
  {
    var r := Inserted(m, h, sid, s);
    forall peer ensures |PeerHashes(r, peer)| <= MAX_PER_PEER {
      var before, after := PeerHashes(m, peer), PeerHashes(r, peer);
      SubsetSize(after, if peer == s.peer then before + {h} else before);
    }
  }

  /** Where the sessions of a Store step come from. */
  lemma StoreShrinks(w: World, st: Step)
    requires Sound(w) && Enabled(w, st) && st.Store?
    ensures Shrunk(w.m, st.evicted) && Shrunk(st.evicted, st.capped) && Shrunk(w.m, st.capped)
    ensures Sound(w.(m := st.evicted)) && Sound(w.(m := st.capped))
  {
    EvictShrinks(w.m, st.evicted);
    QuotaShrinks(st.evicted, st.s.peer, st.capped);
    ShrunkTransitive(w.m, st.evicted, st.capped);
    ShrinkKeepsSound(w, st.evicted);
    ShrinkKeepsSound(w, st.capped);
  }

  lemma StoreStaysBounded(w: World, st: Step)
    requires Sound(w) && PeersBounded(w.m) && Enabled(w, st) && st.Store?
    ensures PeersBounded(After(w, st).m)
  {
    hide FillWindow, PeersBounded, Evicted;
    StoreShrinks(w, st);
    FewerEntriesStayBounded(w.m, st.evicted);
    FewerEntriesStayBounded(st.evicted, st.capped);
    assert |PeerHashes(st.evicted, st.s.peer)| <= MAX_PER_PEER by { OnePeerBounded(st.evicted, st.s.peer); }
    QuotaLeavesRoom(st.evicted, st.s.peer, st.capped);
    InsertStaysBounded(st.capped, st.h, st.sid, st.s);
    var m := Inserted(st.capped, st.h, st.sid, st.s);
    FillKeepsTable(m, st.sid);
    FewerEntriesStayBounded(m, FillWindow(m, st.sid));
  }

  lemma OnePeerBounded(m: Manager, peer: Bytes)
    requires PeersBounded(m)
    ensures |PeerHashes(m, peer)| <= MAX_PER_PEER
  {}

  lemma ApplyReplyStaysBounded(w: World, sid: Sid, ratchet: seq<Tag>)
    requires Sound(w) && PeersBounded(w.m) && Enabled(w, ApplyReply(sid, ratchet))
    ensures PeersBounded(After(w, ApplyReply(sid, ratchet)).m)
  {
    var m := ReplaceRatchet(w.m, sid, ratchet);
    FillKeepsTable(m, sid);
    FewerEntriesStayBounded(w.m, FillWindow(m, sid));
  }

  lemma InstallStaysBounded(w: World, i: nat)
    requires Sound(w) && PeersBounded(w.m) && Enabled(w, Install(i))
    ensures PeersBounded(After(w, Install(i)).m)
  {
    InstallKeepsTable(w.m, w.batches[i].sid, w.batches[i].tags);
    FewerEntriesStayBounded(w.m, InstallAll(w.m, w.batches[i].sid, w.batches[i].tags));
  }

  lemma StepStaysBounded(w: World, st: Step)
    requires Sound(w) && PeersBounded(w.m) && Enabled(w, st) && !st.Rekey?
    ensures PeersBounded(After(w, st).m)
  {
    hide PeersBounded;
    if st.Store? {
      StoreStaysBounded(w, st);
    } else if st.ApplyReply? {
      ApplyReplyStaysBounded(w, st.sid, st.ratchet);
    } else if st.Install? {
      InstallStaysBounded(w, st.i);
    } else {
      FewerEntriesStayBounded(w.m, After(w, st).m);
    }
  }

  /** A DH key update moves a session to another peer key; nobody enforces the quota then. */
  lemma RekeyKeepsBoundIff(w: World, h: Hash, peer: Bytes, ratchet: seq<Tag>)
    requires Sound(w) && PeersBounded(w.m) && h in w.m.table && Enabled(w, Rekey(w.m.table[h], peer, ratchet))
    ensures PeersBounded(After(w, Rekey(w.m.table[h], peer, ratchet)).m) <==>
            OfPeer(w.m, peer, h) || |PeerHashes(w.m, peer)| < MAX_PER_PEER
  {
    hide PeersBounded;
    var m := After(w, Rekey(w.m.table[h], peer, ratchet)).m;
    MovedPeer(w.m, m, h, peer);
  }

  lemma MovedPeer(m: Manager, m': Manager, h: Hash, peer: Bytes)
    requires TableSound(m.table, m.heap) && h in m.table && PeersBounded(m) && m'.table == m.table && m.table[h] in m'.heap
    requires m'.heap == m.heap[m.table[h] := m'.heap[m.table[h]]] && m'.heap[m.table[h]].peer == peer
    ensures PeersBounded(m') <==> OfPeer(m, peer, h) || |PeerHashes(m, peer)| < MAX_PER_PEER
  {
    assert PeerHashes(m', peer) == PeerHashes(m, peer) + {h};
    assert |PeerHashes(m, peer)| <= MAX_PER_PEER;
    forall p | p != peer ensures |PeerHashes(m', p)| <= MAX_PER_PEER { SubsetSize(PeerHashes(m', p), PeerHashes(m, p)); }
    if OfPeer(m, peer, h) { assert PeerHashes(m', peer) == PeerHashes(m, peer); }
  }

  lemma OneMoreFits(m: map<Hash, Sid>, less: map<Hash, Sid>, h: Hash, sid: Sid)
    requires SubMap(less, m) && |m| < MAX_SESSIONS
    ensures |less[h := sid]| <= MAX_SESSIONS
  {
    SubsetSize(less.Keys, m.Keys);
    assert less[h := sid].Keys == less.Keys + {h};
  }

  lemma StoreStaysSmall(w: World, st: Step)
    requires |w.m.table| <= MAX_SESSIONS && Enabled(w, st) && st.Store?
    ensures |After(w, st).m.table| <= MAX_SESSIONS
  {
    hide FillWindow;
    EvictLeavesRoom(w.m, st.evicted);
    QuotaShrinks(st.evicted, st.s.peer, st.capped);
    OneMoreFits(st.evicted.table, st.capped.table, st.h, st.sid);
    FillKeepsTable(Inserted(st.capped, st.h, st.sid, st.s), st.sid);
  }

  lemma StepStaysSmall(w: World, st: Step)
    requires |w.m.table| <= MAX_SESSIONS && Enabled(w, st)
    ensures |After(w, st).m.table| <= MAX_SESSIONS
  {
    hide FillWindow, InstallAll;
    if st.Store? {
      StoreStaysSmall(w, st);
    } else if st.ApplyReply? {
      FillKeepsTable(ReplaceRatchet(w.m, st.sid, st.ratchet), st.sid);
    } else if st.Install? {
      InstallKeepsTable(w.m, w.batches[st.i].sid, w.batches[st.i].tags);
    } else {
      SubsetSize(After(w, st).m.table.Keys, w.m.table.Keys);
    }
  }

  /** In every run the table holds at most 5000 sessions, and without DH key updates at most 32 of any peer. */
  lemma {:induction false} TableIsBounded(steps: seq<Step>, end: World)
    requires Run(Start(), steps, end)
    ensures |end.m.table| <= 5000
    ensures (forall st <- steps :: !st.Rekey?) ==> Bounded(end.m) && forall peer :: |PeerHashes(end.m, peer)| <= 32
    decreases |steps|
  {
    hide After, Enabled, Sound;
    if steps == [] {
      forall peer ensures |PeerHashes(end.m, peer)| <= MAX_PER_PEER { assert PeerHashes(end.m, peer) == {}; }
    } else {
      var w :| Run(Start(), Front(steps), w) && Enabled(w, Last(steps)) && end == After(w, Last(steps));
      IndexIsSound(Front(steps), w);
      TableIsBounded(Front(steps), w);
      StepStaysSmall(w, Last(steps));
      assert forall st <- Front(steps) :: st in steps;
      assert Last(steps) in steps;
      if forall st <- steps :: !st.Rekey? { StepStaysBounded(w, Last(steps)); }
    }
  }
}
