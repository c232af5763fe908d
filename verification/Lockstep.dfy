/**
  A sender and a receiver of one direction of a session, with an adversarial network between them and the
  receiver's lock sections interleaved in any order.
*/
module Lockstep {
  import opened Common
  import opened Crypto
  import opened SendChain
  import opened RecvWindow

  /** A message taken out of the tag index but not yet decrypted. */
  datatype Claim = Claim(tag: Bytes, body: Bytes, hint: nat)

  /** A generated tag with the message counter it stands for. */
  datatype Drawn = Drawn(tag: Bytes, counter: nat)

  datatype Net = Net(
    sender: Sender,
    sent: seq<Sealed>,             // everything sealed since this pair of chains was installed
    w: Window,
    index: map<Bytes, nat>,        // tagIndex and tagCounterIndex, this session's entries
    drawn: nat,                    // nextRecvTagCounter
    tagChain: Bytes,               // RecvTagRatchet
    batches: seq<seq<Drawn>>,      // tags generated outside the manager lock, not yet installed
    claims: seq<Claim>,
    accepted: seq<(nat, Bytes)>)   // counter and plaintext of every opened message

  /** Parameters of a run: the chain the two ends share, its two seeds, and the last counter considered. */
  datatype Epoch = Epoch(chain: ChainId, keySeed: Bytes, tagSeed: Bytes, limit: nat)

  datatype Step =
    | Seal(plaintext: Bytes, rot: Option<Rotation>)
    | Manage(e: SendChain.Event)             // any other section of the sending session: gates, queues, key IDs
    | Lookup(wire: Bytes)                    // any bytes, from the peer or not, in any order, any number of times
    | Open(i: nat)                           // decrypt the i-th claim
    | Abandon(i: nat)                        // the i-th claim's session had expired
    | Draw(count: nat)                       // generateTagsOutsideLock
    | Install(i: nat, skip: set<nat>)        // installGeneratedTagsLocked; skipped: collisions or window full
    | Forget(tags: set<Bytes>)               // eviction, expiry, termination

  /** Tag-ratchet chain key after `count` more steps. */
  function Stepped(cr: Suite, chain: Bytes, count: nat): (r: Bytes) {
    if count == 0 then chain else cr.stepTag(Stepped(cr, chain, count - 1)).1
  }

  function Generate(cr: Suite, chain: Bytes, first: nat, count: nat): (r: seq<Drawn>)
    ensures |r| == count
  {
    if count == 0 then []
    else Generate(cr, chain, first, count - 1) + [Drawn(cr.stepTag(Stepped(cr, chain, count - 1)).0, first + count - 1)]
  }

  function Installed(index: map<Bytes, nat>, batch: seq<Drawn>, skip: set<nat>): (r: map<Bytes, nat>) {
    if batch == [] then index
    else
      var below := Installed(index, batch[..|batch| - 1], skip);
      var d := batch[|batch| - 1];
      if d.counter in skip then below else below[d.tag := d.counter]
  }

  function After(cr: Suite, n: Net, st: Step): (r: Net) {
    match st
    case Seal(plaintext, rot) =>
      var (s, out) := Encrypt(cr, n.sender, plaintext, rot, true);
      n.(sender := s, sent := n.sent + if out.Some? then [out.value] else [])
    case Manage(e) =>
      if e.Send? then n else n.(sender := SendChain.Step(cr, SendChain.Begin(n.sender), e).s)
    case Lookup(wire) =>
      if |wire| >= 8 && wire[..8] in n.index
      then n.(index := n.index - {wire[..8]}, claims := n.claims + [Claim(wire[..8], wire[8..], n.index[wire[..8]])])
      else n
    case Open(i) =>
      if i >= |n.claims| then n
      else
        var c := n.claims[i];
        var (w, p) := Decrypt(cr, n.w, c.tag, c.body, Some(c.hint));
        var used := UsedCounter(cr, n.w, c.tag, c.body, Some(c.hint));
        n.(w := w, claims := Without(n.claims, i),
           accepted := n.accepted + if used.Some? && p.Some? then [(used.value, p.value)] else [])
    case Abandon(i) =>
      if i >= |n.claims| then n else n.(claims := Without(n.claims, i))
    case Draw(count) =>
      n.(drawn := n.drawn + count, tagChain := Stepped(cr, n.tagChain, count),
         batches := n.batches + [Generate(cr, n.tagChain, n.drawn, count)])
    case Install(i, skip) =>
      if i >= |n.batches| then n
      else n.(index := Installed(n.index, n.batches[i], skip), batches := Without(n.batches, i))
    case Forget(tags) => n.(index := n.index - tags)
  }

  /** No ciphertext opens under a key of the shared chain unless the sender sealed it for that very counter. */
  ghost predicate Unforgeable(cr: Suite, ep: Epoch, sent: seq<Sealed>, tag: Bytes, body: Bytes) {
    forall c: nat :: cr.open(KeyAt(cr, ep.keySeed, c), c, tag, body).Some? ==>
      && 1 <= c <= |sent| && sent[c - 1].chain == ep.chain && sent[c - 1].tag == tag
      && body == cr.seal(sent[c - 1].key, c, tag, PayloadOf(sent[c - 1]))
  }

  /** The tag of each counter. */
  ghost function Tags(cr: Suite, ep: Epoch): (r: nat -> Bytes) { (c: nat) => TagAt(cr, ep.tagSeed, c) }

  ghost predicate Distinct(tag: nat -> Bytes, limit: nat) {
    forall c: nat, d: nat :: 1 <= c < d <= limit ==> tag(c) != tag(d)
  }

  ghost predicate TagsDistinct(cr: Suite, ep: Epoch) { Distinct(Tags(cr, ep), ep.limit) }

  /** What is assumed of a step: the AEAD is unforgeable, and tag drawing stays within the limit. */
  ghost predicate Fair(cr: Suite, ep: Epoch, n: Net, st: Step) {
    && (st.Open? && st.i < |n.claims| ==> Unforgeable(cr, ep, n.sent, n.claims[st.i].tag, n.claims[st.i].body))
    && (st.Draw? ==> n.drawn + st.count <= ep.limit)
  }

  /** Not a tag of the shared chain: what a session still holds from earlier chains. */
  ghost predicate Foreign(tag: nat -> Bytes, limit: nat, t: Bytes) {
    forall c: nat :: 1 <= c <= limit ==> tag(c) != t
  }

  /**
    The receiver has just been given the chains of this epoch. Tags looked up, generated or indexed for the chains
    before may still be about: a claimed message may yet be opened, a generated batch yet be installed.
  */
  ghost predicate Begins(cr: Suite, ep: Epoch, n: Net) {
    && n.sent == [] && n.accepted == [] && n.w == Fresh(ep.keySeed) && n.drawn == 1 && n.tagChain == ep.tagSeed
    && (forall t <- n.index :: Foreign(Tags(cr, ep), ep.limit, t))
    && (forall c <- n.claims :: Foreign(Tags(cr, ep), ep.limit, c.tag))
    && (forall b <- n.batches, d <- b :: Foreign(Tags(cr, ep), ep.limit, d.tag))
  }

  ghost predicate Run(cr: Suite, ep: Epoch, start: Net, steps: seq<Step>, end: Net)
    decreases |steps|
  {
    if steps == [] then start == end
    else
      exists n :: && Run(cr, ep, start, Front(steps), n)
                  && Fair(cr, ep, n, Last(steps))
                  && end == After(cr, n, Last(steps))
  }

  // ----- sender side ---------------------------------------------------------------------------

  /** While the sender stays on the shared chain, its ratchets stand exactly at its message counter. */
  ghost predicate SenderInStep(cr: Suite, ep: Epoch, s: Sender, sent: seq<Sealed>) {
    && s.counter == |sent| + 1 <= MAX_MESSAGE
    && (s.chain == ep.chain ==>
          && s.keyChain == KeyChainAt(cr, ep.keySeed, s.counter)
          && s.tagChain == TagChainAt(cr, ep.tagSeed, s.counter))
    && (ep.chain.Rotated? ==> ep.chain.id < s.keyId)
    && (forall i :: 0 <= i < |sent| ==> sent[i].number == i + 1)
    && (forall i :: 0 <= i < |sent| && sent[i].chain == ep.chain ==>
          sent[i].key == KeyAt(cr, ep.keySeed, i + 1) && sent[i].tag == TagAt(cr, ep.tagSeed, i + 1))
  }

  /** What sealing does to the chains. */
  lemma SealAdvances(cr: Suite, s: Sender, plaintext: Bytes, rot: Option<Rotation>)
    ensures var (r, out) := Encrypt(cr, s, plaintext, rot, true);
            && (out.Some? && r.keyId == s.keyId ==>
                  && r.keyChain == cr.stepKey(s.keyChain, s.counter).1 && out.value.key == cr.stepKey(s.keyChain, s.counter).0
                  && r.tagChain == cr.stepTag(s.tagChain).1 && out.value.tag == cr.stepTag(s.tagChain).0)
            && (out.None? && r.keyId == s.keyId ==> r.keyChain == s.keyChain && r.tagChain == s.tagChain)
  {}

  lemma SealKeepsSender(cr: Suite, ep: Epoch, n: Net, plaintext: Bytes, rot: Option<Rotation>)
    requires SenderInStep(cr, ep, n.sender, n.sent)
    ensures var n' := After(cr, n, Seal(plaintext, rot));
            SenderInStep(cr, ep, n'.sender, n'.sent) && n.sent <= n'.sent
  {
    EncryptEffect(cr, n.sender, plaintext, rot, true);
    SealAdvances(cr, n.sender, plaintext, rot);
  }

  lemma ManageKeepsSender(cr: Suite, ep: Epoch, n: Net, e: SendChain.Event)
    requires SenderInStep(cr, ep, n.sender, n.sent)
    ensures SenderInStep(cr, ep, After(cr, n, Manage(e)).sender, n.sent)
  {}

  // ----- receiver side -------------------------------------------------------------------------

  function Used(accepted: seq<(nat, Bytes)>): (r: set<nat>) { set a | a in accepted :: a.0 }

  lemma {:induction false} SteppedAgrees(cr: Suite, seed: Bytes, first: nat, count: nat)
    requires first >= 1
    ensures Stepped(cr, TagChainAt(cr, seed, first), count) == TagChainAt(cr, seed, first + count)
  {
    if count > 0 { SteppedAgrees(cr, seed, first, count - 1); }
  }

  lemma {:induction false} GenerateAgrees(cr: Suite, seed: Bytes, first: nat, count: nat)
    requires first >= 1
    ensures forall k :: 0 <= k < count ==>
              Generate(cr, TagChainAt(cr, seed, first), first, count)[k] == Drawn(TagAt(cr, seed, first + k), first + k)
  {
    if count > 0 {
      GenerateAgrees(cr, seed, first, count - 1);
      SteppedAgrees(cr, seed, first, count - 1);
    }
  }

  /** The receiver's tag bookkeeping. */
  datatype TagState = TagState(drawn: nat, index: map<Bytes, nat>, claims: seq<Claim>, batches: seq<seq<Drawn>>)

  function TagsOf(n: Net): (r: TagState) { TagState(n.drawn, n.index, n.claims, n.batches) }

  /** A drawn tag of the shared chain with its own counter, not used yet. */
  ghost predicate Own(tag: nat -> Bytes, drawn: nat, used: set<nat>, t: Bytes, n: nat) {
    1 <= n < drawn && t == tag(n) && n !in used
  }

  /** Indexed tags are own tags, or foreign ones. */
  ghost predicate IndexInStep(tag: nat -> Bytes, s: TagState, limit: nat, used: set<nat>) {
    forall t <- s.index :: Foreign(tag, limit, t) || Own(tag, s.drawn, used, t, s.index[t])
  }

  /** So are claimed ones; an own tag is claimed once and no longer indexed. */
  ghost predicate ClaimsInStep(tag: nat -> Bytes, s: TagState, limit: nat, used: set<nat>) {
    && (forall c <- s.claims :: Foreign(tag, limit, c.tag) || Own(tag, s.drawn, used, c.tag, c.hint))
    && (forall c <- s.claims :: Foreign(tag, limit, c.tag) || c.tag !in s.index)
    && (forall i, j :: 0 <= i < j < |s.claims| && !Foreign(tag, limit, s.claims[i].tag) ==>
          s.claims[i].tag != s.claims[j].tag)
  }

  /** So are generated ones; an own tag is in one batch and neither indexed nor claimed. */
  ghost predicate BatchesInStep(tag: nat -> Bytes, s: TagState, limit: nat, used: set<nat>) {
    && (forall b <- s.batches, d <- b :: Foreign(tag, limit, d.tag) || Own(tag, s.drawn, used, d.tag, d.counter))
    && (forall b <- s.batches, d <- b :: Foreign(tag, limit, d.tag) || d.tag !in s.index)
    && (forall b <- s.batches, d <- b, c <- s.claims :: Foreign(tag, limit, d.tag) || c.tag != d.tag)
  }

  ghost predicate BatchesApart(tag: nat -> Bytes, limit: nat, batches: seq<seq<Drawn>>) {
    forall i, j :: 0 <= i < j < |batches| ==>
      forall d <- batches[i], e <- batches[j] :: Foreign(tag, limit, d.tag) || d.tag != e.tag
  }

  ghost predicate TagsInStep(tag: nat -> Bytes, s: TagState, limit: nat, used: set<nat>) {
    && 1 <= s.drawn <= limit
    && (forall c <- used :: c < s.drawn)
    && IndexInStep(tag, s, limit, used) && ClaimsInStep(tag, s, limit, used)
    && BatchesInStep(tag, s, limit, used) && BatchesApart(tag, limit, s.batches)
  }

  /** Everything ever opened is the plaintext sealed for that counter, and no counter was opened twice. */
  ghost predicate AcceptedExactly(ep: Epoch, accepted: seq<(nat, Bytes)>, sent: seq<Sealed>) {
    && (forall a <- accepted :: 1 <= a.0 <= |sent| && sent[a.0 - 1].chain == ep.chain && a.1 == PayloadOf(sent[a.0 - 1]))
    && (forall i, j :: 0 <= i < j < |accepted| ==> accepted[i].0 != accepted[j].0)
  }

  ghost predicate WindowInStep(cr: Suite, ep: Epoch, w: Window, used: set<nat>) {
    Exact(w, used) && Keyed(cr, ep.keySeed, w)
  }

  ghost predicate InStep(cr: Suite, ep: Epoch, n: Net) {
    && SenderInStep(cr, ep, n.sender, n.sent)
    && n.tagChain == TagChainAt(cr, ep.tagSeed, n.drawn)
    && TagsInStep(Tags(cr, ep), TagsOf(n), ep.limit, Used(n.accepted))
    && AcceptedExactly(ep, n.accepted, n.sent)
    && WindowInStep(cr, ep, n.w, Used(n.accepted))
  }

  // Tag bookkeeping, one lemma per kind of step.

  lemma OwnIsNotForeign(tag: nat -> Bytes, limit: nat, drawn: nat, used: set<nat>, t: Bytes, n: nat)
    requires Own(tag, drawn, used, t, n) && drawn <= limit
    ensures !Foreign(tag, limit, t)
  {
    assert tag(n) == t;
  }

  lemma RemoveClaim(tag: nat -> Bytes, s: TagState, limit: nat, used: set<nat>, i: nat)
    requires TagsInStep(tag, s, limit, used) && i < |s.claims|
    ensures TagsInStep(tag, s.(claims := Without(s.claims, i)), limit, used)
  {
    hide Foreign, Own;
    var rest := Without(s.claims, i);
    forall c <- rest ensures c in s.claims { var j :| 0 <= j < |rest| && rest[j] == c; }
  }

  /** An own claim that was opened: its counter is used from now on. */
  lemma UseClaim(tag: nat -> Bytes, s: TagState, limit: nat, used: set<nat>, i: nat)
    requires Distinct(tag, limit) && TagsInStep(tag, s, limit, used) && i < |s.claims|
    requires Own(tag, s.drawn, used, s.claims[i].tag, s.claims[i].hint)
    ensures TagsInStep(tag, s.(claims := Without(s.claims, i)), limit, used + {s.claims[i].hint})
  {
    var c, rest, more := s.claims[i], Without(s.claims, i), used + {s.claims[i].hint};
    assert c in s.claims;
    OwnIsNotForeign(tag, limit, s.drawn, used, c.tag, c.hint);
    RemoveClaim(tag, s, limit, used, i);
    hide Foreign;
    forall t, n: nat | Own(tag, s.drawn, used, t, n) && t != c.tag ensures Own(tag, s.drawn, more, t, n) {}
    forall d <- rest ensures d.tag != c.tag { var j :| 0 <= j < |rest| && rest[j] == d; }
  }

  lemma AddClaim(tag: nat -> Bytes, s: TagState, limit: nat, used: set<nat>, t: Bytes, body: Bytes)
    requires TagsInStep(tag, s, limit, used) && t in s.index
    ensures TagsInStep(tag, s.(index := s.index - {t}, claims := s.claims + [Claim(t, body, s.index[t])]), limit, used)
  {
    hide Foreign, Own;
  }

  lemma AddBatch(tag: nat -> Bytes, s: TagState, limit: nat, used: set<nat>, batch: seq<Drawn>, count: nat)
    requires Distinct(tag, limit) && TagsInStep(tag, s, limit, used) && s.drawn + count <= limit
    requires |batch| == count && forall k :: 0 <= k < count ==> batch[k] == Drawn(tag(s.drawn + k), s.drawn + k)
    ensures TagsInStep(tag, s.(drawn := s.drawn + count, batches := s.batches + [batch]), limit, used)
  {
    var drawn := s.drawn + count;
    forall t, n: nat | Own(tag, s.drawn, used, t, n) ensures Own(tag, drawn, used, t, n) {}
    forall d <- batch
      ensures Own(tag, drawn, used, d.tag, d.counter) && NotYet(tag, s, limit, used, d.tag)
    {
      var k :| 0 <= k < count && batch[k] == d;
      DrawnIsNew(tag, s, limit, used, s.drawn + k);
    }
    hide Foreign, Own;
  }

  /** In nobody's hands so far. */
  ghost predicate NotYet(tag: nat -> Bytes, s: TagState, limit: nat, used: set<nat>, t: Bytes) {
    && t !in s.index && (forall c <- s.claims :: c.tag != t) && (forall b <- s.batches, d <- b :: d.tag != t)
  }

  lemma DrawnIsNew(tag: nat -> Bytes, s: TagState, limit: nat, used: set<nat>, n: nat)
    requires Distinct(tag, limit) && TagsInStep(tag, s, limit, used) && s.drawn <= n <= limit
    ensures NotYet(tag, s, limit, used, tag(n))
  {
    assert !Foreign(tag, limit, tag(n)) by { assert tag(n) == tag(n); }
    forall k: nat ensures !Own(tag, s.drawn, used, tag(n), k) {}
    hide Foreign, Own;
  }

  lemma {:induction false} InstalledFrom(index: map<Bytes, nat>, batch: seq<Drawn>, skip: set<nat>)
    ensures forall t <- Installed(index, batch, skip) ::
              || (t in index && Installed(index, batch, skip)[t] == index[t])
              || Drawn(t, Installed(index, batch, skip)[t]) in batch
  {
    if batch != [] { InstalledFrom(index, batch[..|batch| - 1], skip); }
  }

  lemma InstallBatch(tag: nat -> Bytes, s: TagState, limit: nat, used: set<nat>, i: nat, index: map<Bytes, nat>)
    requires TagsInStep(tag, s, limit, used) && i < |s.batches|
    requires forall t <- index :: (t in s.index && index[t] == s.index[t]) || Drawn(t, index[t]) in s.batches[i]
    ensures TagsInStep(tag, s.(index := index, batches := Without(s.batches, i)), limit, used)
  {
    hide Foreign, Own;
    var batch, rest := s.batches[i], Without(s.batches, i);
    assert batch in s.batches;
    var s' := s.(index := index, batches := rest);
    assert IndexInStep(tag, s', limit, used);
    assert ClaimsInStep(tag, s', limit, used);
    RestNotInstalled(tag, s, limit, used, i, index);
    assert BatchesApart(tag, limit, rest);
  }

  lemma RestNotInstalled(tag: nat -> Bytes, s: TagState, limit: nat, used: set<nat>, i: nat, index: map<Bytes, nat>)
    requires i < |s.batches| && BatchesInStep(tag, s, limit, used) && BatchesApart(tag, limit, s.batches)
    requires forall t <- index :: (t in s.index && index[t] == s.index[t]) || Drawn(t, index[t]) in s.batches[i]
    ensures BatchesInStep(tag, s.(index := index, batches := Without(s.batches, i)), limit, used)
  {
    hide Foreign, Own;
    var batch, rest := s.batches[i], Without(s.batches, i);
    assert batch in s.batches;
    forall b, d: Drawn | b in rest && d in b
      ensures b in s.batches && (Foreign(tag, limit, d.tag) || d.tag !in index)
    {
      var j :| 0 <= j < |rest| && rest[j] == b;
      OtherBatchTags(tag, s, limit, i, if j < i then j else j + 1, d);
    }
  }

  /** Own tags of different batches differ. */
  lemma OtherBatchTags(tag: nat -> Bytes, s: TagState, limit: nat, i: nat, j: nat, d: Drawn)
    requires i < |s.batches| && j < |s.batches| && i != j && BatchesApart(tag, limit, s.batches) && d in s.batches[j]
    ensures Foreign(tag, limit, d.tag) || forall e <- s.batches[i] :: e.tag != d.tag
  {
    hide Foreign;
  }

  lemma ForgetTags(tag: nat -> Bytes, s: TagState, limit: nat, used: set<nat>, tags: set<Bytes>)
    requires TagsInStep(tag, s, limit, used)
    ensures TagsInStep(tag, s.(index := s.index - tags), limit, used)
  {
    hide Foreign, Own;
  }

  // Opening.

  /** The key that opened a message is the used counter's key on the shared chain. */
  lemma OpenedUnder(cr: Suite, ep: Epoch, w: Window, c: Claim)
    requires Keyed(cr, ep.keySeed, w)
    requires UsedCounter(cr, w, c.tag, c.body, Some(c.hint)).Some?
    ensures var u := UsedCounter(cr, w, c.tag, c.body, Some(c.hint)).value;
            var p := Decrypt(cr, w, c.tag, c.body, Some(c.hint)).1;
            p.Some? && p == cr.open(KeyAt(cr, ep.keySeed, u), u, c.tag, c.body)
  {
    DecryptKeepsKeyed(cr, ep.keySeed, w, c.tag, c.body, Some(c.hint));
  }

  /** A ciphertext that opens under the key of u on the tag of `hint` is the peer's message number `hint`. */
  lemma OpenIsAuthentic(cr: Suite, ep: Epoch, sender: Sender, sent: seq<Sealed>, tag: Bytes, body: Bytes, hint: nat, u: nat)
    requires OpenUndoesSeal(cr) && TagsDistinct(cr, ep) && MAX_MESSAGE <= ep.limit
    requires SenderInStep(cr, ep, sender, sent) && Unforgeable(cr, ep, sent, tag, body)
    requires 1 <= hint <= ep.limit && tag == Tags(cr, ep)(hint)
    requires cr.open(KeyAt(cr, ep.keySeed, u), u, tag, body).Some?
    ensures u == hint <= |sent| && sent[hint - 1].chain == ep.chain
    ensures cr.open(KeyAt(cr, ep.keySeed, u), u, tag, body) == Some(PayloadOf(sent[hint - 1]))
  {
    assert sent[u - 1].tag == Tags(cr, ep)(u);
    assert 1 <= u <= ep.limit;
  }

  lemma UsedSnoc(accepted: seq<(nat, Bytes)>, a: (nat, Bytes))
    ensures Used(accepted + [a]) == Used(accepted) + {a.0}
  {}

  lemma AcceptedSnoc(ep: Epoch, accepted: seq<(nat, Bytes)>, sent: seq<Sealed>, u: nat)
    requires AcceptedExactly(ep, accepted, sent) && u !in Used(accepted)
    requires 1 <= u <= |sent| && sent[u - 1].chain == ep.chain
    ensures AcceptedExactly(ep, accepted + [(u, PayloadOf(sent[u - 1]))], sent)
  {
    forall b <- accepted ensures b.0 != u { assert b.0 in Used(accepted); }
  }

  lemma SentTagIsOwn(cr: Suite, ep: Epoch, sender: Sender, sent: seq<Sealed>, u: nat)
    requires SenderInStep(cr, ep, sender, sent) && MAX_MESSAGE <= ep.limit
    requires 1 <= u <= |sent| && sent[u - 1].chain == ep.chain
    ensures !Foreign(Tags(cr, ep), ep.limit, sent[u - 1].tag)
  {
    assert sent[u - 1].tag == Tags(cr, ep)(u);
  }

  /** A message on a foreign tag never opens. */
  lemma ForeignStaysShut(cr: Suite, ep: Epoch, sender: Sender, sent: seq<Sealed>, w: Window, c: Claim)
    requires MAX_MESSAGE <= ep.limit && Keyed(cr, ep.keySeed, w)
    requires SenderInStep(cr, ep, sender, sent) && Unforgeable(cr, ep, sent, c.tag, c.body)
    requires Foreign(Tags(cr, ep), ep.limit, c.tag)
    ensures UsedCounter(cr, w, c.tag, c.body, Some(c.hint)).None?
  {
    hide UsedCounter, SenderInStep;
    var used := UsedCounter(cr, w, c.tag, c.body, Some(c.hint));
    if used.Some? {
      OpenedUnder(cr, ep, w, c);
      SentTagIsOwn(cr, ep, sender, sent, used.value);
    }
  }

  /** Bookkeeping of a successful opening of the i-th claim. */
  lemma OpenedKeepsInStep(cr: Suite, ep: Epoch, n: Net, i: nat, w: Window)
    requires InStep(cr, ep, n) && TagsDistinct(cr, ep) && i < |n.claims|
    requires Own(Tags(cr, ep), n.drawn, Used(n.accepted), n.claims[i].tag, n.claims[i].hint)
    requires var u := n.claims[i].hint;
             && u <= |n.sent| && n.sent[u - 1].chain == ep.chain
             && Exact(w, Used(n.accepted) + {u}) && Keyed(cr, ep.keySeed, w)
    ensures var u := n.claims[i].hint;
            InStep(cr, ep, n.(w := w, claims := Without(n.claims, i), accepted := n.accepted + [(u, PayloadOf(n.sent[u - 1]))]))
  {
    hide SenderInStep, TagsInStep, AcceptedExactly, Exact, Keyed;
    var u := n.claims[i].hint;
    var a := (u, PayloadOf(n.sent[u - 1]));
    UseClaim(Tags(cr, ep), TagsOf(n), ep.limit, Used(n.accepted), i);
    UsedSnoc(n.accepted, a);
    AcceptedSnoc(ep, n.accepted, n.sent, u);
  }

  lemma FailedKeepsInStep(cr: Suite, ep: Epoch, n: Net, i: nat, w: Window)
    requires InStep(cr, ep, n) && i < |n.claims|
    requires Exact(w, Used(n.accepted)) && Keyed(cr, ep.keySeed, w)
    ensures InStep(cr, ep, n.(w := w, claims := Without(n.claims, i)))
  {
    hide SenderInStep, TagsInStep, AcceptedExactly, Exact, Keyed;
    RemoveClaim(Tags(cr, ep), TagsOf(n), ep.limit, Used(n.accepted), i);
  }

  lemma OpenKeepsInStep(cr: Suite, ep: Epoch, n: Net, i: nat)
    requires OpenUndoesSeal(cr) && TagsDistinct(cr, ep) && ep.limit >= MAX_MESSAGE
    requires InStep(cr, ep, n) && i < |n.claims| && Fair(cr, ep, n, Open(i))
    ensures InStep(cr, ep, After(cr, n, Open(i)))
  {
    hide SenderInStep, AcceptedExactly, Exact, Keyed, Decrypt, UsedCounter, Foreign, Unforgeable;
    var c := n.claims[i];
    assert c in n.claims;
    var w := Decrypt(cr, n.w, c.tag, c.body, Some(c.hint)).0;
    DecryptKeepsExact(cr, n.w, Used(n.accepted), c.tag, c.body, Some(c.hint));
    DecryptKeepsKeyed(cr, ep.keySeed, n.w, c.tag, c.body, Some(c.hint));
    match UsedCounter(cr, n.w, c.tag, c.body, Some(c.hint))
    case None =>
      FailedKeepsInStep(cr, ep, n, i, w);
      assert n.accepted + [] == n.accepted;
    case Some(u) =>
      OpenedUnder(cr, ep, n.w, c);
      if Foreign(Tags(cr, ep), ep.limit, c.tag) { ForeignStaysShut(cr, ep, n.sender, n.sent, n.w, c); }
      OpenIsAuthentic(cr, ep, n.sender, n.sent, c.tag, c.body, c.hint, u);
      OpenedKeepsInStep(cr, ep, n, i, w);
  }

  lemma DrawKeepsInStep(cr: Suite, ep: Epoch, n: Net, count: nat)
    requires InStep(cr, ep, n) && Fair(cr, ep, n, Draw(count)) && TagsDistinct(cr, ep)
    ensures InStep(cr, ep, After(cr, n, Draw(count)))
  {
    hide SenderInStep, AcceptedExactly, WindowInStep, IndexInStep, ClaimsInStep, BatchesInStep, BatchesApart;
    SteppedAgrees(cr, ep.tagSeed, n.drawn, count);
    GenerateAgrees(cr, ep.tagSeed, n.drawn, count);
    AddBatch(Tags(cr, ep), TagsOf(n), ep.limit, Used(n.accepted), Generate(cr, n.tagChain, n.drawn, count), count);
  }

  lemma InStepStep(cr: Suite, ep: Epoch, n: Net, st: Step)
    requires OpenUndoesSeal(cr) && TagsDistinct(cr, ep) && ep.limit >= MAX_MESSAGE
    requires InStep(cr, ep, n) && Fair(cr, ep, n, st)
    ensures InStep(cr, ep, After(cr, n, st))
  {
    var tag, s, used := Tags(cr, ep), TagsOf(n), Used(n.accepted);
    match st
    case Seal(plaintext, rot) =>
      SealKeepsSender(cr, ep, n, plaintext, rot);
    case Manage(e) =>
      ManageKeepsSender(cr, ep, n, e);
    case Lookup(wire) =>
      if |wire| >= 8 && wire[..8] in n.index { AddClaim(tag, s, ep.limit, used, wire[..8], wire[8..]); }
    case Open(i) =>
      if i < |n.claims| { OpenKeepsInStep(cr, ep, n, i); }
    case Abandon(i) =>
      if i < |n.claims| { RemoveClaim(tag, s, ep.limit, used, i); }
    case Draw(count) =>
      DrawKeepsInStep(cr, ep, n, count);
    case Install(i, skip) =>
      if i < |n.batches| {
        InstalledFrom(n.index, n.batches[i], skip);
        InstallBatch(tag, s, ep.limit, used, i, Installed(n.index, n.batches[i], skip));
      }
    case Forget(tags) =>
      ForgetTags(tag, s, ep.limit, used, tags);
  }

  // ----- theorems ------------------------------------------------------------------------------

  /** The sender has just been given the chains of this epoch. */
  ghost predicate Ready(ep: Epoch, s: Sender) {
    && s.chain == ep.chain && s.keyChain == ep.keySeed && s.tagChain == ep.tagSeed && s.counter == 1
    && (s.chain.Rotated? ==> s.chain.id < s.keyId)
  }

  lemma BeginsEmpty(cr: Suite, ep: Epoch, n: Net)
    requires Begins(cr, ep, n)
    ensures n.sent == [] && n.accepted == []
  {}

  lemma InStepAccepted(cr: Suite, ep: Epoch, n: Net)
    requires InStep(cr, ep, n)
    ensures AcceptedExactly(ep, n.accepted, n.sent)
  {}

  lemma BeginsInStep(cr: Suite, ep: Epoch, n: Net)
    requires Ready(ep, n.sender) && Begins(cr, ep, n) && ep.limit >= 1
    ensures InStep(cr, ep, n)
  {
    hide Foreign;
  }

  /**
    Every run, with reordering, loss, duplication, forgeries and any interleaving of the lock sections: whatever
    was opened is exactly what the peer sealed under that number, each number at most once, and the n-th tag, the
    n-th key, the counter hint and the sender's message counter agree.
  */
  lemma {:induction false} Lockstep(cr: Suite, ep: Epoch, start: Net, steps: seq<Step>, end: Net)
    requires OpenUndoesSeal(cr) && TagsDistinct(cr, ep) && ep.limit >= MAX_MESSAGE
    requires Ready(ep, start.sender) && Begins(cr, ep, start) && Run(cr, ep, start, steps, end)
    ensures InStep(cr, ep, end)
    ensures AcceptedExactly(ep, end.accepted, end.sent)
    decreases |steps|
  {
    hide InStep, After, Fair, Begins;
    if steps == [] {
      BeginsInStep(cr, ep, start);
    } else {
      var st := Last(steps);
      var n :| && Run(cr, ep, start, Front(steps), n)
               && Fair(cr, ep, n, st) && end == After(cr, n, st);
      Lockstep(cr, ep, start, Front(steps), n);
      InStepStep(cr, ep, n, st);
    }
    assert AcceptedExactly(ep, end.accepted, end.sent) by { InStepAccepted(cr, ep, end); }
  }

  /** The claim carries, unmodified, the peer's message for the counter of its tag. */
  ghost predicate Authentic(cr: Suite, ep: Epoch, sent: seq<Sealed>, c: Claim) {
    && 1 <= c.hint <= |sent| && sent[c.hint - 1].chain == ep.chain
    && var m := sent[c.hint - 1]; c.tag == m.tag && c.body == cr.seal(m.key, m.number, m.tag, PayloadOf(m))
  }

  lemma AuthenticOpens(cr: Suite, ep: Epoch, s: Sender, sent: seq<Sealed>, c: Claim)
    requires Lawful(cr) && SenderInStep(cr, ep, s, sent) && Authentic(cr, ep, sent, c)
    ensures c.tag == Tags(cr, ep)(c.hint)
    ensures |c.body| >= 16
    ensures cr.open(KeyAt(cr, ep.keySeed, c.hint), c.hint, c.tag, c.body) == Some(PayloadOf(sent[c.hint - 1]))
  {}

  /** A claimed message of the shared chain opens to its own payload if its number is within 128 of the window base. */
  lemma ClaimedMessageOpens(cr: Suite, ep: Epoch, n: Net, c: Claim)
    requires Lawful(cr) && InStep(cr, ep, n) && ep.limit >= MAX_MESSAGE && c in n.claims && Authentic(cr, ep, n.sent, c)
    requires c.hint < n.w.base + WINDOW < U32
    ensures UsedCounter(cr, n.w, c.tag, c.body, Some(c.hint)) == Some(c.hint)
    ensures Decrypt(cr, n.w, c.tag, c.body, Some(c.hint)).1 == Some(PayloadOf(n.sent[c.hint - 1]))
  {
    AuthenticOpens(cr, ep, n.sender, n.sent, c);
    assert !Foreign(Tags(cr, ep), ep.limit, c.tag);
    InWindowOpens(cr, ep.keySeed, n.w, Used(n.accepted), c.tag, c.body, c.hint);
  }

  /** Before its first rotation the sender seals at most 51 messages on the shared chain. */
  ghost predicate BudgetInStep(ep: Epoch, s: Sender, sent: seq<Sealed>) {
    && (s.failures == 0 <==> s.dhCounter < DH_INTERVAL)
    && (s.chain == ep.chain ==> |sent| <= if s.failures == 0 then s.dhCounter else 49 + Min(s.failures, 2))
    && (ep.chain.Rotated? ==> ep.chain.id < s.keyId)
    && (forall i :: 0 <= i < |sent| && sent[i].chain == ep.chain ==> i < 51)
  }

  lemma BudgetAfterSeal(ep: Epoch, s: Sender, sent: seq<Sealed>, r: Sender, out: Option<Sealed>)
    requires BudgetInStep(ep, s, sent) && CallEffect(s, r, out) && BudgetEffect(s, r, out)
    ensures BudgetInStep(ep, r, sent + if out.Some? then [out.value] else [])
  {}

  lemma BudgetOther(cr: Suite, ep: Epoch, n: Net, st: Step)
    requires BudgetInStep(ep, n.sender, n.sent) && !st.Seal?
    ensures var n' := After(cr, n, st);
            && BudgetInStep(ep, n'.sender, n.sent) && n'.sent == n.sent
            && n'.sender.dhCounter == n.sender.dhCounter && n'.sender.failures == n.sender.failures
  {
    hide Decrypt, UsedCounter, Installed, Encrypt;
  }

  lemma BudgetStep(cr: Suite, ep: Epoch, n: Net, st: Step)
    requires BudgetInStep(ep, n.sender, n.sent)
    requires n.sender.dhCounter + 1 < U32 && n.sender.failures + 1 < U32
    ensures var n' := After(cr, n, st);
            && BudgetInStep(ep, n'.sender, n'.sent)
            && n'.sender.dhCounter <= n.sender.dhCounter + 1 && n'.sender.failures <= n.sender.failures + 1
  {
    hide Encrypt, BudgetInStep, BudgetEffect, CallEffect;
    if st.Seal? {
      var (r, out) := Encrypt(cr, n.sender, st.plaintext, st.rot, true);
      EncryptEffect(cr, n.sender, st.plaintext, st.rot, true);
      EncryptBudget(cr, n.sender, st.plaintext, st.rot, true);
      BudgetAfterSeal(ep, n.sender, n.sent, r, out);
    } else {
      BudgetOther(cr, ep, n, st);
    }
  }

  /** A fresh rotation budget, or one under way: failures are counted from the fiftieth call on. */
  predicate WithinBudget(s: Sender, more: nat) {
    (s.failures == 0 <==> s.dhCounter < DH_INTERVAL) && s.dhCounter + more < U32 && s.failures + more < U32
  }

  lemma {:induction false} BudgetRun(cr: Suite, ep: Epoch, start: Net, steps: seq<Step>, end: Net)
    requires Ready(ep, start.sender) && start.sent == [] && Run(cr, ep, start, steps, end)
    requires WithinBudget(start.sender, |steps|)
    ensures BudgetInStep(ep, end.sender, end.sent)
    ensures end.sender.dhCounter <= start.sender.dhCounter + |steps|
    ensures end.sender.failures <= start.sender.failures + |steps|
    decreases |steps|
  {
    hide After, Fair;
    if steps != [] {
      var st := Last(steps);
      var n :| && Run(cr, ep, start, Front(steps), n)
               && Fair(cr, ep, n, st) && end == After(cr, n, st);
      BudgetRun(cr, ep, start, Front(steps), n);
      BudgetStep(cr, ep, n, st);
    }
  }

  /**
    Delivery before the first rotation needs no window condition at all: in every reachable state every claimed
    message of the shared chain opens to its own payload, however late, reordered or after however many losses.
  */
  lemma FirstChainDelivery(cr: Suite, ep: Epoch, start: Net, steps: seq<Step>, end: Net, c: Claim)
    requires Lawful(cr) && TagsDistinct(cr, ep) && ep.limit >= MAX_MESSAGE
    requires Ready(ep, start.sender) && Begins(cr, ep, start) && Run(cr, ep, start, steps, end)
    requires WithinBudget(start.sender, |steps|)
    requires c in end.claims && Authentic(cr, ep, end.sent, c)
    ensures Decrypt(cr, end.w, c.tag, c.body, Some(c.hint)).1 == Some(PayloadOf(end.sent[c.hint - 1]))
  {
    hide Run, Begins;
    Lockstep(cr, ep, start, steps, end);
    assert start.sent == [] by { BeginsEmpty(cr, ep, start); }
    BudgetRun(cr, ep, start, steps, end);
    if end.w.base > 1 {
      var last := end.w.base - 1;
      assert last in Used(end.accepted);
      var a :| a in end.accepted && a.0 == last;
    }
    ClaimedMessageOpens(cr, ep, end, c);
  }

  // ----- the theorems are not vacuous: an honest message arrives -----------------------------------

  lemma RunSnoc(cr: Suite, ep: Epoch, start: Net, steps: seq<Step>, n: Net, st: Step)
    requires Run(cr, ep, start, steps, n) && Fair(cr, ep, n, st)
    ensures Run(cr, ep, start, steps + [st], After(cr, n, st))
  {
    hide After, Fair;
    assert Front(steps + [st]) == steps && Last(steps + [st]) == st;
  }

  /** The first message of a sender on its new chains, and its body on the wire. */
  function FirstMessage(cr: Suite, s: Sender, plaintext: Bytes): (m: Sealed) {
    var key, tag := cr.stepKey(s.keyChain, 1), cr.stepTag(s.tagChain);
    Sealed(s.chain, 1, key.0, tag.0, s.nextKeys, s.acks, plaintext)
  }

  function BodyOf(cr: Suite, m: Sealed): (body: Bytes) { cr.seal(m.key, m.number, m.tag, PayloadOf(m)) }

  /** No other key of the chain opens the message. */
  ghost predicate OnlyOwnKeyOpens(cr: Suite, ep: Epoch, m: Sealed) {
    forall c: nat :: cr.open(KeyAt(cr, ep.keySeed, c), c, m.tag, BodyOf(cr, m)).Some? ==> c == m.number
  }

  predicate MaySeal(s: Sender) { !Gated(s) && s.dhCounter + 1 < DH_INTERVAL }

  lemma SealsFirst(cr: Suite, n: Net, plaintext: Bytes)
    requires MaySeal(n.sender) && n.sender.counter == 1 && n.sent == []
    ensures var n' := After(cr, n, Seal(plaintext, None));
            n' == n.(sender := n'.sender, sent := [FirstMessage(cr, n.sender, plaintext)])
  {}

  /** One tag drawn and installed. */
  lemma FirstTagIndexed(cr: Suite, n: Net)
    requires n.drawn == 1
    ensures var t := cr.stepTag(n.tagChain).0;
            var n' := After(cr, After(cr, n, Draw(1)), Install(|n.batches|, {}));
            n' == n.(index := n.index[t := 1], drawn := 2, tagChain := n'.tagChain)
  {
    var t := cr.stepTag(n.tagChain).0;
    var batch := [Drawn(t, 1)];
    assert Generate(cr, n.tagChain, 1, 1) == batch by { assert Generate(cr, n.tagChain, 1, 0) == []; }
    var drawn := After(cr, n, Draw(1));
    assert drawn.batches == n.batches + [batch] && Without(drawn.batches, |n.batches|) == n.batches;
    assert batch[..0] == [] && Installed(n.index, batch, {}) == n.index[t := 1];
  }

  lemma FirstMessageClaimed(cr: Suite, n: Net, m: Sealed)
    requires Lawful(cr) && |m.tag| == 8 && m.tag in n.index && n.index[m.tag] == 1
    ensures var n' := After(cr, n, Lookup(m.tag + BodyOf(cr, m)));
            n' == n.(index := n.index - {m.tag}, claims := n.claims + [Claim(m.tag, BodyOf(cr, m), 1)])
  {
    var wire := m.tag + BodyOf(cr, m);
    assert wire[..8] == m.tag && wire[8..] == BodyOf(cr, m);
  }

  lemma FirstMessageOpens(cr: Suite, ep: Epoch, n: Net, m: Sealed, i: nat)
    requires Lawful(cr) && n.w == Fresh(ep.keySeed) && n.accepted == [] && i < |n.claims|
    requires m.number == 1 && m.key == cr.stepKey(ep.keySeed, 1).0 && n.claims[i] == Claim(m.tag, BodyOf(cr, m), 1)
    ensures After(cr, n, Open(i)).accepted == [(1, PayloadOf(m))]
  {
    hide Decrypt, UsedCounter;
    assert Exact(n.w, {}) && Keyed(cr, ep.keySeed, n.w);
    assert m.key == KeyAt(cr, ep.keySeed, 1);
    InWindowOpens(cr, ep.keySeed, n.w, {}, m.tag, BodyOf(cr, m), 1);
  }

  /** The receiver draws and installs a tag, the sender seals, the message is looked up. */
  function UpToClaim(cr: Suite, n: Net, plaintext: Bytes): (d: Net) {
    var m := FirstMessage(cr, n.sender, plaintext);
    var b := After(cr, After(cr, n, Draw(1)), Install(|n.batches|, {}));
    After(cr, After(cr, b, Seal(plaintext, None)), Lookup(m.tag + BodyOf(cr, m)))
  }

  lemma ClaimIsReached(cr: Suite, ep: Epoch, n: Net, plaintext: Bytes)
    requires Lawful(cr) && Ready(ep, n.sender) && Begins(cr, ep, n) && MaySeal(n.sender)
    ensures var m := FirstMessage(cr, n.sender, plaintext);
            var d := UpToClaim(cr, n, plaintext);
            && d.sent == [m] && d.w == Fresh(ep.keySeed) && d.accepted == []
            && d.claims == n.claims + [Claim(m.tag, BodyOf(cr, m), 1)]
  {
    var m := FirstMessage(cr, n.sender, plaintext);
    FirstTagIndexed(cr, n);
    hide After;
    var b := After(cr, After(cr, n, Draw(1)), Install(|n.batches|, {}));
    SealsFirst(cr, b, plaintext);
    var c := After(cr, b, Seal(plaintext, None));
    assert |m.tag| == 8;
    FirstMessageClaimed(cr, c, m);
  }

  lemma OwnMessageIsUnforged(cr: Suite, ep: Epoch, m: Sealed)
    requires m.chain == ep.chain && m.number == 1 && OnlyOwnKeyOpens(cr, ep, m)
    ensures Unforgeable(cr, ep, [m], m.tag, BodyOf(cr, m))
  {}

  /** The message is accepted, and its decryption a fair step. */
  lemma FirstMessageAccepted(cr: Suite, ep: Epoch, n: Net, plaintext: Bytes)
    requires Lawful(cr) && Ready(ep, n.sender) && Begins(cr, ep, n) && MaySeal(n.sender)
    requires OnlyOwnKeyOpens(cr, ep, FirstMessage(cr, n.sender, plaintext))
    ensures var d := UpToClaim(cr, n, plaintext);
            && Fair(cr, ep, d, Open(|n.claims|))
            && After(cr, d, Open(|n.claims|)).accepted == [(1, PayloadOf(FirstMessage(cr, n.sender, plaintext)))]
  {
    hide After, Begins, Unforgeable, OnlyOwnKeyOpens, UpToClaim;
    var m := FirstMessage(cr, n.sender, plaintext);
    ClaimIsReached(cr, ep, n, plaintext);
    OwnMessageIsUnforged(cr, ep, m);
    FirstMessageOpens(cr, ep, UpToClaim(cr, n, plaintext), m, |n.claims|);
  }

  function ArrivalSteps(cr: Suite, n: Net, plaintext: Bytes): (steps: seq<Step>) {
    var m := FirstMessage(cr, n.sender, plaintext);
    [Draw(1), Install(|n.batches|, {}), Seal(plaintext, None), Lookup(m.tag + BodyOf(cr, m)), Open(|n.claims|)]
  }

  lemma ArrivalRuns(cr: Suite, ep: Epoch, n: Net, plaintext: Bytes)
    requires Fair(cr, ep, n, Draw(1)) && Fair(cr, ep, UpToClaim(cr, n, plaintext), Open(|n.claims|))
    ensures Run(cr, ep, n, ArrivalSteps(cr, n, plaintext), After(cr, UpToClaim(cr, n, plaintext), Open(|n.claims|)))
  {
    hide After, Run, Unforgeable, FirstMessage, BodyOf;
    var steps, d := ArrivalSteps(cr, n, plaintext), UpToClaim(cr, n, plaintext);
    var a := After(cr, n, steps[0]);
    var b := After(cr, a, steps[1]);
    var c := After(cr, b, steps[2]);
    FiveSteps(cr, ep, steps, [n, a, b, c, d, After(cr, d, steps[4])]);
  }

  /** In every starting state whose sender may seal, an honest first message is accepted by the receiver. */
  lemma FirstMessageArrives(cr: Suite, ep: Epoch, n: Net, plaintext: Bytes) returns (steps: seq<Step>, end: Net)
    requires Lawful(cr) && ep.limit >= 2 && Ready(ep, n.sender) && Begins(cr, ep, n) && MaySeal(n.sender)
    requires OnlyOwnKeyOpens(cr, ep, FirstMessage(cr, n.sender, plaintext))
    ensures Run(cr, ep, n, steps, end) && end.accepted == [(1, PayloadOf(FirstMessage(cr, n.sender, plaintext)))]
    ensures forall st <- steps :: !st.Manage?
  {
    hide After, Run, Unforgeable, OnlyOwnKeyOpens, UpToClaim, FirstMessage, BodyOf;
    assert n.drawn == 1;
    FirstMessageAccepted(cr, ep, n, plaintext);
    ArrivalRuns(cr, ep, n, plaintext);
    steps, end := ArrivalSteps(cr, n, plaintext), After(cr, UpToClaim(cr, n, plaintext), Open(|n.claims|));
  }

  lemma FiveSteps(cr: Suite, ep: Epoch, steps: seq<Step>, ns: seq<Net>)
    requires |steps| == 5 && |ns| == 6
    requires forall i :: 0 <= i < 5 ==> Fair(cr, ep, ns[i], steps[i]) && ns[i + 1] == After(cr, ns[i], steps[i])
    ensures Run(cr, ep, ns[0], steps, ns[5])
  {
    hide After, Fair, Run;
    RunNil(cr, ep, ns[0]);
    var done := [];
    for i := 0 to 5
      invariant done == steps[..i] && Run(cr, ep, ns[0], done, ns[i])
    {
      RunSnoc(cr, ep, ns[0], done, ns[i], steps[i]);
      done := done + [steps[i]];
    }
    assert steps[..5] == steps;
  }

  lemma RunNil(cr: Suite, ep: Epoch, n: Net)
    ensures Run(cr, ep, n, [], n)
  {}
}
