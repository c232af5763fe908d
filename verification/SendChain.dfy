/** The sending half of a session: message numbers, DH rotation, NextKey blocks and the handshake gates. */
module SendChain {
  import opened Common
  import opened Crypto
  import opened Payload

  const DH_INTERVAL := 50
  const MAX_DH_FAILURES := 3
  const MAX_KEY_ID := 32767

  /** Where the current sending chain came from; the rotation that used key ID k installed `Rotated(k)`. */
  datatype ChainId = NewSession | Reply | Rotated(id: nat)

  /** Tag-set ID and message count of one queued acknowledgment. */
  datatype AckEntry = AckEntry(keyId: nat, n: nat)

  /** The wire blocks of queued control information, NextKey first. */
  function ControlBlocks(nextKeys: seq<NextKeyInfo>, acks: seq<AckEntry>): (r: seq<Block>) {
    seq(|nextKeys|, i requires 0 <= i < |nextKeys| => NextKeyBlock(nextKeys[i]))
    + seq(|acks|, i requires 0 <= i < |acks| => Block(BLOCK_ACK, Be16(acks[i].keyId) + Be16(acks[i].n)))
  }

  datatype Sender = Sender(
    isInitiator: bool,
    chain: ChainId,
    keyChain: Bytes,
    tagChain: Bytes,
    counter: nat,            // MessageCounter
    dhCounter: nat,          // dhRatchetCounter
    failures: nat,           // consecutiveDHFailures
    keyId: nat,              // sendKeyID
    nextKeys: seq<NextKeyInfo>, // pendingNextKeys, before encoding
    acks: seq<AckEntry>,     // pendingAcks, before encoding
    awaitingReverse: bool,   // awaitingReverseKey
    handshake: bool,         // handshakeState != nil
    awaitingFirstES: bool)

  /** Result of generating a DH key pair and ratcheting: new public key and the new chain's two seeds. */
  datatype Rotation = Rotation(publicKey: Bytes, tagSeed: Bytes, keySeed: Bytes)

  /** One sealed Existing Session message. */
  datatype Sealed = Sealed(
    chain: ChainId, number: nat, key: Bytes, tag: Bytes,
    nextKeys: seq<NextKeyInfo>, acks: seq<AckEntry>, plaintext: Bytes)

  /** The bytes handed to the AEAD: control blocks, then the caller's payload. */
  function PayloadOf(m: Sealed): (r: Bytes) { WireAll(ControlBlocks(m.nextKeys, m.acks)) + m.plaintext }

  function Start(isInitiator: bool, keySeed: Bytes, tagSeed: Bytes): (r: Sender) {
    Sender(isInitiator, NewSession, keySeed, tagSeed, 1, 0, 0, 0, [], [], false, true, false)
  }

  function ForwardInfo(keyId: nat, publicKey: Bytes): (r: NextKeyInfo) { NextKeyInfo(false, true, keyId, Some(publicKey)) }
  function ReverseInfo(keyId: nat, publicKey: Bytes): (r: NextKeyInfo) { NextKeyInfo(true, false, keyId, Some(publicKey)) }

  function Rotate(s: Sender, rot: Option<Rotation>): (r: Option<Sender>) {
    if s.keyId >= MAX_KEY_ID || rot.None? then None
    else Some(s.(chain := Rotated(s.keyId), keyChain := rot.value.keySeed, tagChain := rot.value.tagSeed,
                 nextKeys := s.nextKeys + [ForwardInfo(s.keyId, rot.value.publicKey)],
                 awaitingReverse := true, keyId := s.keyId + 1))
  }

  /** Counts the call and rotates when due; the flag says whether the call may go on to seal. */
  function AttemptRotation(s: Sender, rot: Option<Rotation>): (r: (Sender, bool)) {
    var c := s.(dhCounter := (s.dhCounter + 1) % U32);
    if c.dhCounter < DH_INTERVAL then (c, true)
    else
      match Rotate(c, rot)
      case Some(r) => (r.(dhCounter := 0, failures := 0), true)
      case None =>
        var f := c.(failures := (c.failures + 1) % U32);
        (f, f.failures < MAX_DH_FAILURES)
  }

  predicate Gated(s: Sender) {
    if s.isInitiator then s.handshake else s.awaitingFirstES
  }

  /** Derives the next key and tag, drains the queues and seals; an AEAD error leaves the drain in place. */
  function SealWith(cr: Suite, r: Sender, plaintext: Bytes, sealOk: bool): (result: (Sender, Option<Sealed>)) {
    var key := cr.stepKey(r.keyChain, r.counter);
    var tag := cr.stepTag(r.tagChain);
    var drained := r.(keyChain := key.1, tagChain := tag.1, nextKeys := [], acks := []);
    if !sealOk then (drained, None)
    else (drained.(counter := r.counter + 1),
          Some(Sealed(r.chain, r.counter, key.0, tag.0, r.nextKeys, r.acks, plaintext)))
  }

  /** encryptExistingSession; `sealOk` is false when the AEAD itself reports an error. */
  function Encrypt(cr: Suite, s: Sender, plaintext: Bytes, rot: Option<Rotation>, sealOk: bool): (r: (Sender, Option<Sealed>)) {
    if Gated(s) || s.counter >= MAX_MESSAGE then (s, None)
    else
      var (r, ok) := AttemptRotation(s, rot);
      if !ok then (r, None) else SealWith(cr, r, plaintext, sealOk)
  }

  /** Opening a message lifts the responder's gate. */
  function Opened(s: Sender): (r: Sender) {
    if s.isInitiator then s else s.(awaitingFirstES := false)
  }

  /** Post-handshake chains installed: numbering restarts, and the responder waits for a first message. */
  function WithReply(s: Sender, keySeed: Bytes, tagSeed: Bytes): (r: Sender) {
    s.(chain := Reply, keyChain := keySeed, tagChain := tagSeed, counter := 1,
       awaitingFirstES := !s.isInitiator || s.awaitingFirstES)
  }

  // ----- histories -----------------------------------------------------------------------------

  datatype Event =
    | Send(plaintext: Bytes, rot: Option<Rotation>, sealOk: bool)
    | OpenES                                      // an Existing Session message was opened
    | TakeHandshake                               // NSR claimed by the initiator, or written by the responder
    | InstallReply(keySeed: Bytes, tagSeed: Bytes)  // phase two: post-handshake chains installed
    | DropReply                                   // phase two never happens: the NSR did not authenticate
    | AckRequested(keyId: nat, n: nat)
    | ReverseRequested(publicKey: Option<Bytes>)    // forward NextKey with the request flag; None: key generation failed
    | BumpKeyId

  /** Session plus everything that happened to it. */
  datatype History = History(
    s: Sender,
    inFlight: nat,              // handshake states taken whose phase two is still to come
    sealed: seq<Sealed>,
    queued: seq<NextKeyInfo>,   // every NextKey block ever queued
    delivered: seq<NextKeyInfo>,   // NextKey blocks inside sealed messages
    lost: seq<NextKeyInfo>,        // NextKey blocks drained by calls that failed to seal
    calls: nat,
    taken: nat,
    replied: bool,
    replyKeyId: nat,               // key ID in force when the reply's chains were installed
    openedSinceReply: bool,
    sealedSinceReply: nat)

  function Begin(s: Sender): (r: History) {
    History(s, 0, [], [], [], [], 0, 0, false, 0, false, 0)
  }

  function Queued(before: Sender, after: Sender, rot: Option<Rotation>): (r: seq<NextKeyInfo>) {
    if rot.Some? && after.keyId == before.keyId + 1 then [ForwardInfo(before.keyId, rot.value.publicKey)] else []
  }

  /** NextKey blocks taken out of the queue by a call that returned no message. */
  function Drained(before: Sender, after: Sender, rot: Option<Rotation>): (r: seq<NextKeyInfo>) {
    var all := before.nextKeys + Queued(before, after, rot);
    if |after.nextKeys| < |all| then all else []
  }

  /** The history after a call that left the session in `s` and returned `out`. */
  function Record(h: History, s: Sender, out: Option<Sealed>, rot: Option<Rotation>): (r: History) {
    var h' := h.(s := s, calls := h.calls + 1, queued := h.queued + Queued(h.s, s, rot));
    match out
    case Some(m) => h'.(sealed := h.sealed + [m], delivered := h.delivered + m.nextKeys,
                        sealedSinceReply := h.sealedSinceReply + 1)
    case None => h'.(lost := h.lost + Drained(h.s, s, rot))
  }

  function Step(cr: Suite, h: History, e: Event): (r: History) {
    match e
    case Send(plaintext, rot, sealOk) =>
      var (s, out) := Encrypt(cr, h.s, plaintext, rot, sealOk);
      Record(h, s, out, rot)
    case OpenES =>
      h.(s := Opened(h.s), openedSinceReply := true)
    case TakeHandshake =>
      if h.s.handshake then h.(s := h.s.(handshake := false), inFlight := h.inFlight + 1, taken := h.taken + 1) else h
    case InstallReply(keySeed, tagSeed) =>
      if h.inFlight == 0 then h
      else h.(s := WithReply(h.s, keySeed, tagSeed),
              inFlight := h.inFlight - 1, replied := true, replyKeyId := h.s.keyId,
              openedSinceReply := false, sealedSinceReply := 0)
    case DropReply =>
      if h.inFlight == 0 then h else h.(inFlight := h.inFlight - 1)
    case AckRequested(keyId, n) =>
      h.(s := h.s.(acks := h.s.acks + [AckEntry(keyId, n)]))
    case ReverseRequested(publicKey) =>
      if h.s.keyId >= MAX_KEY_ID || publicKey.None? then h
      else h.(s := h.s.(nextKeys := h.s.nextKeys + [ReverseInfo(h.s.keyId, publicKey.value)],
                        keyId := h.s.keyId + 1),
              queued := h.queued + [ReverseInfo(h.s.keyId, publicKey.value)])
    case BumpKeyId =>
      if h.s.keyId >= MAX_KEY_ID then h else h.(s := h.s.(keyId := h.s.keyId + 1))
  }

  function Run(cr: Suite, h: History, es: seq<Event>): (r: History) {
    if es == [] then h else Step(cr, Run(cr, h, es[..|es| - 1]), es[|es| - 1])
  }

  function SealedOn(sealed: seq<Sealed>, c: ChainId): (r: nat) {
    if sealed == [] then 0
    else SealedOn(sealed[..|sealed| - 1], c) + if sealed[|sealed| - 1].chain == c then 1 else 0
  }

  lemma SealedOnSnoc(sealed: seq<Sealed>, m: Sealed, c: ChainId)
    ensures SealedOn(sealed + [m], c) == SealedOn(sealed, c) + if m.chain == c then 1 else 0
  {
    assert (sealed + [m])[..|sealed|] == sealed;
  }

  lemma {:induction false} SealedOnNone(sealed: seq<Sealed>, c: ChainId)
    requires forall m <- sealed :: m.chain != c
    ensures SealedOn(sealed, c) == 0
  {
    if sealed != [] { SealedOnNone(sealed[..|sealed| - 1], c); }
  }

  // ----- what one call can do ------------------------------------------------------------------

  /** Effect of a call on everything but the rotation counters and the queues. */
  ghost predicate CallEffect(s: Sender, r: Sender, out: Option<Sealed>) {
    && r.isInitiator == s.isInitiator && r.handshake == s.handshake && r.awaitingFirstES == s.awaitingFirstES
    && (out.Some? ==> !Gated(s) && out.value.chain == r.chain && out.value.number == s.counter < MAX_MESSAGE)
    && r.counter == s.counter + (if out.Some? then 1 else 0)
    && (if r.keyId == s.keyId then r.chain == s.chain
        else r.chain == Rotated(s.keyId) && r.keyId == s.keyId + 1 <= MAX_KEY_ID)
  }

  /** A rotation step changes chain and key ID together, and neither gates nor message number. */
  lemma RotationEffect(s: Sender, rot: Option<Rotation>)
    ensures var r := AttemptRotation(s, rot).0;
            && r.isInitiator == s.isInitiator && r.handshake == s.handshake && r.awaitingFirstES == s.awaitingFirstES
            && r.counter == s.counter
            && (if r.keyId == s.keyId then r.chain == s.chain
                else r.chain == Rotated(s.keyId) && r.keyId == s.keyId + 1 <= MAX_KEY_ID)
  {}

  lemma EncryptEffect(cr: Suite, s: Sender, plaintext: Bytes, rot: Option<Rotation>, sealOk: bool)
    ensures var (r, out) := Encrypt(cr, s, plaintext, rot, sealOk); CallEffect(s, r, out)
  {
    RotationEffect(s, rot);
    hide AttemptRotation;
  }

  /** Effect of a call on the rotation counters, as long as they do not wrap. */
  ghost predicate BudgetEffect(s: Sender, r: Sender, out: Option<Sealed>) {
    || (r.dhCounter == s.dhCounter && r.failures == s.failures && r.keyId == s.keyId && out.None?)
    || (r.dhCounter == s.dhCounter + 1 < DH_INTERVAL && r.failures == s.failures && r.keyId == s.keyId)
    || (r.dhCounter == 0 && r.failures == 0 && r.keyId == s.keyId + 1)
    || (r.dhCounter == s.dhCounter + 1 >= DH_INTERVAL && r.failures == s.failures + 1 && r.keyId == s.keyId
        && (out.Some? ==> r.failures < MAX_DH_FAILURES))
  }

  lemma EncryptBudget(cr: Suite, s: Sender, plaintext: Bytes, rot: Option<Rotation>, sealOk: bool)
    requires s.dhCounter + 1 < U32 && s.failures + 1 < U32
    ensures var (r, out) := Encrypt(cr, s, plaintext, rot, sealOk); BudgetEffect(s, r, out)
  {}

  // ----- message numbers: no (chain, number) pair twice ----------------------------------------

  /** The current chain is never an earlier one, and its next number is above all it has sealed. */
  ghost predicate ChainFresh(h: History) {
    && 1 <= h.s.counter <= MAX_MESSAGE
    && (h.s.chain.Rotated? ==> h.s.chain.id < h.s.keyId)
    && (h.s.chain.Reply? ==> h.replied)
    && (forall m <- h.sealed :: m.chain.Rotated? ==> m.chain.id < h.s.keyId)
    && (forall m <- h.sealed :: m.chain.Reply? ==> h.replied)
    && (forall m <- h.sealed :: m.chain == h.s.chain ==> m.number < h.s.counter)
    && (forall m <- h.sealed :: 1 <= m.number < MAX_MESSAGE)
    && h.taken + (if h.s.handshake then 1 else 0) == 1
    && h.inFlight + (if h.replied then 1 else 0) <= h.taken
  }

  ghost predicate PairsDistinct(sealed: seq<Sealed>) {
    forall i, j :: 0 <= i < j < |sealed| ==>
      !(sealed[i].chain == sealed[j].chain && sealed[i].number == sealed[j].number)
  }

  lemma ChainFreshRecord(h: History, s: Sender, out: Option<Sealed>, rot: Option<Rotation>)
    requires ChainFresh(h) && PairsDistinct(h.sealed) && CallEffect(h.s, s, out)
    ensures ChainFresh(Record(h, s, out, rot)) && PairsDistinct(Record(h, s, out, rot).sealed)
  {}

  lemma ChainFreshStep(cr: Suite, h: History, e: Event)
    requires ChainFresh(h) && PairsDistinct(h.sealed)
    ensures ChainFresh(Step(cr, h, e)) && PairsDistinct(Step(cr, h, e).sealed)
  {
    if e.Send? {
      var (s, out) := Encrypt(cr, h.s, e.plaintext, e.rot, e.sealOk);
      EncryptEffect(cr, h.s, e.plaintext, e.rot, e.sealOk);
      ChainFreshRecord(h, s, out, e.rot);
    }
  }

  /** Over every run: no message number is used twice on one chain, and none above 65534 is sealed. */
  lemma {:induction false} NonceUniqueness(cr: Suite, s: Sender, es: seq<Event>)
    requires s == Start(s.isInitiator, s.keyChain, s.tagChain)
    ensures ChainFresh(Run(cr, Begin(s), es))
    ensures PairsDistinct(Run(cr, Begin(s), es).sealed)
    ensures forall m <- Run(cr, Begin(s), es).sealed :: 1 <= m.number <= 65534
  {
    if es != [] {
      NonceUniqueness(cr, s, es[..|es| - 1]);
      ChainFreshStep(cr, Run(cr, Begin(s), es[..|es| - 1]), es[|es| - 1]);
    }
  }

  // ----- at most 52 messages per chain ---------------------------------------------------------

  /** No chain carries more than the rotation interval and the two tolerated failures. */
  ghost predicate ChainsShort(sealed: seq<Sealed>) {
    forall c :: SealedOn(sealed, c) <= DH_INTERVAL + MAX_DH_FAILURES - 1
  }

  /**
    Before the call counter can wrap. It counts the calls since the last rotation, so on a rotated chain it is below
    the number of all calls; a rotated chain has one message more, sealed by the call that rotated.
  */
  ghost predicate Budgeted(h: History) {
    var extra := if h.s.chain.Rotated? then 1 else 0;
    && h.s.failures <= h.s.dhCounter <= h.calls - extra
    && (h.s.failures == 0 ==> h.s.dhCounter < DH_INTERVAL && SealedOn(h.sealed, h.s.chain) <= h.s.dhCounter + extra)
    && (h.s.failures > 0 ==>
          && h.s.dhCounter >= DH_INTERVAL
          && SealedOn(h.sealed, h.s.chain) <= DH_INTERVAL - 1 + extra + Min(h.s.failures, MAX_DH_FAILURES - 1))
    && ChainsShort(h.sealed)
  }

  lemma SealedOnRecord(h: History, s: Sender, out: Option<Sealed>, rot: Option<Rotation>)
    requires CallEffect(h.s, s, out)
    ensures forall c :: SealedOn(Record(h, s, out, rot).sealed, c) ==
                        SealedOn(h.sealed, c) + if out.Some? && s.chain == c then 1 else 0
  {
    forall c
      ensures SealedOn(Record(h, s, out, rot).sealed, c) ==
              SealedOn(h.sealed, c) + if out.Some? && s.chain == c then 1 else 0
    {
      if out.Some? { SealedOnSnoc(h.sealed, out.value, c); }
    }
  }

  lemma BudgetedRecord(h: History, s: Sender, out: Option<Sealed>, rot: Option<Rotation>)
    requires ChainFresh(h) && Budgeted(h) && CallEffect(h.s, s, out) && BudgetEffect(h.s, s, out)
    ensures Budgeted(Record(h, s, out, rot))
  {
    hide SealedOn;
    SealedOnRecord(h, s, out, rot);
    if s.keyId != h.s.keyId { SealedOnNone(h.sealed, s.chain); }
  }

  lemma BudgetedStep(cr: Suite, h: History, e: Event)
    requires ChainFresh(h) && Budgeted(h) && h.s.dhCounter + 1 < U32
    ensures Budgeted(Step(cr, h, e))
  {
    if e.Send? {
      var (s, out) := Encrypt(cr, h.s, e.plaintext, e.rot, e.sealOk);
      EncryptEffect(cr, h.s, e.plaintext, e.rot, e.sealOk);
      EncryptBudget(cr, h.s, e.plaintext, e.rot, e.sealOk);
      BudgetedRecord(h, s, out, e.rot);
    } else if e.InstallReply? && h.inFlight > 0 {
      SealedOnNone(h.sealed, Reply);
    }
  }

  /** The call with which the counter wraps: no rotation has happened, so there is room for one more message. */
  lemma WrappingCall(cr: Suite, h: History, e: Event)
    requires Budgeted(h) && h.s.dhCounter == h.calls == U32 - 1 && e.Send?
    ensures ChainsShort(Step(cr, h, e).sealed)
  {
    hide SealedOn;
    var (s, out) := Encrypt(cr, h.s, e.plaintext, e.rot, e.sealOk);
    EncryptEffect(cr, h.s, e.plaintext, e.rot, e.sealOk);
    assert (h.s.dhCounter + 1) % U32 == 0;
    assert s.keyId == h.s.keyId;
    SealedOnRecord(h, s, out, e.rot);
  }

  ghost predicate BudgetKept(h: History) {
    (h.calls < U32 ==> Budgeted(h)) && (h.calls <= U32 ==> ChainsShort(h.sealed))
  }

  lemma BudgetKeptStep(cr: Suite, h: History, e: Event)
    requires ChainFresh(h) && BudgetKept(h)
    ensures BudgetKept(Step(cr, h, e))
  {
    hide ChainsShort, SealedOn;
    if h.calls < U32 {
      if h.s.dhCounter + 1 < U32 {
        BudgetedStep(cr, h, e);
      } else if e.Send? {
        WrappingCall(cr, h, e);
      } else if e.InstallReply? && h.inFlight > 0 {
        SealedOnNone(h.sealed, Reply);
      }
    }
  }

  /** Over every run of at most 2^32 calls, no chain seals more than 50 + 2 messages. */
  lemma {:induction false} SendingChainBound(cr: Suite, s: Sender, es: seq<Event>)
    requires s == Start(s.isInitiator, s.keyChain, s.tagChain)
    ensures BudgetKept(Run(cr, Begin(s), es))
  {
    if es != [] {
      var before := es[..|es| - 1];
      SendingChainBound(cr, s, before);
      NonceUniqueness(cr, s, before);
      BudgetKeptStep(cr, Run(cr, Begin(s), before), es[|es| - 1]);
    }
  }

  // ----- beyond 2^32 calls the bound fails: the call counter is a uint32 -------------------------

  function Repeat(e: Event, n: nat): (es: seq<Event>)
    ensures |es| == n
  {
    seq(n, _ => e)
  }

  lemma {:induction false} RunAppend(cr: Suite, h: History, a: seq<Event>, b: seq<Event>)
    ensures Run(cr, h, a + b) == Run(cr, Run(cr, h, a), b)
  {
    if b == [] {
      assert a + b == a;
    } else {
      assert (a + b)[..|a + b| - 1] == a + b[..|b| - 1];
      RunAppend(cr, h, a, b[..|b| - 1]);
    }
  }

  /** A call whose rotation, if due, fails. */
  const FAILING := Send([], None, true)

  /** A failing call that is not due to rotate seals the next message; one past its failure budget seals nothing. */
  ghost predicate FailingEffect(h: History, r: History) {
    var due := (h.s.dhCounter + 1) % U32 >= DH_INTERVAL;
    && !Gated(r.s) && r.s.chain == h.s.chain
    && r.s.dhCounter == (h.s.dhCounter + 1) % U32
    && r.s.failures == (if due then (h.s.failures + 1) % U32 else h.s.failures)
    && (if due && r.s.failures >= MAX_DH_FAILURES
        then r.sealed == h.sealed && r.s.counter == h.s.counter
        else SealedOn(r.sealed, h.s.chain) == SealedOn(h.sealed, h.s.chain) + 1 && r.s.counter == h.s.counter + 1)
  }

  function Failed(cr: Suite, h: History, n: nat): (r: History) { Run(cr, h, Repeat(FAILING, n)) }

  lemma FailingStepEffect(cr: Suite, m: History)
    requires !Gated(m.s) && m.s.counter < MAX_MESSAGE
    ensures FailingEffect(m, Step(cr, m, FAILING))
  {
    hide SealedOn, Drained, Queued;
    var out := Encrypt(cr, m.s, [], None, true).1;
    if out.Some? { SealedOnSnoc(m.sealed, out.value, m.s.chain); }
  }

  lemma FailedUnfold(cr: Suite, h: History, n: nat)
    ensures Failed(cr, h, n + 1) == Step(cr, Failed(cr, h, n), FAILING)
  {
    assert Repeat(FAILING, n + 1)[..n] == Repeat(FAILING, n);
  }

  lemma FailingStep(cr: Suite, h: History, n: nat)
    requires !Gated(Failed(cr, h, n).s) && Failed(cr, h, n).s.counter < MAX_MESSAGE
    ensures FailingEffect(Failed(cr, h, n), Failed(cr, h, n + 1))
  {
    FailedUnfold(cr, h, n);
    FailingStepEffect(cr, Failed(cr, h, n));
  }

  ghost predicate QuietEffect(h: History, r: History, n: nat) {
    && !Gated(r.s) && r.s.chain == h.s.chain && r.s.counter == h.s.counter + n && r.s.failures == h.s.failures
    && r.s.dhCounter == (if n == 0 then h.s.dhCounter else (h.s.dhCounter + 1) % U32 + n - 1)
    && SealedOn(r.sealed, h.s.chain) == SealedOn(h.sealed, h.s.chain) + n
  }

  lemma QuietOneMore(h: History, m: History, r: History, n: nat)
    requires (h.s.dhCounter + 1) % U32 + n < DH_INTERVAL
    requires QuietEffect(h, m, n) && FailingEffect(m, r)
    ensures QuietEffect(h, r, n + 1)
  {}

  /** Calls that do not reach a rotation seal one message each on the same chain. */
  lemma {:induction false} QuietCalls(cr: Suite, h: History, n: nat)
    requires !Gated(h.s) && h.s.counter + n <= MAX_MESSAGE
    requires n > 0 ==> (h.s.dhCounter + 1) % U32 + n - 1 < DH_INTERVAL
    ensures QuietEffect(h, Failed(cr, h, n), n)
  {
    if n > 0 {
      QuietCalls(cr, h, n - 1);
      FailingStep(cr, h, n - 1);
      QuietOneMore(h, Failed(cr, h, n - 1), Failed(cr, h, n), n - 1);
    }
  }

  /** Once the failure budget is spent, failing calls only advance the two counters. */
  ghost predicate SpentEffect(h: History, r: History, n: nat) {
    && !Gated(r.s) && r.s.chain == h.s.chain && r.s.counter == h.s.counter && r.sealed == h.sealed
    && r.s.dhCounter == h.s.dhCounter + n && r.s.failures == h.s.failures + n
  }

  lemma SpentOneMore(h: History, m: History, r: History, n: nat)
    requires h.s.dhCounter + 1 >= DH_INTERVAL && h.s.dhCounter + n + 1 < U32
    requires h.s.failures + 1 >= MAX_DH_FAILURES && h.s.failures + n + 1 < U32
    requires SpentEffect(h, m, n) && FailingEffect(m, r)
    ensures SpentEffect(h, r, n + 1)
  {
    assert (m.s.dhCounter + 1) % U32 == m.s.dhCounter + 1;
    assert (m.s.failures + 1) % U32 == m.s.failures + 1;
  }

  lemma {:induction false} FailingCalls(cr: Suite, h: History, n: nat)
    requires !Gated(h.s) && h.s.counter < MAX_MESSAGE
    requires h.s.dhCounter + 1 >= DH_INTERVAL && h.s.dhCounter + n < U32
    requires h.s.failures + 1 >= MAX_DH_FAILURES && h.s.failures + n < U32
    ensures SpentEffect(h, Failed(cr, h, n), n)
  {
    if n > 0 {
      FailingCalls(cr, h, n - 1);
      FailingStep(cr, h, n - 1);
      SpentOneMore(h, Failed(cr, h, n - 1), Failed(cr, h, n), n - 1);
    }
  }

  lemma FailedAdd(cr: Suite, h: History, m: nat, n: nat)
    ensures Failed(cr, h, m + n) == Failed(cr, Failed(cr, h, m), n)
  {
    RunAppend(cr, h, Repeat(FAILING, m), Repeat(FAILING, n));
    assert Repeat(FAILING, m) + Repeat(FAILING, n) == Repeat(FAILING, m + n);
  }

  ghost predicate OutOfBudget(h: History, r: History) {
    && !Gated(r.s) && r.s.chain == h.s.chain && r.s.counter == 52 && r.s.dhCounter == 51 && r.s.failures == 2
    && SealedOn(r.sealed, h.s.chain) == SealedOn(h.sealed, h.s.chain) + 51
  }

  lemma TwoTolerated(h: History, q: History, r1: History, r2: History)
    requires h.s.counter == 1 && h.s.dhCounter == 0 && h.s.failures == 0
    requires QuietEffect(h, q, 49) && FailingEffect(q, r1) && FailingEffect(r1, r2)
    ensures OutOfBudget(h, r2)
  {}

  /** The first rotation is due after 49 calls; its first two failures still seal. */
  lemma BudgetRunsOut(cr: Suite, h: History, n: nat)
    requires !Gated(h.s) && h.s.counter == 1 && h.s.dhCounter == 0 && h.s.failures == 0 && n == 49
    ensures OutOfBudget(h, Failed(cr, h, n + 2))
  {
    QuietCalls(cr, h, n);
    FailingStep(cr, h, n);
    FailingStep(cr, h, n + 1);
    TwoTolerated(h, Failed(cr, h, n), Failed(cr, h, n + 1), Failed(cr, h, n + 2));
  }

  lemma {:induction false} FailedCalls(cr: Suite, h: History, n: nat)
    ensures Failed(cr, h, n).calls == h.calls + n
  {
    if n > 0 {
      FailedCalls(cr, h, n - 1);
      FailedUnfold(cr, h, n - 1);
    }
  }

  /** From the 2^32-th call on, calls whose rotations fail seal one message each again, all on the first chain. */
  lemma FailingCallsAfterWrap(cr: Suite, s: Sender, n: nat)
    requires s == Start(false, s.keyChain, s.tagChain) && U32 <= n <= U32 + 49
    ensures SealedOn(Failed(cr, Begin(s), n).sealed, s.chain) == 52 + n - U32
  {
    var h := Begin(s);
    var a: nat :| a == 49;
    var b, c := U32 - a - 3, n - U32 + 1;
    BudgetRunsOut(cr, h, a);
    var spent := Failed(cr, h, a + 2);
    FailingCalls(cr, spent, b);
    var wrapped := Failed(cr, spent, b);
    QuietCalls(cr, wrapped, c);
    FailedAdd(cr, h, a + 2, b);
    FailedAdd(cr, h, a + 2 + b, c);
  }

  /** Every run of at most n calls keeps every chain at 52 messages or fewer. */
  ghost predicate ShortUpTo(cr: Suite, n: nat) {
    forall s: Sender, es: seq<Event> | s == Start(s.isInitiator, s.keyChain, s.tagChain) && Run(cr, Begin(s), es).calls <= n ::
      ChainsShort(Run(cr, Begin(s), es).sealed)
  }

  /** The bound of 52 holds for runs of up to 2^32 calls and for no larger number of calls. */
  lemma ChainBoundIff(cr: Suite, n: nat)
    ensures ShortUpTo(cr, n) <==> n <= U32
  {
    if n <= U32 {
      forall s: Sender, es: seq<Event> | s == Start(s.isInitiator, s.keyChain, s.tagChain) && Run(cr, Begin(s), es).calls <= n
        ensures ChainsShort(Run(cr, Begin(s), es).sealed)
      {
        SendingChainBound(cr, s, es);
      }
    } else {
      var s := Start(false, [], []);
      FailingCallsAfterWrap(cr, s, U32 + 1);
      FailedCalls(cr, Begin(s), U32 + 1);
      assert !ChainsShort(Run(cr, Begin(s), Repeat(FAILING, U32 + 1)).sealed);
    }
  }

  // ----- handshake gates -----------------------------------------------------------------------

  ghost predicate GatesHold(h: History) {
    && h.taken <= 1
    && (h.s.isInitiator && h.sealed != [] ==> h.taken == 1)
    && (!h.s.isInitiator && h.replied && !h.openedSinceReply ==> h.s.awaitingFirstES && h.sealedSinceReply == 0)
  }

  lemma GatesStep(cr: Suite, h: History, e: Event)
    requires GatesHold(h) && ChainFresh(h)
    ensures GatesHold(Step(cr, h, e)) && Step(cr, h, e).s.isInitiator == h.s.isInitiator
  {
    if e.Send? { EncryptEffect(cr, h.s, e.plaintext, e.rot, e.sealOk); }
  }

  /**
    Over every run: the handshake state is consumed at most once; an initiator has sealed nothing before its
    New Session Reply was claimed; a responder seals nothing between sending its reply and opening a message.
  */
  lemma {:induction false} HandshakeGates(cr: Suite, s: Sender, es: seq<Event>)
    requires s == Start(s.isInitiator, s.keyChain, s.tagChain)
    ensures GatesHold(Run(cr, Begin(s), es))
    ensures Run(cr, Begin(s), es).s.isInitiator == s.isInitiator
  {
    if es != [] {
      var h, e := Run(cr, Begin(s), es[..|es| - 1]), es[|es| - 1];
      HandshakeGates(cr, s, es[..|es| - 1]);
      NonceUniqueness(cr, s, es[..|es| - 1]);
      GatesStep(cr, h, e);
    }
  }

  /** A chain the session had before its reply's chains were installed. */
  predicate PreReply(h: History, c: ChainId) {
    c.NewSession? || (c.Rotated? && (h.replied ==> c.id < h.replyKeyId))
  }

  ghost predicate ChainsOrdered(h: History) {
    if h.replied then h.replyKeyId <= h.s.keyId && !PreReply(h, h.s.chain) else PreReply(h, h.s.chain)
  }

  lemma ChainsOrderedStep(cr: Suite, h: History, e: Event)
    requires ChainsOrdered(h) && ChainFresh(h)
    ensures ChainsOrdered(Step(cr, h, e))
  {
    hide Encrypt;
    if e.Send? { EncryptEffect(cr, h.s, e.plaintext, e.rot, e.sealOk); }
  }

  lemma {:induction false} ChainsOrderedRun(cr: Suite, s: Sender, es: seq<Event>)
    requires s == Start(s.isInitiator, s.keyChain, s.tagChain)
    ensures ChainsOrdered(Run(cr, Begin(s), es))
  {
    if es != [] {
      ChainsOrderedRun(cr, s, es[..|es| - 1]);
      NonceUniqueness(cr, s, es[..|es| - 1]);
      ChainsOrderedStep(cr, Run(cr, Begin(s), es[..|es| - 1]), es[|es| - 1]);
    }
  }

  /**
    When an initiator seals, in every reachable state with message numbers and rotation budget left: exactly once a
    message with its reply tag was claimed, whether that reply authenticates, did not, or is still being read. What it
    seals is on a chain from before the reply exactly as long as no reply has been installed.
  */
  lemma InitiatorSealsIff(cr: Suite, s: Sender, es: seq<Event>, plaintext: Bytes, rot: Option<Rotation>)
    requires s == Start(true, s.keyChain, s.tagChain)
    requires var h := Run(cr, Begin(s), es); h.s.counter < MAX_MESSAGE && AttemptRotation(h.s, rot).1
    ensures var h := Run(cr, Begin(s), es);
            var out := Encrypt(cr, h.s, plaintext, rot, true).1;
            && (out.Some? <==> h.taken == 1)
            && (out.Some? && PreReply(h, out.value.chain) <==> h.taken == 1 && !h.replied)
  {
    hide Run;
    var h := Run(cr, Begin(s), es);
    NonceUniqueness(cr, s, es);
    HandshakeGates(cr, s, es);
    ChainsOrderedRun(cr, s, es);
    EncryptEffect(cr, h.s, plaintext, rot, true);
  }

  /** Such a state is reached: an initiator seals after a reply that did not authenticate. */
  lemma SealsAfterDroppedReply(cr: Suite, keySeed: Bytes, tagSeed: Bytes)
    ensures var h := Run(cr, Begin(Start(true, keySeed, tagSeed)), [TakeHandshake, DropReply, FAILING]);
            !h.replied && |h.sealed| == 1 && h.sealed[0].chain == NewSession
  {
    var h := Begin(Start(true, keySeed, tagSeed));
    var es := [TakeHandshake, DropReply, FAILING];
    assert es[..2] == [TakeHandshake, DropReply] && es[..2][..1] == [TakeHandshake];
    assert Run(cr, h, [TakeHandshake]) == Step(cr, Run(cr, h, []), TakeHandshake);
    assert Run(cr, h, es[..2]) == Step(cr, Run(cr, h, [TakeHandshake]), DropReply);
    assert Run(cr, h, es) == Step(cr, Run(cr, h, es[..2]), FAILING);
  }

  // ----- NextKey discipline --------------------------------------------------------------------

  ghost predicate Increasing(blocks: seq<NextKeyInfo>, limit: nat) {
    && (forall i :: 0 <= i < |blocks| ==> blocks[i].keyId < limit)
    && (forall i, j :: 0 <= i < j < |blocks| ==> blocks[i].keyId < blocks[j].keyId)
  }

  /**
    Each queued block is in exactly one place: sealed into a message, drained by a call that failed, or still pending.
    What was delivered and what is pending come in the order of queueing.
  */
  ghost predicate Accounted(queued: seq<NextKeyInfo>, delivered: seq<NextKeyInfo>, lost: seq<NextKeyInfo>,
                            pending: seq<NextKeyInfo>, keyId: nat)
  {
    && multiset(queued) == multiset(delivered) + multiset(lost) + multiset(pending)
    && Increasing(delivered + pending, keyId)
    && (lost == [] ==> queued == delivered + pending)
  }

  ghost predicate BlocksConserved(h: History) { Accounted(h.queued, h.delivered, h.lost, h.s.nextKeys, h.s.keyId) }

  ghost predicate IdsIncreasing(h: History) {
    h.s.keyId <= MAX_KEY_ID && Increasing(h.queued, h.s.keyId)
  }

  /** Effect of a call on the NextKey queue, whose new entries are `added`. */
  ghost predicate QueueEffect(s: Sender, r: Sender, out: Option<Sealed>, added: seq<NextKeyInfo>) {
    && |added| == r.keyId - s.keyId <= 1
    && (forall i <- added :: i.keyId == s.keyId)
    && (r.nextKeys == s.nextKeys + added || r.nextKeys == [])
    && (out.Some? ==> r.nextKeys == [] && out.value.nextKeys == s.nextKeys + added)
  }

  lemma SendQueue(cr: Suite, s: Sender, plaintext: Bytes, rot: Option<Rotation>, sealOk: bool)
    ensures var (r, out) := Encrypt(cr, s, plaintext, rot, sealOk); QueueEffect(s, r, out, Queued(s, r, rot))
  {
    assert s.nextKeys + [] == s.nextKeys;
  }

  lemma IncreasingPrefix(a: seq<NextKeyInfo>, b: seq<NextKeyInfo>, limit: nat, more: nat)
    requires Increasing(a + b, limit) && limit <= more
    ensures Increasing(a, more) && Increasing(a + b, more)
  {
    forall i | 0 <= i < |a| ensures a[i] == (a + b)[i] {}
  }

  lemma IncreasingSnoc(a: seq<NextKeyInfo>, info: NextKeyInfo)
    requires Increasing(a, info.keyId)
    ensures Increasing(a + [info], info.keyId + 1)
  {}

  /** Blocks `added`, at most one with the next key ID, join the queue. */
  lemma QueueGrows(h: History, added: seq<NextKeyInfo>, keyId: nat)
    requires IdsIncreasing(h) && BlocksConserved(h) && h.s.keyId <= keyId <= MAX_KEY_ID
    requires |added| <= keyId - h.s.keyId && |added| <= 1 && forall i <- added :: i.keyId == h.s.keyId
    ensures var pending := h.s.nextKeys + added;
            Increasing(h.queued + added, keyId) && Accounted(h.queued + added, h.delivered, h.lost, pending, keyId)
  {
    var pending := h.s.nextKeys + added;
    assert h.delivered + h.s.nextKeys + added == h.delivered + pending;
    if added == [] {
      assert pending == h.s.nextKeys && h.queued + added == h.queued;
    } else {
      assert added == [added[0]];
      IncreasingSnoc(h.queued, added[0]);
      IncreasingSnoc(h.delivered + h.s.nextKeys, added[0]);
    }
  }

  lemma ConservedRecord(h: History, s: Sender, out: Option<Sealed>, rot: Option<Rotation>)
    requires IdsIncreasing(h) && BlocksConserved(h)
    requires CallEffect(h.s, s, out) && QueueEffect(h.s, s, out, Queued(h.s, s, rot))
    ensures IdsIncreasing(Record(h, s, out, rot)) && BlocksConserved(Record(h, s, out, rot))
  {
    hide Increasing, Queued;
    var added := Queued(h.s, s, rot);
    var pending := h.s.nextKeys + added;
    QueueGrows(h, added, s.keyId);
    IncreasingPrefix(h.delivered, pending, s.keyId, s.keyId);
    var r := Record(h, s, out, rot);
    if out.Some? {
      assert r.delivered == h.delivered + pending && r.delivered + [] == r.delivered;
    } else if |s.nextKeys| < |pending| {
      assert r.lost == h.lost + pending && h.delivered + [] == h.delivered;
    } else {
      assert r.lost == h.lost && s.nextKeys == pending;
    }
  }

  lemma DisciplineOther(cr: Suite, h: History, e: Event)
    requires IdsIncreasing(h) && BlocksConserved(h) && !e.Send?
    ensures IdsIncreasing(Step(cr, h, e)) && BlocksConserved(Step(cr, h, e))
  {
    hide Increasing, Accounted, Encrypt, Record;
    if e.ReverseRequested? && e.publicKey.Some? && h.s.keyId < MAX_KEY_ID {
      QueueGrows(h, [ReverseInfo(h.s.keyId, e.publicKey.value)], h.s.keyId + 1);
    } else if e.BumpKeyId? && h.s.keyId < MAX_KEY_ID {
      QueueGrows(h, [], h.s.keyId + 1);
      assert h.s.nextKeys + [] == h.s.nextKeys && h.queued + [] == h.queued;
    }
  }

  lemma DisciplineStep(cr: Suite, h: History, e: Event)
    requires IdsIncreasing(h) && BlocksConserved(h)
    ensures IdsIncreasing(Step(cr, h, e)) && BlocksConserved(Step(cr, h, e))
  {
    hide Encrypt, Record, IdsIncreasing, BlocksConserved;
    if e.Send? {
      var (s, out) := Encrypt(cr, h.s, e.plaintext, e.rot, e.sealOk);
      EncryptEffect(cr, h.s, e.plaintext, e.rot, e.sealOk);
      SendQueue(cr, h.s, e.plaintext, e.rot, e.sealOk);
      ConservedRecord(h, s, out, e.rot);
    } else {
      DisciplineOther(cr, h, e);
    }
  }

  /** Over every run, key IDs on queued blocks strictly increase below 32767, and each block is accounted for once. */
  lemma {:induction false} NextKeyDiscipline(cr: Suite, s: Sender, es: seq<Event>)
    requires s == Start(s.isInitiator, s.keyChain, s.tagChain)
    ensures IdsIncreasing(Run(cr, Begin(s), es))
    ensures BlocksConserved(Run(cr, Begin(s), es))
  {
    if es != [] {
      NextKeyDiscipline(cr, s, es[..|es| - 1]);
      DisciplineStep(cr, Run(cr, Begin(s), es[..|es| - 1]), es[|es| - 1]);
    }
  }

  lemma ControlBlocksFit(nextKeys: seq<NextKeyInfo>, acks: seq<AckEntry>)
    requires forall i <- nextKeys :: i.key.Some? ==> |i.key.value| == 32
    ensures forall b <- ControlBlocks(nextKeys, acks) :: |b.data| <= 35
  {}

  /** The receiver's parser sees exactly the drained control blocks followed by the caller's own blocks. */
  lemma SealedPayloadParses(m: Sealed, blocks: seq<Block>, parsed: seq<Block>)
    requires forall i <- m.nextKeys :: i.key.Some? ==> |i.key.value| == 32
    requires Encodes(blocks, m.plaintext)
    requires Encodes(parsed, PayloadOf(m))
    ensures parsed == ControlBlocks(m.nextKeys, m.acks) + blocks
  {
    var control := ControlBlocks(m.nextKeys, m.acks);
    ControlBlocksFit(m.nextKeys, m.acks);
    PrependEncodes(control, blocks, m.plaintext);
    EncodesUnique(parsed, control + blocks, PayloadOf(m));
  }

  /** An Ack block: tag-set ID, then message count, two bytes each, most significant first. */
  predicate ReadsAsAck(b: Block, a: AckEntry) {
    b.kind == 8 && |b.data| == 4 && Digits(b.data[..2]) == a.keyId % U16 && Digits(b.data[2..]) == a.n % U16
  }

  lemma AckBytes(a: AckEntry)
    ensures ReadsAsAck(Block(BLOCK_ACK, Be16(a.keyId) + Be16(a.n)), a)
  {
    var data := Be16(a.keyId) + Be16(a.n);
    assert data[..2] == Be16(a.keyId) && data[2..] == Be16(a.n);
    Be16RoundTrip(a.keyId);
    Be16RoundTrip(a.n);
    BigEndian(Be16(a.keyId));
    BigEndian(Be16(a.n));
  }

  /**
    What the receiver finds in a sealed payload: first the announced keys, each parsing to what was queued, then the
    acknowledgments byte for byte, then the caller's blocks.
  */
  lemma ReceiverReadsControl(m: Sealed, blocks: seq<Block>, parsed: seq<Block>)
    requires forall i <- m.nextKeys :: i.keyId < U16 && (i.key.Some? ==> |i.key.value| == 32) && !(i.reverse && i.requestReverse)
    requires Encodes(blocks, m.plaintext) && Encodes(parsed, PayloadOf(m))
    ensures |parsed| == |m.nextKeys| + |m.acks| + |blocks| && parsed[|m.nextKeys| + |m.acks|..] == blocks
    ensures forall i :: 0 <= i < |m.nextKeys| ==> ParseNextKey(parsed[i]) == Some(m.nextKeys[i])
    ensures forall i :: 0 <= i < |m.acks| ==> ReadsAsAck(parsed[|m.nextKeys| + i], m.acks[i])
  {
    SealedPayloadParses(m, blocks, parsed);
    hide ParseNextKey, NextKeyBlock, ReadsAsAck, Encodes;
    forall i | 0 <= i < |m.nextKeys| ensures ParseNextKey(parsed[i]) == Some(m.nextKeys[i]) {
      assert m.nextKeys[i] in m.nextKeys && parsed[i] == NextKeyBlock(m.nextKeys[i]);
      NextKeyRoundTrip(m.nextKeys[i]);
    }
    forall i | 0 <= i < |m.acks| ensures ReadsAsAck(parsed[|m.nextKeys| + i], m.acks[i]) {
      AckBytes(m.acks[i]);
    }
  }

  // ----- the session object --------------------------------------------------------------------

  class SendSession {
    var isInitiator: bool
    ghost var chain: ChainId
    var symmetricChain: Bytes
    var tagChain: Bytes
    var messageCounter: nat
    var dhRatchetCounter: nat
    var consecutiveDHFailures: nat
    var sendKeyID: nat
    var pendingNextKeys: seq<NextKeyInfo>
    var pendingAcks: seq<AckEntry>
    var awaitingReverseKey: bool
    var handshakeState: bool
    var awaitingFirstES: bool

    ghost function View(): (r: Sender)
      reads this
    {
      Sender(isInitiator, chain, symmetricChain, tagChain, messageCounter, dhRatchetCounter, consecutiveDHFailures,
             sendKeyID, pendingNextKeys, pendingAcks, awaitingReverseKey, handshakeState, awaitingFirstES)
    }

    /** Every queued public key has its 32 bytes. */
    ghost predicate Valid()
      reads this
    {
      forall i <- pendingNextKeys :: i.key.Some? ==> |i.key.value| == 32
    }

    constructor (initiator: bool, keySeed: Bytes, tagSeed: Bytes)
      ensures Valid() && View() == Start(initiator, keySeed, tagSeed)
    {
      isInitiator, chain, symmetricChain, tagChain, messageCounter := initiator, NewSession, keySeed, tagSeed, 1;
      dhRatchetCounter, consecutiveDHFailures, sendKeyID, pendingNextKeys, pendingAcks := 0, 0, 0, [], [];
      awaitingReverseKey, handshakeState, awaitingFirstES := false, true, false;
    }

    /** Phase one of the reply on either side: the handshake state can be taken once. */
    method TakeHandshakeState() returns (ok: bool)
      modifies this
      ensures ok == old(handshakeState) && View() == old(View()).(handshake := false)
      ensures Valid() == old(Valid())
    {
      ok := handshakeState;
      handshakeState := false;
    }

    method ApplyNSRSendKeys(keySeed: Bytes, tagSeed: Bytes)
      modifies this
      ensures View() == old(WithReply(View(), keySeed, tagSeed)) && Valid() == old(Valid())
    {
      chain, symmetricChain, tagChain, messageCounter := Reply, keySeed, tagSeed, 1;
      if !isInitiator { awaitingFirstES := true; }
    }

    method MarkOpened()
      modifies this
      ensures View() == old(Opened(View())) && Valid() == old(Valid())
    {
      if !isInitiator && awaitingFirstES { awaitingFirstES := false; }
    }

    method PerformDHRatchetStep(rot: Option<Rotation>) returns (ok: bool)
      requires Valid() && (rot.Some? ==> |rot.value.publicKey| == 32)
      modifies this
      ensures Valid() && ok == old(Rotate(View(), rot)).Some?
      ensures View() == if ok then old(Rotate(View(), rot)).value else old(View())
    {
      if sendKeyID >= MAX_KEY_ID { return false; }
      if rot.None? { return false; }
      chain, symmetricChain, tagChain := Rotated(sendKeyID), rot.value.keySeed, rot.value.tagSeed;
      pendingNextKeys := pendingNextKeys + [ForwardInfo(sendKeyID, rot.value.publicKey)];
      awaitingReverseKey := true;
      sendKeyID := sendKeyID + 1;
      return true;
    }

    method AttemptDHRatchetRotation(rot: Option<Rotation>) returns (ok: bool)
      requires Valid() && (rot.Some? ==> |rot.value.publicKey| == 32)
      modifies this
      ensures Valid() && (View(), ok) == old(AttemptRotation(View(), rot))
    {
      dhRatchetCounter := (dhRatchetCounter + 1) % U32;
      if dhRatchetCounter < DH_INTERVAL { return true; }
      var rotated := PerformDHRatchetStep(rot);
      if rotated {
        dhRatchetCounter, consecutiveDHFailures := 0, 0;
        return true;
      }
      consecutiveDHFailures := (consecutiveDHFailures + 1) % U32;
      return consecutiveDHFailures < MAX_DH_FAILURES;
    }

    /** Drains both queues and writes their blocks in front of the plaintext. */
    method PrependPendingNextKeys(plaintext: Bytes) returns (combined: Bytes)
      requires Valid()
      modifies this
      ensures Valid() && View() == old(View().(nextKeys := [], acks := []))
      ensures combined == old(WireAll(ControlBlocks(pendingNextKeys, pendingAcks))) + plaintext
    {
      var blocks := ControlBlocks(pendingNextKeys, pendingAcks);
      ControlBlocksFit(pendingNextKeys, pendingAcks);
      pendingNextKeys, pendingAcks := [], [];
      combined := WriteControl(blocks, plaintext);
    }

    method GenerateReverseNextKey(publicKey: Option<Bytes>) returns (ok: bool)
      requires Valid() && (publicKey.Some? ==> |publicKey.value| == 32)
      modifies this
      ensures Valid() && ok == (old(sendKeyID) < MAX_KEY_ID && publicKey.Some?)
      ensures !ok ==> View() == old(View())
      ensures ok ==> View() == old(View().(nextKeys := pendingNextKeys + [ReverseInfo(sendKeyID, publicKey.value)],
                                           keyId := sendKeyID + 1))
    {
      if sendKeyID >= MAX_KEY_ID || publicKey.None? { return false; }
      pendingNextKeys := pendingNextKeys + [ReverseInfo(sendKeyID, publicKey.value)];
      sendKeyID := sendKeyID + 1;
      return true;
    }

    /** Gates, counter check, rotation, key and tag derivation, queue drain and sealing, in the source's order. */
    method EncryptExistingSession(cr: Suite, plaintext: Bytes, rot: Option<Rotation>, sealOk: bool)
      returns (wire: Option<Bytes>)
      requires Valid() && (rot.Some? ==> |rot.value.publicKey| == 32)
      modifies this
      ensures Valid() && View() == old(Encrypt(cr, View(), plaintext, rot, sealOk)).0
      ensures match old(Encrypt(cr, View(), plaintext, rot, sealOk)).1
              case None => wire.None?
              case Some(m) => wire == Some(m.tag + cr.seal(m.key, m.number, m.tag, PayloadOf(m)))
    {
      if isInitiator && handshakeState { return None; }
      if !isInitiator && awaitingFirstES { return None; }
      if messageCounter >= MAX_MESSAGE { return None; }
      var ok := AttemptDHRatchetRotation(rot);
      if !ok { return None; }
      wire := SealNext(cr, plaintext, sealOk);
    }

    /** Key and tag derivation, queue drain and sealing, once the rotation step has let the call through. */
    method SealNext(cr: Suite, plaintext: Bytes, sealOk: bool) returns (wire: Option<Bytes>)
      requires Valid()
      modifies this
      ensures Valid() && View() == old(SealWith(cr, View(), plaintext, sealOk)).0
      ensures match old(SealWith(cr, View(), plaintext, sealOk)).1
              case None => wire.None?
              case Some(m) => wire == Some(m.tag + cr.seal(m.key, m.number, m.tag, PayloadOf(m)))
    {
      var key := cr.stepKey(symmetricChain, messageCounter);
      var tag := cr.stepTag(tagChain);
      symmetricChain, tagChain := key.1, tag.1;
      var payload := PrependPendingNextKeys(plaintext);
      if !sealOk { return None; }
      var ciphertext := cr.seal(key.0, messageCounter, tag.0, payload);
      messageCounter := messageCounter + 1;
      return Some(tag.0 + ciphertext);
    }
  }

  method WriteControl(blocks: seq<Block>, plaintext: Bytes) returns (combined: Bytes)
    requires forall b <- blocks :: |b.data| <= MAX_BLOCK
    ensures combined == WireAll(blocks) + plaintext
  {
    if blocks == [] { return plaintext; }
    var size := ControlSize(blocks);
    WireAllSize(blocks);
    var buf := new byte[size + |plaintext|];
    SerializeAll(blocks, buf);
    CopyInto(plaintext, buf, size);
    assert buf[..size + |plaintext|] == buf[..];
    return buf[..];
  }
}
