/** From the first handshake byte to Existing Session traffic in both directions. */
module EndToEnd {
  import opened Common
  import opened Crypto
  import opened SendChain
  import opened NoiseIK
  import opened Lockstep
  import opened Transcript
  import RecvWindow
  import Duplex

  /** The four handshake steps in a row: the chains of the initiator and of the responder, if every step succeeds. */
  function Handshake(cr: Suite, staticA: Bytes, staticB: Bytes, ephA: Bytes, ephB: Bytes, payloadA: Bytes, payloadB: Bytes)
    : (r: Option<(Chains, Chains)>)
  {
    match WriteBound(cr, staticA, cr.pub(staticA), cr.pub(staticB), ephA, payloadA)
    case None => None
    case Some(m1) =>
      match Read1(cr, staticB, cr.pub(staticB), m1.wire)
      case None => None
      case Some(r1) =>
        if !r1.Bound? || !r1.pending.AtResponder? || m1.pending.None? then None
        else
          match Write2(cr, r1.pending, ephB, payloadB)
          case None => None
          case Some(m2) =>
            match Read2(cr, m1.pending.value, staticA, m2.wire)
            case None => None
            case Some(reply) => Some((ReplyChains(cr, reply.1, true), ReplyChains(cr, m2.keys, false)))
  }

  /** Each side's sending chains are the other's receiving chains. */
  lemma HandshakeMirrors(cr: Suite, staticA: Bytes, staticB: Bytes, ephA: Bytes, ephB: Bytes, payloadA: Bytes, payloadB: Bytes)
    requires Lawful(cr) && !AllZeros(cr.pub(staticA))
    requires Handshake(cr, staticA, staticB, ephA, ephB, payloadA, payloadB).Some?
    ensures var (a, b) := Handshake(cr, staticA, staticB, ephA, ephB, payloadA, payloadB).value; Mirror(a, b)
  {
    hide WriteBound, Read1, Write2, Read2, ReplyChains, NewSessionChains;
    HandshakeAgreement(cr, staticA, staticB, ephA, ephB, payloadA, payloadB);
  }

  /**
    What the handshake computes, for all keys and payloads: all four secrets, each known to both ends, go into the keys
    of either direction; the initiator sends on the first and the responder on the second.
  */
  lemma HandshakeMixesFourSecrets(cr: Suite, staticA: Bytes, staticB: Bytes, ephA: Bytes, ephB: Bytes, payloadA: Bytes, payloadB: Bytes)
    requires Lawful(cr) && !AllZeros(cr.pub(staticA))
    requires Handshake(cr, staticA, staticB, ephA, ephB, payloadA, payloadB).Some?
    ensures cr.dh(ephA, cr.pub(staticB)).Some? && cr.dh(staticA, cr.pub(staticB)).Some?
    ensures cr.dh(ephB, cr.pub(ephA)).Some? && cr.dh(ephB, cr.pub(staticA)).Some?
    ensures var (a, b) := Handshake(cr, staticA, staticB, ephA, ephB, payloadA, payloadB).value;
            var (es, ss) := (cr.dh(ephA, cr.pub(staticB)).value, cr.dh(staticA, cr.pub(staticB)).value);
            var (ee, se) := (cr.dh(ephB, cr.pub(ephA)).value, cr.dh(ephB, cr.pub(staticA)).value);
            var (ab, ba) := cr.hkdf2(KeysSE(cr, KeysSS(cr, es, ss).0, ee, se).0, []);
            && SendsOn(cr, a, ab) && ReceivesOn(cr, a, ba) && SendsOn(cr, b, ba) && ReceivesOn(cr, b, ab)
  {
    BoundAgreement(cr, staticA, staticB, ephA, payloadA);
    BoundIsSealedUnderBothSecrets(cr, staticA, cr.pub(staticA), cr.pub(staticB), ephA, payloadA);
    var m1 := WriteBound(cr, staticA, cr.pub(staticA), cr.pub(staticB), ephA, payloadA).value;
    var pending := Read1(cr, staticB, cr.pub(staticB), m1.wire).value.pending;
    ReplyAgreement(cr, m1.pending.value, pending, staticA, ephB, payloadB);
    ReplyIsSealedUnderBothSecrets(cr, pending, ephB, payloadB);
    var keys := Write2(cr, pending, ephB, payloadB).value.keys;
    hide WriteBound, Read1, Write2, Read2, ReplyChains;
    ReplyDirections(cr, keys, keys.chain);
  }

  /** What the receiving session still holds from its earlier chains. */
  datatype Leftovers = Leftovers(index: map<Bytes, nat>, batches: seq<seq<Drawn>>, claims: seq<Claim>)

  /** None of it carries a tag of the new chain. */
  ghost predicate Stale(cr: Suite, ep: Epoch, l: Leftovers) {
    && (forall t <- l.index :: Foreign(Tags(cr, ep), ep.limit, t))
    && (forall c <- l.claims :: Foreign(Tags(cr, ep), ep.limit, c.tag))
    && (forall b <- l.batches, d <- b :: Foreign(Tags(cr, ep), ep.limit, d.tag))
  }

  /** One direction right after both ends applied the reply keys: `from` sends on its chains, `to` receives on its own. */
  function Direction(cr: Suite, past: History, from: Chains, to: Chains, l: Leftovers): (n: Net) {
    Net(SendChain.Step(cr, past, InstallReply(from.sendKey, from.sendTag)).s, [],
        RecvWindow.Fresh(to.recvKey), l.index, 1, to.recvTag, l.batches, l.claims, [])
  }

  function EpochOf(from: Chains, limit: nat): (ep: Epoch) { Epoch(Reply, from.sendKey, from.sendTag, limit) }

  /** A session of the given role whose handshake state is taken and whose reply is about to be applied. */
  ghost predicate Replying(cr: Suite, past: History, initiator: bool) {
    past.inFlight > 0 &&
    exists keySeed, tagSeed, es :: past == SendChain.Run(cr, SendChain.Begin(Start(initiator, keySeed, tagSeed)), es)
  }

  lemma ReplyInstalls(cr: Suite, past: History, initiator: bool, from: Chains)
    requires Replying(cr, past, initiator)
    ensures var s := SendChain.Step(cr, past, InstallReply(from.sendKey, from.sendTag)).s;
            && s.isInitiator == initiator && !s.handshake && (!initiator ==> s.awaitingFirstES)
            && s.chain == Reply && s.keyChain == from.sendKey && s.tagChain == from.sendTag && s.counter == 1
            && s.dhCounter == past.s.dhCounter && s.failures == past.s.failures
            && (past.calls < U32 ==> Budgeted(past))
  {
    hide SendChain.Run, Budgeted;
    var keySeed, tagSeed, es :| past == SendChain.Run(cr, SendChain.Begin(Start(initiator, keySeed, tagSeed)), es);
    NonceUniqueness(cr, Start(initiator, keySeed, tagSeed), es);
    HandshakeGates(cr, Start(initiator, keySeed, tagSeed), es);
    SendingChainBound(cr, Start(initiator, keySeed, tagSeed), es);
  }

  lemma ReplyWithinBudget(cr: Suite, past: History, initiator: bool, from: Chains, more: nat)
    requires Replying(cr, past, initiator) && past.calls + more < U32
    ensures WithinBudget(SendChain.Step(cr, past, InstallReply(from.sendKey, from.sendTag)).s, more)
  {
    hide Replying, SendChain.Step;
    ReplyInstalls(cr, past, initiator, from);
  }

  function Session(cr: Suite, pastA: History, pastB: History, a: Chains, b: Chains, la: Leftovers, lb: Leftovers)
    : (p: Duplex.Pair)
  {
    Duplex.Pair(Direction(cr, pastA, a, b, lb), Direction(cr, pastB, b, a, la))
  }

  function EpochsOf(a: Chains, b: Chains, limit: nat): (es: Duplex.Epochs) {
    Duplex.Epochs(EpochOf(a, limit), EpochOf(b, limit))
  }

  /**
    For all keys and payloads of an honest handshake both directions start in the initial state of the lockstep
    theorems with every counter at 1, whatever the two sessions did before and still hold from earlier chains.
  */
  lemma HandshakeEstablishes(cr: Suite, a: Chains, b: Chains, pastA: History, pastB: History,
                             la: Leftovers, lb: Leftovers, limit: nat)
    requires Mirror(a, b) && Replying(cr, pastA, true) && Replying(cr, pastB, false)
    requires Stale(cr, EpochOf(a, limit), lb) && Stale(cr, EpochOf(b, limit), la)
    ensures Duplex.Established(cr, EpochsOf(a, b, limit), Session(cr, pastA, pastB, a, b, la, lb))
  {
    hide Foreign, Replying, SendChain.Step;
    ReplyInstalls(cr, pastA, true, a);
    ReplyInstalls(cr, pastB, false, b);
  }

  /**
    After an honest handshake, over every run of the network and of both sessions' lock sections: in both directions
    everything opened is what the peer sealed, each message at most once, and the responder has sealed nothing before
    it opened a message.
  */
  lemma SessionIsExact(cr: Suite, staticA: Bytes, staticB: Bytes, ephA: Bytes, ephB: Bytes, payloadA: Bytes, payloadB: Bytes,
                       pastA: History, pastB: History, la: Leftovers, lb: Leftovers, limit: nat,
                       moves: seq<Duplex.Move>, end: Duplex.Pair)
    requires Lawful(cr) && !AllZeros(cr.pub(staticA)) && limit >= MAX_MESSAGE
    requires Handshake(cr, staticA, staticB, ephA, ephB, payloadA, payloadB).Some?
    requires Replying(cr, pastA, true) && Replying(cr, pastB, false)
    requires var (a, b) := Handshake(cr, staticA, staticB, ephA, ephB, payloadA, payloadB).value;
             && TagsDistinct(cr, EpochOf(a, limit)) && Stale(cr, EpochOf(a, limit), lb)
             && TagsDistinct(cr, EpochOf(b, limit)) && Stale(cr, EpochOf(b, limit), la)
             && Duplex.Run(cr, EpochsOf(a, b, limit), Session(cr, pastA, pastB, a, b, la, lb), moves, end)
    ensures var (a, b) := Handshake(cr, staticA, staticB, ephA, ephB, payloadA, payloadB).value;
            && AcceptedExactly(EpochOf(a, limit), end.ab.accepted, end.ab.sent)
            && AcceptedExactly(EpochOf(b, limit), end.ba.accepted, end.ba.sent)
            && (end.ba.sent != [] ==> end.ab.accepted != [])
  {
    hide Handshake, Duplex.Run, Replying, Stale, AcceptedExactly, Duplex.Established, Session, TagsDistinct;
    var (a, b) := Handshake(cr, staticA, staticB, ephA, ephB, payloadA, payloadB).value;
    var es, start := EpochsOf(a, b, limit), Session(cr, pastA, pastB, a, b, la, lb);
    HandshakeMirrors(cr, staticA, staticB, ephA, ephB, payloadA, payloadB);
    HandshakeEstablishes(cr, a, b, pastA, pastB, la, lb, limit);
    Duplex.BothExact(cr, es, start, moves, end);
    Duplex.ResponderWaits(cr, es, start, moves, end);
  }

  /** In such a session every claimed authentic message opens, as long as fewer than 2^32 calls and steps were made. */
  lemma SessionDelivers(cr: Suite, a: Chains, b: Chains, pastA: History, pastB: History, la: Leftovers, lb: Leftovers,
                        limit: nat, moves: seq<Duplex.Move>, end: Duplex.Pair, fromA: bool, c: Claim)
    requires Lawful(cr) && limit >= MAX_MESSAGE && Mirror(a, b) && Replying(cr, pastA, true) && Replying(cr, pastB, false)
    requires TagsDistinct(cr, EpochOf(a, limit)) && Stale(cr, EpochOf(a, limit), lb)
    requires TagsDistinct(cr, EpochOf(b, limit)) && Stale(cr, EpochOf(b, limit), la)
    requires Duplex.Run(cr, EpochsOf(a, b, limit), Session(cr, pastA, pastB, a, b, la, lb), moves, end)
    requires pastA.calls + |moves| < U32 && pastB.calls + |moves| < U32
    requires var l := Duplex.Lane(end, fromA);
             c in l.claims && Authentic(cr, Duplex.EpochIn(EpochsOf(a, b, limit), fromA), l.sent, c)
    ensures var l := Duplex.Lane(end, fromA);
            RecvWindow.Decrypt(cr, l.w, c.tag, c.body, Some(c.hint)).1 == Some(PayloadOf(l.sent[c.hint - 1]))
  {
    hide Duplex.Run, Replying, Stale, Duplex.Established, TagsDistinct, Authentic, WithinBudget, SendChain.Step;
    HandshakeEstablishes(cr, a, b, pastA, pastB, la, lb, limit);
    ReplyWithinBudget(cr, pastA, true, a, |moves|);
    ReplyWithinBudget(cr, pastB, false, b, |moves|);
    Duplex.BothDeliver(cr, EpochsOf(a, b, limit), Session(cr, pastA, pastB, a, b, la, lb), moves, end, fromA, c);
  }
}
