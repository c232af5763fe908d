/** The Noise IKelg2+hs2 handshake: New Session (message 1) and New Session Reply (message 2). */
module NoiseIK {
  import opened Common
  import opened Crypto

  const PROTOCOL := "Noise_IKelg2+hs2_25519_ChaChaPoly_SHA256"
  const KEY := 32
  const TAG := 16
  const MIN_MESSAGE1 := 96
  const MIN_MESSAGE2 := 72

  function Ascii(s: string): (r: Bytes)
    ensures |r| == |s| && forall i :: 0 <= i < |s| && s[i] as int < 256 ==> r[i] == s[i] as int
  {
    seq(|s|, i requires 0 <= i < |s| => s[i] as int % 256)
  }

  /** Symmetric state of section 5.2 of the Noise Protocol Framework, revision 34. */
  datatype Sym = Sym(h: Bytes, ck: Bytes, k: Option<Bytes>, n: nat)

  function MixHash(cr: Suite, s: Sym, data: Bytes): (r: Sym) { s.(h := cr.hash(s.h + data)) }

  function MixKey(cr: Suite, s: Sym, ikm: Bytes): (r: Sym) {
    var out := cr.hkdf2(s.ck, ikm);
    s.(ck := out.0, k := Some(out.1), n := 0)
  }

  /** The "ee" token of the reply updates the chaining key only. */
  function MixChain(cr: Suite, s: Sym, ikm: Bytes): (r: Sym) { s.(ck := cr.hkdf1(s.ck, ikm)) }

  function EncryptAndHash(cr: Suite, s: Sym, plaintext: Bytes): (r: (Sym, Bytes)) {
    match s.k
    case None => (MixHash(cr, s, plaintext), plaintext)
    case Some(k) =>
      var c := cr.seal(k, s.n, s.h, plaintext);
      (MixHash(cr, s, c).(n := s.n + 1), c)
  }

  function DecryptAndHash(cr: Suite, s: Sym, ciphertext: Bytes): (r: Option<(Sym, Bytes)>) {
    match s.k
    case None => Some((MixHash(cr, s, ciphertext), ciphertext))
    case Some(k) =>
      match cr.open(k, s.n, s.h, ciphertext)
      case None => None
      case Some(p) => Some((MixHash(cr, s, ciphertext).(n := s.n + 1), p))
  }

  /** Decrypting what an equal state encrypted gives the plaintext and leaves the states equal. */
  lemma TransportAgrees(cr: Suite, s: Sym, plaintext: Bytes)
    requires OpenUndoesSeal(cr)
    ensures var (s', c) := EncryptAndHash(cr, s, plaintext);
            DecryptAndHash(cr, s, c) == Some((s', plaintext))
  {}

  class SymmetricState {
    var h: Bytes
    var ck: Bytes
    var k: Option<Bytes>
    var n: nat

    function View(): (r: Sym)
      reads this
    {
      Sym(h, ck, k, n)
    }

    constructor (hash: Bytes, chain: Bytes)
      ensures View() == Sym(hash, chain, None, 0)
    {
      h, ck, k, n := hash, chain, None, 0;
    }

    method MixHashWith(cr: Suite, data: Bytes)
      modifies this
      ensures View() == MixHash(cr, old(View()), data)
    {
      h := cr.hash(h + data);
    }

    method MixKeyWith(cr: Suite, ikm: Bytes)
      modifies this
      ensures View() == MixKey(cr, old(View()), ikm)
    {
      var out := cr.hkdf2(ck, ikm);
      ck, k, n := out.0, Some(out.1), 0;
    }

    method MixChainWith(cr: Suite, ikm: Bytes)
      modifies this
      ensures View() == MixChain(cr, old(View()), ikm)
    {
      ck := cr.hkdf1(ck, ikm);
    }

    method Encrypt(cr: Suite, plaintext: Bytes) returns (c: Bytes)
      modifies this
      ensures (View(), c) == EncryptAndHash(cr, old(View()), plaintext)
    {
      if k.None? {
        c := plaintext;
      } else {
        c := cr.seal(k.value, n, h, plaintext);
        n := n + 1;
      }
      h := cr.hash(h + c);
    }

    method Decrypt(cr: Suite, c: Bytes) returns (p: Option<Bytes>)
      modifies this
      ensures match DecryptAndHash(cr, old(View()), c)
              case None => p.None? && View() == old(View())
              case Some(r) => View() == r.0 && p == Some(r.1)
    {
      if k.None? {
        p := Some(c);
      } else {
        p := cr.open(k.value, n, h, c);
        if p.None? { return; }
        n := n + 1;
      }
      h := cr.hash(h + c);
    }
  }

  // ----- message 1 -----------------------------------------------------------------------------

  function Init(cr: Suite, responderPub: Bytes): (r: Sym) {
    var h := cr.hash(Ascii(PROTOCOL));
    MixHash(cr, MixHash(cr, Sym(h, h, None, 0), []), cr.hash(responderPub))
  }

  datatype SessionKeys = SessionKeys(root: Bytes, sym: Bytes, tag: Bytes)

  function SessionKeysOf(cr: Suite, ck: Bytes): (r: SessionKeys) {
    var d := cr.derive3(ck);
    SessionKeys(d.0, d.1, d.2)
  }

  /** State kept for the reply; the initiator keeps its ephemeral private key, the responder the two public keys. */
  datatype Pending =
    | AtInitiator(h: Bytes, ck: Bytes, localEph: Bytes)
    | AtResponder(h: Bytes, ck: Bytes, remoteEph: Bytes, remoteStatic: Bytes)

  datatype Message1 = Message1(wire: Bytes, keys: SessionKeys, pending: Option<Pending>)

  datatype Received =
    | Bound(payload: Bytes, initiator: Bytes, keys: SessionKeys, pending: Pending)
    | Unbound(payload: Bytes, keys: SessionKeys)

  /** State after the ephemeral key and the "es" token, common to both variants and both ends. */
  function AfterES(cr: Suite, responderPub: Bytes, encoded: Bytes, shared: Bytes): (r: Sym) {
    MixKey(cr, MixHash(cr, Init(cr, responderPub), encoded), shared)
  }

  function WriteBound(cr: Suite, staticPriv: Bytes, staticPub: Bytes, responderPub: Bytes, eph: Bytes, payload: Bytes): (r: Option<Message1>) {
    match (cr.encode(cr.pub(eph)), cr.dh(eph, responderPub), cr.dh(staticPriv, responderPub))
    case (Some(encoded), Some(es), Some(ss)) =>
      var (s1, c1) := EncryptAndHash(cr, AfterES(cr, responderPub, encoded, es), staticPub);
      var (s2, c2) := EncryptAndHash(cr, MixKey(cr, s1, ss), payload);
      Some(Message1(encoded + c1 + c2, SessionKeysOf(cr, s2.ck), Some(AtInitiator(s2.h, s2.ck, eph))))
    case _ => None
  }

  function WriteUnbound(cr: Suite, responderPub: Bytes, eph: Bytes, payload: Bytes): (r: Option<Message1>) {
    match (cr.encode(cr.pub(eph)), cr.dh(eph, responderPub))
    case (Some(encoded), Some(es)) =>
      var (s1, c1) := EncryptAndHash(cr, AfterES(cr, responderPub, encoded, es), Zeros(KEY));
      var (s2, c2) := EncryptAndHash(cr, s1, payload);
      Some(Message1(encoded + c1 + c2, SessionKeysOf(cr, s2.ck), None))
    case _ => None
  }

  predicate AllZeros(b: Bytes) { forall i :: 0 <= i < |b| ==> b[i] == 0 }

  function ReadPayload(cr: Suite, s: Sym, staticPriv: Bytes, ephPub: Bytes, initiator: Bytes, c: Bytes): (r: Option<Received>) {
    if AllZeros(initiator) then
      match DecryptAndHash(cr, s, c)
      case None => None
      case Some(r) => Some(Unbound(r.1, SessionKeysOf(cr, r.0.ck)))
    else
      match cr.dh(staticPriv, initiator)
      case None => None
      case Some(ss) =>
        match DecryptAndHash(cr, MixKey(cr, s, ss), c)
        case None => None
        case Some(r) =>
          Some(Bound(r.1, initiator, SessionKeysOf(cr, r.0.ck), AtResponder(r.0.h, r.0.ck, ephPub, initiator)))
  }

  function Read1(cr: Suite, staticPriv: Bytes, staticPub: Bytes, msg: Bytes): (r: Option<Received>) {
    if |msg| < MIN_MESSAGE1 then None
    else
      match cr.decode(msg[..KEY])
      case None => None
      case Some(ephPub) =>
        match cr.dh(staticPriv, ephPub)
        case None => None
        case Some(es) =>
          match DecryptAndHash(cr, AfterES(cr, staticPub, msg[..KEY], es), msg[KEY..KEY + 48])
          case None => None
          case Some(r) => ReadPayload(cr, r.0, staticPriv, ephPub, r.1, msg[KEY + 48..])
  }

  /** The three sections of a message 1 can be cut apart again at the fixed offsets. */
  lemma Sections(encoded: Bytes, c1: Bytes, c2: Bytes)
    requires |encoded| == KEY && |c1| == 48
    ensures var msg := encoded + c1 + c2;
            msg[..KEY] == encoded && msg[KEY..KEY + 48] == c1 && msg[KEY + 48..] == c2
  {}

  /** What both ends know after the ephemeral key: equal states, hence the static section decrypts. */
  lemma StaticSectionAgrees(cr: Suite, responderPriv: Bytes, eph: Bytes, static32: Bytes, encoded: Bytes, es: Bytes)
    requires Lawful(cr) && |static32| == KEY
    requires cr.encode(cr.pub(eph)) == Some(encoded) && cr.dh(eph, cr.pub(responderPriv)) == Some(es)
    ensures cr.decode(encoded) == Some(cr.pub(eph)) && cr.dh(responderPriv, cr.pub(eph)) == Some(es)
    ensures var s := AfterES(cr, cr.pub(responderPriv), encoded, es);
            var (s1, c1) := EncryptAndHash(cr, s, static32);
            |c1| == 48 && |encoded| == KEY && DecryptAndHash(cr, s, c1) == Some((s1, static32))
  {
    TransportAgrees(cr, AfterES(cr, cr.pub(responderPriv), encoded, es), static32);
  }

  /**
    Bound message 1: the reader recovers payload and sender, holds the writer's transcript, chaining key and
    session keys, and takes the bound branch - exactly when the sender's key is not all zero.
  */
  lemma BoundAgreement(cr: Suite, staticPriv: Bytes, responderPriv: Bytes, eph: Bytes, payload: Bytes)
    requires Lawful(cr)
    requires WriteBound(cr, staticPriv, cr.pub(staticPriv), cr.pub(responderPriv), eph, payload).Some?
    ensures var m := WriteBound(cr, staticPriv, cr.pub(staticPriv), cr.pub(responderPriv), eph, payload).value;
            var r := Read1(cr, responderPriv, cr.pub(responderPriv), m.wire);
            && (!AllZeros(cr.pub(staticPriv)) ==>
                  r == Some(Bound(payload, cr.pub(staticPriv), m.keys,
                                  AtResponder(m.pending.value.h, m.pending.value.ck, cr.pub(eph), cr.pub(staticPriv)))))
            && (AllZeros(cr.pub(staticPriv)) ==> r.None? || r.value.Unbound?)
  {
    var responderPub, staticPub := cr.pub(responderPriv), cr.pub(staticPriv);
    var encoded, es := cr.encode(cr.pub(eph)).value, cr.dh(eph, responderPub).value;
    StaticSectionAgrees(cr, responderPriv, eph, staticPub, encoded, es);
    var (s1, c1) := EncryptAndHash(cr, AfterES(cr, responderPub, encoded, es), staticPub);
    var s := MixKey(cr, s1, cr.dh(staticPriv, responderPub).value);
    var (s2, c2) := EncryptAndHash(cr, s, payload);
    TransportAgrees(cr, s, payload);
    Sections(encoded, c1, c2);
    assert |c2| == |payload| + TAG;
  }

  /** Unbound message 1: the reader recovers the payload and keys and takes the unbound branch. */
  lemma UnboundAgreement(cr: Suite, responderPriv: Bytes, eph: Bytes, payload: Bytes)
    requires Lawful(cr)
    requires WriteUnbound(cr, cr.pub(responderPriv), eph, payload).Some?
    ensures var m := WriteUnbound(cr, cr.pub(responderPriv), eph, payload).value;
            Read1(cr, responderPriv, cr.pub(responderPriv), m.wire) == Some(Unbound(payload, m.keys))
  {
    var responderPub := cr.pub(responderPriv);
    var encoded, es := cr.encode(cr.pub(eph)).value, cr.dh(eph, responderPub).value;
    StaticSectionAgrees(cr, responderPriv, eph, Zeros(KEY), encoded, es);
    var (s1, c1) := EncryptAndHash(cr, AfterES(cr, responderPub, encoded, es), Zeros(KEY));
    var (s2, c2) := EncryptAndHash(cr, s1, payload);
    TransportAgrees(cr, s1, payload);
    Sections(encoded, c1, c2);
    assert |c2| == |payload| + TAG;
  }

  // ----- message 2 -----------------------------------------------------------------------------

  datatype ReplyKeys = ReplyKeys(chain: Bytes, ab: Bytes, ba: Bytes)

  datatype Message2 = Message2(tag: Bytes, wire: Bytes, keys: ReplyKeys)

  function ReplyTagChain(cr: Suite, ck: Bytes): (r: Bytes) {
    var tagset := cr.hkdf(ck, [], "SessionReplyTags").0;
    var chain := cr.hkdf(ck, tagset, "KDFDHRatchetStep").1;
    cr.hkdf(chain, [], "TagAndKeyGenKeys").0
  }

  /** First tag of the reply tag set: sent by the responder, registered by the initiator. */
  function ReplyTag(cr: Suite, ck: Bytes): (r: Bytes) { cr.stepTag(ReplyTagChain(cr, ck)).0 }

  function ReplyState(cr: Suite, h: Bytes, ck: Bytes, tag: Bytes, encoded: Bytes, ee: Bytes, se: Bytes): (r: Sym) {
    MixKey(cr, MixChain(cr, MixHash(cr, MixHash(cr, Sym(h, ck, None, 0), tag), encoded), ee), se)
  }

  function SplitKeys(cr: Suite, ck: Bytes): (r: ReplyKeys) {
    var split := cr.hkdf2(ck, []);
    ReplyKeys(ck, split.0, split.1)
  }

  function PayloadKey(cr: Suite, keys: ReplyKeys): (r: Bytes) { cr.hkdf(keys.ba, [], "AttachPayloadKDF").0 }

  function Write2(cr: Suite, p: Pending, eph: Bytes, payload: Bytes): (r: Option<Message2>)
    requires p.AtResponder?
  {
    var tag := ReplyTag(cr, p.ck);
    match (cr.encode(cr.pub(eph)), cr.dh(eph, p.remoteEph), cr.dh(eph, p.remoteStatic))
    case (Some(encoded), Some(ee), Some(se)) =>
      var (s, mac) := EncryptAndHash(cr, ReplyState(cr, p.h, p.ck, tag, encoded, ee, se), []);
      var keys := SplitKeys(cr, s.ck);
      Some(Message2(tag, tag + encoded + mac + cr.seal(PayloadKey(cr, keys), 0, s.h, payload), keys))
    case _ => None
  }

  function Read2(cr: Suite, p: Pending, staticPriv: Bytes, msg: Bytes): (r: Option<(Bytes, ReplyKeys)>)
    requires p.AtInitiator?
  {
    if |msg| < MIN_MESSAGE2 then None
    else
      match cr.decode(msg[8..40])
      case None => None
      case Some(ephPub) =>
        match (cr.dh(p.localEph, ephPub), cr.dh(staticPriv, ephPub))
        case (Some(ee), Some(se)) =>
          (match DecryptAndHash(cr, ReplyState(cr, p.h, p.ck, msg[..8], msg[8..40], ee, se), msg[40..56])
           case None => None
           case Some(r) =>
             var keys := SplitKeys(cr, r.0.ck);
             match cr.open(PayloadKey(cr, keys), 0, r.0.h, msg[56..])
             case None => None
             case Some(payload) => Some((payload, keys)))
        case _ => None
  }

  lemma ReplySections(tag: Bytes, encoded: Bytes, mac: Bytes, c: Bytes)
    requires |tag| == 8 && |encoded| == 32 && |mac| == 16
    ensures var msg := tag + encoded + mac + c;
            msg[..8] == tag && msg[8..40] == encoded && msg[40..56] == mac && msg[56..] == c
  {}

  /** A reply written from a matching message-1 state is read back with the same directional keys and tag. */
  lemma ReplyAgreement(cr: Suite, a: Pending, b: Pending, staticPriv: Bytes, eph: Bytes, payload: Bytes)
    requires Lawful(cr) && a.AtInitiator?
    requires b == AtResponder(a.h, a.ck, cr.pub(a.localEph), cr.pub(staticPriv))
    requires Write2(cr, b, eph, payload).Some?
    ensures var m := Write2(cr, b, eph, payload).value;
            && Read2(cr, a, staticPriv, m.wire) == Some((payload, m.keys))
            && m.wire[..8] == m.tag == ReplyTag(cr, a.ck)
  {
    var tag := ReplyTag(cr, a.ck);
    var encoded := cr.encode(cr.pub(eph)).value;
    var ee, se := cr.dh(eph, b.remoteEph).value, cr.dh(eph, b.remoteStatic).value;
    assert cr.dh(a.localEph, cr.pub(eph)) == Some(ee) && cr.dh(staticPriv, cr.pub(eph)) == Some(se);
    var s := ReplyState(cr, a.h, a.ck, tag, encoded, ee, se);
    TransportAgrees(cr, s, []);
    var (s', mac) := EncryptAndHash(cr, s, []);
    var keys := SplitKeys(cr, s'.ck);
    var c := cr.seal(PayloadKey(cr, keys), 0, s'.h, payload);
    assert |mac| == TAG && |c| == |payload| + TAG;
    ReplySections(tag, encoded, mac, c);
  }

  // ----- directional chains --------------------------------------------------------------------

  /** Seeds of the four ratchets of one end of a session. */
  datatype Chains = Chains(sendKey: Bytes, sendTag: Bytes, recvKey: Bytes, recvTag: Bytes)

  function Directional(cr: Suite, base: Bytes, isInitiator: bool): (r: (Bytes, Bytes)) {
    var d := cr.derive2(base, "KDFDHRatchetStep");
    if isInitiator then d else (d.1, d.0)
  }

  /** Chains of a session created from the New Session keys. */
  function NewSessionChains(cr: Suite, keys: SessionKeys, isInitiator: bool): (r: Chains) {
    var root, tag := Directional(cr, keys.root, isInitiator), Directional(cr, keys.tag, isInitiator);
    Chains(root.0, tag.0, root.1, tag.1)
  }

  /** Chains installed on top by the reply. */
  function ReplyChains(cr: Suite, keys: ReplyKeys, isInitiator: bool): (r: Chains) {
    var send := cr.derive2(if isInitiator then keys.ab else keys.ba, "TagAndKeyGenKeys");
    var recv := cr.derive2(if isInitiator then keys.ba else keys.ab, "TagAndKeyGenKeys");
    Chains(send.1, send.0, recv.1, recv.0)
  }

  predicate Mirror(a: Chains, b: Chains) {
    a.sendKey == b.recvKey && a.sendTag == b.recvTag && b.sendKey == a.recvKey && b.sendTag == a.recvTag
  }

  /**
    The whole handshake between two honest ends, for all keys and payloads: the responder learns payload and
    sender, the initiator learns the reply on the tag it registered, and after each of the two messages every
    sending chain of one end is the receiving chain of the other.
  */
  lemma HandshakeAgreement(cr: Suite, staticA: Bytes, staticB: Bytes, ephA: Bytes, ephB: Bytes, payloadA: Bytes, payloadB: Bytes)
    requires Lawful(cr) && !AllZeros(cr.pub(staticA))
    requires WriteBound(cr, staticA, cr.pub(staticA), cr.pub(staticB), ephA, payloadA).Some?
    ensures var m1 := WriteBound(cr, staticA, cr.pub(staticA), cr.pub(staticB), ephA, payloadA).value;
            var r1 := Read1(cr, staticB, cr.pub(staticB), m1.wire);
            && r1.Some? && r1.value.Bound? && r1.value.payload == payloadA && r1.value.initiator == cr.pub(staticA)
            && r1.value.pending.AtResponder?
            && Mirror(NewSessionChains(cr, m1.keys, true), NewSessionChains(cr, r1.value.keys, false))
            && (var m2 := Write2(cr, r1.value.pending, ephB, payloadB);
                m2.Some? ==>
                  && m2.value.tag == ReplyTag(cr, m1.pending.value.ck)
                  && Read2(cr, m1.pending.value, staticA, m2.value.wire) == Some((payloadB, m2.value.keys))
                  && Mirror(ReplyChains(cr, m2.value.keys, true), ReplyChains(cr, m2.value.keys, false)))
  {
    BoundAgreement(cr, staticA, staticB, ephA, payloadA);
    var m1 := WriteBound(cr, staticA, cr.pub(staticA), cr.pub(staticB), ephA, payloadA).value;
    var r1 := Read1(cr, staticB, cr.pub(staticB), m1.wire).value;
    if Write2(cr, r1.pending, ephB, payloadB).Some? {
      ReplyAgreement(cr, m1.pending.value, r1.pending, staticA, ephB, payloadB);
    }
  }

  // ----- the message functions, step by step on a symmetric state --------------------------------

  method InitNoiseIK(cr: Suite, responderPub: Bytes) returns (ns: SymmetricState)
    ensures fresh(ns) && ns.View() == Init(cr, responderPub)
  {
    var h := cr.hash(Ascii(PROTOCOL));
    ns := new SymmetricState(h, h);
    ns.MixHashWith(cr, []);
    ns.MixHashWith(cr, cr.hash(responderPub));
  }

  method WriteNoiseIKMessage1(cr: Suite, staticPriv: Bytes, staticPub: Bytes, responderPub: Bytes, eph: Bytes, payload: Bytes)
    returns (r: Option<Message1>)
    ensures r == WriteBound(cr, staticPriv, staticPub, responderPub, eph, payload)
  {
    var ns := InitNoiseIK(cr, responderPub);
    var encoded := cr.encode(cr.pub(eph));
    if encoded.None? { return None; }
    ns.MixHashWith(cr, encoded.value);
    var es := cr.dh(eph, responderPub);
    if es.None? { return None; }
    ns.MixKeyWith(cr, es.value);
    var c1 := ns.Encrypt(cr, staticPub);
    var ss := cr.dh(staticPriv, responderPub);
    if ss.None? { return None; }
    ns.MixKeyWith(cr, ss.value);
    var c2 := ns.Encrypt(cr, payload);
    return Some(Message1(encoded.value + c1 + c2, SessionKeysOf(cr, ns.ck), Some(AtInitiator(ns.h, ns.ck, eph))));
  }

  method WriteNoiseIKMessage1Unbound(cr: Suite, responderPub: Bytes, eph: Bytes, payload: Bytes) returns (r: Option<Message1>)
    ensures r == WriteUnbound(cr, responderPub, eph, payload)
  {
    var ns := InitNoiseIK(cr, responderPub);
    var encoded := cr.encode(cr.pub(eph));
    if encoded.None? { return None; }
    ns.MixHashWith(cr, encoded.value);
    var es := cr.dh(eph, responderPub);
    if es.None? { return None; }
    ns.MixKeyWith(cr, es.value);
    var c1 := ns.Encrypt(cr, Zeros(KEY));
    var c2 := ns.Encrypt(cr, payload);
    return Some(Message1(encoded.value + c1 + c2, SessionKeysOf(cr, ns.ck), None));
  }

  method IsAllZeros(b: Bytes) returns (r: bool)
    ensures r <==> AllZeros(b)
  {
    for i := 0 to |b|
      invariant forall j :: 0 <= j < i ==> b[j] == 0
    {
      if b[i] != 0 { return false; }
    }
    return true;
  }

  method ReadNoiseIKMessage1(cr: Suite, staticPriv: Bytes, staticPub: Bytes, msg: Bytes) returns (r: Option<Received>)
    ensures r == Read1(cr, staticPriv, staticPub, msg)
  {
    if |msg| < MIN_MESSAGE1 { return None; }
    var ns := InitNoiseIK(cr, staticPub);
    ns.MixHashWith(cr, msg[..KEY]);
    var ephPub := cr.decode(msg[..KEY]);
    if ephPub.None? { return None; }
    var es := cr.dh(staticPriv, ephPub.value);
    if es.None? { return None; }
    ns.MixKeyWith(cr, es.value);
    var initiator := ns.Decrypt(cr, msg[KEY..KEY + 48]);
    if initiator.None? { return None; }
    r := ReadPayloadSection(cr, ns, staticPriv, ephPub.value, initiator.value, msg[KEY + 48..]);
  }

  method ReadPayloadSection(cr: Suite, ns: SymmetricState, staticPriv: Bytes, ephPub: Bytes, initiator: Bytes, c: Bytes)
    returns (r: Option<Received>)
    modifies ns
    ensures r == ReadPayload(cr, old(ns.View()), staticPriv, ephPub, initiator, c)
  {
    var unbound := IsAllZeros(initiator);
    if unbound {
      var payload := ns.Decrypt(cr, c);
      if payload.None? { return None; }
      return Some(Unbound(payload.value, SessionKeysOf(cr, ns.ck)));
    }
    var ss := cr.dh(staticPriv, initiator);
    if ss.None? { return None; }
    ns.MixKeyWith(cr, ss.value);
    var payload := ns.Decrypt(cr, c);
    if payload.None? { return None; }
    return Some(Bound(payload.value, initiator, SessionKeysOf(cr, ns.ck), AtResponder(ns.h, ns.ck, ephPub, initiator)));
  }

  method WriteNoiseIKMessage2(cr: Suite, p: Pending, eph: Bytes, payload: Bytes) returns (r: Option<Message2>)
    requires p.AtResponder?
    ensures r == Write2(cr, p, eph, payload)
  {
    var tag := ReplyTag(cr, p.ck);
    var ns := new SymmetricState(p.h, p.ck);
    ns.MixHashWith(cr, tag);
    var encoded := cr.encode(cr.pub(eph));
    if encoded.None? { return None; }
    ns.MixHashWith(cr, encoded.value);
    var ee := cr.dh(eph, p.remoteEph);
    if ee.None? { return None; }
    ns.MixChainWith(cr, ee.value);
    var se := cr.dh(eph, p.remoteStatic);
    if se.None? { return None; }
    ns.MixKeyWith(cr, se.value);
    var mac := ns.Encrypt(cr, []);
    var keys := SplitKeys(cr, ns.ck);
    var c := cr.seal(PayloadKey(cr, keys), 0, ns.h, payload);
    return Some(Message2(tag, tag + encoded.value + mac + c, keys));
  }

  method ReadNoiseIKMessage2(cr: Suite, p: Pending, staticPriv: Bytes, msg: Bytes) returns (r: Option<(Bytes, ReplyKeys)>)
    requires p.AtInitiator?
    ensures r == Read2(cr, p, staticPriv, msg)
  {
    if |msg| < MIN_MESSAGE2 { return None; }
    var ns := new SymmetricState(p.h, p.ck);
    ns.MixHashWith(cr, msg[..8]);
    ns.MixHashWith(cr, msg[8..40]);
    var ephPub := cr.decode(msg[8..40]);
    if ephPub.None? { return None; }
    var ee := cr.dh(p.localEph, ephPub.value);
    if ee.None? { return None; }
    ns.MixChainWith(cr, ee.value);
    var se := cr.dh(staticPriv, ephPub.value);
    if se.None? { return None; }
    ns.MixKeyWith(cr, se.value);
    var mac := ns.Decrypt(cr, msg[40..56]);
    if mac.None? { return None; }
    var keys := SplitKeys(cr, ns.ck);
    var payload := cr.open(PayloadKey(cr, keys), 0, ns.h, msg[56..]);
    if payload.None? { return None; }
    return Some((payload.value, keys));
  }
}
