/** What the handshake messages are sealed under, written out in the primitives, and what an accepted message proves. */
module Transcript {
  import opened Common
  import opened Crypto
  import opened NoiseIK

  // ----- New Session -----------------------------------------------------------------------------

  function NameHash(cr: Suite): (r: Bytes) { cr.hash(Ascii("Noise_IKelg2+hs2_25519_ChaChaPoly_SHA256")) }

  /** Handshake hash over protocol name, empty prologue, hashed responder key and encoded ephemeral key. */
  function HashE(cr: Suite, responderPub: Bytes, encoded: Bytes): (r: Bytes) {
    cr.hash(cr.hash(cr.hash(NameHash(cr)) + cr.hash(responderPub)) + encoded)
  }

  /** Chaining key and cipher key once "es" is mixed in, and once "ss" is mixed in on top. */
  function KeysES(cr: Suite, es: Bytes): (r: (Bytes, Bytes)) { cr.hkdf2(NameHash(cr), es) }

  function KeysSS(cr: Suite, es: Bytes, ss: Bytes): (r: (Bytes, Bytes)) { cr.hkdf2(KeysES(cr, es).0, ss) }

  /** The static section: the sender's key, or zeros, under the "es" key, bound to the transcript so far. */
  function StaticSection(cr: Suite, responderPub: Bytes, encoded: Bytes, es: Bytes, static32: Bytes): (c: Bytes) {
    cr.seal(KeysES(cr, es).1, 0, HashE(cr, responderPub, encoded), static32)
  }

  predicate Derived(cr: Suite, keys: SessionKeys, ck: Bytes) {
    keys.root == cr.derive3(ck).0 && keys.sym == cr.derive3(ck).1 && keys.tag == cr.derive3(ck).2
  }

  lemma EmptyPrologue(cr: Suite)
    ensures NameHash(cr) + [] == NameHash(cr)
  {}

  /**
    A bound message can be written exactly if both secrets exist. Its static section is sealed under a key made from
    DH(e, rs), its payload under one made from DH(e, rs) and DH(s, rs), each bound to all that precedes it.
  */
  lemma BoundIsSealedUnderBothSecrets(cr: Suite, staticPriv: Bytes, staticPub: Bytes, responderPub: Bytes,
                                      eph: Bytes, payload: Bytes)
    ensures var m := WriteBound(cr, staticPriv, staticPub, responderPub, eph, payload);
            var (encoded, es, ss) := (cr.encode(cr.pub(eph)), cr.dh(eph, responderPub), cr.dh(staticPriv, responderPub));
            && (m.Some? <==> encoded.Some? && es.Some? && ss.Some?)
            && (m.Some? ==>
                  var c1 := StaticSection(cr, responderPub, encoded.value, es.value, staticPub);
                  var h := cr.hash(HashE(cr, responderPub, encoded.value) + c1);
                  var (ck, k) := KeysSS(cr, es.value, ss.value);
                  var c2 := cr.seal(k, 0, h, payload);
                  && m.value.wire == encoded.value + c1 + c2
                  && Derived(cr, m.value.keys, ck)
                  && m.value.pending == Some(AtInitiator(cr.hash(h + c2), ck, eph)))
  {
    EmptyPrologue(cr);
  }

  /** An unbound message knows DH(e, rs) only; its payload is the second message under that key. */
  lemma UnboundIsSealedUnderOneSecret(cr: Suite, responderPub: Bytes, eph: Bytes, payload: Bytes)
    ensures var m := WriteUnbound(cr, responderPub, eph, payload);
            var (encoded, es) := (cr.encode(cr.pub(eph)), cr.dh(eph, responderPub));
            && (m.Some? <==> encoded.Some? && es.Some?)
            && (m.Some? ==>
                  var c1 := StaticSection(cr, responderPub, encoded.value, es.value, Zeros(32));
                  var (ck, k) := KeysES(cr, es.value);
                  && m.value.wire ==
                     encoded.value + c1 + cr.seal(k, 1, cr.hash(HashE(cr, responderPub, encoded.value) + c1), payload)
                  && Derived(cr, m.value.keys, ck) && m.value.pending.None?)
  {
    EmptyPrologue(cr);
  }

  /** The message as the holder of the responder's key can take it apart: ephemeral key, "es" secret, static section. */
  predicate OpensStatic(cr: Suite, priv: Bytes, pub: Bytes, msg: Bytes, eph: Bytes, es: Bytes, static32: Bytes) {
    && |msg| >= 96 && cr.decode(msg[..32]) == Some(eph) && cr.dh(priv, eph) == Some(es)
    && cr.open(KeysES(cr, es).1, 0, HashE(cr, pub, msg[..32]), msg[32..80]) == Some(static32)
  }

  /** It is read as a bound message of `initiator`. */
  ghost predicate OpensBound(cr: Suite, priv: Bytes, pub: Bytes, msg: Bytes, es: Bytes, ss: Bytes, r: Received) {
    && r.Bound? && r.pending.AtResponder? && !AllZeros(r.initiator)
    && OpensStatic(cr, priv, pub, msg, r.pending.remoteEph, es, r.initiator)
    && cr.dh(priv, r.initiator) == Some(ss)
    && var h := cr.hash(HashE(cr, pub, msg[..32]) + msg[32..80]);
    && var (ck, k) := KeysSS(cr, es, ss);
    && cr.open(k, 0, h, msg[80..]) == Some(r.payload) && Derived(cr, r.keys, ck)
    && r.pending == AtResponder(cr.hash(h + msg[80..]), ck, r.pending.remoteEph, r.initiator)
  }

  ghost predicate OpensUnbound(cr: Suite, priv: Bytes, pub: Bytes, msg: Bytes, eph: Bytes, es: Bytes, static32: Bytes,
                               r: Received) {
    && r.Unbound? && AllZeros(static32) && OpensStatic(cr, priv, pub, msg, eph, es, static32)
    && var (ck, k) := KeysES(cr, es);
    && cr.open(k, 1, cr.hash(HashE(cr, pub, msg[..32]) + msg[32..80]), msg[80..]) == Some(r.payload)
    && Derived(cr, r.keys, ck)
  }

  /** What the reader accepts as bound: exactly the messages whose two sections open under the two secrets. */
  lemma ReadsBoundIff(cr: Suite, priv: Bytes, pub: Bytes, msg: Bytes, r: Received)
    requires r.Bound?
    ensures Read1(cr, priv, pub, msg) == Some(r) <==> exists es, ss :: OpensBound(cr, priv, pub, msg, es, ss, r)
  {
    EmptyPrologue(cr);
    if Read1(cr, priv, pub, msg) == Some(r) {
      var es := cr.dh(priv, cr.decode(msg[..32]).value).value;
      assert OpensBound(cr, priv, pub, msg, es, cr.dh(priv, r.initiator).value, r);
    }
  }

  /** And as unbound: those whose first section holds zeros and whose second opens as the next message under "es". */
  lemma ReadsUnboundIff(cr: Suite, priv: Bytes, pub: Bytes, msg: Bytes, r: Received)
    requires r.Unbound?
    ensures Read1(cr, priv, pub, msg) == Some(r) <==>
            exists eph, es, zeros :: OpensUnbound(cr, priv, pub, msg, eph, es, zeros, r)
  {
    EmptyPrologue(cr);
    if Read1(cr, priv, pub, msg) == Some(r) {
      var eph := cr.decode(msg[..32]).value;
      var es := cr.dh(priv, eph).value;
      var zeros := cr.open(KeysES(cr, es).1, 0, HashE(cr, pub, msg[..32]), msg[32..80]).value;
      assert OpensUnbound(cr, priv, pub, msg, eph, es, zeros, r);
    }
  }

  // ----- an accepted bound message was written ----------------------------------------------------

  /** One bound message somebody wrote, honest or not: the arguments of the call. */
  datatype Writing = Writing(staticPriv: Bytes, staticPub: Bytes, responderPub: Bytes, eph: Bytes, payload: Bytes)

  /** The strings a bound message feeds into hash and key derivation. */
  datatype Inputs = Inputs(responderPub: Bytes, encoded: Bytes, static48: Bytes, es: Bytes, ss: Bytes)

  function HashSE(cr: Suite, i: Inputs): (r: Bytes) { cr.hash(HashE(cr, i.responderPub, i.encoded) + i.static48) }

  ghost predicate Wrote(cr: Suite, w: Writing, i: Inputs) {
    && |w.staticPub| == 32 && i.responderPub == w.responderPub
    && cr.encode(cr.pub(w.eph)) == Some(i.encoded) && cr.dh(w.eph, w.responderPub) == Some(i.es)
    && cr.dh(w.staticPriv, w.responderPub) == Some(i.ss)
    && i.static48 == StaticSection(cr, w.responderPub, i.encoded, i.es, w.staticPub)
  }

  /** No collision between two messages, at any of the hashes and derivations they make. */
  predicate Apart(cr: Suite, a: Inputs, b: Inputs) {
    && (cr.hash(a.responderPub) == cr.hash(b.responderPub) ==> a.responderPub == b.responderPub)
    && var name := cr.hash(NameHash(cr));
    && var (beforeA, beforeB) := (name + cr.hash(a.responderPub), name + cr.hash(b.responderPub));
    && (cr.hash(beforeA) == cr.hash(beforeB) ==> beforeA == beforeB)
    && var (withA, withB) := (cr.hash(beforeA) + a.encoded, cr.hash(beforeB) + b.encoded);
    && (cr.hash(withA) == cr.hash(withB) ==> withA == withB)
    && var (allA, allB) := (cr.hash(withA) + a.static48, cr.hash(withB) + b.static48);
    && (cr.hash(allA) == cr.hash(allB) ==> allA == allB)
    && (KeysES(cr, a.es).0 == KeysES(cr, b.es).0 ==> a.es == b.es)
    && (KeysSS(cr, a.es, a.ss).1 == KeysSS(cr, b.es, b.ss).1 ==> KeysES(cr, a.es).0 == KeysES(cr, b.es).0 && a.ss == b.ss)
  }

  /** An ideal AEAD: a payload section that opens is one that somebody sealed, under that key and transcript. */
  ghost predicate SomebodySealed(cr: Suite, ws: set<Writing>, i: Inputs, c: Bytes) {
    cr.open(KeysSS(cr, i.es, i.ss).1, 0, HashSE(cr, i), c).Some? ==>
      exists w, j :: && w in ws && Wrote(cr, w, j)
                     && KeysSS(cr, j.es, j.ss).1 == KeysSS(cr, i.es, i.ss).1 && HashSE(cr, j) == HashSE(cr, i)
                     && c == cr.seal(KeysSS(cr, j.es, j.ss).1, 0, HashSE(cr, j), w.payload)
  }

  /** Equal suffixes of equal length: then the rest is equal too. */
  lemma SplitEqual(a: Bytes, x: Bytes, b: Bytes, y: Bytes)
    requires a + x == b + y && |x| == |y|
    ensures a == b && x == y
  {
    assert (a + x)[..|a|] == a && (b + y)[..|b|] == b;
    assert (a + x)[|a|..] == x && (b + y)[|b|..] == y;
  }

  /** Without collisions the payload key fixes both secrets. */
  lemma SecretsBind(cr: Suite, a: Inputs, b: Inputs)
    requires Apart(cr, a, b) && KeysSS(cr, a.es, a.ss).1 == KeysSS(cr, b.es, b.ss).1
    ensures a.es == b.es && a.ss == b.ss
  {}

  /** Without collisions the transcript hash fixes responder key, ephemeral key and static section. */
  lemma TranscriptBinds(cr: Suite, a: Inputs, b: Inputs)
    requires Apart(cr, a, b) && HashSE(cr, a) == HashSE(cr, b)
    requires |a.encoded| == |b.encoded| && |a.static48| == |b.static48|
    ensures a.responderPub == b.responderPub && a.encoded == b.encoded && a.static48 == b.static48
  {
    SplitEqual(HashE(cr, a.responderPub, a.encoded), a.static48, HashE(cr, b.responderPub, b.encoded), b.static48);
    var name := cr.hash(NameHash(cr));
    SplitEqual(cr.hash(name + cr.hash(a.responderPub)), a.encoded, cr.hash(name + cr.hash(b.responderPub)), b.encoded);
    var beforeA, beforeB := name + cr.hash(a.responderPub), name + cr.hash(b.responderPub);
    assert beforeA[|name|..] == cr.hash(a.responderPub) && beforeB[|name|..] == cr.hash(b.responderPub);
  }

  /** The strings of a received message that opened with these secrets. */
  function Seen(pub: Bytes, msg: Bytes, es: Bytes, ss: Bytes): (i: Inputs)
    requires |msg| >= 80
  {
    Inputs(pub, msg[..32], msg[32..80], es, ss)
  }

  lemma SameInputsSameWire(cr: Suite, w: Writing, j: Inputs, pub: Bytes, msg: Bytes)
    requires Lawful(cr) && Wrote(cr, w, j) && |msg| >= 80
    requires j == Seen(pub, msg, j.es, j.ss)
    requires msg[80..] == cr.seal(KeysSS(cr, j.es, j.ss).1, 0, HashSE(cr, j), w.payload)
    ensures var m := WriteBound(cr, w.staticPriv, w.staticPub, w.responderPub, w.eph, w.payload);
            m.Some? && m.value.wire == msg
  {
    BoundIsSealedUnderBothSecrets(cr, w.staticPriv, w.staticPub, w.responderPub, w.eph, w.payload);
    hide WriteBound;
    assert msg == msg[..32] + msg[32..80] + msg[80..];
  }

  /**
    Whatever arrives: if it is accepted as a bound message, then exactly these bytes were written for this responder,
    with this payload, naming this static key, by somebody who knew both secrets.
  */
  lemma AcceptedWasWritten(cr: Suite, ws: set<Writing>, priv: Bytes, pub: Bytes, msg: Bytes, r: Received, es: Bytes, ss: Bytes)
    returns (w: Writing)
    requires Lawful(cr) && Read1(cr, priv, pub, msg) == Some(r) && OpensBound(cr, priv, pub, msg, es, ss, r)
    requires SomebodySealed(cr, ws, Seen(pub, msg, es, ss), msg[80..])
    requires forall v <- ws, j :: Wrote(cr, v, j) ==> Apart(cr, Seen(pub, msg, es, ss), j)
    ensures w in ws && w.responderPub == pub && w.staticPub == r.initiator && w.payload == r.payload
    ensures cr.dh(w.eph, pub) == Some(es) && cr.dh(w.staticPriv, pub) == Some(ss)
    ensures var m := WriteBound(cr, w.staticPriv, w.staticPub, w.responderPub, w.eph, w.payload);
            m.Some? && m.value.wire == msg
  {
    hide Read1, WriteBound, Apart;
    var i := Seen(pub, msg, es, ss);
    var j;
    w, j :| && w in ws && Wrote(cr, w, j)
            && KeysSS(cr, j.es, j.ss).1 == KeysSS(cr, es, ss).1 && HashSE(cr, j) == HashSE(cr, i)
            && msg[80..] == cr.seal(KeysSS(cr, j.es, j.ss).1, 0, HashSE(cr, j), w.payload);
    SecretsBind(cr, i, j);
    TranscriptBinds(cr, i, j);
    SameInputsSameWire(cr, w, j, pub, msg);
  }

  /** The conditions are those of ordinary traffic: a message that was written, read by its responder, meets them. */
  lemma WrittenMeetsConditions(cr: Suite, staticPriv: Bytes, priv: Bytes, eph: Bytes, payload: Bytes)
    requires Lawful(cr) && !AllZeros(cr.pub(staticPriv))
    requires WriteBound(cr, staticPriv, cr.pub(staticPriv), cr.pub(priv), eph, payload).Some?
    ensures var (pub, w) := (cr.pub(priv), Writing(staticPriv, cr.pub(staticPriv), cr.pub(priv), eph, payload));
            var msg := WriteBound(cr, staticPriv, cr.pub(staticPriv), pub, eph, payload).value.wire;
            exists r, es, ss :: && Read1(cr, priv, pub, msg) == Some(r) && OpensBound(cr, priv, pub, msg, es, ss, r)
                                && SomebodySealed(cr, {w}, Seen(pub, msg, es, ss), msg[80..])
                                && forall j :: Wrote(cr, w, j) ==> Apart(cr, Seen(pub, msg, es, ss), j)
  {
    var pub := cr.pub(priv);
    var w := Writing(staticPriv, cr.pub(staticPriv), pub, eph, payload);
    BoundAgreement(cr, staticPriv, priv, eph, payload);
    BoundIsSealedUnderBothSecrets(cr, staticPriv, cr.pub(staticPriv), pub, eph, payload);
    var msg := WriteBound(cr, staticPriv, cr.pub(staticPriv), pub, eph, payload).value.wire;
    var r := Read1(cr, priv, pub, msg).value;
    hide Read1, WriteBound;
    ReadsBoundIff(cr, priv, pub, msg, r);
    var es, ss :| OpensBound(cr, priv, pub, msg, es, ss, r);
    var encoded := cr.encode(cr.pub(eph)).value;
    var c1 := StaticSection(cr, pub, encoded, cr.dh(eph, pub).value, cr.pub(staticPriv));
    Sections(encoded, c1, cr.seal(KeysSS(cr, cr.dh(eph, pub).value, cr.dh(staticPriv, pub).value).1, 0,
                                  cr.hash(HashE(cr, pub, encoded) + c1), payload));
    assert Wrote(cr, w, Seen(pub, msg, es, ss));
  }

  // ----- New Session Reply ----------------------------------------------------------------------

  /** First tag of the tag set that both ends derive from the chaining key of message 1. */
  function TagFor(cr: Suite, ck: Bytes): (t: Bytes) {
    var k := cr.hkdf(ck, cr.hkdf(ck, [], "SessionReplyTags").0, "KDFDHRatchetStep").1;
    cr.stepTag(cr.hkdf(k, [], "TagAndKeyGenKeys").0).0
  }

  /** Chaining key and cipher key after "ee", which has one output, and "se". */
  function KeysSE(cr: Suite, ck: Bytes, ee: Bytes, se: Bytes): (r: (Bytes, Bytes)) { cr.hkdf2(cr.hkdf1(ck, ee), se) }

  function HashReply(cr: Suite, h: Bytes, tag: Bytes, encoded: Bytes): (r: Bytes) { cr.hash(cr.hash(h + tag) + encoded) }

  /** One key each way, and the payload key made from the one that leads to the initiator. */
  predicate SplitInto(cr: Suite, ck: Bytes, keys: ReplyKeys) {
    keys.chain == ck && keys.ab == cr.hkdf2(ck, []).0 && keys.ba == cr.hkdf2(ck, []).1
  }

  function ReplyPayloadKey(cr: Suite, ck: Bytes): (k: Bytes) { cr.hkdf(cr.hkdf2(ck, []).1, [], "AttachPayloadKDF").0 }

  /**
    A reply can be written exactly if both secrets exist. Its MAC is made under "se" over "ee", its payload under the
    key split off for the direction to the initiator.
  */
  lemma ReplyIsSealedUnderBothSecrets(cr: Suite, p: Pending, eph: Bytes, payload: Bytes)
    requires p.AtResponder?
    ensures var m := Write2(cr, p, eph, payload);
            var (encoded, ee, se) := (cr.encode(cr.pub(eph)), cr.dh(eph, p.remoteEph), cr.dh(eph, p.remoteStatic));
            && (m.Some? <==> encoded.Some? && ee.Some? && se.Some?)
            && (m.Some? ==>
                  var (ck, k) := KeysSE(cr, p.ck, ee.value, se.value);
                  var h := HashReply(cr, p.h, TagFor(cr, p.ck), encoded.value);
                  var mac := cr.seal(k, 0, h, []);
                  && m.value.tag == TagFor(cr, p.ck) && SplitInto(cr, ck, m.value.keys)
                  && m.value.wire == m.value.tag + encoded.value + mac
                                     + cr.seal(ReplyPayloadKey(cr, ck), 0, cr.hash(h + mac), payload))
  {}

  ghost predicate OpensReply(cr: Suite, p: Pending, priv: Bytes, msg: Bytes, eph: Bytes, ee: Bytes, se: Bytes,
                             payload: Bytes, keys: ReplyKeys) {
    && p.AtInitiator? && |msg| >= 72 && cr.decode(msg[8..40]) == Some(eph)
    && cr.dh(p.localEph, eph) == Some(ee) && cr.dh(priv, eph) == Some(se)
    && var (ck, k) := KeysSE(cr, p.ck, ee, se);
    && var h := HashReply(cr, p.h, msg[..8], msg[8..40]);
    && cr.open(k, 0, h, msg[40..56]).Some? && SplitInto(cr, ck, keys)
    && cr.open(ReplyPayloadKey(cr, ck), 0, cr.hash(h + msg[40..56]), msg[56..]) == Some(payload)
  }

  /** What the initiator accepts as a reply, and the keys it takes from it. */
  lemma ReadsReplyIff(cr: Suite, p: Pending, priv: Bytes, msg: Bytes, payload: Bytes, keys: ReplyKeys)
    requires p.AtInitiator?
    ensures Read2(cr, p, priv, msg) == Some((payload, keys)) <==>
            exists eph, ee, se :: OpensReply(cr, p, priv, msg, eph, ee, se, payload, keys)
  {
    if Read2(cr, p, priv, msg) == Some((payload, keys)) {
      var eph := cr.decode(msg[8..40]).value;
      assert OpensReply(cr, p, priv, msg, eph, cr.dh(p.localEph, eph).value, cr.dh(priv, eph).value, payload, keys);
    }
  }

  // ----- an accepted reply was written -------------------------------------------------------------

  /** One reply somebody wrote: the state it answers, and the other arguments of the call. */
  datatype Replying = Replying(h: Bytes, ck: Bytes, remoteEph: Bytes, remoteStatic: Bytes, eph: Bytes, payload: Bytes)

  datatype ReplyInputs = ReplyInputs(h: Bytes, ck: Bytes, tag: Bytes, encoded: Bytes, mac: Bytes, ee: Bytes, se: Bytes)

  function HashMac(cr: Suite, i: ReplyInputs): (r: Bytes) { cr.hash(HashReply(cr, i.h, i.tag, i.encoded) + i.mac) }

  function PayloadKeyFrom(cr: Suite, i: ReplyInputs): (k: Bytes) { ReplyPayloadKey(cr, KeysSE(cr, i.ck, i.ee, i.se).0) }

  ghost predicate WroteReply(cr: Suite, w: Replying, i: ReplyInputs) {
    && i.h == w.h && i.ck == w.ck && i.tag == TagFor(cr, w.ck)
    && cr.encode(cr.pub(w.eph)) == Some(i.encoded)
    && cr.dh(w.eph, w.remoteEph) == Some(i.ee) && cr.dh(w.eph, w.remoteStatic) == Some(i.se)
    && i.mac == cr.seal(KeysSE(cr, w.ck, i.ee, i.se).1, 0, HashReply(cr, w.h, i.tag, i.encoded), [])
  }

  /** No collision between two replies. */
  predicate RepliesApart(cr: Suite, a: ReplyInputs, b: ReplyInputs) {
    && (cr.hash(a.h + a.tag) == cr.hash(b.h + b.tag) ==> a.h + a.tag == b.h + b.tag)
    && var (withA, withB) := (cr.hash(a.h + a.tag) + a.encoded, cr.hash(b.h + b.tag) + b.encoded);
    && (cr.hash(withA) == cr.hash(withB) ==> withA == withB)
    && (HashMac(cr, a) == HashMac(cr, b) ==> cr.hash(withA) + a.mac == cr.hash(withB) + b.mac)
    && (PayloadKeyFrom(cr, a) == PayloadKeyFrom(cr, b) ==> a.ck == b.ck && a.ee == b.ee && a.se == b.se)
  }

  ghost predicate SomebodyReplied(cr: Suite, ws: set<Replying>, i: ReplyInputs, c: Bytes) {
    cr.open(PayloadKeyFrom(cr, i), 0, HashMac(cr, i), c).Some? ==>
      exists w, j :: && w in ws && WroteReply(cr, w, j)
                     && PayloadKeyFrom(cr, j) == PayloadKeyFrom(cr, i) && HashMac(cr, j) == HashMac(cr, i)
                     && c == cr.seal(PayloadKeyFrom(cr, j), 0, HashMac(cr, j), w.payload)
  }

  function SeenReply(p: Pending, msg: Bytes, ee: Bytes, se: Bytes): (i: ReplyInputs)
    requires |msg| >= 56
  {
    ReplyInputs(p.h, p.ck, msg[..8], msg[8..40], msg[40..56], ee, se)
  }

  lemma ReplyBinds(cr: Suite, a: ReplyInputs, b: ReplyInputs)
    requires RepliesApart(cr, a, b) && HashMac(cr, a) == HashMac(cr, b)
    requires |a.tag| == |b.tag| && |a.encoded| == |b.encoded| && |a.mac| == |b.mac|
    ensures a.h == b.h && a.tag == b.tag && a.encoded == b.encoded && a.mac == b.mac
  {
    var (x, y) := (cr.hash(a.h + a.tag), cr.hash(b.h + b.tag));
    SplitEqual(cr.hash(x + a.encoded), a.mac, cr.hash(y + b.encoded), b.mac);
    SplitEqual(x, a.encoded, y, b.encoded);
    SplitEqual(a.h, a.tag, b.h, b.tag);
  }

  lemma FourParts(msg: Bytes)
    requires |msg| >= 56
    ensures msg == msg[..8] + msg[8..40] + msg[40..56] + msg[56..]
  {
    assert msg[..40] == msg[..8] + msg[8..40];
    assert msg[..56] == msg[..40] + msg[40..56];
  }

  lemma SameInputsSameReply(cr: Suite, w: Replying, j: ReplyInputs, p: Pending, msg: Bytes)
    requires WroteReply(cr, w, j) && |msg| >= 56 && j == SeenReply(p, msg, j.ee, j.se)
    requires msg[56..] == cr.seal(PayloadKeyFrom(cr, j), 0, HashMac(cr, j), w.payload)
    ensures var m := Write2(cr, AtResponder(w.h, w.ck, w.remoteEph, w.remoteStatic), w.eph, w.payload);
            m.Some? && m.value.wire == msg
  {
    hide Write2, TagFor, KeysSE, HashReply, ReplyPayloadKey, SplitInto;
    ReplyIsSealedUnderBothSecrets(cr, AtResponder(w.h, w.ck, w.remoteEph, w.remoteStatic), w.eph, w.payload);
    FourParts(msg);
  }

  lemma ReplySizes(cr: Suite, w: Replying, j: ReplyInputs)
    requires Lawful(cr) && WroteReply(cr, w, j)
    ensures |j.tag| == 8 && |j.encoded| == 32 && |j.mac| == 16
    ensures var c := cr.seal(PayloadKeyFrom(cr, j), 0, HashMac(cr, j), w.payload);
            cr.open(PayloadKeyFrom(cr, j), 0, HashMac(cr, j), c) == Some(w.payload)
  {}

  lemma ReplySecretsBind(cr: Suite, a: ReplyInputs, b: ReplyInputs)
    requires RepliesApart(cr, a, b) && PayloadKeyFrom(cr, a) == PayloadKeyFrom(cr, b)
    ensures a.ck == b.ck && a.ee == b.ee && a.se == b.se
  {}

  /**
    If the initiator accepts a reply, exactly these bytes were written in answer to this very New Session message, with
    this payload, by somebody who knew both secrets.
  */
  lemma AcceptedReplyWasWritten(cr: Suite, ws: set<Replying>, p: Pending, priv: Bytes, msg: Bytes, eph: Bytes,
                                ee: Bytes, se: Bytes, payload: Bytes, keys: ReplyKeys) returns (w: Replying)
    requires Lawful(cr) && p.AtInitiator? && Read2(cr, p, priv, msg) == Some((payload, keys))
    requires OpensReply(cr, p, priv, msg, eph, ee, se, payload, keys)
    requires SomebodyReplied(cr, ws, SeenReply(p, msg, ee, se), msg[56..])
    requires forall v <- ws, j :: WroteReply(cr, v, j) ==> RepliesApart(cr, SeenReply(p, msg, ee, se), j)
    ensures w in ws && w.h == p.h && w.ck == p.ck && w.payload == payload
    ensures cr.dh(w.eph, w.remoteEph) == Some(ee) && cr.dh(w.eph, w.remoteStatic) == Some(se)
    ensures var m := Write2(cr, AtResponder(w.h, w.ck, w.remoteEph, w.remoteStatic), w.eph, w.payload);
            m.Some? && m.value.wire == msg
  {
    hide Read2, Write2, RepliesApart, Lawful, TagFor, KeysSE, ReplyPayloadKey, SplitInto;
    var i := SeenReply(p, msg, ee, se);
    var j;
    w, j :| && w in ws && WroteReply(cr, w, j)
            && PayloadKeyFrom(cr, j) == PayloadKeyFrom(cr, i) && HashMac(cr, j) == HashMac(cr, i)
            && msg[56..] == cr.seal(PayloadKeyFrom(cr, j), 0, HashMac(cr, j), w.payload);
    ReplySizes(cr, w, j);
    ReplySecretsBind(cr, i, j);
    ReplyBinds(cr, i, j);
    SameInputsSameReply(cr, w, j, p, msg);
  }

  lemma TagSize(cr: Suite, ck: Bytes)
    requires Lawful(cr)
    ensures |TagFor(cr, ck)| == 8
  {}

  /** A reply that was written, read by the initiator it answers, meets these conditions. */
  lemma WrittenReplyMeetsConditions(cr: Suite, p: Pending, priv: Bytes, eph: Bytes, payload: Bytes)
    requires Lawful(cr) && p.AtInitiator?
    requires Write2(cr, AtResponder(p.h, p.ck, cr.pub(p.localEph), cr.pub(priv)), eph, payload).Some?
    ensures var w := Replying(p.h, p.ck, cr.pub(p.localEph), cr.pub(priv), eph, payload);
            var m := Write2(cr, AtResponder(p.h, p.ck, cr.pub(p.localEph), cr.pub(priv)), eph, payload).value;
            exists e, ee, se :: && Read2(cr, p, priv, m.wire) == Some((payload, m.keys))
                                && OpensReply(cr, p, priv, m.wire, e, ee, se, payload, m.keys)
                                && SomebodyReplied(cr, {w}, SeenReply(p, m.wire, ee, se), m.wire[56..])
                                && forall j :: WroteReply(cr, w, j) ==> RepliesApart(cr, SeenReply(p, m.wire, ee, se), j)
  {
    var b := AtResponder(p.h, p.ck, cr.pub(p.localEph), cr.pub(priv));
    var w := Replying(p.h, p.ck, cr.pub(p.localEph), cr.pub(priv), eph, payload);
    var m := Write2(cr, b, eph, payload).value;
    ReplyAgreement(cr, p, b, priv, eph, payload);
    ReplyIsSealedUnderBothSecrets(cr, b, eph, payload);
    hide Read2, Write2, TagFor, KeysSE, ReplyPayloadKey, HashReply;
    ReadsReplyIff(cr, p, priv, m.wire, payload, m.keys);
    var e, ee, se :| OpensReply(cr, p, priv, m.wire, e, ee, se, payload, m.keys);
    var encoded := cr.encode(cr.pub(eph)).value;
    var (ck, k) := KeysSE(cr, p.ck, cr.dh(eph, b.remoteEph).value, cr.dh(eph, b.remoteStatic).value);
    var h := HashReply(cr, p.h, m.tag, encoded);
    var mac := cr.seal(k, 0, h, []);
    TagSize(cr, p.ck);
    ReplySections(m.tag, encoded, mac, cr.seal(ReplyPayloadKey(cr, ck), 0, cr.hash(h + mac), payload));
    assert WroteReply(cr, w, SeenReply(p, m.wire, ee, se));
  }

  // ----- directions -----------------------------------------------------------------------------

  /** Seeds of one direction: tags from the first output, message keys from the second. */
  predicate SendsOn(cr: Suite, c: Chains, k: Bytes) {
    c.sendTag == cr.derive2(k, "TagAndKeyGenKeys").0 && c.sendKey == cr.derive2(k, "TagAndKeyGenKeys").1
  }

  predicate ReceivesOn(cr: Suite, c: Chains, k: Bytes) {
    c.recvTag == cr.derive2(k, "TagAndKeyGenKeys").0 && c.recvKey == cr.derive2(k, "TagAndKeyGenKeys").1
  }

  /** After the reply the initiator sends on the first split key and receives on the second, the responder inversely. */
  lemma ReplyDirections(cr: Suite, keys: ReplyKeys, ck: Bytes)
    requires SplitInto(cr, ck, keys)
    ensures var (ab, ba) := cr.hkdf2(ck, []);
            && SendsOn(cr, ReplyChains(cr, keys, true), ab) && ReceivesOn(cr, ReplyChains(cr, keys, true), ba)
            && SendsOn(cr, ReplyChains(cr, keys, false), ba) && ReceivesOn(cr, ReplyChains(cr, keys, false), ab)
  {}

  /** Before the reply, root and tag key are each split in two; the initiator sends on the first halves. */
  lemma NewSessionDirections(cr: Suite, keys: SessionKeys, ck: Bytes)
    requires Derived(cr, keys, ck)
    ensures var root := cr.derive2(cr.derive3(ck).0, "KDFDHRatchetStep");
            var tag := cr.derive2(cr.derive3(ck).2, "KDFDHRatchetStep");
            && NewSessionChains(cr, keys, true) == Chains(root.0, tag.0, root.1, tag.1)
            && NewSessionChains(cr, keys, false) == Chains(root.1, tag.1, root.0, tag.0)
  {}

  /** Distinct inputs give distinct outputs at every step of the symmetric ratchet. */
  ghost predicate StepsApart(cr: Suite) {
    forall a, b, n :: a != b ==> cr.stepKey(a, n).0 != cr.stepKey(b, n).0 && cr.stepKey(a, n).1 != cr.stepKey(b, n).1
  }

  ghost predicate SeedsApart(cr: Suite) {
    forall a, b :: a != b ==> && cr.derive2(a, "TagAndKeyGenKeys").0 != cr.derive2(b, "TagAndKeyGenKeys").0
                              && cr.derive2(a, "TagAndKeyGenKeys").1 != cr.derive2(b, "TagAndKeyGenKeys").1
  }

  lemma {:induction false} KeysStayApart(cr: Suite, a: Bytes, b: Bytes, n: nat)
    requires StepsApart(cr) && a != b
    ensures KeyChainAt(cr, a, n) != KeyChainAt(cr, b, n) && KeyAt(cr, a, n) != KeyAt(cr, b, n)
  {
    if n > 1 { KeysStayApart(cr, a, b, n - 1); }
  }

  /**
    If the two split keys differ and their seeds do not collide, the two directions of a session never share a message
    key under one message number, nor a seed of the tag sets.
  */
  lemma DirectionsStayApart(cr: Suite, keys: ReplyKeys, ck: Bytes, isInitiator: bool, n: nat)
    requires StepsApart(cr) && SeedsApart(cr) && SplitInto(cr, ck, keys) && cr.hkdf2(ck, []).0 != cr.hkdf2(ck, []).1
    ensures var c := ReplyChains(cr, keys, isInitiator);
            KeyAt(cr, c.sendKey, n) != KeyAt(cr, c.recvKey, n) && c.sendTag != c.recvTag
  {
    ReplyDirections(cr, keys, ck);
    var c := ReplyChains(cr, keys, isInitiator);
    KeysStayApart(cr, c.sendKey, c.recvKey, n);
  }

  /** These conditions go together with the laws. */
  lemma ApartIsConsistent(ck: Bytes)
    ensures var cr := ModelSuite().(hkdf2 := (a, b) => ([0], [1]), derive2 := (k, l) => (k, k));
            Lawful(cr) && StepsApart(cr) && SeedsApart(cr) && cr.hkdf2(ck, []).0 != cr.hkdf2(ck, []).1
  {
    LawsAreConsistent();
    var zero: Bytes, one: Bytes := [0], [1];
    assert zero[0] != one[0];
  }
}
