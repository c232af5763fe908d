/** A concrete suite and session in which every hypothesis of the session theorems holds and messages flow both ways. */
module Witness {
  import opened Common
  import opened Crypto
  import opened SendChain
  import opened NoiseIK
  import opened Lockstep
  import opened EndToEnd
  import Duplex

  lemma {:induction false} ModelTagChain(seed: Bytes, n: nat)
    ensures |TagChainAt(ModelSuite(), seed, n)| == |seed| + if n <= 1 then 0 else n - 1
  {
    if n > 1 { ModelTagChain(seed, n - 1); }
  }

  lemma ModelTag(seed: Bytes, n: nat)
    requires n >= 1
    ensures TagAt(ModelSuite(), seed, n) == NumberTag(|seed| + n - 1)
  {
    hide NumberTag;
    ModelTagChain(seed, n);
  }

  /** The model's tags of one chain differ. */
  lemma ModelTagsDistinct(ep: Epoch)
    requires |ep.tagSeed| + ep.limit < U64
    ensures TagsDistinct(ModelSuite(), ep)
  {
    hide NumberTag, ModelSuite;
    forall c: nat, d: nat | 1 <= c < d <= ep.limit
      ensures Tags(ModelSuite(), ep)(c) != Tags(ModelSuite(), ep)(d)
    {
      ModelTag(ep.tagSeed, c);
      ModelTag(ep.tagSeed, d);
      var x, y := |ep.tagSeed| + c - 1, |ep.tagSeed| + d - 1;
      if NumberTag(x) == NumberTag(y) { NumberTagInjective(x, y); }
    }
  }

  /** The model's first message opens under its own key only. */
  lemma ModelUnforged(ep: Epoch, m: Sealed)
    requires m.number == 1
    ensures OnlyOwnKeyOpens(ModelSuite(), ep, m)
  {
    var cr := ModelSuite();
    forall c: nat | cr.open(KeyAt(cr, ep.keySeed, c), c, m.tag, BodyOf(cr, m)).Some?
      ensures c == m.number
    {
      ModelOpens(KeyAt(cr, ep.keySeed, c), 1, m.tag, PayloadOf(m), c);
    }
  }

  /** In the model every handshake succeeds, with 32-byte chain seeds. */
  lemma ModelHandshake(staticA: Bytes, staticB: Bytes, ephA: Bytes, ephB: Bytes, payloadA: Bytes, payloadB: Bytes)
    ensures !AllZeros(ModelSuite().pub(staticA))
    ensures var r := Handshake(ModelSuite(), staticA, staticB, ephA, ephB, payloadA, payloadB);
            r.Some? && |r.value.0.sendTag| == |r.value.1.sendTag| == 32
  {
    var cr := ModelSuite();
    LawsAreConsistent();
    assert cr.pub(staticA)[0] == 1;
    assert |cr.pub(ephA)| == 32 && |cr.pub(ephB)| == 32;
    assert WriteBound(cr, staticA, cr.pub(staticA), cr.pub(staticB), ephA, payloadA).Some?;
    HandshakeAgreement(cr, staticA, staticB, ephA, ephB, payloadA, payloadB);
    hide WriteBound, Read1, Read2;
  }

  /** A session that has just taken its handshake state. */
  function Taken(initiator: bool): (h: History) {
    SendChain.Run(ModelSuite(), SendChain.Begin(Start(initiator, [], [])), [TakeHandshake])
  }

  lemma TakenIsReplying(initiator: bool)
    ensures Replying(ModelSuite(), Taken(initiator), initiator) && Taken(initiator).s.dhCounter == 0
  {
    var h := SendChain.Begin(Start(initiator, [], []));
    var es := [TakeHandshake];
    assert es[..0] == [] && SendChain.Run(ModelSuite(), h, []) == h;
    assert Taken(initiator) == SendChain.Step(ModelSuite(), h, TakeHandshake);
  }

  /**
    For all keys and payloads: the model's session meets every hypothesis of `SessionIsExact`, and it has a run in which
    both ends have accepted a message of the other.
  */
  lemma BothDirectionsCarryMessages(staticA: Bytes, staticB: Bytes, ephA: Bytes, ephB: Bytes, payloadA: Bytes, payloadB: Bytes,
                                    x: Bytes, y: Bytes)
    returns (moves: seq<Duplex.Move>, end: Duplex.Pair)
    ensures Lawful(ModelSuite()) && !AllZeros(ModelSuite().pub(staticA))
    ensures Handshake(ModelSuite(), staticA, staticB, ephA, ephB, payloadA, payloadB).Some?
    ensures Replying(ModelSuite(), Taken(true), true) && Replying(ModelSuite(), Taken(false), false)
    ensures var (a, b) := Handshake(ModelSuite(), staticA, staticB, ephA, ephB, payloadA, payloadB).value;
            var none := Leftovers(map[], [], []);
            && TagsDistinct(ModelSuite(), EpochOf(a, MAX_MESSAGE)) && Stale(ModelSuite(), EpochOf(a, MAX_MESSAGE), none)
            && TagsDistinct(ModelSuite(), EpochOf(b, MAX_MESSAGE)) && Stale(ModelSuite(), EpochOf(b, MAX_MESSAGE), none)
            && Duplex.Run(ModelSuite(), EpochsOf(a, b, MAX_MESSAGE),
                          Session(ModelSuite(), Taken(true), Taken(false), a, b, none, none), moves, end)
    ensures end.ab.accepted == [(1, x)] && end.ba.accepted == [(1, y)]
  {
    var cr := ModelSuite();
    LawsAreConsistent();
    ModelHandshake(staticA, staticB, ephA, ephB, payloadA, payloadB);
    hide Handshake, ModelSuite, TagsDistinct, Duplex.Run, Replying;
    var (a, b) := Handshake(cr, staticA, staticB, ephA, ephB, payloadA, payloadB).value;
    var none, es := Leftovers(map[], [], []), EpochsOf(a, b, MAX_MESSAGE);
    ModelTagsDistinct(es.ab);
    ModelTagsDistinct(es.ba);
    TakenIsReplying(true);
    TakenIsReplying(false);
    HandshakeMirrors(cr, staticA, staticB, ephA, ephB, payloadA, payloadB);
    HandshakeEstablishes(cr, a, b, Taken(true), Taken(false), none, none, MAX_MESSAGE);
    var p := Session(cr, Taken(true), Taken(false), a, b, none, none);
    ReplyInstalls(cr, Taken(true), true, a);
    ReplyInstalls(cr, Taken(false), false, b);
    ModelUnforged(es.ab, FirstMessage(cr, p.ab.sender, x));
    ModelUnforged(es.ba, FirstMessage(cr, p.ba.sender, y));
    moves, end := Duplex.BothFirstMessagesArrive(cr, es, p, x, y);
    assert PayloadOf(FirstMessage(cr, p.ab.sender, x)) == x && PayloadOf(FirstMessage(cr, p.ba.sender, y)) == y;
  }
}
