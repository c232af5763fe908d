/** Which chain, tag and key every sealed message belongs to, over every run of the sending side. */
module SendKeys {
  import opened Common
  import opened Crypto
  import opened SendChain
  import opened Payload

  /** What a chain was installed with. */
  datatype Seeds = Seeds(key: Bytes, tag: Bytes)

  /** One call that got as far as deriving a key: chain, message number, acknowledgments queued before it, and outcome. */
  datatype Draw = Draw(chain: ChainId, number: nat, acks: seq<AckEntry>, out: Option<Sealed>)

  /** Chains installed, calls that derived a key, acknowledgments asked for, and key announcements made. */
  datatype Trace = Trace(
    origins: map<ChainId, Seeds>, draws: seq<Draw>, requested: seq<AckEntry>, announced: seq<NextKeyInfo>)

  predicate Derives(s: Sender, rot: Option<Rotation>) {
    !Gated(s) && s.counter < MAX_MESSAGE && AttemptRotation(s, rot).1
  }

  /** The trace as it is once a rotation, if there was one, has brought its chain. */
  ghost function WithChain(t: Trace, s: Sender, r: Sender, rot: Option<Rotation>): (t': Trace) {
    if rot.Some? && r.keyId != s.keyId
    then t.(origins := t.origins[Rotated(s.keyId) := Seeds(rot.value.keySeed, rot.value.tagSeed)],
            announced := t.announced + [NextKeyInfo(false, true, s.keyId, Some(rot.value.publicKey))])
    else t
  }

  /** What the events of a run say about chains and acknowledgments, next to the state they lead to. */
  ghost function TraceStep(t: Trace, h: History, e: Event, after: History): (r: Trace) {
    match e
    case Send(_, rot, _) =>
      var out := if |after.sealed| > |h.sealed| then Some(Last(after.sealed)) else None;
      var t' := WithChain(t, h.s, after.s, rot);
      if Derives(h.s, rot) then t'.(draws := t'.draws + [Draw(after.s.chain, h.s.counter, h.s.acks, out)]) else t'
    case InstallReply(keySeed, tagSeed) =>
      if h.inFlight == 0 then t else t.(origins := t.origins[Reply := Seeds(keySeed, tagSeed)])
    case AckRequested(keyId, n) => t.(requested := t.requested + [AckEntry(keyId, n)])
    case ReverseRequested(publicKey) =>
      if after.s.keyId == h.s.keyId then t
      else t.(announced := t.announced + [NextKeyInfo(true, false, h.s.keyId, publicKey)])
    case _ => t
  }

  ghost function RunFrom(cr: Suite, isInitiator: bool, seeds: Seeds, es: seq<Event>): (h: History) {
    Run(cr, Begin(Start(isInitiator, seeds.key, seeds.tag)), es)
  }

  ghost function Traced(cr: Suite, isInitiator: bool, seeds: Seeds, es: seq<Event>): (t: Trace) {
    if es == [] then Trace(map[NewSession := seeds], [], [], [])
    else TraceStep(Traced(cr, isInitiator, seeds, Front(es)), RunFrom(cr, isInitiator, seeds, Front(es)), Last(es),
                   RunFrom(cr, isInitiator, seeds, es))
  }

  // ----- chain positions --------------------------------------------------------------------------

  /** Message numbers of the calls made on one chain. */
  function NumbersOn(draws: seq<Draw>, c: ChainId): (ns: seq<nat>) {
    if draws == [] then []
    else NumbersOn(Front(draws), c) + if Last(draws).chain == c then [Last(draws).number] else []
  }

  function FailedOn(draws: seq<Draw>, c: ChainId): (n: nat) {
    if draws == [] then 0
    else FailedOn(Front(draws), c) + if Last(draws).chain == c && Last(draws).out.None? then 1 else 0
  }

  /** The chain key once keys for these message numbers were derived. */
  function KeyAfter(cr: Suite, seed: Bytes, numbers: seq<nat>): (k: Bytes) {
    if numbers == [] then seed else cr.stepKey(KeyAfter(cr, seed, Front(numbers)), Last(numbers)).1
  }

  function Outs(draws: seq<Draw>): (ms: seq<Sealed>) {
    if draws == [] then [] else Outs(Front(draws)) + if Last(draws).out.Some? then [Last(draws).out.value] else []
  }

  function AcksOf(draws: seq<Draw>): (acks: seq<AckEntry>) {
    if draws == [] then [] else AcksOf(Front(draws)) + Last(draws).acks
  }

  lemma Snoc(draws: seq<Draw>, d: Draw)
    ensures Front(draws + [d]) == draws && Last(draws + [d]) == d
  {}

  /** The message is the one that belongs there: own number, next tag, and key of the chain after all calls before it. */
  ghost predicate Belongs(cr: Suite, seeds: Seeds, before: seq<Draw>, d: Draw) {
    d.out.Some? ==>
      var (m, numbers) := (d.out.value, NumbersOn(before, d.chain));
      && m.chain == d.chain && m.number == d.number && m.acks == d.acks
      && m.tag == TagAt(cr, seeds.tag, |numbers| + 1)
      && m.key == cr.stepKey(KeyAfter(cr, seeds.key, numbers), d.number).0
  }

  ghost predicate AllBelong(cr: Suite, t: Trace) {
    forall i :: 0 <= i < |t.draws| ==>
      t.draws[i].chain in t.origins && Belongs(cr, t.origins[t.draws[i].chain], t.draws[..i], t.draws[i])
  }

  /** Chains of the past are not installed again. */
  predicate Past(h: History, c: ChainId) {
    match c
    case NewSession => true
    case Reply => h.replied
    case Rotated(id) => id < h.s.keyId
  }

  ghost predicate PastOnly(h: History, t: Trace) {
    && (forall c <- t.origins :: Past(h, c))
    && (forall d <- t.draws :: d.chain in t.origins)
  }

  /** The session stands on its chain where the calls made on it have led. */
  ghost predicate Stands(cr: Suite, s: Sender, t: Trace) {
    && s.chain in t.origins
    && s.keyChain == KeyAfter(cr, t.origins[s.chain].key, NumbersOn(t.draws, s.chain))
    && s.tagChain == TagChainAt(cr, t.origins[s.chain].tag, |NumbersOn(t.draws, s.chain)| + 1)
  }

  /**
    Every message and every acknowledgment is accounted for, in order. Queued are exactly the announcements: a rotation
    makes a forward one that asks for a reverse key, which is awaited from then on, a request makes a reverse one.
  */
  ghost predicate Ledger(h: History, t: Trace) {
    && Outs(t.draws) == h.sealed && h.queued == t.announced
    && AcksOf(t.draws) + h.s.acks == t.requested
    && (h.s.awaitingReverse <==> exists c :: c in t.origins && c.Rotated?)
  }

  ghost predicate Kept(cr: Suite, h: History, t: Trace) {
    PastOnly(h, t) && Stands(cr, h.s, t) && AllBelong(cr, t) && Ledger(h, t)
  }

  // ----- one call -----------------------------------------------------------------------------------

  /** The chain a call works on: the old one, or the one the rotation brought. */
  ghost predicate Moved(s: Sender, r: Sender, rot: Option<Rotation>) {
    && r.counter == s.counter && r.acks == s.acks
    && (r.keyId == s.keyId ==> && r.chain == s.chain && r.keyChain == s.keyChain && r.tagChain == s.tagChain
                               && r.awaitingReverse == s.awaitingReverse)
    && (r.keyId != s.keyId ==> && rot.Some? && r.keyId == s.keyId + 1 && r.chain == Rotated(s.keyId) && r.awaitingReverse
                               && r.keyChain == rot.value.keySeed && r.tagChain == rot.value.tagSeed)
  }

  lemma RotationMoves(s: Sender, rot: Option<Rotation>)
    ensures Moved(s, AttemptRotation(s, rot).0, rot)
    ensures !AttemptRotation(s, rot).1 ==> AttemptRotation(s, rot).0.keyId == s.keyId
  {}

  /** A call that derives a key takes one step on that chain, and seals with what it derived. */
  ghost predicate Stepped(cr: Suite, r: Sender, after: Sender, out: Option<Sealed>) {
    && after.chain == r.chain && after.keyId == r.keyId && after.awaitingReverse == r.awaitingReverse && after.acks == []
    && after.keyChain == cr.stepKey(r.keyChain, r.counter).1 && after.tagChain == cr.stepTag(r.tagChain).1
    && (out.Some? ==>
          && out.value.chain == r.chain && out.value.number == r.counter && out.value.acks == r.acks
          && out.value.key == cr.stepKey(r.keyChain, r.counter).0 && out.value.tag == cr.stepTag(r.tagChain).0)
  }

  lemma CallSteps(cr: Suite, s: Sender, plaintext: Bytes, rot: Option<Rotation>, sealOk: bool)
    ensures var (after, out) := Encrypt(cr, s, plaintext, rot, sealOk);
            if Derives(s, rot) then Stepped(cr, AttemptRotation(s, rot).0, after, out)
            else out.None? && Moved(s, after, rot) && after.keyId == s.keyId
  {
    RotationMoves(s, rot);
    hide AttemptRotation;
  }

  lemma {:induction false} UnusedChain(draws: seq<Draw>, c: ChainId)
    requires forall d <- draws :: d.chain != c
    ensures NumbersOn(draws, c) == []
  {
    if draws != [] {
      assert Last(draws) in draws && forall d <- Front(draws) :: d in draws;
      UnusedChain(Front(draws), c);
    }
  }

  /** A rotation brings a chain nobody has used, and the session stands at its start. */
  lemma RotationStands(cr: Suite, h: History, r: Sender, rot: Option<Rotation>, t: Trace)
    requires PastOnly(h, t) && Stands(cr, h.s, t) && AllBelong(cr, t) && Moved(h.s, r, rot)
    ensures var t' := WithChain(t, h.s, r, rot);
            && Stands(cr, r, t') && AllBelong(cr, t') && (forall d <- t.draws :: d.chain in t'.origins)
            && (forall c <- t'.origins :: Past(h.(s := r), c))
  {
    hide Belongs;
    if r.keyId != h.s.keyId { UnusedChain(t.draws, Rotated(h.s.keyId)); }
  }

  /** The step a call takes on its chain. */
  lemma DrawBelongs(cr: Suite, r: Sender, after: Sender, out: Option<Sealed>, t: Trace)
    requires Stands(cr, r, t) && AllBelong(cr, t) && Stepped(cr, r, after, out)
    ensures var t' := t.(draws := t.draws + [Draw(after.chain, r.counter, r.acks, out)]);
            Stands(cr, after, t') && AllBelong(cr, t')
  {
    var d := Draw(after.chain, r.counter, r.acks, out);
    var numbers := NumbersOn(t.draws, r.chain);
    Snoc(t.draws, d);
    assert Front(numbers + [r.counter]) == numbers && Last(numbers + [r.counter]) == r.counter;
    var draws := t.draws + [d];
    assert Belongs(cr, t.origins[r.chain], t.draws, d);
    hide Belongs;
    forall i | 0 <= i < |draws|
      ensures draws[i].chain in t.origins && Belongs(cr, t.origins[draws[i].chain], draws[..i], draws[i])
    {
      assert draws[..i] == t.draws[..i];
      if i == |t.draws| { assert t.draws[..i] == t.draws; }
    }
  }

  lemma LedgerKeeps(h: History, h': History, t: Trace, t': Trace, out: Option<Sealed>, d: Draw)
    requires Ledger(h, t) && d.out == out && d.acks == h.s.acks && h'.s.acks == []
    requires h'.sealed == h.sealed + (if out.Some? then [out.value] else [])
    requires t'.draws == t.draws + [d] && t'.requested == t.requested && h'.queued == t'.announced
    requires h'.s.awaitingReverse <==> exists c :: c in t'.origins && c.Rotated?
    ensures Ledger(h', t')
  {
    Snoc(t.draws, d);
  }

  lemma RecordKeeps(h: History, s: Sender, out: Option<Sealed>, rot: Option<Rotation>)
    ensures var h' := Record(h, s, out, rot);
            && h'.s == s && h'.replied == h.replied && h'.queued == h.queued + Queued(h.s, s, rot)
            && h'.sealed == h.sealed + (if out.Some? then [out.value] else [])
  {}

  lemma DerivingCallKeeps(cr: Suite, h: History, r: Sender, h': History, out: Option<Sealed>, rot: Option<Rotation>, t: Trace)
    requires Kept(cr, h, t) && Moved(h.s, r, rot) && Stepped(cr, r, h'.s, out) && h'.replied == h.replied
    requires h'.sealed == h.sealed + (if out.Some? then [out.value] else []) && h'.queued == h.queued + Queued(h.s, h'.s, rot)
    ensures var mid := WithChain(t, h.s, h'.s, rot);
            Kept(cr, h', mid.(draws := mid.draws + [Draw(h'.s.chain, h.s.counter, h.s.acks, out)]))
  {
    RotationStands(cr, h, r, rot, t);
    var mid := WithChain(t, h.s, r, rot);
    DrawBelongs(cr, r, h'.s, out, mid);
    hide AllBelong, Stands;
    var d := Draw(h'.s.chain, r.counter, r.acks, out);
    LedgerKeeps(h, h', t, mid.(draws := mid.draws + [d]), out, d);
  }

  /** A step that leaves the chain alone. */
  lemma QuietKeeps(cr: Suite, h: History, h': History, t: Trace)
    requires Kept(cr, h, t) && h'.sealed == h.sealed && h'.s.acks == h.s.acks && h'.s.awaitingReverse == h.s.awaitingReverse
    requires h'.s.chain == h.s.chain && h'.s.keyChain == h.s.keyChain && h'.s.tagChain == h.s.tagChain
    requires h'.s.keyId >= h.s.keyId && (h.replied ==> h'.replied)
    ensures Kept(cr, h', t.(announced := h'.queued)) && t.announced == h.queued
  {
    hide Belongs;
    var t' := t.(announced := h'.queued);
    assert AllBelong(cr, t');
  }

  lemma SendKeeps(cr: Suite, h: History, e: Event, t: Trace)
    requires Kept(cr, h, t) && e.Send?
    ensures Kept(cr, Step(cr, h, e), TraceStep(t, h, e, Step(cr, h, e)))
  {
    var (after, out) := Encrypt(cr, h.s, e.plaintext, e.rot, e.sealOk);
    CallSteps(cr, h.s, e.plaintext, e.rot, e.sealOk);
    RotationMoves(h.s, e.rot);
    RecordKeeps(h, after, out, e.rot);
    hide Encrypt, AttemptRotation, Record, Kept;
    var h' := Step(cr, h, e);
    if Derives(h.s, e.rot) {
      DerivingCallKeeps(cr, h, AttemptRotation(h.s, e.rot).0, h', out, e.rot, t);
    } else {
      QuietKeeps(cr, h, h', t);
    }
  }

  lemma ReplyKeeps(cr: Suite, h: History, keySeed: Bytes, tagSeed: Bytes, t: Trace)
    requires Kept(cr, h, t) && !h.replied && h.inFlight > 0
    ensures var e := InstallReply(keySeed, tagSeed); Kept(cr, Step(cr, h, e), TraceStep(t, h, e, Step(cr, h, e)))
  {
    hide Belongs;
    UnusedChain(t.draws, Reply);
  }

  lemma AckKeeps(cr: Suite, h: History, e: Event, t: Trace)
    requires Kept(cr, h, t) && e.AckRequested?
    ensures Kept(cr, Step(cr, h, e), TraceStep(t, h, e, Step(cr, h, e)))
  {
    hide Belongs;
    var h' := Step(cr, h, e);
    var t' := TraceStep(t, h, e, h');
    assert AcksOf(t'.draws) + h'.s.acks == AcksOf(t.draws) + h.s.acks + [AckEntry(e.keyId, e.n)];
    assert AllBelong(cr, t');
  }

  lemma StepKeeps(cr: Suite, h: History, e: Event, t: Trace)
    requires Kept(cr, h, t) && ChainFresh(h)
    ensures Kept(cr, Step(cr, h, e), TraceStep(t, h, e, Step(cr, h, e)))
  {
    hide Kept, Encrypt;
    if e.Send? {
      SendKeeps(cr, h, e, t);
    } else if e.InstallReply? && h.inFlight > 0 {
      ReplyKeeps(cr, h, e.keySeed, e.tagSeed, t);
    } else if e.AckRequested? {
      AckKeeps(cr, h, e, t);
    } else {
      QuietKeeps(cr, h, Step(cr, h, e), t);
    }
  }

  lemma BeginKept(cr: Suite, isInitiator: bool, seeds: Seeds)
    ensures Kept(cr, RunFrom(cr, isInitiator, seeds, []), Traced(cr, isInitiator, seeds, []))
  {
    var t := Traced(cr, isInitiator, seeds, []);
    assert NumbersOn(t.draws, NewSession) == [];
    assert AcksOf(t.draws) + [] == [];
  }

  // ----- over every run ----------------------------------------------------------------------------

  /**
    Over every run: the messages sealed are those of the calls that derived a key, in order; each carries the tag and
    the key of its place on its own chain, counted from the seeds that chain was installed with, the ones of the
    rotation event for a rotated chain. Acknowledgments leave in the order of the requests, none twice.
  */
  lemma {:induction false} EveryMessageBelongs(cr: Suite, isInitiator: bool, seeds: Seeds, es: seq<Event>)
    ensures var (h, t) := (RunFrom(cr, isInitiator, seeds, es), Traced(cr, isInitiator, seeds, es));
            Stands(cr, h.s, t) && AllBelong(cr, t) && Ledger(h, t) && PastOnly(h, t)
  {
    if es == [] {
      BeginKept(cr, isInitiator, seeds);
    } else {
      EveryMessageBelongs(cr, isInitiator, seeds, Front(es));
      NonceUniqueness(cr, Start(isInitiator, seeds.key, seeds.tag), Front(es));
      var h := RunFrom(cr, isInitiator, seeds, Front(es));
      assert RunFrom(cr, isInitiator, seeds, es) == Step(cr, h, Last(es));
      hide Step, TraceStep, ChainFresh;
      StepKeeps(cr, h, Last(es), Traced(cr, isInitiator, seeds, Front(es)));
    }
  }

  lemma {:induction false} CountsAgree(draws: seq<Draw>, c: ChainId)
    requires forall d <- draws :: d.out.Some? ==> d.out.value.chain == d.chain
    ensures |NumbersOn(draws, c)| == SealedOn(Outs(draws), c) + FailedOn(draws, c)
  {
    if draws != [] {
      assert Last(draws) in draws && forall d <- Front(draws) :: d in draws;
      CountsAgree(Front(draws), c);
      if Last(draws).out.Some? {
        SealedOnSnoc(Outs(Front(draws)), Last(draws).out.value, c);
      } else {
        assert Outs(draws) == Outs(Front(draws));
      }
    }
  }

  lemma TagAtPlace(cr: Suite, t: Trace, i: nat)
    requires AllBelong(cr, t) && i < |t.draws| && t.draws[i].out.Some?
    ensures var (d, before) := (t.draws[i], t.draws[..i]);
            d.out.value.tag == TagAt(cr, t.origins[d.chain].tag, SealedOn(Outs(before), d.chain) + FailedOn(before, d.chain) + 1)
  {
    forall d <- t.draws[..i] ensures d.out.Some? ==> d.out.value.chain == d.chain {
      var j :| 0 <= j < i && t.draws[..i][j] == d;
      assert Belongs(cr, t.origins[t.draws[j].chain], t.draws[..j], t.draws[j]);
    }
    CountsAgree(t.draws[..i], t.draws[i].chain);
    assert Belongs(cr, t.origins[t.draws[i].chain], t.draws[..i], t.draws[i]);
    hide NumbersOn, Outs, SealedOn, FailedOn, TagAt;
  }

  /**
    So the tag of a message is the one whose number on the chain is one more than the messages sealed on it before,
    unless the AEAD failed on that chain before: each such failure has used up a tag.
  */
  lemma TagCountsFailures(cr: Suite, isInitiator: bool, seeds: Seeds, es: seq<Event>, i: nat)
    requires i < |Traced(cr, isInitiator, seeds, es).draws| && Traced(cr, isInitiator, seeds, es).draws[i].out.Some?
    ensures var t := Traced(cr, isInitiator, seeds, es);
            var (d, before) := (t.draws[i], t.draws[..i]);
            && d.chain in t.origins
            && d.out.value.tag ==
               TagAt(cr, t.origins[d.chain].tag, SealedOn(Outs(before), d.chain) + FailedOn(before, d.chain) + 1)
  {
    EveryMessageBelongs(cr, isInitiator, seeds, es);
    hide Traced, RunFrom, Stands, Ledger, PastOnly;
    TagAtPlace(cr, Traced(cr, isInitiator, seeds, es), i);
  }
}
