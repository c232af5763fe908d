/** Both directions of one session: a message opened in one direction lifts the gate of the other. */
module Duplex {
  import opened Common
  import opened Crypto
  import opened SendChain
  import opened Lockstep
  import RecvWindow

  /** From initiator a to responder b, and back. */
  datatype Pair = Pair(ab: Net, ba: Net)

  /** A step in the direction from a (`fromA`) or from b. */
  datatype Move = Move(fromA: bool, st: Lockstep.Step)

  function Lane(p: Pair, fromA: bool): (r: Net) { if fromA then p.ab else p.ba }

  function WithLanes(fromA: bool, lane: Net, other: Net): (r: Pair) {
    if fromA then Pair(lane, other) else Pair(other, lane)
  }

  function Lifted(n: Net): (r: Net) { n.(sender := Opened(n.sender)) }

  /** A successful decryption lifts the gate of the session that received the message. */
  function After(cr: Suite, p: Pair, m: Move): (r: Pair) {
    var lane, other := Lane(p, m.fromA), Lane(p, !m.fromA);
    var lane' := Lockstep.After(cr, lane, m.st);
    WithLanes(m.fromA, lane', if |lane'.accepted| > |lane.accepted| then Lifted(other) else other)
  }

  /** The epochs of the two directions. */
  datatype Epochs = Epochs(ab: Epoch, ba: Epoch)

  function EpochIn(es: Epochs, fromA: bool): (r: Epoch) { if fromA then es.ab else es.ba }

  /** As in one direction; the gate opens by decryption only. */
  ghost predicate Fair(cr: Suite, es: Epochs, p: Pair, m: Move) {
    Lockstep.Fair(cr, EpochIn(es, m.fromA), Lane(p, m.fromA), m.st) && m.st != Manage(OpenES)
  }

  ghost predicate Run(cr: Suite, es: Epochs, start: Pair, moves: seq<Move>, end: Pair)
    decreases |moves|
  {
    if moves == [] then start == end
    else
      exists p :: && Run(cr, es, start, Front(moves), p)
                  && Fair(cr, es, p, Last(moves))
                  && end == After(cr, p, Last(moves))
  }

  // ----- each direction is a run of its own ------------------------------------------------------

  /** A direction makes the move, or has its gate lifted, or stays as it is. */
  lemma LaneStep(cr: Suite, es: Epochs, p: Pair, m: Move, fromA: bool, start: Net, steps: seq<Lockstep.Step>)
    returns (steps': seq<Lockstep.Step>)
    requires Fair(cr, es, p, m) && Lockstep.Run(cr, EpochIn(es, fromA), start, steps, Lane(p, fromA))
    ensures Lockstep.Run(cr, EpochIn(es, fromA), start, steps', Lane(After(cr, p, m), fromA))
    ensures |steps'| <= |steps| + 1
  {
    hide Lockstep.Run;
    var n, n' := Lane(p, fromA), Lane(After(cr, p, m), fromA);
    if m.fromA == fromA {
      RunSnoc(cr, EpochIn(es, fromA), start, steps, n, m.st);
      return steps + [m.st];
    }
    if n' == n { return steps; }
    RunSnoc(cr, EpochIn(es, fromA), start, steps, n, Manage(OpenES));
    return steps + [Manage(OpenES)];
  }

  lemma {:induction false} LaneRuns(cr: Suite, es: Epochs, start: Pair, moves: seq<Move>, end: Pair, fromA: bool)
    returns (steps: seq<Lockstep.Step>)
    requires Run(cr, es, start, moves, end)
    ensures Lockstep.Run(cr, EpochIn(es, fromA), Lane(start, fromA), steps, Lane(end, fromA)) && |steps| <= |moves|
    decreases |moves|
  {
    hide After, Fair;
    if moves == [] { return []; }
    var p :| && Run(cr, es, start, Front(moves), p)
             && Fair(cr, es, p, Last(moves)) && end == After(cr, p, Last(moves));
    steps := LaneRuns(cr, es, start, Front(moves), p, fromA);
    steps := LaneStep(cr, es, p, Last(moves), fromA, Lane(start, fromA), steps);
  }

  // ----- theorems ------------------------------------------------------------------------------

  /** Both ends have just applied the reply: a may send, b waits for a first message. */
  ghost predicate Established(cr: Suite, es: Epochs, p: Pair) {
    && Ready(es.ab, p.ab.sender) && Begins(cr, es.ab, p.ab) && p.ab.sender.isInitiator && !p.ab.sender.handshake
    && Ready(es.ba, p.ba.sender) && Begins(cr, es.ba, p.ba) && !p.ba.sender.isInitiator && p.ba.sender.awaitingFirstES
  }

  ghost predicate Distinguished(cr: Suite, es: Epochs) {
    && TagsDistinct(cr, es.ab) && es.ab.limit >= MAX_MESSAGE
    && TagsDistinct(cr, es.ba) && es.ba.limit >= MAX_MESSAGE
  }

  /** In both directions everything opened is what the peer sealed, each message at most once. */
  lemma BothExact(cr: Suite, es: Epochs, start: Pair, moves: seq<Move>, end: Pair)
    requires OpenUndoesSeal(cr) && Distinguished(cr, es) && Established(cr, es, start)
    requires Run(cr, es, start, moves, end)
    ensures AcceptedExactly(es.ab, end.ab.accepted, end.ab.sent)
    ensures AcceptedExactly(es.ba, end.ba.accepted, end.ba.sent)
  {
    hide Begins, AcceptedExactly, InStep, Run;
    var ab := LaneRuns(cr, es, start, moves, end, true);
    var ba := LaneRuns(cr, es, start, moves, end, false);
    Lockstep.Lockstep(cr, es.ab, start.ab, ab, end.ab);
    Lockstep.Lockstep(cr, es.ba, start.ba, ba, end.ba);
  }

  /** In both directions every claimed authentic message of the first chain opens to its payload. */
  lemma BothDeliver(cr: Suite, es: Epochs, start: Pair, moves: seq<Move>, end: Pair, fromA: bool, c: Claim)
    requires Lawful(cr) && Distinguished(cr, es) && Established(cr, es, start)
    requires Run(cr, es, start, moves, end) && WithinBudget(Lane(start, fromA).sender, |moves|)
    requires var l := Lane(end, fromA); c in l.claims && Authentic(cr, EpochIn(es, fromA), l.sent, c)
    ensures var l := Lane(end, fromA);
            RecvWindow.Decrypt(cr, l.w, c.tag, c.body, Some(c.hint)).1 == Some(PayloadOf(l.sent[c.hint - 1]))
  {
    hide Begins, Run, Authentic;
    var steps := LaneRuns(cr, es, start, moves, end, fromA);
    FirstChainDelivery(cr, EpochIn(es, fromA), Lane(start, fromA), steps, Lane(end, fromA), c);
  }

  /** The responder's gate, as seen by both sides. */
  ghost predicate Gate(p: Pair) {
    !p.ba.sender.isInitiator && (p.ab.accepted == [] ==> p.ba.sender.awaitingFirstES && p.ba.sent == [])
  }

  lemma GateStep(cr: Suite, es: Epochs, p: Pair, m: Move)
    requires Gate(p) && Fair(cr, es, p, m)
    ensures Gate(After(cr, p, m))
  {
    if m.fromA {
      AcceptedGrows(cr, p.ab, m.st);
    } else if m.st.Seal? {
      EncryptEffect(cr, p.ba.sender, m.st.plaintext, m.st.rot, true);
    }
    hide RecvWindow.Decrypt, RecvWindow.UsedCounter, Encrypt;
  }

  lemma AcceptedGrows(cr: Suite, n: Net, st: Lockstep.Step)
    ensures n.accepted <= Lockstep.After(cr, n, st).accepted
  {
    hide RecvWindow.Decrypt, RecvWindow.UsedCounter, Encrypt;
  }

  /** The responder has sealed nothing as long as it has opened nothing from the initiator. */
  lemma {:induction false} ResponderWaits(cr: Suite, es: Epochs, start: Pair, moves: seq<Move>, end: Pair)
    requires Established(cr, es, start) && Run(cr, es, start, moves, end)
    ensures Gate(end)
    ensures end.ba.sent != [] ==> end.ab.accepted != []
    decreases |moves|
  {
    hide After, Fair;
    if moves != [] {
      var p :| && Run(cr, es, start, Front(moves), p)
               && Fair(cr, es, p, Last(moves)) && end == After(cr, p, Last(moves));
      ResponderWaits(cr, es, start, Front(moves), p);
      GateStep(cr, es, p, Last(moves));
    }
  }

  // ----- both directions carry messages ----------------------------------------------------------

  lemma MoveSnoc(cr: Suite, es: Epochs, start: Pair, moves: seq<Move>, p: Pair, m: Move)
    requires Run(cr, es, start, moves, p) && Fair(cr, es, p, m)
    ensures Run(cr, es, start, moves + [m], After(cr, p, m))
  {
    hide After, Fair;
    assert Front(moves + [m]) == moves && Last(moves + [m]) == m;
  }

  /** A run of one direction as a run of the pair. */
  lemma {:induction false} LiftLane(cr: Suite, es: Epochs, p: Pair, fromA: bool, steps: seq<Lockstep.Step>, end: Net)
    returns (moves: seq<Move>, p': Pair)
    requires Lockstep.Run(cr, EpochIn(es, fromA), Lane(p, fromA), steps, end) && forall st <- steps :: !st.Manage?
    ensures Run(cr, es, p, moves, p') && Lane(p', fromA) == end && Lane(p, fromA).accepted <= end.accepted
    ensures Lane(p', !fromA) == if end.accepted == Lane(p, fromA).accepted then Lane(p, !fromA) else Lifted(Lane(p, !fromA))
    decreases |steps|
  {
    if steps == [] { return [], p; }
    var ep, st := EpochIn(es, fromA), Last(steps);
    var n :| && Lockstep.Run(cr, ep, Lane(p, fromA), Front(steps), n)
             && Lockstep.Fair(cr, ep, n, st) && end == Lockstep.After(cr, n, st);
    assert st in steps && forall x <- Front(steps) :: x in steps;
    hide Lockstep.Run, Lockstep.After, Lockstep.Fair, Run;
    moves, p' := LiftLane(cr, es, p, fromA, Front(steps), n);
    AcceptedGrows(cr, n, st);
    MoveSnoc(cr, es, p, moves, p', Move(fromA, st));
    moves, p' := moves + [Move(fromA, st)], After(cr, p', Move(fromA, st));
  }

  lemma {:induction false} RunAppend(cr: Suite, es: Epochs, start: Pair, a: seq<Move>, mid: Pair, b: seq<Move>, end: Pair)
    requires Run(cr, es, start, a, mid) && Run(cr, es, mid, b, end)
    ensures Run(cr, es, start, a + b, end)
    decreases |b|
  {
    hide After, Fair;
    if b == [] {
      assert a + b == a;
    } else {
      var p :| Run(cr, es, mid, Front(b), p) && Fair(cr, es, p, Last(b)) && end == After(cr, p, Last(b));
      RunAppend(cr, es, start, a, mid, Front(b), p);
      assert a + b == a + Front(b) + [Last(b)];
      MoveSnoc(cr, es, start, a + Front(b), p, Last(b));
    }
  }

  /**
    From every established pair, an honest message of the initiator arrives, which lets the responder's first message
    be sealed and arrive as well.
  */
  lemma BothFirstMessagesArrive(cr: Suite, es: Epochs, p: Pair, x: Bytes, y: Bytes) returns (moves: seq<Move>, end: Pair)
    requires Lawful(cr) && es.ab.limit >= 2 && es.ba.limit >= 2 && Established(cr, es, p)
    requires p.ab.sender.dhCounter + 1 < DH_INTERVAL && p.ba.sender.dhCounter + 1 < DH_INTERVAL
    requires OnlyOwnKeyOpens(cr, es.ab, FirstMessage(cr, p.ab.sender, x))
    requires OnlyOwnKeyOpens(cr, es.ba, FirstMessage(cr, p.ba.sender, y))
    ensures Run(cr, es, p, moves, end)
    ensures end.ab.accepted == [(1, PayloadOf(FirstMessage(cr, p.ab.sender, x)))]
    ensures end.ba.accepted == [(1, PayloadOf(FirstMessage(cr, p.ba.sender, y)))]
  {
    assert p.ab.accepted == p.ba.accepted == [] by { BeginsEmpty(cr, es.ab, p.ab); BeginsEmpty(cr, es.ba, p.ba); }
    var steps, n := FirstMessageArrives(cr, es.ab, p.ab, x);
    var first, mid := LiftLane(cr, es, p, true, steps, n);
    assert mid.ba == Lifted(p.ba) && FirstMessage(cr, mid.ba.sender, y) == FirstMessage(cr, p.ba.sender, y);
    assert Begins(cr, es.ba, mid.ba);
    hide Begins, Run, Lockstep.Run, OnlyOwnKeyOpens;
    steps, n := FirstMessageArrives(cr, es.ba, mid.ba, y);
    var second;
    second, end := LiftLane(cr, es, mid, false, steps, n);
    RunAppend(cr, es, p, first, mid, second, end);
    moves := first + second;
  }
}
