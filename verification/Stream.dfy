/** Two framed connections over two byte streams: in every interleaving each end reads a prefix of what the other wrote. */
module Stream {
  import opened Common
  import opened Crypto
  import opened Modifiers
  import opened Framing

  /** A ciphertext sealed under one message number does not open under another. */
  ghost predicate NumberBound(cr: Suite) {
    forall k, n, m, ad, p :: 0 <= n <= MAX_NONCE && 0 <= m <= MAX_NONCE && n != m ==>
      cr.open(k, m, ad, cr.seal(k, n, ad, p)).None?
  }

  ghost predicate Sane(e: Env) {
    OpenUndoesSeal(e.cr) && SealAddsTag(e.cr) && NumberBound(e.cr) && Modifiers.Lawful(e.p)
  }

  /** The assumptions are consistent. */
  lemma SaneIsConsistent()
    ensures Sane(Env(ModelSuite(), ModelCiphers()))
  {
    var cr := ModelSuite();
    Crypto.LawsAreConsistent();
    Modifiers.LawsAreConsistent();
    forall k, n, m, ad, p | 0 <= n <= MAX_NONCE && 0 <= m <= MAX_NONCE && n != m
      ensures cr.open(k, m, ad, cr.seal(k, n, ad, p)).None?
    {
      ModelOpens(k, n, ad, p, m);
    }
  }

  // ----- what the wire still holds -------------------------------------------------------------

  datatype Drained = Drained(half: Half, chain: Modifier, rest: Bytes, bytes: Bytes)

  /** Everything the receiver can still decode from the wire, and where it then stands. */
  function Drain(e: Env, h: Half, chain: Modifier, wire: Bytes): (d: Drained)
    decreases |wire|
  {
    var t := TakeFrame(e, h, chain, wire);
    if t.data.Err? then Drained(h, chain, wire, [])
    else
      var d := Drain(e, t.half, t.chain, t.rest);
      Drained(d.half, d.chain, d.rest, t.data.value + d.bytes)
  }

  /** A frame that can be taken is not affected by what follows it. */
  lemma TakeAppend(e: Env, h: Half, chain: Modifier, wire: Bytes, x: Bytes)
    requires TakeFrame(e, h, chain, wire).data.Ok?
    ensures var t := TakeFrame(e, h, chain, wire); TakeFrame(e, h, chain, wire + x) == t.(rest := t.rest + x)
  {
    hide Inbound;
    var n := LengthAt(e, h, wire);
    assert (wire + x)[..2] == wire[..2];
    assert (wire + x)[2..2 + n] == wire[2..2 + n];
    assert (wire + x)[2 + n..] == wire[2 + n..] + x;
  }

  lemma {:induction false} DrainAppend(e: Env, h: Half, chain: Modifier, wire: Bytes, x: Bytes)
    ensures var d := Drain(e, h, chain, wire);
            var f := Drain(e, d.half, d.chain, d.rest + x);
            Drain(e, h, chain, wire + x) == f.(bytes := d.bytes + f.bytes)
    decreases |wire|
  {
    hide TakeFrame;
    var t := TakeFrame(e, h, chain, wire);
    if t.data.Ok? {
      TakeAppend(e, h, chain, wire, x);
      DrainAppend(e, t.half, t.chain, t.rest, x);
      var d := Drain(e, t.half, t.chain, t.rest);
      var f := Drain(e, d.half, d.chain, d.rest + x);
      assert t.data.value + (d.bytes + f.bytes) == t.data.value + d.bytes + f.bytes;
    } else {
      var f := Drain(e, h, chain, wire + x);
      assert [] + f.bytes == f.bytes;
    }
  }

  lemma TakeAlike(e: Env, h: Half, c: Modifier, c': Modifier, wire: Bytes)
    requires SameIn(c, c')
    ensures var t := TakeFrame(e, h, c, wire); var u := TakeFrame(e, h, c', wire);
            u == t.(chain := u.chain) && SameIn(t.chain, u.chain)
  {
    hide Inbound, SameIn, LengthAt;
    if h.frames < MAX_NONCE && |wire| >= 2 {
      var n := LengthAt(e, h, wire);
      if MIN_FRAME <= n && 2 + n <= |wire| {
        var plain := e.cr.open(h.key, h.nonce, [], wire[2..2 + n]);
        if plain.Some? { SameInReadsAlike(e.p, c, c', plain.value); }
      }
    }
  }

  /** The receiver's own sending does not change what it can decode. */
  lemma {:induction false} DrainAlike(e: Env, h: Half, c: Modifier, c': Modifier, wire: Bytes)
    requires SameIn(c, c')
    ensures var d := Drain(e, h, c, wire); var f := Drain(e, h, c', wire);
            f == d.(chain := f.chain) && SameIn(d.chain, f.chain)
    decreases |wire|
  {
    hide TakeFrame;
    TakeAlike(e, h, c, c', wire);
    var t, u := TakeFrame(e, h, c, wire), TakeFrame(e, h, c', wire);
    if t.data.Ok? { DrainAlike(e, t.half, t.chain, u.chain, t.rest); }
  }

  // ----- one direction -------------------------------------------------------------------------

  /** Sender and receiver of one direction, the bytes between them, and what was written and read so far. */
  datatype Lane = Lane(
    out: Half, outChain: Modifier, outBroken: bool,
    inp: Half, inChain: Modifier, buffer: Bytes, inBroken: bool,
    wire: Bytes, written: Bytes, got: Bytes)

  predicate Aligned(out: Half, outChain: Modifier, inp: Half, inChain: Modifier) {
    out == inp && out.nonce == out.frames <= MAX_NONCE && Matches(outChain, inChain)
  }

  function DrainLane(e: Env, l: Lane): (r: Drained) { Drain(e, l.inp, l.inChain, l.wire) }

  /** Nothing is lost: what was read, what is buffered and what is decodable make up what was written. */
  ghost predicate Healthy(e: Env, l: Lane) {
    var d := DrainLane(e, l);
    && Aligned(l.out, l.outChain, d.half, d.chain)
    && d.rest == []
    && l.got + l.buffer + d.bytes == l.written
  }

  /** The stream ends inside a frame. */
  predicate Torn(e: Env, h: Half, rest: Bytes) {
    |rest| < 2 || |rest| < 2 + LengthAt(e, h, rest)
  }

  /** The sender has used up message numbers of frames it did not send. */
  predicate Skewed(out: Half, h: Half) {
    out == h.(nonce := out.nonce) && h.frames == h.nonce < out.nonce <= MAX_NONCE + 1
  }

  /** The next frame does not open. */
  predicate Poisoned(e: Env, h: Half, rest: Bytes) {
    |rest| >= 2 && var n := LengthAt(e, h, rest);
    MIN_FRAME <= n <= |rest| - 2 && e.cr.open(h.key, h.nonce, [], rest[2..2 + n]).None?
  }

  predicate Fault(e: Env, out: Half, outBroken: bool, h: Half, rest: Bytes) {
    || (outBroken && Torn(e, h, rest))
    || (Skewed(out, h) && rest == [])
    || Poisoned(e, h, rest)
  }

  ghost predicate Faulty(e: Env, l: Lane) {
    var d := DrainLane(e, l);
    Fault(e, l.out, l.outBroken, d.half, d.rest) && l.got + l.buffer + d.bytes <= l.written
  }

  ghost predicate Safe(e: Env, l: Lane) {
    l.got <= l.written && (l.inBroken || Healthy(e, l) || Faulty(e, l))
  }

  // ----- frames ---------------------------------------------------------------------------------

  /** The length field survives masking and unmasking with states in step. */
  lemma LengthRoundTrip(e: Env, h: Half, ct: Bytes, n: nat)
    requires |ct| <= MAX_FRAME && 2 <= n <= 2 + |ct|
    ensures var f := Frame(ct, NextIV(e.p, h.sipKeys, h.iv)); LengthAt(e, h, f[..n]) == |ct|
  {
    var mask := MaskOf(NextIV(e.p, h.sipKeys, h.iv));
    var f := Frame(ct, NextIV(e.p, h.sipKeys, h.iv));
    Pow2Values();
    XorInvolutive(16, |ct|, mask);
    var x := Common.Xor(16, |ct|, mask);
    Be16RoundTrip(x);
    assert f[..n][..2] == Be16(x);
  }

  /** What the sender must ensure of a frame: the modifiers accept it and it is recoverable. */
  ghost predicate FrameOk(e: Env, chain: Modifier, chunk: Bytes, pads: seq<Bytes>) {
    Outbound(e.p, chain, DATA, chunk, pads).data.Ok? && Recoverable(e.p, chain, DATA, chunk, pads)
  }

  /** A frame written in step is read back whole and leaves both ends in step. */
  lemma FrameRoundTrip(e: Env, h: Half, outChain: Modifier, inChain: Modifier, chunk: Bytes, pads: seq<Bytes>, room: nat)
    requires Sane(e) && Aligned(h, outChain, h, inChain) && FrameOk(e, outChain, chunk, pads)
    requires WriteFrame(e, h, outChain, chunk, pads, room).status.Done?
    ensures var w := WriteFrame(e, h, outChain, chunk, pads, room);
            var t := TakeFrame(e, h, inChain, w.sent);
            t.data == Ok(chunk) && t.rest == [] && Aligned(w.half, w.chain, t.half, t.chain)
  {
    hide Outbound, Inbound, Matches, Recoverable;
    var out := Outbound(e.p, outChain, DATA, chunk, pads);
    var ct := e.cr.seal(h.key, h.nonce, [], out.data.value);
    var f := Frame(ct, NextIV(e.p, h.sipKeys, h.iv));
    assert f[..2 + |ct|] == f && f[2..2 + |ct|] == ct && f[2 + |ct|..] == [];
    LengthRoundTrip(e, h, ct, 2 + |ct|);
    ModifierInverts(e.p, outChain, inChain, DATA, chunk, pads);
  }

  lemma TornIsErr(e: Env, h: Half, chain: Modifier, rest: Bytes)
    requires Torn(e, h, rest)
    ensures Drain(e, h, chain, rest) == Drained(h, chain, rest, [])
    ensures var t := TakeFrame(e, h, chain, rest); t.data.Err? && (t.broke || (t.half == h && t.chain == chain && t.rest == []))
  {
    hide Inbound;
  }

  lemma PoisonedIsErr(e: Env, h: Half, chain: Modifier, rest: Bytes)
    requires Poisoned(e, h, rest)
    ensures Drain(e, h, chain, rest) == Drained(h, chain, rest, [])
    ensures var t := TakeFrame(e, h, chain, rest); t.data.Err? && t.broke
  {
    hide Inbound;
  }

  lemma PoisonedStays(e: Env, h: Half, rest: Bytes, x: Bytes)
    requires Poisoned(e, h, rest)
    ensures Poisoned(e, h, rest + x)
  {
    var n := LengthAt(e, h, rest);
    assert (rest + x)[..2] == rest[..2];
    assert (rest + x)[2..2 + n] == rest[2..2 + n];
  }

  /** A frame cut short cannot be decoded. */
  lemma CutFrameIsTorn(e: Env, h: Half, ct: Bytes, room: nat)
    requires |ct| <= MAX_FRAME && room < 2 + |ct|
    ensures Torn(e, h, Frame(ct, NextIV(e.p, h.sipKeys, h.iv))[..room])
  {
    if room >= 2 { LengthRoundTrip(e, h, ct, room); }
  }

  /** A frame sealed under a later message number does not open. */
  lemma SkewedFramePoisons(e: Env, h: Half, number: nat, x: Bytes)
    requires Sane(e) && h.nonce < number <= MAX_NONCE && |e.cr.seal(h.key, number, [], x)| <= MAX_FRAME
    ensures Poisoned(e, h, Frame(e.cr.seal(h.key, number, [], x), NextIV(e.p, h.sipKeys, h.iv)))
  {
    var ct := e.cr.seal(h.key, number, [], x);
    var f := Frame(ct, NextIV(e.p, h.sipKeys, h.iv));
    assert f[..2 + |ct|] == f && f[2..2 + |ct|] == ct;
    LengthRoundTrip(e, h, ct, 2 + |ct|);
  }

  /** What a frame does to the wire, for a receiver at `h` whose sender stands at `out`. */
  lemma FrameFault(e: Env, out: Half, h: Half, chain: Modifier, chunk: Bytes, pads: seq<Bytes>, room: nat)
    requires Sane(e) && FrameOk(e, chain, chunk, pads)
    requires out == h.(nonce := out.nonce) && h.frames == h.nonce <= out.nonce <= MAX_NONCE + 1
    requires var w := WriteFrame(e, out, chain, chunk, pads, room); !w.status.Done? || out.nonce != h.nonce
    ensures var w := WriteFrame(e, out, chain, chunk, pads, room);
            || Fault(e, w.half, w.status.Broke?, h, w.sent)
            || (w.half == out == h && w.chain == chain && w.sent == [] && w.status.Broke?)
  {
    hide Outbound, Recoverable, Torn, Poisoned, Frame;
    if out.frames < MAX_NONCE && out.nonce <= MAX_NONCE {
      var x := Outbound(e.p, chain, DATA, chunk, pads).data.value;
      var ct := e.cr.seal(out.key, out.nonce, [], x);
      if |ct| <= MAX_FRAME {
        FrameSize(ct, NextIV(e.p, h.sipKeys, h.iv));
        if room < 2 + |ct| { CutFrameIsTorn(e, h, ct, room); } else { SkewedFramePoisons(e, h, out.nonce, x); }
      }
    }
  }

  lemma FrameSize(ct: Bytes, iv: nat)
    ensures |Frame(ct, iv)| == 2 + |ct|
  {}

  function AfterFrame(l: Lane, w: Wrote, chunk: Bytes): (r: Lane) {
    l.(out := w.half, outChain := w.chain, outBroken := l.outBroken || w.status.Broke?,
    wire := l.wire + w.sent, written := if w.status.Done? then l.written + chunk else l.written)
  }

  lemma HealthyFrameDone(e: Env, l: Lane, chunk: Bytes, pads: seq<Bytes>, room: nat)
    requires Sane(e) && Healthy(e, l) && FrameOk(e, l.outChain, chunk, pads)
    requires WriteFrame(e, l.out, l.outChain, chunk, pads, room).status.Done?
    ensures Healthy(e, AfterFrame(l, WriteFrame(e, l.out, l.outChain, chunk, pads, room), chunk))
  {
    hide WriteFrame, TakeFrame, FrameOk, Matches;
    var w := WriteFrame(e, l.out, l.outChain, chunk, pads, room);
    var d := DrainLane(e, l);
    DrainAppend(e, l.inp, l.inChain, l.wire, w.sent);
    assert d.rest + w.sent == w.sent;
    FrameRoundTrip(e, l.out, l.outChain, d.chain, chunk, pads, room);
    var t := TakeFrame(e, d.half, d.chain, w.sent);
    EmptyDrain(e, t.half, t.chain);
    assert Drain(e, d.half, d.chain, w.sent).bytes == chunk;
    assert l.got + l.buffer + (d.bytes + chunk) == l.got + l.buffer + d.bytes + chunk;
  }

  lemma HealthyFrameFails(e: Env, l: Lane, chunk: Bytes, pads: seq<Bytes>, room: nat)
    requires Sane(e) && Healthy(e, l) && FrameOk(e, l.outChain, chunk, pads)
    requires !WriteFrame(e, l.out, l.outChain, chunk, pads, room).status.Done?
    ensures var w := WriteFrame(e, l.out, l.outChain, chunk, pads, room);
            var l' := AfterFrame(l, w, chunk);
            Faulty(e, l') || (w.status.Broke? && Healthy(e, l'))
  {
    hide WriteFrame, TakeFrame, FrameOk, Matches, Torn, Poisoned;
    var w := WriteFrame(e, l.out, l.outChain, chunk, pads, room);
    var d := DrainLane(e, l);
    DrainAppend(e, l.inp, l.inChain, l.wire, w.sent);
    assert d.rest + w.sent == w.sent;
    FrameFault(e, l.out, d.half, l.outChain, chunk, pads, room);
    FaultDrains(e, w.half, w.status.Broke?, d.half, d.chain, w.sent);
    assert d.bytes + [] == d.bytes;
  }

  lemma EmptyDrain(e: Env, h: Half, chain: Modifier)
    ensures Drain(e, h, chain, []) == Drained(h, chain, [], [])
  {
    hide Inbound;
  }

  lemma FaultDrains(e: Env, out: Half, outBroken: bool, h: Half, chain: Modifier, rest: Bytes)
    requires Fault(e, out, outBroken, h, rest) || rest == []
    ensures Drain(e, h, chain, rest) == Drained(h, chain, rest, [])
  {
    if Poisoned(e, h, rest) { PoisonedIsErr(e, h, chain, rest); }
    else if rest == [] { EmptyDrain(e, h, chain); }
    else { TornIsErr(e, h, chain, rest); }
  }

  lemma FaultyFrame(e: Env, l: Lane, chunk: Bytes, pads: seq<Bytes>, room: nat)
    requires Sane(e) && Faulty(e, l) && !l.outBroken && FrameOk(e, l.outChain, chunk, pads)
    ensures var l' := AfterFrame(l, WriteFrame(e, l.out, l.outChain, chunk, pads, room), chunk);
            Faulty(e, l') && DrainLane(e, l').bytes == DrainLane(e, l).bytes
  {
    hide WriteFrame, TakeFrame, FrameOk, Torn;
    var w := WriteFrame(e, l.out, l.outChain, chunk, pads, room);
    var d := DrainLane(e, l);
    DrainAppend(e, l.inp, l.inChain, l.wire, w.sent);
    if Poisoned(e, d.half, d.rest) {
      PoisonedStays(e, d.half, d.rest, w.sent);
    } else {
      FrameFault(e, l.out, d.half, l.outChain, chunk, pads, room);
      assert d.rest + w.sent == w.sent;
    }
    FaultDrains(e, w.half, w.status.Broke?, d.half, d.chain, d.rest + w.sent);
    assert d.bytes + [] == d.bytes;
  }

  lemma FrameKeepsSafe(e: Env, l: Lane, chunk: Bytes, pads: seq<Bytes>, room: nat)
    requires Sane(e) && Safe(e, l) && !l.outBroken && FrameOk(e, l.outChain, chunk, pads)
    ensures var w := WriteFrame(e, l.out, l.outChain, chunk, pads, room);
            var l' := AfterFrame(l, w, chunk);
            && Safe(e, l')
            && (Healthy(e, l) && w.status.Done? ==> Healthy(e, l'))
            && (Healthy(e, l) && w.status.Rejected? ==> Faulty(e, l'))
  {
    hide WriteFrame, FrameOk, Fault;
    var w := WriteFrame(e, l.out, l.outChain, chunk, pads, room);
    if Healthy(e, l) {
      if w.status.Done? { HealthyFrameDone(e, l, chunk, pads, room); } else { HealthyFrameFails(e, l, chunk, pads, room); }
    }
    else if !l.inBroken { FaultyFrame(e, l, chunk, pads, room); }
  }

  // ----- whole calls ----------------------------------------------------------------------------

  /** FrameOk for every frame a call gets to send. */
  ghost predicate FramesOk(e: Env, h: Half, chain: Modifier, b: Bytes, max: nat, pads: seq<Bytes>, room: nat)
    decreases if h.frames < MAX_NONCE then MAX_NONCE - h.frames else 0
  {
    b != [] ==>
      var chunk := Chunk(b, max);
      var one := WriteFrame(e, h, chain, chunk, pads, room);
      && FrameOk(e, chain, chunk, pads)
      && (one.status.Done? ==> FramesOk(e, one.half, one.chain, b[|chunk|..], max, one.pads, room - |one.sent|))
  }

  function AfterWrite(l: Lane, w: Written, b: Bytes): (r: Lane)
    requires w.count <= |b|
  {
    l.(out := w.half, outChain := w.chain, outBroken := l.outBroken || w.status.Broke?,
    wire := l.wire + w.sent, written := l.written + b[..w.count])
  }

  /** A call is its first frame and then the rest of the call. */
  lemma AfterWritePeels(e: Env, l: Lane, b: Bytes, max: nat, pads: seq<Bytes>, room: nat)
    requires b != []
    ensures var chunk := Chunk(b, max);
            var one := WriteFrame(e, l.out, l.outChain, chunk, pads, room);
            var mid, rest := AfterFrame(l, one, chunk), b[|chunk|..];
            AfterWrite(l, WriteAll(e, l.out, l.outChain, b, max, pads, room), b) ==
            if !one.status.Done? then mid
            else AfterWrite(mid, WriteAll(e, one.half, one.chain, rest, max, one.pads, room - |one.sent|), rest)
  {
    hide WriteFrame;
    var chunk := Chunk(b, max);
    var one := WriteFrame(e, l.out, l.outChain, chunk, pads, room);
    if one.status.Done? {
      var rest := b[|chunk|..];
      var more := WriteAll(e, one.half, one.chain, rest, max, one.pads, room - |one.sent|);
      assert chunk + rest[..more.count] == b[..|chunk| + more.count];
      assert l.written + chunk + rest[..more.count] == l.written + (chunk + rest[..more.count]);
      assert l.wire + (one.sent + more.sent) == l.wire + one.sent + more.sent;
    } else {
      assert l.written + b[..0] == l.written;
    }
  }

  lemma {:induction false} WriteKeepsSafe(e: Env, l: Lane, b: Bytes, max: nat, pads: seq<Bytes>, room: nat)
    requires Sane(e) && Safe(e, l) && !l.outBroken && FramesOk(e, l.out, l.outChain, b, max, pads, room)
    ensures var w := WriteAll(e, l.out, l.outChain, b, max, pads, room);
            var l' := AfterWrite(l, w, b);
            && Safe(e, l')
            && (Healthy(e, l) && w.status.Done? ==> Healthy(e, l'))
            && (Healthy(e, l) && w.status.Rejected? ==> Faulty(e, l'))
    decreases if l.out.frames < MAX_NONCE then MAX_NONCE - l.out.frames else 0
  {
    hide WriteFrame, FrameOk, Safe, Healthy, Faulty;
    if b == [] {
      assert AfterWrite(l, WriteAll(e, l.out, l.outChain, b, max, pads, room), b) == l;
    } else {
      var chunk := Chunk(b, max);
      var one := WriteFrame(e, l.out, l.outChain, chunk, pads, room);
      FrameKeepsSafe(e, l, chunk, pads, room);
      AfterWritePeels(e, l, b, max, pads, room);
      if one.status.Done? {
        WriteKeepsSafe(e, AfterFrame(l, one, chunk), b[|chunk|..], max, one.pads, room - |one.sent|);
      }
    }
  }

  lemma {:induction false} WriteAllKeepsIn(e: Env, h: Half, chain: Modifier, b: Bytes, max: nat, pads: seq<Bytes>, room: nat)
    ensures SameIn(chain, WriteAll(e, h, chain, b, max, pads, room).chain)
    decreases if h.frames < MAX_NONCE then MAX_NONCE - h.frames else 0
  {
    hide WriteFrame, SameIn;
    if b == [] {
      Unchanged(chain);
    } else {
      var chunk := Chunk(b, max);
      var one := WriteFrame(e, h, chain, chunk, pads, room);
      FrameKeepsIn(e, h, chain, chunk, pads, room);
      if one.status.Done? {
        WriteAllKeepsIn(e, one.half, one.chain, b[|chunk|..], max, one.pads, room - |one.sent|);
        SameInTransitive(chain, one.chain, WriteAll(e, h, chain, b, max, pads, room).chain);
      }
    }
  }

  lemma Unchanged(chain: Modifier)
    ensures SameIn(chain, chain) && SameOut(chain, chain)
  {
    SameInReflexive([chain]);
    SameOutReflexive([chain]);
  }

  lemma FrameKeepsIn(e: Env, h: Half, chain: Modifier, chunk: Bytes, pads: seq<Bytes>, room: nat)
    ensures SameIn(chain, WriteFrame(e, h, chain, chunk, pads, room).chain)
  {
    hide Outbound, SameIn;
    Unchanged(chain);
    OutboundKeepsIn(e.p, chain, chunk, pads);
  }

  lemma TakeKeepsOut(e: Env, h: Half, chain: Modifier, wire: Bytes)
    ensures SameOut(chain, TakeFrame(e, h, chain, wire).chain)
  {
    hide Inbound, SameOut;
    Unchanged(chain);
    if h.frames < MAX_NONCE && |wire| >= 2 {
      var n := LengthAt(e, h, wire);
      if MIN_FRAME <= n && 2 + n <= |wire| {
        var plain := e.cr.open(h.key, h.nonce, [], wire[2..2 + n]);
        if plain.Some? { InboundKeepsOut(e.p, chain, plain.value); }
      }
    }
  }

  /** The receiver's own writes leave the lane safe, and healthy unless they break the connection. */
  lemma ReceiverWrites(e: Env, l: Lane, chain: Modifier, broke: bool)
    requires Safe(e, l) && SameIn(l.inChain, chain)
    ensures var l' := l.(inChain := chain, inBroken := l.inBroken || broke);
            Safe(e, l') && (Healthy(e, l) ==> Healthy(e, l')) && (Faulty(e, l) ==> Faulty(e, l'))
  {
    hide SameIn, SameOut, Matches, Fault;
    DrainAlike(e, l.inp, l.inChain, chain, l.wire);
    if Healthy(e, l) {
      Unchanged(l.outChain);
      MatchesCongruent(l.outChain, l.outChain, DrainLane(e, l).chain, Drain(e, l.inp, chain, l.wire).chain);
    }
  }

  /** So do the sender's own reads. */
  lemma SenderReads(e: Env, l: Lane, chain: Modifier, broke: bool)
    requires Safe(e, l) && SameOut(l.outChain, chain)
    ensures var l' := l.(outChain := chain, outBroken := l.outBroken || broke);
            Safe(e, l') && (Healthy(e, l) ==> Healthy(e, l')) && (Faulty(e, l) ==> Faulty(e, l'))
  {
    hide SameIn, SameOut, Matches;
    if Healthy(e, l) {
      var d := DrainLane(e, l);
      Unchanged(d.chain);
      MatchesCongruent(l.outChain, chain, d.chain, d.chain);
    }
  }

  // ----- reading --------------------------------------------------------------------------------

  /** The direction from a to b. */
  function LaneOf(a: Conn, b: Conn, wire: Bytes, written: Bytes, got: Bytes): (r: Lane) {
    Lane(a.out, a.chain, a.broken, b.inp, b.chain, b.buffer, b.broken, wire, written, got)
  }

  function Gained(got: Bytes, r: Result<Bytes>): (result: Bytes) { if r.Ok? then got + r.value else got }

  lemma ReadErrKeepsSafe(e: Env, l: Lane)
    requires Safe(e, l) && !l.inBroken && TakeFrame(e, l.inp, l.inChain, l.wire).data.Err?
    ensures var t := TakeFrame(e, l.inp, l.inChain, l.wire);
            var l' := l.(inp := t.half, inChain := t.chain, inBroken := t.broke, wire := t.rest);
            && Safe(e, l')
            && (Healthy(e, l) ==> Healthy(e, l') && (t.broke ==> l'.inp.frames >= MAX_NONCE))
            && (Faulty(e, l) ==> t.broke || Faulty(e, l'))
  {
    hide Inbound;
    if Faulty(e, l) && Poisoned(e, l.inp, l.wire) {
      PoisonedIsErr(e, l.inp, l.inChain, l.wire);
    }
  }

  lemma ReadOkKeepsSafe(e: Env, l: Lane, n: nat)
    requires Safe(e, l) && !l.inBroken && l.buffer == [] && TakeFrame(e, l.inp, l.inChain, l.wire).data.Ok?
    requires n <= |TakeFrame(e, l.inp, l.inChain, l.wire).data.value|
    ensures var t := TakeFrame(e, l.inp, l.inChain, l.wire);
            var l' := l.(inp := t.half, inChain := t.chain, wire := t.rest,
                         buffer := t.data.value[n..], got := l.got + t.data.value[..n]);
            Safe(e, l') && (Healthy(e, l) ==> Healthy(e, l')) && (Faulty(e, l) ==> Faulty(e, l'))
  {
    hide TakeFrame, Fault, Aligned;
    var t := TakeFrame(e, l.inp, l.inChain, l.wire);
    var v := t.data.value;
    var d := Drain(e, t.half, t.chain, t.rest);
    assert v == v[..n] + v[n..];
    assert l.got + [] + (v + d.bytes) == l.got + v[..n] + v[n..] + d.bytes;
  }

  /** The receiver's frame counter is used up, and it has nothing buffered. */
  predicate UsedUp(l: Lane) { l.inp.frames >= MAX_NONCE && l.buffer == [] }

  lemma TakenIsNotBroken(e: Env, h: Half, chain: Modifier, wire: Bytes)
    ensures var t := TakeFrame(e, h, chain, wire); t.data.Ok? ==> !t.broke
  {
    hide Inbound;
  }

  lemma ReadKeepsSafe(e: Env, a: Conn, b: Conn, wire: Bytes, written: Bytes, got: Bytes, size: nat)
    requires Safe(e, LaneOf(a, b, wire, written, got))
    ensures var r := Framing.Read(e, b, wire, size);
            var l := LaneOf(a, b, wire, written, got);
            var l' := LaneOf(a, r.conn, r.rest, written, Gained(got, r.data));
            && Safe(e, l')
            && (Healthy(e, l) ==> Healthy(e, l') && (l'.inBroken ==> l.inBroken || UsedUp(l')))
            && (Healthy(e, l) && l.inBroken ==> l' == l)
            && (Faulty(e, l) ==> l'.inBroken || Faulty(e, l'))
  {
    hide TakeFrame, Fault, Aligned;
    var l := LaneOf(a, b, wire, written, got);
    if !b.broken {
      if b.buffer != [] {
        var n := Min(size, |b.buffer|);
        assert got + b.buffer == got + b.buffer[..n] + b.buffer[n..];
      } else {
        var t := TakeFrame(e, b.inp, b.chain, wire);
        if t.data.Err? {
          ReadErrKeepsSafe(e, l);
        } else {
          ReadOkKeepsSafe(e, l, Min(size, |t.data.value|));
          TakenIsNotBroken(e, b.inp, b.chain, wire);
        }
      }
    }
  }

  // ----- a stream that ends early ------------------------------------------------------------------

  /** Nothing can be decoded, now or with what may still come from a sender that has stopped. */
  predicate Stuck(e: Env, h: Half, rest: Bytes) { Torn(e, h, rest) || Poisoned(e, h, rest) }

  lemma CutStaysStuck(e: Env, h: Half, rest: Bytes, k: nat)
    requires Stuck(e, h, rest) && k <= |rest|
    ensures Stuck(e, h, rest[..k])
  {
    if k >= 2 {
      assert rest[..k][..2] == rest[..2];
      var n := LengthAt(e, h, rest);
      if 2 + n <= k { assert rest[..k][2..2 + n] == rest[2..2 + n]; }
    }
  }

  /** A frame that is cut cannot be taken, one before the cut is taken as before. */
  lemma CutTake(e: Env, h: Half, chain: Modifier, wire: Bytes, k: nat)
    requires TakeFrame(e, h, chain, wire).data.Ok? && k <= |wire|
    ensures var t := TakeFrame(e, h, chain, wire);
            var gone := |wire| - |t.rest|;
            if k < gone then Torn(e, h, wire[..k]) else TakeFrame(e, h, chain, wire[..k]) == t.(rest := t.rest[..k - gone])
  {
    hide Inbound;
    var n := LengthAt(e, h, wire);
    if k >= 2 { assert wire[..k][..2] == wire[..2]; }
    if k >= 2 + n {
      assert wire[..k][2..2 + n] == wire[2..2 + n];
      assert wire[..k][2 + n..] == wire[2 + n..][..k - 2 - n];
    }
  }

  lemma {:induction false} CutDrain(e: Env, h: Half, chain: Modifier, wire: Bytes, k: nat)
    requires k <= |wire|
    requires var d := Drain(e, h, chain, wire); Stuck(e, d.half, d.rest)
    ensures var d, c := Drain(e, h, chain, wire), Drain(e, h, chain, wire[..k]);
            Stuck(e, c.half, c.rest) && c.bytes <= d.bytes
    decreases |wire|
  {
    hide TakeFrame, Torn, Poisoned;
    var t := TakeFrame(e, h, chain, wire);
    if t.data.Ok? {
      var gone := |wire| - |t.rest|;
      CutTake(e, h, chain, wire, k);
      if k < gone {
        TornIsErr(e, h, chain, wire[..k]);
      } else {
        CutDrain(e, t.half, t.chain, t.rest, k - gone);
      }
    } else {
      CutStaysStuck(e, h, wire, k);
      StuckDrains(e, h, chain, wire[..k]);
    }
  }

  lemma StuckDrains(e: Env, h: Half, chain: Modifier, rest: Bytes)
    requires Stuck(e, h, rest)
    ensures Drain(e, h, chain, rest) == Drained(h, chain, rest, [])
  {
    if Torn(e, h, rest) { TornIsErr(e, h, chain, rest); } else { PoisonedIsErr(e, h, chain, rest); }
  }

  function Cut(l: Lane, k: nat): (l': Lane)
    requires k <= |l.wire|
  {
    l.(outBroken := true, wire := l.wire[..k])
  }

  /** What is left after a cut can be decoded up to the frame that was hit. */
  lemma CutIsFaulty(e: Env, l: Lane, k: nat)
    requires k <= |l.wire| && (var d := DrainLane(e, l); Stuck(e, d.half, d.rest) && l.got + l.buffer + d.bytes <= l.written)
    ensures Faulty(e, Cut(l, k))
  {
    hide Torn, Poisoned, Drain;
    CutDrain(e, l.inp, l.inChain, l.wire, k);
    var d, c := DrainLane(e, l), DrainLane(e, Cut(l, k));
    assert l.got + l.buffer + c.bytes <= l.got + l.buffer + d.bytes;
  }

  lemma CutKeepsFaulty(e: Env, l: Lane, k: nat)
    requires Faulty(e, l) && k <= |l.wire|
    ensures Faulty(e, Cut(l, k))
  {
    CutIsFaulty(e, l, k);
  }

  lemma CutKeepsSafe(e: Env, l: Lane, k: nat)
    requires Safe(e, l) && k <= |l.wire|
    ensures Safe(e, Cut(l, k))
  {
    if !l.inBroken { CutIsFaulty(e, l, k); }
  }

  // ----- both directions ------------------------------------------------------------------------

  /** Two connected ends, the bytes under way each way, and what each has written and read. */
  datatype Net = Net(
    a: Conn, b: Conn, ab: Bytes, ba: Bytes,
    writtenA: Bytes, writtenB: Bytes, gotA: Bytes, gotB: Bytes)

  function Swap(n: Net): (r: Net) { Net(n.b, n.a, n.ba, n.ab, n.writtenB, n.writtenA, n.gotB, n.gotA) }

  /** A reset cuts what is under way from this end after k bytes; this end cannot write any more. */
  datatype Call = Write(data: Bytes, pads: seq<Bytes>, room: nat) | Read(size: nat) | Reset(k: nat)
  datatype Step = Step(byA: bool, call: Call)

  function CallByA(e: Env, n: Net, c: Call): (r: Net) {
    match c
    case Write(data, pads, room) =>
      var w := Framing.Write(e, n.a, data, pads, room);
      n.(a := w.conn, ab := n.ab + w.sent, writtenA := n.writtenA + data[..w.count])
    case Read(size) =>
      var r := Framing.Read(e, n.a, n.ba, size);
      n.(a := r.conn, ba := r.rest, gotA := Gained(n.gotA, r.data))
    case Reset(k) => n.(a := n.a.(broken := true), ab := n.ab[..Min(k, |n.ab|)])
  }

  function After(e: Env, n: Net, s: Step): (r: Net) {
    if s.byA then CallByA(e, n, s.call) else Swap(CallByA(e, Swap(n), s.call))
  }

  function Reach(e: Env, n: Net, steps: seq<Step>): (r: Net)
    decreases steps
  {
    if steps == [] then n else Reach(e, After(e, n, steps[0]), steps[1..])
  }

  /** The modifiers accept what is written and can undo it. */
  ghost predicate CallLossless(e: Env, c: Conn, call: Call) {
    call.Write? && !c.broken && MaxFrame(c.config) >= OVERHEAD ==>
      FramesOk(e, c.out, c.chain, call.data, MaxPlaintext(c.config), call.pads, call.room)
  }

  function Caller(n: Net, s: Step): (r: Conn) { if s.byA then n.a else n.b }

  ghost predicate Lossless(e: Env, n: Net, steps: seq<Step>)
    decreases steps
  {
    steps != [] ==> CallLossless(e, Caller(n, steps[0]), steps[0].call) && Lossless(e, After(e, n, steps[0]), steps[1..])
  }

  /** The call is a read, or a write that reported success. */
  predicate CallSucceeds(e: Env, c: Conn, call: Call) {
    match call
    case Write(data, pads, room) => Framing.Write(e, c, data, pads, room).ok
    case Read(_) => true
    case Reset(_) => false
  }

  predicate WritesSucceed(e: Env, n: Net, steps: seq<Step>)
    decreases steps
  {
    steps != [] ==> CallSucceeds(e, Caller(n, steps[0]), steps[0].call) && WritesSucceed(e, After(e, n, steps[0]), steps[1..])
  }

  function Forward(n: Net): (r: Lane) { LaneOf(n.a, n.b, n.ab, n.writtenA, n.gotB) }

  /** Both ends just established: equal keys and states crosswise, nothing sent. */
  predicate Fresh(n: Net) {
    && Aligned(n.a.out, n.a.chain, n.b.inp, n.b.chain)
    && Aligned(n.b.out, n.b.chain, n.a.inp, n.a.chain)
    && n.a.buffer == n.b.buffer == n.ab == n.ba == []
    && n.writtenA == n.writtenB == n.gotA == n.gotB == []
    && !n.a.broken && !n.b.broken
  }

  ghost predicate BothSafe(e: Env, n: Net) { Safe(e, Forward(n)) && Safe(e, Forward(Swap(n))) }

  /** Exact, and broken at the receiving end only if it has used up its frame counter. */
  ghost predicate Intact(e: Env, l: Lane) { Healthy(e, l) && (l.inBroken ==> UsedUp(l)) }

  ghost predicate BothIntact(e: Env, n: Net) { Intact(e, Forward(n)) && Intact(e, Forward(Swap(n))) }

  lemma FreshIsSafe(e: Env, n: Net)
    requires Fresh(n)
    ensures BothSafe(e, n) && BothIntact(e, n)
  {
    EmptyDrain(e, n.b.inp, n.b.chain);
    EmptyDrain(e, n.a.inp, n.a.chain);
  }

  lemma WriteCallKeeps(e: Env, n: Net, c: Call)
    requires Sane(e) && BothSafe(e, n) && c.Write? && CallLossless(e, n.a, c)
    ensures var n' := CallByA(e, n, c); BothSafe(e, n') && (BothIntact(e, n) && CallSucceeds(e, n.a, c) ==> BothIntact(e, n'))
  {
    hide WriteAll, FramesOk, Safe, Healthy, SameIn;
    var n' := CallByA(e, n, c);
    if n.a.broken || MaxFrame(n.a.config) < OVERHEAD {
      assert n' == n;
    } else {
      var max := MaxPlaintext(n.a.config);
      var w := WriteAll(e, n.a.out, n.a.chain, c.data, max, c.pads, c.room);
      WriteKeepsSafe(e, Forward(n), c.data, max, c.pads, c.room);
      assert Forward(n') == AfterWrite(Forward(n), w, c.data);
      WriteAllKeepsIn(e, n.a.out, n.a.chain, c.data, max, c.pads, c.room);
      ReceiverWrites(e, Forward(Swap(n)), w.chain, w.status.Broke?);
    }
  }

  lemma ReadCallKeeps(e: Env, n: Net, c: Call)
    requires BothSafe(e, n) && c.Read?
    ensures var n' := CallByA(e, n, c); BothSafe(e, n') && (BothIntact(e, n) ==> BothIntact(e, n'))
  {
    hide TakeFrame, Safe, Healthy, SameOut;
    var r := Framing.Read(e, n.a, n.ba, c.size);
    ReadKeepsSafe(e, n.b, n.a, n.ba, n.writtenB, n.gotA, c.size);
    var t := TakeFrame(e, n.a.inp, n.a.chain, n.ba);
    TakeKeepsOut(e, n.a.inp, n.a.chain, n.ba);
    Unchanged(n.a.chain);
    SenderReads(e, Forward(n), r.conn.chain, r.conn.broken);
  }

  lemma ResetCallKeeps(e: Env, n: Net, c: Call)
    requires BothSafe(e, n) && c.Reset?
    ensures BothSafe(e, CallByA(e, n, c))
  {
    hide Healthy, Faulty;
    CutKeepsSafe(e, Forward(n), Min(c.k, |n.ab|));
  }

  lemma StepKeeps(e: Env, n: Net, s: Step)
    requires Sane(e) && BothSafe(e, n) && CallLossless(e, Caller(n, s), s.call)
    ensures var n' := After(e, n, s);
            BothSafe(e, n') && (BothIntact(e, n) && CallSucceeds(e, Caller(n, s), s.call) ==> BothIntact(e, n'))
  {
    hide CallByA, Safe, Healthy, CallLossless, UsedUp;
    var m := if s.byA then n else Swap(n);
    assert Swap(Swap(n)) == n;
    match s.call {
      case Write(_, _, _) => WriteCallKeeps(e, m, s.call);
      case Read(_) => ReadCallKeeps(e, m, s.call);
      case Reset(_) => ResetCallKeeps(e, m, s.call);
    }
    var m' := CallByA(e, m, s.call);
    assert Swap(Swap(m')) == m';
  }

  lemma {:induction false} RunKeeps(e: Env, n: Net, steps: seq<Step>)
    requires Sane(e) && BothSafe(e, n) && Lossless(e, n, steps)
    ensures var n' := Reach(e, n, steps);
            BothSafe(e, n') && (BothIntact(e, n) && WritesSucceed(e, n, steps) ==> BothIntact(e, n'))
    decreases steps
  {
    hide After, BothSafe, BothIntact, CallLossless, CallSucceeds;
    if steps != [] {
      StepKeeps(e, n, steps[0]);
      RunKeeps(e, After(e, n, steps[0]), steps[1..]);
    }
  }

  /**
    Whatever the two ends do, in any order, with any buffer sizes and frame sizes, with writes that fail half-way,
    frames rejected for their size and streams that end early: each end has read a prefix of what the other reported
    as written.
  */
  lemma ReadsArePrefixes(e: Env, n: Net, steps: seq<Step>)
    requires Sane(e) && Fresh(n) && Lossless(e, n, steps)
    ensures var n' := Reach(e, n, steps); n'.gotB <= n'.writtenA && n'.gotA <= n'.writtenB
  {
    FreshIsSafe(e, n);
    RunKeeps(e, n, steps);
  }

  /**
    If moreover every write succeeded, nothing is lost in either direction: read, buffered and still decodable bytes
    make up the written ones, the receiver can decode all of the wire, and then mask states, message numbers and
    modifiers of both ends agree. An end is broken only if its frame counter is used up, and then it has read it all.
  */
  lemma NothingIsLost(e: Env, n: Net, steps: seq<Step>)
    requires Sane(e) && Fresh(n) && Lossless(e, n, steps) && WritesSucceed(e, n, steps)
    ensures var n' := Reach(e, n, steps);
            && Healthy(e, Forward(n')) && Healthy(e, Forward(Swap(n')))
            && (n'.b.broken ==> n'.b.inp.frames == MAX_NONCE && n'.gotB == n'.writtenA)
            && (n'.a.broken ==> n'.a.inp.frames == MAX_NONCE && n'.gotA == n'.writtenB)
  {
    hide Healthy;
    FreshIsSafe(e, n);
    RunKeeps(e, n, steps);
    var n' := Reach(e, n, steps);
    if n'.b.broken { UsedUpHasAll(e, Forward(n')); }
    if n'.a.broken { UsedUpHasAll(e, Forward(Swap(n'))); }
  }

  /** When the frame counter is used up, everything written has been read. */
  lemma UsedUpHasAll(e: Env, l: Lane)
    requires Healthy(e, l) && UsedUp(l)
    ensures l.inp.frames == MAX_NONCE && l.got == l.written
  {
    assert DrainLane(e, l) == Drained(l.inp, l.inChain, l.wire, []) by { hide Inbound; }
    assert l.got + [] + [] == l.got;
  }

  /** k reads by b. */
  function Reading(size: nat, k: nat): (steps: seq<Step>)
    ensures |steps| == k
  {
    seq(k, _ => Step(false, Read(size)))
  }

  /** From there, reading on with any buffer size delivers every byte. */
  lemma {:induction false} EverythingArrives(e: Env, n: Net, size: nat) returns (k: nat)
    requires Healthy(e, Forward(n)) && !n.b.broken && size > 0
    ensures Reach(e, n, Reading(size, k)).gotB == n.writtenA
    decreases |n.ab|, |n.b.buffer|
  {
    hide TakeFrame, Aligned, Fault;
    var t := TakeFrame(e, n.b.inp, n.b.chain, n.ab);
    if n.b.buffer == [] && t.data.Err? {
      assert n.gotB + [] + [] == n.gotB;
      return 0;
    }
    var n' := After(e, n, Step(false, Read(size)));
    ReadKeepsSafe(e, n.a, n.b, n.ab, n.writtenA, n.gotB, size);
    assert t.data.Ok? ==> !t.broke by { TakenIsNotBroken(e, n.b.inp, n.b.chain, n.ab); }
    k := EverythingArrives(e, n', size);
    assert Reading(size, k + 1)[1..] == Reading(size, k);
    k := k + 1;
  }

  /** The modifiers accept every frame of a call, and it fits. */
  predicate FramesFit(e: Env, h: Half, chain: Modifier, b: Bytes, max: nat, pads: seq<Bytes>, room: nat)
    decreases if h.frames < MAX_NONCE then MAX_NONCE - h.frames else 0
  {
    b != [] ==>
      var chunk := Chunk(b, max);
      var one := WriteFrame(e, h, chain, chunk, pads, room);
      && Outbound(e.p, chain, DATA, chunk, pads).data.Ok? && !TooLarge(e, h, chain, chunk, pads)
      && (one.status.Done? ==> FramesFit(e, one.half, one.chain, b[|chunk|..], max, one.pads, room - |one.sent|))
  }

  lemma FrameSucceeds(e: Env, h: Half, chain: Modifier, chunk: Bytes, pads: seq<Bytes>, room: nat)
    requires Outbound(e.p, chain, DATA, chunk, pads).data.Ok? && !TooLarge(e, h, chain, chunk, pads)
    requires h.frames < MAX_NONCE && h.nonce <= MAX_NONCE && room >= 2 + MAX_FRAME
    ensures var w := WriteFrame(e, h, chain, chunk, pads, room);
            && w.status.Done? && |w.sent| <= 2 + MAX_FRAME
            && w.half.nonce == h.nonce + 1 && w.half.frames == h.frames + 1
  {
    hide Outbound;
  }

  lemma RoomLeft(room: nat, n: nat, used: nat, chunk: nat, unit: nat)
    requires room >= n * unit && used <= unit && chunk <= n && n > 0 && (used > 0 ==> chunk > 0)
    ensures room >= unit && room - used >= (n - chunk) * unit
  {
    assert n * unit == (n - 1) * unit + unit;
    assert chunk > 0 ==> (n - 1) * unit >= (n - chunk) * unit;
  }

  /**
    A write succeeds if its frames fit, message numbers are left and the socket takes the bytes. Whether the receiver
    still opens what is written makes no difference.
  */
  lemma {:induction false} WriteSucceeds(e: Env, h: Half, chain: Modifier, b: Bytes, max: nat, pads: seq<Bytes>, room: nat)
    requires FramesFit(e, h, chain, b, max, pads, room) && 0 < max
    requires h.frames + |b| <= MAX_NONCE && h.nonce + |b| <= MAX_NONCE + 1 && room >= |b| * (2 + MAX_FRAME)
    ensures WriteAll(e, h, chain, b, max, pads, room).status.Done?
    decreases |b|
  {
    hide WriteFrame, TooLarge, Outbound;
    if b != [] {
      var chunk := Chunk(b, max);
      RoomLeft(room, |b|, 0, 0, 2 + MAX_FRAME);
      FrameSucceeds(e, h, chain, chunk, pads, room);
      var one := WriteFrame(e, h, chain, chunk, pads, room);
      RoomLeft(room, |b|, |one.sent|, |chunk|, 2 + MAX_FRAME);
      WriteSucceeds(e, one.half, one.chain, b[|chunk|..], max, one.pads, room - |one.sent|);
    }
  }

  /** Frames fit whenever the frame size leaves room for the growth of the chain. */
  lemma {:induction false} ConfigFits(e: Env, h: Half, chain: Modifier, b: Bytes, config: int, pads: seq<Bytes>, room: nat)
    requires SealAddsTag(e.cr) && MaxFrame(config) >= OVERHEAD && MaxFrame(config) + Growth(chain) <= MAX_FRAME
    requires FramesOk(e, h, chain, b, MaxPlaintext(config), pads, room)
    ensures FramesFit(e, h, chain, b, MaxPlaintext(config), pads, room)
    decreases if h.frames < MAX_NONCE then MAX_NONCE - h.frames else 0
  {
    hide WriteFrame, TooLarge, Recoverable, Growth;
    if b != [] {
      var max := MaxPlaintext(config);
      var chunk := Chunk(b, max);
      var one := WriteFrame(e, h, chain, chunk, pads, room);
      NeverOversize(e, h, chain, b, config, pads);
      if one.status.Done? {
        FrameKeepsGrowth(e, h, chain, chunk, pads, room);
        ConfigFits(e, one.half, one.chain, b[|chunk|..], config, one.pads, room - |one.sent|);
      }
    }
  }

  lemma FrameKeepsGrowth(e: Env, h: Half, chain: Modifier, chunk: Bytes, pads: seq<Bytes>, room: nat)
    ensures Growth(WriteFrame(e, h, chain, chunk, pads, room).chain) == Growth(chain)
  {
    hide Outbound, Growth;
    GrowthBound(e.p, chain, chunk, pads);
  }

  // ----- after a rejected frame -----------------------------------------------------------------

  /** The receiver has read no more than `cap` and never will. */
  ghost predicate Capped(e: Env, l: Lane, cap: Bytes) {
    l.got <= cap && (l.inBroken || Faulty(e, l.(written := cap)))
  }

  lemma FrameKeepsCap(e: Env, l: Lane, cap: Bytes, chunk: Bytes, pads: seq<Bytes>, room: nat)
    requires Sane(e) && Capped(e, l, cap) && !l.outBroken && FrameOk(e, l.outChain, chunk, pads)
    ensures Capped(e, AfterFrame(l, WriteFrame(e, l.out, l.outChain, chunk, pads, room), chunk), cap)
  {
    hide WriteFrame, FrameOk, Fault, Drain;
    if !l.inBroken { FaultyFrame(e, l.(written := cap), chunk, pads, room); }
  }

  lemma {:induction false} WriteKeepsCap(e: Env, l: Lane, cap: Bytes, b: Bytes, max: nat, pads: seq<Bytes>, room: nat)
    requires Sane(e) && Capped(e, l, cap) && !l.outBroken && FramesOk(e, l.out, l.outChain, b, max, pads, room)
    ensures Capped(e, AfterWrite(l, WriteAll(e, l.out, l.outChain, b, max, pads, room), b), cap)
    decreases if l.out.frames < MAX_NONCE then MAX_NONCE - l.out.frames else 0
  {
    hide WriteFrame, FrameOk, Capped;
    if b == [] {
      assert AfterWrite(l, WriteAll(e, l.out, l.outChain, b, max, pads, room), b) == l;
    } else {
      var chunk := Chunk(b, max);
      var one := WriteFrame(e, l.out, l.outChain, chunk, pads, room);
      FrameKeepsCap(e, l, cap, chunk, pads, room);
      AfterWritePeels(e, l, b, max, pads, room);
      if one.status.Done? {
        WriteKeepsCap(e, AfterFrame(l, one, chunk), cap, b[|chunk|..], max, one.pads, room - |one.sent|);
      }
    }
  }

  lemma CallKeepsCap(e: Env, n: Net, cap: Bytes, s: Step)
    requires Sane(e) && Capped(e, Forward(n), cap) && CallLossless(e, Caller(n, s), s.call)
    ensures Capped(e, Forward(After(e, n, s)), cap)
  {
    hide WriteAll, FramesOk, TakeFrame, Faulty, SameIn, SameOut;
    var l := Forward(n).(written := cap);
    match s.call
    case Write(data, pads, room) =>
      var c := Caller(n, s);
      if !c.broken && MaxFrame(c.config) >= OVERHEAD {
        var max := MaxPlaintext(c.config);
        var w := WriteAll(e, c.out, c.chain, data, max, pads, room);
        if s.byA {
          WriteKeepsCap(e, Forward(n), cap, data, max, pads, room);
          assert Forward(After(e, n, s)) == AfterWrite(Forward(n), w, data);
        } else if !n.b.broken {
          WriteAllKeepsIn(e, c.out, c.chain, data, max, pads, room);
          ReceiverWrites(e, l, w.chain, w.status.Broke?);
        }
      } else {
        assert After(e, n, s) == n;
      }
    case Read(size) =>
      if s.byA && !n.b.broken {
        var r := Framing.Read(e, n.a, n.ba, size);
        TakeKeepsOut(e, n.a.inp, n.a.chain, n.ba);
        Unchanged(n.a.chain);
        SenderReads(e, l, r.conn.chain, r.conn.broken);
      } else if !s.byA {
        ReadKeepsSafe(e, n.a, n.b, n.ab, cap, n.gotB, size);
      }
    case Reset(k) =>
      if s.byA && !n.b.broken { CutKeepsFaulty(e, l, Min(k, |n.ab|)); }
  }

  lemma {:induction false} RunKeepsCap(e: Env, n: Net, cap: Bytes, steps: seq<Step>)
    requires Sane(e) && Capped(e, Forward(n), cap) && Lossless(e, n, steps)
    ensures Capped(e, Forward(Reach(e, n, steps)), cap)
    decreases steps
  {
    hide After, Capped, CallLossless;
    if steps != [] {
      CallKeepsCap(e, n, cap, steps[0]);
      RunKeepsCap(e, After(e, n, steps[0]), cap, steps[1..]);
    }
  }

  /**
    A write that fails without breaking the connection (its frame was too large, but its message number is gone) ends
    the direction for good: whatever is written later, successfully or not, is never read.
  */
  lemma RejectionEndsStream(e: Env, n: Net, before: seq<Step>, data: Bytes, pads: seq<Bytes>, room: nat, after: seq<Step>)
    requires Sane(e) && Fresh(n) && Lossless(e, n, before) && WritesSucceed(e, n, before)
    requires var m := Reach(e, n, before);
             var w := Framing.Write(e, m.a, data, pads, room);
             var m' := After(e, m, Step(true, Write(data, pads, room)));
             && !m.a.broken && MaxFrame(m.a.config) >= OVERHEAD && !w.ok && !w.conn.broken
             && CallLossless(e, m.a, Write(data, pads, room)) && Lossless(e, m', after)
    ensures var m' := After(e, Reach(e, n, before), Step(true, Write(data, pads, room)));
            Reach(e, m', after).gotB <= m'.writtenA
  {
    hide WriteAll, FramesOk, TakeFrame, Healthy, Faulty;
    FreshIsSafe(e, n);
    RunKeeps(e, n, before);
    var m := Reach(e, n, before);
    var m' := After(e, m, Step(true, Write(data, pads, room)));
    var max := MaxPlaintext(m.a.config);
    var w := WriteAll(e, m.a.out, m.a.chain, data, max, pads, room);
    WriteKeepsSafe(e, Forward(m), data, max, pads, room);
    assert Forward(m') == AfterWrite(Forward(m), w, data);
    RunKeepsCap(e, m', m'.writtenA, after);
  }

  // ----- a rejection at work ----------------------------------------------------------------------

  /** One byte of padding, or none. */
  const SMALL_PAD := BlockPad(0, 1, true)

  /** A full frame and a byte of padding do not fit together, and nothing about them is ambiguous. */
  lemma PaddedFullFrame(e: Env, h: Half, data: Bytes, x: byte)
    requires SealAddsTag(e.cr) && |data| == MAX_FRAME - OVERHEAD
    ensures TooLarge(e, h, SMALL_PAD, data, [[x]]) && FrameOk(e, SMALL_PAD, data, [[x]])
    ensures Outbound(e.p, SMALL_PAD, DATA, data, [[x]]).m == SMALL_PAD
  {
    var p := PaddingEngine.Padded(data, [x]);
    assert |p| == |data| + 4 && p[|p| - 3] == Be16(1)[0] == 0;
    assert !PaddingEngine.SelfConsistent(p, 0);
  }

  /** A single byte without padding does fit. */
  lemma UnpaddedByte(e: Env, h: Half, y: byte)
    requires SealAddsTag(e.cr)
    ensures !TooLarge(e, h, SMALL_PAD, [y], [[]]) && FrameOk(e, SMALL_PAD, [y], [[]])
  {}

  lemma RejectedWrite(e: Env, c: Conn, data: Bytes, x: byte, room: nat)
    requires SealAddsTag(e.cr) && c.chain == SMALL_PAD && c.config == MAX_FRAME && !c.broken
    requires |data| == MAX_FRAME - OVERHEAD && c.out.frames < MAX_NONCE && c.out.nonce <= MAX_NONCE
    ensures var w := Framing.Write(e, c, data, [[x]], room);
            !w.ok && w.count == 0 && w.sent == [] && w.conn == c.(out := c.out.(nonce := c.out.nonce + 1))
    ensures CallLossless(e, c, Write(data, [[x]], room))
  {
    PaddedFullFrame(e, c.out, data, x);
    TooLargeIsRejected(e, c.out, SMALL_PAD, data, [[x]], room);
    hide Outbound, Recoverable;
    var w := WriteFrame(e, c.out, SMALL_PAD, data, [[x]], room);
    assert Chunk(data, MaxPlaintext(MAX_FRAME)) == data;
    assert w.chain == SMALL_PAD;
  }

  lemma AcceptedWrite(e: Env, c: Conn, y: byte, room: nat)
    requires SealAddsTag(e.cr) && c.chain == SMALL_PAD && c.config == MAX_FRAME && !c.broken
    requires c.out.frames < MAX_NONCE && c.out.nonce <= MAX_NONCE && room >= 2 + MAX_FRAME
    ensures var w := Framing.Write(e, c, [y], [[]], room); w.ok && w.count == 1
    ensures CallLossless(e, c, Write([y], [[]], room))
  {
    UnpaddedByte(e, c.out, y);
    FrameSucceeds(e, c.out, SMALL_PAD, [y], [[]], room);
    hide Outbound, Recoverable, WriteFrame;
    var max, b := MaxPlaintext(MAX_FRAME), [y];
    assert Chunk(b, max) == b && b[|b|..] == [];
    var one := WriteFrame(e, c.out, SMALL_PAD, b, [[]], room);
    var left := room - |one.sent|;
    assert WriteAll(e, one.half, one.chain, [], max, one.pads, left) == Written(one.half, one.chain, [], 0, Done);
    assert FramesOk(e, one.half, one.chain, [], max, one.pads, left);
    assert WriteAll(e, c.out, SMALL_PAD, b, max, [[]], room).status == Done;
  }

  /**
    On every fresh pair of connections with such a chain and the largest frame size: a full chunk that draws a byte of
    padding is rejected, the next write reports success, and no read of any continuation ever returns its byte.
  */
  lemma RejectionLosesWrites(e: Env, n: Net, data: Bytes, x: byte, y: byte, room: nat, after: seq<Step>)
    requires Sane(e) && Fresh(n) && n.a.chain == SMALL_PAD && n.a.config == MAX_FRAME && n.a.out.frames < MAX_NONCE
    requires |data| == MAX_FRAME - OVERHEAD && room >= 2 + MAX_FRAME
    requires var n1 := After(e, n, Step(true, Write(data, [[x]], room)));
             Lossless(e, After(e, n1, Step(true, Write([y], [[]], room))), after)
    ensures var n1 := After(e, n, Step(true, Write(data, [[x]], room)));
            var n2 := After(e, n1, Step(true, Write([y], [[]], room)));
            && !CallSucceeds(e, n.a, Write(data, [[x]], room)) && !n1.a.broken && n1.writtenA == []
            && CallSucceeds(e, n1.a, Write([y], [[]], room)) && n2.writtenA == [y]
            && Reach(e, n2, after).gotB == []
  {
    hide Framing.Write, Framing.Read, Reach, CallLossless, Lossless;
    var first, second := Step(true, Write(data, [[x]], room)), Step(true, Write([y], [[]], room));
    var n1 := After(e, n, first);
    RejectedWrite(e, n.a, data, x, room);
    assert n1.writtenA == [];
    AcceptedWrite(e, n1.a, y, room);
    var n2 := After(e, n1, second);
    assert n2.writtenA == [y] by { assert [y][..1] == [y]; }
    var rest := [second] + after;
    OneMoreStep(e, n1, second, after);
    NoSteps(e, n);
    RejectionEndsStream(e, n, [], data, [[x]], room, rest);
  }

  lemma OneMoreStep(e: Env, n: Net, s: Step, after: seq<Step>)
    requires CallLossless(e, Caller(n, s), s.call) && Lossless(e, After(e, n, s), after)
    ensures Lossless(e, n, [s] + after) && Reach(e, n, [s] + after) == Reach(e, After(e, n, s), after)
  {
    hide After, CallLossless;
    assert ([s] + after)[0] == s && ([s] + after)[1..] == after;
  }

  lemma NoSteps(e: Env, n: Net)
    ensures Reach(e, n, []) == n && Lossless(e, n, []) && WritesSucceed(e, n, [])
  {}
}
