/** The NTCP2 data phase: splitting, modifying, sealing and length-masking on the way out, and the reverse on the way in. */
module Framing {
  import opened Common
  import opened Crypto
  import opened Modifiers

  const MAX_NONCE := 0xFFFF_FFFF_FFFF_FFFE
  const MAX_FRAME := 65535
  const MIN_FRAME := 16
  const OVERHEAD := 16
  const DEFAULT_FRAME := 16384

  datatype Env = Env(cr: Suite, p: Ciphers)

  /**
    One direction of a connection: the cipher key and its message number, the count of frames moved, and the SipHash
    keys and state of the length mask.
  */
  datatype Half = Half(key: Bytes, nonce: nat, frames: nat, sipKeys: Bytes, iv: nat)

  /** An established connection; `config` is the configured frame size. */
  datatype Conn = Conn(out: Half, inp: Half, chain: Modifier, config: int, buffer: Bytes, broken: bool)

  /** An out-of-range setting falls back to the default. */
  function MaxFrame(config: int): (m: nat)
    ensures m <= MAX_FRAME
  {
    if 0 < config <= MAX_FRAME then config else DEFAULT_FRAME
  }

  /** Settings from 1 to 65535 are taken as they are; for any other frames of 16384 bytes are used. */
  lemma FrameSizes(config: int)
    ensures 1 <= config <= 65535 ==> MaxFrame(config) == config
    ensures config < 1 || config > 65535 ==> MaxFrame(config) == 16384
  {}

  /** What is left of a frame for data. */
  function MaxPlaintext(config: int): (m: nat)
    requires MaxFrame(config) >= OVERHEAD
  {
    MaxFrame(config) - OVERHEAD
  }

  // ----- one frame -----------------------------------------------------------------------------

  function Frame(ct: Bytes, iv: nat): (r: Bytes) { Be16(Common.Xor(16, |ct|, MaskOf(iv))) + ct }

  /** Length field at the head of the wire, unmasked with the next mask. */
  function LengthAt(e: Env, h: Half, wire: Bytes): (n: nat)
    requires |wire| >= 2
    ensures n < U16
  {
    Pow2Values();
    Common.Xor(16, ReadBe16(wire[..2]), MaskOf(NextIV(e.p, h.sipKeys, h.iv)))
  }

  datatype Status = Done | Rejected | Broke

  datatype Wrote = Wrote(half: Half, chain: Modifier, sent: Bytes, pads: seq<Bytes>, status: Status)

  /**
    writeSingleFrame. `room` is what the socket takes before it fails. A frame too large is rejected after sealing: the
    message number is used up, the mask is not. The cipher refuses message number 2^64-1 (section 5.1 of the Noise
    Protocol Framework).
  */
  function WriteFrame(e: Env, h: Half, chain: Modifier, chunk: Bytes, pads: seq<Bytes>, room: nat): (w: Wrote)
    ensures w.status.Done? ==> h.frames < MAX_NONCE && w.half.frames == h.frames + 1 && |w.sent| <= room
  {
    if h.frames >= MAX_NONCE then Wrote(h, chain, [], pads, Broke)
    else
      var out := Outbound(e.p, chain, DATA, chunk, pads);
      if out.data.Err? || h.nonce > MAX_NONCE then Wrote(h, out.m, [], out.pads, Rejected)
      else
        var ct := e.cr.seal(h.key, h.nonce, [], out.data.value);
        var sealed := h.(nonce := h.nonce + 1);
        if |ct| > MAX_FRAME then Wrote(sealed, out.m, [], out.pads, Rejected)
        else
          var iv := NextIV(e.p, h.sipKeys, h.iv);
          var frame := Frame(ct, iv);
          if room < |frame| then Wrote(sealed.(iv := iv), out.m, frame[..room], out.pads, Broke)
          else Wrote(sealed.(iv := iv, frames := h.frames + 1), out.m, frame, out.pads, Done)
  }

  datatype Taken = Taken(half: Half, chain: Modifier, rest: Bytes, data: Result<Bytes>, broke: bool)

  /** readFramed up to buffering, over the bytes that arrive before the stream ends. */
  function TakeFrame(e: Env, h: Half, chain: Modifier, wire: Bytes): (t: Taken)
    ensures t.data.Ok? ==> |t.rest| < |wire|
  {
    if h.frames >= MAX_NONCE then Taken(h, chain, wire, Err, true)
    else if |wire| < 2 then Taken(h, chain, [], Err, false)
    else
      var n := LengthAt(e, h, wire);
      var masked := h.(iv := NextIV(e.p, h.sipKeys, h.iv));
      if n < MIN_FRAME then Taken(masked, chain, wire[2..], Err, true)
      else if |wire| < 2 + n then Taken(masked, chain, [], Err, true)
      else
        match e.cr.open(h.key, h.nonce, [], wire[2..2 + n])
        case None => Taken(masked, chain, wire[2 + n..], Err, true)
        case Some(plain) =>
          var unsealed := masked.(nonce := h.nonce + 1);
          var (chain', data) := Inbound(e.p, chain, DATA, plain);
          var next := if data.Ok? then unsealed.(frames := h.frames + 1) else unsealed;
          Taken(next, chain', wire[2 + n..], data, false)
  }

  // ----- whole calls ---------------------------------------------------------------------------

  datatype Written = Written(half: Half, chain: Modifier, sent: Bytes, count: nat, status: Status)

  function Chunk(b: Bytes, max: nat): (r: Bytes) { if |b| > max then b[..max] else b }

  /** The split loop of writeFramed. The frame counter bounds it even when no byte fits into a frame. */
  function WriteAll(e: Env, h: Half, chain: Modifier, b: Bytes, max: nat, pads: seq<Bytes>, room: nat): (w: Written)
    ensures w.count <= |b|
    decreases if h.frames < MAX_NONCE then MAX_NONCE - h.frames else 0
  {
    if b == [] then Written(h, chain, [], 0, Done)
    else
      var chunk := Chunk(b, max);
      var one := WriteFrame(e, h, chain, chunk, pads, room);
      if !one.status.Done? then Written(one.half, one.chain, one.sent, 0, one.status)
      else
        var more := WriteAll(e, one.half, one.chain, b[|chunk|..], max, one.pads, room - |one.sent|);
        Written(more.half, more.chain, one.sent + more.sent, |chunk| + more.count, more.status)
  }

  /** What a call amounts to that has put `sent` on the wire and counted `count` bytes before w. */
  function Resume(sent: Bytes, count: nat, w: Written): (r: Written) {
    Written(w.half, w.chain, sent + w.sent, count + w.count, w.status)
  }

  lemma WriteAllPeels(e: Env, h: Half, chain: Modifier, b: Bytes, max: nat, pads: seq<Bytes>, room: nat, sent: Bytes, count: nat)
    requires b != []
    ensures var chunk := Chunk(b, max);
            var one := WriteFrame(e, h, chain, chunk, pads, room);
            Resume(sent, count, WriteAll(e, h, chain, b, max, pads, room)) ==
            if !one.status.Done? then Written(one.half, one.chain, sent + one.sent, count, one.status)
            else Resume(sent + one.sent, count + |chunk|,
                        WriteAll(e, one.half, one.chain, b[|chunk|..], max, one.pads, room - |one.sent|))
  {
    hide WriteFrame;
    var chunk := Chunk(b, max);
    var one := WriteFrame(e, h, chain, chunk, pads, room);
    if one.status.Done? {
      var more := WriteAll(e, one.half, one.chain, b[|chunk|..], max, one.pads, room - |one.sent|);
      assert sent + (one.sent + more.sent) == sent + one.sent + more.sent;
    }
  }

  datatype WriteResult = WriteResult(conn: Conn, sent: Bytes, count: nat, ok: bool)

  function Write(e: Env, c: Conn, b: Bytes, pads: seq<Bytes>, room: nat): (w: WriteResult)
    ensures w.count <= |b|
  {
    if c.broken || MaxFrame(c.config) < OVERHEAD then WriteResult(c, [], 0, false)
    else
      var w := WriteAll(e, c.out, c.chain, b, MaxPlaintext(c.config), pads, room);
      WriteResult(c.(out := w.half, chain := w.chain, broken := w.status.Broke?), w.sent, w.count, w.status.Done?)
  }

  datatype ReadResult = ReadResult(conn: Conn, rest: Bytes, data: Result<Bytes>)

  /** A read into a buffer of `size` bytes: leftovers first, then the next frame. */
  function Read(e: Env, c: Conn, wire: Bytes, size: nat): (r: ReadResult) {
    if c.broken then ReadResult(c, wire, Err)
    else if c.buffer != [] then
      var n := Min(size, |c.buffer|);
      ReadResult(c.(buffer := c.buffer[n..]), wire, Ok(c.buffer[..n]))
    else
      var t := TakeFrame(e, c.inp, c.chain, wire);
      var c' := c.(inp := t.half, chain := t.chain, broken := t.broke);
      if t.data.Err? then ReadResult(c', t.rest, Err)
      else
        var n := Min(size, |t.data.value|);
        ReadResult(c'.(buffer := t.data.value[n..]), t.rest, Ok(t.data.value[..n]))
  }

  // ----- the split loop ------------------------------------------------------------------------

  /** A frame size that leaves no room for data never completes a write: it fails once the frame counter is used up. */
  lemma {:induction false} NoRoomNeverSucceeds(e: Env, h: Half, chain: Modifier, b: Bytes, pads: seq<Bytes>, room: nat)
    requires b != []
    ensures var w := WriteAll(e, h, chain, b, 0, pads, room); !w.status.Done? && w.count == 0
    decreases if h.frames < MAX_NONCE then MAX_NONCE - h.frames else 0
  {
    hide WriteFrame;
    var one := WriteFrame(e, h, chain, [], pads, room);
    assert Chunk(b, 0) == [] && b[0..] == b;
    if one.status.Done? {
      NoRoomNeverSucceeds(e, one.half, one.chain, b, one.pads, room - |one.sent|);
    }
  }

  /** k frames are the fewest that hold n bytes. */
  ghost predicate Fewest(k: int, max: nat, n: nat) {
    n <= k * max && (if n == 0 then k == 0 else (k - 1) * max < n)
  }

  lemma FewestStep(k: int, max: nat, n: nat)
    requires n > 0 && max > 0 && Fewest(k, max, if n > max then n - max else 0)
    ensures Fewest(k + 1, max, n)
  {
    assert (k + 1) * max == k * max + max;
    assert (k - 1) * max + max == k * max;
  }

  /** A completed write accepts all bytes, in the fewest frames that can hold them. */
  lemma {:induction false} WriteUsesFewestFrames(e: Env, h: Half, chain: Modifier, b: Bytes, max: nat, pads: seq<Bytes>, room: nat)
    requires max > 0 && WriteAll(e, h, chain, b, max, pads, room).status.Done?
    ensures var w := WriteAll(e, h, chain, b, max, pads, room);
            w.count == |b| && Fewest(w.half.frames - h.frames, max, |b|)
    decreases |b|
  {
    hide WriteFrame;
    if b != [] {
      var chunk := Chunk(b, max);
      var one := WriteFrame(e, h, chain, chunk, pads, room);
      WriteUsesFewestFrames(e, one.half, one.chain, b[|chunk|..], max, one.pads, room - |one.sent|);
      var more := WriteAll(e, one.half, one.chain, b[|chunk|..], max, one.pads, room - |one.sent|);
      FewestStep(more.half.frames - one.half.frames, max, |b|);
    }
  }

  // ----- what is on the wire ---------------------------------------------------------------------

  /** State of the length mask after n frames: SipHash applied n times to the initial state. */
  function MaskState(p: Ciphers, keys: Bytes, iv: nat, n: nat): (r: nat) {
    if n == 0 then iv else p.sip(keys, MaskState(p, keys, iv, n - 1))
  }

  /** The chunks of a write as the modifiers leave them, each with the state the one before left. */
  function Pieces(p: Ciphers, chain: Modifier, b: Bytes, max: nat, pads: seq<Bytes>): (r: seq<Bytes>)
    requires max > 0
    decreases |b|
  {
    if b == [] then []
    else
      var out := Outbound(p, chain, DATA, Chunk(b, max), pads);
      if out.data.Err? then [] else [out.data.value] + Pieces(p, out.m, b[|Chunk(b, max)|..], max, out.pads)
  }

  /**
    Frames i and up of a direction: the length of the ciphertext, exclusive-or the low 16 bits of the mask state, most
    significant byte first, then the piece sealed under the next message number.
  */
  function Frames(e: Env, h: Half, i: nat, pieces: seq<Bytes>): (r: Bytes)
    decreases |pieces|
  {
    if pieces == [] then []
    else
      var ct := e.cr.seal(h.key, h.nonce + i, [], pieces[0]);
      Be16(Common.Xor(16, |ct|, MaskState(e.p, h.sipKeys, h.iv, i + 1) % 0x1_0000)) + ct + Frames(e, h, i + 1, pieces[1..])
  }

  /** Where a direction stands after n frames. */
  function Ahead(e: Env, h: Half, n: nat): (r: Half) {
    h.(nonce := h.nonce + n, frames := h.frames + n, iv := MaskState(e.p, h.sipKeys, h.iv, n))
  }

  lemma {:induction false} MaskStateAdds(p: Ciphers, keys: Bytes, iv: nat, n: nat)
    ensures MaskState(p, keys, p.sip(keys, iv), n) == MaskState(p, keys, iv, n + 1)
  {
    if n > 0 { MaskStateAdds(p, keys, iv, n - 1); }
  }

  lemma {:induction false} FramesAhead(e: Env, h: Half, i: nat, pieces: seq<Bytes>)
    ensures Frames(e, Ahead(e, h, 1), i, pieces) == Frames(e, h, i + 1, pieces)
    decreases |pieces|
  {
    if pieces != [] {
      FramesAhead(e, h, i + 1, pieces[1..]);
      assert MaskState(e.p, h.sipKeys, h.iv, 1) == e.p.sip(h.sipKeys, h.iv);
      MaskStateAdds(e.p, h.sipKeys, h.iv, i + 1);
    }
  }

  /** One frame that was written. */
  lemma FrameIs(e: Env, h: Half, chain: Modifier, chunk: Bytes, pads: seq<Bytes>, room: nat)
    requires WriteFrame(e, h, chain, chunk, pads, room).status.Done?
    ensures var (w, out) := (WriteFrame(e, h, chain, chunk, pads, room), Outbound(e.p, chain, DATA, chunk, pads));
            && out.data.Ok? && w.chain == out.m && w.pads == out.pads
            && w.half == Ahead(e, h, 1) && w.sent == Frames(e, h, 0, [out.data.value])
  {
    assert MaskState(e.p, h.sipKeys, h.iv, 1) == e.p.sip(h.sipKeys, MaskState(e.p, h.sipKeys, h.iv, 0));
    var out := Outbound(e.p, chain, DATA, chunk, pads);
    assert [out.data.value][1..] == [];
  }

  lemma EmptyWrite(e: Env, h: Half, chain: Modifier, max: nat, pads: seq<Bytes>, room: nat)
    requires max > 0
    ensures WriteAll(e, h, chain, [], max, pads, room) == Written(h, chain, [], 0, Done)
    ensures Pieces(e.p, chain, [], max, pads) == [] && Frames(e, h, 0, []) == [] && Ahead(e, h, 0) == h
  {}

  lemma ChunkShrinks(b: Bytes, max: nat)
    requires b != [] && max > 0
    ensures 0 < |Chunk(b, max)| <= |b|
  {}

  lemma DoneUnfolds(e: Env, h: Half, chain: Modifier, b: Bytes, max: nat, pads: seq<Bytes>, room: nat)
    requires b != [] && WriteAll(e, h, chain, b, max, pads, room).status.Done?
    ensures var (chunk, w) := (Chunk(b, max), WriteAll(e, h, chain, b, max, pads, room));
            var one := WriteFrame(e, h, chain, chunk, pads, room);
            && one.status.Done? && |one.sent| <= room
            && var more := WriteAll(e, one.half, one.chain, b[|chunk|..], max, one.pads, room - |one.sent|);
            more.status.Done? && w.sent == one.sent + more.sent && w.half == more.half
  {
    hide WriteFrame;
  }

  lemma PiecesUnfold(p: Ciphers, chain: Modifier, b: Bytes, max: nat, pads: seq<Bytes>)
    requires max > 0 && b != [] && Outbound(p, chain, DATA, Chunk(b, max), pads).data.Ok?
    ensures var out := Outbound(p, chain, DATA, Chunk(b, max), pads);
            Pieces(p, chain, b, max, pads) == [out.data.value] + Pieces(p, out.m, b[|Chunk(b, max)|..], max, out.pads)
  {
    hide Outbound;
  }

  lemma AheadTwice(e: Env, h: Half, n: nat)
    ensures Ahead(e, Ahead(e, h, 1), n) == Ahead(e, h, n + 1)
  {
    assert MaskState(e.p, h.sipKeys, h.iv, 1) == e.p.sip(h.sipKeys, MaskState(e.p, h.sipKeys, h.iv, 0));
    MaskStateAdds(e.p, h.sipKeys, h.iv, n);
  }

  lemma FramesCons(e: Env, h: Half, piece: Bytes, rest: seq<Bytes>)
    ensures Frames(e, h, 0, [piece] + rest) == Frames(e, h, 0, [piece]) + Frames(e, h, 1, rest)
  {
    assert ([piece] + rest)[1..] == rest && [piece][1..] == [];
  }

  /** A completed write has put exactly these frames on the wire, numbered and masked from where the direction stood. */
  lemma {:induction false} WireIs(e: Env, h: Half, chain: Modifier, b: Bytes, max: nat, pads: seq<Bytes>, room: nat)
    requires max > 0 && WriteAll(e, h, chain, b, max, pads, room).status.Done?
    ensures var (w, pieces) := (WriteAll(e, h, chain, b, max, pads, room), Pieces(e.p, chain, b, max, pads));
            w.sent == Frames(e, h, 0, pieces) && w.half == Ahead(e, h, |pieces|)
    decreases |b|
  {
    hide WriteFrame, Outbound, Frames, MaskState, Ahead, WriteAll, Pieces, Chunk;
    if b == [] {
      EmptyWrite(e, h, chain, max, pads, room);
    } else {
      var chunk := Chunk(b, max);
      var one := WriteFrame(e, h, chain, chunk, pads, room);
      DoneUnfolds(e, h, chain, b, max, pads, room);
      FrameIs(e, h, chain, chunk, pads, room);
      ChunkShrinks(b, max);
      var piece := Outbound(e.p, chain, DATA, chunk, pads).data.value;
      var rest := Pieces(e.p, one.chain, b[|chunk|..], max, one.pads);
      PiecesUnfold(e.p, chain, b, max, pads);
      WireIs(e, one.half, one.chain, b[|chunk|..], max, one.pads, room - |one.sent|);
      FramesAhead(e, h, 0, rest);
      AheadTwice(e, h, |rest|);
      FramesCons(e, h, piece, rest);
    }
  }

  /** The modifiers accept the chunk, but with their padding it does not fit into a frame. */
  predicate TooLarge(e: Env, h: Half, chain: Modifier, chunk: Bytes, pads: seq<Bytes>) {
    var out := Outbound(e.p, chain, DATA, chunk, pads);
    out.data.Ok? && |e.cr.seal(h.key, h.nonce, [], out.data.value)| > MAX_FRAME
  }

  /** With room for the modifiers' growth in the largest frame, no frame is rejected for its size. */
  lemma NeverOversize(e: Env, h: Half, chain: Modifier, b: Bytes, config: int, pads: seq<Bytes>)
    requires SealAddsTag(e.cr) && OVERHEAD <= MaxFrame(config) && MaxFrame(config) + Growth(chain) <= MAX_FRAME
    ensures !TooLarge(e, h, chain, Chunk(b, MaxPlaintext(config)), pads)
  {
    GrowthBound(e.p, chain, Chunk(b, MaxPlaintext(config)), pads);
  }

  /** A full chunk with the largest paddings. */
  lemma LargestFrame(e: Env, h: Half, chain: Modifier, config: int) returns (b: Bytes)
    requires SealAddsTag(e.cr) && Usable(chain) && OVERHEAD <= MaxFrame(config)
    requires MaxFrame(config) + Growth(chain) > MAX_FRAME
    ensures b != [] && TooLarge(e, h, chain, Chunk(b, MaxPlaintext(config)), LargestPads(chain))
  {
    var max := MaxPlaintext(config);
    b := seq(Max(max, 1), _ => 0);
    assert |Chunk(b, max)| == max;
    GrowthReached(e.p, chain, Chunk(b, max), []);
    assert LargestPads(chain) + [] == LargestPads(chain);
  }

  /** The first frame of a write is too large. */
  predicate StartsTooLarge(e: Env, h: Half, chain: Modifier, b: Bytes, max: nat, pads: seq<Bytes>) {
    b != [] && TooLarge(e, h, chain, Chunk(b, max), pads)
  }

  /** Some write meets an oversize frame exactly if frame size and growth of the chain exceed 65535 together. */
  lemma OversizeIff(e: Env, h: Half, chain: Modifier, config: int)
    requires SealAddsTag(e.cr) && Usable(chain) && OVERHEAD <= MaxFrame(config)
    ensures (exists b, pads :: StartsTooLarge(e, h, chain, b, MaxPlaintext(config), pads)) <==>
            MaxFrame(config) + Growth(chain) > MAX_FRAME
  {
    hide TooLarge;
    if MaxFrame(config) + Growth(chain) > MAX_FRAME {
      var b := LargestFrame(e, h, chain, config);
      assert StartsTooLarge(e, h, chain, b, MaxPlaintext(config), LargestPads(chain));
    } else {
      forall b, pads ensures !StartsTooLarge(e, h, chain, b, MaxPlaintext(config), pads) {
        NeverOversize(e, h, chain, b, config, pads);
      }
    }
  }

  /** Such a frame is rejected after sealing: its message number is gone, the mask state is not touched. */
  lemma TooLargeIsRejected(e: Env, h: Half, chain: Modifier, chunk: Bytes, pads: seq<Bytes>, room: nat)
    requires TooLarge(e, h, chain, chunk, pads) && h.frames < MAX_NONCE && h.nonce <= MAX_NONCE
    ensures var w := WriteFrame(e, h, chain, chunk, pads, room);
            w.status == Rejected && w.sent == [] && w.half == h.(nonce := h.nonce + 1)
  {}

  // ----- the connection object -----------------------------------------------------------------

  class NTCP2Conn {
    var out: Half
    var inp: Half
    var chain: Modifier
    var config: int
    var readBuffer: Bytes
    var broken: bool

    function Value(): (r: Conn)
      reads this
    {
      Conn(out, inp, chain, config, readBuffer, broken)
    }

    /** Frame bytes: masked length, then the ciphertext copied behind it. */
    method BuildWireFrame(e: Env, encrypted: Bytes) returns (r: Bytes)
      requires |encrypted| <= MAX_FRAME
      modifies this
      ensures r == Frame(encrypted, NextIV(e.p, old(out).sipKeys, old(out).iv))
      ensures Value() == old(Value()).(out := old(out).(iv := NextIV(e.p, old(out).sipKeys, old(out).iv)))
    {
      out := out.(iv := NextIV(e.p, out.sipKeys, out.iv));
      var frame := new byte[2 + |encrypted|];
      var length := Be16(Common.Xor(16, |encrypted|, MaskOf(out.iv)));
      CopyInto(length, frame, 0);
      assert frame[..2] == length;
      CopyInto(encrypted, frame, 2);
      assert frame[..2 + |encrypted|] == frame[..];
      return frame[..];
    }

    method WriteSingleFrame(e: Env, chunk: Bytes, pads: seq<Bytes>, room: nat)
      returns (sent: Bytes, left: seq<Bytes>, status: Status)
      modifies this
      ensures var w := WriteFrame(e, old(out), old(chain), chunk, pads, room);
              && Wrote(out, chain, sent, left, status) == w
              && Value() == old(Value()).(out := w.half, chain := w.chain, broken := old(broken) || w.status.Broke?)
    {
      if out.frames >= MAX_NONCE {
        broken := true;
        return [], pads, Broke;
      }
      var modified := Outbound(e.p, chain, DATA, chunk, pads);
      chain, left := modified.m, modified.pads;
      if modified.data.Err? || out.nonce > MAX_NONCE { return [], left, Rejected; }
      var encrypted := e.cr.seal(out.key, out.nonce, [], modified.data.value);
      out := out.(nonce := out.nonce + 1);
      if |encrypted| > MAX_FRAME { return [], left, Rejected; }
      var frame := BuildWireFrame(e, encrypted);
      if room < |frame| {
        broken := true;
        return frame[..room], left, Broke;
      }
      out := out.(frames := out.frames + 1);
      return frame, left, Done;
    }

    /** The split loop: the rest of the input shrinks, or at least the frame counter grows. */
    method WriteChunks(e: Env, b: Bytes, max: nat, pads: seq<Bytes>, room: nat) returns (sent: Bytes, count: nat, status: Status)
      requires !broken
      modifies this
      ensures Written(out, chain, sent, count, status) == WriteAll(e, old(out), old(chain), b, max, pads, room)
      ensures inp == old(inp) && config == old(config) && readBuffer == old(readBuffer) && broken == status.Broke?
    {
      hide WriteFrame;
      ghost var goal := WriteAll(e, out, chain, b, max, pads, room);
      var rest, left := b, pads;
      var space: nat := room;
      sent, count, status := [], 0, Done;
      while rest != []
        invariant !broken && status.Done? && inp == old(inp) && config == old(config) && readBuffer == old(readBuffer)
        invariant goal == Resume(sent, count, WriteAll(e, out, chain, rest, max, left, space))
        decreases if out.frames < MAX_NONCE then MAX_NONCE - out.frames else 0
      {
        WriteAllPeels(e, out, chain, rest, max, left, space, sent, count);
        var chunk := Chunk(rest, max);
        rest := rest[|chunk|..];
        var frame;
        frame, left, status := WriteSingleFrame(e, chunk, left, space);
        sent := sent + frame;
        if !status.Done? { return; }
        space, count := space - |frame|, count + |chunk|;
      }
    }

    method WriteFramed(e: Env, b: Bytes, pads: seq<Bytes>, room: nat) returns (sent: Bytes, count: nat, ok: bool)
      requires !broken
      modifies this
      ensures WriteResult(Value(), sent, count, ok) == Write(e, old(Value()), b, pads, room)
    {
      hide WriteAll;
      var maxFrame := MaxFrame(config);
      if maxFrame < OVERHEAD { return [], 0, false; }
      var status;
      sent, count, status := WriteChunks(e, b, maxFrame - OVERHEAD, pads, room);
      return sent, count, status.Done?;
    }

    method WriteBytes(e: Env, b: Bytes, pads: seq<Bytes>, room: nat) returns (sent: Bytes, count: nat, ok: bool)
      modifies this
      ensures WriteResult(Value(), sent, count, ok) == Write(e, old(Value()), b, pads, room)
    {
      if broken { return [], 0, false; }
      sent, count, ok := WriteFramed(e, b, pads, room);
    }

    /** Copies what fits; keeps the remainder only if there is one. */
    method BufferPlaintext(size: nat, plaintext: Bytes) returns (r: Bytes)
      requires readBuffer == []
      modifies this
      ensures r == plaintext[..Min(size, |plaintext|)]
      ensures Value() == old(Value()).(buffer := plaintext[Min(size, |plaintext|)..])
    {
      var n := Min(size, |plaintext|);
      if n < |plaintext| { readBuffer := plaintext[n..]; }
      return plaintext[..n];
    }

    method ReadFrame(e: Env, wire: Bytes) returns (data: Result<Bytes>, rest: Bytes)
      requires !broken
      modifies this
      ensures var t := TakeFrame(e, old(inp), old(chain), wire);
              && data == t.data && rest == t.rest
              && Value() == old(Value()).(inp := t.half, chain := t.chain, broken := t.broke)
    {
      hide Inbound, LengthAt;
      if inp.frames >= MAX_NONCE {
        broken := true;
        return Err, wire;
      }
      if |wire| < 2 { return Err, []; }
      var length := LengthAt(e, inp, wire);
      inp := inp.(iv := NextIV(e.p, inp.sipKeys, inp.iv));
      if length < MIN_FRAME {
        broken := true;
        return Err, wire[2..];
      }
      if |wire| < 2 + length {
        broken := true;
        return Err, [];
      }
      rest := wire[2 + length..];
      var plain := e.cr.open(inp.key, inp.nonce, [], wire[2..2 + length]);
      if plain.None? {
        broken := true;
        return Err, rest;
      }
      inp := inp.(nonce := inp.nonce + 1);
      var (next, modified) := Inbound(e.p, chain, DATA, plain.value);
      chain := next;
      if modified.Ok? { inp := inp.(frames := inp.frames + 1); }
      return modified, rest;
    }

    method ReadBytes(e: Env, wire: Bytes, size: nat) returns (data: Result<Bytes>, rest: Bytes)
      modifies this
      ensures ReadResult(Value(), rest, data) == Read(e, old(Value()), wire, size)
    {
      if broken { return Err, wire; }
      if readBuffer != [] {
        var n := Min(size, |readBuffer|);
        data := Ok(readBuffer[..n]);
        readBuffer := readBuffer[n..];
        return data, wire;
      }
      data, rest := ReadFrame(e, wire);
      if data.Ok? {
        var r := BufferPlaintext(size, data.value);
        data := Ok(r);
      }
    }
  }
}
