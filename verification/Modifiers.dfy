/** Handshake and data modifiers, chains of them, and inversion of a chain by the receiving side. */
module Modifiers {
  import opened Common
  import PaddingEngine

  // Phases, in the order the guards rely on.
  const INITIAL := 0
  const EXCHANGE := 1
  const FINAL := 2
  const DATA := 3

  /** What the constructors guarantee: XOR keys are not empty, AES initial vectors have 16 bytes. */
  type XorKey = k: Bytes | |k| > 0 witness [0]
  type AesBlock = b: Bytes | |b| == 16 witness seq(16, _ => 0)

  /** SipHash-2-4 and the AES-256 block cipher. */
  datatype Ciphers = Ciphers(
    sip: (Bytes, nat) -> nat,
    enc: (Bytes, AesBlock) -> AesBlock,
    dec: (Bytes, AesBlock) -> AesBlock)

  ghost predicate Lawful(p: Ciphers) {
    forall k, b :: p.dec(k, p.enc(k, b)) == b
  }

  function ModelCiphers(): (p: Ciphers) { Ciphers((k, n) => n, (k, b) => b, (k, b) => b) }

  lemma LawsAreConsistent()
    ensures Lawful(ModelCiphers())
  {}

  /**
    Xor        repeating-key XOR; refuses to work once closed
    Pad        length prefix, data, random padding (handshake phases only)
    SipLength  masks 2-byte length fields of the data phase, one mask chain per direction
    Aes        CBC over the first 32 bytes of messages 1 and 2, the state carried from 1 to 2
    BlockPad   trailing padding blocks: AEAD blocks in the data phase, or cleartext in messages 1 and 2
    Chain      modifiers in order
  */
  datatype Modifier =
    | Xor(key: XorKey, closed: bool)
    | Pad(minPad: nat, maxPad: nat)
    | SipLength(outKeys: Bytes, inKeys: Bytes, outIV: nat, inIV: nat)
    | Aes(routerHash: Bytes, iv: AesBlock, state: Option<AesBlock>)
    | BlockPad(minPad: nat, maxPad: nat, aead: bool)
    | Chain(mods: seq<Modifier>)

  /** New modifier state, result, and the random paddings not used up. */
  datatype Sent = Sent(m: Modifier, data: Result<Bytes>, pads: seq<Bytes>)
  datatype SentAll = SentAll(mods: seq<Modifier>, data: Result<Bytes>, pads: seq<Bytes>)

  // ----- XOR -----------------------------------------------------------------------------------

  function XorWith(key: XorKey, data: Bytes): (r: Bytes)
    ensures |r| == |data|
  {
    seq(|data|, i requires 0 <= i < |data| => XorByte(data[i], key[i % |key|]))
  }

  method XorApply(key: XorKey, data: Bytes) returns (r: Bytes)
    ensures r == XorWith(key, data)
  {
    var result := new byte[|data|];
    for i := 0 to |data|
      invariant forall j :: 0 <= j < i ==> result[j] == XorByte(data[j], key[j % |key|])
    {
      result[i] := XorByte(data[i], key[i % |key|]);
    }
    return result[..];
  }

  lemma XorWithInvolutive(key: XorKey, data: Bytes)
    ensures XorWith(key, XorWith(key, data)) == data
  {
    forall i | 0 <= i < |data|
      ensures XorWith(key, XorWith(key, data))[i] == data[i]
    {
      XorByteInvolutive(data[i], key[i % |key|]);
    }
  }

  lemma SmallMultiple(q: int, k: int)
    requires -k < q * k < k
    ensures q == 0
  {}

  lemma ModPlus(i: nat, k: nat)
    requires k > 0
    ensures (k + i) % k == i % k
  {
    var q := i / k + 1 - (k + i) / k;
    assert q * k == (k + i) % k - i % k by {
      assert i == i / k * k + i % k;
      assert k + i == (k + i) / k * k + (k + i) % k;
    }
    SmallMultiple(q, k);
  }

  /** The key is used from its start on, and again from its start once it is used up. */
  lemma XorRepeatsKey(key: XorKey, head: Bytes, tail: Bytes)
    requires |head| == |key|
    ensures XorWith(key, head + tail) == XorBytes(head, key) + XorWith(key, tail)
    ensures forall n :: 0 <= n <= |key| ==> XorWith(key, head[..n]) == XorBytes(head[..n], key)
  {
    forall i | 0 <= i < |tail|
      ensures XorWith(key, head + tail)[|key| + i] == XorWith(key, tail)[i]
    {
      ModPlus(i, |key|);
    }
    assert forall i :: 0 <= i < |key| ==> i % |key| == i;
    assert XorWith(key, head + tail) == XorBytes(head, key) + XorWith(key, tail);
  }

  // ----- length-prefixed padding ---------------------------------------------------------------

  function PadOut(data: Bytes, pad: Bytes): (r: Result<Bytes>) {
    if |data| >= U32 then Err else Ok(Be32(|data|) + data + pad)
  }

  /** The available length is computed in uint32. */
  function PadIn(data: Bytes): (r: Result<Bytes>) {
    if |data| < 4 then Err
    else
      var raw := ReadBe32(data[..4]);
      if raw > (|data| - 4) % U32 then Err else Ok(data[4..4 + raw])
  }

  /** Four bytes of length, most significant first, then the data, then the padding. */
  lemma PadLayout(data: Bytes, pad: Bytes)
    requires |data| < U32
    ensures PadOut(data, pad).Ok?
    ensures var p := PadOut(data, pad).value;
            |p| == 4 + |data| + |pad| && Digits(p[..4]) == |data| && p[4..4 + |data|] == data && p[4 + |data|..] == pad
  {
    var p := PadOut(data, pad).value;
    assert p[..4] == Be32(|data|);
    Be32RoundTrip(|data|);
    BigEndian(Be32(|data|));
  }

  method PadOutApply(data: Bytes, pad: Bytes) returns (r: Result<Bytes>)
    ensures r == PadOut(data, pad)
  {
    if |data| >= U32 { return Err; }
    var result := new byte[4 + |data| + |pad|];
    CopyInto(Be32(|data|), result, 0);
    assert result[..4] == Be32(|data|);
    CopyInto(data, result, 4);
    assert result[..4 + |data|] == Be32(|data|) + data;
    CopyInto(pad, result, 4 + |data|);
    assert result[..4 + |data| + |pad|] == result[..];
    return Ok(result[..]);
  }

  /** The padded form decodes exactly when the total length does not wrap below the data length. */
  lemma PadRoundTripIff(data: Bytes, pad: Bytes)
    requires |data| < U32
    ensures PadIn(PadOut(data, pad).value) == Ok(data) <==> |data| <= (|data| + |pad|) % U32
  {
    var p := PadOut(data, pad).value;
    Be32RoundTrip(|data|);
    assert p[..4] == Be32(|data|);
    assert p[4..4 + |data|] == data;
  }

  // ----- SipHash length mask -------------------------------------------------------------------

  function NextIV(p: Ciphers, keys: Bytes, iv: nat): (r: nat) { p.sip(keys, iv) }

  /** Low 16 bits of the new IV. */
  function MaskOf(iv: nat): (r: nat) { iv % U16 }

  function Masked(data: Bytes, mask: nat): (r: Bytes)
    requires |data| == 2
    ensures |r| == 2
  {
    Be16(Common.Xor(16, ReadBe16(data), mask))
  }

  lemma MaskedInvolutive(data: Bytes, mask: nat)
    requires |data| == 2
    ensures Masked(Masked(data, mask), mask) == data
  {
    Pow2Values();
    XorInvolutive(16, ReadBe16(data), mask);
    Be16RoundTrip(Common.Xor(16, ReadBe16(data), mask));
    ReadBe16RoundTrip(data);
  }

  // ----- AES-CBC of two blocks (section 6.2 of NIST SP 800-38A) ---------------------------------

  function CbcEncrypt(p: Ciphers, key: Bytes, iv: AesBlock, data: Bytes): (c: Bytes)
    requires |data| >= 32
    ensures |c| == |data|
  {
    var c0 := p.enc(key, XorBytes(data[..16], iv));
    c0 + p.enc(key, XorBytes(data[16..32], c0)) + data[32..]
  }

  function CbcDecrypt(p: Ciphers, key: Bytes, iv: AesBlock, data: Bytes): (d: Bytes)
    requires |data| >= 32
    ensures |d| == |data|
  {
    XorBytes(p.dec(key, data[..16]), iv) + XorBytes(p.dec(key, data[16..32]), data[..16]) + data[32..]
  }

  /** Cipher block chaining: each block is combined with the ciphertext block before it, the first with the vector. */
  function Cbc(p: Ciphers, key: Bytes, iv: AesBlock, blocks: seq<AesBlock>): (cs: seq<AesBlock>)
    ensures |cs| == |blocks|
    decreases |blocks|
  {
    if blocks == [] then []
    else var c := p.enc(key, XorBytes(blocks[0], iv)); [c] + Cbc(p, key, c, blocks[1..])
  }

  function Block(data: Bytes, i: nat): (b: AesBlock)
    requires |data| >= 16 * (i + 1)
  {
    data[16 * i..16 * (i + 1)]
  }

  lemma CbcTwo(p: Ciphers, key: Bytes, iv: AesBlock, a: AesBlock, b: AesBlock, rest: seq<AesBlock>)
    ensures var c0 := p.enc(key, XorBytes(a, iv));
            var c1 := p.enc(key, XorBytes(b, c0));
            Cbc(p, key, iv, [a, b] + rest) == [c0, c1] + Cbc(p, key, c1, rest)
  {
    assert ([a, b] + rest)[1..] == [b] + rest && ([b] + rest)[1..] == rest;
  }

  lemma CbcRoundTrip(p: Ciphers, key: Bytes, iv: AesBlock, data: Bytes)
    requires Lawful(p) && |data| >= 32
    ensures CbcDecrypt(p, key, iv, CbcEncrypt(p, key, iv, data)) == data
  {
    var x0 := XorBytes(data[..16], iv);
    var c0 := p.enc(key, x0);
    var x1 := XorBytes(data[16..32], c0);
    var c := CbcEncrypt(p, key, iv, data);
    assert c[..16] == c0 && c[16..32] == p.enc(key, x1) && c[32..] == data[32..];
    XorBytesInvolutive(data[..16], iv);
    XorBytesInvolutive(data[16..32], c0);
    assert data == data[..16] + data[16..32] + data[32..];
  }

  /** The prefix of a message is its two blocks in cipher block chaining; the rest stays. */
  lemma PrefixIsCbc(p: Ciphers, key: Bytes, iv: AesBlock, data: Bytes)
    requires |data| >= 32
    ensures var c := CbcEncrypt(p, key, iv, data);
            && [Block(c, 0), Block(c, 1)] == Cbc(p, key, iv, [Block(data, 0), Block(data, 1)])
            && c[32..] == data[32..]
  {
    CbcTwo(p, key, iv, Block(data, 0), Block(data, 1), []);
    assert [Block(data, 0), Block(data, 1)] + [] == [Block(data, 0), Block(data, 1)];
    var c0 := p.enc(key, XorBytes(data[..16], iv));
    var c := CbcEncrypt(p, key, iv, data);
    assert Block(data, 0) == data[..16] && Block(data, 1) == data[16..32];
    assert Block(c, 0) == c0 && Block(c, 1) == p.enc(key, XorBytes(data[16..32], c0));
  }

  // ----- one modifier and a list of them ---------------------------------------------------------

  predicate PadAllowed(minPad: nat, maxPad: nat, pads: seq<Bytes>) {
    pads != [] && minPad <= |pads[0]| <= maxPad
  }

  /** AEAD padding goes into data frames, cleartext padding into messages 1 and 2; message 3 has none of either. */
  predicate PadsIn(aead: bool, phase: nat) {
    if aead then phase > FINAL else phase < FINAL
  }

  /** ModifyOutbound. A missing random padding is a failure of the random source. */
  function Outbound(p: Ciphers, m: Modifier, phase: nat, data: Bytes, pads: seq<Bytes>): (r: Sent)
    decreases m, 1
  {
    match m
    case Xor(key, closed) =>
      if closed then Sent(m, Err, pads) else Sent(m, Ok(XorWith(key, data)), pads)
    case Pad(minPad, maxPad) =>
      if phase > FINAL || (minPad == 0 && maxPad == 0) then Sent(m, Ok(data), pads)
      else if !PadAllowed(minPad, maxPad, pads) then Sent(m, Err, pads)
      else Sent(m, PadOut(data, pads[0]), pads[1..])
    case SipLength(outKeys, _, outIV, _) =>
      if phase < DATA || |data| != 2 then Sent(m, Ok(data), pads)
      else
        var iv := NextIV(p, outKeys, outIV);
        Sent(m.(outIV := iv), Ok(Masked(data, MaskOf(iv))), pads)
    case Aes(hash, iv, state) =>
      if |data| < 32 || phase > EXCHANGE then Sent(m, Ok(data), pads)
      else if phase == INITIAL then
        var c := CbcEncrypt(p, hash, iv, data);
        Sent(m.(state := Some(c[16..32])), Ok(c), pads)
      else if state.None? then Sent(m, Err, pads)
      else Sent(m, Ok(CbcEncrypt(p, hash, state.value, data)), pads)
    case BlockPad(minPad, maxPad, aead) =>
      if maxPad == 0 || !PadsIn(aead, phase) then Sent(m, Ok(data), pads)
      else if !PadAllowed(minPad, maxPad, pads) then Sent(m, Err, pads)
      else if |pads[0]| == 0 then Sent(m, Ok(data), pads[1..])
      else if aead then Sent(m, Ok(PaddingEngine.Padded(data, pads[0])), pads[1..])
      else Sent(m, Ok(data + pads[0]), pads[1..])
    case Chain(mods) =>
      var r := OutboundAll(p, mods, phase, data, pads);
      Sent(Chain(r.mods), r.data, r.pads)
  }

  /** First modifier first. */
  function OutboundAll(p: Ciphers, mods: seq<Modifier>, phase: nat, data: Bytes, pads: seq<Bytes>): (r: SentAll)
    ensures |r.mods| == |mods|
    decreases mods, 0
  {
    if mods == [] then SentAll([], Ok(data), pads)
    else
      var first := Outbound(p, mods[0], phase, data, pads);
      if first.data.Err? then SentAll([first.m] + mods[1..], Err, first.pads)
      else
        var rest := OutboundAll(p, mods[1..], phase, first.data.value, first.pads);
        SentAll([first.m] + rest.mods, rest.data, rest.pads)
  }

  /** A chain in two parts: the second part works on what the first has made. */
  lemma {:induction false} ChainComposes(p: Ciphers, a: seq<Modifier>, b: seq<Modifier>, phase: nat, data: Bytes, pads: seq<Bytes>)
    ensures var (all, first) := (OutboundAll(p, a + b, phase, data, pads), OutboundAll(p, a, phase, data, pads));
            if first.data.Err? then all.data.Err? && all.mods == first.mods + b
            else var second := OutboundAll(p, b, phase, first.data.value, first.pads);
                 all == SentAll(first.mods + second.mods, second.data, second.pads)
  {
    hide Outbound;
    if a == [] {
      assert a + b == b;
      var second := OutboundAll(p, b, phase, data, pads);
      assert [] + second.mods == second.mods;
    } else {
      var one := Outbound(p, a[0], phase, data, pads);
      assert (a + b)[1..] == a[1..] + b;
      if one.data.Ok? {
        ChainComposes(p, a[1..], b, phase, one.data.value, one.pads);
      }
    }
  }

  /** ModifyInbound. */
  function Inbound(p: Ciphers, m: Modifier, phase: nat, data: Bytes): (r: (Modifier, Result<Bytes>))
    decreases m, 1
  {
    match m
    case Xor(key, closed) =>
      if closed then (m, Err) else (m, Ok(XorWith(key, data)))
    case Pad(minPad, maxPad) =>
      if phase > FINAL || (minPad == 0 && maxPad == 0) then (m, Ok(data)) else (m, PadIn(data))
    case SipLength(_, inKeys, _, inIV) =>
      if phase < DATA || |data| != 2 then (m, Ok(data))
      else
        var iv := NextIV(p, inKeys, inIV);
        (m.(inIV := iv), Ok(Masked(data, MaskOf(iv))))
    case Aes(hash, iv, state) =>
      if |data| < 32 || phase > EXCHANGE then (m, Ok(data))
      else
        var next := if phase == INITIAL then m.(state := Some(data[16..32])) else m;
        var used := if phase == INITIAL then Some(iv) else state;
        if used.None? then (next, Err)
        else
          var d := CbcDecrypt(p, hash, used.value, data);
          if d[31] >= 128 then (next, Err) else (next, Ok(d))
    case BlockPad(_, maxPad, aead) =>
      if aead && PadsIn(aead, phase) then (m, Ok(PaddingEngine.Strip(data, maxPad))) else (m, Ok(data))
    case Chain(mods) =>
      var r := InboundAll(p, mods, phase, data);
      (Chain(r.0), r.1)
  }

  /** Last modifier first. */
  function InboundAll(p: Ciphers, mods: seq<Modifier>, phase: nat, data: Bytes): (r: (seq<Modifier>, Result<Bytes>))
    ensures |r.0| == |mods|
    decreases mods, 0
  {
    if mods == [] then ([], Ok(data))
    else
      var rest := InboundAll(p, mods[1..], phase, data);
      if rest.1.Err? then ([mods[0]] + rest.0, Err)
      else
        var first := Inbound(p, mods[0], phase, rest.1.value);
        ([first.0] + rest.0, first.1)
  }

  /** The obfuscated keys of messages 1 and 2 form one chain of four blocks under the initial vector. */
  lemma TwoMessagesOneChain(p: Ciphers, hash: Bytes, iv: AesBlock, one: Bytes, two: Bytes, pads: seq<Bytes>)
    requires |one| >= 32 && |two| >= 32
    ensures var first := Outbound(p, Aes(hash, iv, None), 0, one, pads);
            var second := Outbound(p, first.m, 1, two, pads);
            && first.data.Ok? && second.data.Ok? && |first.data.value| == |one| && |second.data.value| == |two|
            && var (c, d) := (first.data.value, second.data.value);
            && [Block(c, 0), Block(c, 1), Block(d, 0), Block(d, 1)] ==
               Cbc(p, hash, iv, [Block(one, 0), Block(one, 1), Block(two, 0), Block(two, 1)])
            && c[32..] == one[32..] && d[32..] == two[32..]
  {
    var c := CbcEncrypt(p, hash, iv, one);
    var next := Block(c, 1);
    assert c[16..32] == next;
    PrefixIsCbc(p, hash, iv, one);
    PrefixIsCbc(p, hash, next, two);
    var (a, b) := (Block(one, 0), Block(one, 1));
    CbcTwo(p, hash, iv, a, b, [Block(two, 0), Block(two, 1)]);
    CbcTwo(p, hash, iv, a, b, []);
    assert [a, b] + [] == [a, b];
    assert [a, b] + [Block(two, 0), Block(two, 1)] == [a, b, Block(two, 0), Block(two, 1)];
  }

  /** A closed XOR modifier passes nothing on, in either direction, and fails a chain it is part of. */
  lemma ClosedFails(p: Ciphers, key: XorKey, rest: seq<Modifier>, phase: nat, data: Bytes, pads: seq<Bytes>)
    ensures var m := Xor(key, true);
            && Outbound(p, Chain([m] + rest), phase, data, pads).data.Err?
            && Outbound(p, m, phase, data, pads) == Sent(m, Err, pads) && Inbound(p, m, phase, data) == (m, Err)
  {
    var mods := [Xor(key, true)] + rest;
    assert mods[0] == Xor(key, true);
    assert Outbound(p, mods[0], phase, data, pads).data.Err?;
    assert OutboundAll(p, mods, phase, data, pads).data.Err?;
  }

  /** The phases (0 to 2 are the handshake messages, 3 is data) in which a modifier leaves everything as it is. */
  predicate Idle(m: Modifier, phase: nat, data: Bytes) {
    match m
    case Xor(_, _) => false
    case Pad(minPad, maxPad) => phase >= 3 || (minPad == 0 && maxPad == 0)
    case SipLength(_, _, _, _) => phase <= 2 || |data| != 2
    case Aes(_, _, _) => phase >= 2 || |data| < 32
    case BlockPad(_, _, aead) => if aead then phase <= 2 else phase >= 2
    case Chain(_) => false
  }

  lemma IdleDoesNothing(p: Ciphers, m: Modifier, phase: nat, data: Bytes, pads: seq<Bytes>)
    requires Idle(m, phase, data)
    ensures Outbound(p, m, phase, data, pads) == Sent(m, Ok(data), pads) && Inbound(p, m, phase, data) == (m, Ok(data))
  {}

  // ----- synchronisation and inversion -----------------------------------------------------------

  /** What s sends in its present state, r in its present state is ready to receive. */
  predicate Matches(s: Modifier, r: Modifier)
    decreases s, 1
  {
    match s
    case Xor(_, closed) => r == s && !closed
    case Pad(minPad, maxPad) => r.Pad? && ((minPad == 0 && maxPad == 0) <==> (r.minPad == 0 && r.maxPad == 0))
    case SipLength(outKeys, _, outIV, _) => r.SipLength? && r.inKeys == outKeys && r.inIV == outIV
    case Aes(_, _, _) => r == s
    case BlockPad(_, maxPad, aead) => r.BlockPad? && r.maxPad == maxPad <= PaddingEngine.MAX_DATA && r.aead == aead
    case Chain(mods) => r.Chain? && MatchesAll(mods, r.mods)
  }

  predicate MatchesAll(ss: seq<Modifier>, rs: seq<Modifier>)
    decreases ss, 0
  {
    |ss| == |rs| && (ss != [] ==> Matches(ss[0], rs[0]) && MatchesAll(ss[1..], rs[1..]))
  }

  /** The bytes a padding block adds. */
  function Fill(maxPad: nat, pads: seq<Bytes>): (r: Bytes) {
    if maxPad == 0 || pads == [] then [] else pads[0]
  }

  /**
    What the data must satisfy on its way through the sender: no 4 GiB overflow in a padded length, ephemeral keys
    with a clear top bit at an AES stage, no second trailing block that could be taken for the padding, and no
    cleartext padding, which the inbound side leaves for the message parser.
  */
  ghost predicate Recoverable(p: Ciphers, m: Modifier, phase: nat, data: Bytes, pads: seq<Bytes>)
    decreases m, 1
  {
    match m
    case Xor(_, _) => true
    case Pad(minPad, maxPad) =>
      phase > FINAL || (minPad == 0 && maxPad == 0) || pads == [] || |data| <= (|data| + |pads[0]|) % U32
    case SipLength(_, _, _, _) => true
    case Aes(_, _, _) => phase > EXCHANGE || |data| < 32 || data[31] < 128
    case BlockPad(_, maxPad, aead) =>
      var fill := Fill(maxPad, pads);
      if !PadsIn(aead, phase) then true
      else if !aead then fill == []
      else if fill == [] then
        |data| >= PaddingEngine.HEADER ==>
          PaddingEngine.Shortest(data, 0, PaddingEngine.ScanLimit(|data|, maxPad)).None?
      else !PaddingEngine.Ambiguous(data, fill)
    case Chain(mods) => RecoverableAll(p, mods, phase, data, pads)
  }

  ghost predicate RecoverableAll(p: Ciphers, mods: seq<Modifier>, phase: nat, data: Bytes, pads: seq<Bytes>)
    decreases mods, 0
  {
    mods == [] ||
    (var first := Outbound(p, mods[0], phase, data, pads);
     && Recoverable(p, mods[0], phase, data, pads)
     && (first.data.Ok? ==> RecoverableAll(p, mods[1..], phase, first.data.value, first.pads)))
  }

  /** What the receiver makes of the sender's output. */
  ghost predicate Inverts(p: Ciphers, s: Modifier, r: Modifier, phase: nat, data: Bytes, pads: seq<Bytes>) {
    var out := Outbound(p, s, phase, data, pads);
    out.data.Ok? ==>
      var (r', back) := Inbound(p, r, phase, out.data.value);
      back == Ok(data) && Matches(out.m, r') && (Matches(r, s) ==> Matches(r', out.m))
  }

  lemma AesInvertsIff(p: Ciphers, s: Modifier, r: Modifier, phase: nat, data: Bytes, pads: seq<Bytes>)
    requires Lawful(p) && s.Aes? && Matches(s, r) && Outbound(p, s, phase, data, pads).data.Ok?
    ensures Inverts(p, s, r, phase, data, pads) <==> Recoverable(p, s, phase, data, pads)
  {
    if |data| >= 32 && phase == INITIAL {
      CbcRoundTrip(p, s.routerHash, s.iv, data);
    } else if |data| >= 32 && phase == EXCHANGE {
      CbcRoundTrip(p, s.routerHash, s.state.value, data);
    }
  }

  lemma BlockPadInvertsIff(p: Ciphers, s: Modifier, r: Modifier, phase: nat, data: Bytes, pads: seq<Bytes>)
    requires s.BlockPad? && Matches(s, r) && Outbound(p, s, phase, data, pads).data.Ok?
    ensures Inverts(p, s, r, phase, data, pads) <==> Recoverable(p, s, phase, data, pads)
  {
    var fill := Fill(s.maxPad, pads);
    if PadsIn(s.aead, phase) && fill != [] {
      if s.aead { PaddingEngine.StripAfterPad(data, fill, s.maxPad); } else { assert |data + fill| > |data|; }
    }
  }

  /** One modifier is undone by its peer exactly when the data is recoverable. */
  lemma SingleInvertsIff(p: Ciphers, s: Modifier, r: Modifier, phase: nat, data: Bytes, pads: seq<Bytes>)
    requires Lawful(p) && !s.Chain? && Matches(s, r) && Outbound(p, s, phase, data, pads).data.Ok?
    ensures Inverts(p, s, r, phase, data, pads) <==> Recoverable(p, s, phase, data, pads)
  {
    match s
    case Xor(key, _) => XorWithInvolutive(key, data);
    case Pad(_, _) => if pads != [] && |data| < U32 { PadRoundTripIff(data, pads[0]); }
    case SipLength(outKeys, _, outIV, _) => if |data| == 2 { MaskedInvolutive(data, MaskOf(NextIV(p, outKeys, outIV))); }
    case Aes(_, _, _) => AesInvertsIff(p, s, r, phase, data, pads);
    case BlockPad(_, _, _) => BlockPadInvertsIff(p, s, r, phase, data, pads);
  }

  /**
    For modifiers of every kind, chains of any length and any nesting: if the two ends match and the data is
    recoverable, the reverse-order inbound pass gives the data back and leaves both ends matching again.
  */
  lemma {:induction false} ModifierInverts(p: Ciphers, s: Modifier, r: Modifier, phase: nat, data: Bytes, pads: seq<Bytes>)
    requires Lawful(p) && Matches(s, r) && Recoverable(p, s, phase, data, pads)
    ensures Inverts(p, s, r, phase, data, pads)
    decreases s, 1
  {
    if s.Chain? {
      ChainInverts(p, s.mods, r.mods, phase, data, pads);
    } else if Outbound(p, s, phase, data, pads).data.Ok? {
      SingleInvertsIff(p, s, r, phase, data, pads);
    }
  }

  lemma {:induction false} ChainInverts(p: Ciphers, ss: seq<Modifier>, rs: seq<Modifier>, phase: nat, data: Bytes, pads: seq<Bytes>)
    requires Lawful(p) && MatchesAll(ss, rs) && RecoverableAll(p, ss, phase, data, pads)
    ensures var out := OutboundAll(p, ss, phase, data, pads);
            out.data.Ok? ==>
              var (rs', back) := InboundAll(p, rs, phase, out.data.value);
              back == Ok(data) && MatchesAll(out.mods, rs') && (MatchesAll(rs, ss) ==> MatchesAll(rs', out.mods))
    decreases ss, 0
  {
    if ss != [] {
      ModifierInverts(p, ss[0], rs[0], phase, data, pads);
      var first := Outbound(p, ss[0], phase, data, pads);
      if first.data.Ok? {
        ChainInverts(p, ss[1..], rs[1..], phase, first.data.value, first.pads);
      }
    }
  }

  /**
    For a chain the condition is sufficient only: a length prefix under cleartext padding hides the padding, so the
    chain is undone although its second stage alone is not.
  */
  lemma PrefixHidesCleartext(p: Ciphers, prefix: Modifier, clear: Modifier, phase: nat, data: Bytes, x: Bytes, y: Bytes)
    requires prefix.Pad? && 0 < prefix.maxPad && prefix.minPad <= |x| <= prefix.maxPad
    requires clear.BlockPad? && !clear.aead && clear.minPad <= |y| <= clear.maxPad && y != []
    requires phase < FINAL && |data| + |x| + |y| < U32
    ensures var out := OutboundAll(p, [prefix, clear], phase, data, [x, y]);
            && !RecoverableAll(p, [prefix, clear], phase, data, [x, y])
            && out.data.Ok?
            && InboundAll(p, [prefix, clear], phase, out.data.value).1 == Ok(data)
  {
    hide XorWith, CbcEncrypt, CbcDecrypt, Masked, PadIn;
    var mods, inner := [prefix, clear], PadOut(data, x).value;
    assert mods[1..] == [clear] && [clear][1..] == [] && [x, y][1..] == [y];
    assert Outbound(p, prefix, phase, data, [x, y]) == Sent(prefix, Ok(inner), [y]);
    assert Outbound(p, clear, phase, inner, [y]).data == Ok(inner + y);
    assert OutboundAll(p, [clear], phase, inner, [y]).data == Ok(inner + y);
    assert InboundAll(p, [clear], phase, inner + y).1 == Ok(inner + y);
    assert !Recoverable(p, clear, phase, inner, [y]);
    assert !RecoverableAll(p, [clear], phase, inner, [y]);
    assert inner + y == PadOut(data, x + y).value;
    PadRoundTripIff(data, x + y);
  }

  // ----- whole conversations ---------------------------------------------------------------------

  /** One message between the ends a and b, with the random paddings its sender draws. */
  datatype Message = Message(fromA: bool, phase: nat, data: Bytes, pads: seq<Bytes>)

  function Sender(a: Modifier, b: Modifier, m: Message): (r: Modifier) { if m.fromA then a else b }

  /** Both ends after one message, and what the receiver makes of it. */
  function Exchange(p: Ciphers, a: Modifier, b: Modifier, m: Message): (r: (Modifier, Modifier, Result<Bytes>)) {
    var out := Outbound(p, Sender(a, b, m), m.phase, m.data, m.pads);
    if out.data.Err? then (if m.fromA then out.m else a, if m.fromA then b else out.m, Err)
    else
      var (r, back) := Inbound(p, Sender(b, a, m), m.phase, out.data.value);
      (if m.fromA then out.m else r, if m.fromA then r else out.m, back)
  }

  /** The messages a conversation delivers, until the first one that fails on either side. */
  function Delivered(p: Ciphers, a: Modifier, b: Modifier, msgs: seq<Message>): (r: seq<Bytes>)
    decreases msgs
  {
    if msgs == [] then []
    else
      var (a', b', back) := Exchange(p, a, b, msgs[0]);
      if back.Err? then [] else [back.value] + Delivered(p, a', b', msgs[1..])
  }

  /** Every message can be sent and is recoverable in the state its sender is then in. */
  ghost predicate AllRecoverable(p: Ciphers, a: Modifier, b: Modifier, msgs: seq<Message>)
    decreases msgs
  {
    msgs != [] ==>
      var m := msgs[0];
      var (a', b', _) := Exchange(p, a, b, m);
      && Outbound(p, Sender(a, b, m), m.phase, m.data, m.pads).data.Ok?
      && Recoverable(p, Sender(a, b, m), m.phase, m.data, m.pads)
      && AllRecoverable(p, a', b', msgs[1..])
  }

  function Contents(msgs: seq<Message>): (r: seq<Bytes>) {
    if msgs == [] then [] else [msgs[0].data] + Contents(msgs[1..])
  }

  predicate InSync(a: Modifier, b: Modifier) { Matches(a, b) && Matches(b, a) }

  lemma ExchangeIsExact(p: Ciphers, a: Modifier, b: Modifier, m: Message)
    requires Lawful(p) && InSync(a, b) && Recoverable(p, Sender(a, b, m), m.phase, m.data, m.pads)
    requires Outbound(p, Sender(a, b, m), m.phase, m.data, m.pads).data.Ok?
    ensures var (a', b', back) := Exchange(p, a, b, m); InSync(a', b') && back == Ok(m.data)
  {
    ModifierInverts(p, Sender(a, b, m), Sender(b, a, m), m.phase, m.data, m.pads);
  }

  /** Whatever the two ends send to each other, in any order and any phases, each receives exactly what was sent. */
  lemma {:induction false} ConversationIsExact(p: Ciphers, a: Modifier, b: Modifier, msgs: seq<Message>)
    requires Lawful(p) && InSync(a, b) && AllRecoverable(p, a, b, msgs)
    ensures Delivered(p, a, b, msgs) == Contents(msgs)
    decreases msgs
  {
    if msgs != [] {
      ExchangeIsExact(p, a, b, msgs[0]);
      var (a', b', _) := Exchange(p, a, b, msgs[0]);
      ConversationIsExact(p, a', b', msgs[1..]);
    }
  }

  // ----- the stateful modifiers as objects ------------------------------------------------------

  class XORModifier {
    var xorKey: XorKey
    var closed: bool

    function Value(): (r: Modifier)
      reads this
    {
      Xor(xorKey, closed)
    }

    /** Both directions are the same transformation. */
    method Modify(p: Ciphers, phase: nat, data: Bytes) returns (r: Result<Bytes>)
      ensures Sent(Value(), r, []) == Outbound(p, Value(), phase, data, [])
      ensures (Value(), r) == Inbound(p, Value(), phase, data)
    {
      if closed { return Err; }
      var result := XorApply(xorKey, data);
      return Ok(result);
    }

    /** Wipes the key; no call succeeds afterwards. */
    method Close()
      modifies this
      ensures closed && |xorKey| == |old(xorKey)| && forall i :: 0 <= i < |xorKey| ==> xorKey[i] == 0
    {
      var i := 0;
      while i < |xorKey|
        invariant 0 <= i <= |xorKey| == |old(xorKey)|
        invariant forall j :: 0 <= j < i ==> xorKey[j] == 0
      {
        xorKey := xorKey[i := 0];
        i := i + 1;
      }
      closed := true;
    }
  }

  class LengthModifier {
    var outboundKeys: Bytes
    var inboundKeys: Bytes
    var outboundIV: nat
    var inboundIV: nat

    function Value(): (r: Modifier)
      reads this
    {
      SipLength(outboundKeys, inboundKeys, outboundIV, inboundIV)
    }

    method NextOutboundMask(p: Ciphers) returns (mask: nat)
      modifies this
      ensures mask == MaskOf(outboundIV) < U16
      ensures Value() == old(SipLength(outboundKeys, inboundKeys, NextIV(p, outboundKeys, outboundIV), inboundIV))
    {
      outboundIV := NextIV(p, outboundKeys, outboundIV);
      return MaskOf(outboundIV);
    }

    method NextInboundMask(p: Ciphers) returns (mask: nat)
      modifies this
      ensures mask == MaskOf(inboundIV) < U16
      ensures Value() == old(SipLength(outboundKeys, inboundKeys, outboundIV, NextIV(p, inboundKeys, inboundIV)))
    {
      inboundIV := NextIV(p, inboundKeys, inboundIV);
      return MaskOf(inboundIV);
    }

    method ModifyOutbound(p: Ciphers, phase: nat, data: Bytes) returns (r: Bytes)
      modifies this
      ensures Sent(Value(), Ok(r), []) == Outbound(p, old(Value()), phase, data, [])
    {
      if phase < DATA || |data| != 2 { return data; }
      var mask := NextOutboundMask(p);
      return Masked(data, mask);
    }

    method ModifyInbound(p: Ciphers, phase: nat, data: Bytes) returns (r: Bytes)
      modifies this
      ensures (Value(), Ok(r)) == Inbound(p, old(Value()), phase, data)
    {
      if phase < DATA || |data| != 2 { return data; }
      var mask := NextInboundMask(p);
      return Masked(data, mask);
    }
  }

  /** CBC over the first two blocks of a buffer, in place. */
  method EncryptPrefix(p: Ciphers, key: Bytes, iv: AesBlock, a: array<byte>)
    requires a.Length >= 32
    modifies a
    ensures a[..] == CbcEncrypt(p, key, iv, old(a[..]))
  {
    ghost var data := a[..];
    var c0: Bytes := p.enc(key, XorBytes(a[..16], iv));
    assert a[16..32] == data[16..32] && a[..16] == data[..16];
    CopyInto(c0, a, 0);
    assert a[16..] == data[16..] && a[16..32] == data[16..][..16] == data[16..32];
    var c1: Bytes := p.enc(key, XorBytes(a[16..32], c0));
    assert a[..16] == c0 && a[32..] == data[32..];
    CopyInto(c1, a, 16);
    assert a[..32] == c0 + c1 && a[32..] == data[32..];
    assert a[..] == a[..32] + a[32..];
  }

  method DecryptPrefix(p: Ciphers, key: Bytes, iv: AesBlock, a: array<byte>)
    requires a.Length >= 32
    modifies a
    ensures a[..] == CbcDecrypt(p, key, iv, old(a[..]))
  {
    ghost var data := a[..];
    var c0 := a[..16];
    assert c0 == data[..16] && a[16..32] == data[16..32];
    var d0, d1 := XorBytes(p.dec(key, c0), iv), XorBytes(p.dec(key, a[16..32]), c0);
    CopyInto(d0, a, 0);
    assert a[..16] == d0 && a[16..] == data[16..] && a[16..][16..] == data[32..];
    assert a[32..] == data[32..];
    CopyInto(d1, a, 16);
    assert a[..32] == d0 + d1 && a[32..] == data[32..];
    assert a[..] == a[..32] + a[32..];
  }

  class AESObfuscationModifier {
    const routerHash: Bytes
    const iv: AesBlock
    var aesState: Option<AesBlock>

    constructor (routerHash: Bytes, iv: AesBlock)
      ensures Value() == Aes(routerHash, iv, None)
    {
      this.routerHash, this.iv, aesState := routerHash, iv, None;
    }

    function Value(): (r: Modifier)
      reads this
    {
      Aes(routerHash, iv, aesState)
    }

    /** Keeps the last ciphertext block of message 1 as the initial vector of message 2. */
    method ModifyOutbound(p: Ciphers, phase: nat, data: Bytes) returns (r: Result<Bytes>)
      modifies this
      ensures Sent(Value(), r, []) == Outbound(p, old(Value()), phase, data, [])
    {
      if |data| < 32 || phase > EXCHANGE { return Ok(data); }
      if phase == EXCHANGE && aesState.None? { return Err; }
      var result := new byte[|data|](i requires 0 <= i < |data| => data[i]);
      assert result[..] == data;
      EncryptPrefix(p, routerHash, if phase == INITIAL then iv else aesState.value, result);
      if phase == INITIAL {
        assert result[16..32] == result[..][16..32];
        aesState := Some(result[16..32]);
      }
      return Ok(result[..]);
    }

    /** The state is taken before decryption; a key with its top bit set is refused. */
    method ModifyInbound(p: Ciphers, phase: nat, data: Bytes) returns (r: Result<Bytes>)
      modifies this
      ensures (Value(), r) == Inbound(p, old(Value()), phase, data)
    {
      if |data| < 32 || phase > EXCHANGE { return Ok(data); }
      if phase == EXCHANGE && aesState.None? { return Err; }
      var used := if phase == INITIAL then iv else aesState.value;
      if phase == INITIAL { aesState := Some(data[16..32]); }
      var result := new byte[|data|](i requires 0 <= i < |data| => data[i]);
      assert result[..] == data;
      DecryptPrefix(p, routerHash, used, result);
      if result[31] >= 128 { return Err; }
      return Ok(result[..]);
    }
  }

  // ----- the chain object ------------------------------------------------------------------------

  /** The states already passed, then those of the rest. */
  function After(head: seq<Modifier>, rest: SentAll): (r: SentAll) {
    SentAll(head + rest.mods, rest.data, rest.pads)
  }

  lemma OutboundPeels(p: Ciphers, head: seq<Modifier>, mods: seq<Modifier>, i: nat, phase: nat, data: Bytes, pads: seq<Bytes>)
    requires i < |mods|
    ensures var one := Outbound(p, mods[i], phase, data, pads);
            After(head, OutboundAll(p, mods[i..], phase, data, pads)) ==
            if one.data.Err? then SentAll(head + [one.m] + mods[i + 1..], Err, one.pads)
            else After(head + [one.m], OutboundAll(p, mods[i + 1..], phase, one.data.value, one.pads))
  {
    assert mods[i..][0] == mods[i] && mods[i..][1..] == mods[i + 1..];
    var one := Outbound(p, mods[i], phase, data, pads);
    if one.data.Ok? {
      var rest := OutboundAll(p, mods[i + 1..], phase, one.data.value, one.pads);
      assert head + ([one.m] + rest.mods) == head + [one.m] + rest.mods;
    } else {
      assert head + ([one.m] + mods[i + 1..]) == head + [one.m] + mods[i + 1..];
    }
  }

  /** A chain whose members keep their state between calls. */
  class ModifierChain {
    var modifiers: seq<Modifier>

    constructor (mods: seq<Modifier>)
      ensures modifiers == mods
    {
      modifiers := mods;
    }

    /** Forward pass; stops at the first error. */
    method ModifyOutbound(p: Ciphers, phase: nat, data: Bytes, pads: seq<Bytes>) returns (r: Result<Bytes>, left: seq<Bytes>)
      modifies this
      ensures SentAll(modifiers, r, left) == OutboundAll(p, old(modifiers), phase, data, pads)
    {
      var mods, head, result := modifiers, [], data;
      left := pads;
      var i := 0;
      while i < |mods|
        invariant 0 <= i <= |mods|
        invariant OutboundAll(p, mods, phase, data, pads) == After(head, OutboundAll(p, mods[i..], phase, result, left))
      {
        OutboundPeels(p, head, mods, i, phase, result, left);
        var one := Outbound(p, mods[i], phase, result, left);
        head, left := head + [one.m], one.pads;
        i := i + 1;
        if one.data.Err? {
          modifiers := head + mods[i..];
          return Err, left;
        }
        result := one.data.value;
      }
      modifiers := head;
      return Ok(result), left;
    }

    /** Backward pass; stops at the first error. */
    method ModifyInbound(p: Ciphers, phase: nat, data: Bytes) returns (r: Result<Bytes>)
      modifies this
      ensures (modifiers, r) == InboundAll(p, old(modifiers), phase, data)
    {
      var mods, tail, result := modifiers, [], data;
      var i := |mods|;
      while i > 0
        invariant 0 <= i <= |mods|
        invariant InboundAll(p, mods[i..], phase, data) == (tail, Ok(result))
      {
        i := i - 1;
        InboundPeels(p, mods, i, phase, data);
        var (m, out) := Inbound(p, mods[i], phase, result);
        tail := [m] + tail;
        if out.Err? {
          FailurePropagates(p, mods, i, phase, data);
          modifiers := mods[..i] + tail;
          return Err;
        }
        result := out.value;
      }
      assert mods[0..] == mods;
      modifiers := tail;
      return Ok(result);
    }
  }

  /** The reverse pass over a suffix, one modifier at a time. */
  lemma InboundPeels(p: Ciphers, mods: seq<Modifier>, i: nat, phase: nat, data: Bytes)
    requires i < |mods| && InboundAll(p, mods[i + 1..], phase, data).1.Ok?
    ensures var rest := InboundAll(p, mods[i + 1..], phase, data);
            var first := Inbound(p, mods[i], phase, rest.1.value);
            InboundAll(p, mods[i..], phase, data) == ([first.0] + rest.0, first.1)
  {
    assert mods[i..][0] == mods[i] && mods[i..][1..] == mods[i + 1..];
  }

  /** An error in the later part of a chain leaves the earlier modifiers alone. */
  lemma {:induction false} FailurePropagates(p: Ciphers, mods: seq<Modifier>, i: nat, phase: nat, data: Bytes)
    requires i <= |mods| && InboundAll(p, mods[i..], phase, data).1.Err?
    ensures InboundAll(p, mods, phase, data) == (mods[..i] + InboundAll(p, mods[i..], phase, data).0, Err)
  {
    var failed := InboundAll(p, mods[i..], phase, data).0;
    if i > 0 {
      assert mods[1..][i - 1..] == mods[i..];
      FailurePropagates(p, mods[1..], i - 1, phase, data);
      assert mods[..i] + failed == [mods[0]] + (mods[1..][..i - 1] + failed);
    } else {
      assert mods[0..] == mods && mods[..0] + failed == failed;
    }
  }

  // ----- the two directions of the data phase ----------------------------------------------------

  /** Equal but for what only the opposite direction of the data phase uses. */
  predicate SameOut(m: Modifier, n: Modifier)
    decreases m, 1
  {
    match m
    case SipLength(outKeys, _, outIV, _) => n.SipLength? && n.outKeys == outKeys && n.outIV == outIV
    case Chain(mods) => n.Chain? && SameOutAll(mods, n.mods)
    case _ => n == m
  }

  predicate SameOutAll(ms: seq<Modifier>, ns: seq<Modifier>)
    decreases ms, 0
  {
    |ms| == |ns| && (ms != [] ==> SameOut(ms[0], ns[0]) && SameOutAll(ms[1..], ns[1..]))
  }

  predicate SameIn(m: Modifier, n: Modifier)
    decreases m, 1
  {
    match m
    case SipLength(_, inKeys, _, inIV) => n.SipLength? && n.inKeys == inKeys && n.inIV == inIV
    case Chain(mods) => n.Chain? && SameInAll(mods, n.mods)
    case _ => n == m
  }

  predicate SameInAll(ms: seq<Modifier>, ns: seq<Modifier>)
    decreases ms, 0
  {
    |ms| == |ns| && (ms != [] ==> SameIn(ms[0], ns[0]) && SameInAll(ms[1..], ns[1..]))
  }

  lemma {:induction false} SameInReflexive(ms: seq<Modifier>)
    ensures SameInAll(ms, ms)
    decreases ms
  {
    if ms != [] {
      if ms[0].Chain? { SameInReflexive(ms[0].mods); }
      SameInReflexive(ms[1..]);
    }
  }

  lemma {:induction false} SameOutReflexive(ms: seq<Modifier>)
    ensures SameOutAll(ms, ms)
    decreases ms
  {
    if ms != [] {
      if ms[0].Chain? { SameOutReflexive(ms[0].mods); }
      SameOutReflexive(ms[1..]);
    }
  }

  lemma {:induction false} SameInTransitive(m: Modifier, n: Modifier, o: Modifier)
    requires SameIn(m, n) && SameIn(n, o)
    ensures SameIn(m, o)
    decreases m, 1
  {
    if m.Chain? { SameInAllTransitive(m.mods, n.mods, o.mods); }
  }

  lemma {:induction false} SameInAllTransitive(ms: seq<Modifier>, ns: seq<Modifier>, os: seq<Modifier>)
    requires SameInAll(ms, ns) && SameInAll(ns, os)
    ensures SameInAll(ms, os)
    decreases ms, 0
  {
    if ms != [] {
      SameInTransitive(ms[0], ns[0], os[0]);
      SameInAllTransitive(ms[1..], ns[1..], os[1..]);
    }
  }

  /** Sending data frames does not disturb receiving. */
  lemma {:induction false} OutboundKeepsIn(p: Ciphers, m: Modifier, data: Bytes, pads: seq<Bytes>)
    ensures SameIn(m, Outbound(p, m, DATA, data, pads).m)
    decreases m, 1
  {
    if m.Chain? { OutboundAllKeepsIn(p, m.mods, data, pads); }
  }

  lemma {:induction false} OutboundAllKeepsIn(p: Ciphers, ms: seq<Modifier>, data: Bytes, pads: seq<Bytes>)
    ensures SameInAll(ms, OutboundAll(p, ms, DATA, data, pads).mods)
    decreases ms, 0
  {
    if ms != [] {
      OutboundKeepsIn(p, ms[0], data, pads);
      var first := Outbound(p, ms[0], DATA, data, pads);
      if first.data.Ok? { OutboundAllKeepsIn(p, ms[1..], first.data.value, first.pads); } else { SameInReflexive(ms[1..]); }
    }
  }

  /** Receiving data frames does not disturb sending. */
  lemma {:induction false} InboundKeepsOut(p: Ciphers, m: Modifier, data: Bytes)
    ensures SameOut(m, Inbound(p, m, DATA, data).0)
    decreases m, 1
  {
    if m.Chain? { InboundAllKeepsOut(p, m.mods, data); }
  }

  lemma {:induction false} InboundAllKeepsOut(p: Ciphers, ms: seq<Modifier>, data: Bytes)
    ensures SameOutAll(ms, InboundAll(p, ms, DATA, data).0)
    decreases ms, 0
  {
    if ms != [] {
      InboundAllKeepsOut(p, ms[1..], data);
      var rest := InboundAll(p, ms[1..], DATA, data);
      if rest.1.Ok? { InboundKeepsOut(p, ms[0], rest.1.value); } else { SameOutReflexive([ms[0]]); }
    }
  }

  /** Two modifiers alike for receiving read a data frame alike. */
  lemma {:induction false} SameInReadsAlike(p: Ciphers, m: Modifier, n: Modifier, data: Bytes)
    requires SameIn(m, n)
    ensures var (m', x) := Inbound(p, m, DATA, data); var (n', y) := Inbound(p, n, DATA, data); x == y && SameIn(m', n')
    decreases m, 1
  {
    if m.Chain? { SameInAllReadsAlike(p, m.mods, n.mods, data); }
  }

  lemma {:induction false} SameInAllReadsAlike(p: Ciphers, ms: seq<Modifier>, ns: seq<Modifier>, data: Bytes)
    requires SameInAll(ms, ns)
    ensures var (ms', x) := InboundAll(p, ms, DATA, data); var (ns', y) := InboundAll(p, ns, DATA, data);
            x == y && SameInAll(ms', ns')
    decreases ms, 0
  {
    if ms != [] {
      SameInAllReadsAlike(p, ms[1..], ns[1..], data);
      var rest := InboundAll(p, ms[1..], DATA, data);
      if rest.1.Ok? { SameInReadsAlike(p, ms[0], ns[0], rest.1.value); }
    }
  }

  /** Matching survives whatever the opposite direction does on either side. */
  lemma {:induction false} MatchesCongruent(s: Modifier, s': Modifier, r: Modifier, r': Modifier)
    requires Matches(s, r) && SameOut(s, s') && SameIn(r, r')
    ensures Matches(s', r')
    decreases s, 1
  {
    if s.Chain? { MatchesAllCongruent(s.mods, s'.mods, r.mods, r'.mods); }
  }

  lemma {:induction false} MatchesAllCongruent(ss: seq<Modifier>, ss': seq<Modifier>, rs: seq<Modifier>, rs': seq<Modifier>)
    requires MatchesAll(ss, rs) && SameOutAll(ss, ss') && SameInAll(rs, rs')
    ensures MatchesAll(ss', rs')
    decreases ss, 0
  {
    if ss != [] {
      MatchesCongruent(ss[0], ss'[0], rs[0], rs'[0]);
      MatchesAllCongruent(ss[1..], ss'[1..], rs[1..], rs'[1..]);
    }
  }

  // ----- growth ----------------------------------------------------------------------------------

  /** Most bytes the data phase can add to a frame. */
  function Growth(m: Modifier): (r: nat)
    decreases m, 1
  {
    match m
    case BlockPad(_, maxPad, aead) => if aead && maxPad > 0 then PaddingEngine.HEADER + maxPad else 0
    case Chain(mods) => GrowthAll(mods)
    case _ => 0
  }

  function GrowthAll(mods: seq<Modifier>): (r: nat)
    decreases mods, 0
  {
    if mods == [] then 0 else Growth(mods[0]) + GrowthAll(mods[1..])
  }

  lemma {:induction false} GrowthBound(p: Ciphers, m: Modifier, data: Bytes, pads: seq<Bytes>)
    ensures var out := Outbound(p, m, DATA, data, pads);
            Growth(out.m) == Growth(m) && (out.data.Ok? ==> |out.data.value| <= |data| + Growth(m))
    decreases m, 1
  {
    if m.Chain? { GrowthAllBound(p, m.mods, data, pads); }
  }

  lemma {:induction false} GrowthAllBound(p: Ciphers, mods: seq<Modifier>, data: Bytes, pads: seq<Bytes>)
    ensures var out := OutboundAll(p, mods, DATA, data, pads);
            GrowthAll(out.mods) == GrowthAll(mods) && (out.data.Ok? ==> |out.data.value| <= |data| + GrowthAll(mods))
    decreases mods, 0
  {
    if mods != [] {
      GrowthBound(p, mods[0], data, pads);
      var first := Outbound(p, mods[0], DATA, data, pads);
      if first.data.Ok? { GrowthAllBound(p, mods[1..], first.data.value, first.pads); }
    }
  }

  /** Open, with padding limits in order: what the constructors establish. */
  predicate Usable(m: Modifier)
    decreases m, 1
  {
    match m
    case Xor(_, closed) => !closed
    case BlockPad(minPad, maxPad, _) => minPad <= maxPad
    case Chain(mods) => UsableAll(mods)
    case _ => true
  }

  predicate UsableAll(mods: seq<Modifier>)
    decreases mods, 0
  {
    mods != [] ==> Usable(mods[0]) && UsableAll(mods[1..])
  }

  /** The largest paddings the random source may choose, in the order in which they are drawn. */
  function LargestPads(m: Modifier): (pads: seq<Bytes>)
    decreases m, 1
  {
    match m
    case BlockPad(_, maxPad, aead) => if aead && maxPad > 0 then [seq(maxPad, _ => 0)] else []
    case Chain(mods) => LargestPadsAll(mods)
    case _ => []
  }

  function LargestPadsAll(mods: seq<Modifier>): (pads: seq<Bytes>)
    decreases mods, 0
  {
    if mods == [] then [] else LargestPads(mods[0]) + LargestPadsAll(mods[1..])
  }

  /** The bound is exact: every usable chain can add as many bytes, to any data. */
  lemma {:induction false} GrowthReached(p: Ciphers, m: Modifier, data: Bytes, rest: seq<Bytes>)
    requires Usable(m)
    ensures var out := Outbound(p, m, DATA, data, LargestPads(m) + rest);
            out.data.Ok? && |out.data.value| == |data| + Growth(m) && out.pads == rest
    decreases m, 1
  {
    match m
    case Chain(mods) => GrowthAllReached(p, mods, data, rest);
    case BlockPad(_, maxPad, aead) =>
      if aead && maxPad > 0 {
        assert (LargestPads(m) + rest)[0] == seq(maxPad, _ => 0) && (LargestPads(m) + rest)[1..] == rest;
      } else {
        assert LargestPads(m) + rest == rest;
      }
    case _ => assert LargestPads(m) + rest == rest;
  }

  lemma {:induction false} GrowthAllReached(p: Ciphers, mods: seq<Modifier>, data: Bytes, rest: seq<Bytes>)
    requires UsableAll(mods)
    ensures var out := OutboundAll(p, mods, DATA, data, LargestPadsAll(mods) + rest);
            out.data.Ok? && |out.data.value| == |data| + GrowthAll(mods) && out.pads == rest
    decreases mods, 0
  {
    if mods == [] {
      assert LargestPadsAll(mods) + rest == rest;
    } else {
      var more := LargestPadsAll(mods[1..]) + rest;
      assert LargestPadsAll(mods) + rest == LargestPads(mods[0]) + more;
      GrowthReached(p, mods[0], data, more);
      GrowthAllReached(p, mods[1..], Outbound(p, mods[0], DATA, data, LargestPads(mods[0]) + more).data.value, rest);
    }
  }
}
