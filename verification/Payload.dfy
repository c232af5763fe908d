/** The block payload of ECIES-X25519-AEAD-Ratchet messages: serialiser, builder and parser. */
module Payload {
  import opened Common

  const BLOCK_DATETIME: byte := 0
  const BLOCK_TERMINATION: byte := 4
  const BLOCK_OPTIONS: byte := 5
  const BLOCK_NEXTKEY: byte := 7
  const BLOCK_ACK: byte := 8
  const BLOCK_PADDING: byte := 254
  const HEADER := 3
  const MAX_BLOCK := 65516
  const MAX_PAYLOAD := 65519

  datatype Block = Block(kind: byte, data: Bytes)

  /** Wire form of one block: type, big-endian length, data. */
  function Wire(b: Block): (w: Bytes)
    ensures |w| == HEADER + |b.data|
  {
    [b.kind] + Be16(|b.data|) + b.data
  }

  /** Byte by byte: the type, the length most significant byte first, the data. */
  lemma WireBytes(b: Block)
    requires |b.data| < U16
    ensures var w := Wire(b); w[0] == b.kind && Digits(w[1..3]) == |b.data| && w[3..] == b.data
  {
    Be16RoundTrip(|b.data|);
    assert Wire(b)[1..3] == Be16(|b.data|);
    BigEndian(Be16(|b.data|));
  }

  function WireAll(bs: seq<Block>): (r: Bytes) {
    if bs == [] then [] else Wire(bs[0]) + WireAll(bs[1..])
  }

  /** `data` is exactly the concatenation of these blocks, each short enough for its length field. */
  ghost predicate Encodes(bs: seq<Block>, data: Bytes) {
    (forall b <- bs :: |b.data| < U16) && WireAll(bs) == data
  }

  lemma WireAllCons(bs: seq<Block>)
    requires bs != []
    ensures WireAll(bs) == Wire(bs[0]) + WireAll(bs[1..])
  {}

  lemma AppendHead(a: seq<Block>, b: seq<Block>)
    requires a != []
    ensures WireAll(a + b) == Wire(a[0]) + WireAll(a[1..] + b)
  {
    hide Wire;
    assert (a + b)[1..] == a[1..] + b;
  }

  lemma {:induction false} WireAllAppend(a: seq<Block>, b: seq<Block>)
    ensures WireAll(a + b) == WireAll(a) + WireAll(b)
  {
    if a == [] {
      assert a + b == b && WireAll(a) == [];
    } else {
      WireAllAppend(a[1..], b);
      AppendHead(a, b);
      hide WireAll, Wire;
      WireAllCons(a);
      var x, y, z := Wire(a[0]), WireAll(a[1..]), WireAll(b);
      assert x + (y + z) == x + y + z;
    }
  }

  lemma WireAllSnoc(a: seq<Block>, b: Block)
    ensures WireAll(a + [b]) == WireAll(a) + Wire(b)
  {
    WireAllAppend(a, [b]);
    assert WireAll([b]) == Wire(b) + WireAll([]);
  }

  /** The first block can be read off any string that starts with its wire form. */
  lemma HeadDetermined(a: Block, b: Block, u: Bytes, v: Bytes)
    requires |a.data| < U16 && |b.data| < U16
    requires Wire(a) + u == Wire(b) + v
    ensures a == b && u == v
  {
    var w := Wire(a) + u;
    assert w[0] == a.kind && w[0] == b.kind;
    assert w[1..3] == Be16(|a.data|);
    assert w[1..3] == Be16(|b.data|);
    Be16RoundTrip(|a.data|);
    Be16RoundTrip(|b.data|);
    assert w[3..3 + |a.data|] == a.data;
    assert w[3..3 + |b.data|] == b.data;
    assert w[3 + |a.data|..] == u && w[3 + |b.data|..] == v;
  }

  /** A list whose wire form starts with that of `bs` itself starts with `bs`. */
  lemma {:induction false} PrefixDetermined(bs: seq<Block>, cs: seq<Block>, rest: Bytes)
    requires forall b <- bs :: |b.data| < U16
    requires forall c <- cs :: |c.data| < U16
    requires WireAll(bs) + rest == WireAll(cs)
    ensures bs <= cs && WireAll(cs[|bs|..]) == rest
  {
    if bs != [] {
      assert cs != [] by { assert |WireAll(cs)| >= |Wire(bs[0])| > 0; }
      var u, v := WireAll(bs[1..]) + rest, WireAll(cs[1..]);
      assert Wire(bs[0]) + u == Wire(cs[0]) + v;
      HeadDetermined(bs[0], cs[0], u, v);
      PrefixDetermined(bs[1..], cs[1..], rest);
      assert cs[1..][|bs| - 1..] == cs[|bs|..];
    }
  }

  lemma NonEmptyWire(bs: seq<Block>)
    ensures bs != [] ==> WireAll(bs) != []
  {}

  /** Parsing is unambiguous: a byte string encodes at most one block list. */
  lemma EncodesUnique(bs: seq<Block>, cs: seq<Block>, data: Bytes)
    requires Encodes(bs, data) && Encodes(cs, data)
    ensures bs == cs
  {
    assert WireAll(bs) + [] == WireAll(cs);
    PrefixDetermined(bs, cs, []);
    NonEmptyWire(cs[|bs|..]);
  }

  /** Control blocks put in front of a well-formed payload parse back as control blocks, then payload. */
  lemma PrependEncodes(control: seq<Block>, blocks: seq<Block>, data: Bytes)
    requires forall b <- control :: |b.data| < U16
    requires Encodes(blocks, data)
    ensures Encodes(control + blocks, WireAll(control) + data)
  {
    WireAllAppend(control, blocks);
  }

  /** No list starts with a header that promises more data than there is. */
  lemma TruncatedEncodesNothing(data: Bytes, bs: seq<Block>)
    requires data != []
    requires |data| >= HEADER ==> ReadBe16(data[1..3]) > |data| - HEADER
    ensures !Encodes(bs, data)
  {
    if Encodes(bs, data) {
      assert bs != [];
      assert data[1..3] == Be16(|bs[0].data|);
      Be16RoundTrip(|bs[0].data|);
    }
  }

  lemma TruncatedTailEncodesNothing(blocks: seq<Block>, data: Bytes, offset: nat, bs: seq<Block>)
    requires offset < |data| && Encodes(blocks, data[..offset])
    requires |data| - offset >= HEADER ==> ReadBe16(data[offset..][1..3]) > |data| - offset - HEADER
    ensures !Encodes(bs, data)
  {
    var rest := data[offset..];
    if Encodes(bs, data) {
      assert WireAll(blocks) + rest == WireAll(bs);
      PrefixDetermined(blocks, bs, rest);
      TruncatedEncodesNothing(rest, bs[|blocks|..]);
    }
  }

  // ----- ParsePayload -------------------------------------------------------------------------

  /** Accepts exactly the strings that encode some block list, and returns that list. */
  method ParsePayload(data: Bytes) returns (r: Result<seq<Block>>)
    ensures r.Ok? ==> Encodes(r.value, data)
    ensures r.Err? ==> forall bs :: !Encodes(bs, data)
  {
    var blocks: seq<Block> := [];
    var offset := 0;
    while offset < |data|
      invariant 0 <= offset <= |data|
      invariant Encodes(blocks, data[..offset])
    {
      var rest := data[offset..];
      if |rest| < HEADER || ReadBe16(rest[1..3]) > |rest| - HEADER {
        forall bs ensures !Encodes(bs, data) {
          TruncatedTailEncodesNothing(blocks, data, offset, bs);
        }
        return Err;
      }
      var len := ReadBe16(rest[1..3]);
      var block := Block(data[offset], data[offset + HEADER..offset + HEADER + len]);
      ReadBe16RoundTrip(rest[1..3]);
      assert Wire(block) == data[offset..offset + HEADER + len];
      WireAllSnoc(blocks, block);
      assert data[..offset] + data[offset..offset + HEADER + len] == data[..offset + HEADER + len];
      blocks := blocks + [block];
      offset := offset + HEADER + len;
    }
    assert data[..offset] == data;
    return Ok(blocks);
  }

  // ----- PayloadBuilder -----------------------------------------------------------------------

  function TotalSize(bs: seq<Block>): (n: nat) {
    if bs == [] then 0 else HEADER + |bs[0].data| + TotalSize(bs[1..])
  }

  lemma {:induction false} TotalSizeSnoc(a: seq<Block>, b: Block)
    ensures TotalSize(a + [b]) == TotalSize(a) + HEADER + |b.data|
  {
    if a != [] {
      TotalSizeSnoc(a[1..], b);
      assert (a + [b])[1..] == a[1..] + [b];
    }
  }

  lemma {:induction false} WireAllSize(bs: seq<Block>)
    ensures |WireAll(bs)| == TotalSize(bs)
    ensures forall b <- bs :: HEADER + |b.data| <= TotalSize(bs)
  {
    if bs != [] { WireAllSize(bs[1..]); }
  }

  lemma {:induction false} TotalSizePrefix(bs: seq<Block>, k: nat)
    requires k <= |bs|
    ensures TotalSize(bs[..k]) <= TotalSize(bs)
    decreases |bs| - k
  {
    if k < |bs| {
      TotalSizePrefix(bs, k + 1);
      TotalSizeSnoc(bs[..k], bs[k]);
      assert bs[..k + 1] == bs[..k] + [bs[k]];
    } else {
      assert bs[..k] == bs;
    }
  }

  /** Index just past the last block that is not the trailing padding block. */
  function BodyEnd(bs: seq<Block>): (r: nat) {
    if bs != [] && bs[|bs| - 1].kind == BLOCK_PADDING then |bs| - 1 else |bs|
  }

  /** No Options; padding only in last place; a termination anywhere forces one in last body place. */
  ghost predicate WellOrdered(bs: seq<Block>) {
    && (forall i :: 0 <= i < |bs| ==> bs[i].kind != BLOCK_OPTIONS)
    && (forall i :: 0 <= i < |bs| - 1 ==> bs[i].kind != BLOCK_PADDING)
    && ((exists i :: 0 <= i < |bs| && bs[i].kind == BLOCK_TERMINATION) ==>
          BodyEnd(bs) > 0 && bs[BodyEnd(bs) - 1].kind == BLOCK_TERMINATION)
  }

  /**
    Body and trailing padding of a list: no Options, at most one padding block, a Termination anywhere only if one ends
    the body.
  */
  ghost predicate Shaped(bs: seq<Block>, body: seq<Block>, tail: seq<Block>) {
    && bs == body + tail && |tail| <= 1 && (forall b <- tail :: b.kind == 254)
    && (forall b <- body :: b.kind != 5 && b.kind != 254)
    && ((exists b :: b in body && b.kind == 4) ==> body[|body| - 1].kind == 4)
  }

  lemma WellOrderedIff(bs: seq<Block>)
    ensures WellOrdered(bs) <==> exists body, tail :: Shaped(bs, body, tail)
  {
    if WellOrdered(bs) {
      var body, tail := bs[..BodyEnd(bs)], bs[BodyEnd(bs)..];
      forall b <- body ensures b.kind != BLOCK_PADDING {
        var i :| 0 <= i < |body| && body[i] == b;
      }
      assert Shaped(bs, body, tail);
    }
    forall body, tail | Shaped(bs, body, tail) ensures WellOrdered(bs) {
      assert tail == [] ==> bs == body;
      assert forall i :: 0 <= i < |body| ==> bs[i] in body;
      assert BodyEnd(bs) == |body| by {
        if tail == [] && bs != [] { assert bs[|bs| - 1] in body; }
      }
    }
  }

  /** Copies one block's wire form into a buffer (PayloadBlock.Serialize). */
  method SerializeInto(b: Block, dst: array<byte>, offset: nat) returns (ok: bool)
    requires offset <= dst.Length
    modifies dst
    ensures ok <==> offset + HEADER + |b.data| <= dst.Length && |b.data| <= MAX_BLOCK
    ensures !ok ==> dst[..] == old(dst[..])
    ensures ok ==> dst[..] == old(dst[..offset]) + Wire(b) + old(dst[offset + HEADER + |b.data|..])
  {
    if dst.Length - offset < HEADER + |b.data| || |b.data| > MAX_BLOCK { return false; }
    CopyInto([b.kind] + Be16(|b.data|), dst, offset);
    CopyInto(b.data, dst, offset + HEADER);
    var end := offset + HEADER + |b.data|;
    assert dst[..] == dst[..end] + dst[end..];
    return true;
  }

  method ControlSize(blocks: seq<Block>) returns (total: nat)
    ensures total == TotalSize(blocks)
  {
    total := 0;
    for i := 0 to |blocks|
      invariant total == TotalSize(blocks[..i])
    {
      assert blocks[..i + 1] == blocks[..i] + [blocks[i]];
      TotalSizeSnoc(blocks[..i], blocks[i]);
      total := total + HEADER + |blocks[i].data|;
    }
    assert blocks[..|blocks|] == blocks;
  }

  /** Writes the blocks one after the other at the start of a buffer. */
  method SerializeAll(blocks: seq<Block>, buf: array<byte>)
    requires TotalSize(blocks) <= buf.Length
    requires forall b <- blocks :: |b.data| <= MAX_BLOCK
    modifies buf
    ensures buf[..TotalSize(blocks)] == WireAll(blocks)
  {
    var offset := 0;
    for i := 0 to |blocks|
      invariant offset == TotalSize(blocks[..i]) <= buf.Length
      invariant buf[..offset] == WireAll(blocks[..i])
    {
      assert blocks[..i + 1] == blocks[..i] + [blocks[i]];
      TotalSizeSnoc(blocks[..i], blocks[i]);
      TotalSizePrefix(blocks, i + 1);
      WireAllSnoc(blocks[..i], blocks[i]);
      var done := SerializeInto(blocks[i], buf, offset);
      assert blocks[i] in blocks;
      assert done;
      offset := offset + HEADER + |blocks[i].data|;
    }
    assert blocks[..|blocks|] == blocks;
  }

  class PayloadBuilder {
    var blocks: seq<Block>

    constructor ()
      ensures blocks == []
    {
      blocks := [];
    }

    method AddBlock(b: Block)
      modifies this
      ensures blocks == old(blocks) + [b]
    {
      blocks := blocks + [b];
    }

    method Validate() returns (ok: bool)
      ensures ok <==> WellOrdered(blocks)
    {
      var terminationIdx, paddingIdx := -1, -1;
      var i := 0;
      while i < |blocks|
        invariant 0 <= i <= |blocks|
        invariant forall k :: 0 <= k < i ==> blocks[k].kind != BLOCK_OPTIONS
        invariant -1 <= paddingIdx < i && -1 <= terminationIdx < i
        invariant forall k :: 0 <= k < i ==> (blocks[k].kind == BLOCK_PADDING <==> k == paddingIdx)
        invariant terminationIdx >= 0 ==> blocks[terminationIdx].kind == BLOCK_TERMINATION
        invariant forall k :: terminationIdx < k < i ==> blocks[k].kind != BLOCK_TERMINATION
      {
        if blocks[i].kind == BLOCK_OPTIONS { return false; }
        if blocks[i].kind == BLOCK_PADDING {
          if paddingIdx >= 0 {
            assert paddingIdx < |blocks| - 1 && blocks[paddingIdx].kind == BLOCK_PADDING;
            return false;
          }
          paddingIdx := i;
        } else if blocks[i].kind == BLOCK_TERMINATION {
          terminationIdx := i;
        }
        i := i + 1;
      }
      if paddingIdx >= 0 && paddingIdx != |blocks| - 1 {
        assert 0 <= paddingIdx < |blocks| - 1 && blocks[paddingIdx].kind == BLOCK_PADDING;
        return false;
      }
      if terminationIdx >= 0 {
        var expectedLast := if paddingIdx >= 0 then |blocks| - 2 else |blocks| - 1;
        if terminationIdx != expectedLast { return false; }
      }
      return true;
    }

    /** Succeeds exactly on well-ordered lists that fit, with their concatenated wire form. */
    method Build() returns (r: Result<Bytes>)
      ensures r.Ok? <==> WellOrdered(blocks) && |WireAll(blocks)| <= MAX_PAYLOAD
      ensures r.Ok? ==> Encodes(blocks, r.value)
    {
      var ok := Validate();
      if !ok { return Err; }
      var total := ControlSize(blocks);
      WireAllSize(blocks);
      if total > MAX_PAYLOAD { return Err; }
      var buf := new byte[total];
      SerializeAll(blocks, buf);
      assert buf[..total] == buf[..];
      return Ok(buf[..]);
    }
  }

  /** Building and then parsing gives the list back, and nothing else. */
  lemma BuildThenParse(bs: seq<Block>, parsed: seq<Block>, data: Bytes)
    requires Encodes(bs, data)
    requires Encodes(parsed, data)
    ensures parsed == bs && WireAll(parsed) == data
  {
    EncodesUnique(bs, parsed, data);
  }

  // ----- block contents used by the session engine --------------------------------------------

  /** Seconds carried by a DateTime block. */
  function DateTime(b: Block): (r: Option<nat>) {
    if b.kind != BLOCK_DATETIME || |b.data| != 4 then None else Some(ReadBe32(b.data))
  }

  /** The block for a Unix time. */
  function DateTimeBlock(seconds: nat): (b: Block) { Block(BLOCK_DATETIME, Be32(seconds)) }

  /** Exactly four bytes under type 0 are read as a time: the number of seconds they stand for, most significant first. */
  lemma DateTimeBytes(b: Block)
    ensures DateTime(b).Some? <==> b.kind == 0 && |b.data| == 4
    ensures DateTime(b).Some? ==> DateTime(b).value == Digits(b.data)
  {
    BigEndian(b.data);
  }

  /** Every uint32 time is read back. */
  lemma DateTimeRoundTrip(seconds: nat)
    requires seconds < U32
    ensures DateTime(DateTimeBlock(seconds)) == Some(seconds)
  {
    Be32RoundTrip(seconds);
    hide Be32, ReadBe32;
  }

  /** A block read as some time is the one built for it. */
  lemma DateTimeUnique(b: Block)
    requires DateTime(b).Some?
    ensures DateTime(b).value < U32 && b == DateTimeBlock(DateTime(b).value)
  {
    BigEndian(b.data);
    hide Be32, Digits;
  }

  datatype NextKeyInfo = NextKeyInfo(reverse: bool, requestReverse: bool, keyId: nat, key: Option<Bytes>)

  function NextKeyBlock(info: NextKeyInfo): (r: Block) {
    var flags := (if info.key.Some? then 1 else 0)
                 + (if info.reverse then 2 else if info.requestReverse then 4 else 0);
    Block(BLOCK_NEXTKEY, [flags] + Be16(info.keyId) + (if info.key.Some? then info.key.value else []))
  }

  function ParseNextKey(b: Block): (r: Option<NextKeyInfo>) {
    if b.kind != BLOCK_NEXTKEY || (|b.data| != 3 && |b.data| != 35) then None
    else
      var flags := b.data[0];
      if flags % 2 == 1 && |b.data| < 35 then None
      else Some(NextKeyInfo(flags / 2 % 2 == 1, flags / 4 % 2 == 1, ReadBe16(b.data[1..3]),
                            if flags % 2 == 1 then Some(b.data[3..35]) else None))
  }

  /** The parser recovers every field; only a reverse block drops the request flag. */
  lemma NextKeyRoundTrip(info: NextKeyInfo)
    requires info.keyId < U16
    requires info.key.Some? ==> |info.key.value| == 32
    ensures ParseNextKey(NextKeyBlock(info))
         == Some(info.(requestReverse := info.requestReverse && !info.reverse))
  {
    var b := NextKeyBlock(info);
    assert b.data[1..3] == Be16(info.keyId);
    Be16RoundTrip(info.keyId);
    if info.key.Some? {
      assert b.data[3..35] == info.key.value;
    }
  }

  /** The bytes of the two announcements a session makes: flags, key ID most significant byte first, public key. */
  lemma AnnouncementBytes(keyId: nat, key: Bytes)
    requires keyId < U16
    ensures var forward := NextKeyBlock(NextKeyInfo(false, true, keyId, Some(key)));
            var reverse := NextKeyBlock(NextKeyInfo(true, false, keyId, Some(key)));
            && forward.kind == reverse.kind == 7 && forward.data[0] == 5 && reverse.data[0] == 3
            && Digits(forward.data[1..3]) == Digits(reverse.data[1..3]) == keyId
            && forward.data[3..] == reverse.data[3..] == key
  {
    Be16RoundTrip(keyId);
    BigEndian(Be16(keyId));
    assert NextKeyBlock(NextKeyInfo(false, true, keyId, Some(key))).data[1..3] == Be16(keyId);
    assert NextKeyBlock(NextKeyInfo(true, false, keyId, Some(key))).data[1..3] == Be16(keyId);
  }
}
