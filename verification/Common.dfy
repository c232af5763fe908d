/** Bytes, results, big-endian integers and exclusive-or, shared by every module. */
module Common {

  type byte = x: int | 0 <= x < 256 witness 0
  type Bytes = seq<byte>

  const U16 := 0x1_0000
  const U32 := 0x1_0000_0000

  /** Highest AEAD message number of a session (ratchet/helpers.go). */
  const MAX_MESSAGE := 65535

  datatype Option<+T> = None | Some(value: T)

  datatype Result<+T> = Ok(value: T) | Err

  function Min(a: int, b: int): (r: int) { if a <= b then a else b }
  function Max(a: int, b: int): (r: int) { if a <= b then b else a }

  function Front<T>(s: seq<T>): (r: seq<T>)
    requires s != []
    ensures |r| == |s| - 1
  {
    s[..|s| - 1]
  }

  function Last<T>(s: seq<T>): (r: T)
    requires s != []
  {
    s[|s| - 1]
  }

  /** Two bytes, most significant first (binary.BigEndian.PutUint16 of a uint16 conversion). */
  function Be16(n: nat): (b: Bytes)
    ensures |b| == 2
  {
    [(n / 256) % 256, n % 256]
  }

  function ReadBe16(b: Bytes): (n: nat)
    requires |b| >= 2
    ensures n < U16
  {
    b[0] as int * 256 + b[1] as int
  }

  lemma Be16RoundTrip(n: nat)
    ensures ReadBe16(Be16(n)) == n % U16
    ensures n < U16 ==> ReadBe16(Be16(n)) == n
  {
    assert n / 256 % 256 * 256 + n % 256 == n % 65536;
  }

  lemma ReadBe16RoundTrip(b: Bytes)
    requires |b| == 2
    ensures Be16(ReadBe16(b)) == b
  {
    var n := ReadBe16(b);
    assert n / 256 == b[0] && n % 256 == b[1];
  }

  function Be32(n: nat): (b: Bytes)
    ensures |b| == 4
  {
    Be16(n / U16) + Be16(n % U16)
  }

  function ReadBe32(b: Bytes): (n: nat)
    requires |b| >= 4
    ensures n < U32
  {
    ReadBe16(b) * U16 + ReadBe16(b[2..])
  }

  lemma Be32RoundTrip(n: nat)
    requires n < U32
    ensures ReadBe32(Be32(n)) == n
  {
    Be16RoundTrip(n / U16);
    Be16RoundTrip(n % U16);
    var b := Be32(n);
    assert b[2..] == Be16(n % U16);
    assert b[0] == Be16(n / U16)[0] && b[1] == Be16(n / U16)[1];
  }

  /** The number a byte string stands for, most significant byte first. */
  function Digits(b: Bytes): (n: nat) { if b == [] then 0 else 256 * Digits(Front(b)) + Last(b) as int }

  lemma BigEndian(b: Bytes)
    ensures |b| == 2 ==> ReadBe16(b) == Digits(b)
    ensures |b| == 4 ==> ReadBe32(b) == Digits(b) && Be32(ReadBe32(b)) == b
  {
    if |b| == 2 {
      assert Front(b) == [b[0]] && Front([b[0]]) == [];
      assert Digits(b) == 256 * Digits([b[0]]) + b[1] as int;
    } else if |b| == 4 {
      BigEndian(b[..2]);
      BigEndian(b[2..]);
      assert Front(Front(b)) == b[..2];
      var hi, lo := ReadBe16(b), ReadBe16(b[2..]);
      var n := ReadBe32(b);
      assert n / U16 == hi && n % U16 == lo;
      ReadBe16RoundTrip(b[..2]);
      ReadBe16RoundTrip(b[2..]);
      assert b == b[..2] + b[2..];
    }
  }

  function Pow2(n: nat): (p: nat)
    ensures p >= 1
  {
    if n == 0 then 1 else 2 * Pow2(n - 1)
  }

  /** Bitwise exclusive-or of the low `bits` bits. */
  function Xor(bits: nat, a: nat, b: nat): (r: nat)
    ensures r < Pow2(bits)
  {
    if bits == 0 then 0 else (a + b) % 2 + 2 * Xor(bits - 1, a / 2, b / 2)
  }

  /** Bit i of a number, counting from the least significant. */
  function Bit(n: nat, i: nat): (b: nat) { if i == 0 then n % 2 else Bit(n / 2, i - 1) }

  /** Bit by bit, the result is set exactly where the two numbers differ. */
  lemma {:induction false} XorBits(bits: nat, a: nat, b: nat, i: nat)
    requires i < bits
    ensures Bit(Xor(bits, a, b), i) == 1 <==> Bit(a, i) != Bit(b, i)
  {
    var x := Xor(bits, a, b);
    assert x / 2 == Xor(bits - 1, a / 2, b / 2) && x % 2 == (a + b) % 2;
    if i > 0 { XorBits(bits - 1, a / 2, b / 2, i - 1); }
  }

  lemma {:induction false} XorInvolutive(bits: nat, a: nat, b: nat)
    requires a < Pow2(bits)
    ensures Xor(bits, Xor(bits, a, b), b) == a
  {
    if bits > 0 {
      XorInvolutive(bits - 1, a / 2, b / 2);
      var x := Xor(bits, a, b);
      assert x / 2 == Xor(bits - 1, a / 2, b / 2);
      assert x % 2 == (a + b) % 2;
      Parity(x, a, b);
    }
  }

  lemma Parity(x: nat, a: nat, b: nat)
    requires x % 2 == (a + b) % 2
    ensures (x + b) % 2 == a % 2
  {}

  lemma Pow2Values()
    ensures Pow2(8) == 256 && Pow2(16) == U16
  {
    assert Pow2(4) == 16;
    assert Pow2(8) == 256;
    assert Pow2(12) == 4096;
    assert Pow2(16) == 65536;
  }

  function XorByte(a: byte, b: byte): (r: byte) {
    Pow2Values();
    Xor(8, a, b)
  }

  lemma XorByteInvolutive(a: byte, b: byte)
    ensures XorByte(XorByte(a, b), b) == a
  {
    Pow2Values();
    XorInvolutive(8, a, b);
  }

  /** Pointwise exclusive-or with a second string of at least the same length. */
  function XorBytes(a: Bytes, b: Bytes): (r: Bytes)
    requires |b| >= |a|
    ensures |r| == |a|
  {
    seq(|a|, i requires 0 <= i < |a| => XorByte(a[i], b[i]))
  }

  lemma XorBytesInvolutive(a: Bytes, b: Bytes)
    requires |b| >= |a|
    ensures XorBytes(XorBytes(a, b), b) == a
  {
    forall i | 0 <= i < |a|
      ensures XorBytes(XorBytes(a, b), b)[i] == a[i]
    {
      XorByteInvolutive(a[i], b[i]);
    }
  }

  function Elements<T(==)>(s: seq<T>): (r: set<T>) { set x | x in s }

  /** s without its element i. */
  function Without<T>(s: seq<T>, i: nat): (r: seq<T>)
    requires i < |s|
    ensures |r| == |s| - 1
    ensures forall j :: 0 <= j < |r| ==> r[j] == s[if j < i then j else j + 1]
  {
    s[..i] + s[i + 1..]
  }

  lemma {:induction false} SubsetSize<T>(a: set<T>, b: set<T>)
    requires a <= b
    ensures |a| <= |b|
    decreases b
  {
    if x :| x in b {
      SubsetSize(a - {x}, b - {x});
      if x !in a { assert a - {x} == a; }
    }
  }

  /** Go's copy into a slice that is long enough: what precedes and what follows the copied range stays. */
  method CopyInto(src: Bytes, dst: array<byte>, offset: nat)
    requires offset + |src| <= dst.Length
    modifies dst
    ensures dst[..offset + |src|] == old(dst[..offset]) + src
    ensures dst[offset + |src|..] == old(dst[offset + |src|..])
  {
    for i := 0 to |src|
      invariant dst[..offset] == old(dst[..offset])
      invariant dst[offset + |src|..] == old(dst[offset + |src|..])
      invariant dst[offset..offset + i] == src[..i]
    {
      dst[offset + i] := src[i];
    }
    assert src[..|src|] == src;
    assert dst[..offset + |src|] == dst[..offset] + dst[offset..offset + |src|];
  }

  ghost predicate NoDup<T>(s: seq<T>) {
    forall i, j :: 0 <= i < j < |s| ==> s[i] != s[j]
  }
}
