/** The cryptographic primitives the engine calls, as unknown functions with algebraic laws. */
module Crypto {
  import opened Common

  /**
    hkdf1/2   the Noise chaining-key HKDF with one or two outputs
    hkdf      HKDF with salt and info label, 64 bytes as two halves; a 32-byte output is the first half
    derive2/3 the key-derivation object's labelled pair and its root, symmetric and tag keys
    dh        X25519; None when the shared secret is rejected
    encode    Elligator2; None when a point has no representative
    seal/open ChaCha20-Poly1305, keyed by key, message number and associated data; ciphertext ends in the tag
    stepKey   symmetric ratchet: chain key and counter give the message key and the next chain key
    stepTag   tag ratchet: chain key gives the session tag and the next chain key
  */
  datatype Suite = Suite(
    hash: Bytes -> Bytes,
    hkdf1: (Bytes, Bytes) -> Bytes,
    hkdf2: (Bytes, Bytes) -> (Bytes, Bytes),
    hkdf: (Bytes, Bytes, string) -> (Bytes, Bytes),
    derive2: (Bytes, string) -> (Bytes, Bytes),
    derive3: Bytes -> (Bytes, Bytes, Bytes),
    pub: Bytes -> Bytes,
    dh: (Bytes, Bytes) -> Option<Bytes>,
    encode: Bytes -> Option<Bytes>,
    decode: Bytes -> Option<Bytes>,
    seal: (Bytes, nat, Bytes, Bytes) -> Bytes,
    open: (Bytes, nat, Bytes, Bytes) -> Option<Bytes>,
    stepKey: (Bytes, nat) -> (Bytes, Bytes),
    stepTag: Bytes -> (Bytes, Bytes))

  ghost predicate OpenUndoesSeal(cr: Suite) {
    forall k, n, ad, p :: cr.open(k, n, ad, cr.seal(k, n, ad, p)) == Some(p)
  }

  ghost predicate SealAddsTag(cr: Suite) {
    forall k, n, ad, p :: |cr.seal(k, n, ad, p)| == |p| + 16
  }

  ghost predicate DhCommutes(cr: Suite) {
    forall a, b :: cr.dh(a, cr.pub(b)) == cr.dh(b, cr.pub(a))
  }

  ghost predicate DecodeUndoesEncode(cr: Suite) {
    forall p :: cr.encode(p).Some? ==> |cr.encode(p).value| == 32 && cr.decode(cr.encode(p).value) == Some(p)
  }

  ghost predicate Sizes(cr: Suite) {
    && (forall k :: |cr.pub(k)| == 32)
    && (forall c :: |cr.stepTag(c).0| == 8)
  }

  ghost predicate Lawful(cr: Suite) {
    OpenUndoesSeal(cr) && SealAddsTag(cr) && DhCommutes(cr) && DecodeUndoesEncode(cr) && Sizes(cr)
  }

  function Zeros(n: nat): (z: Bytes)
    ensures |z| == n
  {
    seq(n, _ => 0)
  }

  // ----- a model of the laws ---------------------------------------------------------------------

  const U64 := 0x1_0000_0000_0000_0000

  /** Eight bytes that tell numbers below 2^64 apart. */
  function NumberTag(n: nat): (t: Bytes)
    ensures |t| == 8
  {
    if n >= U64 then Zeros(8) else Be32(n / U32) + Be32(n % U32)
  }

  lemma NumberTagInjective(n: nat, m: nat)
    requires n < U64 && m < U64 && NumberTag(n) == NumberTag(m)
    ensures n == m
  {
    assert forall x: nat :: x < U64 ==> NumberTag(x)[..4] == Be32(x / U32) && NumberTag(x)[4..] == Be32(x % U32);
    Be32RoundTrip(n / U32);
    Be32RoundTrip(m / U32);
    Be32RoundTrip(n % U32);
    Be32RoundTrip(m % U32);
  }

  function ModelMac(n: nat): (mac: Bytes)
    ensures |mac| == 16
  {
    NumberTag(n) + Zeros(8)
  }

  /** A (useless) suite with all the laws: ciphertexts carry their message number, tag chains grow by a byte a step. */
  function ModelSuite(): (cr: Suite) {
    Suite(
      hash := b => Zeros(32),
      hkdf1 := (a, b) => Zeros(32),
      hkdf2 := (a, b) => (Zeros(32), Zeros(32)),
      hkdf := (a, b, s) => (Zeros(32), Zeros(32)),
      derive2 := (a, s) => (Zeros(32), Zeros(32)),
      derive3 := a => (Zeros(32), Zeros(32), Zeros(32)),
      pub := k => seq(32, _ => 1),
      dh := (a, b) => Some(Zeros(32)),
      encode := p => if |p| == 32 then Some(p) else None,
      decode := e => Some(e),
      seal := (k, n, ad, p) => p + ModelMac(n),
      open := (k, n, ad, c) => if |c| >= 16 && c[|c| - 16..] == ModelMac(n) then Some(c[..|c| - 16]) else None,
      stepKey := (c, n) => (c, c),
      stepTag := c => (NumberTag(|c|), c + [0]))
  }

  /** In the model a ciphertext opens under its own message number and no other. */
  lemma ModelOpens(k: Bytes, n: nat, ad: Bytes, p: Bytes, m: nat)
    requires n < U64
    ensures ModelSuite().open(k, n, ad, ModelSuite().seal(k, n, ad, p)) == Some(p)
    ensures n > 0 && m != n ==> ModelSuite().open(k, m, ad, ModelSuite().seal(k, n, ad, p)).None?
    ensures m < U64 && m != n ==> ModelSuite().open(k, m, ad, ModelSuite().seal(k, n, ad, p)).None?
  {
    var c := p + ModelMac(n);
    assert c[..|p|] == p && c[|p|..] == ModelMac(n);
    assert ModelMac(n)[..8] == NumberTag(n) && ModelMac(m)[..8] == NumberTag(m);
    if m != n {
      if m < U64 && NumberTag(m) == NumberTag(n) { NumberTagInjective(m, n); }
      if m >= U64 && n > 0 && NumberTag(n) == Zeros(8) {
        ZeroTag();
        NumberTagInjective(n, 0);
      }
    }
  }

  lemma ZeroTag()
    ensures NumberTag(0) == Zeros(8)
  {
    assert Be16(0) == [0, 0];
    assert Be32(0) == [0, 0, 0, 0];
  }

  lemma LawsAreConsistent()
    ensures Lawful(ModelSuite())
  {
    var cr := ModelSuite();
    forall k, n, ad, p ensures cr.open(k, n, ad, cr.seal(k, n, ad, p)) == Some(p) {
      var c: Bytes := p + ModelMac(n);
      assert c[..|p|] == p && c[|p|..] == ModelMac(n);
    }
  }

  // ----- ratchets as indexed sequences ---------------------------------------------------------

  /** Chain key from which the key for message number `n` (counting from 1) is derived. */
  ghost function KeyChainAt(cr: Suite, seed: Bytes, n: nat): (r: Bytes) {
    if n <= 1 then seed else cr.stepKey(KeyChainAt(cr, seed, n - 1), n - 1).1
  }

  ghost function KeyAt(cr: Suite, seed: Bytes, n: nat): (r: Bytes) {
    cr.stepKey(KeyChainAt(cr, seed, n), n).0
  }

  ghost function TagChainAt(cr: Suite, seed: Bytes, n: nat): (r: Bytes) {
    if n <= 1 then seed else cr.stepTag(TagChainAt(cr, seed, n - 1)).1
  }

  ghost function TagAt(cr: Suite, seed: Bytes, n: nat): (r: Bytes) {
    cr.stepTag(TagChainAt(cr, seed, n)).0
  }
}
