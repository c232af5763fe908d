/** AEAD padding blocks: adding one, and finding the trailing one again by scanning. */
module PaddingEngine {
  import opened Common

  const PADDING_TYPE: byte := 254
  const HEADER := 3
  const MAX_DATA := 65516

  /** The last 3 + m bytes read as one padding block of m data bytes. */
  predicate SelfConsistent(data: Bytes, m: nat) {
    m + HEADER <= |data| && (var start := |data| - HEADER - m;
                             data[start] == PADDING_TYPE && ReadBe16(data[start + 1..start + 3]) == m)
  }

  /** Largest block the scan looks for; a non-positive limit means none. */
  function ScanLimit(len: nat, maxScan: int): (r: nat)
    requires len >= HEADER
  {
    var room := len - HEADER;
    var scan := if maxScan > 0 && room > maxScan then maxScan else room;
    Min(scan, MAX_DATA)
  }

  /** Smallest m in [from, limit] with a self-consistent trailing block. */
  function Shortest(data: Bytes, from: nat, limit: nat): (r: Option<nat>)
    ensures r.Some? ==> from <= r.value <= limit && SelfConsistent(data, r.value)
    ensures r.Some? ==> forall m :: from <= m < r.value ==> !SelfConsistent(data, m)
    ensures r.None? ==> forall m :: from <= m <= limit ==> !SelfConsistent(data, m)
    decreases limit + 1 - from
  {
    if from > limit then None
    else if SelfConsistent(data, from) then Some(from)
    else Shortest(data, from + 1, limit)
  }

  function Strip(data: Bytes, maxScan: int): (r: Bytes) {
    if |data| < HEADER then data
    else
      match Shortest(data, 0, ScanLimit(|data|, maxScan))
      case None => data
      case Some(m) => data[..|data| - HEADER - m]
  }

  function Padded(data: Bytes, fill: Bytes): (r: Bytes) { data + [PADDING_TYPE] + Be16(|fill|) + fill }

  method AddAEADPadding(data: Bytes, fill: Bytes) returns (r: Bytes)
    ensures r == Padded(data, fill)
  {
    var result := new byte[|data| + HEADER + |fill|];
    CopyInto(data, result, 0);
    CopyInto([PADDING_TYPE] + Be16(|fill|), result, |data|);
    CopyInto(fill, result, |data| + HEADER);
    assert result[..|data| + HEADER + |fill|] == result[..];
    return result[..];
  }

  method RemoveTrailingAEADPadding(data: Bytes, maxScan: int) returns (r: Bytes)
    ensures r == Strip(data, maxScan)
  {
    if |data| < HEADER { return data; }
    var maxPadding := |data| - HEADER;
    if maxScan > 0 && maxPadding > maxScan { maxPadding := maxScan; }
    if maxPadding > MAX_DATA { maxPadding := MAX_DATA; }
    var m := 0;
    while m <= maxPadding
      invariant 0 <= m <= maxPadding + 1
      invariant Shortest(data, 0, maxPadding) == Shortest(data, m, maxPadding)
    {
      if SelfConsistent(data, m) { return data[..|data| - HEADER - m]; }
      m := m + 1;
    }
    return data;
  }

  /** The added block is itself self-consistent. */
  lemma PaddedIsConsistent(data: Bytes, fill: Bytes)
    requires |fill| < U16
    ensures SelfConsistent(Padded(data, fill), |fill|)
  {
    var p, start := Padded(data, fill), |data|;
    Be16RoundTrip(|fill|);
    assert p[start + 1..start + 3] == Be16(|fill|);
  }

  /** A trailing block of m data bytes within reach of the scan: 65516 bytes, or fewer if a limit is set. */
  predicate InReach(data: Bytes, maxScan: int, m: nat) {
    m <= 65516 && (maxScan > 0 ==> m <= maxScan) && SelfConsistent(data, m)
  }

  /** Exactly the shortest block within reach goes, and nothing if there is none. */
  lemma StripsShortest(data: Bytes, maxScan: int, m: nat)
    requires InReach(data, maxScan, m) && forall k: nat :: k < m ==> !InReach(data, maxScan, k)
    ensures Strip(data, maxScan) == data[..|data| - 3 - m]
  {
    var found := Shortest(data, 0, ScanLimit(|data|, maxScan));
    assert m <= ScanLimit(|data|, maxScan) && found.Some?;
    assert InReach(data, maxScan, found.value);
  }

  lemma StripsNothing(data: Bytes, maxScan: int)
    requires forall k: nat :: !InReach(data, maxScan, k)
    ensures Strip(data, maxScan) == data
  {
    var found := if |data| < HEADER then None else Shortest(data, 0, ScanLimit(|data|, maxScan));
    assert found.Some? ==> InReach(data, maxScan, found.value);
  }

  ghost predicate Ambiguous(data: Bytes, fill: Bytes) {
    exists m :: 0 <= m < |fill| && SelfConsistent(Padded(data, fill), m)
  }

  /**
    Stripping what was just padded always gives back an extension of the data, and the data itself exactly when no
    shorter trailing block is self-consistent.
  */
  lemma StripAfterPad(data: Bytes, fill: Bytes, maxScan: int)
    requires |fill| <= MAX_DATA && (maxScan <= 0 || |fill| <= maxScan)
    ensures data <= Strip(Padded(data, fill), maxScan) <= Padded(data, fill)
    ensures Strip(Padded(data, fill), maxScan) == data <==> !Ambiguous(data, fill)
  {
    var p := Padded(data, fill);
    PaddedIsConsistent(data, fill);
    var m := Shortest(p, 0, ScanLimit(|p|, maxScan));
    assert m.Some? && m.value <= |fill|;
    assert p[..|p| - HEADER - m.value][..|data|] == data;
    if m.value == |fill| {
      assert p[..|data|] == data;
    }
  }

  // ----- deterministic fill ---------------------------------------------------------------------

  /** Fill of the deterministic mode for data of length `len`. */
  function CountingFill(len: nat, n: nat): (f: Bytes)
    ensures |f| == n
  {
    seq(n, i => (i + len) % 256)
  }

  /** The block that starts at the high length byte, at the low length byte, or at fill position j. */
  ghost predicate HeaderClash(len: nat, n: nat) {
    || (n == 64510 && len % 256 == 251)
    || (n == 65278 && len % 256 == 253)
  }

  ghost predicate FillClash(len: nat, n: nat) {
    n >= 65283 && (n - 65283 + len) % 256 == 254
  }

  lemma NextByte(x: nat, k: nat)
    ensures (x + k) % 256 == (x % 256 + k) % 256
  {}

  /** Three consecutive counting bytes form a header only as 254, 255, 0, which declares 65280 bytes. */
  lemma CountingHeader(x: nat)
    requires x < 256
    ensures x == 254 ==> (x + 1) % 256 * 256 + (x + 2) % 256 == 65280
  {}

  lemma StartInFill(data: Bytes, n: nat, m: nat)
    requires n <= MAX_DATA && m + HEADER <= n
    ensures SelfConsistent(Padded(data, CountingFill(|data|, n)), m) <==> m == 65280 && FillClash(|data|, n)
  {
    var f := CountingFill(|data|, n);
    var p := Padded(data, f);
    var j := n - HEADER - m;
    var start := |p| - HEADER - m;
    var x := (j + |data|) % 256;
    FillBytes(data, n, j);
    assert p[start + 1..start + 3] == [f[j + 1], f[j + 2]];
    CountingHeader(x);
    if m == 65280 { assert j == n - 65283; }
  }

  lemma FillBytes(data: Bytes, n: nat, j: nat)
    requires j + 2 < n
    ensures var f, x := CountingFill(|data|, n), (j + |data|) % 256;
            && Padded(data, f)[|data| + HEADER + j] == f[j] == x
            && Padded(data, f)[|data| + HEADER + j + 1] == f[j + 1] == (x + 1) % 256
            && Padded(data, f)[|data| + HEADER + j + 2] == f[j + 2] == (x + 2) % 256
  {
    NextByte(j + |data|, 1);
    NextByte(j + |data|, 2);
  }

  lemma LowArithmetic(n: nat, x: nat)
    requires 2 <= n <= MAX_DATA && x < 256
    ensures n % 256 == 254 && x * 256 + (x + 1) % 256 == n - 2 <==> n == 64510 && x == 251
  {
    if x < 255 { assert (x + 1) % 256 == x + 1; }
  }

  lemma StartAtLow(data: Bytes, n: nat)
    requires 2 <= n <= MAX_DATA
    ensures SelfConsistent(Padded(data, CountingFill(|data|, n)), n - 2) <==> n == 64510 && |data| % 256 == 251
  {
    var f := CountingFill(|data|, n);
    var p := Padded(data, f);
    var start := |p| - HEADER - (n - 2);
    assert p[start] == n % 256 && p[start + 1..start + 3] == [f[0], f[1]];
    var x := |data| % 256;
    assert f[0] == x && f[1] == (x + 1) % 256;
    LowArithmetic(n, x);
  }

  lemma StartAtHigh(data: Bytes, n: nat)
    requires 1 <= n <= MAX_DATA
    ensures SelfConsistent(Padded(data, CountingFill(|data|, n)), n - 1) <==> n == 65278 && |data| % 256 == 253
  {
    var f := CountingFill(|data|, n);
    var p := Padded(data, f);
    var start := |p| - HEADER - (n - 1);
    assert p[start] == n / 256 % 256 && p[start + 1..start + 3] == [n % 256, f[0]];
    assert f[0] == |data| % 256;
  }

  /** In deterministic mode, for every size: exactly which data lengths make the strip ambiguous. */
  lemma CountingAmbiguousIff(data: Bytes, n: nat)
    requires n <= MAX_DATA
    ensures Ambiguous(data, CountingFill(|data|, n)) <==> HeaderClash(|data|, n) || FillClash(|data|, n)
  {
    var f := CountingFill(|data|, n);
    var p := Padded(data, f);
    forall m | 0 <= m < n
      ensures SelfConsistent(p, m) ==> HeaderClash(|data|, n) || FillClash(|data|, n)
    {
      if m + HEADER <= n { StartInFill(data, n, m); } else if m == n - 2 { StartAtLow(data, n); } else { StartAtHigh(data, n); }
    }
    if FillClash(|data|, n) { StartInFill(data, n, 65280); }
    if n == 64510 { StartAtLow(data, n); }
    if n == 65278 { StartAtHigh(data, n); }
  }

  /** In particular every padding shorter than 64510 bytes is stripped exactly. */
  lemma CountingRoundTrip(data: Bytes, n: nat, maxScan: int)
    requires n < 64510 && (maxScan <= 0 || n <= maxScan)
    ensures Strip(Padded(data, CountingFill(|data|, n)), maxScan) == data
  {
    CountingAmbiguousIff(data, n);
    StripAfterPad(data, CountingFill(|data|, n), maxScan);
  }
}
