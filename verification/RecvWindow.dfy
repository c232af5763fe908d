/** The 128-counter out-of-order receive window of one Existing Session key epoch. */
module RecvWindow {
  import opened Common
  import opened Crypto

  const WINDOW := 128

  /** Receive state of one epoch: window bounds, keys derived but not yet consumed, and the ratchet's chain key. */
  datatype Window = Window(base: nat, fill: nat, cache: map<nat, Bytes>, chain: Bytes)

  function Fresh(chainKey: Bytes): (r: Window) { Window(1, 1, map[], chainKey) }

  /** uint32 arithmetic: the sum wraps, and on wrap-around the second sum wraps as well. */
  function WindowEnd(base: nat, fill: nat): (r: nat) {
    var end := (base + WINDOW) % U32;
    if end < base then (fill + WINDOW) % U32 else end
  }

  function DeriveNext(cr: Suite, w: Window): (r: Window) {
    var step := cr.stepKey(w.chain, w.fill);
    w.(fill := w.fill + 1, cache := w.cache[w.fill := step.0], chain := step.1)
  }

  /** The window with keys derived up to `upTo`. */
  function Filled(cr: Suite, w: Window, upTo: nat): (r: Window)
    ensures r.base == w.base && r.fill == Max(w.fill, upTo)
    decreases upTo - w.fill
  {
    if w.fill < upTo then Filled(cr, DeriveNext(cr, w), upTo) else w
  }

  predicate OpensAt(cr: Suite, cache: map<nat, Bytes>, c: nat, tag: Bytes, body: Bytes) {
    c in cache && cr.open(cache[c], c, tag, body).Some?
  }

  /** Least counter of [lo, hi) whose cached key opens the message. */
  function Scan(cr: Suite, cache: map<nat, Bytes>, lo: nat, hi: nat, tag: Bytes, body: Bytes): (r: Option<nat>)
    ensures r.Some? ==> lo <= r.value < hi && OpensAt(cr, cache, r.value, tag, body)
    ensures r.Some? ==> forall c :: lo <= c < r.value ==> !OpensAt(cr, cache, c, tag, body)
    ensures r.None? ==> forall c :: lo <= c < hi ==> !OpensAt(cr, cache, c, tag, body)
    decreases hi - lo
  {
    if hi <= lo then None
    else if OpensAt(cr, cache, lo, tag, body) then Some(lo)
    else Scan(cr, cache, lo + 1, hi, tag, body)
  }

  predicate HintUsable(cr: Suite, w: Window, hint: Option<nat>, end: nat, tag: Bytes, body: Bytes) {
    hint.Some? && w.base <= hint.value < end && OpensAt(cr, w.cache, hint.value, tag, body)
  }

  function Chosen(cr: Suite, w: Window, hint: Option<nat>, end: nat, tag: Bytes, body: Bytes): (r: Option<nat>) {
    if HintUsable(cr, w, hint, end, tag, body) then hint else Scan(cr, w.cache, w.base, end, tag, body)
  }

  /** First counter from `base` on that is still cached, or `fill` when there is none. */
  function Advance(cache: map<nat, Bytes>, base: nat, fill: nat): (r: nat)
    ensures base <= r <= Max(base, fill)
    ensures r < fill ==> r in cache
    ensures forall c :: base <= c < r ==> c !in cache
    decreases fill - base
  {
    if base >= fill || base in cache then base else Advance(cache, base + 1, fill)
  }

  /** Counter consumed by a delivery, if the message opens. */
  function UsedCounter(cr: Suite, w: Window, tag: Bytes, body: Bytes, hint: Option<nat>): (r: Option<nat>) {
    var end := WindowEnd(w.base, w.fill);
    if |body| < 16 then None else Chosen(cr, Filled(cr, w, end), hint, end, tag, body)
  }

  function Consume(w: Window, c: nat): (r: Window) {
    w.(cache := w.cache - {c}, base := Advance(w.cache - {c}, w.base, w.fill))
  }

  /** decryptExistingSession as a function of the window. */
  function Decrypt(cr: Suite, w: Window, tag: Bytes, body: Bytes, hint: Option<nat>): (r: (Window, Option<Bytes>)) {
    if |body| < 16 then (w, None)
    else
      var filled := Filled(cr, w, WindowEnd(w.base, w.fill));
      match UsedCounter(cr, w, tag, body, hint)
      case None => (filled, None)
      case Some(c) => (Consume(filled, c), cr.open(filled.cache[c], c, tag, body))
  }

  function Trim(w: Window, pn: nat): (r: Window) {
    w.(cache := map c | c in w.cache && !(pn < c < w.base) :: w.cache[c])
  }

  /** Trimming keeps exactly the keys up to pn and those from the base on. */
  lemma TrimKeeps(w: Window, pn: nat, c: nat)
    ensures c in Trim(w, pn).cache <==> c in w.cache && (c <= pn || c >= w.base)
    ensures c in Trim(w, pn).cache ==> Trim(w, pn).cache[c] == w.cache[c]
  {}

  /** A message too short for an authentication tag is dropped before anything is derived. */
  lemma ShortIsIgnored(cr: Suite, w: Window, tag: Bytes, body: Bytes, hint: Option<nat>)
    requires |body| < 16
    ensures Decrypt(cr, w, tag, body, hint) == (w, None)
  {}

  /** Message count reported in a queued Ack. */
  function AckedCount(base: nat): (r: nat) {
    if base > 1 then Min(base - 1, MAX_MESSAGE) else 0
  }

  // ----- the invariant of an epoch -------------------------------------------------------------

  /** The cache is exactly the unused counters of [base, fill); `used` holds the counters accepted so far. */
  ghost predicate Exact(w: Window, used: set<nat>) {
    && 1 <= w.base <= w.fill < U32
    && w.fill <= w.base + WINDOW
    && (forall c <- used :: 1 <= c < w.fill)
    && (forall c :: 1 <= c < w.base ==> c in used)
    && w.base !in used
    && (forall c :: c in w.cache <==> w.base <= c < w.fill && c !in used)
  }

  /** Every cached key is its counter's key on the chain from `seed`, and the ratchet stands at `fill`. */
  ghost predicate Keyed(cr: Suite, seed: Bytes, w: Window) {
    && w.fill >= 1
    && w.chain == KeyChainAt(cr, seed, w.fill)
    && forall c <- w.cache :: w.cache[c] == KeyAt(cr, seed, c)
  }

  /** Window arithmetic in every case, the wrapping one included. */
  lemma WindowEndBounds(base: nat, fill: nat)
    requires base <= fill < U32 && fill <= base + WINDOW
    ensures base + 128 < U32 ==> WindowEnd(base, fill) == base + 128
    ensures base + 128 >= U32 ==> WindowEnd(base, fill) < base
    ensures WindowEnd(base, fill) <= fill + 128
  {
    if base + WINDOW >= U32 {
      assert (base + WINDOW) % U32 == base + WINDOW - U32;
      assert (fill + WINDOW) % U32 == fill + WINDOW - U32;
    }
  }

  lemma {:induction false} FilledCache(cr: Suite, w: Window, upTo: nat)
    ensures forall c :: c in Filled(cr, w, upTo).cache <==> c in w.cache || w.fill <= c < upTo
    decreases upTo - w.fill
  {
    if w.fill < upTo { FilledCache(cr, DeriveNext(cr, w), upTo); }
  }

  lemma {:induction false} FilledKeyed(cr: Suite, seed: Bytes, w: Window, upTo: nat)
    requires Keyed(cr, seed, w)
    ensures Keyed(cr, seed, Filled(cr, w, upTo))
    decreases upTo - w.fill
  {
    if w.fill < upTo { FilledKeyed(cr, seed, DeriveNext(cr, w), upTo); }
  }

  lemma FillKeepsExact(cr: Suite, w: Window, used: set<nat>)
    requires Exact(w, used)
    ensures Exact(Filled(cr, w, WindowEnd(w.base, w.fill)), used)
  {
    WindowEndBounds(w.base, w.fill);
    FilledCache(cr, w, WindowEnd(w.base, w.fill));
  }

  lemma ConsumeKeepsExact(w: Window, used: set<nat>, c: nat)
    requires Exact(w, used) && c in w.cache
    ensures Exact(Consume(w, c), used + {c})
  {
    var base := Advance(w.cache - {c}, w.base, w.fill);
    forall d | w.base <= d < base
      ensures d in used + {c}
    {
      assert d !in w.cache - {c};
    }
  }

  /** One delivery: at most one counter is consumed, and it was unused and inside the 128-counter window. */
  lemma DecryptKeepsExact(cr: Suite, w: Window, used: set<nat>, tag: Bytes, body: Bytes, hint: Option<nat>)
    requires Exact(w, used)
    ensures match UsedCounter(cr, w, tag, body, hint)
            case None => Decrypt(cr, w, tag, body, hint).1.None? && Exact(Decrypt(cr, w, tag, body, hint).0, used)
            case Some(c) =>
              && c !in used
              && w.base <= c < w.base + WINDOW
              && Decrypt(cr, w, tag, body, hint).1.Some?
              && Exact(Decrypt(cr, w, tag, body, hint).0, used + {c})
  {
    WindowEndBounds(w.base, w.fill);
    FillKeepsExact(cr, w, used);
    match UsedCounter(cr, w, tag, body, hint)
    case None =>
    case Some(c) => ConsumeKeepsExact(Filled(cr, w, WindowEnd(w.base, w.fill)), used, c);
  }

  /** The key that opens a delivery is the consumed counter's own key. */
  lemma DecryptKeepsKeyed(cr: Suite, seed: Bytes, w: Window, tag: Bytes, body: Bytes, hint: Option<nat>)
    requires Keyed(cr, seed, w)
    ensures Keyed(cr, seed, Decrypt(cr, w, tag, body, hint).0)
    ensures match UsedCounter(cr, w, tag, body, hint)
            case None => true
            case Some(c) => Decrypt(cr, w, tag, body, hint).1 == cr.open(KeyAt(cr, seed, c), c, tag, body)
  {
    FilledKeyed(cr, seed, w, WindowEnd(w.base, w.fill));
  }

  // ----- runs of one epoch ---------------------------------------------------------------------

  datatype Event = Deliver(tag: Bytes, body: Bytes, hint: Option<nat>) | PreviousCount(pn: nat)

  function After(cr: Suite, w: Window, e: Event): (r: Window) {
    match e
    case Deliver(tag, body, hint) => Decrypt(cr, w, tag, body, hint).0
    case PreviousCount(pn) => Trim(w, pn)
  }

  function AcceptedBy(cr: Suite, w: Window, e: Event): (r: seq<nat>) {
    match e
    case Deliver(tag, body, hint) =>
      (match UsedCounter(cr, w, tag, body, hint) case None => [] case Some(c) => [c])
    case PreviousCount(_) => []
  }

  function Run(cr: Suite, w: Window, es: seq<Event>): (r: Window) {
    if es == [] then w else After(cr, Run(cr, w, es[..|es| - 1]), es[|es| - 1])
  }

  /** Counters accepted over a run, in order. */
  function Accepted(cr: Suite, w: Window, es: seq<Event>): (r: seq<nat>) {
    if es == [] then []
    else Accepted(cr, w, es[..|es| - 1]) + AcceptedBy(cr, Run(cr, w, es[..|es| - 1]), es[|es| - 1])
  }

  /** A trim on a reachable state removes nothing: no key below the base is ever cached. */
  lemma TrimIsHarmless(w: Window, used: set<nat>, pn: nat)
    requires Exact(w, used)
    ensures Trim(w, pn) == w
  {
    assert Trim(w, pn).cache == w.cache;
  }

  /**
    Over every run of an epoch: no counter is accepted twice, the cache holds exactly the unused counters
    of [base, fill), and the base is the least unused counter.
  */
  lemma {:induction false} WindowIsExact(cr: Suite, seed: Bytes, es: seq<Event>)
    ensures Exact(Run(cr, Fresh(seed), es), Elements(Accepted(cr, Fresh(seed), es)))
    ensures NoDup(Accepted(cr, Fresh(seed), es))
  {
    if es != [] {
      var before := es[..|es| - 1];
      var w, acc := Run(cr, Fresh(seed), before), Accepted(cr, Fresh(seed), before);
      WindowIsExact(cr, seed, before);
      match es[|es| - 1]
      case Deliver(tag, body, hint) =>
        DecryptKeepsExact(cr, w, Elements(acc), tag, body, hint);
        match UsedCounter(cr, w, tag, body, hint) {
          case None => assert acc + [] == acc;
          case Some(c) => assert Elements(acc + [c]) == Elements(acc) + {c};
        }
      case PreviousCount(pn) =>
        TrimIsHarmless(w, Elements(acc), pn);
        assert acc + [] == acc;
    }
  }

  /** Over every run, each cached key is the key the sender uses for the same counter. */
  lemma {:induction false} WindowIsKeyed(cr: Suite, seed: Bytes, es: seq<Event>)
    ensures Keyed(cr, seed, Run(cr, Fresh(seed), es))
  {
    if es != [] {
      var before := es[..|es| - 1];
      WindowIsKeyed(cr, seed, before);
      match es[|es| - 1]
      case Deliver(tag, body, hint) => DecryptKeepsKeyed(cr, seed, Run(cr, Fresh(seed), before), tag, body, hint);
      case PreviousCount(_) =>
    }
  }

  lemma {:induction false} SetInRange(s: set<nat>, lo: nat, n: nat)
    requires forall c <- s :: lo <= c < lo + n
    ensures |s| <= n
  {
    if n > 0 {
      SetInRange(s - {lo + n - 1}, lo, n - 1);
    } else {
      assert s == {};
    }
  }

  /** Memory and work bounds of every reachable state: 128 cached keys, 128 derivations per call. */
  lemma WindowIsBounded(cr: Suite, seed: Bytes, es: seq<Event>)
    ensures var w := Run(cr, Fresh(seed), es);
            && |w.cache.Keys| <= 128
            && Filled(cr, w, WindowEnd(w.base, w.fill)).fill - w.fill <= 128
  {
    WindowIsExact(cr, seed, es);
    var w := Run(cr, Fresh(seed), es);
    WindowEndBounds(w.base, w.fill);
    SetInRange(w.cache.Keys, w.base, WINDOW);
  }

  /** A queued Ack reports the length of the fully accepted prefix, capped at 65535. */
  lemma AckReportsConsumedPrefix(cr: Suite, seed: Bytes, es: seq<Event>)
    ensures var w, acc := Run(cr, Fresh(seed), es), Accepted(cr, Fresh(seed), es);
            && (forall c :: 1 <= c <= AckedCount(w.base) ==> c in acc)
            && (AckedCount(w.base) < MAX_MESSAGE ==> AckedCount(w.base) + 1 !in acc)
  {
    WindowIsExact(cr, seed, es);
    hide Run, Accepted;
    var w, acc := Run(cr, Fresh(seed), es), Accepted(cr, Fresh(seed), es);
    forall c | 1 <= c <= AckedCount(w.base)
      ensures c in acc
    {
      assert c in Elements(acc);
    }
    if AckedCount(w.base) < MAX_MESSAGE {
      assert AckedCount(w.base) + 1 == w.base;
      assert w.base !in Elements(acc);
    }
  }

  /** Once the base comes within 128 of 2^32 the wrapped end excludes every counter: nothing opens any more. */
  lemma WrappedWindowRejects(cr: Suite, w: Window, used: set<nat>, tag: Bytes, body: Bytes, hint: Option<nat>)
    requires Exact(w, used)
    ensures w.base + WINDOW >= U32 ==> Decrypt(cr, w, tag, body, hint) == (w, None)
  {
    WindowEndBounds(w.base, w.fill);
  }

  /** An unused counter within 128 of the base is accepted on its hint whenever its own key opens the message. */
  lemma InWindowOpens(cr: Suite, seed: Bytes, w: Window, used: set<nat>, tag: Bytes, body: Bytes, c: nat)
    requires Exact(w, used) && Keyed(cr, seed, w)
    requires 1 <= c < w.base + WINDOW < U32 && c !in used && |body| >= 16
    requires cr.open(KeyAt(cr, seed, c), c, tag, body).Some?
    ensures UsedCounter(cr, w, tag, body, Some(c)) == Some(c)
    ensures Decrypt(cr, w, tag, body, Some(c)).1 == cr.open(KeyAt(cr, seed, c), c, tag, body)
  {
    hide Keyed, KeyAt, Filled;
    KeyIsCached(cr, seed, w, used, c);
  }

  /** Filled to its end, the window holds the keys of all its unused counters. */
  lemma KeyIsCached(cr: Suite, seed: Bytes, w: Window, used: set<nat>, c: nat)
    requires Exact(w, used) && Keyed(cr, seed, w) && 1 <= c < w.base + WINDOW < U32 && c !in used
    ensures WindowEnd(w.base, w.fill) == w.base + WINDOW && w.base <= c
    ensures var filled := Filled(cr, w, w.base + WINDOW); c in filled.cache && filled.cache[c] == KeyAt(cr, seed, c)
  {
    hide KeyAt, KeyChainAt;
    WindowEndBounds(w.base, w.fill);
    FillKeepsExact(cr, w, used);
    FilledKeyed(cr, seed, w, w.base + WINDOW);
  }

  /** The first n messages of a chain, delivered in order. */
  ghost function InOrder(cr: Suite, seed: Bytes, n: nat): (es: seq<Event>)
    ensures |es| == n
  {
    seq(n, i requires 0 <= i < n => Deliver([], cr.seal(KeyAt(cr, seed, i + 1), i + 1, [], []), Some(i + 1)))
  }

  function Counters(n: nat): (cs: seq<nat>) { seq(n, i => i + 1) }

  ghost function NthMessage(cr: Suite, seed: Bytes, n: nat): (body: Bytes) { cr.seal(KeyAt(cr, seed, n), n, [], []) }

  lemma InOrderSnoc(cr: Suite, seed: Bytes, n: nat)
    requires n > 0
    ensures InOrder(cr, seed, n)[..n - 1] == InOrder(cr, seed, n - 1)
    ensures InOrder(cr, seed, n)[n - 1] == Deliver([], NthMessage(cr, seed, n), Some(n))
    ensures Counters(n) == Counters(n - 1) + [n]
  {}

  /** In order, every message is accepted, and the base follows: up to the wrap-around any base is reached. */
  lemma {:induction false} InOrderAdvances(cr: Suite, seed: Bytes, n: nat)
    requires Lawful(cr) && n + WINDOW < U32
    ensures Accepted(cr, Fresh(seed), InOrder(cr, seed, n)) == Counters(n)
    ensures Run(cr, Fresh(seed), InOrder(cr, seed, n)).base == n + 1
  {
    if n > 0 {
      hide InOrder, Counters, NthMessage, Exact, Keyed, Decrypt, UsedCounter, Run, Accepted;
      InOrderSnoc(cr, seed, n);
      var before := InOrder(cr, seed, n - 1);
      InOrderAdvances(cr, seed, n - 1);
      WindowIsExact(cr, seed, before);
      WindowIsKeyed(cr, seed, before);
      NextInOrder(cr, seed, Run(cr, Fresh(seed), before), n);
      LastDelivery(cr, Fresh(seed), InOrder(cr, seed, n), NthMessage(cr, seed, n), n);
    }
  }

  lemma LastDelivery(cr: Suite, w: Window, es: seq<Event>, body: Bytes, c: nat)
    requires es != [] && es[|es| - 1] == Deliver([], body, Some(c))
    requires UsedCounter(cr, Run(cr, w, es[..|es| - 1]), [], body, Some(c)) == Some(c)
    ensures Run(cr, w, es) == Decrypt(cr, Run(cr, w, es[..|es| - 1]), [], body, Some(c)).0
    ensures Accepted(cr, w, es) == Accepted(cr, w, es[..|es| - 1]) + [c]
  {
    hide UsedCounter, Decrypt;
  }

  /** All counters up to n are used, and no other: the base is the next one. */
  lemma BaseIsNext(w: Window, used: set<nat>, n: nat)
    requires Exact(w, used) && forall c: nat :: c in used <==> 1 <= c <= n
    ensures w.base == n + 1
  {
    assert w.base !in used && n + 1 !in used;
  }

  lemma NextInOrder(cr: Suite, seed: Bytes, w: Window, n: nat)
    requires Lawful(cr) && w.base == n >= 1 && n + WINDOW < U32
    requires Exact(w, Elements(Counters(n - 1))) && Keyed(cr, seed, w)
    ensures UsedCounter(cr, w, [], NthMessage(cr, seed, n), Some(n)) == Some(n)
    ensures Decrypt(cr, w, [], NthMessage(cr, seed, n), Some(n)).0.base == n + 1
  {
    hide UsedCounter, Decrypt;
    var body, used := NthMessage(cr, seed, n), Elements(Counters(n - 1));
    assert forall c: nat :: c in used <==> 1 <= c <= n - 1 by {
      forall c: nat | 1 <= c <= n - 1 ensures c in used { assert Counters(n - 1)[c - 1] == c; }
    }
    InWindowOpens(cr, seed, w, used, [], body, n);
    DecryptKeepsExact(cr, w, used, [], body, Some(n));
    BaseIsNext(Decrypt(cr, w, [], body, Some(n)).0, used + {n}, n);
  }

  /** A peer that keeps sending gets there: after 2^32 - 129 messages in order the window rejects everything. */
  lemma WrapIsReached(cr: Suite, seed: Bytes, n: nat, tag: Bytes, body: Bytes, hint: Option<nat>)
    requires Lawful(cr) && n == U32 - WINDOW - 1
    ensures var w := Run(cr, Fresh(seed), InOrder(cr, seed, n)); Decrypt(cr, w, tag, body, hint) == (w, None)
  {
    hide Decrypt;
    InOrderAdvances(cr, seed, n);
    WindowIsExact(cr, seed, InOrder(cr, seed, n));
    WrappedWindowRejects(cr, Run(cr, Fresh(seed), InOrder(cr, seed, n)), Elements(Counters(n)), tag, body, hint);
  }

  /** The counter hint is only a shortcut: right, wrong or absent, it never changes the outcome. */
  lemma HintDoesNotMatter(cr: Suite, w: Window, tag: Bytes, body: Bytes, hint: Option<nat>, other: Option<nat>)
    requires forall c, d ::
               OpensAt(cr, Filled(cr, w, WindowEnd(w.base, w.fill)).cache, c, tag, body) ==>
               OpensAt(cr, Filled(cr, w, WindowEnd(w.base, w.fill)).cache, d, tag, body) ==> c == d
    ensures Decrypt(cr, w, tag, body, hint) == Decrypt(cr, w, tag, body, other)
  {
    var end := WindowEnd(w.base, w.fill);
    var filled := Filled(cr, w, end);
    forall h: Option<nat>
      ensures Chosen(cr, filled, h, end, tag, body) == Scan(cr, filled.cache, w.base, end, tag, body)
    {
      if HintUsable(cr, filled, h, end, tag, body) {
        assert OpensAt(cr, filled.cache, h.value, tag, body);
      }
    }
  }

  // ----- the session object --------------------------------------------------------------------

  class RecvSession {
    var recvWindowBase: nat
    var recvFillMark: nat
    var recvKeyCache: map<nat, Bytes>
    var recvChain: Bytes

    function View(): (r: Window)
      reads this
    {
      Window(recvWindowBase, recvFillMark, recvKeyCache, recvChain)
    }

    ghost predicate Valid()
      reads this
    {
      1 <= recvWindowBase <= recvFillMark < U32 && recvFillMark <= recvWindowBase + WINDOW
    }

    constructor (chainKey: Bytes)
      ensures Valid() && View() == Fresh(chainKey)
    {
      recvWindowBase, recvFillMark, recvKeyCache, recvChain := 1, 1, map[], chainKey;
    }

    method ResetRecvWindow(chainKey: Bytes)
      modifies this
      ensures Valid() && View() == Fresh(chainKey)
    {
      recvWindowBase, recvFillMark, recvKeyCache, recvChain := 1, 1, map[], chainKey;
    }

    method FillRecvKeyCache(cr: Suite, upTo: nat)
      modifies this
      ensures View() == old(Filled(cr, View(), upTo))
    {
      while recvFillMark < upTo
        invariant Filled(cr, View(), upTo) == old(Filled(cr, View(), upTo))
        decreases upTo - recvFillMark
      {
        var step := cr.stepKey(recvChain, recvFillMark);
        recvKeyCache := recvKeyCache[recvFillMark := step.0];
        recvChain := step.1;
        recvFillMark := recvFillMark + 1;
      }
    }

    method TryCounterHintDecrypt(cr: Suite, hint: Option<nat>, tag: Bytes, body: Bytes, end: nat)
      returns (plaintext: Option<Bytes>)
      ensures plaintext.Some? <==> HintUsable(cr, View(), hint, end, tag, body)
      ensures plaintext.Some? ==> plaintext == cr.open(recvKeyCache[hint.value], hint.value, tag, body)
    {
      if hint.None? { return None; }
      var c := hint.value;
      if c < recvWindowBase || c >= end { return None; }
      if c !in recvKeyCache { return None; }
      return cr.open(recvKeyCache[c], c, tag, body);
    }

    method ScanWindowDecrypt(cr: Suite, tag: Bytes, body: Bytes, end: nat)
      returns (used: nat, plaintext: Option<Bytes>)
      ensures match Scan(cr, recvKeyCache, recvWindowBase, end, tag, body)
              case None => plaintext.None?
              case Some(c) => used == c && plaintext == cr.open(recvKeyCache[c], c, tag, body)
    {
      used := recvWindowBase;
      while used < end
        invariant used <= end || used == recvWindowBase
        invariant Scan(cr, recvKeyCache, recvWindowBase, end, tag, body) == Scan(cr, recvKeyCache, used, end, tag, body)
        decreases end - used
      {
        if used in recvKeyCache {
          plaintext := cr.open(recvKeyCache[used], used, tag, body);
          if plaintext.Some? { return; }
        }
        used := used + 1;
      }
      plaintext := None;
    }

    /** The hinted key if it opens the message, else the first key of the window that does. */
    method FindKey(cr: Suite, hint: Option<nat>, tag: Bytes, body: Bytes, end: nat)
      returns (used: nat, plaintext: Option<Bytes>)
      ensures match Chosen(cr, View(), hint, end, tag, body)
              case None => plaintext.None?
              case Some(c) => used == c && plaintext == cr.open(recvKeyCache[c], c, tag, body)
    {
      plaintext := TryCounterHintDecrypt(cr, hint, tag, body, end);
      if plaintext.Some? {
        used := hint.value;
      } else {
        used, plaintext := ScanWindowDecrypt(cr, tag, body, end);
      }
    }

    method ConsumeKey(used: nat)
      requires Valid()
      modifies this
      ensures Valid() && View() == old(Consume(View(), used))
    {
      recvKeyCache := recvKeyCache - {used};
      while recvWindowBase < recvFillMark && recvWindowBase !in recvKeyCache
        invariant Valid()
        invariant recvFillMark == old(recvFillMark) && recvChain == old(recvChain)
        invariant recvKeyCache == old(recvKeyCache) - {used}
        invariant old(recvWindowBase) <= recvWindowBase
        invariant Advance(recvKeyCache, old(recvWindowBase), recvFillMark)
               == Advance(recvKeyCache, recvWindowBase, recvFillMark)
        decreases recvFillMark - recvWindowBase
      {
        recvWindowBase := recvWindowBase + 1;
      }
    }

    /** Window step of an Existing Session message: exactly the function `Decrypt`. */
    method DecryptExistingSession(cr: Suite, body: Bytes, tag: Bytes, hint: Option<nat>) returns (plaintext: Option<Bytes>)
      requires Valid()
      modifies this
      ensures Valid()
      ensures (View(), plaintext) == old(Decrypt(cr, View(), tag, body, hint))
    {
      if |body| < 16 { return None; }
      ghost var w := View();
      WindowEndBounds(recvWindowBase, recvFillMark);
      var windowEnd := (recvWindowBase + WINDOW) % U32;
      if windowEnd < recvWindowBase {
        windowEnd := (recvFillMark + WINDOW) % U32;
      }
      FillRecvKeyCache(cr, windowEnd);
      assert View() == Filled(cr, w, WindowEnd(w.base, w.fill));
      var used;
      used, plaintext := FindKey(cr, hint, tag, body, windowEnd);
      assert UsedCounter(cr, w, tag, body, hint) == Chosen(cr, View(), hint, windowEnd, tag, body);
      if plaintext.Some? {
        ConsumeKey(used);
      }
    }

    /** Deletes, one by one and in any order, the cached keys strictly between pn and the base. */
    method TrimRecvWindowByPN(pn: nat)
      requires Valid()
      modifies this
      ensures Valid() && View() == old(Trim(View(), pn))
    {
      ghost var cache := recvKeyCache;
      var todo := recvKeyCache.Keys;
      while todo != {}
        invariant todo <= cache.Keys
        invariant Valid() && View() == old(View()).(cache := recvKeyCache)
        invariant recvKeyCache == map c | c in cache && (c in todo || !(pn < c < recvWindowBase)) :: cache[c]
        decreases todo
      {
        var c :| c in todo;
        todo := todo - {c};
        if pn < c < recvWindowBase {
          recvKeyCache := recvKeyCache - {c};
        }
      }
    }

    method ProcessAckRequest() returns (highestConsumed: nat)
      requires Valid()
      ensures highestConsumed == AckedCount(recvWindowBase) < U16
    {
      highestConsumed := 0;
      if recvWindowBase > 1 {
        highestConsumed := recvWindowBase - 1;
        if highestConsumed > MAX_MESSAGE { highestConsumed := MAX_MESSAGE; }
      }
    }
  }
}
