/**
  The upstream session of one market (gateway/orderbook/src/market.rs): subscribe, fetch a snapshot,
  replay the queued deltas, and start over after any error.
*/
module BookSession {
  import opened Base
  import opened Ordered
  import opened OrderBook

  datatype Snapshot = Snapshot(bids: seq<Level>, asks: seq<Level>, ts: nat)

  /** One upstream message after parsing; Failed stands for a close, a read error or an error reply. */
  datatype Inbound = Delta(delta: BookDelta) | Ignored | Failed

  /** One turn of the worker loop; the snapshot is missing when connecting or fetching it failed. */
  datatype Session = Session(snapshot: Option<Snapshot>, inbound: seq<Inbound>)

  datatype End = Exhausted | Failure | GapFound(currentTs: nat, eventLastMaxTs: nat)

  function Handle(book: Book, message: Inbound): (Book, End) {
    match message
    case Failed => (book, Failure)
    case Ignored => (book, Exhausted)
    case Delta(d) =>
      match Outcome(book, d)
      case Gap(current, last) => (book, GapFound(current, last))
      case _ => (AfterDelta(book, d), Exhausted)
  }

  /** The book after the messages up to the first error, and that error. */
  function Drain(book: Book, inbound: seq<Inbound>): (Book, End) {
    if inbound == [] then (book, Exhausted)
    else
      var (b, end) := Drain(book, inbound[..|inbound| - 1]);
      if end != Exhausted then (b, end) else Handle(b, inbound[|inbound| - 1])
  }

  function RunSession(book: Book, s: Session): (Book, End) {
    match s.snapshot
    case None => (book, Failure)
    case Some(snap) => Drain(FromSnapshot(snap.bids, snap.asks, snap.ts), s.inbound)
  }

  function RunAll(sessions: seq<Session>): Book {
    if sessions == [] then EMPTY
    else RunSession(RunAll(sessions[..|sessions| - 1]), sessions[|sessions| - 1]).0
  }

  lemma {:induction false} DrainStops(book: Book, inbound: seq<Inbound>, n: nat)
    requires n <= |inbound| && Drain(book, inbound[..n]).1 != Exhausted
    ensures Drain(book, inbound) == Drain(book, inbound[..n])
    decreases |inbound|
  {
    if n < |inbound| {
      var init := inbound[..|inbound| - 1];
      assert init[..n] == inbound[..n];
      DrainStops(book, init, n);
    } else {
      assert inbound[..n] == inbound;
    }
  }

  method HandleMessage(state: OrderBookState, message: Inbound) returns (end: End)
    modifies state
    ensures (state.View(), end) == Handle(old(state.View()), message)
  {
    match message
    case Failed => end := Failure;
    case Ignored => end := Exhausted;
    case Delta(d) =>
      var outcome := state.ApplyDelta(d);
      match outcome {
        case Gap(current, last) => end := GapFound(current, last);
        case _ => end := Exhausted;
      }
  }

  method RunUpstreamSession(state: OrderBookState, s: Session) returns (end: End)
    modifies state
    ensures (state.View(), end) == RunSession(old(state.View()), s)
  {
    if s.snapshot.None? {
      return Failure;
    }
    var snap := s.snapshot.value;
    state.ResetFromSnapshot(snap.bids, snap.asks, snap.ts);
    ghost var start := state.View();
    for i := 0 to |s.inbound|
      invariant (state.View(), Exhausted) == Drain(start, s.inbound[..i])
    {
      end := HandleMessage(state, s.inbound[i]);
      assert s.inbound[..i + 1][..i] == s.inbound[..i];
      if end != Exhausted {
        DrainStops(start, s.inbound, i + 1);
        return;
      }
    }
    assert s.inbound[..|s.inbound|] == s.inbound;
    end := Exhausted;
  }

  // ---- the upstream book as a function of time ----

  datatype Quotes = Quotes(bids: Side, asks: Side)

  /** What part of a side a snapshot speaks for. */
  datatype Coverage = Nothing | UpTo(worst: int) | Everything

  predicate Covered(asks: bool, c: Coverage, p: int) {
    match c
    case Nothing => false
    case UpTo(worst) => !Better(asks, worst, p)
    case Everything => true
  }

  /** Exact where covered, and never wrong about a level it holds. */
  ghost predicate SideAgrees(asks: bool, m: Side, u: Side, c: Coverage) {
    && (forall p :: Covered(asks, c, p) ==> SizeAt(m, p) == SizeAt(u, p))
    && (forall p :: p in m ==> p in u && m[p] == u[p])
  }

  ghost predicate Steady(u: nat -> Side, p: int, lo: nat, hi: nat) {
    forall t: nat :: lo <= t <= hi ==> SizeAt(u(t), p) == SizeAt(u(lo), p)
  }

  /** A side of a delta gives the size at `hi` of every price that changed since `lo`. */
  ghost predicate HonestLevels(levels: seq<Level>, u: nat -> Side, lo: nat, hi: nat) {
    forall p :: match LastSize(levels, p)
                case Some(s) => s == SizeAt(u(hi), p)
                case None => Steady(u, p, lo, hi)
  }

  ghost predicate Offered(levels: seq<Level>, p: int) {
    exists l :: l in levels && l.price == p
  }

  /** A side of a snapshot is the best `depth` levels, each given once. */
  ghost predicate HonestTop(asks: bool, levels: seq<Level>, u: Side, depth: nat) {
    && |levels| == Min(depth, |u|)
    && Distinct(levels)
    && (forall l :: l in levels ==> l.price in u && u[l.price] == l.size)
    && (forall p, l :: p in u && !Offered(levels, p) && l in levels ==> Better(asks, l.price, p))
  }

  function Worst(asks: bool, levels: seq<Level>): (w: int)
    requires levels != []
    ensures exists l :: l in levels && l.price == w
  {
    var last := levels[|levels| - 1];
    assert last in levels;
    if |levels| == 1 then last.price
    else
      var w := Worst(asks, levels[..|levels| - 1]);
      if Better(asks, w, last.price) then last.price else w
  }

  function CoverageOf(asks: bool, levels: seq<Level>, depth: nat): Coverage {
    if |levels| < depth then Everything
    else if levels == [] then Nothing
    else UpTo(Worst(asks, levels))
  }

  lemma {:induction false} PricesOf(levels: seq<Level>) returns (prices: set<int>)
    requires Distinct(levels)
    ensures |prices| == |levels|
    ensures forall p :: p in prices <==> Offered(levels, p)
  {
    if levels == [] {
      prices := {};
    } else {
      var (init, l) := (levels[..|levels| - 1], levels[|levels| - 1]);
      var rest := PricesOf(init);
      prices := rest + {l.price};
      assert levels == init + [l];
      assert !Offered(init, l.price);
    }
  }

  lemma SubsetOfSameSize(a: set<int>, b: set<int>)
    requires a <= b && |a| == |b|
    ensures a == b
  {
    assert b == a + (b - a);
  }

  /** An honest snapshot lists every covered price of the book. */
  lemma CoveredIsOffered(asks: bool, levels: seq<Level>, u: Side, depth: nat, p: int)
    requires HonestTop(asks, levels, u, depth) && p in u && Covered(asks, CoverageOf(asks, levels, depth), p)
    ensures Offered(levels, p)
  {
    if |levels| < depth {
      var prices := PricesOf(levels);
      assert |u.Keys| == |u|;
      forall q | q in prices ensures q in u.Keys {
        assert Offered(levels, q);
      }
      SubsetOfSameSize(prices, u.Keys);
    }
  }

  lemma SnapshotSideAgrees(asks: bool, levels: seq<Level>, u: Side, depth: nat)
    requires HonestTop(asks, levels, u, depth) && AllPositive(u)
    ensures SideAgrees(asks, LoadSide(map[], levels), u, CoverageOf(asks, levels, depth))
  {
    var m := LoadSide(map[], levels);
    var c := CoverageOf(asks, levels, depth);
    forall p ensures p in m ==> p in u && m[p] == u[p] {
      LoadDistinct(levels, p);
    }
    forall p | Covered(asks, c, p) ensures SizeAt(m, p) == SizeAt(u, p) {
      LoadDistinct(levels, p);
      if p in u {
        CoveredIsOffered(asks, levels, u, depth, p);
      }
    }
  }

  /** Applying an honest delta whose interval contains the replica's timestamp moves the agreement to `hi`. */
  lemma DeltaSideAgrees(asks: bool, m: Side, levels: seq<Level>, u: nat -> Side, lo: nat, at: nat, hi: nat, c: Coverage)
    requires lo <= at <= hi && HonestLevels(levels, u, lo, hi) && AllPositive(u(hi))
    requires AllPositive(m) && AllPositive(u(at)) && SideAgrees(asks, m, u(at), c)
    ensures SideAgrees(asks, ApplySide(m, levels), u(hi), c)
  {
    var m' := ApplySide(m, levels);
    forall p
      ensures p in m' ==> p in u(hi) && m'[p] == u(hi)[p]
      ensures Covered(asks, c, p) ==> SizeAt(m', p) == SizeAt(u(hi), p)
    {
      ApplySideMeaning(m, levels, p);
      if LastSize(levels, p).None? {
        assert Steady(u, p, lo, hi);
        assert SizeAt(u(at), p) == SizeAt(u(lo), p) == SizeAt(u(hi), p);
      }
    }
  }

  // ---- whole runs ----

  function BidsOf(u: nat -> Quotes): nat -> Side {
    (t: nat) => u(t).bids
  }

  function AsksOf(u: nat -> Quotes): nat -> Side {
    (t: nat) => u(t).asks
  }

  ghost predicate HonestDelta(d: BookDelta, u: nat -> Quotes) {
    HonestLevels(d.bids, BidsOf(u), d.lastMaxTs, d.maxTs) && HonestLevels(d.asks, AsksOf(u), d.lastMaxTs, d.maxTs)
  }

  ghost predicate HonestSnapshot(s: Snapshot, u: nat -> Quotes, depth: nat) {
    HonestTop(false, s.bids, u(s.ts).bids, depth) && HonestTop(true, s.asks, u(s.ts).asks, depth)
  }

  ghost predicate HonestMessages(inbound: seq<Inbound>, u: nat -> Quotes) {
    forall i :: 0 <= i < |inbound| && inbound[i].Delta? ==> HonestDelta(inbound[i].delta, u)
  }

  ghost predicate HonestSession(s: Session, u: nat -> Quotes, depth: nat) {
    (s.snapshot.Some? ==> HonestSnapshot(s.snapshot.value, u, depth)) && HonestMessages(s.inbound, u)
  }

  ghost predicate PositiveUpstream(u: nat -> Quotes) {
    forall t: nat :: AllPositive(u(t).bids) && AllPositive(u(t).asks)
  }

  datatype Coverages = Coverages(bids: Coverage, asks: Coverage)

  /** The coverage of the last snapshot that was loaded. */
  function LastCoverage(sessions: seq<Session>, depth: nat): Coverages {
    if sessions == [] then Coverages(Nothing, Nothing)
    else
      match sessions[|sessions| - 1].snapshot
      case None => LastCoverage(sessions[..|sessions| - 1], depth)
      case Some(s) => Coverages(CoverageOf(false, s.bids, depth), CoverageOf(true, s.asks, depth))
  }

  /** The replica agrees with the upstream book at its own timestamp. */
  ghost predicate Agrees(book: Book, u: nat -> Quotes, c: Coverages) {
    && Positive(book)
    && SideAgrees(false, book.bids, u(book.lastTs).bids, c.bids)
    && SideAgrees(true, book.asks, u(book.lastTs).asks, c.asks)
  }

  lemma DeltaAgrees(b: Book, d: BookDelta, u: nat -> Quotes, c: Coverages)
    requires Agrees(b, u, c) && HonestDelta(d, u) && PositiveUpstream(u)
    ensures Agrees(AfterDelta(b, d), u, c)
  {
    if Outcome(b, d) == Applied {
      DeltaSideAgrees(false, b.bids, d.bids, BidsOf(u), d.lastMaxTs, b.lastTs, d.maxTs, c.bids);
      DeltaSideAgrees(true, b.asks, d.asks, AsksOf(u), d.lastMaxTs, b.lastTs, d.maxTs, c.asks);
      ApplySidePositive(b.bids, d.bids);
      ApplySidePositive(b.asks, d.asks);
    }
  }

  lemma {:induction false} DrainAgrees(book: Book, inbound: seq<Inbound>, u: nat -> Quotes, c: Coverages)
    requires Agrees(book, u, c) && HonestMessages(inbound, u) && PositiveUpstream(u)
    ensures Agrees(Drain(book, inbound).0, u, c)
  {
    hide Agrees, HonestDelta;
    if inbound == [] {
    } else {
      var init := inbound[..|inbound| - 1];
      DrainAgrees(book, init, u, c);
      var message := inbound[|inbound| - 1];
      if message.Delta? {
        DeltaAgrees(Drain(book, init).0, message.delta, u, c);
      }
    }
  }

  /**
    After any run of sessions, each ending in any error at any point, the replica equals the upstream
    book at its own timestamp wherever the last snapshot reached, and holds no wrong level elsewhere.
    Every reachable state is the end of such a run, because messages may stop anywhere.
  */
  lemma {:induction false} ReplicaAgrees(sessions: seq<Session>, u: nat -> Quotes, depth: nat)
    requires PositiveUpstream(u)
    requires forall i :: 0 <= i < |sessions| ==> HonestSession(sessions[i], u, depth)
    ensures Agrees(RunAll(sessions), u, LastCoverage(sessions, depth))
  {
    if sessions == [] {
    } else {
      var (init, s) := (sessions[..|sessions| - 1], sessions[|sessions| - 1]);
      ReplicaAgrees(init, u, depth);
      assert HonestSession(s, u, depth);
      if s.snapshot.Some? {
        var snap := s.snapshot.value;
        SnapshotSideAgrees(false, snap.bids, u(snap.ts).bids, depth);
        SnapshotSideAgrees(true, snap.asks, u(snap.ts).asks, depth);
        LoadSidePositive(map[], snap.bids);
        LoadSidePositive(map[], snap.asks);
        DrainAgrees(FromSnapshot(snap.bids, snap.asks, snap.ts), s.inbound, u, LastCoverage(sessions, depth));
      }
    }
  }

  /**
    Where every listed level is covered, the depth view served to subscribers is the upstream one,
    provided the view is full or the snapshot held the whole side.
  */
  lemma ViewMatchesUpstream(asks: bool, m: Side, u: Side, c: Coverage, depth: nat)
    requires SideAgrees(asks, m, u, c) && AllPositive(m) && AllPositive(u)
    requires forall i :: 0 <= i < |SideView(asks, m, depth)| ==> Covered(asks, c, SideView(asks, m, depth)[i].price)
    requires |SideView(asks, m, depth)| == depth || c == Everything
    ensures SideView(asks, m, depth) == SideView(asks, u, depth)
  {
    hide SideView;
    var v := SideView(asks, m, depth);
    SideViewMeaning(asks, m, depth, v);
    SubmapSize(m, u);
    if c == Everything {
      assert forall p :: SizeAt(m, p) == SizeAt(u, p);
      assert forall p :: p in u ==> SizeAt(m, p) > 0;
      SubmapSize(u, m);
    }
    forall p, i | p in u && !Lists(v, p) && 0 <= i < |v| ensures Better(asks, v[i].price, p) {
      assert Covered(asks, c, v[i].price);
      if Covered(asks, c, p) {
        assert SizeAt(m, p) == SizeAt(u, p) > 0;
      }
    }
    SideViewMeaning(asks, u, depth, v);
  }

  lemma SubmapSize(a: Side, b: Side)
    requires forall p :: p in a ==> p in b
    ensures |a| <= |b|
  {
    forall p | p in a.Keys ensures p in b.Keys {
    }
    assert |a.Keys| == |a| && |b.Keys| == |b|;
    assert b.Keys == a.Keys + (b.Keys - a.Keys);
  }

  // ---- gaps ----

  /** A history of upstream events, each starting where the previous one ended. */
  ghost predicate Chained(h: seq<BookDelta>) {
    && (forall i :: 0 <= i < |h| ==> h[i].lastMaxTs < h[i].maxTs)
    && (forall i, j :: 0 <= i && j == i + 1 < |h| ==> h[j].lastMaxTs == h[i].maxTs)
  }

  /** The events of a history that arrive, by index. */
  ghost predicate Arrivals(idx: seq<int>, h: seq<BookDelta>) {
    StrictlyRising(idx) && forall k :: 0 <= k < |idx| ==> 0 <= idx[k] < |h|
  }

  function Messages(h: seq<BookDelta>, idx: seq<int>): (r: seq<Inbound>)
    requires forall k :: 0 <= k < |idx| ==> 0 <= idx[k] < |h|
    ensures |r| == |idx|
  {
    seq(|idx|, k requires 0 <= k < |idx| => Delta(h[idx[k]]))
  }

  /** Everything skipped before the last arrival was already in the snapshot. */
  ghost predicate NothingMissing(h: seq<BookDelta>, idx: seq<int>, ts: nat) {
    idx != [] ==>
      && (forall j :: 0 <= j < idx[|idx| - 1] && j < |h| && j !in idx ==> h[j].maxTs <= ts)
      && (idx[0] == 0 && h != [] ==> h[0].lastMaxTs <= ts)
  }

  lemma {:induction false} ChainRises(h: seq<BookDelta>, i: nat, j: nat)
    requires Chained(h) && i < j < |h|
    ensures h[i].maxTs <= h[j].lastMaxTs < h[j].maxTs
    decreases j
  {
    if i + 1 < j {
      ChainRises(h, i, j - 1);
    }
  }

  /** Whether one more arrival leaves a gap, when everything before it did not. */
  lemma NextArrival(h: seq<BookDelta>, idx: seq<int>, ts: nat, current: nat)
    requires Chained(h) && Arrivals(idx, h) && idx != []
    requires NothingMissing(h, idx[..|idx| - 1], ts)
    requires current == if |idx| == 1 then ts else Max(ts, h[idx[|idx| - 2]].maxTs)
    ensures h[idx[|idx| - 1]].lastMaxTs <= current <==> NothingMissing(h, idx, ts)
  {
    var (init, n) := (idx[..|idx| - 1], |idx| - 1);
    var i := idx[n];
    forall j | 0 <= j < i && j !in idx && (n > 0 ==> j < idx[n - 1]) && n > 0 ensures h[j].maxTs <= ts {
      assert init[|init| - 1] == idx[n - 1];
      assert j !in init;
    }
    if h[i].lastMaxTs <= current {
      forall j | 0 <= j < i && j !in idx && (n == 0 || idx[n - 1] < j) ensures h[j].maxTs <= ts {
        ChainRises(h, j, i);
        if n > 0 {
          ChainRises(h, idx[n - 1], j);
        }
      }
      assert n > 0 ==> init[0] == idx[0];
    } else {
      assert !NothingMissing(h, idx, ts) by {
        if i > 0 && (n == 0 || idx[n - 1] < i - 1) {
          assert i - 1 !in idx;
        }
      }
    }
  }

  /**
    A session whose messages come from one chained history reports a gap exactly when an event that the
    snapshot did not include was skipped; otherwise the replica ends at the last event's timestamp.
  */
  lemma {:induction false} GapIffMissing(book: Book, h: seq<BookDelta>, idx: seq<int>)
    requires Chained(h) && Arrivals(idx, h)
    ensures var (b, end) := Drain(book, Messages(h, idx));
            if NothingMissing(h, idx, book.lastTs) then
              && end == Exhausted
              && b.lastTs == if idx == [] then book.lastTs else Max(book.lastTs, h[idx[|idx| - 1]].maxTs)
            else end.GapFound?
    decreases |idx|
  {
    if idx == [] {
      hide NothingMissing;
      assert NothingMissing(h, [], book.lastTs) by { NothingArrived(h, book.lastTs); }
    } else {
      var init := idx[..|idx| - 1];
      GapIffMissing(book, h, init);
      assert Messages(h, idx)[..|init|] == Messages(h, init);
      var (b, end) := Drain(book, Messages(h, init));
      assert Drain(book, Messages(h, idx))
          == if end != Exhausted then (b, end) else Handle(b, Delta(h[idx[|init|]]));
      hide Drain, Messages, NothingMissing;
      if NothingMissing(h, init, book.lastTs) {
        OneMoreArrival(b, h, idx, book.lastTs);
      } else {
        MissingStays(h, idx, book.lastTs);
      }
    }
  }

  lemma NothingArrived(h: seq<BookDelta>, ts: nat)
    ensures NothingMissing(h, [], ts)
  {
  }

  /** One more arrival after a run without a gap: the timestamps decide, and say whether an event is missing. */
  lemma OneMoreArrival(b: Book, h: seq<BookDelta>, idx: seq<int>, ts: nat)
    requires Chained(h) && Arrivals(idx, h) && idx != []
    requires NothingMissing(h, idx[..|idx| - 1], ts)
    requires b.lastTs == if |idx| == 1 then ts else Max(ts, h[idx[|idx| - 2]].maxTs)
    ensures var (b', end) := Handle(b, Delta(h[idx[|idx| - 1]]));
            if NothingMissing(h, idx, ts) then end == Exhausted && b'.lastTs == Max(ts, h[idx[|idx| - 1]].maxTs)
            else end.GapFound?
  {
    NextArrival(h, idx, ts, b.lastTs);
    hide NothingMissing;
    var i := idx[|idx| - 1];
    assert h[i].lastMaxTs < h[i].maxTs;
    if |idx| > 1 {
      ChainRises(h, idx[|idx| - 2], i);
    }
    hide Chained;
  }

  lemma MissingStays(h: seq<BookDelta>, idx: seq<int>, ts: nat)
    requires Arrivals(idx, h) && idx != [] && !NothingMissing(h, idx[..|idx| - 1], ts)
    ensures !NothingMissing(h, idx, ts)
  {
  }

  /** When a whole chained history arrives and starts no later than the snapshot, it bridges without a gap. */
  lemma BridgingComplete(book: Book, h: seq<BookDelta>)
    requires Chained(h) && h != [] && h[0].lastMaxTs <= book.lastTs
    ensures var (b, end) := Drain(book, Messages(h, seq(|h|, i => i)));
            end == Exhausted && b.lastTs == Max(book.lastTs, h[|h| - 1].maxTs)
  {
    var idx := seq(|h|, i => i);
    forall j | 0 <= j < |h| ensures j in idx {
      assert idx[j] == j;
    }
    GapIffMissing(book, h, idx);
  }

  /** A reported gap comes from one delta, and the book stays as the deltas before it left it. */
  lemma {:induction false} GapLeavesBookUnchanged(book: Book, inbound: seq<Inbound>)
    requires Drain(book, inbound).1.GapFound?
    ensures exists n :: 0 <= n < |inbound| && GapAt(book, inbound, n)
  {
    var init := inbound[..|inbound| - 1];
    if Drain(book, init).1.GapFound? {
      GapLeavesBookUnchanged(book, init);
      var n :| 0 <= n < |init| && GapAt(book, init, n);
      assert init[..n] == inbound[..n];
      assert GapAt(book, inbound, n);
    } else {
      assert GapAt(book, inbound, |inbound| - 1);
    }
  }

  ghost predicate GapAt(book: Book, inbound: seq<Inbound>, n: int)
    requires 0 <= n < |inbound|
  {
    var before := Drain(book, inbound[..n]);
    && before.1 == Exhausted
    && before.0 == Drain(book, inbound).0
    && inbound[n].Delta?
    && inbound[n].delta.maxTs > before.0.lastTs
    && inbound[n].delta.lastMaxTs > before.0.lastTs
  }

  // ---- sessions over mixed messages ----

  /** The newest timestamp among a start and the deltas that have come in. */
  function Reached(ts: nat, inbound: seq<Inbound>): nat {
    if inbound == [] then ts
    else
      var (before, m) := (Reached(ts, inbound[..|inbound| - 1]), inbound[|inbound| - 1]);
      if m.Delta? && before < m.delta.maxTs then m.delta.maxTs else before
  }

  /** A failure, or a new delta that does not start where the replica stands. */
  predicate Breaks(ts: nat, m: Inbound) {
    m.Failed? || (m.Delta? && ts < m.delta.maxTs && ts < m.delta.lastMaxTs)
  }

  predicate Clean(ts: nat, inbound: seq<Inbound>) {
    forall i :: 0 <= i < |inbound| ==> !Breaks(Reached(ts, inbound[..i]), inbound[i])
  }

  lemma CleanBefore(ts: nat, inbound: seq<Inbound>)
    requires inbound != []
    ensures var (init, m) := (inbound[..|inbound| - 1], inbound[|inbound| - 1]);
            Clean(ts, inbound) <==> Clean(ts, init) && !Breaks(Reached(ts, init), m)
  {
    hide Reached, Breaks;
    var (init, n) := (inbound[..|inbound| - 1], |inbound| - 1);
    assert forall i :: 0 <= i < n ==> inbound[i] == init[i] && inbound[..i] == init[..i];
  }

  /** The session goes on if and only if nothing breaks it, and then the replica has reached the newest delta. */
  lemma {:induction false} ExhaustedIffClean(book: Book, inbound: seq<Inbound>)
    ensures Drain(book, inbound).1 == Exhausted <==> Clean(book.lastTs, inbound)
    ensures Clean(book.lastTs, inbound) ==> Drain(book, inbound).0.lastTs == Reached(book.lastTs, inbound)
  {
    if inbound == [] {
    } else {
      ExhaustedIffClean(book, inbound[..|inbound| - 1]);
      CleanBefore(book.lastTs, inbound);
      hide Clean;
    }
  }

  /**
    What one more message does to a session that goes on: nothing when it is no delta or a stale one; both
    sides updated when it is a new delta that joins on; otherwise the end, with the book as it stands.
  */
  lemma MessageMeaning(book: Book, inbound: seq<Inbound>, m: Inbound)
    requires Clean(book.lastTs, inbound)
    ensures var (before, now) := (Drain(book, inbound).0, Drain(book, inbound + [m]));
            var ts := Reached(book.lastTs, inbound);
            && before.lastTs == ts
            && (m.Ignored? || (m.Delta? && m.delta.maxTs <= ts) ==> now == (before, Exhausted))
            && (m.Delta? && m.delta.lastMaxTs <= ts < m.delta.maxTs ==>
                  var (bids, asks) := (ApplySide(before.bids, m.delta.bids), ApplySide(before.asks, m.delta.asks));
                  now == (Book(bids, asks, m.delta.maxTs), Exhausted))
            && (m.Failed? ==> now == (before, Failure))
            && (m.Delta? && ts < m.delta.maxTs && ts < m.delta.lastMaxTs ==>
                  now == (before, GapFound(ts, m.delta.lastMaxTs)))
  {
    ExhaustedIffClean(book, inbound);
    assert (inbound + [m])[..|inbound|] == inbound;
    hide Clean, Reached;
  }

  /** The first message that breaks a session ends it: later ones do not matter. */
  lemma FirstBreakEnds(book: Book, a: seq<Inbound>, m: Inbound, b: seq<Inbound>)
    requires Clean(book.lastTs, a) && Breaks(Reached(book.lastTs, a), m)
    ensures var ts := Reached(book.lastTs, a);
            Drain(book, a + [m] + b)
            == (Drain(book, a).0, if m.Failed? then Failure else GapFound(ts, m.delta.lastMaxTs))
  {
    MessageMeaning(book, a, m);
    assert (a + [m] + b)[..|a| + 1] == a + [m];
    DrainStops(book, a + [m] + b, |a| + 1);
  }

  function WithoutIgnored(inbound: seq<Inbound>): seq<Inbound> {
    if inbound == [] then []
    else
      var (rest, m) := (WithoutIgnored(inbound[..|inbound| - 1]), inbound[|inbound| - 1]);
      if m.Ignored? then rest else rest + [m]
  }

  /** Messages that are no deltas, such as the answer to the subscription, change nothing at all. */
  lemma {:induction false} IgnoredDoNotMatter(book: Book, inbound: seq<Inbound>)
    ensures Drain(book, inbound) == Drain(book, WithoutIgnored(inbound))
    ensures Ignored !in WithoutIgnored(inbound)
  {
    if inbound == [] {
    } else {
      var (init, m) := (inbound[..|inbound| - 1], inbound[|inbound| - 1]);
      IgnoredDoNotMatter(book, init);
      assert (WithoutIgnored(init) + [m])[..|WithoutIgnored(init)|] == WithoutIgnored(init);
    }
  }

  /**
    A whole session: without a snapshot it fails and keeps the book; with one it goes on if and only if
    nothing breaks it, and then stands at the newest timestamp that came in.
  */
  lemma SessionMeaning(book: Book, s: Session)
    ensures s.snapshot.None? ==> RunSession(book, s) == (book, Failure)
    ensures s.snapshot.Some? ==>
              var (ts, after) := (s.snapshot.value.ts, RunSession(book, s));
              && (after.1 == Exhausted <==> Clean(ts, s.inbound))
              && (Clean(ts, s.inbound) ==> after.0.lastTs == Reached(ts, s.inbound))
  {
    if s.snapshot.Some? {
      var snap := s.snapshot.value;
      ExhaustedIffClean(FromSnapshot(snap.bids, snap.asks, snap.ts), s.inbound);
    }
  }

  // ---- exactness, level by level ----

  /** At or better than a level that the snapshot listed, or anywhere if the snapshot was the whole side. */
  predicate Within(asks: bool, levels: seq<Level>, depth: nat, p: int) {
    |levels| < depth || exists l :: l in levels && (if asks then p <= l.price else l.price <= p)
  }

  lemma WithinIsCovered(asks: bool, levels: seq<Level>, depth: nat, p: int)
    ensures Within(asks, levels, depth, p) ==> Covered(asks, CoverageOf(asks, levels, depth), p)
  {
    if |levels| >= depth && levels != [] {
      WorstIsWorst(asks, levels);
    }
  }

  lemma {:induction false} WorstIsWorst(asks: bool, levels: seq<Level>)
    requires levels != []
    ensures forall l :: l in levels ==> !Better(asks, Worst(asks, levels), l.price)
  {
    var (init, last) := (levels[..|levels| - 1], levels[|levels| - 1]);
    assert levels == init + [last];
    if init == [] {
    } else {
      WorstIsWorst(asks, init);
    }
  }

  /**
    After any sessions, the last of which got a snapshot, the replica has at every price within that
    snapshot exactly the size that upstream has at the replica's own timestamp, present or absent.
  */
  lemma ReplicaExact(sessions: seq<Session>, u: nat -> Quotes, depth: nat, p: int)
    requires PositiveUpstream(u) && sessions != [] && sessions[|sessions| - 1].snapshot.Some?
    requires forall i :: 0 <= i < |sessions| ==> HonestSession(sessions[i], u, depth)
    ensures var (snap, b) := (sessions[|sessions| - 1].snapshot.value, RunAll(sessions));
            && (Within(false, snap.bids, depth, p) ==> SizeAt(b.bids, p) == SizeAt(u(b.lastTs).bids, p))
            && (Within(true, snap.asks, depth, p) ==> SizeAt(b.asks, p) == SizeAt(u(b.lastTs).asks, p))
  {
    ReplicaAgrees(sessions, u, depth);
    var snap := sessions[|sessions| - 1].snapshot.value;
    WithinIsCovered(false, snap.bids, depth, p);
    WithinIsCovered(true, snap.asks, depth, p);
    hide RunAll, CoverageOf, Covered, Within, HonestSession;
  }
}
