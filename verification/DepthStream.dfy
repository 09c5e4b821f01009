/** From the upstream book to a subscriber's screen: BookSession and FanOut together. */
module DepthStream {
  import opened Base
  import opened OrderBook
  import opened BookSession
  import opened FanOut

  ghost predicate HonestStep(step: Step, u: nat -> Quotes, depth: nat) {
    match step
    case LoadSnapshot(snap) => HonestSnapshot(snap, u, depth)
    case Apply(d) => HonestDelta(d, u)
    case _ => true
  }

  /** For every book of the history, how far the snapshot it descends from reached. */
  function HistoryCoverage(depth: nat, steps: seq<Step>): seq<Coverages> {
    if steps == [] then [Coverages(Nothing, Nothing)]
    else
      var before := HistoryCoverage(depth, steps[..|steps| - 1]);
      var (s, step) := (Run(Start(depth), steps[..|steps| - 1]), steps[|steps| - 1]);
      if |Next(s, step).books| == |s.books| then before
      else if step.LoadSnapshot? then
        before + [Coverages(CoverageOf(false, step.snapshot.bids, depth), CoverageOf(true, step.snapshot.asks, depth))]
      else before + (if before == [] then [] else [before[|before| - 1]])
  }

  ghost predicate HistoryAgrees(books: seq<Book>, coverage: seq<Coverages>, u: nat -> Quotes) {
    |coverage| == |books| && forall k :: 0 <= k < |books| ==> Agrees(books[k], u, coverage[k])
  }

  lemma BookAgreesAfter(b: Book, step: Step, u: nat -> Quotes, depth: nat, c: Coverages)
    requires HonestStep(step, u, depth) && PositiveUpstream(u) && Agrees(b, u, c)
    ensures step.LoadSnapshot? ==>
              var snap := step.snapshot;
              Agrees(FromSnapshot(snap.bids, snap.asks, snap.ts), u,
                     Coverages(CoverageOf(false, snap.bids, depth), CoverageOf(true, snap.asks, depth)))
    ensures step.Apply? && Outcome(b, step.delta) == Applied ==> Agrees(AfterDelta(b, step.delta), u, c)
  {
    match step
    case LoadSnapshot(snap) =>
      var session := Session(Some(snap), []);
      assert [session][..0] == [] && HonestSession(session, u, depth);
      ReplicaAgrees([session], u, depth);
    case Apply(d) =>
      DeltaAgrees(b, d, u, c);
    case _ =>
  }

  lemma {:induction false} HistoryStaysHonest(depth: nat, steps: seq<Step>, u: nat -> Quotes)
    requires PositiveUpstream(u)
    requires forall i :: 0 <= i < |steps| ==> HonestStep(steps[i], u, depth)
    ensures HistoryAgrees(Run(Start(depth), steps).books, HistoryCoverage(depth, steps), u)
    ensures Run(Start(depth), steps).depth == depth
  {
    hide Depth, Agrees, AfterDelta, FromSnapshot, EmitTo;
    if steps == [] {
      EmptyAgrees(u);
    } else {
      var init := steps[..|steps| - 1];
      HistoryStaysHonest(depth, init, u);
      RunKeepsInv(depth, init);
      var s := Run(Start(depth), init);
      var coverage := HistoryCoverage(depth, init);
      BookAgreesAfter(s.Current(), steps[|steps| - 1], u, depth, coverage[|coverage| - 1]);
    }
  }

  lemma EmptyAgrees(u: nat -> Quotes)
    ensures Agrees(EMPTY, u, Coverages(Nothing, Nothing))
  {
  }

  /**
    Whatever the interleaving, every depth message a subscriber holds is the depth view of a book that
    agrees with the upstream book at the message's own source timestamp.
  */
  lemma MessagesShowUpstream(depth: nat, steps: seq<Step>, u: nat -> Quotes, id: nat, m: Message)
    requires PositiveUpstream(u)
    requires forall i :: 0 <= i < |steps| ==> HonestStep(steps[i], u, depth)
    requires Sees(Run(Start(depth), steps), id, m)
    ensures var s := Run(Start(depth), steps);
            var coverage := HistoryCoverage(depth, steps);
            && m.seqNo in s.stamps
            && (var k := s.stamps[m.seqNo];
                && k < |s.books| == |coverage|
                && m.depth == Depth(s.books[k], depth)
                && m.sourceTs == s.books[k].lastTs
                && Agrees(s.books[k], u, coverage[k]))
  {
    hide Depth, Agrees, Run, HistoryCoverage;
    SequenceNumbersFollowChanges(depth, steps, id, m, id, m);
    HistoryStaysHonest(depth, steps, u);
  }

  /** Every listed level is covered, and the list is full or the snapshot held the whole side. */
  ghost predicate FullyCovered(asks: bool, view: seq<LevelView>, c: Coverage, depth: nat) {
    && (forall i :: 0 <= i < |view| ==> Covered(asks, c, view[i].price))
    && (|view| == depth || c == Everything)
  }

  /**
    Where its levels are covered, a depth message that any subscriber holds is exactly the upstream depth
    view at the message's own source timestamp.
  */
  lemma CoveredMessagesAreUpstreamViews(depth: nat, steps: seq<Step>, u: nat -> Quotes, id: nat, m: Message)
    requires PositiveUpstream(u)
    requires forall i :: 0 <= i < |steps| ==> HonestStep(steps[i], u, depth)
    requires Sees(Run(Start(depth), steps), id, m)
    ensures var (s, coverage) := (Run(Start(depth), steps), HistoryCoverage(depth, steps));
            && m.seqNo in s.stamps && s.stamps[m.seqNo] < |coverage|
            && (var c := coverage[s.stamps[m.seqNo]];
                FullyCovered(false, m.depth.bids, c.bids, depth) && FullyCovered(true, m.depth.asks, c.asks, depth) ==>
                  var now := u(m.sourceTs);
                  m.depth == Sides(SideView(false, now.bids, depth), SideView(true, now.asks, depth)))
  {
    hide Agrees, Run, HistoryCoverage, SideView;
    MessagesShowUpstream(depth, steps, u, id, m);
    var (s, coverage) := (Run(Start(depth), steps), HistoryCoverage(depth, steps));
    var k := s.stamps[m.seqNo];
    CoveredViewIsUpstream(s.books[k], u, coverage[k], depth);
  }

  lemma CoveredViewIsUpstream(b: Book, u: nat -> Quotes, c: Coverages, depth: nat)
    requires PositiveUpstream(u) && Agrees(b, u, c)
    ensures var (v, now) := (Depth(b, depth), u(b.lastTs));
            FullyCovered(false, v.bids, c.bids, depth) && FullyCovered(true, v.asks, c.asks, depth) ==>
              v == Sides(SideView(false, now.bids, depth), SideView(true, now.asks, depth))
  {
    hide SideView;
    var (v, now) := (Depth(b, depth), u(b.lastTs));
    if FullyCovered(false, v.bids, c.bids, depth) && FullyCovered(true, v.asks, c.asks, depth) {
      ViewMatchesUpstream(false, b.bids, now.bids, c.bids, depth);
      ViewMatchesUpstream(true, b.asks, now.asks, c.asks, depth);
    }
  }

  // ---- exactness, level by level ----

  predicate NoSnapshotIn(steps: seq<Step>) {
    forall i :: 0 <= i < |steps| ==> !steps[i].LoadSnapshot?
  }

  lemma CoverageOfLoad(depth: nat, a: seq<Step>, snap: Snapshot)
    requires Run(Start(depth), a).worker.Idle?
    ensures var coverage := HistoryCoverage(depth, a + [LoadSnapshot(snap)]);
            coverage != [] && coverage[|coverage| - 1]
            == Coverages(CoverageOf(false, snap.bids, depth), CoverageOf(true, snap.asks, depth))
  {
    hide FromSnapshot, CoverageOf, Run;
    assert (a + [LoadSnapshot(snap)])[..|a|] == a;
  }

  lemma CoverageKept(depth: nat, steps: seq<Step>, step: Step)
    requires !step.LoadSnapshot? && HistoryCoverage(depth, steps) != []
    ensures var (before, after) := (HistoryCoverage(depth, steps), HistoryCoverage(depth, steps + [step]));
            after != [] && after[|after| - 1] == before[|before| - 1]
  {
    hide Next, Run;
    assert (steps + [step])[..|steps|] == steps;
  }

  lemma {:induction false} CoverageSinceSnapshot(depth: nat, a: seq<Step>, snap: Snapshot, b: seq<Step>)
    requires Run(Start(depth), a).worker.Idle? && NoSnapshotIn(b)
    ensures var coverage := HistoryCoverage(depth, a + [LoadSnapshot(snap)] + b);
            coverage != [] && coverage[|coverage| - 1]
            == Coverages(CoverageOf(false, snap.bids, depth), CoverageOf(true, snap.asks, depth))
    decreases |b|
  {
    hide HistoryCoverage, CoverageOf, Run;
    CoverageOfLoad(depth, a, snap);
    if b == [] {
      assert a + [LoadSnapshot(snap)] + b == a + [LoadSnapshot(snap)];
    } else {
      var (init, step) := (b[..|b| - 1], b[|b| - 1]);
      CoverageSinceSnapshot(depth, a, snap, init);
      CoverageKept(depth, a + [LoadSnapshot(snap)] + init, step);
      assert a + [LoadSnapshot(snap)] + init + [step] == a + [LoadSnapshot(snap)] + b;
    }
  }

  /**
    Whatever subscribers do in between, after a snapshot was loaded and until the next one, the worker's
    book has at every price within that snapshot exactly the size that upstream has at the book's timestamp.
  */
  lemma WorkerBookExact(depth: nat, a: seq<Step>, snap: Snapshot, b: seq<Step>, u: nat -> Quotes, p: int)
    requires PositiveUpstream(u) && Run(Start(depth), a).worker.Idle? && NoSnapshotIn(b)
    requires var steps := a + [LoadSnapshot(snap)] + b;
             forall i :: 0 <= i < |steps| ==> HonestStep(steps[i], u, depth)
    ensures var book := Run(Start(depth), a + [LoadSnapshot(snap)] + b).Current();
            && (Within(false, snap.bids, depth, p) ==> SizeAt(book.bids, p) == SizeAt(u(book.lastTs).bids, p))
            && (Within(true, snap.asks, depth, p) ==> SizeAt(book.asks, p) == SizeAt(u(book.lastTs).asks, p))
  {
    hide Run, HistoryCoverage, CoverageOf, Covered, Within, HonestStep, NoSnapshotIn;
    var steps := a + [LoadSnapshot(snap)] + b;
    CoverageSinceSnapshot(depth, a, snap, b);
    HistoryStaysHonest(depth, steps, u);
    WithinIsCovered(false, snap.bids, depth, p);
    WithinIsCovered(true, snap.asks, depth, p);
  }
}
