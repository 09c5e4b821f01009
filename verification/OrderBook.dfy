/** The local copy of an order book (gateway/orderbook/src/orderbook_state.rs). */
module OrderBook {
  import opened Base
  import opened Ordered

  datatype Level = Level(price: int, size: int)

  datatype BookDelta = BookDelta(lastMaxTs: nat, minTs: nat, maxTs: nat, bids: seq<Level>, asks: seq<Level>)

  datatype ApplyOutcome = Applied | Stale | Gap(currentTs: nat, eventLastMaxTs: nat)

  datatype LevelView = LevelView(price: int, size: int, total: int)

  datatype DepthView = Sides(bids: seq<LevelView>, asks: seq<LevelView>)

  /** Price to size. */
  type Side = map<int, int>

  datatype Book = Book(bids: Side, asks: Side, lastTs: nat)

  const EMPTY: Book := Book(map[], map[], 0)

  // ---- what the operations compute ----

  function LoadSide(target: Side, levels: seq<Level>): Side {
    if levels == [] then target
    else
      var l := levels[|levels| - 1];
      var m := LoadSide(target, levels[..|levels| - 1]);
      if l.size > 0 then m[l.price := l.size] else m
  }

  function ApplySide(target: Side, levels: seq<Level>): Side {
    if levels == [] then target
    else
      var l := levels[|levels| - 1];
      var m := ApplySide(target, levels[..|levels| - 1]);
      if l.size == 0 then m - {l.price}
      else if l.size > 0 then m[l.price := l.size]
      else m
  }

  function FromSnapshot(bids: seq<Level>, asks: seq<Level>, ts: nat): Book {
    Book(LoadSide(map[], bids), LoadSide(map[], asks), ts)
  }

  function Outcome(book: Book, d: BookDelta): ApplyOutcome {
    if d.maxTs <= book.lastTs then Stale
    else if d.lastMaxTs > book.lastTs then Gap(book.lastTs, d.lastMaxTs)
    else Applied
  }

  function AfterDelta(book: Book, d: BookDelta): Book {
    if Outcome(book, d) != Applied then book
    else Book(ApplySide(book.bids, d.bids), ApplySide(book.asks, d.asks), d.maxTs)
  }

  predicate AllIn(prices: seq<int>, m: Side) {
    forall i :: 0 <= i < |prices| ==> prices[i] in m
  }

  function TotalOf(v: seq<LevelView>): int {
    if v == [] then 0 else v[|v| - 1].total
  }

  function ViewOf(m: Side, prices: seq<int>): (v: seq<LevelView>)
    requires AllIn(prices, m)
    ensures |v| == |prices|
  {
    if prices == [] then []
    else
      var p := prices[|prices| - 1];
      var v := ViewOf(m, prices[..|prices| - 1]);
      v + [LevelView(p, m[p], TotalOf(v) + m[p])]
  }

  function Prefix<T>(s: seq<T>, n: nat): seq<T> {
    if n <= |s| then s[..n] else s
  }

  function Depth(book: Book, depth: nat): DepthView {
    Sides(SideView(false, book.bids, depth), SideView(true, book.asks, depth))
  }

  // ---- the state in place ----

  class OrderBookState {
    var bids: Side
    var asks: Side
    var lastTs: nat

    function View(): Book
      reads this
    {
      Book(bids, asks, lastTs)
    }

    constructor ()
      ensures View() == EMPTY
    {
      bids, asks, lastTs := map[], map[], 0;
    }

    method ResetFromSnapshot(newBids: seq<Level>, newAsks: seq<Level>, ts: nat)
      modifies this
      ensures View() == FromSnapshot(newBids, newAsks, ts)
    {
      bids := map[];
      asks := map[];
      bids := LoadLevels(bids, newBids);
      asks := LoadLevels(asks, newAsks);
      lastTs := ts;
    }

    method ApplyDelta(d: BookDelta) returns (outcome: ApplyOutcome)
      modifies this
      ensures outcome == Outcome(old(View()), d)
      ensures View() == AfterDelta(old(View()), d)
    {
      if d.maxTs <= lastTs {
        return Stale;
      }
      if d.lastMaxTs > lastTs {
        return Gap(lastTs, d.lastMaxTs);
      }
      bids := ApplyLevels(bids, d.bids);
      asks := ApplyLevels(asks, d.asks);
      lastTs := d.maxTs;
      outcome := Applied;
    }

    method DepthView(depth: nat) returns (v: DepthView)
      ensures v == Depth(View(), depth)
    {
      var askViews := ListLevels(asks, BestPrices(true, asks), depth);
      var bidViews := ListLevels(bids, BestPrices(false, bids), depth);
      v := Sides(bidViews, askViews);
    }
  }

  method LoadLevels(target: Side, levels: seq<Level>) returns (m: Side)
    ensures m == LoadSide(target, levels)
  {
    m := target;
    for i := 0 to |levels|
      invariant m == LoadSide(target, levels[..i])
    {
      assert levels[..i + 1][..i] == levels[..i];
      if levels[i].size > 0 {
        m := m[levels[i].price := levels[i].size];
      }
    }
    assert levels[..|levels|] == levels;
  }

  method ApplyLevels(target: Side, levels: seq<Level>) returns (m: Side)
    ensures m == ApplySide(target, levels)
  {
    m := target;
    for i := 0 to |levels|
      invariant m == ApplySide(target, levels[..i])
    {
      assert levels[..i + 1][..i] == levels[..i];
      if levels[i].size == 0 {
        m := m - {levels[i].price};
      } else if levels[i].size > 0 {
        m := m[levels[i].price := levels[i].size];
      }
    }
    assert levels[..|levels|] == levels;
  }

  lemma ViewGrows(m: Side, prices: seq<int>, i: nat)
    requires AllIn(prices, m) && i < |prices|
    ensures var v := ViewOf(m, prices[..i]);
            ViewOf(m, prices[..i + 1]) == v + [LevelView(prices[i], m[prices[i]], TotalOf(v) + m[prices[i]])]
  {
    assert prices[..i + 1][..i] == prices[..i];
  }

  method ListLevels(m: Side, prices: seq<int>, depth: nat) returns (views: seq<LevelView>)
    requires AllIn(prices, m)
    ensures views == ViewOf(m, Prefix(prices, depth))
  {
    hide ViewOf;
    var total := 0;
    views := [];
    var i := 0;
    while i < |prices| && i < depth
      invariant 0 <= i <= |prices| && i <= depth
      invariant views == ViewOf(m, prices[..i]) && total == TotalOf(views)
    {
      ViewGrows(m, prices, i);
      total := total + m[prices[i]];
      views := views + [LevelView(prices[i], m[prices[i]], total)];
      i := i + 1;
    }
    assert prices[..i] == Prefix(prices, depth);
  }

  // ---- what the operations mean ----

  ghost predicate AllPositive(m: Side) {
    forall p :: p in m ==> m[p] > 0
  }

  ghost predicate Positive(book: Book) {
    AllPositive(book.bids) && AllPositive(book.asks)
  }

  function SizeAt(m: Side, p: int): int {
    if p in m then m[p] else 0
  }

  /** The size a list of levels finally assigns to a price; negative sizes assign nothing. */
  function LastSize(levels: seq<Level>, p: int): Option<nat> {
    if levels == [] then None
    else
      var l := levels[|levels| - 1];
      if l.price == p && l.size >= 0 then Some(l.size) else LastSize(levels[..|levels| - 1], p)
  }

  /** The last level given for a price wins, a zero size removes it, and no other price is touched. */
  lemma {:induction false} ApplySideMeaning(m: Side, levels: seq<Level>, p: int)
    ensures LastSize(levels, p) == None ==> (p in ApplySide(m, levels) <==> p in m)
    ensures LastSize(levels, p) == None && p in m ==> ApplySide(m, levels)[p] == m[p]
    ensures LastSize(levels, p).Some? ==> (p in ApplySide(m, levels) <==> LastSize(levels, p).value > 0)
    ensures LastSize(levels, p).Some? && LastSize(levels, p).value > 0
        ==> ApplySide(m, levels)[p] == LastSize(levels, p).value
  {
    if levels == [] {
    } else {
      ApplySideMeaning(m, levels[..|levels| - 1], p);
    }
  }

  lemma {:induction false} ApplySidePositive(m: Side, levels: seq<Level>)
    requires AllPositive(m)
    ensures AllPositive(ApplySide(m, levels))
  {
    if levels == [] {
    } else {
      ApplySidePositive(m, levels[..|levels| - 1]);
    }
  }

  lemma {:induction false} LoadSidePositive(m: Side, levels: seq<Level>)
    requires AllPositive(m)
    ensures AllPositive(LoadSide(m, levels))
  {
    if levels == [] {
    } else {
      LoadSidePositive(m, levels[..|levels| - 1]);
    }
  }

  predicate Distinct(levels: seq<Level>) {
    forall i, j :: 0 <= i < j < |levels| ==> levels[i].price != levels[j].price
  }

  /** The last positive size given for a price. */
  function LastPositive(levels: seq<Level>, p: int): Option<int> {
    if levels == [] then None
    else
      var l := levels[|levels| - 1];
      if l.price == p && l.size > 0 then Some(l.size) else LastPositive(levels[..|levels| - 1], p)
  }

  /** The last positive size given for a price wins; other sizes and other prices leave it alone. */
  lemma {:induction false} LoadSideMeaning(m: Side, levels: seq<Level>, p: int)
    ensures LastPositive(levels, p) == None ==> (p in LoadSide(m, levels) <==> p in m)
    ensures LastPositive(levels, p) == None && p in m ==> LoadSide(m, levels)[p] == m[p]
    ensures LastPositive(levels, p).Some? ==>
              p in LoadSide(m, levels) && LoadSide(m, levels)[p] == LastPositive(levels, p).value > 0
  {
    if levels == [] {
    } else {
      LoadSideMeaning(m, levels[..|levels| - 1], p);
    }
  }

  /** So loading distinct positive levels stores exactly those levels. */
  lemma {:induction false} LoadDistinct(levels: seq<Level>, p: int)
    requires Distinct(levels) && forall l :: l in levels ==> l.size > 0
    ensures p in LoadSide(map[], levels) <==> exists l :: l in levels && l.price == p
    ensures forall l :: l in levels && l.price == p ==> LoadSide(map[], levels)[p] == l.size
  {
    if levels == [] {
    } else {
      var (init, l) := (levels[..|levels| - 1], levels[|levels| - 1]);
      assert levels == init + [l];
      LoadDistinct(init, p);
    }
  }

  // ---- depth views ----

  /** Asks improve downwards, bids upwards. */
  predicate Better(asks: bool, p: int, q: int) {
    if asks then p < q else q < p
  }

  ghost predicate Lists(v: seq<LevelView>, p: int) {
    exists k :: 0 <= k < |v| && v[k].price == p
  }

  ghost predicate BestFirst(asks: bool, v: seq<LevelView>) {
    forall i, j :: 0 <= i < j < |v| ==> Better(asks, v[i].price, v[j].price)
  }

  ghost predicate TotalledAt(v: seq<LevelView>, i: nat)
    requires i < |v|
  {
    v[i].total == v[i].size + TotalOf(v[..i])
  }

  /** Every level carries the total of the sizes up to it. */
  ghost predicate Totalled(v: seq<LevelView>) {
    forall i: nat :: i < |v| ==> TotalledAt(v, i)
  }

  /** The best `depth` levels of a side, best first, with running totals. */
  ghost predicate IsTopOf(asks: bool, m: Side, depth: nat, v: seq<LevelView>) {
    && |v| == Min(depth, |m|)
    && (forall i :: 0 <= i < |v| ==> v[i].price in m && v[i].size == m[v[i].price])
    && BestFirst(asks, v)
    && (forall p, i :: p in m && !Lists(v, p) && 0 <= i < |v| ==> Better(asks, v[i].price, p))
    && Totalled(v)
  }

  function BestPrices(asks: bool, m: Side): (r: seq<int>)
    ensures |r| == |m| && AllIn(r, m) && forall p :: p in m ==> p in r
    ensures forall i, j :: 0 <= i < j < |r| ==> Better(asks, r[i], r[j])
  {
    assert |m.Keys| == |m|;
    if asks then Ascending(m.Keys) else Descending(m.Keys)
  }

  function SideView(asks: bool, m: Side, depth: nat): seq<LevelView> {
    ViewOf(m, Prefix(BestPrices(asks, m), depth))
  }

  lemma TotalledPush(v: seq<LevelView>, l: LevelView)
    requires Totalled(v) && l.total == l.size + TotalOf(v)
    ensures Totalled(v + [l])
  {
    var r := v + [l];
    forall i: nat | i < |r| ensures TotalledAt(r, i) {
      if i < |v| {
        assert TotalledAt(v, i);
        assert r[..i] == v[..i];
      } else {
        assert r[..i] == v;
      }
    }
  }

  /** Every listed level has its own price and size, and the total of the levels up to it. */
  lemma {:induction false} ViewLists(m: Side, prices: seq<int>)
    requires AllIn(prices, m)
    ensures Totalled(ViewOf(m, prices))
    ensures forall i :: 0 <= i < |prices| ==>
              ViewOf(m, prices)[i].price == prices[i] && ViewOf(m, prices)[i].size == m[prices[i]]
  {
    hide Totalled, TotalOf;
    if prices == [] {
      assert Totalled([]) by { NothingTotalled(); }
    } else {
      var init := prices[..|prices| - 1];
      ViewLists(m, init);
      TotalledPush(ViewOf(m, init), ViewOf(m, prices)[|init|]);
    }
  }

  lemma NothingTotalled()
    ensures Totalled([])
  {
  }

  lemma SideViewIsTop(asks: bool, m: Side, depth: nat)
    ensures IsTopOf(asks, m, depth, SideView(asks, m, depth))
  {
    hide BestPrices, ViewOf;
    var all := BestPrices(asks, m);
    var v := SideView(asks, m, depth);
    ViewLists(m, Prefix(all, depth));
    forall p, i | p in m && !Lists(v, p) && 0 <= i < |v| ensures Better(asks, v[i].price, p) {
      assert p in all;
      var j :| 0 <= j < |all| && all[j] == p;
      FirstPricesListed(all, v, j);
    }
  }

  lemma FirstPricesListed(all: seq<int>, v: seq<LevelView>, j: nat)
    requires |v| <= |all| && forall k :: 0 <= k < |v| ==> v[k].price == all[k]
    ensures j < |v| ==> Lists(v, all[j])
  {
  }

  lemma NotInCommonPart(asks: bool, v: seq<LevelView>, w: seq<LevelView>, i: nat, k: nat)
    requires BestFirst(asks, v) && i < |v| && i <= |w| && v[..i] == w[..i]
    requires k < |w| && w[k].price == v[i].price
    ensures i <= k
  {
  }

  /** The level after a common beginning is not better in one of two tops than in the other. */
  lemma TopPriceUnique(asks: bool, m: Side, depth: nat, v: seq<LevelView>, w: seq<LevelView>, i: nat)
    requires IsTopOf(asks, m, depth, v) && IsTopOf(asks, m, depth, w) && i < |v|
    requires v[..i] == w[..i]
    ensures !Better(asks, v[i].price, w[i].price)
  {
    var p := v[i].price;
    if Lists(w, p) {
      var k :| 0 <= k < |w| && w[k].price == p;
      NotInCommonPart(asks, v, w, i, k);
    }
  }

  lemma {:induction false} TopUnique(asks: bool, m: Side, depth: nat, v: seq<LevelView>, w: seq<LevelView>, n: nat)
    requires IsTopOf(asks, m, depth, v) && IsTopOf(asks, m, depth, w) && n <= |v|
    ensures |v| == |w| && v[..n] == w[..n]
  {
    if n == 0 {
    } else {
      TopUnique(asks, m, depth, v, w, n - 1);
      TopPriceUnique(asks, m, depth, v, w, n - 1);
      TopPriceUnique(asks, m, depth, w, v, n - 1);
      assert TotalledAt(v, n - 1) && TotalledAt(w, n - 1);
      assert v[..n] == v[..n - 1] + [v[n - 1]];
      assert w[..n] == w[..n - 1] + [w[n - 1]];
    }
  }

  /** The view is the list of the best levels, and nothing else is. */
  lemma SideViewMeaning(asks: bool, m: Side, depth: nat, v: seq<LevelView>)
    ensures v == SideView(asks, m, depth) <==> IsTopOf(asks, m, depth, v)
  {
    SideViewIsTop(asks, m, depth);
    hide SideView;
    if IsTopOf(asks, m, depth, v) {
      var w := SideView(asks, m, depth);
      TopUnique(asks, m, depth, v, w, |v|);
      assert v[..|v|] == v && w[..|v|] == w;
    }
  }

  function SumOfSizes(v: seq<LevelView>): int {
    if v == [] then 0 else SumOfSizes(v[..|v| - 1]) + v[|v| - 1].size
  }

  /** The running total of a level is the sum of the sizes of the levels up to and including it. */
  lemma {:induction false} TotalsAreSums(v: seq<LevelView>, i: nat)
    requires Totalled(v) && i < |v|
    ensures v[i].total == SumOfSizes(v[..i + 1])
  {
    assert TotalledAt(v, i);
    assert v[..i + 1][..i] == v[..i] && v[..i + 1][i] == v[i];
    if i == 0 {
    } else {
      TotalsAreSums(v, i - 1);
      assert v[..i][i - 1] == v[i - 1];
    }
    hide Totalled, TotalledAt;
  }

  /** With positive sizes the running totals strictly rise. */
  lemma {:induction false} TotalsRise(asks: bool, m: Side, depth: nat, v: seq<LevelView>, i: nat, j: nat)
    requires AllPositive(m) && IsTopOf(asks, m, depth, v) && i <= j < |v|
    ensures 0 < v[i].total && (i < j ==> v[i].total < v[j].total)
    decreases j
  {
    assert TotalledAt(v, j);
    if i < j {
      assert TotalOf(v[..j]) == v[j - 1].total;
      TotalsRise(asks, m, depth, v, i, j - 1);
    } else if j > 0 {
      assert TotalOf(v[..j]) == v[j - 1].total;
      TotalsRise(asks, m, depth, v, j - 1, j - 1);
    }
  }

  /** A depth view is the pair of both sides' best levels. */
  lemma DepthMeaning(book: Book, depth: nat, v: DepthView)
    ensures v == Depth(book, depth)
       <==> IsTopOf(false, book.bids, depth, v.bids) && IsTopOf(true, book.asks, depth, v.asks)
  {
    SideViewMeaning(false, book.bids, depth, v.bids);
    SideViewMeaning(true, book.asks, depth, v.asks);
  }
}
