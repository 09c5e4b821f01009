/**
  Publishing differences and following them (gateway/markets/src/service.rs and main.rs): the service
  object, the interleaving of publishers and one client, and what the client's map becomes.
*/
module MarketsStream {
  import opened Base
  import opened Markets

  const U64_MAX: nat := 0xFFFF_FFFF_FFFF_FFFF

  datatype Message =
    | SnapshotOf(seqNo: nat, sourceTs: nat, markets: Rows)
    | DeltaOf(seqNo: nat, sourceTs: nat, updated: seq<MarketRow>, removed: seq<string>)

  // ---- diff_market_rows ----

  predicate Changes(before: Rows, after: Rows, k: string) {
    k in after && !(k in before && before[k] == after[k])
  }

  /** The rows that are new or different, and the keys that are gone. */
  ghost predicate IsDiff(before: Rows, after: Rows, updated: seq<MarketRow>, removed: seq<string>) {
    && (forall i :: 0 <= i < |updated| ==>
          Changes(before, after, updated[i].symbol) && after[updated[i].symbol] == updated[i])
    && (forall k :: Changes(before, after, k) ==> after[k] in updated)
    && (forall k :: k in removed <==> k in before && k !in after)
  }

  method DiffMarketRows(before: Rows, after: Rows) returns (updated: seq<MarketRow>, removed: seq<string>)
    requires KeyedBySymbol(after)
    ensures IsDiff(before, after, updated, removed)
    ensures updated == [] && removed == [] <==> before == after
  {
    updated := [];
    var rest := after.Keys;
    while rest != {}
      invariant rest <= after.Keys
      invariant forall i :: 0 <= i < |updated| ==>
                  && updated[i].symbol !in rest
                  && Changes(before, after, updated[i].symbol) && after[updated[i].symbol] == updated[i]
      invariant forall k :: Changes(before, after, k) && k !in rest ==> after[k] in updated
      decreases |rest|
    {
      var k :| k in rest;
      rest := rest - {k};
      if !(k in before && before[k] == after[k]) {
        updated := updated + [after[k]];
      }
    }
    removed := [];
    var gone := before.Keys;
    while gone != {}
      invariant gone <= before.Keys
      invariant forall k :: k in removed <==> k in before && k !in gone && k !in after
      decreases |gone|
    {
      var k :| k in gone;
      gone := gone - {k};
      if k !in after {
        removed := removed + [k];
      }
    }
    NoDiffMeansEqual(before, after, updated, removed);
  }

  lemma NoDiffMeansEqual(before: Rows, after: Rows, updated: seq<MarketRow>, removed: seq<string>)
    requires IsDiff(before, after, updated, removed) && KeyedBySymbol(after)
    ensures updated == [] && removed == [] <==> before == after
  {
    assert |updated| > 0 ==> Changes(before, after, updated[0].symbol);
    assert |removed| > 0 ==> removed[0] in removed;
    if updated == [] && removed == [] {
      forall k ensures k in before <==> k in after ensures k in before ==> before[k] == after[k] {
        assert !Changes(before, after, k);
        assert k !in removed;
      }
    }
  }

  /** Nothing is announced that did not change: the rows are new values, the removed keys had one. */
  lemma DiffIsMinimal(before: Rows, after: Rows, updated: seq<MarketRow>, removed: seq<string>, k: string)
    requires IsDiff(before, after, updated, removed)
    ensures k in removed ==> Get(before, k).Some? && Get(after, k) == None
    ensures forall row :: row in updated ==> Get(after, row.symbol) == Some(row) && Get(before, row.symbol) != Some(row)
  {
  }

  // ---- what a client does with a message ----

  function PutAll(m: Rows, rows: seq<MarketRow>): Rows {
    if rows == [] then m else PutAll(m, rows[..|rows| - 1])[rows[|rows| - 1].symbol := rows[|rows| - 1]]
  }

  function Patch(m: Rows, updated: seq<MarketRow>, removed: seq<string>): Rows {
    PutAll(m, updated) - (set k | k in removed)
  }

  function Fold(m: Rows, message: Message): Rows {
    match message
    case SnapshotOf(_, _, markets) => markets
    case DeltaOf(_, _, updated, removed) => Patch(m, updated, removed)
  }

  lemma {:induction false} PutAllAt(m: Rows, rows: seq<MarketRow>, after: Rows, k: string)
    requires forall i :: 0 <= i < |rows| ==> rows[i].symbol in after && after[rows[i].symbol] == rows[i]
    ensures (exists i :: 0 <= i < |rows| && rows[i].symbol == k) ==> Get(PutAll(m, rows), k) == Get(after, k)
    ensures (forall i :: 0 <= i < |rows| ==> rows[i].symbol != k) ==> Get(PutAll(m, rows), k) == Get(m, k)
  {
    if rows == [] {
    } else {
      PutAllAt(m, rows[..|rows| - 1], after, k);
      assert rows == rows[..|rows| - 1] + [rows[|rows| - 1]];
    }
  }

  predicate Touches(before: Rows, after: Rows, k: string) {
    Get(before, k) != Get(after, k)
  }

  /** On any map, a patch sets exactly the keys that changed, to what they changed to. */
  lemma PatchAt(m: Rows, before: Rows, after: Rows, updated: seq<MarketRow>, removed: seq<string>, k: string)
    requires IsDiff(before, after, updated, removed) && KeyedBySymbol(after)
    ensures Get(Patch(m, updated, removed), k) == if Touches(before, after, k) then Get(after, k) else Get(m, k)
  {
    PutAllAt(m, updated, after, k);
    if Changes(before, after, k) {
      assert after[k] in updated;
    }
  }

  /** Patching the old map with the difference gives the new map. */
  lemma PatchUndoesDiff(before: Rows, after: Rows, updated: seq<MarketRow>, removed: seq<string>)
    requires IsDiff(before, after, updated, removed) && KeyedBySymbol(after)
    ensures Patch(before, updated, removed) == after
  {
    hide Patch;
    var r := Patch(before, updated, removed);
    forall k ensures k in r <==> k in after ensures k in r ==> r[k] == after[k] {
      PatchAt(before, before, after, updated, removed, k);
      assert Get(r, k) == Get(after, k);
    }
  }

  // ---- the service ----

  class MarketsService {
    const config: Config
    var seqNo: nat
    var sourceTs: nat
    var sources: Sources
    var markets: Rows
    ghost var history: seq<Rows>

    /** The history of published maps, starting empty; the number counts them, up to the top of 64 bits. */
    ghost predicate Valid()
      reads this
    {
      && history != [] && history[0] == map[] && history[|history| - 1] == markets
      && seqNo == Min(|history| - 1, U64_MAX)
      && (forall i :: 0 <= i < |history| ==> KeyedBySymbol(history[i]))
      && (forall i :: 0 < i < |history| ==> history[i] != history[i - 1])
    }

    constructor (config: Config)
      ensures Valid() && history == [map[]] && this.config == config
    {
      this.config := config;
      seqNo, sourceTs, sources, markets := 0, 0, Sources(map[], map[], map[]), map[];
      history := [map[]];
    }

    method RefreshSymbols(next: map<nat, SymbolMeta>) returns (ok: bool)
      modifies this`sources
      ensures ok <==> next != map[]
      ensures sources == if ok then old(sources).(symbols := next) else old(sources)
    {
      ok := next != map[];
      if ok {
        sources := sources.(symbols := next);
      }
    }

    method RefreshTickers(next: map<nat, TickerMeta>) returns (ok: bool)
      modifies this`sources
      ensures ok <==> next != map[]
      ensures sources == if ok then old(sources).(tickers := next) else old(sources)
    {
      ok := next != map[];
      if ok {
        sources := sources.(tickers := next);
      }
    }

    method RefreshContracts(next: map<nat, ContractMeta>)
      modifies this`sources
      ensures sources == old(sources).(contracts := next)
    {
      sources := sources.(contracts := next);
    }

    /**
      Rebuild, diff, and if anything changed take the next number and publish: a snapshot the first
      time, the difference from then on. Nothing changes and nothing is sent otherwise.
    */
    method RebuildAndPublish(now: nat) returns (message: Option<Message>)
      requires Valid()
      modifies this`seqNo, this`sourceTs, this`markets, this`history
      ensures Valid()
      ensures KeysInjective(sources) ==> forall k :: Get(markets, k) == RowFor(sources, k, now, config)
      ensures message.None? <==> markets == old(markets)
      ensures message.None? ==> history == old(history) && seqNo == old(seqNo) && sourceTs == old(sourceTs)
      ensures message.Some? ==>
                && history == old(history) + [markets] && sourceTs == now
                && seqNo == Min(old(seqNo) + 1, U64_MAX)
                && IsPublished(message.value, seqNo, now, old(markets), markets)
    {
      hide KeysInjective, RowFor, IsDiff;
      var next := BuildMarketRows(sources, now, config);
      var updated, removed := DiffMarketRows(markets, next);
      if updated == [] && removed == [] {
        return None;
      }
      ghost var before := markets;
      seqNo := if seqNo < U64_MAX then seqNo + 1 else U64_MAX;
      sourceTs := now;
      markets := next;
      history := history + [next];
      if seqNo == 1 {
        message := Some(SnapshotOf(seqNo, sourceTs, markets));
      } else {
        message := Some(DeltaOf(seqNo, sourceTs, updated, removed));
      }
    }
  }

  /** What is published under a number, given the maps before and after. */
  ghost predicate IsPublished(message: Message, seqNo: nat, at: nat, before: Rows, after: Rows) {
    && message.seqNo == seqNo && message.sourceTs == at
    && (message.SnapshotOf? <==> seqNo == 1)
    && (message.SnapshotOf? ==> message.markets == after)
    && (message.DeltaOf? ==> IsDiff(before, after, message.updated, message.removed))
  }

  // ---- following the stream ----

  /** A numbered history and the messages that announced its steps: message i leads to map i. */
  ghost predicate Published(history: seq<Rows>, messages: seq<Message>) {
    && |history| == |messages| + 1 && history[0] == map[]
    && (forall i :: 0 <= i < |history| ==> KeyedBySymbol(history[i]))
    && (forall i :: 0 <= i < |messages| ==>
          IsPublished(messages[i], i + 1, messages[i].sourceTs, history[i], history[i + 1]))
  }

  function FoldAll(m: Rows, messages: seq<Message>): Rows {
    if messages == [] then m else Fold(FoldAll(m, messages[..|messages| - 1]), messages[|messages| - 1])
  }

  /** Whether any of the steps lo+1 .. hi touches a key. */
  ghost predicate TouchedBetween(history: seq<Rows>, lo: nat, hi: nat, k: string)
    requires lo <= hi < |history|
  {
    exists i :: lo <= i < hi && Touches(history[i], history[i + 1], k)
  }

  lemma {:induction false} UntouchedSame(history: seq<Rows>, lo: nat, hi: nat, k: string)
    requires lo <= hi < |history| && !TouchedBetween(history, lo, hi, k)
    ensures Get(history[lo], k) == Get(history[hi], k)
    decreases hi
  {
    if lo < hi {
      assert !Touches(history[hi - 1], history[hi], k);
      assert !TouchedBetween(history, lo, hi - 1, k);
      UntouchedSame(history, lo, hi - 1, k);
    }
  }

  // ---- folding in any order ----

  predicate InRange(order: seq<nat>, n: nat) {
    forall j :: 0 <= j < |order| ==> order[j] < n
  }

  /** The messages at these positions, in this order. */
  function Pick(messages: seq<Message>, order: seq<nat>): (r: seq<Message>)
    requires InRange(order, |messages|)
    ensures |r| == |order|
  {
    seq(|order|, j requires 0 <= j < |order| => messages[order[j]])
  }

  /** Whether message i says something about a key: a snapshot does about every key. */
  predicate SpeaksOf(history: seq<Rows>, messages: seq<Message>, i: nat, k: string)
    requires i < |messages| && |history| == |messages| + 1
  {
    messages[i].SnapshotOf? || Touches(history[i], history[i + 1], k)
  }

  /** The last message in this order that says something about a key. */
  function LastSpeaker(history: seq<Rows>, messages: seq<Message>, order: seq<nat>, k: string): Option<nat>
    requires InRange(order, |messages|) && |history| == |messages| + 1
    ensures LastSpeaker(history, messages, order, k).Some? ==>
              LastSpeaker(history, messages, order, k).value < |messages|
  {
    if order == [] then None
    else if SpeaksOf(history, messages, order[|order| - 1], k) then Some(order[|order| - 1])
    else LastSpeaker(history, messages, order[..|order| - 1], k)
  }

  /** What the last speaker leaves under a key, or the start if nobody speaks of it. */
  function LeftUnder(history: seq<Rows>, messages: seq<Message>, m: Rows, order: seq<nat>, k: string): Option<MarketRow>
    requires InRange(order, |messages|) && |history| == |messages| + 1
  {
    match LastSpeaker(history, messages, order, k)
    case None => Get(m, k)
    case Some(i) => Get(history[i + 1], k)
  }

  lemma LeftUnderLast(history: seq<Rows>, messages: seq<Message>, m: Rows, order: seq<nat>, k: string)
    requires InRange(order, |messages|) && |history| == |messages| + 1 && order != []
    ensures var (init, i) := (order[..|order| - 1], order[|order| - 1]);
            LeftUnder(history, messages, m, order, k)
            == if SpeaksOf(history, messages, i, k) then Get(history[i + 1], k)
               else LeftUnder(history, messages, m, init, k)
  {
  }

  lemma FoldOneAt(history: seq<Rows>, messages: seq<Message>, x: Rows, i: nat, k: string)
    requires Published(history, messages) && i < |messages|
    ensures Get(Fold(x, messages[i]), k)
         == if SpeaksOf(history, messages, i, k) then Get(history[i + 1], k) else Get(x, k)
  {
    assert IsPublished(messages[i], i + 1, messages[i].sourceTs, history[i], history[i + 1]);
    if messages[i].DeltaOf? {
      hide Patch;
      PatchAt(x, history[i], history[i + 1], messages[i].updated, messages[i].removed, k);
    }
  }

  lemma {:induction false} FoldAt(history: seq<Rows>, messages: seq<Message>, m: Rows, order: seq<nat>, k: string)
    requires Published(history, messages) && InRange(order, |messages|)
    ensures Get(FoldAll(m, Pick(messages, order)), k) == LeftUnder(history, messages, m, order, k)
  {
    if order == [] {
    } else {
      var (init, i) := (order[..|order| - 1], order[|order| - 1]);
      LeftUnderLast(history, messages, m, order, k);
      FoldAt(history, messages, m, init, k);
      assert Pick(messages, order)[..|init|] == Pick(messages, init);
      hide Published, Fold, SpeaksOf, LeftUnder;
      FoldOneAt(history, messages, FoldAll(m, Pick(messages, init)), i, k);
    }
  }

  /**
    Messages folded in any order, with any omissions or repetitions, end at the map of n if and only if
    for every key the last message that speaks of it, or the start, says what that map says.
  */
  lemma FoldIsMapIff(history: seq<Rows>, messages: seq<Message>, m: Rows, order: seq<nat>, n: nat)
    requires Published(history, messages) && InRange(order, |messages|) && n < |history|
    ensures FoldAll(m, Pick(messages, order)) == history[n]
       <==> forall k :: LeftUnder(history, messages, m, order, k) == Get(history[n], k)
  {
    assert |history| == |messages| + 1;
    hide Published, FoldAll, LeftUnder;
    var r := FoldAll(m, Pick(messages, order));
    forall k ensures Get(r, k) == LeftUnder(history, messages, m, order, k) {
      FoldAt(history, messages, m, order, k);
    }
    if forall k :: LeftUnder(history, messages, m, order, k) == Get(history[n], k) {
      SameRows(r, history[n]);
    }
  }

  lemma SameRows(a: Rows, b: Rows)
    requires forall k :: Get(a, k) == Get(b, k)
    ensures a == b
  {
    forall k ensures k in a <==> k in b ensures k in a ==> a[k] == b[k] {
      assert Get(a, k) == Get(b, k);
    }
  }

  // ---- folding in the order of the numbers ----

  function Range(lo: nat, hi: nat): (r: seq<nat>)
    requires lo <= hi
    ensures |r| == hi - lo && InRange(r, hi)
  {
    seq(hi - lo, j requires 0 <= j < hi - lo => lo + j)
  }

  /** Messages lo .. hi-1 in order: what they touch is right afterwards, the rest is as it was. */
  lemma {:induction false} RangeLeaves(history: seq<Rows>, messages: seq<Message>, m: Rows, lo: nat, hi: nat, k: string)
    requires Published(history, messages) && lo <= hi < |history|
    ensures var left := LeftUnder(history, messages, m, Range(lo, hi), k);
            left == Get(history[hi], k) || (!TouchedBetween(history, lo, hi, k) && left == Get(m, k))
    decreases hi
  {
    assert |history| == |messages| + 1;
    hide LeftUnder, Published, TouchedBetween, Range;
    if lo == hi {
      NothingLeft(history, messages, m, lo, k);
    } else {
      RangeLeaves(history, messages, m, lo, hi - 1, k);
      RangeLast(lo, hi);
      LeftUnderLast(history, messages, m, Range(lo, hi), k);
      TouchedLast(history, lo, hi, k);
    }
  }

  lemma NothingLeft(history: seq<Rows>, messages: seq<Message>, m: Rows, lo: nat, k: string)
    requires lo <= |messages| && |history| == |messages| + 1
    ensures LeftUnder(history, messages, m, Range(lo, lo), k) == Get(m, k) && !TouchedBetween(history, lo, lo, k)
  {
  }

  lemma RangeLast(lo: nat, hi: nat)
    requires lo < hi
    ensures Range(lo, hi)[hi - lo - 1] == hi - 1 && Range(lo, hi)[..hi - lo - 1] == Range(lo, hi - 1)
  {
  }

  lemma TouchedLast(history: seq<Rows>, lo: nat, hi: nat, k: string)
    requires lo < hi < |history|
    ensures TouchedBetween(history, lo, hi, k)
       <==> TouchedBetween(history, lo, hi - 1, k) || Touches(history[hi - 1], history[hi], k)
  {
  }

  /**
    A snapshot at s followed by the messages k..n, which may start before s, ends at the map of n:
    deltas that are replayed over newer rows do no harm, because the later ones repair what they undo.
  */
  lemma OverlappingReplay(history: seq<Rows>, messages: seq<Message>, s: nat, lo: nat, n: nat)
    requires Published(history, messages) && lo <= s <= n < |history|
    ensures FoldAll(history[s], Pick(messages, Range(lo, n))) == history[n]
  {
    FoldIsMapIff(history, messages, history[s], Range(lo, n), n);
    hide FoldAll, LeftUnder, Published, Pick, Range;
    forall k ensures LeftUnder(history, messages, history[s], Range(lo, n), k) == Get(history[n], k) {
      RangeLeaves(history, messages, history[s], lo, n, k);
      if !TouchedBetween(history, lo, n, k) {
        assert !TouchedBetween(history, s, n, k);
        UntouchedSame(history, s, n, k);
      }
    }
  }

  // ---- publishers and one client, interleaved ----

  /**
    A receiver stands at a position in the messages as sent. It is live once a snapshot was read: `at` is
    the number of that snapshot and `base` the receiver's position when it was read.
  */
  datatype Client =
    | Away
    | Waiting(pos: nat)
    | Live(pos: nat, base: nat, at: nat, markets: Rows)

  /** Messages are numbered under the lock and sent after it is released: `sent` lists them as sent. */
  datatype State = State(history: seq<Rows>, messages: seq<Message>, sent: seq<nat>, client: Client)

  const START: State := State([map[]], [], [], Away)

  /**
    A receiver that falls behind loses messages. The channel also carries status messages, so how many
    of the numbered ones it loses is open.
  */
  datatype Step =
    | Publish(after: Rows, message: Message)
    | Send(i: nat)
    | Subscribe
    | ReadSnapshot
    | Receive
    | Lag(to: nat)

  ghost function Next(s: State, step: Step): State {
    match step
    case Publish(after, m) =>
      if s.history != [] && KeyedBySymbol(after)
         && IsPublished(m, |s.history|, m.sourceTs, s.history[|s.history| - 1], after)
      then s.(history := s.history + [after], messages := s.messages + [m]) else s
    case Send(i) => if i < |s.messages| && i !in s.sent then s.(sent := s.sent + [i]) else s
    case Subscribe => if s.client.Away? then s.(client := Waiting(|s.sent|)) else s
    case ReadSnapshot =>
      if s.client.Waiting? && s.history != [] then
        s.(client := Live(s.client.pos, s.client.pos, |s.history| - 1, s.history[|s.history| - 1]))
      else s
    case Receive =>
      if !s.client.Live? || |s.sent| <= s.client.pos || s.sent[s.client.pos] >= |s.messages| then s
      else
        var message := s.messages[s.sent[s.client.pos]];
        s.(client := s.client.(pos := s.client.pos + 1, markets := Fold(s.client.markets, message)))
    case Lag(to) =>
      if s.client.Live? && s.client.pos < to <= |s.sent| then s.(client := Waiting(to)) else s
  }

  /** What a client does: join at the end of what was sent, read the map, receive in order, or lose some. */
  lemma ClientSteps(s: State, to: nat)
    ensures s.client == Away ==> Next(s, Subscribe).client == Waiting(|s.sent|)
    ensures s.client.Waiting? && s.history != [] ==>
              var now := |s.history| - 1;
              Next(s, ReadSnapshot).client == Live(s.client.pos, s.client.pos, now, s.history[now])
    ensures s.client.Live? && s.client.pos < |s.sent| && s.sent[s.client.pos] < |s.messages| ==>
              var (c, m) := (s.client, s.messages[s.sent[s.client.pos]]);
              Next(s, Receive).client == Live(c.pos + 1, c.base, c.at, Fold(c.markets, m))
    ensures s.client.Live? && s.client.pos < to <= |s.sent| ==> Next(s, Lag(to)).client == Waiting(to)
  {
    hide Fold, IsPublished;
  }

  ghost function Run(steps: seq<Step>): State {
    if steps == [] then START else Next(Run(steps[..|steps| - 1]), steps[|steps| - 1])
  }

  /** What was sent before the snapshot was read had been published by then. */
  ghost predicate ClientInv(s: State)
    requires InRange(s.sent, |s.messages|)
  {
    match s.client
    case Away => true
    case Waiting(pos) => pos <= |s.sent|
    case Live(pos, base, at, markets) =>
      && base <= pos <= |s.sent| && at < |s.history| && InRange(s.sent[..base], at)
      && markets == FoldAll(s.history[at], Pick(s.messages, s.sent[base..pos]))
  }

  ghost predicate Inv(s: State) {
    Published(s.history, s.messages) && InRange(s.sent, |s.messages|) && ClientInv(s)
  }

  lemma PublishKeepsInv(s: State, step: Step)
    requires Inv(s) && step.Publish?
    ensures Inv(Next(s, step))
  {
    hide IsPublished, FoldAll, KeyedBySymbol;
    if s.client.Live? {
      var order := s.sent[s.client.base..s.client.pos];
      assert Pick(s.messages + [step.message], order) == Pick(s.messages, order);
    }
  }

  lemma SendKeepsInv(s: State, i: nat)
    requires Inv(s)
    ensures Inv(Next(s, Send(i)))
  {
    hide Published, FoldAll, Pick;
    if s.client.Live? {
      assert (s.sent + [i])[s.client.base..s.client.pos] == s.sent[s.client.base..s.client.pos];
      assert (s.sent + [i])[..s.client.base] == s.sent[..s.client.base];
    }
  }

  lemma ReceiveKeepsInv(s: State)
    requires Inv(s)
    ensures Inv(Next(s, Receive))
  {
    hide Published, Fold;
    if s.client.Live? && s.client.pos < |s.sent| {
      var (base, pos) := (s.client.base, s.client.pos);
      assert s.sent[base..pos + 1][..pos - base] == s.sent[base..pos];
      assert Pick(s.messages, s.sent[base..pos + 1])[..pos - base] == Pick(s.messages, s.sent[base..pos]);
    }
  }

  lemma ReadKeepsInv(s: State)
    requires Inv(s)
    ensures Inv(Next(s, ReadSnapshot))
  {
    hide IsPublished;
  }

  lemma NextKeepsInv(s: State, step: Step)
    requires Inv(s)
    ensures Inv(Next(s, step))
  {
    match step
    case Publish(_, _) => PublishKeepsInv(s, step);
    case Send(i) => SendKeepsInv(s, i);
    case Receive => ReceiveKeepsInv(s);
    case ReadSnapshot => ReadKeepsInv(s);
    case _ => hide Published, FoldAll;
  }

  lemma {:induction false} RunKeepsInv(steps: seq<Step>)
    ensures Inv(Run(steps))
  {
    hide Next, Inv;
    if steps == [] {
      StartInv();
    } else {
      RunKeepsInv(steps[..|steps| - 1]);
      NextKeepsInv(Run(steps[..|steps| - 1]), steps[|steps| - 1]);
    }
  }

  lemma StartInv()
    ensures Inv(START)
  {
  }

  /**
    In every interleaving, whatever the order of sending, a live client holds the map of n if and only if
    for every key the last message received that speaks of it, or its snapshot, says what that map says.
  */
  lemma ClientHoldsIff(steps: seq<Step>, n: nat)
    requires Run(steps).client.Live? && n < |Run(steps).history|
    ensures Inv(Run(steps))
    ensures var s := Run(steps);
            var (base, pos, at) := (s.client.base, s.client.pos, s.client.at);
            s.client.markets == s.history[n] <==>
            forall k :: LeftUnder(s.history, s.messages, s.history[at], s.sent[base..pos], k) == Get(s.history[n], k)
  {
    hide Next, Run, FoldAll, LeftUnder;
    RunKeepsInv(steps);
    var s := Run(steps);
    FoldIsMapIff(s.history, s.messages, s.history[s.client.at], s.sent[s.client.base..s.client.pos], n);
  }

  predicate InOrder(sent: seq<nat>) {
    forall j :: 0 <= j < |sent| ==> sent[j] == j
  }

  /**
    When messages are sent in the order of their numbers, then in every interleaving, lags and new
    snapshots included, a client whose position has reached the number of its snapshot holds exactly the
    server's map at that position, and the current one once it has read everything.
  */
  lemma ClientFollowsServer(steps: seq<Step>)
    requires Run(steps).client.Live? && Run(steps).client.at <= Run(steps).client.pos && InOrder(Run(steps).sent)
    ensures var s := Run(steps);
            && s.client.pos < |s.history| && s.client.markets == s.history[s.client.pos]
            && (s.client.pos == |s.messages| ==> s.client.markets == s.history[|s.history| - 1])
  {
    hide Next, Run, FoldAll, Pick, IsPublished;
    RunKeepsInv(steps);
    var s := Run(steps);
    var (base, pos) := (s.client.base, s.client.pos);
    assert base > 0 ==> s.sent[..base][base - 1] == base - 1 < s.client.at;
    assert pos > 0 ==> s.sent[pos - 1] == pos - 1;
    assert s.sent[base..pos] == Range(base, pos);
    OverlappingReplay(s.history, s.messages, s.client.at, base, pos);
  }

  // ---- why the order of sending matters ----

  /** Two publishers number their messages one way round and send them the other way round. */
  function Overtaking(a: MarketRow, b: MarketRow, c: MarketRow): seq<Step> {
    [Publish(map[a.symbol := a], SnapshotOf(1, 0, map[a.symbol := a])), Send(0), Subscribe, ReadSnapshot,
     Publish(map[a.symbol := b], DeltaOf(2, 0, [b], [])), Publish(map[a.symbol := c], DeltaOf(3, 0, [c], [])),
     Send(2), Send(1), Receive, Receive]
  }

  lemma RunUnfolds(steps: seq<Step>, n: nat)
    requires 0 < n <= |steps|
    ensures Run(steps[..n]) == Next(Run(steps[..n - 1]), steps[n - 1])
  {
    assert steps[..n][..n - 1] == steps[..n - 1];
  }

  lemma OvertakingUnfolds(a: MarketRow, b: MarketRow, c: MarketRow)
    ensures var (ma, mb, mc) := (map[a.symbol := a], map[a.symbol := b], map[a.symbol := c]);
            var s1 := Next(START, Publish(ma, SnapshotOf(1, 0, ma)));
            var s4 := Next(Next(Next(s1, Send(0)), Subscribe), ReadSnapshot);
            var s6 := Next(Next(s4, Publish(mb, DeltaOf(2, 0, [b], []))), Publish(mc, DeltaOf(3, 0, [c], [])));
            Run(Overtaking(a, b, c)) == Next(Next(Next(Next(s6, Send(2)), Send(1)), Receive), Receive)
  {
    hide Next;
    var steps := Overtaking(a, b, c);
    assert Run(steps[..0]) == START;
    RunUnfolds(steps, 1);
    RunUnfolds(steps, 2);
    RunUnfolds(steps, 3);
    RunUnfolds(steps, 4);
    RunUnfolds(steps, 5);
    RunUnfolds(steps, 6);
    RunUnfolds(steps, 7);
    RunUnfolds(steps, 8);
    RunUnfolds(steps, 9);
    RunUnfolds(steps, 10);
    assert steps[..10] == steps;
  }

  /** A delta of one changed row, folded over any map with that key alone. */
  lemma OneRow(x: MarketRow, y: MarketRow, z: MarketRow, n: nat)
    requires x.symbol == y.symbol == z.symbol && x != y && n > 1
    ensures IsPublished(DeltaOf(n, 0, [y], []), n, 0, map[x.symbol := x], map[x.symbol := y])
    ensures KeyedBySymbol(map[x.symbol := y])
    ensures Fold(map[x.symbol := z], DeltaOf(n, 0, [y], [])) == map[x.symbol := y]
  {
    assert [y][..0] == [];
    assert PutAll(map[x.symbol := z], [y]) == map[x.symbol := y];
  }

  /**
    So the order is not a mere convenience: a run in which a client that has read everything is left with
    an older row.
  */
  lemma OutOfOrderFoldsGoWrong(a: MarketRow, b: MarketRow, c: MarketRow)
    requires a.symbol == b.symbol == c.symbol && a != b && b != c
    ensures var s := Run(Overtaking(a, b, c));
            && s.client.Live? && s.client.pos == |s.sent| == |s.messages| == 3 && s.client.at == 1
            && s.history == [map[], map[a.symbol := a], map[a.symbol := b], map[a.symbol := c]]
            && s.client.markets == map[a.symbol := b]
  {
    var (ma, mb, mc) := (map[a.symbol := a], map[a.symbol := b], map[a.symbol := c]);
    var (m1, m2, m3) := (SnapshotOf(1, 0, ma), DeltaOf(2, 0, [b], []), DeltaOf(3, 0, [c], []));
    OneRow(a, b, c, 2);
    OneRow(b, c, a, 3);
    assert IsPublished(m1, 1, 0, map[], ma) && KeyedBySymbol(ma);
    hide Run, Next, Fold, IsPublished, KeyedBySymbol, Overtaking;
    OvertakingUnfolds(a, b, c);
    FirstMessage(ma, m1);
    PublishMore([map[], ma], [m1], ma, mb, m2);
    assert [m1] + [m2] == [m1, m2] && [map[], ma] + [mb] == [map[], ma, mb];
    PublishMore([map[], ma, mb], [m1, m2], ma, mc, m3);
    assert [m1, m2] + [m3] == [m1, m2, m3] && [map[], ma, mb] + [mc] == [map[], ma, mb, mc];
    SendAndReceive([map[], ma, mb, mc], m1, m2, m3, ma);
  }

  lemma FirstMessage(ma: Rows, m1: Message)
    requires IsPublished(m1, 1, m1.sourceTs, map[], ma) && KeyedBySymbol(ma)
    ensures Next(Next(Next(Next(START, Publish(ma, m1)), Send(0)), Subscribe), ReadSnapshot)
         == State([map[], ma], [m1], [0], Live(1, 1, 1, ma))
  {
    hide IsPublished, KeyedBySymbol;
    var s1 := Next(START, Publish(ma, m1));
    assert s1 == State([map[], ma], [m1], [], Away);
  }

  lemma PublishMore(history: seq<Rows>, messages: seq<Message>, ma: Rows, after: Rows, m: Message)
    requires |history| > 0 && KeyedBySymbol(after)
    requires IsPublished(m, |history|, m.sourceTs, history[|history| - 1], after)
    ensures Next(State(history, messages, [0], Live(1, 1, 1, ma)), Publish(after, m))
         == State(history + [after], messages + [m], [0], Live(1, 1, 1, ma))
  {
    hide IsPublished, KeyedBySymbol;
  }

  lemma SendAndReceive(history: seq<Rows>, m1: Message, m2: Message, m3: Message, ma: Rows)
    ensures var s6 := State(history, [m1, m2, m3], [0], Live(1, 1, 1, ma));
            Next(Next(Next(Next(s6, Send(2)), Send(1)), Receive), Receive)
            == State(history, [m1, m2, m3], [0, 2, 1], Live(3, 1, 1, Fold(Fold(ma, m3), m2)))
  {
    hide Fold;
    var s6 := State(history, [m1, m2, m3], [0], Live(1, 1, 1, ma));
    var s8 := Next(Next(s6, Send(2)), Send(1));
    assert s8 == State(history, [m1, m2, m3], [0, 2, 1], Live(1, 1, 1, ma));
  }
}
