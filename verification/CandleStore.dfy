/**
  The candle table with its conflict rule (gateway/chart/src/store.rs), and the life of one series on
  top of it: bootstrap, backfills, and the upsert-then-apply step (gateway/chart/src/market.rs).
*/
module CandleStores {
  import opened Base
  import opened Ordered
  import opened Candles

  datatype RowKey = RowKey(productId: nat, granularity: nat, bucket: int)

  type Table = map<RowKey, CandleRow>

  function KeyOf(row: CandleRow): RowKey {
    RowKey(row.productId, row.granularity, row.bucket)
  }

  ghost predicate WellKeyed(t: Table) {
    forall k :: k in t ==> KeyOf(t[k]) == k
  }

  /** On conflict the stored row is replaced unless its submission is newer. */
  function UpsertRow(t: Table, row: CandleRow): Table {
    var k := KeyOf(row);
    if k in t && !(t[k].submissionIdx <= row.submissionIdx) then t else t[k := row]
  }

  function UpsertAll(t: Table, rows: seq<CandleRow>): Table {
    if rows == [] then t else UpsertRow(UpsertAll(t, rows[..|rows| - 1]), rows[|rows| - 1])
  }

  datatype Series = Series(symbol: string, productId: nat, granularity: nat)

  /** The rows that loading a series selects, by bucket; the symbol is a filter, not part of the key. */
  function Selected(t: Table, s: Series): (m: map<int, CandleRow>) {
    map k | k in t && k.productId == s.productId && k.granularity == s.granularity && t[k].symbol == s.symbol
      :: k.bucket := t[k]
  }

  /** The newest `limit` rows of a series, oldest first. */
  function LoadRecent(t: Table, s: Series, limit: nat): seq<CandleRow> {
    Suffix(RowsOf(Selected(t, s)), limit)
  }

  class CandleStore {
    var table: Table

    constructor ()
      ensures table == map[]
    {
      table := map[];
    }

    /** All rows are written in one transaction. */
    method UpsertMany(rows: seq<CandleRow>)
      modifies this
      ensures table == UpsertAll(old(table), rows)
    {
      ghost var before := table;
      for i := 0 to |rows|
        invariant table == UpsertAll(before, rows[..i])
      {
        assert rows[..i + 1][..i] == rows[..i];
        var k := KeyOf(rows[i]);
        if k !in table || table[k].submissionIdx <= rows[i].submissionIdx {
          table := table[k := rows[i]];
        }
      }
      assert rows[..|rows|] == rows;
    }

    /** Newest first up to the limit, then reversed. */
    method LoadRecentRows(s: Series, limit: nat) returns (rows: seq<CandleRow>)
      ensures rows == LoadRecent(table, s, limit)
    {
      rows := TakeNewest(RowsOf(Selected(table, s)), limit);
    }
  }

  // ---- newest submission wins ----

  ghost predicate Wins(rows: seq<CandleRow>, i: int)
    requires 0 <= i < |rows|
  {
    forall j :: 0 <= j < |rows| && KeyOf(rows[j]) == KeyOf(rows[i]) ==>
      rows[j].submissionIdx <= rows[i].submissionIdx && (rows[j].submissionIdx == rows[i].submissionIdx ==> j <= i)
  }

  lemma {:induction false} SomeoneWins(rows: seq<CandleRow>, k: RowKey) returns (w: Option<nat>)
    ensures w.None? <==> forall i :: 0 <= i < |rows| ==> KeyOf(rows[i]) != k
    ensures w.Some? ==> w.value < |rows| && KeyOf(rows[w.value]) == k && Wins(rows, w.value)
  {
    if rows == [] {
      w := None;
    } else {
      var (init, last) := (rows[..|rows| - 1], rows[|rows| - 1]);
      w := SomeoneWins(init, k);
      assert forall i :: 0 <= i < |init| ==> rows[i] == init[i];
      if KeyOf(last) == k && (w.None? || init[w.value].submissionIdx <= last.submissionIdx) {
        w := Some(|rows| - 1);
      }
    }
  }

  /** What a batch leaves under a key: the winning row, unless the stored one has a newer submission. */
  function AfterWinner(stored: Option<CandleRow>, row: CandleRow): CandleRow {
    if stored.Some? && row.submissionIdx < stored.value.submissionIdx then stored.value else row
  }

  function Stored(t: Table, k: RowKey): Option<CandleRow> {
    if k in t then Some(t[k]) else None
  }

  lemma {:induction false} UpsertAllAt(t: Table, rows: seq<CandleRow>, k: RowKey)
    ensures (forall i :: 0 <= i < |rows| ==> KeyOf(rows[i]) != k) ==> Stored(UpsertAll(t, rows), k) == Stored(t, k)
    ensures forall i :: 0 <= i < |rows| && KeyOf(rows[i]) == k && Wins(rows, i) ==>
              Stored(UpsertAll(t, rows), k) == Some(AfterWinner(Stored(t, k), rows[i]))
  {
    if rows == [] {
    } else {
      var (init, last) := (rows[..|rows| - 1], rows[|rows| - 1]);
      UpsertAllAt(t, init, k);
      UpsertRowAt(UpsertAll(t, init), last, k);
      assert forall i :: 0 <= i < |init| ==> rows[i] == init[i];
      forall i | 0 <= i < |rows| && KeyOf(rows[i]) == k && Wins(rows, i)
        ensures Stored(UpsertAll(t, rows), k) == Some(AfterWinner(Stored(t, k), rows[i]))
      {
        WinnerStays(rows, i, k, Stored(t, k), Stored(UpsertAll(t, init), k));
      }
    }
  }

  /** One more row: either it wins, or the winner so far does. */
  lemma WinnerStays(rows: seq<CandleRow>, i: nat, k: RowKey, stored: Option<CandleRow>, now: Option<CandleRow>)
    requires i < |rows| && KeyOf(rows[i]) == k && Wins(rows, i)
    requires var init := rows[..|rows| - 1];
             && ((forall j :: 0 <= j < |init| ==> KeyOf(init[j]) != k) ==> now == stored)
             && (forall j :: 0 <= j < |init| && KeyOf(init[j]) == k && Wins(init, j) ==>
                   now == Some(AfterWinner(stored, init[j])))
    ensures var last := rows[|rows| - 1];
            Some(AfterWinner(stored, rows[i])) == if KeyOf(last) == k then Some(AfterWinner(now, last)) else now
  {
    var init := rows[..|rows| - 1];
    if i < |init| {
      WinsBefore(rows, i);
      assert init[i] == rows[i];
    } else {
      var w := SomeoneWins(init, k);
      if w.Some? {
        assert init[w.value] == rows[w.value];
        LastBeats(rows, w.value);
      }
    }
    hide Wins;
  }

  lemma UpsertRowAt(t: Table, row: CandleRow, k: RowKey)
    ensures Stored(UpsertRow(t, row), k)
         == if KeyOf(row) == k then Some(AfterWinner(Stored(t, k), row)) else Stored(t, k)
  {
  }

  lemma WinsBefore(rows: seq<CandleRow>, i: nat)
    requires i + 1 < |rows| && Wins(rows, i)
    ensures Wins(rows[..|rows| - 1], i)
    ensures KeyOf(rows[|rows| - 1]) == KeyOf(rows[i]) ==> rows[|rows| - 1].submissionIdx < rows[i].submissionIdx
  {
  }

  lemma LastBeats(rows: seq<CandleRow>, w: nat)
    requires w + 1 < |rows| && Wins(rows, |rows| - 1) && KeyOf(rows[w]) == KeyOf(rows[|rows| - 1])
    ensures rows[w].submissionIdx <= rows[|rows| - 1].submissionIdx
  {
  }

  /** Each bucket holds the row with the greatest submission, and the latest of those. */
  lemma NewestWins(rows: seq<CandleRow>, k: RowKey)
    ensures k in UpsertAll(map[], rows) <==> exists i :: 0 <= i < |rows| && KeyOf(rows[i]) == k
    ensures k in UpsertAll(map[], rows) ==>
              exists i :: 0 <= i < |rows| && KeyOf(rows[i]) == k && Wins(rows, i)
                          && UpsertAll(map[], rows)[k] == rows[i]
  {
    hide UpsertAll, Wins;
    UpsertAllAt(map[], rows, k);
    var w := SomeoneWins(rows, k);
  }

  // ---- the life of a series ----

  datatype Config = Config(series: Series, historyLimit: nat, cacheCapacity: nat) {
    /** What Config::from_env guarantees: at least 50 rows of history, and room for all of it. */
    predicate Valid() {
      1 <= historyLimit <= cacheCapacity
    }
  }

  /** How far a backfill got before an error, if any. */
  datatype BackfillResult = FetchFailed | UpsertFailed | LoadFailed | Completed

  datatype Event =
    | Backfill(fetched: seq<CandleRow>, result: BackfillResult)
    | Update(row: CandleRow, stored: bool)
    | OtherWrite(rows: seq<CandleRow>)

  datatype System = System(table: Table, cache: seq<CandleRow>)

  /** Bootstrap when every call succeeds: load, fetch only if too little is there, load again. */
  function Bootstrapped(t: Table, fetched: seq<CandleRow>, c: Config): System {
    var rows := LoadRecent(t, c.series, c.historyLimit);
    if |rows| < c.historyLimit && fetched != [] then
      var t' := UpsertAll(t, fetched);
      System(t', Suffix(LoadRecent(t', c.series, c.historyLimit), c.cacheCapacity))
    else
      System(t, Suffix(rows, c.cacheCapacity))
  }

  function Next(s: System, e: Event, c: Config): System {
    match e
    case Backfill(fetched, result) =>
      if result == FetchFailed || fetched == [] || result == UpsertFailed then s
      else
        var t' := UpsertAll(s.table, fetched);
        if result == LoadFailed then s.(table := t')
        else System(t', Suffix(LoadRecent(t', c.series, c.historyLimit), c.cacheCapacity))
    case Update(row, stored) =>
      if !stored then s
      else System(UpsertRow(s.table, row), AfterRow(s.cache, row, c.cacheCapacity))
    case OtherWrite(rows) => s.(table := UpsertAll(s.table, rows))
  }

  function Run(s: System, events: seq<Event>, c: Config): System {
    if events == [] then s else Next(Run(s, events[..|events| - 1], c), events[|events| - 1], c)
  }

  /** The row is in the table unless a newer one was, and nothing else has changed. */
  ghost predicate StoredRow(before: Table, after: Table, row: CandleRow) {
    var k := KeyOf(row);
    && k in after
    && after[k] == (if k in before && row.submissionIdx < before[k].submissionIdx then before[k] else row)
    && after.Keys == before.Keys + {k}
    && forall other :: other in before && other != k ==> after[other] == before[other]
  }

  /** The row is cached exactly if it is admitted; others stay, but for the oldest one of a full cache. */
  ghost predicate CachedRow(before: seq<CandleRow>, after: seq<CandleRow>, row: CandleRow, capacity: nat) {
    && Sorted(after) && |after| <= capacity
    && (row in after <==> Admitted(before, row))
    && (!Admitted(before, row) ==> after == before)
    && (forall r :: r in after ==> r == row || r in before)
    && (forall j :: 0 <= j < |before| && before[j].bucket != row.bucket && (j > 0 || |before| < capacity) ==>
          before[j] in after)
  }

  /** What one live candle does: it is stored and cached by the rule of its own, unless storing fails. */
  lemma UpdateMeaning(s: System, row: CandleRow, c: Config)
    requires c.Valid() && Sorted(s.cache) && |s.cache| <= c.cacheCapacity
    ensures var after := Next(s, Update(row, true), c);
            StoredRow(s.table, after.table, row) && CachedRow(s.cache, after.cache, row, c.cacheCapacity)
    ensures Next(s, Update(row, false), c) == s
  {
    hide UpsertRow, AfterRow, StoredRow, CachedRow, Sorted;
    UpsertRowStores(s.table, row);
    AfterRowCaches(s.cache, row, c.cacheCapacity);
  }

  lemma UpsertRowStores(t: Table, row: CandleRow)
    ensures StoredRow(t, UpsertRow(t, row), row)
  {
  }

  lemma AfterRowCaches(cache: seq<CandleRow>, row: CandleRow, capacity: nat)
    requires Sorted(cache) && |cache| <= capacity && capacity >= 1
    ensures CachedRow(cache, AfterRow(cache, row, capacity), row, capacity)
  {
    hide AfterRow, KeepsFrom, Sorted, Admitted;
    RowCachedIff(cache, row, capacity);
    AfterRowMeaning(cache, row, capacity);
    forall j | 0 <= j < |cache| && cache[j].bucket != row.bucket && (j > 0 || |cache| < capacity)
      ensures cache[j] in AfterRow(cache, row, capacity)
    {
      OtherRowsStay(cache, row, capacity, j);
    }
  }

  /** A backfill that gets nothing, or cannot store it, changes nothing; one that cannot load stores and stops. */
  lemma FailedBackfillMeaning(s: System, fetched: seq<CandleRow>, c: Config)
    ensures Next(s, Backfill(fetched, FetchFailed), c) == s
    ensures Next(s, Backfill(fetched, UpsertFailed), c) == s
    ensures forall result :: Next(s, Backfill([], result), c) == s
    ensures fetched != [] ==>
              Next(s, Backfill(fetched, LoadFailed), c) == System(UpsertAll(s.table, fetched), s.cache)
    ensures Next(s, OtherWrite(fetched), c) == System(UpsertAll(s.table, fetched), s.cache)
  {
    hide LoadRecent, AfterRow;
  }

  class SeriesHandle {
    const config: Config
    const store: CandleStore
    const state: SeriesState

    ghost function View(): System
      reads store, state
    {
      System(store.table, state.candles)
    }

    constructor (config: Config, store: CandleStore)
      ensures this.config == config && this.store == store && fresh(state) && state.candles == []
    {
      this.config, this.store := config, store;
      state := new SeriesState();
    }

    /** The archive rows are an input; the store may already hold rows of this and other series. */
    method Bootstrap(fetched: seq<CandleRow>)
      modifies store, state
      ensures View() == Bootstrapped(old(store.table), fetched, config)
    {
      var rows := store.LoadRecentRows(config.series, config.historyLimit);
      if |rows| < config.historyLimit {
        if fetched != [] {
          store.UpsertMany(fetched);
          rows := store.LoadRecentRows(config.series, config.historyLimit);
        }
      }
      state.ReplaceAll(rows, config.cacheCapacity);
    }

    method BackfillFromArchive(fetched: seq<CandleRow>, result: BackfillResult)
      modifies store, state
      ensures View() == Next(old(View()), Backfill(fetched, result), config)
    {
      if result == FetchFailed || fetched == [] || result == UpsertFailed {
        return;
      }
      store.UpsertMany(fetched);
      if result == LoadFailed {
        return;
      }
      var rows := store.LoadRecentRows(config.series, config.historyLimit);
      state.ReplaceAll(rows, config.cacheCapacity);
    }

    /** Store first, then cache; the flag says whether subscribers are told. */
    method UpsertThenApply(row: CandleRow) returns (changed: bool)
      requires config.Valid() && Sorted(state.candles) && |state.candles| <= config.cacheCapacity
      modifies store, state
      ensures View() == Next(old(View()), Update(row, true), config)
      ensures StoredRow(old(store.table), store.table, row)
      ensures CachedRow(old(state.candles), state.candles, row, config.cacheCapacity)
      ensures changed <==> row in state.candles
    {
      store.UpsertMany([row]);
      assert [row][..0] == [];
      assert UpsertAll(old(store.table), [row]) == UpsertRow(old(store.table), row);
      UpdateMeaning(old(View()), row, config);
      changed := state.ApplyRow(row, config.cacheCapacity);
    }
  }

  // ---- the cache is a tail of the table ----

  /** Exactly the rows from the cache's oldest bucket upwards, in order; empty only with the table. */
  ghost predicate IsTail(cache: seq<CandleRow>, m: map<int, CandleRow>) {
    && Sorted(cache)
    && (forall i :: 0 <= i < |cache| ==> cache[i].bucket in m && m[cache[i].bucket] == cache[i])
    && (forall b :: b in m && cache != [] && cache[0].bucket <= b ==> HasBucket(cache, b))
    && (cache == [] ==> m == map[])
  }

  /** Every cached row is still in the table, possibly superseded there. */
  ghost predicate IsBehind(cache: seq<CandleRow>, m: map<int, CandleRow>) {
    && Sorted(cache)
    && (forall i :: 0 <= i < |cache| ==>
          cache[i].bucket in m && cache[i].submissionIdx <= m[cache[i].bucket].submissionIdx)
  }

  /** The product is known to the table by one symbol only. */
  ghost predicate OneSymbol(rows: seq<CandleRow>, s: Series) {
    forall i :: 0 <= i < |rows| && rows[i].productId == s.productId ==> rows[i].symbol == s.symbol
  }

  ghost predicate OneSymbolTable(t: Table, s: Series) {
    WellKeyed(t) && forall k :: k in t && k.productId == s.productId ==> t[k].symbol == s.symbol
  }

  predicate Belongs(row: CandleRow, s: Series) {
    row.productId == s.productId && row.granularity == s.granularity
  }

  /** Loading a series sees exactly the rows of its product, granularity and symbol, by their buckets. */
  lemma SelectedMeaning(t: Table, s: Series, row: CandleRow)
    requires WellKeyed(t)
    ensures RowIn(Selected(t, s), row.bucket) == Some(row)
       <==> (row.productId == s.productId && row.granularity == s.granularity && row.symbol == s.symbol
             && Stored(t, KeyOf(row)) == Some(row))
  {
  }

  lemma SelectedAt(t: Table, s: Series, b: int)
    requires OneSymbolTable(t, s)
    ensures var k := RowKey(s.productId, s.granularity, b);
            && (b in Selected(t, s) <==> k in t)
            && (k in t ==> Selected(t, s)[b] == t[k])
    ensures Keyed(Selected(t, s))
  {
  }

  /** The newest rows of a map are a tail of it. */
  lemma SuffixIsTail(m: map<int, CandleRow>, n: nat)
    requires Keyed(m) && n >= 1
    ensures IsTail(Suffix(RowsOf(m), n), m)
  {
    RowsOfLists(m);
    hide RowsOf;
    assert RowsOf(m) == [] ==> m == map[];
    TailOfTail(RowsOf(m), m, n);
  }

  lemma TailOfTail(rows: seq<CandleRow>, m: map<int, CandleRow>, n: nat)
    requires IsTail(rows, m) && n >= 1
    ensures IsTail(Suffix(rows, n), m)
  {
  }

  /** A tail is the newest rows, as many as it has. */
  lemma TailIsSuffix(cache: seq<CandleRow>, m: map<int, CandleRow>)
    requires IsTail(cache, m) && Keyed(m)
    ensures |cache| <= |RowsOf(m)| && cache == Suffix(RowsOf(m), |cache|)
  {
    hide RowsOf;
    RowsOfLists(m);
    TailIsSuffixOf(RowsOf(m), cache, m);
  }

  lemma TailIsSuffixOf(rows: seq<CandleRow>, cache: seq<CandleRow>, m: map<int, CandleRow>)
    requires IsTail(cache, m) && Keyed(m) && Lists(rows, m)
    ensures |cache| <= |rows| && cache == Suffix(rows, |cache|)
  {
    hide RowsOf, Lists, IsTail, FromBucket, Keyed, HasBucket;
    if cache != [] {
      FrontInTable(cache, m);
      var k := IndexOf(rows, m, cache[0].bucket);
      TailListsFrom(cache, m);
      DropLists(rows, m, k);
      SameLists(cache, rows[k..], FromBucket(m, cache[0].bucket));
      DropIsSuffix(rows, k, cache);
    }
  }

  lemma SameLists(a: seq<CandleRow>, b: seq<CandleRow>, m: map<int, CandleRow>)
    requires Lists(a, m) && Lists(b, m) && Keyed(m)
    ensures a == b
  {
    hide RowsOf, Lists;
    ListsIsRowsOf(a, m);
    ListsIsRowsOf(b, m);
  }

  lemma DropIsSuffix(rows: seq<CandleRow>, k: nat, cache: seq<CandleRow>)
    requires k <= |rows| && cache == rows[k..]
    ensures |cache| <= |rows| && cache == Suffix(rows, |cache|)
  {
  }

  lemma FrontInTable(cache: seq<CandleRow>, m: map<int, CandleRow>)
    requires IsTail(cache, m) && cache != []
    ensures cache[0].bucket in m && m[cache[0].bucket] == cache[0]
  {
  }

  lemma IndexOf(rows: seq<CandleRow>, m: map<int, CandleRow>, b: int) returns (k: nat)
    requires Lists(rows, m) && b in m
    ensures k < |rows| && rows[k].bucket == b
  {
    assert HasBucket(rows, b);
    k :| 0 <= k < |rows| && rows[k].bucket == b;
  }

  function FromBucket(m: map<int, CandleRow>, front: int): map<int, CandleRow> {
    map b | b in m && front <= b :: m[b]
  }

  lemma TailListsFrom(cache: seq<CandleRow>, m: map<int, CandleRow>)
    requires IsTail(cache, m) && cache != [] && Keyed(m)
    ensures Lists(cache, FromBucket(m, cache[0].bucket)) && Keyed(FromBucket(m, cache[0].bucket))
  {
  }

  lemma DropLists(rows: seq<CandleRow>, m: map<int, CandleRow>, k: nat)
    requires Lists(rows, m) && k < |rows|
    ensures Lists(rows[k..], FromBucket(m, rows[k].bucket))
  {
  }

  /** The step on a tail: table and cache take the row by the same rule. */
  lemma TailAfterRow(cache: seq<CandleRow>, m: map<int, CandleRow>, row: CandleRow, capacity: nat)
    requires IsTail(cache, m) && Keyed(m) && capacity >= 1
    ensures IsTail(AfterRow(cache, row, capacity), Upsert(m, row))
  {
    hide RowsOf, TableOf, Lists, IsTail, Upsert, Keyed;
    if cache == [] || cache[0].bucket <= row.bucket {
      RowsAfter(cache, m, row);
      var (t, rows) := (TableOf(cache), RowsOf(Upsert(TableOf(cache), row)));
      WholeTail(cache, m, t, row, rows);
      TailOfTail(rows, Upsert(m, row), capacity);
    } else {
      OlderRowKeepsTail(cache, m, row);
    }
  }

  lemma RowsAfter(cache: seq<CandleRow>, m: map<int, CandleRow>, row: CandleRow)
    requires IsTail(cache, m)
    ensures Lists(cache, TableOf(cache))
    ensures Lists(RowsOf(Upsert(TableOf(cache), row)), Upsert(TableOf(cache), row))
  {
    hide RowsOf, TableOf, Lists;
    TableOfLists(cache);
    RowsOfLists(Upsert(TableOf(cache), row));
  }

  /** A row older than the front changes the table below the tail only. */
  lemma OlderRowKeepsTail(cache: seq<CandleRow>, m: map<int, CandleRow>, row: CandleRow)
    requires IsTail(cache, m) && cache != [] && row.bucket < cache[0].bucket
    ensures IsTail(cache, Upsert(m, row))
  {
  }

  lemma WholeTail(cache: seq<CandleRow>, m: map<int, CandleRow>, t: map<int, CandleRow>, row: CandleRow,
                  rows: seq<CandleRow>)
    requires IsTail(cache, m) && Lists(cache, t) && (cache == [] || cache[0].bucket <= row.bucket)
    requires Lists(rows, Upsert(t, row))
    ensures IsTail(rows, Upsert(m, row))
  {
    CachedOrNot(cache, m, t, row.bucket);
    assert HasBucket(rows, row.bucket);
    FrontKept(cache, t, row, rows);
    forall i | 0 <= i < |rows|
      ensures rows[i].bucket in Upsert(m, row) && Upsert(m, row)[rows[i].bucket] == rows[i]
    {
      CachedFrom(cache, m, t, row, rows, rows[i].bucket);
    }
    forall b | b in Upsert(m, row) && rows[0].bucket <= b ensures HasBucket(rows, b) {
      CachedFrom(cache, m, t, row, rows, b);
    }
  }

  lemma CachedFrom(cache: seq<CandleRow>, m: map<int, CandleRow>, t: map<int, CandleRow>, row: CandleRow,
                   rows: seq<CandleRow>, b: int)
    requires IsTail(cache, m) && Lists(cache, t) && (cache == [] || cache[0].bucket <= row.bucket)
    requires Lists(rows, Upsert(t, row)) && rows != [] && rows[0].bucket <= b
    ensures b in Upsert(m, row) <==> b in Upsert(t, row)
    ensures b in Upsert(m, row) ==> Upsert(m, row)[b] == Upsert(t, row)[b]
  {
  }

  lemma CachedOrNot(cache: seq<CandleRow>, m: map<int, CandleRow>, t: map<int, CandleRow>, b: int)
    requires IsTail(cache, m) && Lists(cache, t) && (cache == [] || cache[0].bucket <= b)
    ensures b in m <==> b in t
    ensures b in m ==> m[b] == t[b]
  {
  }

  lemma FrontKept(cache: seq<CandleRow>, t: map<int, CandleRow>, row: CandleRow, rows: seq<CandleRow>)
    requires Lists(cache, t) && Lists(rows, Upsert(t, row)) && rows != []
    requires cache == [] || cache[0].bucket <= row.bucket
    ensures cache != [] ==> rows[0].bucket >= cache[0].bucket
  {
  }

  /** The cache serves what loading from the table would, as far as it reaches. */
  lemma SnapshotServesTable(cache: seq<CandleRow>, t: Table, s: Series, limit: nat)
    requires IsTail(cache, Selected(t, s)) && Keyed(Selected(t, s))
    ensures Suffix(cache, limit) == LoadRecent(t, s, Min(limit, |cache|))
  {
    hide RowsOf, Selected;
    TailIsSuffix(cache, Selected(t, s));
  }

  // ---- what writes do to a series ----

  lemma UpsertRowOneSymbol(t: Table, row: CandleRow, s: Series)
    requires OneSymbolTable(t, s) && (row.productId == s.productId ==> row.symbol == s.symbol)
    ensures OneSymbolTable(UpsertRow(t, row), s)
  {
  }

  lemma UpsertRowSelected(t: Table, row: CandleRow, s: Series)
    requires OneSymbolTable(t, s) && (row.productId == s.productId ==> row.symbol == s.symbol)
    ensures OneSymbolTable(UpsertRow(t, row), s)
    ensures Selected(UpsertRow(t, row), s) == if Belongs(row, s) then Upsert(Selected(t, s), row) else Selected(t, s)
  {
    var t' := UpsertRow(t, row);
    var m := Selected(t', s);
    var m' := if Belongs(row, s) then Upsert(Selected(t, s), row) else Selected(t, s);
    UpsertRowOneSymbol(t, row, s);
    hide Selected, OneSymbolTable;
    SelectedAt(t, s, row.bucket);
    forall b ensures b in m <==> b in m' ensures b in m ==> m[b] == m'[b] {
      SelectedAt(t, s, b);
      SelectedAt(t', s, b);
    }
  }

  /** Rows only ever get newer. */
  ghost predicate NotOlder(m: map<int, CandleRow>, m': map<int, CandleRow>) {
    forall b :: b in m ==> b in m' && m[b].submissionIdx <= m'[b].submissionIdx
  }

  lemma {:induction false} UpsertAllSelected(t: Table, rows: seq<CandleRow>, s: Series)
    requires OneSymbolTable(t, s) && OneSymbol(rows, s)
    ensures OneSymbolTable(UpsertAll(t, rows), s)
    ensures NotOlder(Selected(t, s), Selected(UpsertAll(t, rows), s))
    ensures (forall i :: 0 <= i < |rows| ==> !Belongs(rows[i], s)) ==> Selected(UpsertAll(t, rows), s) == Selected(t, s)
  {
    if rows == [] {
    } else {
      var (init, last) := (rows[..|rows| - 1], rows[|rows| - 1]);
      hide Selected, OneSymbolTable, UpsertRow;
      UpsertAllSelected(t, init, s);
      UpsertRowSelected(UpsertAll(t, init), last, s);
      UpsertNotOlder(Selected(t, s), Selected(UpsertAll(t, init), s), last);
      hide NotOlder, Upsert;
    }
  }

  lemma UpsertNotOlder(m: map<int, CandleRow>, m': map<int, CandleRow>, row: CandleRow)
    requires NotOlder(m, m')
    ensures NotOlder(m, Upsert(m', row))
  {
  }

  // ---- the invariant over whole lives ----

  /** Own updates carry the series' own names; other writers stay off its rows and respect its symbol. */
  ghost predicate HonestEvent(e: Event, s: Series) {
    match e
    case Backfill(fetched, _) => OneSymbol(fetched, s)
    case Update(row, _) => Belongs(row, s) && row.symbol == s.symbol
    case OtherWrite(rows) => OneSymbol(rows, s) && forall i :: 0 <= i < |rows| ==> !Belongs(rows[i], s)
  }

  ghost predicate Sound(sys: System, c: Config) {
    && OneSymbolTable(sys.table, c.series)
    && |sys.cache| <= c.cacheCapacity
    && IsBehind(sys.cache, Selected(sys.table, c.series))
  }

  lemma BehindStays(cache: seq<CandleRow>, m: map<int, CandleRow>, m': map<int, CandleRow>)
    requires IsBehind(cache, m) && NotOlder(m, m')
    ensures IsBehind(cache, m')
  {
  }

  lemma TailIsBehind(cache: seq<CandleRow>, m: map<int, CandleRow>)
    requires IsTail(cache, m)
    ensures IsBehind(cache, m)
  {
  }

  lemma BehindAfterRow(cache: seq<CandleRow>, m: map<int, CandleRow>, row: CandleRow, capacity: nat)
    requires IsBehind(cache, m)
    ensures IsBehind(AfterRow(cache, row, capacity), Upsert(m, row))
  {
    if cache == [] || cache[0].bucket <= row.bucket {
      TableOfLists(cache);
      RowsOfLists(Upsert(TableOf(cache), row));
      hide RowsOf, TableOf;
      WholeBehind(cache, m, TableOf(cache), row, RowsOf(Upsert(TableOf(cache), row)));
      SuffixBehind(RowsOf(Upsert(TableOf(cache), row)), Upsert(m, row), capacity);
    }
  }

  lemma WholeBehind(cache: seq<CandleRow>, m: map<int, CandleRow>, t: map<int, CandleRow>, row: CandleRow,
                    rows: seq<CandleRow>)
    requires IsBehind(cache, m) && Lists(cache, t) && Lists(rows, Upsert(t, row))
    ensures IsBehind(rows, Upsert(m, row))
  {
  }

  lemma SuffixBehind(rows: seq<CandleRow>, m: map<int, CandleRow>, n: nat)
    requires IsBehind(rows, m)
    ensures IsBehind(Suffix(rows, n), m)
  {
  }

  lemma AfterRowFits(cache: seq<CandleRow>, row: CandleRow, capacity: nat)
    requires |cache| <= capacity
    ensures |AfterRow(cache, row, capacity)| <= capacity
  {
  }

  lemma BootstrapSound(t: Table, fetched: seq<CandleRow>, c: Config)
    requires c.Valid() && OneSymbolTable(t, c.series) && OneSymbol(fetched, c.series)
    ensures Sound(Bootstrapped(t, fetched, c), c)
    ensures IsTail(Bootstrapped(t, fetched, c).cache, Selected(Bootstrapped(t, fetched, c).table, c.series))
  {
    UpsertAllSelected(t, fetched, c.series);
    LoadedIsTail(t, c);
    LoadedIsTail(UpsertAll(t, fetched), c);
    hide RowsOf, Selected, IsTail, IsBehind, LoadRecent;
    TailIsBehind(Bootstrapped(t, fetched, c).cache, Selected(Bootstrapped(t, fetched, c).table, c.series));
  }

  /** Every row written is in the table afterwards, or a newer one of its bucket is; nothing stored gets older. */
  lemma UpsertAllStores(t: Table, rows: seq<CandleRow>, k: RowKey)
    ensures k in t ==> k in UpsertAll(t, rows) && t[k].submissionIdx <= UpsertAll(t, rows)[k].submissionIdx
    ensures forall i :: 0 <= i < |rows| && KeyOf(rows[i]) == k ==>
              k in UpsertAll(t, rows) && rows[i].submissionIdx <= UpsertAll(t, rows)[k].submissionIdx
    ensures k in UpsertAll(t, rows) ==> (k in t && UpsertAll(t, rows)[k] == t[k]) || UpsertAll(t, rows)[k] in rows
  {
    hide UpsertAll, KeyOf;
    var w := SomeoneWins(rows, k);
    UpsertAllAt(t, rows, k);
    if w.Some? {
      WinnerIsNewest(rows, w.value);
      WinnerStored(Stored(t, k), rows[w.value]);
      assert Stored(UpsertAll(t, rows), k) == Some(AfterWinner(Stored(t, k), rows[w.value]));
    }
    hide Wins, AfterWinner;
  }

  lemma WinnerIsNewest(rows: seq<CandleRow>, w: nat)
    requires w < |rows| && Wins(rows, w)
    ensures forall i :: 0 <= i < |rows| && KeyOf(rows[i]) == KeyOf(rows[w]) ==>
              rows[i].submissionIdx <= rows[w].submissionIdx
  {
  }

  lemma WinnerStored(stored: Option<CandleRow>, row: CandleRow)
    ensures var after := AfterWinner(stored, row);
            && row.submissionIdx <= after.submissionIdx && (after == row || Some(after) == stored)
            && (stored.Some? ==> stored.value.submissionIdx <= after.submissionIdx)
  {
  }

  /** The cache after loading: as many of the table's newest rows as the history limit allows. */
  ghost predicate FreshlyLoaded(sys: System, c: Config) {
    var m := Selected(sys.table, c.series);
    IsTail(sys.cache, m) && |sys.cache| == Min(c.historyLimit, |m|)
  }

  lemma LoadedFresh(t: Table, c: Config)
    requires c.Valid() && OneSymbolTable(t, c.series)
    ensures FreshlyLoaded(System(t, Suffix(LoadRecent(t, c.series, c.historyLimit), c.cacheCapacity)), c)
  {
    SelectedAt(t, c.series, 0);
    LoadedIsTail(t, c);
    RowsOfLists(Selected(t, c.series));
    hide RowsOf, Selected, IsTail;
  }

  /**
    Bootstrap fills the cache with the newest rows up to the history limit; the archive is consulted
    exactly when the table alone could not, and then its rows are in the table.
  */
  lemma BootstrapMeaning(t: Table, fetched: seq<CandleRow>, c: Config)
    requires c.Valid() && OneSymbolTable(t, c.series) && OneSymbol(fetched, c.series)
    ensures var sys := Bootstrapped(t, fetched, c);
            && FreshlyLoaded(sys, c)
            && sys.table == if |Selected(t, c.series)| < c.historyLimit then UpsertAll(t, fetched) else t
  {
    hide FreshlyLoaded, LoadRecent, Selected, Suffix;
    UpsertAllSelected(t, fetched, c.series);
    LoadedFresh(t, c);
    LoadedFresh(UpsertAll(t, fetched), c);
    LoadedCount(t, c);
  }

  lemma LoadedCount(t: Table, c: Config)
    requires OneSymbolTable(t, c.series)
    ensures |LoadRecent(t, c.series, c.historyLimit)| == Min(c.historyLimit, |Selected(t, c.series)|)
  {
    SelectedAt(t, c.series, 0);
    RowsOfLists(Selected(t, c.series));
    hide RowsOf, Selected;
  }

  /** So does a completed backfill, whatever the cache held before. */
  lemma BackfillMeaning(sys: System, fetched: seq<CandleRow>, c: Config)
    requires c.Valid() && OneSymbolTable(sys.table, c.series) && OneSymbol(fetched, c.series) && fetched != []
    ensures var after := Next(sys, Backfill(fetched, Completed), c);
            FreshlyLoaded(after, c) && after.table == UpsertAll(sys.table, fetched)
  {
    hide FreshlyLoaded, LoadRecent, Selected, Suffix;
    UpsertAllSelected(sys.table, fetched, c.series);
    LoadedFresh(UpsertAll(sys.table, fetched), c);
  }

  lemma LoadedIsTail(t: Table, c: Config)
    requires c.Valid() && OneSymbolTable(t, c.series)
    ensures IsTail(Suffix(LoadRecent(t, c.series, c.historyLimit), c.cacheCapacity), Selected(t, c.series))
    ensures |Suffix(LoadRecent(t, c.series, c.historyLimit), c.cacheCapacity)| <= c.cacheCapacity
  {
    SelectedAt(t, c.series, 0);
    hide RowsOf, Selected;
    SuffixIsTail(Selected(t, c.series), c.historyLimit);
  }

  lemma NextSound(sys: System, e: Event, c: Config)
    requires c.Valid() && Sound(sys, c) && HonestEvent(e, c.series)
    ensures Sound(Next(sys, e, c), c)
  {
    hide RowsOf, Selected, IsTail, IsBehind, AfterRow;
    var m := Selected(sys.table, c.series);
    match e
    case Backfill(fetched, result) =>
      var t' := UpsertAll(sys.table, fetched);
      UpsertAllSelected(sys.table, fetched, c.series);
      BehindStays(sys.cache, m, Selected(t', c.series));
      LoadedIsTail(t', c);
      TailIsBehind(Suffix(LoadRecent(t', c.series, c.historyLimit), c.cacheCapacity), Selected(t', c.series));
    case Update(row, stored) =>
      UpsertRowSelected(sys.table, row, c.series);
      BehindAfterRow(sys.cache, m, row, c.cacheCapacity);
      AfterRowFits(sys.cache, row, c.cacheCapacity);
    case OtherWrite(rows) =>
      UpsertAllSelected(sys.table, rows, c.series);
  }

  // ---- when a failed load does harm ----

  /** Buckets that a cache speaks for: from its oldest upwards, and all of them while it is empty. */
  predicate Reaches(cache: seq<CandleRow>, b: int) {
    cache == [] || cache[0].bucket <= b
  }

  /**
    In no bucket that the cache reaches does a fetched row replace the stored one by another: the newest
    fetched row of the bucket is the stored one already, or has an older submission.
  */
  ghost predicate Harmless(cache: seq<CandleRow>, t: Table, fetched: seq<CandleRow>, s: Series) {
    forall i :: 0 <= i < |fetched| && Belongs(fetched[i], s) && Wins(fetched, i) ==>
      Reaches(cache, fetched[i].bucket) ==> Beaten(Stored(t, KeyOf(fetched[i])), fetched[i])
  }

  /** The stored row is the same one, or has a newer submission. */
  predicate Beaten(stored: Option<CandleRow>, row: CandleRow) {
    stored.Some? && (row == stored.value || row.submissionIdx < stored.value.submissionIdx)
  }

  function RowIn(m: map<int, CandleRow>, b: int): Option<CandleRow> {
    if b in m then Some(m[b]) else None
  }

  /** A tail of one map is a tail of a newer one if and only if nothing it reaches has changed. */
  lemma TailIff(cache: seq<CandleRow>, m: map<int, CandleRow>, m': map<int, CandleRow>)
    requires IsTail(cache, m) && NotOlder(m, m')
    ensures IsTail(cache, m') <==> forall b :: Reaches(cache, b) ==> RowIn(m, b) == RowIn(m', b)
  {
    if IsTail(cache, m') {
      forall b | Reaches(cache, b) ensures RowIn(m, b) == RowIn(m', b) {
        if b in m' {
          assert HasBucket(cache, b);
        }
      }
    }
    if forall b :: Reaches(cache, b) ==> RowIn(m, b) == RowIn(m', b) {
      UnchangedTail(cache, m, m');
    }
  }

  lemma UnchangedTail(cache: seq<CandleRow>, m: map<int, CandleRow>, m': map<int, CandleRow>)
    requires IsTail(cache, m) && forall b :: Reaches(cache, b) ==> RowIn(m, b) == RowIn(m', b)
    ensures IsTail(cache, m')
  {
    forall i | 0 <= i < |cache| ensures cache[i].bucket in m' && m'[cache[i].bucket] == cache[i] {
      assert Reaches(cache, cache[i].bucket);
      assert RowIn(m, cache[i].bucket) == RowIn(m', cache[i].bucket);
    }
    forall b | b in m' && Reaches(cache, b) ensures b in m {
      assert RowIn(m, b) == RowIn(m', b);
    }
    if cache == [] {
      forall b ensures b !in m' {
        assert Reaches(cache, b);
        assert RowIn(m, b) == RowIn(m', b);
      }
      assert m' == map[];
    }
  }

  function SeriesKey(s: Series, b: int): RowKey {
    RowKey(s.productId, s.granularity, b)
  }

  lemma SelectedRow(t: Table, s: Series, b: int)
    requires OneSymbolTable(t, s)
    ensures RowIn(Selected(t, s), b) == Stored(t, SeriesKey(s, b))
  {
    SelectedAt(t, s, b);
  }

  lemma BucketKept(t: Table, fetched: seq<CandleRow>, s: Series, b: int) returns (w: Option<nat>)
    ensures w.Some? ==> w.value < |fetched| && Wins(fetched, w.value) && Belongs(fetched[w.value], s)
                        && fetched[w.value].bucket == b
    ensures forall i :: 0 <= i < |fetched| && Wins(fetched, i) && Belongs(fetched[i], s) && fetched[i].bucket == b ==>
              w == Some(i)
    ensures Stored(t, SeriesKey(s, b)) == Stored(UpsertAll(t, fetched), SeriesKey(s, b))
       <==> (w.Some? ==> Beaten(Stored(t, SeriesKey(s, b)), fetched[w.value]))
  {
    var k := SeriesKey(s, b);
    w := SomeoneWins(fetched, k);
    UpsertAllAt(t, fetched, k);
    hide UpsertAll;
  }

  /**
    A load that fails after its upsert leaves the cache a tail of the table if and only if the rows
    fetched were harmless to it.
  */
  lemma LoadFailureKeepsTailIff(cache: seq<CandleRow>, t: Table, fetched: seq<CandleRow>, s: Series)
    requires OneSymbolTable(t, s) && OneSymbol(fetched, s) && IsTail(cache, Selected(t, s))
    ensures IsTail(cache, Selected(UpsertAll(t, fetched), s)) <==> Harmless(cache, t, fetched, s)
  {
    var t' := UpsertAll(t, fetched);
    UpsertAllSelected(t, fetched, s);
    TailIff(cache, Selected(t, s), Selected(t', s));
    hide IsTail, Selected, UpsertAll, OneSymbolTable, NotOlder, Wins;
    forall b ensures RowIn(Selected(t, s), b) == RowIn(Selected(t', s), b) <==> BucketHarmless(t, fetched, s, b) {
      SelectedRow(t, s, b);
      SelectedRow(t', s, b);
      var w := BucketKept(t, fetched, s, b);
    }
    if Harmless(cache, t, fetched, s) {
      assert forall b :: Reaches(cache, b) ==> BucketHarmless(t, fetched, s, b);
    }
    if forall b :: Reaches(cache, b) ==> BucketHarmless(t, fetched, s, b) {
      forall i | 0 <= i < |fetched| && Belongs(fetched[i], s) && Wins(fetched, i) && Reaches(cache, fetched[i].bucket)
        ensures Beaten(Stored(t, KeyOf(fetched[i])), fetched[i])
      {
        assert BucketHarmless(t, fetched, s, fetched[i].bucket);
      }
    }
  }

  /** The same of one bucket. */
  ghost predicate BucketHarmless(t: Table, fetched: seq<CandleRow>, s: Series, b: int) {
    forall i :: 0 <= i < |fetched| && Belongs(fetched[i], s) && Wins(fetched, i) && fetched[i].bucket == b ==>
      Beaten(Stored(t, KeyOf(fetched[i])), fetched[i])
  }

  /** An event that lets the cache fall behind, or one that makes it a tail again. */
  ghost predicate Desyncs(sys: System, e: Event, c: Config) {
    e.Backfill? && e.fetched != [] && e.result == LoadFailed && !Harmless(sys.cache, sys.table, e.fetched, c.series)
  }

  predicate Resyncs(e: Event) {
    e.Backfill? && e.fetched != [] && e.result == Completed
  }

  /** No load has failed after a harmful upsert since the last completed backfill. */
  ghost predicate InSync(start: System, events: seq<Event>, c: Config) {
    events == [] ||
    (var (init, e) := (events[..|events| - 1], events[|events| - 1]);
     !Desyncs(Run(start, init, c), e, c) && (Resyncs(e) || InSync(start, init, c)))
  }

  lemma NextTail(sys: System, e: Event, c: Config)
    requires c.Valid() && Sound(sys, c) && HonestEvent(e, c.series) && !Desyncs(sys, e, c)
    requires Resyncs(e) || IsTail(sys.cache, Selected(sys.table, c.series))
    ensures var after := Next(sys, e, c); IsTail(after.cache, Selected(after.table, c.series))
  {
    match e
    case Backfill(fetched, result) => BackfillTail(sys, fetched, result, c);
    case Update(row, stored) => UpdateTail(sys, row, stored, c);
    case OtherWrite(rows) =>
      hide RowsOf, Selected, IsTail, IsBehind;
      UpsertAllSelected(sys.table, rows, c.series);
  }

  lemma BackfillTail(sys: System, fetched: seq<CandleRow>, result: BackfillResult, c: Config)
    requires c.Valid() && OneSymbolTable(sys.table, c.series) && OneSymbol(fetched, c.series)
    requires !Desyncs(sys, Backfill(fetched, result), c)
    requires Resyncs(Backfill(fetched, result)) || IsTail(sys.cache, Selected(sys.table, c.series))
    ensures var after := Next(sys, Backfill(fetched, result), c); IsTail(after.cache, Selected(after.table, c.series))
  {
    hide RowsOf, Selected, IsTail, Harmless, LoadRecent, Suffix, UpsertAll;
    if fetched != [] && result == LoadFailed {
      LoadFailureKeepsTailIff(sys.cache, sys.table, fetched, c.series);
    } else if fetched != [] && result == Completed {
      UpsertAllSelected(sys.table, fetched, c.series);
      LoadedIsTail(UpsertAll(sys.table, fetched), c);
    }
  }

  lemma UpdateTail(sys: System, row: CandleRow, stored: bool, c: Config)
    requires c.Valid() && Sound(sys, c) && HonestEvent(Update(row, stored), c.series)
    requires IsTail(sys.cache, Selected(sys.table, c.series))
    ensures var after := Next(sys, Update(row, stored), c); IsTail(after.cache, Selected(after.table, c.series))
  {
    SelectedAt(sys.table, c.series, 0);
    hide RowsOf, Selected, IsTail, IsBehind, AfterRow;
    UpsertRowSelected(sys.table, row, c.series);
    TailAfterRow(sys.cache, Selected(sys.table, c.series), row, c.cacheCapacity);
  }

  /**
    After bootstrap and any events, the cache holds no row that the table does not hold at least as new;
    and unless loading failed after a harmful upsert since the last completed backfill, it is exactly the
    table's rows from its own oldest bucket upwards, in order, and empty only if the table is.
  */
  lemma {:induction false} CacheFollowsTable(t: Table, fetched: seq<CandleRow>, events: seq<Event>, c: Config)
    requires c.Valid() && OneSymbolTable(t, c.series) && OneSymbol(fetched, c.series)
    requires forall i :: 0 <= i < |events| ==> HonestEvent(events[i], c.series)
    ensures var sys := Run(Bootstrapped(t, fetched, c), events, c);
            Sound(sys, c)
            && (InSync(Bootstrapped(t, fetched, c), events, c) ==> IsTail(sys.cache, Selected(sys.table, c.series)))
  {
    hide Next, Bootstrapped, Sound, IsTail, HonestEvent, Selected, Harmless;
    if events == [] {
      BootstrapSound(t, fetched, c);
    } else {
      var (init, e) := (events[..|events| - 1], events[|events| - 1]);
      CacheFollowsTable(t, fetched, init, c);
      var sys := Run(Bootstrapped(t, fetched, c), init, c);
      NextSound(sys, e, c);
      if !Desyncs(sys, e, c) && (Resyncs(e) || InSync(Bootstrapped(t, fetched, c), init, c)) {
        NextTail(sys, e, c);
      }
    }
  }

  /** From a state in sync, the next event ends the equality if and only if it is a harmful failed load. */
  lemma SyncEndsIff(t: Table, fetched: seq<CandleRow>, events: seq<Event>, e: Event, c: Config)
    requires c.Valid() && OneSymbolTable(t, c.series) && OneSymbol(fetched, c.series)
    requires (forall i :: 0 <= i < |events| ==> HonestEvent(events[i], c.series)) && HonestEvent(e, c.series)
    requires InSync(Bootstrapped(t, fetched, c), events, c)
    ensures var start := Bootstrapped(t, fetched, c);
            var (sys, after) := (Run(start, events, c), Run(start, events + [e], c));
            IsTail(after.cache, Selected(after.table, c.series)) <==> !Desyncs(sys, e, c)
  {
    hide Bootstrapped, Selected, IsTail, Harmless, HonestEvent, Next, InSync;
    var start := Bootstrapped(t, fetched, c);
    assert (events + [e])[..|events|] == events;
    CacheFollowsTable(t, fetched, events, c);
    var sys := Run(start, events, c);
    if Desyncs(sys, e, c) {
      HarmfulLoad(sys, e, c);
    } else {
      NextTail(sys, e, c);
    }
  }

  lemma HarmfulLoad(sys: System, e: Event, c: Config)
    requires OneSymbolTable(sys.table, c.series) && HonestEvent(e, c.series) && Desyncs(sys, e, c)
    requires IsTail(sys.cache, Selected(sys.table, c.series))
    ensures var after := Next(sys, e, c); !IsTail(after.cache, Selected(after.table, c.series))
  {
    hide Selected, IsTail, Harmless, UpsertAll;
    LoadFailureKeepsTailIff(sys.cache, sys.table, e.fetched, c.series);
  }

  /** Such a state: a load that fails after its upsert leaves a superseded row in the cache. */
  lemma LoadFailureLeavesOldRow(c: Config, first: CandleRow, second: CandleRow)
    requires Belongs(first, c.series) && KeyOf(first) == KeyOf(second) && first.submissionIdx < second.submissionIdx
    requires first.symbol == second.symbol == c.series.symbol
    ensures var sys := System(map[KeyOf(first) := first], [first]);
            var after := Next(sys, Backfill([second], LoadFailed), c);
            && IsTail(sys.cache, Selected(sys.table, c.series))
            && !IsTail(after.cache, Selected(after.table, c.series))
  {
  }
}
