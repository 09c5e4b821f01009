/** The markets cache: merging three sources, diffing, publishing (gateway/markets/src/service.rs). */
module Markets {
  import opened Base

  /** Floating-point fields are opaque values; only finite ones are ever kept by `FiniteOption`. */
  datatype F64 = Finite(value: real) | NonFinite

  datatype MarketRow = MarketRow(
    symbol: string, tickerId: string, productId: nat, marketType: string, base: string, quote: string,
    price: Option<F64>, change24h: Option<F64>, volume24h: Option<F64>, annFunding: Option<F64>,
    fundingRate: Option<F64>, markPrice: Option<F64>, indexPrice: Option<F64>,
    openInterest: Option<F64>, openInterestUsd: Option<F64>, updatedAt: nat, stale: bool)

  datatype SymbolMeta = SymbolMeta(symbol: string, marketType: string, base: string, quote: string, updatedAt: nat)

  datatype TickerMeta = TickerMeta(
    tickerId: string, base: string, quote: string,
    lastPrice: F64, baseVolume: F64, quoteVolume: F64, change24h: F64, updatedAt: nat)

  datatype ContractMeta = ContractMeta(
    tickerId: string, base: string, quote: string, marketType: string, fundingRate: F64, markPrice: F64,
    indexPrice: F64, openInterest: F64, openInterestUsd: F64, updatedAt: nat)

  /** The three polled tables, by product. */
  datatype Sources = Sources(
    symbols: map<nat, SymbolMeta>, tickers: map<nat, TickerMeta>, contracts: map<nat, ContractMeta>)

  /** Staleness threshold and the annualisation of a funding rate. */
  datatype Config = Config(staleAfterMs: nat, annualize: F64 -> F64)

  type Rows = map<string, MarketRow>

  function FiniteOption(v: F64): Option<F64> {
    if v.Finite? then Some(v) else None
  }

  function PreferredVolume(base: F64, quote: F64): Option<F64> {
    if quote.Finite? && quote.value > 0.0 then Some(quote)
    else if base.Finite? && base.value > 0.0 then Some(base)
    else if base.Finite? && !quote.Finite? then Some(base)
    else if !base.Finite? && quote.Finite? then Some(quote)
    else None
  }

  // ---- one row ----

  function BlankRow(symbol: string, tickerId: string, productId: nat, marketType: string, base: string, quote: string,
                    updatedAt: nat): MarketRow {
    MarketRow(symbol, tickerId, productId, marketType, base, quote,
              None, None, None, None, None, None, None, None, None, updatedAt, false)
  }

  function SymbolRow(p: nat, m: SymbolMeta): MarketRow {
    BlankRow(m.symbol, m.symbol, p, m.marketType, m.base, m.quote, m.updatedAt)
  }

  function TickerRow(key: string, p: nat, t: TickerMeta, before: Option<MarketRow>): MarketRow {
    var row := before.GetOr(BlankRow(key, t.tickerId, p, "unknown", t.base, t.quote, t.updatedAt));
    row.(productId := p, tickerId := t.tickerId,
         base := if row.base == "" then t.base else row.base,
         quote := if row.quote == "" then t.quote else row.quote,
         price := FiniteOption(t.lastPrice), change24h := FiniteOption(t.change24h),
         volume24h := PreferredVolume(t.baseVolume, t.quoteVolume),
         updatedAt := Max(row.updatedAt, t.updatedAt))
  }

  function ContractRow(key: string, p: nat, c: ContractMeta, before: Option<MarketRow>, config: Config): MarketRow {
    var row := before.GetOr(BlankRow(key, c.tickerId, p, c.marketType, c.base, c.quote, c.updatedAt));
    row.(productId := p, tickerId := c.tickerId,
         marketType := if row.marketType == "unknown" || row.marketType == "" then c.marketType else row.marketType,
         base := if row.base == "" then c.base else row.base,
         quote := if row.quote == "" then c.quote else row.quote,
         fundingRate := FiniteOption(c.fundingRate),
         annFunding := if c.fundingRate.Finite? then Some(config.annualize(c.fundingRate)) else None,
         markPrice := FiniteOption(c.markPrice), indexPrice := FiniteOption(c.indexPrice),
         openInterest := FiniteOption(c.openInterest), openInterestUsd := FiniteOption(c.openInterestUsd),
         updatedAt := Max(row.updatedAt, c.updatedAt))
  }

  function Finished(row: MarketRow, now: nat, config: Config): MarketRow {
    var updatedAt := if row.updatedAt == 0 then now else row.updatedAt;
    var age := if now >= updatedAt then now - updatedAt else 0;
    row.(tickerId := if row.tickerId == "" then row.symbol else row.tickerId,
         updatedAt := updatedAt, stale := age > config.staleAfterMs)
  }

  // ---- which source rows meet under one key ----

  function KeyOf(src: Sources, p: nat, fallback: string): string {
    if p in src.symbols then src.symbols[p].symbol else fallback
  }

  function SymbolKey(src: Sources, p: nat): string
    requires p in src.symbols
  {
    src.symbols[p].symbol
  }

  function TickerKey(src: Sources, p: nat): string
    requires p in src.tickers
  {
    KeyOf(src, p, src.tickers[p].tickerId)
  }

  function ContractKey(src: Sources, p: nat): string
    requires p in src.contracts
  {
    KeyOf(src, p, src.contracts[p].tickerId)
  }

  /** Within each pass no two products share a row key. */
  ghost predicate KeysInjective(src: Sources) {
    && (forall p, q :: p in src.symbols && q in src.symbols && SymbolKey(src, p) == SymbolKey(src, q) ==> p == q)
    && (forall p, q :: p in src.tickers && q in src.tickers && TickerKey(src, p) == TickerKey(src, q) ==> p == q)
    && (forall p, q :: p in src.contracts && q in src.contracts ==>
          ContractKey(src, p) == ContractKey(src, q) ==> p == q)
  }

  ghost predicate FromSymbol(src: Sources, p: nat, k: string) {
    p in src.symbols && SymbolKey(src, p) == k
  }

  ghost predicate FromTicker(src: Sources, p: nat, k: string) {
    p in src.tickers && TickerKey(src, p) == k
  }

  ghost predicate FromContract(src: Sources, p: nat, k: string) {
    p in src.contracts && ContractKey(src, p) == k
  }

  function Get(m: Rows, k: string): Option<MarketRow> {
    if k in m then Some(m[k]) else None
  }

  ghost function AfterSymbols(src: Sources, seen: set<nat>, k: string): Option<MarketRow> {
    if exists p :: p in seen && FromSymbol(src, p, k) then
      var p :| p in seen && FromSymbol(src, p, k);
      Some(SymbolRow(p, src.symbols[p]))
    else None
  }

  ghost function AfterTickers(src: Sources, seen: set<nat>, k: string): Option<MarketRow> {
    var before := AfterSymbols(src, src.symbols.Keys, k);
    if exists p :: p in seen && FromTicker(src, p, k) then
      var p :| p in seen && FromTicker(src, p, k);
      Some(TickerRow(k, p, src.tickers[p], before))
    else before
  }

  ghost function AfterContracts(src: Sources, seen: set<nat>, k: string, config: Config): Option<MarketRow> {
    var before := AfterTickers(src, src.tickers.Keys, k);
    if exists p :: p in seen && FromContract(src, p, k) then
      var p :| p in seen && FromContract(src, p, k);
      Some(ContractRow(k, p, src.contracts[p], before, config))
    else before
  }

  /** The finished row under a key: a function of the sources alone. */
  ghost function RowFor(src: Sources, k: string, now: nat, config: Config): Option<MarketRow> {
    match AfterContracts(src, src.contracts.Keys, k, config)
    case None => None
    case Some(row) => Some(Finished(row, now, config))
  }

  ghost predicate KeyedBySymbol(m: Rows) {
    forall k :: k in m ==> m[k].symbol == k
  }

  // ---- build_market_rows ----

  method SymbolPass(src: Sources) returns (out: Rows)
    ensures KeyedBySymbol(out)
    ensures KeysInjective(src) ==> forall k :: Get(out, k) == AfterSymbols(src, src.symbols.Keys, k)
  {
    out := map[];
    var rest := src.symbols.Keys;
    ghost var seen: set<nat> := {};
    while rest != {}
      invariant rest <= src.symbols.Keys && seen == src.symbols.Keys - rest
      invariant KeyedBySymbol(out)
      invariant KeysInjective(src) ==> forall k :: Get(out, k) == AfterSymbols(src, seen, k)
      decreases |rest|
    {
      var p :| p in rest;
      rest := rest - {p};
      if KeysInjective(src) {
        SymbolsSeen(src, seen, p);
      }
      seen := seen + {p};
      out := out[SymbolKey(src, p) := SymbolRow(p, src.symbols[p])];
    }
    assert seen == src.symbols.Keys;
  }

  lemma SymbolsSeen(src: Sources, seen: set<nat>, p: nat)
    requires p in src.symbols && p !in seen && seen <= src.symbols.Keys && KeysInjective(src)
    ensures forall k :: AfterSymbols(src, seen + {p}, k) ==
              (if k == SymbolKey(src, p) then Some(SymbolRow(p, src.symbols[p])) else AfterSymbols(src, seen, k))
  {
  }

  method TickerPass(src: Sources, start: Rows) returns (out: Rows)
    requires KeyedBySymbol(start)
    ensures KeyedBySymbol(out)
    ensures KeysInjective(src) && (forall k :: Get(start, k) == AfterSymbols(src, src.symbols.Keys, k))
        ==> forall k :: Get(out, k) == AfterTickers(src, src.tickers.Keys, k)
  {
    hide AfterSymbols, AfterTickers, TickerRow;
    out := start;
    var rest := src.tickers.Keys;
    ghost var seen: set<nat> := {};
    ghost var good := KeysInjective(src) && forall k :: Get(start, k) == AfterSymbols(src, src.symbols.Keys, k);
    NoTickersSeen(src);
    while rest != {}
      invariant rest <= src.tickers.Keys && seen == src.tickers.Keys - rest
      invariant KeyedBySymbol(out)
      invariant good ==> forall k :: Get(out, k) == AfterTickers(src, seen, k)
      decreases |rest|
    {
      var p :| p in rest;
      rest := rest - {p};
      if good {
        TickersSeen(src, seen, p);
      }
      seen := seen + {p};
      var key := TickerKey(src, p);
      var row := TickerRow(key, p, src.tickers[p], Get(out, key));
      TickerRowSymbol(key, p, src.tickers[p], Get(out, key));
      out := out[key := row];
    }
    assert seen == src.tickers.Keys;
  }

  lemma TickerRowSymbol(key: string, p: nat, t: TickerMeta, before: Option<MarketRow>)
    requires before.Some? ==> before.value.symbol == key
    ensures TickerRow(key, p, t, before).symbol == key
  {
  }

  lemma NoTickersSeen(src: Sources)
    ensures forall k :: AfterTickers(src, {}, k) == AfterSymbols(src, src.symbols.Keys, k)
  {
  }

  lemma TickersSeen(src: Sources, seen: set<nat>, p: nat)
    requires p in src.tickers && p !in seen && seen <= src.tickers.Keys && KeysInjective(src)
    ensures forall k :: AfterTickers(src, seen + {p}, k) ==
              (if k == TickerKey(src, p) then Some(TickerRow(k, p, src.tickers[p], AfterTickers(src, seen, k)))
               else AfterTickers(src, seen, k))
  {
  }

  method ContractPass(src: Sources, start: Rows, config: Config) returns (out: Rows)
    requires KeyedBySymbol(start)
    ensures KeyedBySymbol(out)
    ensures KeysInjective(src) && (forall k :: Get(start, k) == AfterTickers(src, src.tickers.Keys, k))
        ==> forall k :: Get(out, k) == AfterContracts(src, src.contracts.Keys, k, config)
  {
    hide AfterTickers, AfterContracts, ContractRow;
    out := start;
    var rest := src.contracts.Keys;
    ghost var seen: set<nat> := {};
    ghost var good := KeysInjective(src) && forall k :: Get(start, k) == AfterTickers(src, src.tickers.Keys, k);
    NoContractsSeen(src, config);
    while rest != {}
      invariant rest <= src.contracts.Keys && seen == src.contracts.Keys - rest
      invariant KeyedBySymbol(out)
      invariant good ==> forall k :: Get(out, k) == AfterContracts(src, seen, k, config)
      decreases |rest|
    {
      var p :| p in rest;
      rest := rest - {p};
      if good {
        ContractsSeen(src, seen, p, config);
      }
      seen := seen + {p};
      var key := ContractKey(src, p);
      var row := ContractRow(key, p, src.contracts[p], Get(out, key), config);
      ContractRowSymbol(key, p, src.contracts[p], Get(out, key), config);
      out := out[key := row];
    }
    assert seen == src.contracts.Keys;
  }

  lemma ContractRowSymbol(key: string, p: nat, c: ContractMeta, before: Option<MarketRow>, config: Config)
    requires before.Some? ==> before.value.symbol == key
    ensures ContractRow(key, p, c, before, config).symbol == key
  {
  }

  lemma NoContractsSeen(src: Sources, config: Config)
    ensures forall k :: AfterContracts(src, {}, k, config) == AfterTickers(src, src.tickers.Keys, k)
  {
  }

  lemma ContractsSeen(src: Sources, seen: set<nat>, p: nat, config: Config)
    requires p in src.contracts && p !in seen && seen <= src.contracts.Keys && KeysInjective(src)
    ensures forall k :: AfterContracts(src, seen + {p}, k, config) ==
              (if k == ContractKey(src, p)
               then Some(ContractRow(k, p, src.contracts[p], AfterContracts(src, seen, k, config), config))
               else AfterContracts(src, seen, k, config))
  {
  }

  method FinishPass(start: Rows, now: nat, config: Config) returns (out: Rows)
    requires KeyedBySymbol(start)
    ensures KeyedBySymbol(out) && out.Keys == start.Keys
    ensures forall k :: k in start ==> out[k] == Finished(start[k], now, config)
  {
    out := start;
    var rest := start.Keys;
    while rest != {}
      invariant rest <= start.Keys && out.Keys == start.Keys
      invariant forall k :: k in start ==> out[k] == if k in rest then start[k] else Finished(start[k], now, config)
      decreases |rest|
    {
      var k :| k in rest;
      rest := rest - {k};
      out := out[k := Finished(out[k], now, config)];
    }
  }

  /**
    Each pass picks the products of its table in an arbitrary order. Provided no two products of a pass
    share a key, the result is the same for every order; in any case every row sits under its own symbol.
  */
  method BuildMarketRows(src: Sources, now: nat, config: Config) returns (out: Rows)
    ensures KeyedBySymbol(out)
    ensures KeysInjective(src) ==> forall k :: Get(out, k) == RowFor(src, k, now, config)
  {
    hide AfterSymbols, AfterTickers, AfterContracts, Finished, KeysInjective;
    var symbols := SymbolPass(src);
    var tickers := TickerPass(src, symbols);
    var contracts := ContractPass(src, tickers, config);
    out := FinishPass(contracts, now, config);
    if KeysInjective(src) {
      forall k ensures Get(out, k) == RowFor(src, k, now, config) {
        assert Get(contracts, k) == AfterContracts(src, src.contracts.Keys, k, config);
      }
    }
  }

  // ---- what a row says ----

  ghost predicate Contributes(src: Sources, k: string, at: nat) {
    || (exists p :: FromSymbol(src, p, k) && src.symbols[p].updatedAt == at)
    || (exists p :: FromTicker(src, p, k) && src.tickers[p].updatedAt == at)
    || (exists p :: FromContract(src, p, k) && src.contracts[p].updatedAt == at)
  }

  /** The greatest update time of the contributing source rows. */
  ghost predicate IsNewest(src: Sources, k: string, at: nat) {
    Contributes(src, k, at) && forall other: nat :: Contributes(src, k, other) ==> other <= at
  }

  /** A row exists exactly when some source mentions its key. */
  lemma RowExists(src: Sources, k: string, now: nat, config: Config)
    ensures RowFor(src, k, now, config).Some? <==> exists at :: Contributes(src, k, at)
  {
    if exists p :: FromSymbol(src, p, k) {
      var p :| FromSymbol(src, p, k);
      assert Contributes(src, k, src.symbols[p].updatedAt);
    }
    if exists p :: FromTicker(src, p, k) {
      var p :| FromTicker(src, p, k);
      assert Contributes(src, k, src.tickers[p].updatedAt);
    }
    if exists p :: FromContract(src, p, k) {
      var p :| FromContract(src, p, k);
      assert Contributes(src, k, src.contracts[p].updatedAt);
    }
    if RowFor(src, k, now, config).Some? {
      RowHasSource(src, k, now, config);
    }
  }

  lemma RowHasSource(src: Sources, k: string, now: nat, config: Config)
    requires RowFor(src, k, now, config).Some?
    ensures (exists p :: FromSymbol(src, p, k)) || (exists p :: FromTicker(src, p, k))
         || (exists p :: FromContract(src, p, k))
  {
  }

  /** The one product, if any, whose row of a source meets under k. */
  lemma SymbolStage(src: Sources, k: string) returns (p: Option<nat>)
    requires KeysInjective(src)
    ensures p.Some? ==> FromSymbol(src, p.value, k)
    ensures forall q: nat :: FromSymbol(src, q, k) ==> p == Some(q)
    ensures AfterSymbols(src, src.symbols.Keys, k) ==
            if p.None? then None else Some(SymbolRow(p.value, src.symbols[p.value]))
  {
    p := None;
    if exists q :: FromSymbol(src, q, k) {
      var q :| FromSymbol(src, q, k);
      assert q in src.symbols.Keys;
      p := Some(q);
    }
  }

  lemma TickerStage(src: Sources, k: string) returns (p: Option<nat>)
    requires KeysInjective(src)
    ensures p.Some? ==> FromTicker(src, p.value, k)
    ensures forall q: nat :: FromTicker(src, q, k) ==> p == Some(q)
    ensures var before := AfterSymbols(src, src.symbols.Keys, k);
            AfterTickers(src, src.tickers.Keys, k) ==
            if p.None? then before else Some(TickerRow(k, p.value, src.tickers[p.value], before))
  {
    hide AfterSymbols, TickerRow;
    p := None;
    if exists q :: FromTicker(src, q, k) {
      var q :| FromTicker(src, q, k);
      assert q in src.tickers.Keys;
      p := Some(q);
    }
  }

  lemma ContractStage(src: Sources, k: string, config: Config) returns (p: Option<nat>)
    requires KeysInjective(src)
    ensures p.Some? ==> FromContract(src, p.value, k)
    ensures forall q: nat :: FromContract(src, q, k) ==> p == Some(q)
    ensures var before := AfterTickers(src, src.tickers.Keys, k);
            AfterContracts(src, src.contracts.Keys, k, config) ==
            if p.None? then before else Some(ContractRow(k, p.value, src.contracts[p.value], before, config))
  {
    hide AfterTickers, ContractRow;
    p := None;
    if exists q :: FromContract(src, q, k) {
      var q :| FromContract(src, q, k);
      assert q in src.contracts.Keys;
      p := Some(q);
    }
  }

  /**
    The merged row: its own symbol, the newest update time among its sources (or the build time when
    they all say zero), staleness by that time, prices from the ticker and funding from the contract.
  */
  lemma RowMeaning(src: Sources, k: string, now: nat, config: Config)
    requires KeysInjective(src) && RowFor(src, k, now, config).Some?
    ensures var row := RowFor(src, k, now, config).value;
            && row.symbol == k
            && (exists newest: nat :: IsNewest(src, k, newest) && row.updatedAt == if newest == 0 then now else newest)
            && (row.stale <==> now > row.updatedAt + config.staleAfterMs)
            && (forall p :: FromTicker(src, p, k) ==> Keeps(row.price, src.tickers[p].lastPrice))
            && ((forall p :: !FromTicker(src, p, k)) ==> row.price == None && row.volume24h == None)
            && (forall p :: FromContract(src, p, k) ==> Keeps(row.fundingRate, src.contracts[p].fundingRate))
            && ((forall p :: !FromContract(src, p, k)) ==> row.fundingRate == None && row.annFunding == None)
  {
    hide AfterSymbols, AfterTickers, AfterContracts, KeysInjective;
    var ps := SymbolStage(src, k);
    var pt := TickerStage(src, k);
    var pc := ContractStage(src, k, config);
    var raw := AfterContracts(src, src.contracts.Keys, k, config).value;
    NewestOfStages(src, k, ps, pt, pc, raw.updatedAt);
  }

  /** A row has a figure exactly if the source has a finite one, and then the same one. */
  predicate Keeps(figure: Option<F64>, value: F64) {
    match value
    case Finite(_) => figure == Some(value)
    case NonFinite => figure == None
  }

  /** A positive quote volume, else a positive base volume, else the one that alone is finite. */
  predicate Prefers(figure: Option<F64>, base: F64, quote: F64) {
    match (base, quote)
    case (Finite(b), Finite(q)) =>
      if q > 0.0 then figure == Some(quote) else if b > 0.0 then figure == Some(base) else figure == None
    case (Finite(_), NonFinite) => figure == Some(base)
    case (NonFinite, Finite(_)) => figure == Some(quote)
    case (NonFinite, NonFinite) => figure == None
  }

  /** Figures that only a ticker supplies, and figures that only a contract supplies. */
  predicate TickerFigures(row: MarketRow, t: Option<TickerMeta>) {
    match t
    case None => row.price == row.change24h == row.volume24h == None
    case Some(t) =>
      && Keeps(row.price, t.lastPrice) && Keeps(row.change24h, t.change24h)
      && Prefers(row.volume24h, t.baseVolume, t.quoteVolume)
  }

  predicate ContractFigures(row: MarketRow, c: Option<ContractMeta>, config: Config) {
    match c
    case None =>
      && row.fundingRate == row.annFunding == row.markPrice == row.indexPrice == None
      && row.openInterest == row.openInterestUsd == None
    case Some(c) =>
      && Keeps(row.fundingRate, c.fundingRate)
      && row.annFunding == (if c.fundingRate.Finite? then Some(config.annualize(c.fundingRate)) else None)
      && Keeps(row.markPrice, c.markPrice) && Keeps(row.indexPrice, c.indexPrice)
      && Keeps(row.openInterest, c.openInterest) && Keeps(row.openInterestUsd, c.openInterestUsd)
  }

  function OrElse(text: string, other: string): string {
    if text != "" then text else other
  }

  /** The names a source has for a market; none from a source without it. */
  datatype Names = Names(tickerId: string, base: string, quote: string)

  function SymbolNames(m: Option<SymbolMeta>): Names {
    if m.Some? then Names(m.value.symbol, m.value.base, m.value.quote) else Names("", "", "")
  }

  function TickerNames(t: Option<TickerMeta>): Names {
    if t.Some? then Names(t.value.tickerId, t.value.base, t.value.quote) else Names("", "", "")
  }

  function ContractNames(c: Option<ContractMeta>): Names {
    if c.Some? then Names(c.value.tickerId, c.value.base, c.value.quote) else Names("", "", "")
  }

  function Lookup<T>(m: map<nat, T>, p: Option<nat>): Option<T> {
    if p.Some? && p.value in m then Some(m[p.value]) else None
  }

  /**
    Who wins where sources overlap: for names the symbol table before the ticker before the contract, for
    the product and the ticker id the other way round, and "unknown" gives way like an empty text.
  */
  ghost predicate Precedence(row: MarketRow, src: Sources, ps: Option<nat>, pt: Option<nat>, pc: Option<nat>,
                             config: Config) {
    var (s, t, c) := (Lookup(src.symbols, ps), Lookup(src.tickers, pt), Lookup(src.contracts, pc));
    TickerFigures(row, t) && ContractFigures(row, c, config) && NamesMerged(row, ps, pt, pc, s, t, c)
  }

  ghost predicate NamesMerged(row: MarketRow, ps: Option<nat>, pt: Option<nat>, pc: Option<nat>,
                              s: Option<SymbolMeta>, t: Option<TickerMeta>, c: Option<ContractMeta>) {
    var (sn, tn, cn) := (SymbolNames(s), TickerNames(t), ContractNames(c));
    && Some(row.productId) == (if pc.Some? then pc else if pt.Some? then pt else ps)
    && row.tickerId == OrElse(if c.Some? then cn.tickerId else tn.tickerId, row.symbol)
    && row.base == OrElse(sn.base, OrElse(tn.base, cn.base))
    && row.quote == OrElse(sn.quote, OrElse(tn.quote, cn.quote))
    && var own := if s.Some? then s.value.marketType else "unknown";
       row.marketType == if c.Some? && own in {"", "unknown"} then c.value.marketType else own
  }

  /** The sources of a key are unique, and they decide every field by precedence. */
  lemma RowPrecedence(src: Sources, k: string, now: nat, config: Config)
    requires KeysInjective(src) && RowFor(src, k, now, config).Some?
    ensures exists ps, pt, pc ::
              && (forall p: nat :: FromSymbol(src, p, k) <==> ps == Some(p))
              && (forall p: nat :: FromTicker(src, p, k) <==> pt == Some(p))
              && (forall p: nat :: FromContract(src, p, k) <==> pc == Some(p))
              && Precedence(RowFor(src, k, now, config).value, src, ps, pt, pc, config)
  {
    hide AfterSymbols, AfterTickers, AfterContracts, KeysInjective, Precedence;
    hide SymbolRow, TickerRow, ContractRow, Finished;
    var ps := SymbolStage(src, k);
    var pt := TickerStage(src, k);
    var pc := ContractStage(src, k, config);
    MergePrecedence(src, k, now, config, ps, pt, pc,
                    AfterSymbols(src, src.symbols.Keys, k), AfterTickers(src, src.tickers.Keys, k));
  }

  /** The three stages one after the other. */
  lemma MergePrecedence(src: Sources, k: string, now: nat, config: Config, ps: Option<nat>, pt: Option<nat>,
                        pc: Option<nat>, one: Option<MarketRow>, two: Option<MarketRow>)
    requires (ps.Some? ==> ps.value in src.symbols) && (pt.Some? ==> pt.value in src.tickers)
    requires (pc.Some? ==> pc.value in src.contracts) && (ps.Some? || pt.Some? || pc.Some?)
    requires one == if ps.None? then None else Some(SymbolRow(ps.value, src.symbols[ps.value]))
    requires two == if pt.None? then one else Some(TickerRow(k, pt.value, src.tickers[pt.value], one))
    ensures var three := if pc.None? then two
                         else Some(ContractRow(k, pc.value, src.contracts[pc.value], two, config));
            three.Some? && Precedence(Finished(three.value, now, config), src, ps, pt, pc, config)
  {
    var (s, t, c) := (Lookup(src.symbols, ps), Lookup(src.tickers, pt), Lookup(src.contracts, pc));
    MergeTicker(k, ps, pt, s, t, one);
    MergeContract(k, ps, pt, pc, s, t, c, two, now, config);
    hide SymbolRow, TickerRow, ContractRow, Finished, NamesMerged, TickerFigures, ContractFigures, HalfMerged;
  }

  /** A row that symbol and ticker made, before a contract comes in. */
  ghost predicate HalfMerged(row: MarketRow, ps: Option<nat>, pt: Option<nat>, s: Option<SymbolMeta>,
                             t: Option<TickerMeta>) {
    var (sn, tn) := (SymbolNames(s), TickerNames(t));
    && TickerFigures(row, t)
    && row.fundingRate == row.annFunding == row.markPrice == row.indexPrice == None
    && row.openInterest == row.openInterestUsd == None
    && Some(row.productId) == (if pt.Some? then pt else ps)
    && row.tickerId == (if t.Some? then tn.tickerId else row.symbol)
    && row.base == OrElse(sn.base, tn.base) && row.quote == OrElse(sn.quote, tn.quote)
    && row.marketType == if s.Some? then s.value.marketType else "unknown"
  }

  lemma MergeTicker(k: string, ps: Option<nat>, pt: Option<nat>, s: Option<SymbolMeta>, t: Option<TickerMeta>,
                    one: Option<MarketRow>)
    requires (ps.Some? <==> s.Some?) && (pt.Some? <==> t.Some?)
    requires one == if ps.None? then None else Some(SymbolRow(ps.value, s.value))
    ensures var two := if pt.None? then one else Some(TickerRow(k, pt.value, t.value, one));
            two.Some? ==> HalfMerged(two.value, ps, pt, s, t)
  {
  }

  lemma MergeContract(k: string, ps: Option<nat>, pt: Option<nat>, pc: Option<nat>, s: Option<SymbolMeta>,
                      t: Option<TickerMeta>, c: Option<ContractMeta>, two: Option<MarketRow>, now: nat, config: Config)
    requires (ps.Some? <==> s.Some?) && (pt.Some? <==> t.Some?) && (pc.Some? <==> c.Some?)
    requires (two.Some? <==> ps.Some? || pt.Some?) && (two.Some? || pc.Some?)
    requires two.Some? ==> HalfMerged(two.value, ps, pt, s, t)
    ensures var three := if pc.None? then two else Some(ContractRow(k, pc.value, c.value, two, config));
            && three.Some?
            && (var row := Finished(three.value, now, config);
                TickerFigures(row, t) && ContractFigures(row, c, config) && NamesMerged(row, ps, pt, pc, s, t, c))
  {
    hide Keeps, Prefers, PreferredVolume;
    assert forall v: F64 :: Keeps(FiniteOption(v), v) by { KeepsFinite(); }
  }

  lemma KeepsFinite()
    ensures forall v: F64 :: Keeps(FiniteOption(v), v)
  {
  }

  predicate IsFinite(figure: Option<F64>) {
    figure.Some? ==> figure.value.Finite?
  }

  /** No row ever holds a figure that is not finite, but for one that annualising a finite rate makes. */
  lemma OnlyFiniteFigures(src: Sources, k: string, now: nat, config: Config)
    requires KeysInjective(src) && RowFor(src, k, now, config).Some?
    ensures var row := RowFor(src, k, now, config).value;
            && IsFinite(row.price) && IsFinite(row.change24h) && IsFinite(row.volume24h) && IsFinite(row.fundingRate)
            && IsFinite(row.markPrice) && IsFinite(row.indexPrice)
            && IsFinite(row.openInterest) && IsFinite(row.openInterestUsd)
  {
    hide KeysInjective, RowFor;
    RowPrecedence(src, k, now, config);
  }

  /** The row under which a product's source shows: its symbol's if it has one, else its own ticker id's. */
  function RowKey(src: Sources, p: nat, tickerId: string): string {
    match Lookup(src.symbols, Some(p))
    case Some(m) => m.symbol
    case None => tickerId
  }

  /** Every symbol, ticker and contract of the sources shows in the row of its market. */
  lemma EverySourceShows(src: Sources, p: nat, now: nat, config: Config)
    requires KeysInjective(src)
    ensures p in src.symbols ==> RowFor(src, src.symbols[p].symbol, now, config).Some?
    ensures p in src.tickers ==>
              var (t, row) := (src.tickers[p], RowFor(src, RowKey(src, p, src.tickers[p].tickerId), now, config));
              row.Some? && TickerFigures(row.value, Some(t)) && t.updatedAt <= row.value.updatedAt
    ensures p in src.contracts ==>
              var (c, row) := (src.contracts[p], RowFor(src, RowKey(src, p, src.contracts[p].tickerId), now, config));
              row.Some? && ContractFigures(row.value, Some(c), config) && row.value.productId == p
              && c.updatedAt <= row.value.updatedAt
  {
    hide KeysInjective, RowFor, TickerFigures, ContractFigures;
    if p in src.symbols {
      var k := src.symbols[p].symbol;
      assert FromSymbol(src, p, k) && Contributes(src, k, src.symbols[p].updatedAt);
      RowExists(src, k, now, config);
    }
    if p in src.tickers {
      TickerShows(src, p, RowKey(src, p, src.tickers[p].tickerId), now, config);
    }
    if p in src.contracts {
      ContractShows(src, p, RowKey(src, p, src.contracts[p].tickerId), now, config);
    }
  }

  lemma TickerShows(src: Sources, p: nat, k: string, now: nat, config: Config)
    requires KeysInjective(src) && p in src.tickers && k == RowKey(src, p, src.tickers[p].tickerId)
    ensures var row := RowFor(src, k, now, config);
            && row.Some? && TickerFigures(row.value, Some(src.tickers[p]))
            && src.tickers[p].updatedAt <= row.value.updatedAt
  {
    hide KeysInjective, RowFor, TickerFigures, ContractFigures;
    assert FromTicker(src, p, k) && Contributes(src, k, src.tickers[p].updatedAt);
    RowExists(src, k, now, config);
    RowPrecedence(src, k, now, config);
    RowMeaning(src, k, now, config);
  }

  lemma ContractShows(src: Sources, p: nat, k: string, now: nat, config: Config)
    requires KeysInjective(src) && p in src.contracts && k == RowKey(src, p, src.contracts[p].tickerId)
    ensures var row := RowFor(src, k, now, config);
            && row.Some? && ContractFigures(row.value, Some(src.contracts[p]), config) && row.value.productId == p
            && src.contracts[p].updatedAt <= row.value.updatedAt
  {
    hide KeysInjective, RowFor, TickerFigures, ContractFigures;
    assert FromContract(src, p, k) && Contributes(src, k, src.contracts[p].updatedAt);
    RowExists(src, k, now, config);
    RowPrecedence(src, k, now, config);
    RowMeaning(src, k, now, config);
  }

  lemma NewestOfStages(src: Sources, k: string, ps: Option<nat>, pt: Option<nat>, pc: Option<nat>, at: nat)
    requires forall q: nat :: FromSymbol(src, q, k) ==> ps == Some(q)
    requires forall q: nat :: FromTicker(src, q, k) ==> pt == Some(q)
    requires forall q: nat :: FromContract(src, q, k) ==> pc == Some(q)
    requires ps.Some? ==> FromSymbol(src, ps.value, k) && src.symbols[ps.value].updatedAt <= at
    requires pt.Some? ==> FromTicker(src, pt.value, k) && src.tickers[pt.value].updatedAt <= at
    requires pc.Some? ==> FromContract(src, pc.value, k) && src.contracts[pc.value].updatedAt <= at
    requires (ps.Some? && src.symbols[ps.value].updatedAt == at) || (pt.Some? && src.tickers[pt.value].updatedAt == at)
          || (pc.Some? && src.contracts[pc.value].updatedAt == at)
    ensures IsNewest(src, k, at)
  {
  }
}
