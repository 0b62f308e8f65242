/** The backtest engine of strategy/backtest.py: a day-by-day simulation over
    the trading calendar that holds a ledger of shares, a cache of last known
    closing prices and a running capital, rebalances on schedule dates when
    the timing signal is long, liquidates on schedule dates when it is not,
    marks the ledger to market every date and records the normalised value
    and the holdings of the date. */
module Backtest {
  import opened Common
  import opened MapSum

  /** One row of the market table (trade_date, ts_code, close). */
  datatype PriceRow = PriceRow(date: Date, code: Code, close: real)

  /** One row of the position schedule (trade_date, ts_code, weight). */
  datatype WeightRow = WeightRow(date: Date, code: Code, weight: real)

  /** One row of the timing-signal table (trade_date, final_signal). */
  datatype SignalRow = SignalRow(date: Date, finalSignal: Num)

  /** One row of the returned value frame (trade_date, portfolio_value). */
  datatype ValueRow = ValueRow(date: Date, portfolioValue: real)

  /** Shares held of one stock and their value at the price used that date. */
  datatype Holding = Holding(shares: real, value: real)

  /** The holdings rows appended for one date, keyed by ts_code. */
  datatype DayHoldings = DayHoldings(date: Date, holdings: map<Code, Holding>)

  /** The arguments of run_backtest. */
  datatype Inputs = Inputs(
    positions: seq<WeightRow>,
    market: seq<PriceRow>,
    signals: seq<SignalRow>,
    initialCapital: real)

  /** Closing prices are positive, schedule weights are positive and the
      initial capital is positive: the engine divides by each of them. */
  predicate WellFormed(inp: Inputs)
  {
    && inp.initialCapital > 0.0
    && (forall i :: 0 <= i < |inp.market| ==> inp.market[i].close > 0.0)
    && (forall i :: 0 <= i < |inp.positions| ==> inp.positions[i].weight > 0.0)
  }

  predicate PositivePrices(daily: seq<PriceRow>)
  {
    forall i :: 0 <= i < |daily| ==> daily[i].close > 0.0
  }

  predicate PositiveWeights(rows: seq<WeightRow>)
  {
    forall i :: 0 <= i < |rows| ==> rows[i].weight > 0.0
  }

  // ---------------------------------------------------------------------
  // Per-date views of the input tables
  // ---------------------------------------------------------------------

  /** The trading calendar: the distinct market dates in increasing order. */
  function Calendar(market: seq<PriceRow>): (r: seq<Date>)
    ensures StrictlyIncreasing(r)
    ensures forall d :: d in r <==> exists i :: 0 <= i < |market| && market[i].date == d
  {
    var ds := seq(|market|, i requires 0 <= i < |market| => market[i].date);
    assert forall d :: d in ds <==> exists i :: 0 <= i < |market| && market[i].date == d by {
      forall d ensures d in ds <==> exists i :: 0 <= i < |market| && market[i].date == d {
        if exists i :: 0 <= i < |market| && market[i].date == d {
          var i :| 0 <= i < |market| && market[i].date == d;
          assert ds[i] == d;
        }
      }
    }
    SortedUnique(ds)
  }

  /** `market_data[market_data['trade_date'] == trade_date]`, in table order. */
  function DailyMarket(market: seq<PriceRow>, d: Date): (r: seq<PriceRow>)
    ensures forall i :: 0 <= i < |r| ==> r[i].date == d
    ensures PositivePrices(market) ==> PositivePrices(r)
  {
    if market == [] then []
    else
      var last := market[|market| - 1];
      DailyMarket(market[..|market| - 1], d) + (if last.date == d then [last] else [])
  }

  /** The day's market rows are exactly the table rows of that date. */
  lemma {:induction false} DailyMarketKeepsDay(market: seq<PriceRow>, d: Date)
    ensures forall x :: x in DailyMarket(market, d) <==> x in market && x.date == d
  {
    if market != [] {
      var last := market[|market| - 1];
      DailyMarketKeepsDay(market[..|market| - 1], d);
      assert market == market[..|market| - 1] + [last];
    }
  }

  /** `positions[positions['trade_date'] == trade_date]`, in table order. */
  function DailySchedule(positions: seq<WeightRow>, d: Date): (r: seq<WeightRow>)
    ensures forall i :: 0 <= i < |r| ==> r[i].date == d
    ensures PositiveWeights(positions) ==> PositiveWeights(r)
    ensures |r| > 0 <==> exists i :: 0 <= i < |positions| && positions[i].date == d
  {
    if positions == [] then []
    else
      var last := positions[|positions| - 1];
      DailySchedule(positions[..|positions| - 1], d) + (if last.date == d then [last] else [])
  }

  /** The day's schedule rows are exactly the holdings table rows of that date. */
  lemma {:induction false} DailyScheduleKeepsDay(positions: seq<WeightRow>, d: Date)
    ensures forall x :: x in DailySchedule(positions, d) <==> x in positions && x.date == d
  {
    if positions != [] {
      var last := positions[|positions| - 1];
      DailyScheduleKeepsDay(positions[..|positions| - 1], d);
      assert positions == positions[..|positions| - 1] + [last];
    }
  }

  /** `trade_date in positions['trade_date'].values`: the date is a rebalancing date. */
  predicate IsRebalanceDate(positions: seq<WeightRow>, d: Date)
  {
    exists i :: 0 <= i < |positions| && positions[i].date == d
  }

  /** The close of `c` in a day's market rows: the first matching row, or none. */
  function Close(daily: seq<PriceRow>, c: Code): (r: Option<real>)
    ensures r.Some? && PositivePrices(daily) ==> r.value > 0.0
  {
    if daily == [] then None
    else if daily[0].code == c then Some(daily[0].close)
    else Close(daily[1..], c)
  }

  /** A stock has a close exactly when one of the day's rows is about it, and
      the close is the one of the first such row. */
  lemma {:induction false} CloseIsFirstMatch(daily: seq<PriceRow>, c: Code)
    ensures Close(daily, c).Some? <==> exists i :: 0 <= i < |daily| && daily[i].code == c
    ensures forall i :: (0 <= i < |daily| && daily[i].code == c
                         && forall j :: 0 <= j < i ==> daily[j].code != c) ==> Close(daily, c) == Some(daily[i].close)
  {
    if daily != [] && daily[0].code != c {
      CloseIsFirstMatch(daily[1..], c);
      assert forall i :: 1 <= i < |daily| ==> daily[1..][i - 1] == daily[i];
    }
  }

  /** The close of `c` in the rows `a + b`: the one in `a` when `a` has one. */
  lemma {:induction false} CloseOfConcat(a: seq<PriceRow>, b: seq<PriceRow>, c: Code)
    ensures Close(a + b, c) == if Close(a, c).Some? then Close(a, c) else Close(b, c)
  {
    if a == [] {
      assert a + b == b;
    } else {
      assert (a + b)[1..] == a[1..] + b;
      CloseOfConcat(a[1..], b, c);
    }
  }

  /** The close of `c` on date `d`, read from the day's slice of the market
      table, is the close of the first table row of that date and stock, and
      there is none exactly when the table has no such row. */
  lemma {:induction false} DailyCloseIsFirstMatch(market: seq<PriceRow>, d: Date, c: Code)
    ensures Close(DailyMarket(market, d), c).None? <==>
              forall i :: 0 <= i < |market| ==> !(market[i].date == d && market[i].code == c)
    ensures forall i :: (0 <= i < |market| && market[i].date == d && market[i].code == c
                         && forall j :: 0 <= j < i ==> !(market[j].date == d && market[j].code == c))
                        ==> Close(DailyMarket(market, d), c) == Some(market[i].close)
  {
    if market != [] {
      var n := |market| - 1;
      var pre, last := market[..n], market[n];
      DailyCloseIsFirstMatch(pre, d, c);
      var tail := if last.date == d then [last] else [];
      assert DailyMarket(market, d) == DailyMarket(pre, d) + tail;
      CloseOfConcat(DailyMarket(pre, d), tail, c);
      assert forall i :: 0 <= i < n ==> market[i] == pre[i];
      if last.date == d {
        assert Close(tail, c) == if last.code == c then Some(last.close) else None by {
          assert tail[1..] == [];
        }
      }
    }
  }

  predicate Priced(daily: seq<PriceRow>, c: Code)
  {
    Close(daily, c).Some?
  }

  /** The close used for a priced stock. */
  function Price(daily: seq<PriceRow>, c: Code): (r: real)
    requires PositivePrices(daily) && Priced(daily, c)
    ensures r > 0.0
  {
    Close(daily, c).value
  }

  /** `(capital * weight) / close_price`: the shares a weight buys. */
  function Shares(capital: real, weight: real, close: real): real
    requires close > 0.0
  {
    capital * weight / close
  }

  /** The signal of the first signal row of the date; 1 when the date has no row. */
  function ResolveSignal(signals: seq<SignalRow>, d: Date): Num
  {
    if signals == [] then Val(1.0)
    else if signals[0].date == d then signals[0].finalSignal
    else ResolveSignal(signals[1..], d)
  }

  /** A date without a signal row resolves to 1; otherwise to the signal of
      its first row. */
  lemma {:induction false} ResolveSignalIsFirstRow(signals: seq<SignalRow>, d: Date)
    ensures (forall i :: 0 <= i < |signals| ==> signals[i].date != d) ==> ResolveSignal(signals, d) == Val(1.0)
    ensures forall i :: 0 <= i < |signals| && signals[i].date == d
                        && (forall j :: 0 <= j < i ==> signals[j].date != d) ==>
                          ResolveSignal(signals, d) == signals[i].finalSignal
  {
    if signals != [] && signals[0].date != d {
      ResolveSignalIsFirstRow(signals[1..], d);
      assert forall i :: 1 <= i < |signals| ==> signals[1..][i - 1] == signals[i];
    }
  }

  /** `timing_signal == 1`: NaN and 0 both fail the comparison. */
  predicate IsLong(signal: Num)
  {
    signal == Val(1.0)
  }

  // ---------------------------------------------------------------------
  // adjust_positions
  // ---------------------------------------------------------------------

  /** The `effective_weights` dict after the first loop: the weight of the
      last schedule row of each stock that has a price that day. */
  function EffectiveWeights(rows: seq<WeightRow>, daily: seq<PriceRow>): (r: map<Code, real>)
    ensures forall c :: c in r ==> Priced(daily, c)
    ensures PositiveWeights(rows) ==> forall c :: c in r ==> r[c] > 0.0
  {
    if rows == [] then map[]
    else
      var m := EffectiveWeights(rows[..|rows| - 1], daily);
      var last := rows[|rows| - 1];
      if Priced(daily, last.code) then m[last.code := last.weight] else m
  }

  /** Every priced stock of the schedule is in the dict, with the weight of its last row. */
  lemma {:induction false} EffectiveWeightsAreLastRows(rows: seq<WeightRow>, daily: seq<PriceRow>)
    ensures forall c :: c in EffectiveWeights(rows, daily) <==>
              Priced(daily, c) && exists i :: 0 <= i < |rows| && rows[i].code == c
    ensures forall i :: (0 <= i < |rows| && Priced(daily, rows[i].code)
                         && forall j :: i < j < |rows| ==> rows[j].code != rows[i].code)
                        ==> EffectiveWeights(rows, daily)[rows[i].code] == rows[i].weight
  {
    if rows != [] {
      var init := rows[..|rows| - 1];
      EffectiveWeightsAreLastRows(init, daily);
      assert forall i :: 0 <= i < |init| ==> init[i] == rows[i];
    }
  }

  /** Appending a schedule row sets the weight of its stock when it is priced. */
  lemma EffectiveWeightsSnoc(rows: seq<WeightRow>, x: WeightRow, daily: seq<PriceRow>)
    ensures EffectiveWeights(rows + [x], daily) ==
              if Priced(daily, x.code) then EffectiveWeights(rows, daily)[x.code := x.weight]
              else EffectiveWeights(rows, daily)
  {
    assert (rows + [x])[..|rows|] == rows;
  }

  /** The day's schedule grows by the last table row exactly when that row is of the day. */
  lemma DailyScheduleSnoc(positions: seq<WeightRow>, d: Date)
    requires positions != []
    ensures DailySchedule(positions, d) ==
              DailySchedule(positions[..|positions| - 1], d)
              + (if positions[|positions| - 1].date == d then [positions[|positions| - 1]] else [])
  {
  }

  /** Read from the day's slice of the holdings table, a stock has an
      effective weight exactly when it is priced and the table has a row of
      that date and stock. */
  lemma DailyWeightsKeys(positions: seq<WeightRow>, d: Date, daily: seq<PriceRow>)
    ensures forall c :: c in EffectiveWeights(DailySchedule(positions, d), daily) <==>
              Priced(daily, c) && exists i :: 0 <= i < |positions| && positions[i].date == d && positions[i].code == c
  {
    var r := DailySchedule(positions, d);
    EffectiveWeightsAreLastRows(r, daily);
    DailyScheduleKeepsDay(positions, d);
    forall c ensures c in EffectiveWeights(r, daily) <==>
                     Priced(daily, c) && exists i :: 0 <= i < |positions| && positions[i].date == d && positions[i].code == c
    {
      if exists k :: 0 <= k < |r| && r[k].code == c {
        var k :| 0 <= k < |r| && r[k].code == c;
        assert r[k] in positions;
        var i :| 0 <= i < |positions| && positions[i] == r[k];
      }
      if exists i :: 0 <= i < |positions| && positions[i].date == d && positions[i].code == c {
        var i :| 0 <= i < |positions| && positions[i].date == d && positions[i].code == c;
        assert positions[i] in r;
        var k :| 0 <= k < |r| && r[k] == positions[i];
      }
    }
  }

  /** A priced table row of the day that no later row of the day and stock
      follows gives its stock's effective weight. */
  lemma {:induction false} DailyWeightIsLastRow(positions: seq<WeightRow>, d: Date, daily: seq<PriceRow>, i: nat)
    requires i < |positions| && positions[i].date == d && Priced(daily, positions[i].code)
    requires forall j :: i < j < |positions| ==> !(positions[j].date == d && positions[j].code == positions[i].code)
    ensures var m := EffectiveWeights(DailySchedule(positions, d), daily);
            positions[i].code in m && m[positions[i].code] == positions[i].weight
  {
    var n := |positions| - 1;
    var pre, last := positions[..n], positions[n];
    var c := positions[i].code;
    var s := DailySchedule(pre, d);
    DailyScheduleSnoc(positions, d);
    if i == n {
      assert DailySchedule(positions, d) == s + [last];
      EffectiveWeightsSnoc(s, last, daily);
    } else {
      assert pre[i] == positions[i];
      assert forall j :: i < j < n ==> positions[j] == pre[j];
      DailyWeightIsLastRow(pre, d, daily, i);
      if last.date == d {
        assert last.code != c;
        EffectiveWeightsSnoc(s, last, daily);
      } else {
        assert DailySchedule(positions, d) == s;
      }
    }
  }

  /** The priced weight mass `total_effective_weight`. */
  ghost function Mass(rows: seq<WeightRow>, daily: seq<PriceRow>): real
  {
    Sum(EffectiveWeights(rows, daily))
  }

  /** The weight a priced stock finally gets: rescaled by the mass when it is below 1. */
  function Target(w: real, mass: real): real
    requires mass > 0.0
  {
    if mass < 1.0 then w / mass else w
  }

  lemma MassPositive(rows: seq<WeightRow>, daily: seq<PriceRow>)
    requires PositiveWeights(rows)
    ensures Mass(rows, daily) >= 0.0
    ensures EffectiveWeights(rows, daily) != map[] ==> Mass(rows, daily) > 0.0
  {
    var eff := EffectiveWeights(rows, daily);
    SumSign(eff);
    if eff != map[] {
      var c :| c in eff;
      assert eff[c] > 0.0;
    }
  }

  /** The weights a rebalance finally uses, per priced stock. */
  ghost function Targets(rows: seq<WeightRow>, daily: seq<PriceRow>): (t: map<Code, real>)
    requires PositiveWeights(rows)
    ensures t.Keys == EffectiveWeights(rows, daily).Keys
  {
    var eff := EffectiveWeights(rows, daily);
    MassPositive(rows, daily);
    map c | c in eff :: Target(eff[c], Mass(rows, daily))
  }

  /** What adjust_positions returns: for every priced stock of the day's
      schedule, capital times its final weight over its close. */
  ghost function Allocation(rows: seq<WeightRow>, daily: seq<PriceRow>, capital: real): (r: map<Code, real>)
    requires PositiveWeights(rows) && PositivePrices(daily)
    ensures r.Keys == EffectiveWeights(rows, daily).Keys
  {
    var t := Targets(rows, daily);
    map c | c in t :: Shares(capital, t[c], Price(daily, c))
  }

  /** Python's `sum(d.values())` over a dict, in whatever order it visits the keys. */
  method SumValues(m: map<Code, real>) returns (total: real)
    ensures total == Sum(m)
  {
    total := 0.0;
    var rest := m.Keys;
    while rest != {}
      invariant rest <= m.Keys
      invariant total == Sum(map c | c in m && c !in rest :: m[c])
      decreases rest
    {
      var k :| k in rest;
      ghost var before := map c | c in m && c !in rest :: m[c];
      assert (map c | c in m && c !in rest - {k} :: m[c]) == before[k := m[k]];
      SumInsert(before, k, m[k]);
      total := total + m[k];
      rest := rest - {k};
    }
    assert (map c | c in m && c !in rest :: m[c]) == m;
  }

  /** The first loop of adjust_positions: every schedule row whose stock has a
      close that day gets `capital * weight / close` shares and its weight
      recorded; a later row of the same stock overwrites an earlier one. */
  method PriceSchedule(rows: seq<WeightRow>, daily: seq<PriceRow>, capital: real)
    returns (positions: map<Code, real>, effective: map<Code, real>)
    requires PositivePrices(daily)
    ensures effective == EffectiveWeights(rows, daily)
    ensures positions.Keys == effective.Keys
    ensures forall c :: c in effective ==> positions[c] == Shares(capital, effective[c], Price(daily, c))
  {
    positions := map[];
    effective := map[];
    for i := 0 to |rows|
      invariant effective == EffectiveWeights(rows[..i], daily)
      invariant positions.Keys == effective.Keys
      invariant forall c :: c in effective ==> positions[c] == Shares(capital, effective[c], Price(daily, c))
    {
      assert rows[..i + 1][..i] == rows[..i];
      var row := rows[i];
      var price := Close(daily, row.code);
      if price.Some? {
        positions := positions[row.code := Shares(capital, row.weight, price.value)];
        effective := effective[row.code := row.weight];
      }
    }
    assert rows[..|rows|] == rows;
  }

  /** The in-place division of every effective weight by their total. */
  method Rescale(weights: map<Code, real>, total: real) returns (scaled: map<Code, real>)
    requires weights != map[] ==> total != 0.0
    ensures scaled.Keys == weights.Keys
    ensures forall c :: c in weights ==> scaled[c] == weights[c] / total
  {
    scaled := weights;
    var rest := weights.Keys;
    while rest != {}
      invariant rest <= weights.Keys && scaled.Keys == weights.Keys
      invariant forall c :: c in weights && c in rest ==> scaled[c] == weights[c]
      invariant forall c :: c in weights && c !in rest ==> scaled[c] == weights[c] / total
      decreases rest
    {
      var k :| k in rest;
      scaled := scaled[k := scaled[k] / total];
      rest := rest - {k};
    }
  }

  /** The last loop of adjust_positions: the shares of every stock recomputed
      from its rescaled weight. */
  method Reprice(positions: map<Code, real>, weights: map<Code, real>, daily: seq<PriceRow>, capital: real)
    returns (repriced: map<Code, real>)
    requires PositivePrices(daily)
    requires positions.Keys == weights.Keys
    requires forall c :: c in weights ==> Priced(daily, c)
    ensures repriced.Keys == weights.Keys
    ensures forall c :: c in weights ==> repriced[c] == Shares(capital, weights[c], Price(daily, c))
  {
    repriced := positions;
    var rest := weights.Keys;
    while rest != {}
      invariant rest <= weights.Keys && repriced.Keys == weights.Keys
      invariant forall c :: c in weights && c !in rest ==> repriced[c] == Shares(capital, weights[c], Price(daily, c))
      decreases rest
    {
      var k :| k in rest;
      var price := Close(daily, k);
      if price.Some? {
        repriced := repriced[k := Shares(capital, weights[k], price.value)];
      }
      rest := rest - {k};
    }
  }

  /** adjust_positions: prices the schedule, sums the effective weights and,
      when they fall short of 1, rescales them and recomputes the shares. */
  method AdjustPositions(rows: seq<WeightRow>, daily: seq<PriceRow>, capital: real) returns (positions: map<Code, real>)
    requires PositiveWeights(rows) && PositivePrices(daily)
    ensures positions == Allocation(rows, daily, capital)
  {
    var effective;
    positions, effective := PriceSchedule(rows, daily, capital);
    var total := SumValues(effective);
    MassPositive(rows, daily);
    if total < 1.0 {
      var scaled := Rescale(effective, total);
      positions := Reprice(positions, scaled, daily, capital);
      if effective != map[] {
        AllocationShort(rows, daily, capital, total, scaled, positions);
      }
    } else {
      AllocationFull(rows, daily, capital, positions);
    }
  }

  lemma AllocationShort(rows: seq<WeightRow>, daily: seq<PriceRow>, capital: real, mass: real,
                        scaled: map<Code, real>, positions: map<Code, real>)
    requires PositiveWeights(rows) && PositivePrices(daily)
    requires mass == Mass(rows, daily) && 0.0 < mass < 1.0
    requires scaled.Keys == EffectiveWeights(rows, daily).Keys
    requires forall c :: c in scaled ==> scaled[c] == EffectiveWeights(rows, daily)[c] / mass
    requires positions.Keys == scaled.Keys
    requires forall c :: c in scaled ==> positions[c] == Shares(capital, scaled[c], Price(daily, c))
    ensures positions == Allocation(rows, daily, capital)
  {
  }

  lemma AllocationFull(rows: seq<WeightRow>, daily: seq<PriceRow>, capital: real, positions: map<Code, real>)
    requires PositiveWeights(rows) && PositivePrices(daily)
    requires Mass(rows, daily) >= 1.0
    requires positions.Keys == EffectiveWeights(rows, daily).Keys
    requires forall c :: c in positions ==> positions[c] == Shares(capital, EffectiveWeights(rows, daily)[c], Price(daily, c))
    ensures positions == Allocation(rows, daily, capital)
  {
  }

  // ---------------------------------------------------------------------
  // The day-by-day engine of run_backtest
  // ---------------------------------------------------------------------

  /** Everything run_backtest carries from one date to the next: the ledger
      `current_positions` (shares per stock), the cache `last_prices`, the
      running `capital`, and the rows recorded so far. */
  datatype EngineState = EngineState(
    ledger: map<Code, real>,
    cache: map<Code, real>,
    capital: real,
    values: seq<ValueRow>,
    snapshots: seq<DayHoldings>)

  /** `shares * close_price`. */
  function MarketValue(shares: real, close: real): real
  {
    shares * close
  }

  /** The stocks of the ledger that have a close in the day's rows. */
  function PricedHoldings(ledger: map<Code, real>, daily: seq<PriceRow>): set<Code>
  {
    set c | c in ledger.Keys && Priced(daily, c)
  }

  /** The cache after the mark-to-market loop: every held stock with a close
      that day takes it, every other entry is kept. */
  function Refresh(cache: map<Code, real>, ledger: map<Code, real>, daily: seq<PriceRow>): map<Code, real>
    requires PositivePrices(daily)
  {
    map c | c in cache.Keys + PricedHoldings(ledger, daily) ::
      if c in ledger && Priced(daily, c) then Price(daily, c) else cache[c]
  }

  /** The value of every held stock that has a cached price. */
  function Valuation(ledger: map<Code, real>, prices: map<Code, real>): map<Code, real>
  {
    map c | c in ledger && c in prices :: MarketValue(ledger[c], prices[c])
  }

  /** The holdings rows of one date: held stocks with a cached price. */
  function Snapshot(ledger: map<Code, real>, prices: map<Code, real>): map<Code, Holding>
  {
    map c | c in ledger && c in prices :: Holding(ledger[c], MarketValue(ledger[c], prices[c]))
  }

  /** What run_backtest looks up for one date: whether it is a schedule
      date, its timing signal, its schedule rows and its market rows. */
  datatype Day = Day(rebalance: bool, signal: Num, schedule: seq<WeightRow>, daily: seq<PriceRow>)

  predicate DayOk(day: Day)
  {
    PositiveWeights(day.schedule) && PositivePrices(day.daily)
  }

  function Today(inp: Inputs, d: Date): (r: Day)
    ensures WellFormed(inp) ==> DayOk(r)
    ensures r.rebalance <==> exists i :: 0 <= i < |inp.positions| && inp.positions[i].date == d
    ensures forall i :: 0 <= i < |r.daily| ==> r.daily[i].date == d
    ensures forall i :: 0 <= i < |r.schedule| ==> r.schedule[i].date == d
  {
    Day(IsRebalanceDate(inp.positions, d), ResolveSignal(inp.signals, d),
        DailySchedule(inp.positions, d), DailyMarket(inp.market, d))
  }

  /** The ledger after the rebalancing block: reallocated on a schedule date
      with a long signal, emptied on a schedule date without one, else kept. */
  ghost function NextLedger(st: EngineState, day: Day): map<Code, real>
    requires DayOk(day)
  {
    if day.rebalance then
      if IsLong(day.signal) then Allocation(day.schedule, day.daily, st.capital) else map[]
    else st.ledger
  }

  /** One iteration of the date loop: rebalancing block, mark to market,
      `capital = daily_value`, the value row and the holdings rows. */
  ghost function Advance(st: EngineState, d: Date, day: Day, initialCapital: real): EngineState
    requires DayOk(day) && initialCapital > 0.0
  {
    var ledger := NextLedger(st, day);
    var cache := Refresh(st.cache, ledger, day.daily);
    var total := Sum(Valuation(ledger, cache));
    EngineState(ledger, cache, total,
                st.values + [ValueRow(d, total / initialCapital)],
                st.snapshots + [DayHoldings(d, Snapshot(ledger, cache))])
  }

  ghost function StepSpec(st: EngineState, d: Date, inp: Inputs): EngineState
    requires WellFormed(inp)
  {
    Advance(st, d, Today(inp, d), inp.initialCapital)
  }

  function Start(inp: Inputs): EngineState
  {
    EngineState(map[], map[], inp.initialCapital, [], [])
  }

  /** The state after the date loop has run over `dates`. */
  ghost function Run(inp: Inputs, dates: seq<Date>): (r: EngineState)
    requires WellFormed(inp)
    ensures |r.values| == |dates| && |r.snapshots| == |dates|
  {
    if dates == [] then Start(inp)
    else StepSpec(Run(inp, dates[..|dates| - 1]), dates[|dates| - 1], inp)
  }

  /** The mutable state of run_backtest. */
  class Engine {
    var ledger: map<Code, real>
    var lastPrices: map<Code, real>
    var capital: real
    var values: seq<ValueRow>
    var snapshots: seq<DayHoldings>
    const initialCapital: real

    function Current(): EngineState
      reads this
    {
      EngineState(ledger, lastPrices, capital, values, snapshots)
    }

    constructor(initialCapital: real)
      ensures this.initialCapital == initialCapital
      ensures Current() == EngineState(map[], map[], initialCapital, [], [])
    {
      this.initialCapital := initialCapital;
      ledger := map[];
      lastPrices := map[];
      capital := initialCapital;
      values := [];
      snapshots := [];
    }

    /** Processes one trade date: rebalancing block, mark to market, value row, holdings rows. */
    method Step(d: Date, inp: Inputs)
      requires WellFormed(inp) && inp.initialCapital == initialCapital
      modifies this
      ensures Current() == StepSpec(old(Current()), d, inp)
    {
      var day := Today(inp, d);
      if day.rebalance {
        if IsLong(day.signal) {
          ledger := AdjustPositions(day.schedule, day.daily, capital);
        } else {
          ledger := map[];
        }
      }

      var dailyValue := MarkToMarket(day.daily);
      capital := dailyValue;
      values := values + [ValueRow(d, capital / initialCapital)];

      var holdings := Record();
      snapshots := snapshots + [DayHoldings(d, holdings)];
    }

    /** The mark-to-market loop: refreshes the cache from the day's closes and
        adds up the value of every held stock that has a price. */
    method MarkToMarket(daily: seq<PriceRow>) returns (dailyValue: real)
      requires PositivePrices(daily)
      modifies this
      ensures lastPrices == Refresh(old(lastPrices), ledger, daily)
      ensures dailyValue == Sum(Valuation(ledger, lastPrices))
      ensures ledger == old(ledger) && capital == old(capital)
      ensures values == old(values) && snapshots == old(snapshots)
    {
      dailyValue := 0.0;
      ghost var cache := lastPrices;
      var rest := ledger.Keys;
      while rest != {}
        invariant rest <= ledger.Keys
        invariant lastPrices == Refresh(cache, ledger - rest, daily)
        invariant dailyValue == Sum(Valuation(ledger - rest, lastPrices))
        invariant ledger == old(ledger) && capital == old(capital)
        invariant values == old(values) && snapshots == old(snapshots)
        decreases rest
      {
        var k :| k in rest;
        var price := Close(daily, k);
        ghost var before := lastPrices;
        RefreshOne(cache, ledger, rest, k, daily);
        if price.Some? {
          lastPrices := lastPrices[k := price.value];
        }
        if k in lastPrices {
          ValuationExtend(ledger, rest, k, before, lastPrices);
          dailyValue := dailyValue + MarketValue(ledger[k], lastPrices[k]);
        } else {
          assert Valuation(ledger - (rest - {k}), lastPrices) == Valuation(ledger - rest, before);
        }
        rest := rest - {k};
      }
      assert ledger - rest == ledger;
    }

    /** The holdings-recording loop. */
    method Record() returns (holdings: map<Code, Holding>)
      ensures holdings == Snapshot(ledger, lastPrices)
    {
      holdings := map[];
      var rest := ledger.Keys;
      while rest != {}
        invariant rest <= ledger.Keys
        invariant holdings == Snapshot(ledger - rest, lastPrices)
        decreases rest
      {
        var k :| k in rest;
        if k in lastPrices {
          holdings := holdings[k := Holding(ledger[k], MarketValue(ledger[k], lastPrices[k]))];
        }
        rest := rest - {k};
      }
      assert ledger - rest == ledger;
    }
  }

  /** Adding a held stock to the marked part of the ledger adds its value,
      when the cache changed at that stock only. */
  lemma ValuationExtend(ledger: map<Code, real>, rest: set<Code>, k: Code,
                        before: map<Code, real>, after: map<Code, real>)
    requires k in rest && k in ledger && k in after
    requires forall c :: c != k ==> (c in before <==> c in after)
    requires forall c :: c != k && c in before ==> before[c] == after[c]
    ensures Sum(Valuation(ledger - (rest - {k}), after))
         == Sum(Valuation(ledger - rest, before)) + MarketValue(ledger[k], after[k])
  {
    var v := Valuation(ledger - rest, before);
    assert Valuation(ledger - (rest - {k}), after) == v[k := MarketValue(ledger[k], after[k])];
    SumInsert(v, k, MarketValue(ledger[k], after[k]));
  }

  /** Marking one more held stock refreshes the cache at that stock only. */
  lemma RefreshOne(cache: map<Code, real>, ledger: map<Code, real>, rest: set<Code>, k: Code, daily: seq<PriceRow>)
    requires PositivePrices(daily)
    requires k in rest && k in ledger
    ensures Refresh(cache, ledger - (rest - {k}), daily)
         == if Priced(daily, k) then Refresh(cache, ledger - rest, daily)[k := Price(daily, k)]
            else Refresh(cache, ledger - rest, daily)
  {
  }

  /** run_backtest: the date loop over the trading calendar. */
  method RunBacktest(inp: Inputs) returns (values: seq<ValueRow>, snapshots: seq<DayHoldings>)
    requires WellFormed(inp)
    ensures values == Run(inp, Calendar(inp.market)).values
    ensures snapshots == Run(inp, Calendar(inp.market)).snapshots
    ensures |values| == |Calendar(inp.market)| && |snapshots| == |Calendar(inp.market)|
    ensures forall i :: 0 <= i < |values| ==> values[i].date == Calendar(inp.market)[i]
    ensures forall i, j :: 0 <= i < j < |values| ==> values[i].date < values[j].date
  {
    var dates := Calendar(inp.market);
    var engine := new Engine(inp.initialCapital);
    for i := 0 to |dates|
      invariant engine.Current() == Run(inp, dates[..i])
      invariant engine.initialCapital == inp.initialCapital
    {
      assert dates[..i + 1][..i] == dates[..i];
      engine.Step(dates[i], inp);
    }
    assert dates[..|dates|] == dates;
    values := engine.values;
    snapshots := engine.snapshots;
    RunRecordsDates(inp, dates);
  }

  // ---------------------------------------------------------------------
  // Properties of the engine
  // ---------------------------------------------------------------------

  /** What holds between dates: every held stock has a cached price, cached
      prices are positive, no position is short and the capital is not negative. */
  ghost predicate GoodState(st: EngineState)
  {
    && st.ledger.Keys <= st.cache.Keys
    && (forall c :: c in st.cache ==> st.cache[c] > 0.0)
    && (forall c :: c in st.ledger ==> st.ledger[c] >= 0.0)
    && st.capital >= 0.0
  }

  lemma SharesNonNegative(capital: real, weight: real, close: real)
    requires capital >= 0.0 && weight >= 0.0 && close > 0.0
    ensures Shares(capital, weight, close) >= 0.0
  {
  }

  lemma MarketValueNonNegative(shares: real, close: real)
    requires shares >= 0.0 && close >= 0.0
    ensures MarketValue(shares, close) >= 0.0
  {
  }

  /** A rebalance allocates only priced stocks, and no stock short. */
  lemma AllocationFacts(rows: seq<WeightRow>, daily: seq<PriceRow>, capital: real)
    requires PositiveWeights(rows) && PositivePrices(daily) && capital >= 0.0
    ensures forall c :: c in Allocation(rows, daily, capital) ==> Priced(daily, c)
    ensures forall c :: c in Allocation(rows, daily, capital) ==> Allocation(rows, daily, capital)[c] >= 0.0
  {
    var eff := EffectiveWeights(rows, daily);
    MassPositive(rows, daily);
    var mass := Sum(eff);
    var a := Allocation(rows, daily, capital);
    forall c | c in a
      ensures a[c] >= 0.0
    {
      SharesNonNegative(capital, Target(eff[c], mass), Price(daily, c));
    }
  }

  /** The date loop keeps GoodState. */
  lemma StepKeepsGoodState(st: EngineState, d: Date, day: Day, initialCapital: real)
    requires DayOk(day) && initialCapital > 0.0 && GoodState(st)
    ensures GoodState(Advance(st, d, day, initialCapital))
  {
    if day.rebalance && IsLong(day.signal) {
      AllocationFacts(day.schedule, day.daily, st.capital);
    }
    var ledger := NextLedger(st, day);
    var cache := Refresh(st.cache, ledger, day.daily);
    var v := Valuation(ledger, cache);
    forall c | c in v
      ensures v[c] >= 0.0
    {
      MarketValueNonNegative(ledger[c], cache[c]);
    }
    SumSign(v);
  }

  lemma {:induction false} RunKeepsGoodState(inp: Inputs, dates: seq<Date>)
    requires WellFormed(inp)
    ensures GoodState(Run(inp, dates))
  {
    if dates != [] {
      RunKeepsGoodState(inp, dates[..|dates| - 1]);
      StepKeepsGoodState(Run(inp, dates[..|dates| - 1]), dates[|dates| - 1], Today(inp, dates[|dates| - 1]), inp.initialCapital);
    }
  }

  /** Because every held stock has a cached price, the NaN fallback of the
      mark-to-market loop never fires: every holding is valued and recorded. */
  lemma EveryHoldingValued(inp: Inputs, dates: seq<Date>)
    requires WellFormed(inp) && dates != []
    ensures Valuation(Run(inp, dates).ledger, Run(inp, dates).cache).Keys == Run(inp, dates).ledger.Keys
    ensures Run(inp, dates).snapshots[|dates| - 1].holdings.Keys == Run(inp, dates).ledger.Keys
  {
    RunKeepsGoodState(inp, dates);
    RunRecordsDates(inp, dates);
  }

  /** One value row and one holdings entry per date, in calendar order, the
      value row being the capital over the initial capital. */
  lemma {:induction false} RunRecordsDates(inp: Inputs, dates: seq<Date>)
    requires WellFormed(inp)
    ensures forall i :: 0 <= i < |dates| ==>
              Run(inp, dates).values[i].date == dates[i] && Run(inp, dates).snapshots[i].date == dates[i]
    ensures dates != [] ==>
              Run(inp, dates).values[|dates| - 1].portfolioValue == Run(inp, dates).capital / inp.initialCapital
  {
    if dates != [] {
      RunRecordsDates(inp, dates[..|dates| - 1]);
    }
  }

  /** The share of the capital a rebalance puts to work: all of it when the
      priced weights fall short of 1 (they are rescaled), their mass otherwise. */
  ghost function Deployment(rows: seq<WeightRow>, daily: seq<PriceRow>): real
  {
    if EffectiveWeights(rows, daily) == map[] then 0.0
    else if Mass(rows, daily) < 1.0 then 1.0
    else Mass(rows, daily)
  }

  /** Shares bought at a close and marked at the same close are worth what they cost. */
  lemma Cancel(shares: real, mark: real, close: real, capital: real, weight: real)
    requires close > 0.0 && shares == Shares(capital, weight, close) && mark == close
    ensures MarketValue(shares, mark) == capital * weight
  {
  }

  /** The final weights sum to 1 when the priced mass is below 1 (they are
      rescaled), and to the mass otherwise. */
  lemma TargetsSum(rows: seq<WeightRow>, daily: seq<PriceRow>)
    requires PositiveWeights(rows)
    ensures Sum(Targets(rows, daily)) == Deployment(rows, daily)
  {
    var eff := EffectiveWeights(rows, daily);
    var t := Targets(rows, daily);
    if eff == map[] {
      SumEmptyIsZero(t);
    } else {
      MassPositive(rows, daily);
      var mass := Mass(rows, daily);
      if mass < 1.0 {
        SumNormalized(eff, mass, t);
      } else {
        assert t == eff;
      }
    }
  }

  /** A held stock with a close that day is cached at that close. */
  lemma RefreshedAt(cache: map<Code, real>, ledger: map<Code, real>, daily: seq<PriceRow>, c: Code)
    requires PositivePrices(daily)
    requires c in ledger && Priced(daily, c)
    ensures c in Refresh(cache, ledger, daily) && Refresh(cache, ledger, daily)[c] == Price(daily, c)
  {
    assert c in PricedHoldings(ledger, daily);
  }

  /** Shares bought at the day's closes and marked at the same closes are worth capital times their weights. */
  lemma ValuationOfShares(a: map<Code, real>, r: map<Code, real>, t: map<Code, real>, capital: real, daily: seq<PriceRow>)
    requires PositivePrices(daily) && a.Keys == t.Keys
    requires forall c :: c in t ==> Priced(daily, c) && a[c] == Shares(capital, t[c], Price(daily, c))
    requires forall c :: c in a ==> c in r && r[c] == Price(daily, c)
    ensures Scaled(t, capital, Valuation(a, r))
  {
    ValuationKeys(a, r);
    forall c | c in t
      ensures Valuation(a, r)[c] == capital * t[c]
    {
      ValuedAt(a, r, capital, t[c], Price(daily, c), c);
    }
  }

  lemma ValuationKeys(a: map<Code, real>, r: map<Code, real>)
    requires forall c :: c in a ==> c in r
    ensures Valuation(a, r).Keys == a.Keys
  {
  }

  lemma ValuedAt(a: map<Code, real>, r: map<Code, real>, capital: real, weight: real, close: real, c: Code)
    requires c in a && c in r && close > 0.0
    requires a[c] == Shares(capital, weight, close) && r[c] == close
    ensures c in Valuation(a, r) && Valuation(a, r)[c] == capital * weight
  {
    Cancel(a[c], r[c], close, capital, weight);
  }

  /** Marked at the day's closes, each allocated stock is worth capital times its final weight. */
  lemma AllocationValuation(rows: seq<WeightRow>, daily: seq<PriceRow>, capital: real, cache: map<Code, real>)
    requires PositiveWeights(rows) && PositivePrices(daily)
    ensures Scaled(Targets(rows, daily), capital,
                   Valuation(Allocation(rows, daily, capital), Refresh(cache, Allocation(rows, daily, capital), daily)))
  {
    var a := Allocation(rows, daily, capital);
    var r := Refresh(cache, a, daily);
    var t := Targets(rows, daily);
    forall c | c in a
      ensures c in r && r[c] == Price(daily, c)
    {
      RefreshedAt(cache, a, daily, c);
    }
    assert a.Keys == t.Keys;
    ValuationOfShares(a, r, t, capital, daily);
  }

  /** Marked at the day's closes, the shares bought by a rebalance are worth
      the capital times the deployment. */
  lemma AllocationWorth(rows: seq<WeightRow>, daily: seq<PriceRow>, capital: real, cache: map<Code, real>)
    requires PositiveWeights(rows) && PositivePrices(daily)
    ensures Sum(Valuation(Allocation(rows, daily, capital), Refresh(cache, Allocation(rows, daily, capital), daily)))
         == capital * Deployment(rows, daily)
  {
    var t := Targets(rows, daily);
    AllocationValuation(rows, daily, capital, cache);
    var x, s := SumScale(t, capital, Valuation(Allocation(rows, daily, capital), Refresh(cache, Allocation(rows, daily, capital), daily)));
    TargetsSum(rows, daily);
    MulCongruence(capital, x, Deployment(rows, daily));
  }

  /** On a schedule date with a long signal the new capital is the old one
      times the deployment: the whole capital when some weight is unpriced. */
  lemma RebalanceDeploysCapital(st: EngineState, d: Date, day: Day, initialCapital: real)
    requires DayOk(day) && initialCapital > 0.0
    requires day.rebalance && IsLong(day.signal)
    ensures Advance(st, d, day, initialCapital).capital == st.capital * Deployment(day.schedule, day.daily)
  {
    AllocationWorth(day.schedule, day.daily, st.capital, st.cache);
  }

  /** On a schedule date whose signal is not 1 the ledger is emptied and,
      the cash never being kept, the capital and the recorded value drop to 0. */
  lemma FlattenWipesCapital(st: EngineState, d: Date, day: Day, initialCapital: real)
    requires DayOk(day) && initialCapital > 0.0
    requires day.rebalance && !IsLong(day.signal)
    ensures Advance(st, d, day, initialCapital).ledger == map[]
    ensures Advance(st, d, day, initialCapital).capital == 0.0
    ensures Advance(st, d, day, initialCapital).values[|st.values|].portfolioValue == 0.0
  {
    var cache := Refresh(st.cache, map[], day.daily);
    assert Valuation(map[], cache) == map[];
    SumEmptyIsZero(Valuation(map[], cache));
  }

  /** A date without schedule rows keeps the ledger whatever its signal; when
      that ledger is empty (any date before the first rebalance) the capital
      and the recorded value drop to 0 as well. */
  lemma IdleKeepsLedger(st: EngineState, d: Date, day: Day, initialCapital: real)
    requires DayOk(day) && initialCapital > 0.0 && !day.rebalance
    ensures Advance(st, d, day, initialCapital).ledger == st.ledger
    ensures st.ledger == map[] ==> Advance(st, d, day, initialCapital).capital == 0.0
    ensures st.ledger == map[] ==> Advance(st, d, day, initialCapital).values[|st.values|].portfolioValue == 0.0
  {
    if st.ledger == map[] {
      var cache := Refresh(st.cache, map[], day.daily);
      assert Valuation(map[], cache) == map[];
      SumEmptyIsZero(Valuation(map[], cache));
    }
  }

  /** A state whose capital is 0 and whose positions are all 0 shares. */
  ghost predicate Wiped(st: EngineState)
  {
    st.capital == 0.0 && forall c :: c in st.ledger ==> st.ledger[c] == 0.0
  }

  /** Nothing brings a wiped portfolio back: every later rebalance invests 0. */
  lemma StepKeepsWiped(st: EngineState, d: Date, day: Day, initialCapital: real)
    requires DayOk(day) && initialCapital > 0.0 && Wiped(st)
    ensures Wiped(Advance(st, d, day, initialCapital))
  {
    var ledger := NextLedger(st, day);
    if day.rebalance && IsLong(day.signal) {
      var t := Targets(day.schedule, day.daily);
      forall c | c in ledger
        ensures ledger[c] == 0.0
      {
        ZeroShares(t[c], Price(day.daily, c));
      }
    }
    var v := Valuation(ledger, Refresh(st.cache, ledger, day.daily));
    SumZero(v);
  }

  lemma ZeroShares(weight: real, close: real)
    requires close > 0.0
    ensures Shares(0.0, weight, close) == 0.0
  {
  }

  /** A date after a wiped state leaves the run wiped and appends a 0 value row. */
  lemma StepAfterWiped(inp: Inputs, dates: seq<Date>)
    requires WellFormed(inp) && dates != [] && Wiped(Run(inp, dates[..|dates| - 1]))
    ensures Wiped(Run(inp, dates))
    ensures Run(inp, dates).values == Run(inp, dates[..|dates| - 1]).values + [ValueRow(dates[|dates| - 1], 0.0)]
  {
    var d := dates[|dates| - 1];
    var st := Run(inp, dates[..|dates| - 1]);
    var day := Today(inp, d);
    var next := Advance(st, d, day, inp.initialCapital);
    assert Run(inp, dates) == next;
    StepKeepsWiped(st, d, day, inp.initialCapital);
    assert next.values == st.values + [ValueRow(d, next.capital / inp.initialCapital)];
    ZeroOver(next.capital, inp.initialCapital);
  }

  lemma ZeroOver(x: real, y: real)
    requires x == 0.0 && y > 0.0
    ensures x / y == 0.0
  {
  }

  /** Once the run is wiped at date i, it stays wiped, and the value row of
      that date and of every later date is 0. */
  lemma {:induction false} WipedForever(inp: Inputs, dates: seq<Date>, i: nat)
    requires WellFormed(inp) && i < |dates|
    requires Wiped(Run(inp, dates[..i + 1]))
    ensures Wiped(Run(inp, dates))
    ensures forall j :: i <= j < |dates| ==> Run(inp, dates).values[j].portfolioValue == 0.0
    decreases |dates|
  {
    if |dates| == i + 1 {
      assert dates[..i + 1] == dates;
      RunRecordsDates(inp, dates);
    } else {
      var init := dates[..|dates| - 1];
      assert init[..i + 1] == dates[..i + 1];
      WipedForever(inp, init, i);
      StepAfterWiped(inp, dates);
    }
  }

  /** Finding: a single flat signal on a schedule date zeroes the value row of
      that date and of every later date, whatever the later signals and prices. */
  lemma FlattenIsPermanent(inp: Inputs, dates: seq<Date>, i: nat)
    requires WellFormed(inp) && i < |dates|
    requires IsRebalanceDate(inp.positions, dates[i]) && !IsLong(ResolveSignal(inp.signals, dates[i]))
    ensures forall j :: i <= j < |dates| ==> Run(inp, dates).values[j].portfolioValue == 0.0
  {
    var pre := dates[..i + 1];
    assert pre[..i] == dates[..i];
    FlattenWipesCapital(Run(inp, dates[..i]), dates[i], Today(inp, dates[i]), inp.initialCapital);
    WipedForever(inp, dates, i);
  }

  /* The date loop with the uninvested cash kept: the value of a date is the
     cash plus the marked positions. A rebalance spends what the new
     positions cost at the day's closes and keeps the rest; a flatten turns
     the whole capital into cash. */

  datatype CashState = CashState(ledger: map<Code, real>, cache: map<Code, real>, cash: real, capital: real)

  /** One date of the loop with the cash kept: the book is worth its cash
      plus its holdings at the latest prices, a date without rebalancing
      keeps the book and the cash, and a flat rebalance sells into cash. */
  ghost function CashAdvance(st: CashState, day: Day): (r: CashState)
    requires DayOk(day)
    ensures r.capital == r.cash + Sum(Valuation(r.ledger, r.cache))
    ensures !day.rebalance ==> r.ledger == st.ledger && r.cash == st.cash
    ensures day.rebalance && !IsLong(day.signal) ==> r.ledger == map[] && r.cash == st.capital
  {
    var ledger :=
      if day.rebalance then
        if IsLong(day.signal) then Allocation(day.schedule, day.daily, st.capital) else map[]
      else st.ledger;
    var cache := Refresh(st.cache, ledger, day.daily);
    var held := Sum(Valuation(ledger, cache));
    var cash :=
      if day.rebalance then st.capital - (if IsLong(day.signal) then held else 0.0)
      else st.cash;
    CashState(ledger, cache, cash, cash + held)
  }

  /** With the cash kept, a flat signal preserves the capital instead of zeroing it. */
  lemma CashFlattenKeepsCapital(st: CashState, day: Day)
    requires DayOk(day) && day.rebalance && !IsLong(day.signal)
    ensures CashAdvance(st, day).ledger == map[]
    ensures CashAdvance(st, day).cash == st.capital
    ensures CashAdvance(st, day).capital == st.capital
  {
    var cache := Refresh(st.cache, map[], day.daily);
    assert Valuation(map[], cache) == map[];
    SumEmptyIsZero(Valuation(map[], cache));
  }

  /** With the cash kept, a rebalance leaves in cash the share of the capital
      the weights do not put to work, and the capital is unchanged. */
  lemma CashRebalanceKeepsRemainder(st: CashState, day: Day)
    requires DayOk(day) && day.rebalance && IsLong(day.signal)
    ensures CashAdvance(st, day).cash == st.capital * (1.0 - Deployment(day.schedule, day.daily))
    ensures CashAdvance(st, day).capital == st.capital
  {
    AllocationWorth(day.schedule, day.daily, st.capital, st.cache);
  }

  /** With the cash kept, a flat book on a date without rebalancing is worth
      exactly its cash. */
  lemma CashIdleFlatIsCash(st: CashState, day: Day)
    requires DayOk(day) && !day.rebalance && st.ledger == map[]
    ensures CashAdvance(st, day).capital == st.cash
  {
    var cache := Refresh(st.cache, map[], day.daily);
    assert Valuation(map[], cache) == map[];
    SumEmptyIsZero(Valuation(map[], cache));
  }
}
