/** Sentiment factors of a stock table: turnover rate, limit-up and
    limit-down flags, the run of consecutive limit-up days per stock, the
    market heat of each date from a market table, and two placeholder
    columns that stay empty. */
module Sentiment {
  import opened Common

  /** A daily change of at least 9.9 percent is a limit-up, of at most -9.9 a limit-down. */
  const LimitPct: real := 9.9

  /** One row of the stock table. */
  datatype StockRow = StockRow(code: Code, date: Date, pctChg: Num, vol: Num, floatShare: Num)

  /** `(pct_chg >= 9.9).astype(int)`: a NaN change gives 0. */
  function LimitUpFlag(pct: Num): (r: nat)
    ensures r == 1 <==> pct.Val? && pct.v >= LimitPct
    ensures r == 0 <==> !(pct.Val? && pct.v >= LimitPct)
  {
    if Ge(pct, LimitPct) then 1 else 0
  }

  /** `(pct_chg <= -9.9).astype(int)`. */
  function LimitDownFlag(pct: Num): (r: nat)
    ensures r == 1 <==> pct.Val? && pct.v <= -LimitPct
    ensures r == 0 <==> !(pct.Val? && pct.v <= -LimitPct)
  {
    if Le(pct, -LimitPct) then 1 else 0
  }

  /** No change is both a limit-up and a limit-down. */
  lemma LimitFlagsExclusive(pct: Num)
    ensures LimitUpFlag(pct) + LimitDownFlag(pct) <= 1
  {
  }

  /** `vol / float_share` when the table has both columns, NaN otherwise;
      a missing operand or a zero float share gives NaN. */
  function Turnover(hasColumns: bool, vol: Num, floatShare: Num): (r: Num)
    ensures !hasColumns ==> r.Undef?
    ensures r.Val? ==> vol.Val? && floatShare.Val? && floatShare.v != 0.0 && r.v * floatShare.v == vol.v
    ensures hasColumns && vol.Val? && floatShare.Val? && floatShare.v != 0.0 ==> r.Val?
  {
    if hasColumns && vol.Val? && floatShare.Val? && floatShare.v != 0.0 then Val(vol.v / floatShare.v) else Undef
  }

  /** The counter after scanning a stock's limit-up flags in date order:
      one more on a limit-up, back to 0 otherwise. */
  function Run(ups: seq<bool>): nat
  {
    if ups == [] then 0
    else if ups[|ups| - 1] then Run(ups[..|ups| - 1]) + 1
    else 0
  }

  /** The counter is the length of the run of limit-ups that ends the scan:
      it is 0 exactly when the last day is not a limit-up, never more than
      the days scanned, every day of the run is a limit-up, and the day
      before the run is not. */
  lemma {:induction false} RunIsTrailingRun(ups: seq<bool>)
    ensures Run(ups) == 0 <==> ups == [] || !ups[|ups| - 1]
    ensures Run(ups) <= |ups|
    ensures forall j :: |ups| - Run(ups) <= j < |ups| ==> ups[j]
    ensures Run(ups) < |ups| ==> !ups[|ups| - 1 - Run(ups)]
    decreases |ups|
  {
    if ups != [] {
      var n := |ups| - 1;
      RunIsTrailingRun(ups[..n]);
      assert forall j :: 0 <= j < n ==> ups[..n][j] == ups[j];
    }
  }

  /** The count a row of stock c gets is 0 exactly on a day that is not a
      limit-up, and never exceeds the row's 1-based position in the stock's
      date-ordered history. */
  lemma CountFacts(rows: seq<StockRow>, c: Code, q: nat)
    requires KeysUnique(rows) && q < |History(rows, c, |rows|)|
    ensures var g := History(rows, c, |rows|);
            var n := Run(Ups(rows, g)[..q + 1]);
            (n == 0 <==> LimitUpFlag(rows[g[q]].pctChg) == 0) && n <= q + 1
  {
    var g := History(rows, c, |rows|);
    RunIsTrailingRun(Ups(rows, g)[..q + 1]);
  }

  /** No two rows share both stock code and date. */
  predicate KeysUnique(rows: seq<StockRow>)
  {
    forall i, j :: 0 <= i < j < |rows| ==> rows[i].code != rows[j].code || rows[i].date != rows[j].date
  }

  /** Positions into `rows` whose dates strictly increase. */
  predicate DateOrdered(rows: seq<StockRow>, g: seq<nat>)
  {
    (forall q :: 0 <= q < |g| ==> g[q] < |rows|)
    && forall p, q :: 0 <= p < q < |g| ==> rows[g[p]].date < rows[g[q]].date
  }

  /** Inserts position i into a date-ordered list of positions. */
  function InsertByDate(rows: seq<StockRow>, g: seq<nat>, i: nat): (r: seq<nat>)
    requires DateOrdered(rows, g) && i < |rows|
    requires forall q :: 0 <= q < |g| ==> rows[g[q]].date != rows[i].date
    ensures DateOrdered(rows, r)
    ensures forall k :: k in r <==> k in g || k == i
  {
    if g == [] then [i]
    else if rows[i].date < rows[g[0]].date then [i] + g
    else
      var t := InsertByDate(rows, g[1..], i);
      assert forall k :: k in g[1..] ==> rows[g[0]].date < rows[k].date;
      assert forall j :: 0 <= j < |t| ==> rows[g[0]].date < rows[t[j]].date by {
        forall j | 0 <= j < |t| ensures rows[g[0]].date < rows[t[j]].date {
          assert t[j] in t;
        }
      }
      [g[0]] + t
  }

  /** The positions among the first m rows of stock c, in date order: the
      group of c sorted by date. */
  function History(rows: seq<StockRow>, c: Code, m: nat): (g: seq<nat>)
    requires KeysUnique(rows) && m <= |rows|
    ensures DateOrdered(rows, g)
    ensures forall k :: k in g <==> 0 <= k < m && rows[k].code == c
  {
    if m == 0 then []
    else
      var g := History(rows, c, m - 1);
      if rows[m - 1].code == c then
        assert forall q :: 0 <= q < |g| ==> g[q] in g;
        InsertByDate(rows, g, m - 1)
      else g
  }

  /** The limit-up flags along a list of positions. */
  function Ups(rows: seq<StockRow>, g: seq<nat>): (r: seq<bool>)
    requires forall q :: 0 <= q < |g| ==> g[q] < |rows|
    ensures |r| == |g| && forall q :: 0 <= q < |g| ==> r[q] == (LimitUpFlag(rows[g[q]].pctChg) == 1)
  {
    seq(|g|, q requires 0 <= q < |g| => LimitUpFlag(rows[g[q]].pctChg) == 1)
  }

  /** Distinct positions of a date-ordered list. */
  lemma OrderedDistinct(rows: seq<StockRow>, g: seq<nat>, p: nat, q: nat)
    requires DateOrdered(rows, g) && p < |g| && q < |g| && p != q
    ensures g[p] != g[q]
  {
  }

  /** The consecutive limit-up count of every row: each stock's rows are
      visited in date order with a counter that starts at 0, and each row
      gets the counter after its own day. A stock's count depends only on
      its own rows. */
  method ConsecutiveLimitUp(rows: seq<StockRow>) returns (counts: seq<nat>)
    requires KeysUnique(rows)
    ensures |counts| == |rows|
    ensures forall c, q :: 0 <= q < |History(rows, c, |rows|)| ==>
              counts[History(rows, c, |rows|)[q]] == Run(Ups(rows, History(rows, c, |rows|))[..q + 1])
  {
    counts := seq(|rows|, i => 0);
    var todo := set i | 0 <= i < |rows| :: rows[i].code;
    ghost var done: set<Code> := {};
    while todo != {}
      invariant |counts| == |rows|
      invariant forall i :: 0 <= i < |rows| ==> rows[i].code in todo || rows[i].code in done
      invariant todo !! done
      invariant forall c, q :: c in done && 0 <= q < |History(rows, c, |rows|)| ==>
                  counts[History(rows, c, |rows|)[q]] == Run(Ups(rows, History(rows, c, |rows|))[..q + 1])
      decreases |todo|
    {
      var c :| c in todo;
      ghost var before := counts;
      var g := History(rows, c, |rows|);
      forall p, q | 0 <= p < q < |g|
        ensures g[p] != g[q]
      {
        OrderedDistinct(rows, g, p, q);
      }
      counts := CountRun(rows, g, counts);
      forall i | 0 <= i < |rows| && rows[i].code != c
        ensures counts[i] == before[i]
      {
        assert i !in g;
      }
      AllCodesOf(rows, c, g, done, counts, before);
      todo := todo - {c};
      done := done + {c};
    }
    forall c, q | 0 <= q < |History(rows, c, |rows|)|
      ensures counts[History(rows, c, |rows|)[q]] == Run(Ups(rows, History(rows, c, |rows|))[..q + 1])
    {
      var g := History(rows, c, |rows|);
      assert g[q] in g;
    }
  }

  /** Visits the positions g in order with a fresh counter and writes each
      position's count; every other position keeps its count. */
  method CountRun(rows: seq<StockRow>, g: seq<nat>, counts0: seq<nat>) returns (counts: seq<nat>)
    requires |counts0| == |rows|
    requires forall q :: 0 <= q < |g| ==> g[q] < |rows|
    requires forall p, q :: 0 <= p < q < |g| ==> g[p] != g[q]
    ensures |counts| == |rows|
    ensures forall q :: 0 <= q < |g| ==> counts[g[q]] == Run(Ups(rows, g)[..q + 1])
    ensures forall i :: 0 <= i < |rows| && i !in g ==> counts[i] == counts0[i]
  {
    var ups := Ups(rows, g);
    counts := counts0;
    var consecutive := 0;
    var p := 0;
    while p < |g|
      invariant 0 <= p <= |g| && |counts| == |rows|
      invariant consecutive == Run(ups[..p])
      invariant forall q :: 0 <= q < p ==> counts[g[q]] == Run(ups[..q + 1])
      invariant forall i :: 0 <= i < |rows| && i !in g ==> counts[i] == counts0[i]
    {
      RunStep(ups, p);
      if LimitUpFlag(rows[g[p]].pctChg) == 1 {
        consecutive := consecutive + 1;
      } else {
        consecutive := 0;
      }
      WriteCount(counts, counts0, g, ups, p, consecutive);
      counts := counts[g[p] := consecutive];
      p := p + 1;
    }
  }

  /** One more flag either extends the run or ends it. */
  lemma RunStep(ups: seq<bool>, p: nat)
    requires p < |ups|
    ensures Run(ups[..p + 1]) == if ups[p] then Run(ups[..p]) + 1 else 0
  {
    assert ups[..p + 1][..p] == ups[..p];
  }

  /** Writing the count of position g[p] keeps the counts already written
      and those of positions outside g. */
  lemma WriteCount(counts: seq<nat>, counts0: seq<nat>, g: seq<nat>, ups: seq<bool>, p: nat, v: nat)
    requires p < |g| <= |ups| && |counts| == |counts0|
    requires forall q :: 0 <= q < |g| ==> g[q] < |counts|
    requires forall a, b :: 0 <= a < b < |g| ==> g[a] != g[b]
    requires forall q :: 0 <= q < p ==> counts[g[q]] == Run(ups[..q + 1])
    requires forall i :: 0 <= i < |counts| && i !in g ==> counts[i] == counts0[i]
    requires v == Run(ups[..p + 1])
    ensures forall q :: 0 <= q < p + 1 ==> counts[g[p] := v][g[q]] == Run(ups[..q + 1])
    ensures forall i :: 0 <= i < |counts| && i !in g ==> counts[g[p] := v][i] == counts0[i]
  {
  }

  /** Rows of codes already visited keep their counts while stock c is visited. */
  lemma AllCodesOf(rows: seq<StockRow>, c: Code, g: seq<nat>, done: set<Code>, counts: seq<nat>, before: seq<nat>)
    requires KeysUnique(rows) && g == History(rows, c, |rows|)
    requires c !in done && |counts| == |before| == |rows|
    requires forall i :: 0 <= i < |rows| && rows[i].code != c ==> counts[i] == before[i]
    requires forall d, q :: d in done && 0 <= q < |History(rows, d, |rows|)| ==>
               before[History(rows, d, |rows|)[q]] == Run(Ups(rows, History(rows, d, |rows|))[..q + 1])
    requires forall q :: 0 <= q < |g| ==> counts[g[q]] == Run(Ups(rows, g)[..q + 1])
    ensures forall d, q :: d in done + {c} && 0 <= q < |History(rows, d, |rows|)| ==>
              counts[History(rows, d, |rows|)[q]] == Run(Ups(rows, History(rows, d, |rows|))[..q + 1])
  {
    forall d, q | d in done + {c} && 0 <= q < |History(rows, d, |rows|)|
      ensures counts[History(rows, d, |rows|)[q]] == Run(Ups(rows, History(rows, d, |rows|))[..q + 1])
    {
      var h := History(rows, d, |rows|);
      assert h[q] in h;
    }
  }

  /** One row of the market table, with the two flag columns. */
  datatype FlagRow = FlagRow(date: Date, isLimitUp: nat, isLimitDown: nat)

  function UpSum(market: seq<FlagRow>, d: Date): nat
  {
    if market == [] then 0
    else UpSum(market[..|market| - 1], d) + (if market[|market| - 1].date == d then market[|market| - 1].isLimitUp else 0)
  }

  function DownSum(market: seq<FlagRow>, d: Date): nat
  {
    if market == [] then 0
    else DownSum(market[..|market| - 1], d) + (if market[|market| - 1].date == d then market[|market| - 1].isLimitDown else 0)
  }

  /** An up-sum of 0 on a date means no row of that date is flagged limit-up. */
  lemma {:induction false} UpSumZero(market: seq<FlagRow>, d: Date)
    ensures UpSum(market, d) == 0 <==> forall i :: 0 <= i < |market| && market[i].date == d ==> market[i].isLimitUp == 0
    decreases |market|
  {
    if market != [] {
      var n := |market| - 1;
      UpSumZero(market[..n], d);
      assert forall i :: 0 <= i < n ==> market[..n][i] == market[i];
    }
  }

  predicate HasDate(market: seq<FlagRow>, d: Date)
  {
    exists i :: 0 <= i < |market| && market[i].date == d
  }

  /** The market heat of a date as the left merge of the per-date table
      sees it: the limit-up count over the limit-down count plus one, NaN
      for a date the market table lacks. */
  function HeatOn(market: seq<FlagRow>, d: Date): (r: Num)
    ensures r.Val? <==> HasDate(market, d)
    ensures r.Val? ==> r.v >= 0.0 && r.v * (DownSum(market, d) + 1) as real == UpSum(market, d) as real
  {
    if HasDate(market, d) then Val(UpSum(market, d) as real / (DownSum(market, d) + 1) as real) else Undef
  }

  /** A defined heat is 0 exactly when no stock of the date hit limit-up. */
  lemma HeatZero(market: seq<FlagRow>, d: Date)
    requires HasDate(market, d)
    ensures HeatOn(market, d).v == 0.0 <==>
              forall i :: 0 <= i < |market| && market[i].date == d ==> market[i].isLimitUp == 0
  {
    UpSumZero(market, d);
  }

  /** The heat column as written: with the flag columns, the merged heat of
      each stock row; without them the per-date table has no `trade_date`
      key, so the merge raises KeyError. */
  function MergeHeatAsWritten(stock: seq<StockRow>, market: seq<FlagRow>, hasFlags: bool): (r: Result<seq<Num>>)
    ensures r.Err? <==> !hasFlags
    ensures r.Ok? ==> |r.value| == |stock| && forall i :: 0 <= i < |stock| ==> r.value[i] == HeatOn(market, stock[i].date)
  {
    if hasFlags then Ok(seq(|stock|, i requires 0 <= i < |stock| => HeatOn(market, stock[i].date)))
    else Err(KeyError)
  }

  /** The heat column as intended: the merged heat with the flag columns,
      NaN on every row without them. */
  function MergeHeat(stock: seq<StockRow>, market: seq<FlagRow>, hasFlags: bool): (r: seq<Num>)
    ensures |r| == |stock|
    ensures !hasFlags ==> forall i :: 0 <= i < |r| ==> r[i].Undef?
    ensures hasFlags ==> forall i :: 0 <= i < |r| ==> r[i] == HeatOn(market, stock[i].date)
  {
    seq(|stock|, i requires 0 <= i < |stock| => if hasFlags then HeatOn(market, stock[i].date) else Undef)
  }

  /** The two agree when the flag columns exist; without them the code as
      written fails on every input, where the evident intent is a NaN heat. */
  lemma MergeHeatDiffers(stock: seq<StockRow>, market: seq<FlagRow>, hasFlags: bool)
    ensures hasFlags ==> MergeHeatAsWritten(stock, market, hasFlags) == Ok(MergeHeat(stock, market, hasFlags))
    ensures !hasFlags ==> MergeHeatAsWritten(stock, market, hasFlags) == Err(KeyError)
  {
    if hasFlags {
      assert MergeHeatAsWritten(stock, market, hasFlags).value == MergeHeat(stock, market, hasFlags);
    }
  }

  /** One row of the result: `ts_code`, `trade_date`, `turnover_rate`,
      `consecutive_limit_up`, `market_heat`, `net_buy_lhb`, `sentiment_score`. */
  datatype SentimentRow = SentimentRow(
    code: Code, date: Date, turnoverRate: Num, consecutiveLimitUp: nat,
    marketHeat: Num, netBuyLhb: Num, sentimentScore: Num)

  /** `calculate_sentiment_factors` as written: a KeyError without the
      limit-up flag column; otherwise one row per stock row, in order, with
      its turnover, its consecutive limit-up count and the heat the code's
      merge gives its date; the two placeholder columns are empty. */
  method SentimentFactors(stock: seq<StockRow>, market: seq<FlagRow>, hasTurnoverColumns: bool, hasFlags: bool)
    returns (res: Result<seq<SentimentRow>>)
    requires KeysUnique(stock)
    ensures res.Err? <==> !hasFlags
    ensures res.Err? ==> res.error == KeyError
    ensures res.Ok? ==> |res.value| == |stock|
    ensures res.Ok? ==> forall i :: 0 <= i < |stock| ==>
              res.value[i].code == stock[i].code && res.value[i].date == stock[i].date
              && res.value[i].turnoverRate == Turnover(hasTurnoverColumns, stock[i].vol, stock[i].floatShare)
              && res.value[i].marketHeat == HeatOn(market, stock[i].date)
              && res.value[i].netBuyLhb.Undef? && res.value[i].sentimentScore.Undef?
    ensures res.Ok? ==> forall c, q :: 0 <= q < |History(stock, c, |stock|)| ==>
              res.value[History(stock, c, |stock|)[q]].consecutiveLimitUp
              == Run(Ups(stock, History(stock, c, |stock|))[..q + 1])
  {
    var counts := ConsecutiveLimitUp(stock);
    var merged := MergeHeatAsWritten(stock, market, hasFlags);
    if merged.Err? {
      return Err(merged.error);
    }
    var heat := merged.value;
    var out := seq(|stock|, i requires 0 <= i < |stock| =>
      SentimentRow(stock[i].code, stock[i].date, Turnover(hasTurnoverColumns, stock[i].vol, stock[i].floatShare),
                   counts[i], heat[i], Undef, Undef));
    forall c, q | 0 <= q < |History(stock, c, |stock|)|
      ensures out[History(stock, c, |stock|)[q]].consecutiveLimitUp == Run(Ups(stock, History(stock, c, |stock|))[..q + 1])
    {
      var g := History(stock, c, |stock|);
      assert g[q] in g;
    }
    res := Ok(out);
  }
}
