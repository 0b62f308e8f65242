/** The performance report over the backtest's value series: daily returns,
    running peak and drawdown, the undefined-result guards of the ratios,
    the recovery scan, win rate, profit/loss ratio, the turnover estimate
    and the metric table. Quantities that need a standard deviation, a
    square root or a fractional power are taken as given. */
module Performance {
  import opened Common

  /** A float64 as the report can meet it: NaN, positive infinity (a gain
      from a zero value), or a real number. Negative infinity cannot arise
      from non-negative values. */
  datatype Float = NaN | PosInf | Real(x: real)

  predicate NonNegative(vs: seq<real>)
  {
    forall i :: 0 <= i < |vs| ==> vs[i] >= 0.0
  }

  /** `pct_change` for one step, with its NaN (0 → 0) filled by `fillna(0)`. */
  function Return(prev: real, cur: real): (r: Float)
    requires prev >= 0.0 && cur >= 0.0
    ensures r != NaN
    ensures r.Real? ==> r.x >= -1.0
  {
    if prev > 0.0 then Real(cur / prev - 1.0)
    else if cur > 0.0 then PosInf
    else Real(0.0)
  }

  /** The `daily_return` column: 0 on the first row, the step return after. */
  function DailyReturns(vs: seq<real>): (r: seq<Float>)
    requires NonNegative(vs)
    ensures |r| == |vs|
    ensures |vs| > 0 ==> r[0] == Real(0.0)
  {
    seq(|vs|, t requires 0 <= t < |vs| => if t == 0 then Real(0.0) else Return(vs[t - 1], vs[t]))
  }

  /** Compounds a starting value by a sequence of returns (a non-finite
      return, which a positive series never has, counts as 0). */
  function Compound(v0: real, rs: seq<Float>): (r: seq<real>)
    ensures |r| == |rs|
    decreases |rs|
  {
    if rs == [] then []
    else
      var v := Grow(v0, rs[0]);
      [v] + Compound(v, rs[1..])
  }

  function Grow(v: real, r: Float): real
  {
    if r.Real? then v * (1.0 + r.x) else v
  }

  predicate Positive(vs: seq<real>)
  {
    forall i :: 0 <= i < |vs| ==> vs[i] > 0.0
  }

  /** One step of the round trip: a positive value grown by the return to the
      next value gives that value. */
  lemma ReturnCompounds(prev: real, cur: real)
    requires prev > 0.0 && cur >= 0.0
    ensures Return(prev, cur).Real? && Grow(prev, Return(prev, cur)) == cur
  {
  }

  /** Round trip: compounding the first value by the daily returns rebuilds
      the value series. */
  lemma ReturnsRebuildValues(vs: seq<real>)
    requires Positive(vs) && |vs| > 0
    ensures Compound(vs[0], DailyReturns(vs)) == vs
  {
    var rs := DailyReturns(vs);
    forall i | 1 <= i < |vs|
      ensures rs[i] == Return(vs[i - 1], vs[i])
    {
    }
    RebuildFrom(vs, rs, 1);
    assert Grow(vs[0], rs[0]) == vs[0];
    assert Compound(vs[0], rs) == [vs[0]] + Compound(vs[0], rs[1..]);
    assert [vs[0]] + vs[1..] == vs;
  }

  lemma {:induction false} RebuildFrom(vs: seq<real>, rs: seq<Float>, k: nat)
    requires Positive(vs) && 1 <= k <= |vs| && |rs| == |vs|
    requires forall i :: 1 <= i < |vs| ==> rs[i] == Return(vs[i - 1], vs[i])
    ensures Compound(vs[k - 1], rs[k..]) == vs[k..]
    decreases |vs| - k
  {
    if k < |vs| {
      RebuildFrom(vs, rs, k + 1);
      ReturnCompounds(vs[k - 1], vs[k]);
      var tail := rs[k..];
      assert tail[0] == Return(vs[k - 1], vs[k]);
      assert tail[1..] == rs[k + 1..];
      assert Compound(vs[k - 1], tail) == [vs[k]] + Compound(vs[k], tail[1..]);
      assert vs[k..] == [vs[k]] + vs[k + 1..];
    }
  }

  function Max(a: real, b: real): real { if a >= b then a else b }

  /** `cummax` at row t: the largest value up to and including t. */
  function Peak(vs: seq<real>, t: nat): real
    requires t < |vs|
  {
    if t == 0 then vs[0] else Max(Peak(vs, t - 1), vs[t])
  }

  /** The running peak bounds every earlier value and is one of them. */
  lemma {:induction false} PeakIsMaximum(vs: seq<real>, t: nat)
    requires t < |vs|
    ensures forall j :: 0 <= j <= t ==> vs[j] <= Peak(vs, t)
    ensures exists j :: 0 <= j <= t && Peak(vs, t) == vs[j]
  {
    if t > 0 {
      PeakIsMaximum(vs, t - 1);
    } else {
      assert Peak(vs, t) == vs[0];
    }
  }

  /** The running peak never falls. */
  lemma {:induction false} PeakMonotone(vs: seq<real>, s: nat, t: nat)
    requires s <= t < |vs|
    ensures Peak(vs, s) <= Peak(vs, t)
    decreases t - s
  {
    if s < t {
      PeakMonotone(vs, s, t - 1);
    }
  }

  /** `value / cummax - 1` at row t; 0 / 0 (all values so far zero) is NaN. */
  function Drawdown(vs: seq<real>, t: nat): Num
    requires t < |vs|
  {
    var p := Peak(vs, t);
    if p == 0.0 then Undef else Val(vs[t] / p - 1.0)
  }

  function Drawdowns(vs: seq<real>): (r: seq<Num>)
    ensures |r| == |vs|
  {
    seq(|vs|, t requires 0 <= t < |vs| => Drawdown(vs, t))
  }

  lemma DivUnit(a: real, p: real)
    requires 0.0 <= a <= p && p > 0.0
    ensures 0.0 <= a / p <= 1.0
    ensures a / p == 1.0 <==> a == p
  {
  }

  /** For non-negative values a drawdown lies in [-1, 0], is 0 exactly at a
      new peak, and is undefined exactly while every value so far is 0. */
  lemma DrawdownBounds(vs: seq<real>, t: nat)
    requires NonNegative(vs) && t < |vs|
    ensures Drawdown(vs, t).Val? ==> -1.0 <= Drawdown(vs, t).v <= 0.0
    ensures Drawdown(vs, t) == Val(0.0) <==> vs[t] == Peak(vs, t) > 0.0
    ensures Drawdown(vs, t).Undef? <==> forall j :: 0 <= j <= t ==> vs[j] == 0.0
  {
    PeakIsMaximum(vs, t);
    var p := Peak(vs, t);
    if p > 0.0 {
      DivUnit(vs[t], p);
      var j :| 0 <= j <= t && p == vs[j];
      assert vs[j] != 0.0;
    }
  }

  /** `Series.min()`: the least defined entry, NaN when there is none. */
  function MinDefined(dd: seq<Num>): (r: Num)
    ensures r.Undef? <==> forall i :: 0 <= i < |dd| ==> dd[i].Undef?
    ensures r.Val? ==> forall i :: 0 <= i < |dd| && dd[i].Val? ==> r.v <= dd[i].v
  {
    if dd == [] then Undef
    else
      var m := MinDefined(dd[..|dd| - 1]);
      var x := dd[|dd| - 1];
      assert forall i :: 0 <= i < |dd| - 1 ==> dd[..|dd| - 1][i] == dd[i];
      if x.Undef? then m
      else if m.Undef? || x.v < m.v then x
      else m
  }

  /** The minimum is attained. */
  lemma {:induction false} MinDefinedAttained(dd: seq<Num>)
    requires MinDefined(dd).Val?
    ensures exists i :: 0 <= i < |dd| && dd[i] == MinDefined(dd)
    decreases |dd|
  {
    var init := dd[..|dd| - 1];
    var x := dd[|dd| - 1];
    if MinDefined(dd) != x {
      MinDefinedAttained(init);
      var i :| 0 <= i < |init| && init[i] == MinDefined(init);
      assert dd[i] == MinDefined(dd);
    }
  }

  function MaxDrawdown(vs: seq<real>): Num
  {
    MinDefined(Drawdowns(vs))
  }

  /** The maximum drawdown is defined exactly when some value is positive,
      and then lies in [-1, 0]. */
  lemma MaxDrawdownBounds(vs: seq<real>)
    requires NonNegative(vs)
    ensures MaxDrawdown(vs).Undef? <==> forall j :: 0 <= j < |vs| ==> vs[j] == 0.0
    ensures MaxDrawdown(vs).Val? ==> -1.0 <= MaxDrawdown(vs).v <= 0.0
  {
    var dd := Drawdowns(vs);
    if MaxDrawdown(vs).Val? {
      MinDefinedAttained(dd);
      var i :| 0 <= i < |dd| && dd[i] == MaxDrawdown(vs);
      DrawdownBounds(vs, i);
      var k :| 0 <= k < |vs| && vs[k] != 0.0 by {
        assert !(forall j :: 0 <= j <= i ==> vs[j] == 0.0);
      }
      DrawdownBounds(vs, |vs| - 1);
      if dd[|vs| - 1].Val? {
        assert MaxDrawdown(vs).v <= dd[|vs| - 1].v;
      }
    } else {
      forall j | 0 <= j < |vs|
        ensures vs[j] == 0.0
      {
        assert dd[|vs| - 1].Undef?;
        DrawdownBounds(vs, |vs| - 1);
      }
    }
  }

  /** Division of a float by a positive real. */
  function DivPos(a: Float, b: real): (r: Float)
    requires b > 0.0
    ensures a.NaN? <==> r.NaN?
    ensures a.PosInf? <==> r.PosInf?
    ensures a.Real? ==> r.Real? && (r.x > 0.0 <==> a.x > 0.0) && (r.x < 0.0 <==> a.x < 0.0)
  {
    match a
    case NaN => NaN
    case PosInf => PosInf
    case Real(x) => Real(x / b)
  }

  /** The Calmar ratio: annual return over the size of the maximum drawdown,
      guarded by `max_drawdown != 0` (a NaN drawdown passes the guard and
      gives NaN). */
  function Calmar(annualReturn: Float, maxDrawdown: Num): (r: Float)
    ensures r.NaN? <==> maxDrawdown == Val(0.0) || maxDrawdown.Undef? || annualReturn.NaN?
    ensures annualReturn.Real? && maxDrawdown.Val? && maxDrawdown.v < 0.0 ==>
              r == Real(annualReturn.x / -maxDrawdown.v)
  {
    if maxDrawdown.Undef? then NaN
    else if maxDrawdown.v != 0.0 then
      DivPos(annualReturn, if maxDrawdown.v < 0.0 then -maxDrawdown.v else maxDrawdown.v)
    else NaN
  }

  /** The returns above zero, in order (`df[df['daily_return'] > 0]`). */
  function Wins(rs: seq<Float>): (w: seq<Float>)
    ensures |w| <= |rs|
    ensures forall i :: 0 <= i < |w| ==> w[i] != NaN && w[i] != Real(0.0) && (w[i].Real? ==> w[i].x > 0.0)
  {
    if rs == [] then []
    else
      var r := rs[|rs| - 1];
      Wins(rs[..|rs| - 1]) + (if r.PosInf? || (r.Real? && r.x > 0.0) then [r] else [])
  }

  /** The returns below zero, in order; they are always finite. */
  function Losses(rs: seq<Float>): (l: seq<real>)
    ensures |l| <= |rs|
    ensures forall i :: 0 <= i < |l| ==> l[i] < 0.0
  {
    if rs == [] then []
    else
      var r := rs[|rs| - 1];
      Losses(rs[..|rs| - 1]) + (if r.Real? && r.x < 0.0 then [r.x] else [])
  }

  lemma {:induction false} WinsEmpty(rs: seq<Float>)
    ensures Wins(rs) == [] <==> forall i :: 0 <= i < |rs| ==> !(rs[i].PosInf? || (rs[i].Real? && rs[i].x > 0.0))
    decreases |rs|
  {
    if rs != [] {
      WinsEmpty(rs[..|rs| - 1]);
      assert forall i :: 0 <= i < |rs| - 1 ==> rs[..|rs| - 1][i] == rs[i];
    }
  }

  lemma {:induction false} LossesEmpty(rs: seq<Float>)
    ensures Losses(rs) == [] <==> forall i :: 0 <= i < |rs| ==> !(rs[i].Real? && rs[i].x < 0.0)
    decreases |rs|
  {
    if rs != [] {
      LossesEmpty(rs[..|rs| - 1]);
      assert forall i :: 0 <= i < |rs| - 1 ==> rs[..|rs| - 1][i] == rs[i];
    }
  }

  /** `(df['daily_return'] > 0).sum() / len(df)`; NumPy gives NaN for 0 / 0. */
  function WinRate(rs: seq<Float>): (r: Num)
    ensures r.Undef? <==> rs == []
    ensures r.Val? ==> 0.0 <= r.v <= 1.0
  {
    if rs == [] then Undef else Val(|Wins(rs)| as real / |rs| as real)
  }

  /** The first daily return is 0, so a win rate is always below 1. */
  lemma WinRateBelowOne(vs: seq<real>)
    requires NonNegative(vs) && |vs| > 0
    ensures WinRate(DailyReturns(vs)).Val? && WinRate(DailyReturns(vs)).v < 1.0
  {
    var rs := DailyReturns(vs);
    WinsBelowLength(rs);
  }

  lemma {:induction false} WinsBelowLength(rs: seq<Float>)
    requires |rs| > 0 && rs[0] == Real(0.0)
    ensures |Wins(rs)| < |rs|
    decreases |rs|
  {
    if |rs| > 1 {
      WinsBelowLength(rs[..|rs| - 1]);
    }
  }

  /** The mean of a sequence, NaN when empty and infinite when any term is. */
  function MeanFloat(s: seq<Float>): Float
  {
    if s == [] then NaN
    else if exists i :: 0 <= i < |s| && s[i].PosInf? then PosInf
    else if exists i :: 0 <= i < |s| && s[i].NaN? then NaN
    else Real(SeqSum(Finite(s)) / |s| as real)
  }

  function Finite(s: seq<Float>): (r: seq<real>)
    ensures |r| == |s|
  {
    seq(|s|, i requires 0 <= i < |s| => if s[i].Real? then s[i].x else 0.0)
  }

  /** The mean of negative terms is negative. */
  lemma MeanNegative(s: seq<real>)
    requires |s| > 0 && forall i :: 0 <= i < |s| ==> s[i] < 0.0
    ensures Mean(s) < 0.0
  {
    SeqSumNegative(s);
  }

  lemma {:induction false} SeqSumNegative(s: seq<real>)
    requires |s| > 0 && forall i :: 0 <= i < |s| ==> s[i] < 0.0
    ensures SeqSum(s) < 0.0
    decreases |s|
  {
    if |s| > 1 {
      SeqSumNegative(s[..|s| - 1]);
    }
  }

  /** Average win over the absolute average loss, guarded by `avg_loss != 0`;
      the mean of no losses is NaN, which passes the guard and gives NaN.
      The guard never fires: losses are strictly negative, so the ratio is
      undefined exactly when there is no winning or no losing day, and is
      positive otherwise. */
  function ProfitLoss(rs: seq<Float>): (r: Float)
    ensures r.NaN? <==> Wins(rs) == [] || Losses(rs) == []
    ensures r.Real? ==> r.x > 0.0
  {
    var wins := MeanFloat(Wins(rs));
    var losses := Losses(rs);
    if losses == [] then NaN
    else
      MeanNegative(losses);
      WinsMeanPositive(rs);
      var avgLoss := -Mean(losses);
      if avgLoss != 0.0 then
        if avgLoss > 0.0 then DivPos(wins, avgLoss) else NaN
      else NaN
  }

  /** The mean of the winning days is infinite or positive when there is one. */
  lemma WinsMeanPositive(rs: seq<Float>)
    ensures Wins(rs) != [] ==> MeanFloat(Wins(rs)).PosInf? || (MeanFloat(Wins(rs)).Real? && MeanFloat(Wins(rs)).x > 0.0)
  {
    var wins := Wins(rs);
    if wins != [] {
      assert !(exists i :: 0 <= i < |wins| && wins[i].NaN?);
      if !(exists i :: 0 <= i < |wins| && wins[i].PosInf?) {
        var f := Finite(wins);
        assert forall i :: 0 <= i < |wins| ==> f[i] > 0.0;
        SeqSumPositive(f);
        assert MeanFloat(wins) == Real(SeqSum(f) / |wins| as real);
        PositiveOverCount(SeqSum(f), |wins|);
      }
    }
  }

  lemma PositiveOverCount(s: real, n: nat)
    requires s > 0.0 && n > 0
    ensures s / n as real > 0.0
  {
  }

  lemma {:induction false} SeqSumPositive(s: seq<real>)
    requires |s| > 0 && forall i :: 0 <= i < |s| ==> s[i] > 0.0
    ensures SeqSum(s) > 0.0
    decreases |s|
  {
    if |s| > 1 {
      SeqSumPositive(s[..|s| - 1]);
    }
  }

  /** `excess_return.mean()`: the mean daily return less 2% / 250. */
  function ExcessMean(rs: seq<Float>): Float
  {
    match MeanFloat(rs)
    case Real(m) => Real(m - 0.02 / 250.0)
    case other => other
  }

  /** The Sortino ratio's guard. `downsideVol` is the standard deviation of
      the losing days times the square root of 250, taken as given; pandas
      gives NaN for fewer than two losing days, which passes the guard. */
  function Sortino(rs: seq<Float>, downsideVol: real): Float
    requires downsideVol >= 0.0
  {
    if |Losses(rs)| < 2 then NaN
    else if downsideVol != 0.0 then DivPos(ExcessMean(rs), downsideVol)
    else NaN
  }

  lemma SortinoUndefined(rs: seq<Float>, downsideVol: real)
    requires downsideVol >= 0.0
    ensures Sortino(rs, downsideVol).NaN? <==>
              |Losses(rs)| < 2 || downsideVol == 0.0 || ExcessMean(rs).NaN?
  {
  }

  /** What the benchmark merge yields: the number of dates both series
      share, the mean active return, and the tracking error (taken as given). */
  datatype Active = Active(rows: nat, mean: Float, trackingError: real)

  /** The information ratio's guard: NaN without a benchmark, and NaN when
      the tracking error is NaN (fewer than two shared dates) or 0. */
  function InformationRatio(benchmark: Option<Active>): Float
    requires benchmark.Some? ==> benchmark.value.trackingError >= 0.0
  {
    match benchmark
    case None => NaN
    case Some(a) =>
      if a.rows < 2 then NaN
      else if a.trackingError != 0.0 then DivPos(a.mean, a.trackingError)
      else NaN
  }

  lemma InformationRatioUndefined(benchmark: Option<Active>)
    requires benchmark.Some? ==> benchmark.value.trackingError >= 0.0
    ensures benchmark.None? ==> InformationRatio(benchmark).NaN?
    ensures benchmark.Some? ==>
              (InformationRatio(benchmark).NaN? <==>
               benchmark.value.rows < 2 || benchmark.value.trackingError == 0.0 || benchmark.value.mean.NaN?)
  {
  }

  /** A row where the value is back at or above the peak of the rows before
      it (`portfolio_value >= rolling_max.shift(1)`; the first row compares
      with NaN and never qualifies). */
  predicate Recovers(vs: seq<real>, t: nat)
  {
    1 <= t < |vs| && vs[t] >= Peak(vs, t - 1)
  }

  /** The first row whose drawdown equals the given minimum. */
  function FirstAt(dd: seq<Num>, m: real, from: nat): (r: Option<nat>)
    requires from <= |dd|
    ensures r.Some? ==> from <= r.value < |dd| && dd[r.value] == Val(m)
                        && forall j :: from <= j < r.value ==> dd[j] != Val(m)
    ensures r.None? <==> forall j :: from <= j < |dd| ==> dd[j] != Val(m)
    decreases |dd| - from
  {
    if from == |dd| then None
    else if dd[from] == Val(m) then Some(from)
    else FirstAt(dd, m, from + 1)
  }

  /** The first recovering row at or after `from`. */
  function FirstRecovery(vs: seq<real>, from: nat): (r: Option<nat>)
    requires from <= |vs|
    ensures r.Some? ==> from <= r.value < |vs| && Recovers(vs, r.value)
                        && forall j :: from <= j < r.value ==> !Recovers(vs, j)
    ensures r.None? <==> forall j :: from <= j < |vs| ==> !Recovers(vs, j)
    decreases |vs| - from
  {
    if from == |vs| then None
    else if Recovers(vs, from) then Some(from)
    else FirstRecovery(vs, from + 1)
  }

  /** The trough: the first row at the maximum drawdown, when it is below 0. */
  function Trough(vs: seq<real>): (r: Option<nat>)
    ensures r.Some? ==> r.value < |vs| && MaxDrawdown(vs).Val? && MaxDrawdown(vs).v < 0.0
                        && Drawdowns(vs)[r.value] == MaxDrawdown(vs)
  {
    var md := MaxDrawdown(vs);
    if md.Val? && md.v < 0.0 then FirstAt(Drawdowns(vs), md.v, 0) else None
  }

  /** The recovery time as the code computes it: once the maximum drawdown is
      negative and any row recovers, the difference of two integer index
      labels has no `.days`, and the report fails. */
  function RecoveryAsWritten(vs: seq<real>): (r: Result<Float>)
    ensures r.Err? <==> Trough(vs).Some? && FirstRecovery(vs, 0).Some?
    ensures r.Err? ==> r.error == AttributeError
    ensures r.Ok? ==> r.value == NaN
  {
    TroughExists(vs);
    var md := MaxDrawdown(vs);
    if md.Val? && md.v < 0.0 then
      if FirstRecovery(vs, 0).Some? then Err(AttributeError) else Ok(NaN)
    else Ok(NaN)
  }

  /** Finding: the value series 2, 1, 2 has a 50% drawdown and recovers on
      its third row, and the recovery scan raises instead of reporting. */
  lemma RecoveryAsWrittenFails()
    ensures RecoveryAsWritten([2.0, 1.0, 2.0]) == Err(AttributeError)
  {
    var vs := [2.0, 1.0, 2.0];
    assert Drawdown(vs, 0) == Val(0.0);
    assert Drawdown(vs, 1) == Val(-0.5);
    assert Drawdown(vs, 2) == Val(0.0);
    assert Drawdowns(vs) == [Val(0.0), Val(-0.5), Val(0.0)];
    assert MinDefined([Val(0.0), Val(-0.5)]) == Val(-0.5);
    assert Recovers(vs, 1) == false;
    assert Recovers(vs, 2);
  }

  /** A negative maximum drawdown always has a trough row. */
  lemma TroughExists(vs: seq<real>)
    ensures Trough(vs).Some? <==> MaxDrawdown(vs).Val? && MaxDrawdown(vs).v < 0.0
  {
    if MaxDrawdown(vs).Val? {
      MinDefinedAttained(Drawdowns(vs));
    }
  }

  /** The recovery time as intended: the number of rows from the trough to the
      first later row that is back at the previous peak; NaN when the maximum
      drawdown is not negative or the series never recovers. */
  function Recovery(vs: seq<real>): (r: Num)
    ensures r.Val? ==> Trough(vs).Some? && r.v >= 1.0
  {
    match Trough(vs)
    case None => Undef
    case Some(t) =>
      match FirstRecovery(vs, t + 1)
      case None => Undef
      case Some(u) => Val((u - t) as real)
  }

  lemma RecoveryMeaning(vs: seq<real>)
    ensures Recovery(vs).Val? ==>
              exists t, u :: Trough(vs) == Some(t) && t < u < |vs|
                             && Recovery(vs).v == (u - t) as real && Recovers(vs, u)
                             && forall j :: t < j < u ==> !Recovers(vs, j)
    ensures Recovery(vs).Undef? <==>
              Trough(vs).None? || forall j :: Trough(vs).value < j < |vs| ==> !Recovers(vs, j)
  {
    if Recovery(vs).Val? {
      var t := Trough(vs).value;
      var u := FirstRecovery(vs, t + 1).value;
      assert Trough(vs) == Some(t) && t < u < |vs|;
    }
  }

  /** Wherever the code does not fail, the intended recovery time is NaN as
      well: there is no trough, or no row is ever back at its peak. */
  lemma RecoveryAgreesWhenDefined(vs: seq<real>)
    requires RecoveryAsWritten(vs).Ok?
    ensures Recovery(vs).Undef?
  {
  }

  /** The corrected scan reports 1 row for the series 2, 1, 2. */
  lemma RecoveryCounts()
    ensures Recovery([2.0, 1.0, 2.0]) == Val(1.0)
  {
    var vs := [2.0, 1.0, 2.0];
    assert Drawdown(vs, 0) == Val(0.0);
    assert Drawdown(vs, 1) == Val(-0.5);
    assert Drawdown(vs, 2) == Val(0.0);
    var dd := Drawdowns(vs);
    assert dd == [Val(0.0), Val(-0.5), Val(0.0)];
    assert dd[..2] == [Val(0.0), Val(-0.5)];
    assert [Val(0.0), Val(-0.5)][..1] == [Val(0.0)];
    assert MinDefined([Val(0.0), Val(-0.5)]) == Val(-0.5);
    assert MaxDrawdown(vs) == Val(-0.5);
    assert FirstAt(dd, -0.5, 1) == Some(1);
    assert Trough(vs) == Some(1);
    assert Recovers(vs, 2);
  }

  /** `nunique()` of a date column. */
  function DistinctCount(ds: seq<Date>): (n: nat)
    ensures n == 0 <==> ds == []
  {
    |SortedUnique(ds)|
  }

  /** `calculate_turnover_rate`: 50% per rebalance, 250 / (distinct dates)
      rebalances a year; Python's `250 / 0` raises on an empty table. */
  function Turnover(positionDates: seq<Date>): (r: Result<real>)
    ensures r.Err? <==> positionDates == []
    ensures r.Err? ==> r.error == ZeroDivision
  {
    var n := DistinctCount(positionDates);
    if n == 0 then Err(ZeroDivision)
    else Ok(0.5 * (250.0 / n as real))
  }

  /** The estimate is inversely proportional to the number of rebalance dates. */
  lemma TurnoverInverse(positionDates: seq<Date>)
    requires positionDates != []
    ensures Turnover(positionDates).Ok?
    ensures Turnover(positionDates).value * DistinctCount(positionDates) as real == 125.0
  {
    HalfQuotient(DistinctCount(positionDates));
  }

  lemma HalfQuotient(n: nat)
    requires n > 0
    ensures 0.5 * (250.0 / n as real) * n as real == 125.0
  {
  }

  /** The metric names of the table, in order. */
  const MetricNames: seq<string> :=
    ["Annual Return", "Max Drawdown", "Sharpe Ratio", "Calmar Ratio", "Sortino Ratio",
     "Information Ratio", "Time to Recovery", "Win Rate", "Profit-Loss Ratio", "Turnover Rate"]

  function ToFloat(n: Num): Float
  {
    match n
    case Undef => NaN
    case Val(v) => Real(v)
  }

  /** The quantities built from a standard deviation, a square root or a
      fractional power, which the report takes as given. */
  datatype Given = Given(annualReturn: Float, sharpe: Float, downsideVol: real)

  /** The ten values of the report. */
  datatype Report = Report(
    annualReturn: Float, maxDrawdown: Num, sharpe: Float, calmar: Float, sortino: Float,
    informationRatio: Float, recovery: Num, winRate: Num, profitLoss: Float, turnover: Float)

  /** The metric table: each name beside its value, in the fixed order.
      Formatting of the values as strings is not modelled. */
  function Table(r: Report): (t: seq<(string, Float)>)
    ensures |t| == |MetricNames|
    ensures forall i :: 0 <= i < |t| ==> t[i].0 == MetricNames[i]
  {
    [("Annual Return", r.annualReturn),
     ("Max Drawdown", ToFloat(r.maxDrawdown)),
     ("Sharpe Ratio", r.sharpe),
     ("Calmar Ratio", r.calmar),
     ("Sortino Ratio", r.sortino),
     ("Information Ratio", r.informationRatio),
     ("Time to Recovery", ToFloat(r.recovery)),
     ("Win Rate", ToFloat(r.winRate)),
     ("Profit-Loss Ratio", r.profitLoss),
     ("Turnover Rate", r.turnover)]
  }

  /** The turnover cell: NaN without a holdings table. */
  function TurnoverCell(positions: Option<seq<Date>>): (r: Result<Float>)
    ensures r.Err? <==> positions == Some([])
    ensures r.Err? ==> r.error == ZeroDivision
  {
    match positions
    case None => Ok(NaN)
    case Some(ds) =>
      match Turnover(ds)
      case Ok(t) => Ok(Real(t))
      case Err(e) => Err(e)
  }

  /** The values of a non-empty series, with the corrected recovery scan. */
  function ReportOf(vs: seq<real>, given: Given, benchmark: Option<Active>, turnover: Float): (r: Report)
    requires NonNegative(vs) && given.downsideVol >= 0.0
    requires benchmark.Some? ==> benchmark.value.trackingError >= 0.0
    ensures r.recovery.Val? ==> Trough(vs).Some? && r.recovery.v >= 1.0
    ensures r.calmar.NaN? <==> r.maxDrawdown == Val(0.0) || r.maxDrawdown.Undef? || given.annualReturn.NaN?
    ensures r.profitLoss.Real? ==> r.profitLoss.x > 0.0
  {
    var rs := DailyReturns(vs);
    var md := MaxDrawdown(vs);
    Report(given.annualReturn, md, given.sharpe, Calmar(given.annualReturn, md),
           Sortino(rs, given.downsideVol), InformationRatio(benchmark), Recovery(vs),
           WinRate(rs), ProfitLoss(rs), turnover)
  }

  /** `calculate_performance_metrics` as written: the report, or the first
      error the code raises (`iloc[-1]` on an empty series, `.days` on an
      integer index once the series recovers from a negative drawdown,
      `250 / 0` on an empty holdings table). Where it returns a report, the
      recovery time is NaN, which is also what the corrected scan gives. */
  function Metrics(vs: seq<real>, given: Given, benchmark: Option<Active>, positions: Option<seq<Date>>)
    : (r: Result<Report>)
    requires NonNegative(vs) && given.downsideVol >= 0.0
    requires benchmark.Some? ==> benchmark.value.trackingError >= 0.0
    ensures r.Ok? ==> vs != [] && r.value.recovery.Undef? && r.value.maxDrawdown == MaxDrawdown(vs)
    ensures r.Ok? ==> TurnoverCell(positions).Ok?
                      && r.value == ReportOf(vs, given, benchmark, TurnoverCell(positions).value)
  {
    if vs == [] then Err(IndexError)
    else
      match RecoveryAsWritten(vs)
      case Err(e) => Err(e)
      case Ok(_) =>
        RecoveryAgreesWhenDefined(vs);
        match TurnoverCell(positions)
        case Err(e) => Err(e)
        case Ok(t) => Ok(ReportOf(vs, given, benchmark, t))
  }

  /** The report fails exactly on an empty series, a series that recovers
      from a negative drawdown, or an empty holdings table, with the error
      Python raises first. */
  lemma MetricsErrors(vs: seq<real>, given: Given, benchmark: Option<Active>, positions: Option<seq<Date>>)
    requires NonNegative(vs) && given.downsideVol >= 0.0
    requires benchmark.Some? ==> benchmark.value.trackingError >= 0.0
    ensures Metrics(vs, given, benchmark, positions).Err? <==>
              vs == [] || (Trough(vs).Some? && FirstRecovery(vs, 0).Some?) || positions == Some([])
    ensures vs == [] ==> Metrics(vs, given, benchmark, positions) == Err(IndexError)
    ensures vs != [] && Trough(vs).Some? && FirstRecovery(vs, 0).Some? ==>
              Metrics(vs, given, benchmark, positions) == Err(AttributeError)
    ensures vs != [] && !(Trough(vs).Some? && FirstRecovery(vs, 0).Some?) && positions == Some([]) ==>
              Metrics(vs, given, benchmark, positions) == Err(ZeroDivision)
  {
  }

  /** The series 2, 1, 2 makes the report fail, holdings table or not. */
  lemma MetricsFailsOnRecovery(given: Given, benchmark: Option<Active>, positions: Option<seq<Date>>)
    requires given.downsideVol >= 0.0
    requires benchmark.Some? ==> benchmark.value.trackingError >= 0.0
    ensures Metrics([2.0, 1.0, 2.0], given, benchmark, positions) == Err(AttributeError)
  {
    RecoveryAsWrittenFails();
  }

  /** In every report the maximum drawdown lies in [-1, 0] and the win rate
      is defined and below 1. */
  lemma ReportBounds(vs: seq<real>, given: Given, benchmark: Option<Active>, turnover: Float)
    requires NonNegative(vs) && given.downsideVol >= 0.0 && vs != []
    requires benchmark.Some? ==> benchmark.value.trackingError >= 0.0
    ensures var r := ReportOf(vs, given, benchmark, turnover);
            (r.maxDrawdown.Val? ==> -1.0 <= r.maxDrawdown.v <= 0.0)
            && r.winRate.Val? && 0.0 <= r.winRate.v < 1.0
  {
    MaxDrawdownBounds(vs);
    WinRateBelowOne(vs);
  }

  /** Every report the code returns keeps the drawdown in [-1, 0], has a
      defined win rate below 1, a NaN Calmar ratio exactly when the drawdown
      is 0 or NaN or the annual return is NaN, a positive P/L ratio when it
      is defined, and the turnover of the holdings table. */
  lemma MetricsBounds(vs: seq<real>, given: Given, benchmark: Option<Active>, positions: Option<seq<Date>>)
    requires NonNegative(vs) && given.downsideVol >= 0.0
    requires benchmark.Some? ==> benchmark.value.trackingError >= 0.0
    ensures var r := Metrics(vs, given, benchmark, positions);
            r.Ok? ==>
              (r.value.maxDrawdown.Val? ==> -1.0 <= r.value.maxDrawdown.v <= 0.0)
              && r.value.winRate.Val? && 0.0 <= r.value.winRate.v < 1.0
              && (r.value.calmar.NaN? <==>
                    r.value.maxDrawdown == Val(0.0) || r.value.maxDrawdown.Undef? || given.annualReturn.NaN?)
              && (r.value.profitLoss.Real? ==> r.value.profitLoss.x > 0.0)
              && TurnoverCell(positions) == Ok(r.value.turnover)
  {
    var r := Metrics(vs, given, benchmark, positions);
    if r.Ok? {
      ReportBounds(vs, given, benchmark, TurnoverCell(positions).value);
    }
  }
}
