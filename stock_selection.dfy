/** Top-N equal-weight stock selection: each trading date's factor values are
    z-scored, combined into a composite score with signed factor weights, the
    rows are ranked by score (NaN last), the first `top_n` are kept and each
    gets weight 1/k. The z-score's standard deviation is an input. */
module StockSelection {
  import opened Common

  /** One stock on one date with its factor values, in the order of the factor weights. */
  datatype FactorRow = FactorRow(date: Date, code: Code, factors: seq<Num>)

  /** A row after scoring: only the columns that selection reads. */
  datatype ScoredRow = ScoredRow(date: Date, code: Code, score: Num)

  /** One output row of the positions table. */
  datatype Position = Position(date: Date, code: Code, weight: real)

  /** The constant added to the standard deviation before dividing. */
  const Epsilon: real := 0.00000001

  // ---------------------------------------------------------------------
  // Standardisation and the composite score
  // ---------------------------------------------------------------------

  /** `(x - mean) / (std + 1e-8)`: NaN when any operand is NaN. The
      standard deviation, when defined, is never negative. */
  function ZScore(x: Num, mean: Num, spread: Num): Num
    requires spread.Val? ==> spread.v >= 0.0
  {
    if x.Val? && mean.Val? && spread.Val? then Val((x.v - mean.v) / (spread.v + Epsilon)) else Undef
  }

  /** Standardising keeps the order of the values it is given. */
  lemma ZScoreMonotone(x: real, y: real, mean: real, spread: real)
    requires spread >= 0.0
    ensures ZScore(Val(x), Val(mean), Val(spread)).v < ZScore(Val(y), Val(mean), Val(spread)).v <==> x < y
    ensures ZScore(Val(x), Val(mean), Val(spread)).v == ZScore(Val(y), Val(mean), Val(spread)).v <==> x == y
  {
    var d := spread + Epsilon;
    QuotientOrder(x - mean, y - mean, d);
  }

  lemma QuotientOrder(a: real, b: real, d: real)
    requires d > 0.0
    ensures a / d < b / d <==> a < b
    ensures a / d == b / d <==> a == b
  {
  }

  /** The z-scores of one factor column against one mean and spread. */
  function ZColumn(xs: seq<Num>, mean: Num, spread: Num): (r: seq<Num>)
    requires spread.Val? ==> spread.v >= 0.0
    ensures |r| == |xs|
  {
    if xs == [] then []
    else ZColumn(xs[..|xs| - 1], mean, spread) + [ZScore(xs[|xs| - 1], mean, spread)]
  }

  /** Against the column's own mean, the defined z-scores sum to zero. */
  lemma ZColumnCentred(xs: seq<Num>, spread: real)
    requires spread >= 0.0 && MeanSkipNa(xs).Val?
    ensures SeqSum(Present(ZColumn(xs, MeanSkipNa(xs), Val(spread)))) == 0.0
  {
    var p := Present(xs);
    var m := Mean(p);
    var d := spread + Epsilon;
    PresentZColumn(xs, m, spread);
    QuotientsSum(p, m, d);
    MeanCancels(SeqSum(p), |p| as real, d);
  }

  lemma MeanCancels(s: real, n: real, d: real)
    requires n > 0.0 && d > 0.0
    ensures (s - n * (s / n)) / d == 0.0
  {
  }

  /** `(p[i] - m) / d` for each term. */
  function Quotients(p: seq<real>, m: real, d: real): (r: seq<real>)
    requires d > 0.0
    ensures |r| == |p|
  {
    if p == [] then [] else Quotients(p[..|p| - 1], m, d) + [(p[|p| - 1] - m) / d]
  }

  /** The defined z-scores are the centred defined values over the divisor. */
  lemma {:induction false} PresentZColumn(xs: seq<Num>, m: real, spread: real)
    requires spread >= 0.0
    ensures Present(ZColumn(xs, Val(m), Val(spread))) == Quotients(Present(xs), m, spread + Epsilon)
    decreases |xs|
  {
    if xs != [] {
      var init := xs[..|xs| - 1];
      var zs := ZColumn(xs, Val(m), Val(spread));
      assert zs[..|zs| - 1] == ZColumn(init, Val(m), Val(spread));
      PresentZColumn(init, m, spread);
      var x := xs[|xs| - 1];
      if x.Val? {
        var d := spread + Epsilon;
        var z := ZScore(x, Val(m), Val(spread));
        assert z == Val((x.v - m) / d);
        assert zs[|zs| - 1] == z;
        assert Present(zs) == Present(ZColumn(init, Val(m), Val(spread))) + [z.v];
        var p := Present(init);
        assert Present(xs) == p + [x.v];
        assert (p + [x.v])[..|p|] == p;
        assert Quotients(p + [x.v], m, d) == Quotients(p, m, d) + [(x.v - m) / d];
      } else {
        assert zs[|zs| - 1].Undef?;
        assert Present(zs) == Present(ZColumn(init, Val(m), Val(spread))) + [];
        assert Present(zs) == Present(ZColumn(init, Val(m), Val(spread)));
        assert Present(xs) == Present(init) + [];
        assert Present(xs) == Present(init);
      }
    }
  }

  lemma {:induction false} QuotientsSum(p: seq<real>, m: real, d: real)
    requires d > 0.0
    ensures SeqSum(Quotients(p, m, d)) == (SeqSum(p) - |p| as real * m) / d
    decreases |p|
  {
    if p != [] {
      var init := p[..|p| - 1];
      var q := Quotients(p, m, d);
      assert q[..|q| - 1] == Quotients(init, m, d);
      QuotientsSum(init, m, d);
      ShiftedQuotient(SeqSum(init), |init| as real, m, p[|p| - 1], d);
    }
  }

  lemma ShiftedQuotient(s: real, n: real, m: real, x: real, d: real)
    requires d > 0.0
    ensures (s - n * m) / d + (x - m) / d == ((s + x) - (n + 1.0) * m) / d
  {
  }

  /** Python's `sum` of the weighted z-scores: `0 + z1*w1 + z2*w2 + ...`,
      left to right; NaN as soon as one term is NaN. */
  function Composite(zs: seq<Num>, weights: seq<real>): Num
    requires |zs| == |weights|
    decreases |zs|
  {
    if zs == [] then Val(0.0)
    else
      var init := Composite(zs[..|zs| - 1], weights[..|weights| - 1]);
      var z := zs[|zs| - 1];
      if init.Val? && z.Val? then Val(init.v + z.v * weights[|weights| - 1]) else Undef
  }

  /** The composite score is NaN exactly when one of the z-scores is. */
  lemma {:induction false} CompositeUndefined(zs: seq<Num>, weights: seq<real>)
    requires |zs| == |weights|
    ensures Composite(zs, weights).Undef? <==> exists i :: 0 <= i < |zs| && zs[i].Undef?
    decreases |zs|
  {
    if zs != [] {
      var n := |zs| - 1;
      CompositeUndefined(zs[..n], weights[..n]);
      if exists i :: 0 <= i < n && zs[..n][i].Undef? {
        var i :| 0 <= i < n && zs[..n][i].Undef?;
        assert zs[i].Undef?;
      }
    }
  }

  /** The weighted sum of defined z-scores, left to right. */
  function WeightedSum(zs: seq<real>, weights: seq<real>): real
    requires |zs| == |weights|
    decreases |zs|
  {
    if zs == [] then 0.0
    else WeightedSum(zs[..|zs| - 1], weights[..|weights| - 1]) + zs[|zs| - 1] * weights[|weights| - 1]
  }

  /** With every z-score defined the composite is their weighted sum. */
  lemma {:induction false} CompositeOfValues(zs: seq<real>, weights: seq<real>)
    requires |zs| == |weights|
    ensures Composite(Vals(zs), weights) == Val(WeightedSum(zs, weights))
    decreases |zs|
  {
    if zs != [] {
      var n := |zs| - 1;
      assert Vals(zs)[..n] == Vals(zs[..n]);
      CompositeOfValues(zs[..n], weights[..n]);
    }
  }

  /** The sign of a weight is the direction of its factor: a stock at least
      as good as another on every factor (higher on positively weighted ones,
      lower on negatively weighted ones) scores at least as high. */
  lemma CompositeDirection(za: seq<real>, zb: seq<real>, weights: seq<real>)
    requires |za| == |zb| == |weights|
    requires forall i :: 0 <= i < |weights| ==> (if weights[i] >= 0.0 then za[i] >= zb[i] else za[i] <= zb[i])
    ensures Composite(Vals(za), weights).Val? && Composite(Vals(zb), weights).Val?
    ensures Composite(Vals(za), weights).v >= Composite(Vals(zb), weights).v
  {
    CompositeOfValues(za, weights);
    CompositeOfValues(zb, weights);
    WeightedSumDirection(za, zb, weights);
  }

  lemma {:induction false} WeightedSumDirection(za: seq<real>, zb: seq<real>, weights: seq<real>)
    requires |za| == |zb| == |weights|
    requires forall i :: 0 <= i < |weights| ==> (if weights[i] >= 0.0 then za[i] >= zb[i] else za[i] <= zb[i])
    ensures WeightedSum(za, weights) >= WeightedSum(zb, weights)
    decreases |weights|
  {
    if weights != [] {
      var n := |weights| - 1;
      WeightedSumDirection(za[..n], zb[..n], weights[..n]);
      TermDirection(za[n], zb[n], weights[n]);
    }
  }

  lemma TermDirection(a: real, b: real, w: real)
    requires if w >= 0.0 then a >= b else a <= b
    ensures a * w >= b * w
  {
  }

  function Vals(xs: seq<real>): (r: seq<Num>)
    ensures |r| == |xs| && forall i :: 0 <= i < |xs| ==> r[i] == Val(xs[i])
  {
    seq(|xs|, i requires 0 <= i < |xs| => Val(xs[i]))
  }

  /** Every row of the group carries one value per weighted factor. */
  predicate Shaped(group: seq<FactorRow>, weights: seq<real>)
  {
    forall i :: 0 <= i < |group| ==> |group[i].factors| == |weights|
  }

  /** A standard deviation per factor that is never negative where defined. */
  ghost predicate Spreads(spread: nat -> Num)
  {
    forall f :: spread(f).Val? ==> spread(f).v >= 0.0
  }

  function Column(group: seq<FactorRow>, f: nat): (r: seq<Num>)
    requires forall i :: 0 <= i < |group| ==> f < |group[i].factors|
    ensures |r| == |group|
  {
    seq(|group|, i requires 0 <= i < |group| => group[i].factors[f])
  }

  /** The z-scores of row i across the factors. */
  function ZRow(group: seq<FactorRow>, i: nat, weights: seq<real>, spread: nat -> Num): (r: seq<Num>)
    requires Shaped(group, weights) && Spreads(spread) && i < |group|
    ensures |r| == |weights|
  {
    seq(|weights|, f requires 0 <= f < |weights| =>
      ZScore(group[i].factors[f], MeanSkipNa(Column(group, f)), spread(f)))
  }

  /** Entry i of a z-score column is the z-score of the column's entry i. */
  lemma {:induction false} ZColumnAt(xs: seq<Num>, mean: Num, spread: Num, i: nat)
    requires spread.Val? ==> spread.v >= 0.0
    requires i < |xs|
    ensures ZColumn(xs, mean, spread)[i] == ZScore(xs[i], mean, spread)
    decreases |xs|
  {
    if i < |xs| - 1 {
      ZColumnAt(xs[..|xs| - 1], mean, spread, i);
    }
  }

  /** Factor f of row i's z-scores is entry i of factor f's z-score column,
      taken against that column's mean. */
  lemma ZRowIsZColumn(group: seq<FactorRow>, i: nat, weights: seq<real>, spread: nat -> Num, f: nat)
    requires Shaped(group, weights) && Spreads(spread) && i < |group| && f < |weights|
    ensures ZRow(group, i, weights, spread)[f]
            == ZColumn(Column(group, f), MeanSkipNa(Column(group, f)), spread(f))[i]
  {
    ZColumnAt(Column(group, f), MeanSkipNa(Column(group, f)), spread(f), i);
  }

  /** The z-scores the composite score reads for one factor, across the
      group, sum to zero over the defined ones when the factor's mean and
      spread are defined. */
  lemma ScoredColumnCentred(group: seq<FactorRow>, weights: seq<real>, spread: nat -> Num, f: nat)
    requires Shaped(group, weights) && Spreads(spread) && f < |weights|
    requires MeanSkipNa(Column(group, f)).Val? && spread(f).Val?
    ensures SeqSum(Present(seq(|group|, i requires 0 <= i < |group| => ZRow(group, i, weights, spread)[f]))) == 0.0
  {
    var col := Column(group, f);
    var zs := ZColumn(col, MeanSkipNa(col), spread(f));
    forall i | 0 <= i < |group|
      ensures ZRow(group, i, weights, spread)[f] == zs[i]
    {
      ZRowIsZColumn(group, i, weights, spread, f);
    }
    assert seq(|group|, i requires 0 <= i < |group| => ZRow(group, i, weights, spread)[f]) == zs;
    ZColumnCentred(col, spread(f).v);
  }

  /** `standardize_and_score` on one date's group: the date and code of each
      row, with its composite score. */
  function Scores(group: seq<FactorRow>, weights: seq<real>, spread: nat -> Num): (r: seq<ScoredRow>)
    requires Shaped(group, weights) && Spreads(spread)
    ensures |r| == |group|
    ensures forall i :: 0 <= i < |group| ==> r[i].date == group[i].date && r[i].code == group[i].code
  {
    seq(|group|, i requires 0 <= i < |group| =>
      ScoredRow(group[i].date, group[i].code, Composite(ZRow(group, i, weights, spread), weights)))
  }

  // ---------------------------------------------------------------------
  // Ranking and the top N
  // ---------------------------------------------------------------------

  /** Score x ranks at or above score y in a descending sort that puts NaN last. */
  predicate Ranks(x: Num, y: Num)
  {
    y.Undef? || (x.Val? && x.v >= y.v)
  }

  predicate SortedDesc(s: seq<ScoredRow>)
  {
    forall i, j :: 0 <= i < j < |s| ==> Ranks(s[i].score, s[j].score)
  }

  /** Places x before the first row it ranks at or above. */
  function Insert(x: ScoredRow, s: seq<ScoredRow>): seq<ScoredRow>
  {
    if s == [] then [x]
    else if Ranks(x.score, s[0].score) then [x] + s
    else [s[0]] + Insert(x, s[1..])
  }

  lemma {:induction false} InsertKeeps(x: ScoredRow, s: seq<ScoredRow>)
    ensures multiset(Insert(x, s)) == multiset(s) + multiset{x}
    decreases |s|
  {
    if s != [] && !Ranks(x.score, s[0].score) {
      InsertKeeps(x, s[1..]);
      assert s == [s[0]] + s[1..];
    }
  }

  lemma {:induction false} InsertSorts(x: ScoredRow, s: seq<ScoredRow>)
    requires SortedDesc(s)
    ensures SortedDesc(Insert(x, s))
    decreases |s|
  {
    if s != [] && !Ranks(x.score, s[0].score) {
      var t := Insert(x, s[1..]);
      InsertSorts(x, s[1..]);
      InsertKeeps(x, s[1..]);
      forall j | 0 <= j < |t| ensures Ranks(s[0].score, t[j].score) {
        assert t[j] in multiset(t);
        if t[j] != x {
          assert t[j] in s[1..];
        }
      }
    }
  }

  /** `sort_values(by='composite_score', ascending=False)`. */
  function SortDesc(s: seq<ScoredRow>): (r: seq<ScoredRow>)
    ensures SortedDesc(r)
    ensures multiset(r) == multiset(s)
  {
    if s == [] then []
    else
      var t := SortDesc(s[..|s| - 1]);
      InsertSorts(s[|s| - 1], t);
      InsertKeeps(s[|s| - 1], t);
      assert s == s[..|s| - 1] + [s[|s| - 1]];
      Insert(s[|s| - 1], t)
  }

  /** The number of rows `head(n)` keeps from `len` rows: a negative n drops
      the last |n| rows. */
  function HeadCount(len: nat, n: int): (k: nat)
    ensures k <= len
  {
    if n >= 0 then (if n < len then n else len)
    else if len + n > 0 then len + n else 0
  }

  /** The rows `select_stocks_by_score` keeps: the first of the ranking. */
  function Selected(group: seq<ScoredRow>, topN: int): seq<ScoredRow>
  {
    var ranked := SortDesc(group);
    ranked[..HeadCount(|ranked|, topN)]
  }

  /** The rows of the ranking that are not kept. */
  function Unselected(group: seq<ScoredRow>, topN: int): seq<ScoredRow>
  {
    var ranked := SortDesc(group);
    ranked[HeadCount(|ranked|, topN)..]
  }

  /** `select_stocks_by_score`: the kept rows with weight `1 / len(group)`,
      a `ZeroDivisionError` when none is kept. */
  function SelectStocks(group: seq<ScoredRow>, topN: int): (r: Result<seq<Position>>)
    ensures r.Err? <==> |Selected(group, topN)| == 0
    ensures r.Err? ==> r.error == ZeroDivision
    ensures r.Ok? ==> |r.value| == |Selected(group, topN)|
    ensures r.Ok? ==> forall i :: 0 <= i < |r.value| ==>
              r.value[i].date == Selected(group, topN)[i].date
              && r.value[i].code == Selected(group, topN)[i].code
              && r.value[i].weight == 1.0 / |r.value| as real
  {
    var top := Selected(group, topN);
    if |top| == 0 then Err(ZeroDivision)
    else Ok(seq(|top|, i requires 0 <= i < |top| => Position(top[i].date, top[i].code, 1.0 / |top| as real)))
  }

  /** The number kept is `min(top_n, len(group))`, or the length less |top_n|
      for a negative `top_n`. */
  lemma SelectedCount(group: seq<ScoredRow>, topN: int)
    ensures topN >= 0 ==> |Selected(group, topN)| == if topN < |group| then topN else |group|
    ensures topN < 0 ==> |Selected(group, topN)| == if |group| + topN > 0 then |group| + topN else 0
  {
    assert |SortDesc(group)| == |group| by {
      assert |multiset(SortDesc(group))| == |multiset(group)|;
    }
  }

  /** The kept and the dropped rows are the group split in two, and every
      kept score ranks at or above every dropped one. */
  lemma SelectedOutrank(group: seq<ScoredRow>, topN: int)
    ensures multiset(Selected(group, topN)) + multiset(Unselected(group, topN)) == multiset(group)
    ensures forall a, b :: a in Selected(group, topN) && b in Unselected(group, topN) ==> Ranks(a.score, b.score)
  {
    var ranked := SortDesc(group);
    var k := HeadCount(|ranked|, topN);
    assert ranked == ranked[..k] + ranked[k..];
    forall a, b | a in ranked[..k] && b in ranked[k..] ensures Ranks(a.score, b.score) {
      var i :| 0 <= i < k && ranked[i] == a;
      var j :| 0 <= j < |ranked| - k && ranked[k..][j] == b;
      assert ranked[k + j] == b;
    }
  }

  /** The equal weights of a non-empty selection add up to 1. */
  lemma WeightsSumToOne(group: seq<ScoredRow>, topN: int)
    requires SelectStocks(group, topN).Ok?
    ensures SeqSum(Weights(SelectStocks(group, topN).value)) == 1.0
  {
    var ps := SelectStocks(group, topN).value;
    var k := |ps|;
    var w := 1.0 / k as real;
    SeqSumBounds(Weights(ps), w, w);
    InverseTimes(k);
  }

  lemma InverseTimes(k: nat)
    requires k > 0
    ensures 1.0 / k as real * k as real == 1.0
  {
  }

  function Weights(ps: seq<Position>): (r: seq<real>)
    ensures |r| == |ps| && forall i :: 0 <= i < |ps| ==> r[i] == ps[i].weight
  {
    seq(|ps|, i requires 0 <= i < |ps| => ps[i].weight)
  }

  // ---------------------------------------------------------------------
  // All dates
  // ---------------------------------------------------------------------

  /** The rows of one date, in their original order (a `groupby` group). */
  function RowsOn(data: seq<FactorRow>, d: Date): (r: seq<FactorRow>)
    ensures forall x :: x in r <==> x in data && x.date == d
    ensures |r| == 0 <==> forall i :: 0 <= i < |data| ==> data[i].date != d
  {
    if data == [] then []
    else
      var init := RowsOn(data[..|data| - 1], d);
      var x := data[|data| - 1];
      assert data == data[..|data| - 1] + [x];
      assert forall i :: 0 <= i < |data| - 1 ==> data[..|data| - 1][i] == data[i];
      if x.date == d then init + [x] else init
  }

  function Dates(data: seq<FactorRow>): (r: seq<Date>)
    ensures forall d :: d in r <==> exists i :: 0 <= i < |data| && data[i].date == d
  {
    if data == [] then []
    else
      assert forall i :: 0 <= i < |data| - 1 ==> data[..|data| - 1][i] == data[i];
      Dates(data[..|data| - 1]) + [data[|data| - 1].date]
  }

  /** The scored selection of one date. */
  function SelectOn(data: seq<FactorRow>, d: Date, weights: seq<real>, spread: (Date, nat) -> Num, topN: int): Result<seq<Position>>
    requires Shaped(data, weights) && forall e, f :: spread(e, f).Val? ==> spread(e, f).v >= 0.0
  {
    var group := RowsOn(data, d);
    assert Shaped(group, weights) by {
      forall i | 0 <= i < |group| ensures |group[i].factors| == |weights| {
        assert group[i] in group;
      }
    }
    SelectStocks(Scores(group, weights, (f: nat) => spread(d, f)), topN)
  }

  /** The selections of the dates `ds`, one after another. */
  function PositionsOver(data: seq<FactorRow>, ds: seq<Date>, weights: seq<real>, spread: (Date, nat) -> Num, topN: int): Result<seq<Position>>
    requires Shaped(data, weights) && forall e, f :: spread(e, f).Val? ==> spread(e, f).v >= 0.0
  {
    if ds == [] then Ok([])
    else
      match SelectOn(data, ds[0], weights, spread, topN)
      case Err(e) => Err(e)
      case Ok(ps) =>
        match PositionsOver(data, ds[1..], weights, spread, topN)
        case Err(e) => Err(e)
        case Ok(rest) => Ok(ps + rest)
  }

  /** `construct_positions`: the selections of every date, in date order.
      `spread(d, f)` is the standard deviation of factor f on date d. */
  function ConstructPositions(data: seq<FactorRow>, weights: seq<real>, spread: (Date, nat) -> Num, topN: int): (r: Result<seq<Position>>)
    requires Shaped(data, weights) && forall e, f :: spread(e, f).Val? ==> spread(e, f).v >= 0.0
    ensures r.Err? <==> exists i :: 0 <= i < |data| && SelectOn(data, data[i].date, weights, spread, topN).Err?
    ensures r.Err? ==> r.error == ZeroDivision
    ensures data == [] ==> r == Ok([])
  {
    var ds := SortedUnique(Dates(data));
    PositionsOverFails(data, ds, weights, spread, topN);
    ConstructFailsOnSomeDate(data, ds, weights, spread, topN);
    PositionsOver(data, ds, weights, spread, topN)
  }

  /** Some listed date fails exactly when some row's date fails. */
  lemma ConstructFailsOnSomeDate(data: seq<FactorRow>, ds: seq<Date>, weights: seq<real>, spread: (Date, nat) -> Num, topN: int)
    requires Shaped(data, weights) && forall e, f :: spread(e, f).Val? ==> spread(e, f).v >= 0.0
    requires forall d :: d in ds <==> d in Dates(data)
    ensures (exists i :: 0 <= i < |ds| && SelectOn(data, ds[i], weights, spread, topN).Err?) <==>
            (exists i :: 0 <= i < |data| && SelectOn(data, data[i].date, weights, spread, topN).Err?)
  {
    if exists i :: 0 <= i < |ds| && SelectOn(data, ds[i], weights, spread, topN).Err? {
      var i :| 0 <= i < |ds| && SelectOn(data, ds[i], weights, spread, topN).Err?;
      assert ds[i] in Dates(data);
    }
    if exists i :: 0 <= i < |data| && SelectOn(data, data[i].date, weights, spread, topN).Err? {
      var i :| 0 <= i < |data| && SelectOn(data, data[i].date, weights, spread, topN).Err?;
      assert data[i].date in Dates(data);
      var k :| 0 <= k < |ds| && ds[k] == data[i].date;
    }
  }

  /** The positions of one date. */
  function PositionsOn(ps: seq<Position>, d: Date): seq<Position>
  {
    if ps == [] then []
    else PositionsOn(ps[..|ps| - 1], d) + (if ps[|ps| - 1].date == d then [ps[|ps| - 1]] else [])
  }

  lemma {:induction false} PositionsOnAppend(ps: seq<Position>, qs: seq<Position>, d: Date)
    ensures PositionsOn(ps + qs, d) == PositionsOn(ps, d) + PositionsOn(qs, d)
    decreases |qs|
  {
    if qs == [] {
      assert ps + qs == ps;
    } else {
      assert (ps + qs)[..|ps + qs| - 1] == ps + qs[..|qs| - 1];
      PositionsOnAppend(ps, qs[..|qs| - 1], d);
    }
  }

  lemma {:induction false} PositionsOnAll(ps: seq<Position>, d: Date)
    ensures (forall i :: 0 <= i < |ps| ==> ps[i].date == d) ==> PositionsOn(ps, d) == ps
    ensures (forall i :: 0 <= i < |ps| ==> ps[i].date != d) ==> PositionsOn(ps, d) == []
    decreases |ps|
  {
    if ps != [] {
      PositionsOnAll(ps[..|ps| - 1], d);
    }
  }

  /** Every position selected on date e is dated e. */
  lemma SelectOnDated(data: seq<FactorRow>, e: Date, weights: seq<real>, spread: (Date, nat) -> Num, topN: int)
    requires Shaped(data, weights) && forall e, f :: spread(e, f).Val? ==> spread(e, f).v >= 0.0
    requires SelectOn(data, e, weights, spread, topN).Ok?
    ensures forall i :: 0 <= i < |SelectOn(data, e, weights, spread, topN).value| ==>
              SelectOn(data, e, weights, spread, topN).value[i].date == e
  {
    var group := RowsOn(data, e);
    assert Shaped(group, weights) by {
      forall i | 0 <= i < |group| ensures |group[i].factors| == |weights| {
        assert group[i] in group;
      }
    }
    var scored := Scores(group, weights, (f: nat) => spread(e, f));
    forall i | 0 <= i < |scored| ensures scored[i].date == e {
      assert group[i] in group;
    }
    SelectStocksDated(scored, topN, e);
  }

  /** Selection keeps the date of the rows it selects from. */
  lemma SelectStocksDated(scored: seq<ScoredRow>, topN: int, e: Date)
    requires forall i :: 0 <= i < |scored| ==> scored[i].date == e
    requires SelectStocks(scored, topN).Ok?
    ensures forall i :: 0 <= i < |SelectStocks(scored, topN).value| ==> SelectStocks(scored, topN).value[i].date == e
  {
    var top := Selected(scored, topN);
    SelectedOutrank(scored, topN);
    forall i | 0 <= i < |top| ensures top[i].date == e {
      assert top[i] in multiset(scored);
    }
  }

  /** Dates are independent: on an increasing list of dates, the positions
      of a listed date are that date's own selection. */
  lemma {:induction false} PositionsOverPerDate(data: seq<FactorRow>, ds: seq<Date>, weights: seq<real>, spread: (Date, nat) -> Num, topN: int, d: Date)
    requires Shaped(data, weights) && forall e, f :: spread(e, f).Val? ==> spread(e, f).v >= 0.0
    requires StrictlyIncreasing(ds) && PositionsOver(data, ds, weights, spread, topN).Ok?
    ensures d in ds ==> SelectOn(data, d, weights, spread, topN).Ok?
    ensures d in ds ==> PositionsOn(PositionsOver(data, ds, weights, spread, topN).value, d)
                        == SelectOn(data, d, weights, spread, topN).value
    ensures d !in ds ==> PositionsOn(PositionsOver(data, ds, weights, spread, topN).value, d) == []
    decreases |ds|
  {
    if ds != [] {
      assert StrictlyIncreasing(ds[1..]);
      PositionsOverPerDate(data, ds[1..], weights, spread, topN, d);
      PositionsOverPerDateStep(data, ds, weights, spread, topN, d);
    }
  }

  /** The step of `PositionsOverPerDate`: the head date's own positions
      come first, and the remaining dates' positions carry the date's. */
  lemma PositionsOverPerDateStep(data: seq<FactorRow>, ds: seq<Date>, weights: seq<real>, spread: (Date, nat) -> Num, topN: int, d: Date)
    requires Shaped(data, weights) && forall e, f :: spread(e, f).Val? ==> spread(e, f).v >= 0.0
    requires StrictlyIncreasing(ds) && ds != [] && PositionsOver(data, ds, weights, spread, topN).Ok?
    requires PositionsOver(data, ds[1..], weights, spread, topN).Ok?
    requires d in ds[1..] ==> SelectOn(data, d, weights, spread, topN).Ok?
    requires d in ds[1..] ==> PositionsOn(PositionsOver(data, ds[1..], weights, spread, topN).value, d)
                              == SelectOn(data, d, weights, spread, topN).value
    requires d !in ds[1..] ==> PositionsOn(PositionsOver(data, ds[1..], weights, spread, topN).value, d) == []
    ensures d in ds ==> SelectOn(data, d, weights, spread, topN).Ok?
    ensures d in ds ==> PositionsOn(PositionsOver(data, ds, weights, spread, topN).value, d)
                        == SelectOn(data, d, weights, spread, topN).value
    ensures d !in ds ==> PositionsOn(PositionsOver(data, ds, weights, spread, topN).value, d) == []
  {
    var ps := SelectOn(data, ds[0], weights, spread, topN).value;
    var rest := PositionsOver(data, ds[1..], weights, spread, topN).value;
    assert PositionsOver(data, ds, weights, spread, topN).value == ps + rest;
    SelectOnDated(data, ds[0], weights, spread, topN);
    PositionsOnHead(ps, rest, ds[0], d);
    if d == ds[0] {
      assert d !in ds[1..];
    }
  }

  /** Positions all dated e, followed by others: e's positions are those
      first ones and e's among the others; any other date's are the others'. */
  lemma PositionsOnHead(ps: seq<Position>, rest: seq<Position>, e: Date, d: Date)
    requires forall i :: 0 <= i < |ps| ==> ps[i].date == e
    ensures d == e ==> PositionsOn(ps + rest, d) == ps + PositionsOn(rest, d)
    ensures d != e ==> PositionsOn(ps + rest, d) == PositionsOn(rest, d)
  {
    PositionsOnAppend(ps, rest, d);
    PositionsOnAll(ps, d);
  }

  /** `construct_positions` fails exactly when some date keeps no row, and
      otherwise gives each date its own selection and nothing for other dates. */
  lemma ConstructPositionsPerDate(data: seq<FactorRow>, weights: seq<real>, spread: (Date, nat) -> Num, topN: int, d: Date)
    requires Shaped(data, weights) && forall e, f :: spread(e, f).Val? ==> spread(e, f).v >= 0.0
    requires ConstructPositions(data, weights, spread, topN).Ok?
    ensures (exists i :: 0 <= i < |data| && data[i].date == d) ==>
              SelectOn(data, d, weights, spread, topN).Ok?
              && PositionsOn(ConstructPositions(data, weights, spread, topN).value, d)
                 == SelectOn(data, d, weights, spread, topN).value
    ensures (forall i :: 0 <= i < |data| ==> data[i].date != d) ==>
              PositionsOn(ConstructPositions(data, weights, spread, topN).value, d) == []
  {
    PositionsOverPerDate(data, SortedUnique(Dates(data)), weights, spread, topN, d);
  }

  /** The whole run fails, with a division by zero, exactly when some date's
      selection is empty. */
  lemma {:induction false} PositionsOverFails(data: seq<FactorRow>, ds: seq<Date>, weights: seq<real>, spread: (Date, nat) -> Num, topN: int)
    requires Shaped(data, weights) && forall e, f :: spread(e, f).Val? ==> spread(e, f).v >= 0.0
    ensures PositionsOver(data, ds, weights, spread, topN).Err? <==>
              exists i :: 0 <= i < |ds| && SelectOn(data, ds[i], weights, spread, topN).Err?
    ensures PositionsOver(data, ds, weights, spread, topN).Err? ==>
              PositionsOver(data, ds, weights, spread, topN).error == ZeroDivision
    decreases |ds|
  {
    if ds != [] {
      PositionsOverFails(data, ds[1..], weights, spread, topN);
      if exists i :: 1 <= i < |ds| && SelectOn(data, ds[i], weights, spread, topN).Err? {
        var i :| 1 <= i < |ds| && SelectOn(data, ds[i], weights, spread, topN).Err?;
        assert ds[1..][i - 1] == ds[i];
      }
      if exists i :: 0 <= i < |ds| - 1 && SelectOn(data, ds[1..][i], weights, spread, topN).Err? {
        var i :| 0 <= i < |ds| - 1 && SelectOn(data, ds[1..][i], weights, spread, topN).Err?;
        assert ds[1..][i] == ds[i + 1];
      }
    }
  }
}
