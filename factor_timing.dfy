/** The weighted timing signal of the factor package: a moving-average
    signal, a breadth signal and a momentum signal combined with weights
    (0.4, 0.3, 0.3 by default) into a score, classified with a long and a
    short threshold. Rolling averages and momentum sums are inputs. */
module FactorTiming {
  import opened Common
  import opened SignalRules

  /** One index row with its rolling averages and its momentum sum. */
  datatype IndexRow = IndexRow(date: Date, maShort: Num, maLong: Num, momentum: Num)

  /** The three signals of one date after the column-wise concatenation. */
  datatype Components = Components(ma: Num, breadth: Num, momentum: Num)

  datatype Weights = Weights(ma: real, breadth: real, momentum: real)

  /** The weights used when the caller passes none. */
  const DefaultWeights: Weights := Weights(0.4, 0.3, 0.3)

  const DefaultLong: real := 0.6
  const DefaultShort: real := 0.4

  function WeightsOrDefault(w: Option<Weights>): Weights
  {
    if w.Some? then w.value else DefaultWeights
  }

  /** `np.where(momentum > 0, 1, 0)`: NaN momentum gives 0. */
  function MomentumSignal(m: Num): (r: real)
    ensures r == 1.0 <==> Gt(m, 0.0)
    ensures r == 0.0 <==> !Gt(m, 0.0)
  {
    if Gt(m, 0.0) then 1.0 else 0.0
  }

  /** The three signals of an index row, with the breadth of its date. */
  function ComponentsOf(row: IndexRow, market: seq<MarketRow>): (c: Components)
    ensures c.ma.Val? && c.momentum.Val?
  {
    Components(Val(Cross(row.maShort, row.maLong)), BreadthOn(market, row.date), Val(MomentumSignal(row.momentum)))
  }

  /** `ma * w_ma + breadth * w_breadth + momentum * w_momentum`, NaN as soon
      as one signal is NaN. */
  function WeightedScore(c: Components, w: Weights): (r: Num)
    ensures r.Undef? <==> c.ma.Undef? || c.breadth.Undef? || c.momentum.Undef?
  {
    if c.ma.Val? && c.breadth.Val? && c.momentum.Val?
    then Val(c.ma.v * w.ma + c.breadth.v * w.breadth + c.momentum.v * w.momentum)
    else Undef
  }

  /** The final signal: 1 from the long threshold, else 0 up to the short one,
      else NaN. */
  function WeightedSignal(c: Components, w: Weights, long: real, short: real): Num
  {
    Threshold(WeightedScore(c, w), long, short)
  }

  /** Signals in [0, 1] and non-negative weights summing to 1 give a score in [0, 1]. */
  lemma ScoreBounds(c: Components, w: Weights)
    requires c.ma.Val? && c.breadth.Val? && c.momentum.Val?
    requires 0.0 <= c.ma.v <= 1.0 && 0.0 <= c.breadth.v <= 1.0 && 0.0 <= c.momentum.v <= 1.0
    requires w.ma >= 0.0 && w.breadth >= 0.0 && w.momentum >= 0.0 && w.ma + w.breadth + w.momentum == 1.0
    ensures 0.0 <= WeightedScore(c, w).v <= 1.0
  {
    WeightedBounds(c.ma.v, c.breadth.v, c.momentum.v, w.ma, w.breadth, w.momentum);
  }

  lemma WeightedBounds(a: real, b: real, m: real, wa: real, wb: real, wm: real)
    requires 0.0 <= a <= 1.0 && 0.0 <= b <= 1.0 && 0.0 <= m <= 1.0
    requires wa >= 0.0 && wb >= 0.0 && wm >= 0.0 && wa + wb + wm == 1.0
    ensures 0.0 <= a * wa + b * wb + m * wm <= 1.0
  {
    var pa := ProductWithin(a, wa);
    var pb := ProductWithin(b, wb);
    var pm := ProductWithin(m, wm);
    SumWithin(pa, pb, pm, wa, wb, wm);
  }

  /** A fraction x of a non-negative weight w lies between 0 and w. */
  lemma ProductWithin(x: real, w: real) returns (p: real)
    requires 0.0 <= x <= 1.0 && w >= 0.0
    ensures p == x * w && 0.0 <= p <= w
  {
    p := x * w;
    assert x * w <= 1.0 * w;
  }

  /** Three terms each between 0 and its bound sum to between 0 and the sum of the bounds. */
  lemma SumWithin(a: real, b: real, m: real, wa: real, wb: real, wm: real)
    requires 0.0 <= a <= wa && 0.0 <= b <= wb && 0.0 <= m <= wm
    ensures 0.0 <= a + b + m <= wa + wb + wm
  {
  }

  /** With the default weights every defined row score lies in [0, 1]. */
  lemma DefaultScoreBounds(row: IndexRow, market: seq<MarketRow>)
    requires ComponentsOf(row, market).breadth.Val?
    ensures 0.0 <= WeightedScore(ComponentsOf(row, market), DefaultWeights).v <= 1.0
  {
    ScoreBounds(ComponentsOf(row, market), DefaultWeights);
  }

  /** A NaN signal makes both the score and the final signal NaN; otherwise
      the final signal is 1 exactly at or above the long threshold, and 0
      exactly below it and at or under the short one. */
  lemma WeightedSignalClasses(c: Components, w: Weights, long: real, short: real)
    ensures c.ma.Undef? || c.breadth.Undef? || c.momentum.Undef? ==> WeightedSignal(c, w, long, short).Undef?
    ensures WeightedSignal(c, w, long, short) == Val(1.0) <==>
              WeightedScore(c, w).Val? && WeightedScore(c, w).v >= long
    ensures WeightedSignal(c, w, long, short) == Val(0.0) <==>
              WeightedScore(c, w).Val? && WeightedScore(c, w).v < long && WeightedScore(c, w).v <= short
  {
  }

  /** One output row: the score and the final signal of a date. */
  datatype ScoreRow = ScoreRow(date: Date, weightedScore: Num, finalSignal: Num)

  /** `calculate_weighted_timing_signal` on the index rows, with the weights
      (default when absent) and the two thresholds. */
  function WeightedTiming(index: seq<IndexRow>, market: seq<MarketRow>, w: Option<Weights>, long: real, short: real): (r: seq<ScoreRow>)
    ensures |r| == |index|
    ensures forall i :: 0 <= i < |index| ==>
              r[i].date == index[i].date
              && r[i].weightedScore == WeightedScore(ComponentsOf(index[i], market), WeightsOrDefault(w))
              && r[i].finalSignal == Threshold(r[i].weightedScore, long, short)
  {
    seq(|index|, i requires 0 <= i < |index| =>
      var score := WeightedScore(ComponentsOf(index[i], market), WeightsOrDefault(w));
      ScoreRow(index[i].date, score, Threshold(score, long, short)))
  }

  /** With the defaults a row's final signal is NaN exactly when its date's
      breadth is NaN or its score falls strictly between 0.4 and 0.6. */
  lemma DefaultTimingUndefined(index: seq<IndexRow>, market: seq<MarketRow>, i: nat)
    requires i < |index|
    ensures WeightedTiming(index, market, None, DefaultLong, DefaultShort)[i].finalSignal.Undef? <==>
              BreadthOn(market, index[i].date).Undef?
              || (DefaultShort < WeightedScore(ComponentsOf(index[i], market), DefaultWeights).v < DefaultLong)
  {
  }
}
