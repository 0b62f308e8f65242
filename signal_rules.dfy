/** The classification rules that both timing-signal files share: the 0/1
    crossing of two averages, the share of rising stocks on a date, the
    breadth classes, and the two-threshold classification of a score. */
module SignalRules {
  import opened Common

  /** One stock on one date, with its daily percentage change. */
  datatype MarketRow = MarketRow(date: Date, code: Code, pctChg: Num)

  /** `np.where(a > b, 1, 0)`: 1 when both averages are defined and the
      first is above the second, 0 otherwise, including when either is NaN. */
  function Cross(a: Num, b: Num): (r: real)
    ensures r == 1.0 <==> a.Val? && b.Val? && a.v > b.v
    ensures r == 0.0 <==> !(a.Val? && b.Val? && a.v > b.v)
  {
    if a.Val? && b.Val? && a.v > b.v then 1.0 else 0.0
  }

  /** The two crossings of a pair never both fire, and exactly one fires
      when both averages are defined and differ. */
  lemma CrossAntisymmetric(a: Num, b: Num)
    ensures Cross(a, b) + Cross(b, a) <= 1.0
    ensures Cross(a, b) + Cross(b, a) == 1.0 <==> a.Val? && b.Val? && a.v != b.v
  {
  }

  /** `pct_chg > 0`: a NaN change does not count as a rise. */
  predicate Up(pct: Num)
  {
    Gt(pct, 0.0)
  }

  function UpCount(pcts: seq<Num>): (n: nat)
    ensures n <= |pcts|
  {
    if pcts == [] then 0
    else UpCount(pcts[..|pcts| - 1]) + (if Up(pcts[|pcts| - 1]) then 1 else 0)
  }

  /** Every row counts as a rise exactly when the count is the length; none
      does exactly when the count is zero. */
  lemma {:induction false} UpCountExtremes(pcts: seq<Num>)
    ensures UpCount(pcts) == |pcts| <==> forall i :: 0 <= i < |pcts| ==> Up(pcts[i])
    ensures UpCount(pcts) == 0 <==> forall i :: 0 <= i < |pcts| ==> !Up(pcts[i])
    decreases |pcts|
  {
    if pcts != [] {
      var n := |pcts| - 1;
      UpCountExtremes(pcts[..n]);
      assert forall i :: 0 <= i < n ==> pcts[..n][i] == pcts[i];
    }
  }

  /** The share of rows of a date whose change is positive: the rising
      count over the row count (both files), NaN changes counted as not rising. */
  function UpRatio(pcts: seq<Num>): real
    requires |pcts| > 0
  {
    UpCount(pcts) as real / |pcts| as real
  }

  /** The share lies in [0, 1]; it is 1 exactly when every stock rose and 0
      exactly when none did. */
  lemma UpRatioBounds(pcts: seq<Num>)
    requires |pcts| > 0
    ensures 0.0 <= UpRatio(pcts) <= 1.0
    ensures UpRatio(pcts) == 1.0 <==> forall i :: 0 <= i < |pcts| ==> Up(pcts[i])
    ensures UpRatio(pcts) == 0.0 <==> forall i :: 0 <= i < |pcts| ==> !Up(pcts[i])
  {
    UpCountExtremes(pcts);
    ShareBounds(UpCount(pcts), |pcts|);
  }

  lemma ShareBounds(k: nat, n: nat)
    requires 0 < n && k <= n
    ensures 0.0 <= k as real / n as real <= 1.0
    ensures k as real / n as real == 1.0 <==> k == n
    ensures k as real / n as real == 0.0 <==> k == 0
  {
  }

  /** The changes of the rows of date d. */
  function PctsOn(market: seq<MarketRow>, d: Date): (r: seq<Num>)
    ensures |r| == 0 <==> forall i :: 0 <= i < |market| ==> market[i].date != d
  {
    if market == [] then []
    else
      var n := |market| - 1;
      assert forall i :: 0 <= i < n ==> market[..n][i] == market[i];
      PctsOn(market[..n], d) + (if market[n].date == d then [market[n].pctChg] else [])
  }

  /** The breadth classes: 1 above 0.6, 0 below 0.4, NaN in between. */
  function Breadth(ratio: real): (r: Num)
    ensures r == Val(1.0) <==> ratio > 0.6
    ensures r == Val(0.0) <==> ratio < 0.4
    ensures r.Undef? <==> 0.4 <= ratio <= 0.6
  {
    if ratio > 0.6 then Val(1.0) else if ratio < 0.4 then Val(0.0) else Undef
  }

  /** A higher share never gives a lower defined breadth signal. */
  lemma BreadthMonotone(r1: real, r2: real)
    requires r1 <= r2 && Breadth(r1).Val? && Breadth(r2).Val?
    ensures Breadth(r1).v <= Breadth(r2).v
  {
  }

  /** The breadth signal of date d as a left merge or an index-aligned
      concatenation sees it: NaN when the market has no row that date. */
  function BreadthOn(market: seq<MarketRow>, d: Date): (r: Num)
    ensures r.Val? ==> r == Val(0.0) || r == Val(1.0)
  {
    var pcts := PctsOn(market, d);
    if pcts == [] then Undef else Breadth(UpRatio(pcts))
  }

  /** `np.where(score >= long, 1, np.where(score <= short, 0, np.nan))`:
      the long test first, and NaN for a NaN score. */
  function Threshold(score: Num, long: real, short: real): (r: Num)
    ensures r == Val(1.0) <==> Ge(score, long)
    ensures r == Val(0.0) <==> !Ge(score, long) && Le(score, short)
    ensures r.Undef? <==> !Ge(score, long) && !Le(score, short)
  {
    if Ge(score, long) then Val(1.0) else if Le(score, short) then Val(0.0) else Undef
  }

  /** With ordered thresholds a higher defined score never gives a lower
      defined signal, and a NaN score always gives NaN. */
  lemma ThresholdMonotone(s1: real, s2: real, long: real, short: real)
    requires short <= long && s1 <= s2
    requires Threshold(Val(s1), long, short).Val? && Threshold(Val(s2), long, short).Val?
    ensures Threshold(Val(s1), long, short).v <= Threshold(Val(s2), long, short).v
    ensures Threshold(Undef, long, short).Undef?
  {
  }
}
