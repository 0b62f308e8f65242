/** Factor evaluation: which columns count as factors, the daily
    information-coefficient table (with the rank correlation as an input),
    the screening of factors on the latest month's IC and ICIR, and the
    retirement of factors whose ICIR stayed low for three months. Monthly
    means and standard deviations are inputs; moving files and writing the
    retirement log are not modelled. */
module FactorAnalysis {
  import opened Common

  /** The name prefixes that mark a column as a factor. */
  const FactorPrefixes: seq<string> := ["momentum", "volatility", "bias", "pe", "roe", "turnover", "sentiment"]

  /** Screening thresholds on the latest month, both strict. */
  const MinIc: real := 0.02
  const MinIcir: real := 0.3

  /** A monthly ICIR below this value counts towards retirement. */
  const RetireIcir: real := 0.3

  /** Number of trailing months the retirement rule looks at. */
  const RetireMonths: nat := 3

  predicate StartsWith(s: string, p: string)
  {
    |p| <= |s| && s[..|p|] == p
  }

  /** `str.startswith` with a tuple of prefixes. */
  function HasPrefix(s: string, ps: seq<string>): (r: bool)
    ensures r <==> exists i :: 0 <= i < |ps| && StartsWith(s, ps[i])
  {
    if ps == [] then false
    else
      var n := |ps| - 1;
      assert forall i :: 0 <= i < n ==> ps[..n][i] == ps[i];
      HasPrefix(s, ps[..n]) || StartsWith(s, ps[n])
  }

  predicate IsFactorColumn(col: string)
  {
    HasPrefix(col, FactorPrefixes)
  }

  /** The positions where a boolean mask is true, in increasing order: the
      rows a pandas boolean index keeps. */
  function Where(mask: seq<bool>): (r: seq<nat>)
    ensures forall i :: 0 <= i < |r| ==> r[i] < |mask| && mask[r[i]]
    ensures forall k :: 0 <= k < |mask| && mask[k] ==> k in r
    ensures forall i, j :: 0 <= i < j < |r| ==> r[i] < r[j]
    ensures |r| <= |mask|
  {
    if mask == [] then []
    else
      var n := |mask| - 1;
      var init := Where(mask[..n]);
      assert forall k :: 0 <= k < n ==> mask[..n][k] == mask[k];
      init + (if mask[n] then [n] else [])
  }

  /** The mask of a one-longer prefix selects the same positions and possibly the new one. */
  lemma WhereStep(mask: seq<bool>, k: nat)
    requires k < |mask|
    ensures Where(mask[..k + 1]) == Where(mask[..k]) + (if mask[k] then [k] else [])
  {
    assert mask[..k + 1][..k] == mask[..k];
  }

  /** The names a one-longer prefix of the mask keeps. */
  lemma PickStep(names: seq<string>, mask: seq<bool>, k: nat)
    requires k < |mask| == |names|
    ensures Pick(names, Where(mask[..k + 1])) == Pick(names, Where(mask[..k])) + (if mask[k] then [names[k]] else [])
  {
    WhereStep(mask, k);
  }

  /** The names at the given positions. */
  function Pick(names: seq<string>, idx: seq<nat>): (r: seq<string>)
    requires forall i :: 0 <= i < |idx| ==> idx[i] < |names|
    ensures |r| == |idx| && forall i :: 0 <= i < |idx| ==> r[i] == names[idx[i]]
  {
    seq(|idx|, i requires 0 <= i < |idx| => names[idx[i]])
  }

  /** A name is kept by a mask over the names exactly when some position
      holding it is marked. */
  lemma PickWhere(names: seq<string>, mask: seq<bool>, x: string)
    requires |mask| == |names|
    ensures x in Pick(names, Where(mask)) <==> exists k :: 0 <= k < |names| && names[k] == x && mask[k]
  {
    var w := Where(mask);
    if x in Pick(names, w) {
      var i :| 0 <= i < |w| && Pick(names, w)[i] == x;
      assert names[w[i]] == x && mask[w[i]];
    }
    if exists k :: 0 <= k < |names| && names[k] == x && mask[k] {
      var k :| 0 <= k < |names| && names[k] == x && mask[k];
      var i :| 0 <= i < |w| && w[i] == k;
      assert Pick(names, w)[i] == x;
    }
  }

  function FactorMask(columns: seq<string>): (r: seq<bool>)
    ensures |r| == |columns| && forall k :: 0 <= k < |columns| ==> r[k] == IsFactorColumn(columns[k])
  {
    seq(|columns|, k requires 0 <= k < |columns| => IsFactorColumn(columns[k]))
  }

  /** `factor_cols`: the factor columns, in column order. */
  function FactorCols(columns: seq<string>): seq<string>
  {
    Pick(columns, Where(FactorMask(columns)))
  }

  /** A column is a factor column exactly when its name starts with one of
      the seven prefixes. */
  lemma FactorColsMembers(columns: seq<string>, x: string)
    ensures x in FactorCols(columns) <==> x in columns && IsFactorColumn(x)
  {
    PickWhere(columns, FactorMask(columns), x);
  }

  /** The screen keeps price-volume, valuation, turnover and sentiment-score
      columns. */
  lemma FactorColumnsKept()
    ensures IsFactorColumn("momentum_20") && IsFactorColumn("pe_ttm")
    ensures IsFactorColumn("turnover_rate") && IsFactorColumn("sentiment_score")
  {
    assert StartsWith("momentum_20", FactorPrefixes[0]);
    assert StartsWith("pe_ttm", FactorPrefixes[3]);
    assert StartsWith("turnover_rate", FactorPrefixes[5]);
    assert StartsWith("sentiment_score", FactorPrefixes[6]);
  }

  /** The screen drops the keys, the forward return used as target, and the
      limit-move flags and market heat of the sentiment table. */
  lemma KeyColumnsDropped()
    ensures !IsFactorColumn("trade_date") && !IsFactorColumn("ts_code")
    ensures !IsFactorColumn("future_5d_return")
    ensures !IsFactorColumn("is_limit_up") && !IsFactorColumn("market_heat")
  {
    NoPrefixAt("trade_date", [0, 0, 0, 0, 0, 1, 0]);
    NoPrefixAt("ts_code", [0, 0, 0, 0, 0, 1, 0]);
    NoPrefixAt("future_5d_return", [0, 0, 0, 0, 0, 0, 0]);
    NoPrefixAt("is_limit_up", [0, 0, 0, 0, 0, 0, 0]);
    NoPrefixAt("market_heat", [1, 0, 0, 0, 0, 0, 0]);
  }

  /** A name that differs from every prefix at some position inside both is
      not a factor column; `at[i]` is that position for prefix i. */
  lemma NoPrefixAt(s: string, at: seq<nat>)
    requires |at| == |FactorPrefixes|
    requires forall i :: 0 <= i < |at| ==> at[i] < |s| && at[i] < |FactorPrefixes[i]| && s[at[i]] != FactorPrefixes[i][at[i]]
    ensures !IsFactorColumn(s)
  {
    forall i | 0 <= i < |FactorPrefixes|
      ensures !StartsWith(s, FactorPrefixes[i])
    {
    }
  }

  /** One row of the input frame: its date, a cell per column, and the
      forward return the IC is measured against. */
  datatype DataRow = DataRow(date: Date, cells: seq<Num>, future: Num)

  predicate HasColumn(data: seq<DataRow>, k: nat)
  {
    forall i :: 0 <= i < |data| ==> k < |data[i].cells|
  }

  predicate Rectangular(data: seq<DataRow>, width: nat)
  {
    forall i :: 0 <= i < |data| ==> |data[i].cells| == width
  }

  /** `Series.unique()`: the distinct values in order of first appearance. */
  function FirstSeen(ds: seq<Date>): (r: seq<Date>)
    ensures forall d :: d in r <==> d in ds
    ensures forall i, j :: 0 <= i < j < |r| ==> r[i] != r[j]
  {
    if ds == [] then []
    else
      var n := |ds| - 1;
      var init := FirstSeen(ds[..n]);
      assert ds == ds[..n] + [ds[n]];
      if ds[n] in init then init else init + [ds[n]]
  }

  function DatesOf(data: seq<DataRow>): (r: seq<Date>)
    ensures |r| == |data| && forall i :: 0 <= i < |data| ==> r[i] == data[i].date
  {
    seq(|data|, i requires 0 <= i < |data| => data[i].date)
  }

  /** Column k of the rows of date d, in row order: the factor series of one group. */
  function ColumnOn(data: seq<DataRow>, d: Date, k: nat): (r: seq<Num>)
    requires HasColumn(data, k)
  {
    if data == [] then []
    else
      var n := |data| - 1;
      ColumnOn(data[..n], d, k) + (if data[n].date == d then [data[n].cells[k]] else [])
  }

  /** The forward returns of the rows of date d, in row order. */
  function FutureOn(data: seq<DataRow>, d: Date): seq<Num>
  {
    if data == [] then []
    else
      var n := |data| - 1;
      FutureOn(data[..n], d) + (if data[n].date == d then [data[n].future] else [])
  }

  /** `Series.isnull().all()`. */
  predicate AllMissing(xs: seq<Num>)
  {
    forall i :: 0 <= i < |xs| ==> xs[i].Undef?
  }

  /** One cell of the IC table: left NaN when the factor has no value that
      date, else the rank correlation of the factor with the forward return
      (an input, `corr`). */
  function IcCell(data: seq<DataRow>, d: Date, k: nat, corr: (seq<Num>, seq<Num>) -> Num): Num
    requires HasColumn(data, k)
  {
    var xs := ColumnOn(data, d, k);
    if AllMissing(xs) then Undef else corr(xs, FutureOn(data, d))
  }

  /** One row of the IC table: the date and a cell per factor column. */
  datatype IcRow = IcRow(date: Date, ics: seq<Num>)

  /** The IC table `calculate_ic` builds: a row per distinct date in order of
      first appearance, a cell per factor column. */
  function IcTable(columns: seq<string>, data: seq<DataRow>, corr: (seq<Num>, seq<Num>) -> Num): (r: seq<IcRow>)
    requires Rectangular(data, |columns|)
  {
    var idx := Where(FactorMask(columns));
    var dates := FirstSeen(DatesOf(data));
    seq(|dates|, i requires 0 <= i < |dates| =>
      IcRow(dates[i], seq(|idx|, j requires 0 <= j < |idx| => IcCell(data, dates[i], idx[j], corr))))
  }

  /** The table has one row per distinct date and one cell per factor
      column; a factor whose values are all missing on a date leaves its
      cell NaN whatever the correlation would give, and any other cell is
      the correlation of that date's group. */
  lemma IcTableCells(columns: seq<string>, data: seq<DataRow>, corr: (seq<Num>, seq<Num>) -> Num)
    requires Rectangular(data, |columns|)
    ensures forall d :: d in RowDatesOf(IcTable(columns, data, corr)) <==> d in DatesOf(data)
    ensures forall i :: 0 <= i < |IcTable(columns, data, corr)| ==>
              |IcTable(columns, data, corr)[i].ics| == |FactorCols(columns)|
    ensures forall i, j :: 0 <= i < |IcTable(columns, data, corr)| && 0 <= j < |Where(FactorMask(columns))| ==>
              var d := IcTable(columns, data, corr)[i].date;
              var k := Where(FactorMask(columns))[j];
              (AllMissing(ColumnOn(data, d, k)) ==> IcTable(columns, data, corr)[i].ics[j].Undef?)
              && (!AllMissing(ColumnOn(data, d, k)) ==> IcTable(columns, data, corr)[i].ics[j] == corr(ColumnOn(data, d, k), FutureOn(data, d)))
  {
    assert RowDatesOf(IcTable(columns, data, corr)) == FirstSeen(DatesOf(data));
  }

  function RowDatesOf(t: seq<IcRow>): (r: seq<Date>)
    ensures |r| == |t| && forall i :: 0 <= i < |t| ==> r[i] == t[i].date
  {
    seq(|t|, i requires 0 <= i < |t| => t[i].date)
  }

  /** `calculate_ic`: the factor columns and the IC table, filled date by
      date and factor by factor, skipping a factor whose values are all
      missing that date. */
  method CalculateIc(columns: seq<string>, data: seq<DataRow>, corr: (seq<Num>, seq<Num>) -> Num)
    returns (factors: seq<string>, table: seq<IcRow>)
    requires Rectangular(data, |columns|)
    ensures factors == FactorCols(columns)
    ensures table == IcTable(columns, data, corr)
  {
    var idx := Where(FactorMask(columns));
    factors := Pick(columns, idx);
    var dates := FirstSeen(DatesOf(data));
    table := [];
    var i := 0;
    while i < |dates|
      invariant 0 <= i <= |dates|
      invariant |table| == i
      invariant forall t :: 0 <= t < i ==> table[t] == IcTable(columns, data, corr)[t]
    {
      var d := dates[i];
      var ics: seq<Num> := [];
      var j := 0;
      while j < |idx|
        invariant 0 <= j <= |idx|
        invariant |ics| == j
        invariant forall t :: 0 <= t < j ==> ics[t] == IcCell(data, d, idx[t], corr)
      {
        var xs := ColumnOn(data, d, idx[j]);
        if AllMissing(xs) {
          ics := ics + [Undef];
        } else {
          ics := ics + [corr(xs, FutureOn(data, d))];
        }
        j := j + 1;
      }
      table := table + [IcRow(d, ics)];
      i := i + 1;
    }
  }

  /** One row of a monthly table (IC means or ICIR): its month label and a
      cell per factor. */
  datatype MonthRow = MonthRow(month: string, cells: seq<Num>)

  predicate Shaped(rows: seq<MonthRow>, width: nat)
  {
    forall i :: 0 <= i < |rows| ==> |rows[i].cells| == width
  }

  /** `.loc[month]` on a table with distinct labels: the last row with that label. */
  function Lookup(rows: seq<MonthRow>, month: string): (r: Option<MonthRow>)
    ensures r.Some? ==> r.value in rows && r.value.month == month
    ensures r.None? <==> forall i :: 0 <= i < |rows| ==> rows[i].month != month
  {
    if rows == [] then None
    else
      var n := |rows| - 1;
      assert forall i :: 0 <= i < n ==> rows[..n][i] == rows[i];
      if rows[n].month == month then Some(rows[n]) else Lookup(rows[..n], month)
  }

  function ScreenMask(ic: seq<Num>, icir: seq<Num>): (r: seq<bool>)
    requires |ic| == |icir|
    ensures |r| == |ic| && forall k :: 0 <= k < |ic| ==> r[k] == (Gt(ic[k], MinIc) && Gt(icir[k], MinIcir))
  {
    seq(|ic|, k requires 0 <= k < |ic| => Gt(ic[k], MinIc) && Gt(icir[k], MinIcir))
  }

  /** `filter_factors_by_icir`: the factors whose IC and ICIR in the last
      month of the ICIR table pass both thresholds, in column order. An
      empty ICIR table raises IndexError; a last month missing from the IC
      table raises KeyError. */
  function FilterFactorsByIcir(factors: seq<string>, monthlyIc: seq<MonthRow>, icir: seq<MonthRow>): (r: Result<seq<string>>)
    requires Shaped(monthlyIc, |factors|) && Shaped(icir, |factors|)
    ensures r == Err(IndexError) <==> icir == []
    ensures r == Err(KeyError) <==> icir != [] && Lookup(monthlyIc, icir[|icir| - 1].month).None?
    ensures r.Ok? ==> |r.value| <= |factors|
  {
    if icir == [] then Err(IndexError)
    else
      var last := icir[|icir| - 1];
      match Lookup(monthlyIc, last.month)
      case None => Err(KeyError)
      case Some(row) => Ok(Pick(factors, Where(ScreenMask(row.cells, last.cells))))
  }

  /** A factor is selected exactly when, in the latest month, its IC is above
      0.02 and its ICIR above 0.3; a NaN on either side never passes. */
  lemma FilterSelects(factors: seq<string>, monthlyIc: seq<MonthRow>, icir: seq<MonthRow>, x: string)
    requires Shaped(monthlyIc, |factors|) && Shaped(icir, |factors|)
    requires FilterFactorsByIcir(factors, monthlyIc, icir).Ok?
    ensures var ic := Lookup(monthlyIc, icir[|icir| - 1].month).value.cells;
            var ir := icir[|icir| - 1].cells;
            x in FilterFactorsByIcir(factors, monthlyIc, icir).value <==>
              exists k :: 0 <= k < |factors| && factors[k] == x
                && ic[k].Val? && ic[k].v > MinIc && ir[k].Val? && ir[k].v > MinIcir
  {
    var row := Lookup(monthlyIc, icir[|icir| - 1].month).value;
    PickWhere(factors, ScreenMask(row.cells, icir[|icir| - 1].cells), x);
  }

  /** The column of factor k, month by month. */
  function Column(rows: seq<MonthRow>, k: nat): (r: seq<Num>)
    requires forall i :: 0 <= i < |rows| ==> k < |rows[i].cells|
    ensures |r| == |rows| && forall i :: 0 <= i < |rows| ==> r[i] == rows[i].cells[k]
  {
    seq(|rows|, i requires 0 <= i < |rows| => rows[i].cells[k])
  }

  /** `index[-3:]`: the last three months, or all of them when fewer. */
  function LastMonths(s: seq<Num>): (r: seq<Num>)
    ensures |r| == if |s| < RetireMonths then |s| else RetireMonths
  {
    if |s| <= RetireMonths then s else s[|s| - RetireMonths..]
  }

  /** The low-ICIR streak after scanning `s` from the left: reset by a NaN
      or an ICIR of at least 0.3, one more otherwise. */
  function Streak(s: seq<Num>): nat
  {
    if s == [] then 0
    else
      var x := s[|s| - 1];
      if x.Undef? || x.v >= RetireIcir then 0 else Streak(s[..|s| - 1]) + 1
  }

  /** The streak never exceeds the months scanned, and reaches their number
      exactly when every one of them is defined and below 0.3. */
  lemma {:induction false} StreakFull(s: seq<Num>)
    ensures Streak(s) <= |s|
    ensures Streak(s) == |s| <==> forall i :: 0 <= i < |s| ==> Lt(s[i], RetireIcir)
    decreases |s|
  {
    if s != [] {
      var n := |s| - 1;
      StreakFull(s[..n]);
      assert forall i :: 0 <= i < n ==> s[..n][i] == s[i];
    }
  }

  /** The retirement rule for one factor's ICIR column. */
  predicate Flagged(col: seq<Num>)
  {
    Streak(LastMonths(col)) >= RetireMonths
  }

  /** A factor is flagged exactly when at least three months exist and each
      of the last three has a defined ICIR below 0.3. */
  lemma FlaggedIff(col: seq<Num>)
    ensures Flagged(col) <==>
              |col| >= RetireMonths && forall i :: |col| - RetireMonths <= i < |col| ==> Lt(col[i], RetireIcir)
  {
    var last := LastMonths(col);
    StreakFull(last);
    if |col| >= RetireMonths {
      assert forall i :: |col| - RetireMonths <= i < |col| ==> col[i] == last[i - (|col| - RetireMonths)];
      assert forall i :: 0 <= i < |last| ==> last[i] == col[i + (|col| - RetireMonths)];
    }
  }

  function FlagMask(icir: seq<MonthRow>, width: nat): (r: seq<bool>)
    requires Shaped(icir, width)
    ensures |r| == width && forall k :: 0 <= k < width ==> r[k] == Flagged(Column(icir, k))
  {
    seq(width, k requires 0 <= k < width => Flagged(Column(icir, k)))
  }

  /** The keys of `factor_retreat_count`, in insertion order. */
  function FlaggedFactors(factors: seq<string>, icir: seq<MonthRow>): seq<string>
    requires Shaped(icir, |factors|)
  {
    Pick(factors, Where(FlagMask(icir, |factors|)))
  }

  function PresentMask(names: seq<string>, present: set<string>): (r: seq<bool>)
    ensures |r| == |names| && forall k :: 0 <= k < |names| ==> r[k] == (names[k] in present)
  {
    seq(|names|, k requires 0 <= k < |names| => names[k] in present)
  }

  /** The flagged factors whose module file exists (`present`), in flagged order. */
  function Retired(flagged: seq<string>, present: set<string>): seq<string>
  {
    Pick(flagged, Where(PresentMask(flagged, present)))
  }

  /** A factor is flagged exactly when its own column meets the rule. */
  lemma FlaggedMembers(factors: seq<string>, icir: seq<MonthRow>, x: string)
    requires Shaped(icir, |factors|)
    ensures x in FlaggedFactors(factors, icir) <==>
              exists k :: 0 <= k < |factors| && factors[k] == x && Flagged(Column(icir, k))
  {
    PickWhere(factors, FlagMask(icir, |factors|), x);
  }

  /** The retired factors are the flagged ones whose file exists, and no others. */
  lemma RetiredMembers(flagged: seq<string>, present: set<string>, x: string)
    ensures x in Retired(flagged, present) <==> x in flagged && x in present
  {
    PickWhere(flagged, PresentMask(flagged, present), x);
  }

  predicate Distinct(names: seq<string>)
  {
    forall i, j :: 0 <= i < j < |names| ==> names[i] != names[j]
  }

  /** The streak counter of one factor over the last three months. */
  method LowStreak(col: seq<Num>) returns (streak: nat)
    ensures streak == Streak(LastMonths(col))
  {
    var start := if |col| <= RetireMonths then 0 else |col| - RetireMonths;
    streak := 0;
    var m := start;
    while m < |col|
      invariant start <= m <= |col|
      invariant streak == Streak(col[start..m])
    {
      assert col[start..m + 1][..m - start] == col[start..m];
      if col[m].Undef? || col[m].v >= RetireIcir {
        streak := 0;
      } else {
        streak := streak + 1;
      }
      m := m + 1;
    }
    assert col[start..m] == LastMonths(col);
  }

  /** `track_and_remove_underperforming_factors`: scans each factor's last
      three months with a streak counter, flags those with a streak of
      three, and retires the flagged factors whose file is present. */
  method TrackAndRemove(factors: seq<string>, icir: seq<MonthRow>, present: set<string>)
    returns (flagged: seq<string>, retired: seq<string>)
    requires Shaped(icir, |factors|) && Distinct(factors)
    ensures flagged == FlaggedFactors(factors, icir)
    ensures retired == Retired(flagged, present)
  {
    var mask := FlagMask(icir, |factors|);
    flagged := [];
    var k := 0;
    while k < |factors|
      invariant 0 <= k <= |factors|
      invariant flagged == Pick(factors, Where(mask[..k]))
    {
      var streak := LowStreak(Column(icir, k));
      PickStep(factors, mask, k);
      if streak >= RetireMonths {
        flagged := flagged + [factors[k]];
      }
      k := k + 1;
    }
    assert mask[..|factors|] == mask;
    var keep := PresentMask(flagged, present);
    retired := [];
    var j := 0;
    while j < |flagged|
      invariant 0 <= j <= |flagged|
      invariant retired == Pick(flagged, Where(keep[..j]))
    {
      PickStep(flagged, keep, j);
      if flagged[j] in present {
        retired := retired + [flagged[j]];
      }
      j := j + 1;
    }
    assert keep[..|flagged|] == keep;
  }
}
