/** The combined market-timing signal that drives the backtest: a moving-
    average vote and a volume vote from the index rows, a breadth vote from
    all stocks of the date, their mean over the votes present, and a
    two-threshold classification of that mean. The rolling averages are
    inputs. */
module StrategyTiming {
  import opened Common
  import opened SignalRules

  /** One row of the Shanghai composite index (`000001.SH`) with its rolling
      close averages over 20 and 60 rows and volume averages over 5 and 20. */
  datatype IndexDay = IndexDay(date: Date, ma20: Num, ma60: Num, volMa5: Num, volMa20: Num)

  /** One output row: the date and the final signal. */
  datatype TimingRow = TimingRow(date: Date, finalSignal: Num)

  /** The thresholds the final classification uses. */
  const LongThreshold: real := 0.66
  const ShortThreshold: real := 0.33

  /** The moving-average vote: 1 iff MA20 > MA60. */
  function MaSignal(day: IndexDay): real
  {
    Cross(day.ma20, day.ma60)
  }

  /** The volume vote: 1 iff the 5-row volume average is above the 20-row one. */
  function VolumeSignal(day: IndexDay): real
  {
    Cross(day.volMa5, day.volMa20)
  }

  /** The row mean of the three votes, skipping a NaN breadth vote. */
  function Vote(ma: real, breadth: Num, volume: real): Num
  {
    MeanSkipNa([Val(ma), breadth, Val(volume)])
  }

  /** The vote is always defined: the mean of the three votes, or of the two
      others when breadth is NaN. */
  lemma VoteMean(ma: real, breadth: Num, volume: real)
    ensures breadth.Val? ==> Vote(ma, breadth, volume) == Val((ma + breadth.v + volume) / 3.0)
    ensures breadth.Undef? ==> Vote(ma, breadth, volume) == Val((ma + volume) / 2.0)
  {
    if breadth.Val? {
      VoteOfThree(ma, breadth.v, volume);
    } else {
      VoteOfTwo(ma, volume);
    }
  }

  lemma VoteOfThree(ma: real, b: real, volume: real)
    ensures Vote(ma, Val(b), volume) == Val((ma + b + volume) / 3.0)
  {
    PresentSnoc([], Val(ma));
    PresentSnoc([Val(ma)], Val(b));
    PresentSnoc([Val(ma), Val(b)], Val(volume));
    assert [Val(ma), Val(b), Val(volume)] == [] + [Val(ma)] + [Val(b)] + [Val(volume)];
    assert Present([Val(ma), Val(b), Val(volume)]) == [] + [ma] + [b] + [volume];
    assert [] + [ma] + [b] + [volume] == [ma, b, volume];
    SumOfThree(ma, b, volume);
  }

  lemma VoteOfTwo(ma: real, volume: real)
    ensures Vote(ma, Undef, volume) == Val((ma + volume) / 2.0)
  {
    PresentSnoc([], Val(ma));
    PresentSnoc([Val(ma)], Undef);
    PresentSnoc([Val(ma), Undef], Val(volume));
    assert [Val(ma), Undef, Val(volume)] == [] + [Val(ma)] + [Undef] + [Val(volume)];
    assert Present([Val(ma), Undef, Val(volume)]) == [] + [ma] + [] + [volume];
    assert [] + [ma] + [] + [volume] == [ma, volume];
    SumOfTwo(ma, volume);
  }

  /** Appending a cell appends its value when it is defined. */
  lemma PresentSnoc(xs: seq<Num>, x: Num)
    ensures Present(xs + [x]) == Present(xs) + (if x.Val? then [x.v] else [])
  {
    var ys := xs + [x];
    assert ys[..|ys| - 1] == xs && ys[|ys| - 1] == x;
  }

  lemma SumOfTwo(x: real, y: real)
    ensures SeqSum([x, y]) == x + y
  {
    assert [x][..0] == [];
    assert SeqSum([x]) == x;
    assert [x, y][..1] == [x];
  }

  lemma SumOfThree(x: real, y: real, z: real)
    ensures SeqSum([x, y, z]) == x + y + z
  {
    assert [x, y, z][..2] == [x, y];
    SumOfTwo(x, y);
  }

  /** The number of bullish and of bearish votes among those present. */
  function Bullish(ma: real, breadth: Num, volume: real): nat
  {
    (if ma == 1.0 then 1 else 0) + (if breadth == Val(1.0) then 1 else 0) + (if volume == 1.0 then 1 else 0)
  }

  function Bearish(ma: real, breadth: Num, volume: real): nat
  {
    (if ma == 0.0 then 1 else 0) + (if breadth == Val(0.0) then 1 else 0) + (if volume == 0.0 then 1 else 0)
  }

  /** Every vote is 0 or 1, and breadth may be missing. */
  predicate Votes(ma: real, breadth: Num, volume: real)
  {
    (ma == 0.0 || ma == 1.0) && (volume == 0.0 || volume == 1.0)
    && (breadth.Val? ==> breadth == Val(0.0) || breadth == Val(1.0))
  }

  /** The final signal as the code classifies it: 1 from 0.66, 0 up to 0.33. */
  function FinalAsWritten(vote: Num): (r: Num)
    ensures r == Val(1.0) <==> vote.Val? && vote.v >= 0.66
    ensures r == Val(0.0) <==> vote.Val? && vote.v <= 0.33
    ensures r.Undef? <==> vote.Undef? || 0.33 < vote.v < 0.66
  {
    Threshold(vote, LongThreshold, ShortThreshold)
  }

  /** As written, the signal is 1 on two or more bullish votes and 0 only when
      no vote is bullish: one bullish vote leaves it NaN, whether the other
      two votes are bearish or breadth is missing. */
  lemma FinalAsWrittenClasses(ma: real, breadth: Num, volume: real)
    requires Votes(ma, breadth, volume)
    ensures FinalAsWritten(Vote(ma, breadth, volume)) == Val(1.0) <==> Bullish(ma, breadth, volume) >= 2
    ensures FinalAsWritten(Vote(ma, breadth, volume)) == Val(0.0) <==> Bullish(ma, breadth, volume) == 0
    ensures FinalAsWritten(Vote(ma, breadth, volume)).Undef? <==> Bullish(ma, breadth, volume) == 1
  {
    VoteMean(ma, breadth, volume);
  }

  /** With one bullish vote of three the mean is 1/3, above 0.33, so two
      bearish votes give NaN rather than the flat signal 0. */
  lemma OneBullishOfThreeUndecided()
    ensures Bearish(1.0, Val(0.0), 0.0) == 2
    ensures FinalAsWritten(Vote(1.0, Val(0.0), 0.0)).Undef?
  {
    VoteMean(1.0, Val(0.0), 0.0);
  }

  /** The final signal with the short threshold at one third, so that two
      bearish votes of three give 0. */
  function Final(vote: Num): (r: Num)
    ensures r == Val(1.0) <==> vote.Val? && vote.v >= 0.66
    ensures r == Val(0.0) <==> vote.Val? && vote.v <= 1.0 / 3.0
    ensures r.Undef? <==> vote.Undef? || 1.0 / 3.0 < vote.v < 0.66
  {
    Threshold(vote, LongThreshold, 1.0 / 3.0)
  }

  /** Two or more bullish votes give 1, two or more bearish votes give 0,
      anything else (one of each, breadth missing) gives NaN. */
  lemma FinalIsMajority(ma: real, breadth: Num, volume: real)
    requires Votes(ma, breadth, volume)
    ensures Final(Vote(ma, breadth, volume)) == Val(1.0) <==> Bullish(ma, breadth, volume) >= 2
    ensures Final(Vote(ma, breadth, volume)) == Val(0.0) <==> Bearish(ma, breadth, volume) >= 2
    ensures Final(Vote(ma, breadth, volume)).Undef? <==>
              Bullish(ma, breadth, volume) < 2 && Bearish(ma, breadth, volume) < 2
  {
    VoteMean(ma, breadth, volume);
  }

  /** The corrected signal differs from the code's exactly when one vote of
      three is bullish: the code leaves NaN where two bearish votes give 0. */
  lemma FinalDiffers(ma: real, breadth: Num, volume: real)
    requires Votes(ma, breadth, volume)
    ensures Final(Vote(ma, breadth, volume)) != FinalAsWritten(Vote(ma, breadth, volume)) <==>
              breadth.Val? && Bullish(ma, breadth, volume) == 1
  {
    VoteMean(ma, breadth, volume);
  }

  /** The index rows of date d, in order: the right side of the volume merge. */
  function SameDate(index: seq<IndexDay>, d: Date): seq<IndexDay>
  {
    if index == [] then []
    else
      var n := |index| - 1;
      SameDate(index[..n], d) + (if index[n].date == d then [index[n]] else [])
  }

  /** Every index row is among the rows of its own date. */
  lemma {:induction false} SameDateHas(index: seq<IndexDay>, k: nat)
    requires k < |index|
    ensures index[k] in SameDate(index, index[k].date)
    decreases |index|
  {
    var n := |index| - 1;
    if k < n {
      SameDateHas(index[..n], k);
      assert index[..n][k] == index[k];
    }
  }

  /** A date no index row has has no rows. */
  lemma {:induction false} SameDateNone(index: seq<IndexDay>, d: Date)
    requires forall i :: 0 <= i < |index| ==> index[i].date != d
    ensures SameDate(index, d) == []
    decreases |index|
  {
    if index != [] {
      SameDateNone(index[..|index| - 1], d);
    }
  }

  /** The rows one index row produces: one per index row of its date that
      supplies the volume vote. */
  function JoinedRows(day: IndexDay, matches: seq<IndexDay>, market: seq<MarketRow>): (r: seq<TimingRow>)
    ensures |r| == |matches|
    ensures forall k :: 0 <= k < |r| ==> r[k].date == day.date
  {
    if matches == [] then []
    else
      var n := |matches| - 1;
      JoinedRows(day, matches[..n], market)
        + [TimingRow(day.date, FinalAsWritten(Vote(MaSignal(day), BreadthOn(market, day.date), VolumeSignal(matches[n]))))]
  }

  /** `generate_combined_timing_signal`: the moving-average rows, left-merged
      with the breadth table and then with the volume rows on the date. */
  function CombinedTiming(index: seq<IndexDay>, market: seq<MarketRow>): (r: seq<TimingRow>)
    ensures forall d :: d in RowDates(r) <==> d in IndexDates(index)
  {
    assert index[..|index|] == index;
    assert IndexDates(index)[..|index|] == IndexDates(index);
    CombinedDates(index, |index|, market);
    CombinedOver(index, index, market)
  }

  function CombinedOver(rows: seq<IndexDay>, index: seq<IndexDay>, market: seq<MarketRow>): seq<TimingRow>
  {
    if rows == [] then []
    else
      var n := |rows| - 1;
      CombinedOver(rows[..n], index, market) + JoinedRows(rows[n], SameDate(index, rows[n].date), market)
  }

  /** The dates of a list of output rows, in order. */
  function RowDates(ts: seq<TimingRow>): (r: seq<Date>)
    ensures |r| == |ts| && forall k :: 0 <= k < |ts| ==> r[k] == ts[k].date
  {
    seq(|ts|, k requires 0 <= k < |ts| => ts[k].date)
  }

  function IndexDates(index: seq<IndexDay>): (r: seq<Date>)
    ensures |r| == |index| && forall k :: 0 <= k < |index| ==> r[k] == index[k].date
  {
    seq(|index|, k requires 0 <= k < |index| => index[k].date)
  }

  /** The output dates are exactly the dates of the index rows. */
  lemma {:induction false} CombinedDates(index: seq<IndexDay>, m: nat, market: seq<MarketRow>)
    requires m <= |index|
    ensures forall d :: d in RowDates(CombinedOver(index[..m], index, market)) <==> d in IndexDates(index)[..m]
    decreases m
  {
    if m > 0 {
      var n := m - 1;
      var init := CombinedOver(index[..n], index, market);
      var last := JoinedRows(index[n], SameDate(index, index[n].date), market);
      assert index[..m][..n] == index[..n];
      assert CombinedOver(index[..m], index, market) == init + last;
      CombinedDates(index, n, market);
      SameDateHas(index, n);
      LastDates(init, last, index[n].date);
      assert IndexDates(index)[..m] == IndexDates(index)[..n] + [index[n].date];
    }
  }

  /** Appending rows that all carry date d, at least one of them, adds d and nothing else. */
  lemma LastDates(init: seq<TimingRow>, last: seq<TimingRow>, d: Date)
    requires |last| > 0 && forall k :: 0 <= k < |last| ==> last[k].date == d
    ensures forall e :: e in RowDates(init + last) <==> e in RowDates(init) || e == d
  {
    assert RowDates(init + last) == RowDates(init) + RowDates(last);
    assert RowDates(last)[0] == d;
  }

  /** The row an index row yields when it is the only row of its date. */
  function OwnRow(day: IndexDay, market: seq<MarketRow>): TimingRow
  {
    TimingRow(day.date, FinalAsWritten(Vote(MaSignal(day), BreadthOn(market, day.date), VolumeSignal(day))))
  }

  /** As written, an index row alone on its date is long on two or more
      bullish votes and flat only when no vote is bullish. */
  lemma OwnRowClasses(day: IndexDay, market: seq<MarketRow>)
    ensures var b := Bullish(MaSignal(day), BreadthOn(market, day.date), VolumeSignal(day));
            && (OwnRow(day, market).finalSignal == Val(1.0) <==> b >= 2)
            && (OwnRow(day, market).finalSignal == Val(0.0) <==> b == 0)
            && (OwnRow(day, market).finalSignal.Undef? <==> b == 1)
  {
    FinalAsWrittenClasses(MaSignal(day), BreadthOn(market, day.date), VolumeSignal(day));
  }

  function OwnRows(rows: seq<IndexDay>, market: seq<MarketRow>): (r: seq<TimingRow>)
    ensures |r| == |rows| && forall i :: 0 <= i < |rows| ==> r[i] == OwnRow(rows[i], market)
  {
    seq(|rows|, i requires 0 <= i < |rows| => OwnRow(rows[i], market))
  }

  /** With one index row per date the output has one row per index row, in
      index order, carrying that row's own votes. */
  lemma {:induction false} CombinedOneToOne(index: seq<IndexDay>, m: nat, market: seq<MarketRow>)
    requires forall i, j :: 0 <= i < j < |index| ==> index[i].date != index[j].date
    requires m <= |index|
    ensures CombinedOver(index[..m], index, market) == OwnRows(index, market)[..m]
    decreases m
  {
    if m > 0 {
      CombinedOneToOne(index, m - 1, market);
      CombinedExtendsOwn(index, m, market);
    }
  }

  /** One more index row, alone on its date, adds its own output row. */
  lemma CombinedExtendsOwn(index: seq<IndexDay>, m: nat, market: seq<MarketRow>)
    requires forall i, j :: 0 <= i < j < |index| ==> index[i].date != index[j].date
    requires 0 < m <= |index|
    requires CombinedOver(index[..m - 1], index, market) == OwnRows(index, market)[..m - 1]
    ensures CombinedOver(index[..m], index, market) == OwnRows(index, market)[..m]
  {
    var n := m - 1;
    CombinedStep(index, m, market);
    SameDateUnique(index, n);
    JoinedOne(index[n], market);
    OwnRowsSlice(index, m, market);
  }

  /** The output over the first m index rows extends the output over the
      first m - 1 by the rows of the m-th. */
  lemma CombinedStep(index: seq<IndexDay>, m: nat, market: seq<MarketRow>)
    requires 0 < m <= |index|
    ensures CombinedOver(index[..m], index, market)
            == CombinedOver(index[..m - 1], index, market)
               + JoinedRows(index[m - 1], SameDate(index, index[m - 1].date), market)
  {
    assert index[..m][..m - 1] == index[..m - 1];
  }

  /** A date with a single index row yields that row's own output row. */
  lemma JoinedOne(day: IndexDay, market: seq<MarketRow>)
    ensures JoinedRows(day, [day], market) == [OwnRow(day, market)]
  {
    assert [day][..0] == [];
  }

  lemma OwnRowsSlice(index: seq<IndexDay>, m: nat, market: seq<MarketRow>)
    requires 0 < m <= |index|
    ensures OwnRows(index, market)[..m] == OwnRows(index, market)[..m - 1] + [OwnRow(index[m - 1], market)]
  {
  }

  /** `CombinedTiming` on an index with one row per date. */
  lemma CombinedTimingPerRow(index: seq<IndexDay>, market: seq<MarketRow>)
    requires forall i, j :: 0 <= i < j < |index| ==> index[i].date != index[j].date
    ensures CombinedTiming(index, market) == OwnRows(index, market)
    ensures forall d :: d in RowDates(CombinedTiming(index, market)) <==> d in IndexDates(index)
  {
    assert index[..|index|] == index;
    CombinedOneToOne(index, |index|, market);
    CombinedDates(index, |index|, market);
  }

  /** On distinct dates, the rows of an index row's date are that row alone. */
  lemma {:induction false} SameDateUnique(index: seq<IndexDay>, k: nat)
    requires forall i, j :: 0 <= i < j < |index| ==> index[i].date != index[j].date
    requires k < |index|
    ensures SameDate(index, index[k].date) == [index[k]]
    decreases |index|
  {
    var n := |index| - 1;
    var d := index[k].date;
    assert forall i, j :: 0 <= i < j < n ==> index[..n][i].date != index[..n][j].date;
    if k == n {
      SameDateNone(index[..n], d);
    } else {
      SameDateUnique(index[..n], k);
      assert index[..n][k] == index[k];
      assert index[n].date != d;
    }
  }
}
