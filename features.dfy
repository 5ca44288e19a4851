/** The per-ticker transform of the loader (seed.py): drop incomplete bars,
    add the daily return, the 7-row moving average of the close and the
    30-row sample standard deviation of the return, then drop every row
    whose window is not full. A rolling value that pandas leaves as NaN is
    `None` here. */
module Features {
  import opened Records
  import opened Sequences
  import opened Stats

  /** Rows in the moving-average window, the current one included. */
  const MaWindow: nat := 7
  /** Rows in the volatility window, the current one included. */
  const VolWindow: nat := 30

  /** One downloaded bar; a field the source left empty is `None`. */
  datatype RawBar = RawBar(
    date: int,
    open: Option<real>,
    high: Option<real>,
    low: Option<real>,
    close: Option<real>,
    volume: Option<int>)

  /** A bar with every field present. */
  datatype Bar = Bar(date: int, open: real, high: real, low: real, close: real, volume: int)

  predicate Complete(x: RawBar) {
    x.open.Some? && x.high.Some? && x.low.Some? && x.close.Some? && x.volume.Some?
  }

  function Clean(x: RawBar): Bar
    requires Complete(x)
  {
    Bar(x.date, x.open.value, x.high.value, x.low.value, x.close.value, x.volume.value)
  }

  /** What the first `dropna` leaves of one bar. */
  function Kept(x: RawBar): (r: seq<Bar>)
    ensures |r| <= 1
  {
    if Complete(x) then [Clean(x)] else []
  }

  /** The first `dropna`. */
  function DropIncomplete(raw: seq<RawBar>): (bars: seq<Bar>)
    ensures |bars| <= |raw|
  {
    if raw == [] then [] else Kept(raw[0]) + DropIncomplete(raw[1..])
  }

  /** Dropping works bar by bar and keeps the order of what stays. */
  lemma {:induction false} DropIncompleteAppend(a: seq<RawBar>, b: seq<RawBar>)
    ensures DropIncomplete(a + b) == DropIncomplete(a) + DropIncomplete(b)
  {
    if a == [] {
      assert a + b == b;
    } else {
      var ab := a + b;
      assert ab[0] == a[0];
      assert ab[1..] == a[1..] + b;
      DropIncompleteAppend(a[1..], b);
      calc {
        DropIncomplete(ab);
        Kept(a[0]) + DropIncomplete(a[1..] + b);
        Kept(a[0]) + (DropIncomplete(a[1..]) + DropIncomplete(b));
        (Kept(a[0]) + DropIncomplete(a[1..])) + DropIncomplete(b);
      }
    }
  }

  lemma DropIncompleteSingle(x: RawBar)
    ensures DropIncomplete([x]) == if Complete(x) then [Clean(x)] else []
  {
    assert [x][1..] == [];
  }

  /** A download without gaps loses nothing. */
  lemma {:induction false} DropIncompleteKeepsComplete(raw: seq<RawBar>)
    requires forall i :: 0 <= i < |raw| ==> Complete(raw[i])
    ensures |DropIncomplete(raw)| == |raw|
    ensures forall i :: 0 <= i < |raw| ==> DropIncomplete(raw)[i] == Clean(raw[i])
  {
    if raw != [] {
      DropIncompleteKeepsComplete(raw[1..]);
    }
  }

  predicate OpensNonZero(bars: seq<Bar>) {
    forall i :: 0 <= i < |bars| ==> bars[i].open != 0.0
  }

  /** `(close - open) / open`, from the bar alone: applied to the open,
      the return gives the close. */
  function DailyReturn(b: Bar): (r: real)
    requires b.open != 0.0
    ensures b.open + b.open * r == b.close
  {
    (b.close - b.open) / b.open
  }

  function CloseSeries(bars: seq<Bar>): (xs: seq<real>)
    ensures |xs| == |bars| && forall i :: 0 <= i < |bars| ==> xs[i] == bars[i].close
  {
    seq(|bars|, i requires 0 <= i < |bars| => bars[i].close)
  }

  function ReturnSeries(bars: seq<Bar>): (xs: seq<real>)
    requires OpensNonZero(bars)
    ensures |xs| == |bars| && forall i :: 0 <= i < |bars| ==> xs[i] == DailyReturn(bars[i])
  {
    seq(|bars|, i requires 0 <= i < |bars| => DailyReturn(bars[i]))
  }

  /** `rolling(window=w).mean()` at row i: the mean of rows i-w+1..i, or
      NaN while fewer than w rows exist. */
  function RollingMean(xs: seq<real>, i: nat, w: nat): (v: Option<real>)
    requires 0 < w && i < |xs|
    ensures v.Some? <==> i + 1 >= w
  {
    if i + 1 < w then None else Some(Mean(xs[i + 1 - w..i + 1]))
  }

  /** `rolling(window=w).std()` at row i (sample standard deviation). */
  function RollingStd(xs: seq<real>, i: nat, w: nat, sqrt: real -> real): (v: Option<real>)
    requires 1 < w && i < |xs|
    ensures v.Some? <==> i + 1 >= w
  {
    if i + 1 < w then None else Some(sqrt(SampleVariance(xs[i + 1 - w..i + 1])))
  }

  /** A row of the frame once the three derived columns are assigned. */
  datatype FrameRow = FrameRow(bar: Bar, dailyReturn: real, sevenDayMa: Option<real>, volatility30d: Option<real>)

  /** Assigns the three derived columns: row i keeps bar i, its return is
      the bar's own, its moving average is present from the seventh row on
      and its volatility from the thirtieth. */
  function AddColumns(bars: seq<Bar>, sqrt: real -> real): (frame: seq<FrameRow>)
    requires OpensNonZero(bars)
    ensures |frame| == |bars|
    ensures forall i :: 0 <= i < |bars| ==>
      && frame[i].bar == bars[i]
      && frame[i].dailyReturn == DailyReturn(bars[i])
      && (frame[i].sevenDayMa.Some? <==> i + 1 >= MaWindow)
      && (frame[i].volatility30d.Some? <==> i + 1 >= VolWindow)
  {
    var closes := CloseSeries(bars);
    var rets := ReturnSeries(bars);
    seq(|bars|, i requires 0 <= i < |bars| =>
      FrameRow(bars[i], rets[i], RollingMean(closes, i, MaWindow), RollingStd(rets, i, VolWindow, sqrt)))
  }

  /** The rolling values once their windows are full: from clean row 6 on,
      the mean of closes i - 6 .. i; from clean row 29 on, the sample
      standard deviation of returns i - 29 .. i. Windows count rows, not
      calendar days. */
  lemma AddColumnsWindows(bars: seq<Bar>, sqrt: real -> real, i: int)
    requires OpensNonZero(bars)
    requires 0 <= i < |bars|
    ensures i >= MaWindow - 1 ==>
      AddColumns(bars, sqrt)[i].sevenDayMa == Some(Mean(CloseSeries(bars)[i - 6..i + 1]))
    ensures i >= VolWindow - 1 ==>
      AddColumns(bars, sqrt)[i].volatility30d == Some(sqrt(SampleVariance(ReturnSeries(bars)[i - 29..i + 1])))
  {
  }

  predicate HasWindows(row: FrameRow) {
    row.sevenDayMa.Some? && row.volatility30d.Some?
  }

  /** The second `dropna`. */
  function DropNa(frame: seq<FrameRow>): (kept: seq<FrameRow>)
    ensures forall k :: 0 <= k < |kept| ==> HasWindows(kept[k])
  {
    Filter(frame, HasWindows)
  }

  /** On a frame whose rows have full windows exactly from index d on, the
      second drop removes the first d rows and nothing else. */
  lemma DropNaPrefix(frame: seq<FrameRow>, d: nat)
    requires forall i :: 0 <= i < |frame| ==> (HasWindows(frame[i]) <==> i >= d)
    ensures DropNa(frame) == if |frame| <= d then [] else frame[d..]
  {
    FilterSuffix(frame, HasWindows, d);
  }

  /** The whole transform for one ticker. */
  function Transform(raw: seq<RawBar>, sqrt: real -> real): (frame: seq<FrameRow>)
    requires OpensNonZero(DropIncomplete(raw))
    ensures forall i :: 0 <= i < |frame| ==> HasWindows(frame[i])
  {
    DropNa(AddColumns(DropIncomplete(raw), sqrt))
  }

  /** The second drop removes exactly the first 29 clean rows: the output
      has max(0, n - 29) rows and row k is clean row k + 29 with its
      columns. */
  lemma TransformShape(raw: seq<RawBar>, sqrt: real -> real)
    requires OpensNonZero(DropIncomplete(raw))
    ensures var n := |DropIncomplete(raw)|;
      |Transform(raw, sqrt)| == if n < VolWindow then 0 else n - (VolWindow - 1)
    ensures forall k :: 0 <= k < |Transform(raw, sqrt)| ==>
      k + VolWindow - 1 < |DropIncomplete(raw)| &&
      Transform(raw, sqrt)[k] == AddColumns(DropIncomplete(raw), sqrt)[k + VolWindow - 1]
  {
    var frame := AddColumns(DropIncomplete(raw), sqrt);
    DropNaPrefix(frame, VolWindow - 1);
  }

  /** Output row k in terms of the clean bars c: it is bar k + 29, its
      return comes from that bar alone, its moving average is the mean close
      of clean rows k + 23 .. k + 29 and its volatility the square root of
      the sample variance of the returns of clean rows k .. k + 29. */
  lemma TransformRow(raw: seq<RawBar>, sqrt: real -> real, k: int)
    requires OpensNonZero(DropIncomplete(raw))
    requires 0 <= k < |Transform(raw, sqrt)|
    ensures var c := DropIncomplete(raw);
      && k + 29 < |c|
      && Transform(raw, sqrt)[k].bar == c[k + 29]
      && Transform(raw, sqrt)[k].dailyReturn == (c[k + 29].close - c[k + 29].open) / c[k + 29].open
      && Transform(raw, sqrt)[k].sevenDayMa == Some(Mean(CloseSeries(c)[k + 23..k + 30]))
      && Transform(raw, sqrt)[k].volatility30d == Some(sqrt(SampleVariance(ReturnSeries(c)[k..k + 30])))
  {
    TransformShape(raw, sqrt);
    AddColumnsWindows(DropIncomplete(raw), sqrt, k + 29);
  }

  /** Fewer than 30 clean bars leave nothing; exactly 30 leave one row. */
  lemma TransformShortHistory(raw: seq<RawBar>, sqrt: real -> real)
    requires OpensNonZero(DropIncomplete(raw))
    ensures |DropIncomplete(raw)| < VolWindow ==> Transform(raw, sqrt) == []
    ensures |DropIncomplete(raw)| == VolWindow ==> |Transform(raw, sqrt)| == 1
  {
    TransformShape(raw, sqrt);
  }

  /** Over seven equal closes the moving average is that close. */
  lemma MovingAverageOfConstantCloses(raw: seq<RawBar>, sqrt: real -> real, k: int, close: real)
    requires OpensNonZero(DropIncomplete(raw))
    requires 0 <= k < |Transform(raw, sqrt)|
    requires forall i :: k + 23 <= i <= k + 29 && i < |DropIncomplete(raw)| ==> DropIncomplete(raw)[i].close == close
    ensures Transform(raw, sqrt)[k].sevenDayMa == Some(close)
  {
    var c := DropIncomplete(raw);
    TransformRow(raw, sqrt, k);
    var window := CloseSeries(c)[k + 23..k + 30];
    assert forall j :: 0 <= j < |window| ==> window[j] == c[k + 23 + j].close;
    MeanConstant(window, close);
  }

  /** The moving average lies within the range of the seven closes. */
  lemma MovingAverageWithinWindow(raw: seq<RawBar>, sqrt: real -> real, k: int, lo: real, hi: real)
    requires OpensNonZero(DropIncomplete(raw))
    requires 0 <= k < |Transform(raw, sqrt)|
    requires forall i :: k + 23 <= i <= k + 29 && i < |DropIncomplete(raw)| ==> lo <= DropIncomplete(raw)[i].close <= hi
    ensures Transform(raw, sqrt)[k].sevenDayMa.Some?
    ensures lo <= Transform(raw, sqrt)[k].sevenDayMa.value <= hi
  {
    var c := DropIncomplete(raw);
    TransformRow(raw, sqrt, k);
    var window := CloseSeries(c)[k + 23..k + 30];
    assert forall j :: 0 <= j < |window| ==> window[j] == c[k + 23 + j].close;
    MeanBounds(window, lo, hi);
  }

  /** The volatility is a standard deviation: present, non-negative, and its
      square is the sample variance of the window's returns. */
  lemma VolatilityIsStd(raw: seq<RawBar>, sqrt: real -> real, k: int)
    requires OpensNonZero(DropIncomplete(raw))
    requires IsSqrt(sqrt)
    requires 0 <= k < |Transform(raw, sqrt)|
    ensures k + 30 <= |DropIncomplete(raw)|
    ensures Transform(raw, sqrt)[k].volatility30d.Some?
    ensures IsStdDev(Transform(raw, sqrt)[k].volatility30d.value,
                     SampleVariance(ReturnSeries(DropIncomplete(raw))[k..k + 30]))
  {
    TransformRow(raw, sqrt, k);
    var window := ReturnSeries(DropIncomplete(raw))[k..k + 30];
    SqrtOfVariance(window, sqrt);
  }

  /** Thirty equal returns give zero volatility. */
  lemma VolatilityOfConstantReturns(raw: seq<RawBar>, sqrt: real -> real, k: int, r: real)
    requires OpensNonZero(DropIncomplete(raw))
    requires IsSqrt(sqrt)
    requires 0 <= k < |Transform(raw, sqrt)|
    requires forall i :: k <= i <= k + 29 && i < |DropIncomplete(raw)| ==> DailyReturn(DropIncomplete(raw)[i]) == r
    ensures Transform(raw, sqrt)[k].volatility30d == Some(0.0)
  {
    var c := DropIncomplete(raw);
    TransformRow(raw, sqrt, k);
    var window := ReturnSeries(c)[k..k + 30];
    assert forall j :: 0 <= j < |window| ==> window[j] == DailyReturn(c[k + j]);
    VarianceOfConstant(window, r);
  }
}
