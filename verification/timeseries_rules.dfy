/**
 * The pure rules behind the national time-series charts and the per-state
 * bar charts: per-series maxima, the y-scale domain each chart gets, the
 * floor applied to values in log mode, and the day-over-day label shown
 * under each national chart.
 */
module TimeSeriesRules {
  import opened Wrappers
  import opened Text

  // ---------------------------------------------------------------------------
  // Series and rows
  // ---------------------------------------------------------------------------

  /** The six national series, one chart each. */
  datatype Series =
    | TotalConfirmed | TotalRecovered | TotalDeceased
    | DailyConfirmed | DailyRecovered | DailyDeceased

  /** The series whose key starts with `total`. */
  predicate IsCumulative(s: Series)
  {
    s.TotalConfirmed? || s.TotalRecovered? || s.TotalDeceased?
  }

  /** The charts drawn on a log scale when log mode is on: exactly the cumulative ones. */
  predicate IsLogChart(s: Series)
  {
    IsCumulative(s)
  }

  /** One day of the national time series. */
  datatype DayRow = DayRow(
    date: string,
    totalconfirmed: int, totalrecovered: int, totaldeceased: int,
    dailyconfirmed: int, dailyrecovered: int, dailydeceased: int)

  function ValueOf(row: DayRow, s: Series): int
  {
    match s
    case TotalConfirmed => row.totalconfirmed
    case TotalRecovered => row.totalrecovered
    case TotalDeceased => row.totaldeceased
    case DailyConfirmed => row.dailyconfirmed
    case DailyRecovered => row.dailyrecovered
    case DailyDeceased => row.dailydeceased
  }

  /** One series read across all rows. */
  function Column(rows: seq<DayRow>, s: Series): (c: seq<int>)
    ensures |c| == |rows| && forall i :: 0 <= i < |rows| ==> c[i] == ValueOf(rows[i], s)
  {
    seq(|rows|, i requires 0 <= i < |rows| => ValueOf(rows[i], s))
  }

  // ---------------------------------------------------------------------------
  // Maxima (`d3.max` inside the `dTypeMaxMap` reduce)
  // ---------------------------------------------------------------------------

  /** The largest value, or nothing for no values (`d3.max` of an empty array is undefined). */
  function MaxOf(xs: seq<int>): (r: Option<int>)
    ensures r.None? <==> xs == []
    ensures r.Some? ==> r.value in xs && forall i :: 0 <= i < |xs| ==> xs[i] <= r.value
  {
    if xs == [] then None
    else
      var last := xs[|xs| - 1];
      match MaxOf(xs[..|xs| - 1])
      case None => Some(last)
      case Some(m) => Some(if last > m then last else m)
  }

  /** The maximum of one series over a non-empty time series. */
  function SeriesMax(rows: seq<DayRow>, s: Series): (m: int)
    requires rows != []
    ensures forall i :: 0 <= i < |rows| ==> ValueOf(rows[i], s) <= m
    ensures m in Column(rows, s)
  {
    MaxOf(Column(rows, s)).value
  }

  /** `dTypeMaxMap`: the maximum of every series. */
  function Maxima(rows: seq<DayRow>): (m: map<Series, int>)
    requires rows != []
    ensures forall s: Series :: s in m
    ensures forall s: Series, i :: 0 <= i < |rows| ==> ValueOf(rows[i], s) <= m[s]
    ensures forall s: Series :: m[s] in Column(rows, s)
  {
    map s: Series | true :: SeriesMax(rows, s)
  }

  // ---------------------------------------------------------------------------
  // Scale domains (`yScales`)
  // ---------------------------------------------------------------------------

  datatype ScaleKind = Log | Linear

  /** A y scale before `.nice()`: its kind and its domain `[lo, hi]`. */
  datatype YScale = YScale(kind: ScaleKind, lo: real, hi: real)

  /** The maximum a chart's domain is based on: in `mode`, cumulative charts share the confirmed total and daily charts the confirmed daily count. */
  function DomainMax(maxima: map<Series, int>, s: Series, mode: bool): (m: int)
    requires forall t: Series :: t in maxima
    ensures mode && IsCumulative(s) ==> m == maxima[TotalConfirmed]
    ensures mode && !IsCumulative(s) ==> m == maxima[DailyConfirmed]
    ensures !mode ==> m == maxima[s]
  {
    if mode then (if IsCumulative(s) then maxima[TotalConfirmed] else maxima[DailyConfirmed])
    else maxima[s]
  }

  /** The scale of a national chart: log `[1, 1.1 m]` for a log chart in log mode, else linear `[0, 1.1 m]`. */
  function TimeScale(maxima: map<Series, int>, s: Series, mode: bool, logMode: bool): (y: YScale)
    requires forall t: Series :: t in maxima
    ensures y.kind == Log <==> logMode && IsLogChart(s)
    ensures y.lo == if y.kind == Log then 1.0 else 0.0
    ensures y.hi == 1.1 * DomainMax(maxima, s, mode) as real
  {
    var m := 1.1 * DomainMax(maxima, s, mode) as real;
    if logMode && IsLogChart(s) then YScale(Log, 1.0, m) else YScale(Linear, 0.0, m)
  }

  /** In `mode` the three cumulative charts share one scale, and so do the three daily charts. */
  lemma SharedScaleInMode(maxima: map<Series, int>, s: Series, t: Series, logMode: bool)
    requires forall u: Series :: u in maxima
    requires IsCumulative(s) == IsCumulative(t)
    ensures TimeScale(maxima, s, true, logMode) == TimeScale(maxima, t, true, logMode)
  {
  }

  /**
   * Outside `mode` each chart's domain reaches above every value of its own
   * series (for a series that is never negative), with room to spare.
   */
  lemma OwnScaleCovers(rows: seq<DayRow>, s: Series, logMode: bool, i: nat)
    requires rows != [] && i < |rows|
    requires forall k :: 0 <= k < |rows| ==> ValueOf(rows[k], s) >= 0
    ensures ValueOf(rows[i], s) as real <= TimeScale(Maxima(rows), s, false, logMode).hi
  {
    var m := Maxima(rows)[s];
    assert ValueOf(rows[i], s) <= m;
  }

  /** In `mode` every cumulative value fits under its shared scale when no series exceeds the confirmed total. */
  lemma SharedScaleCovers(rows: seq<DayRow>, s: Series, logMode: bool, i: nat)
    requires rows != [] && i < |rows| && IsCumulative(s)
    requires forall k :: 0 <= k < |rows| ==> 0 <= ValueOf(rows[k], s) <= rows[k].totalconfirmed
    ensures ValueOf(rows[i], s) as real <= TimeScale(Maxima(rows), s, true, logMode).hi
  {
    var m := Maxima(rows)[TotalConfirmed];
    assert rows[i].totalconfirmed <= m;
  }

  /** The scale of a per-state chart: log `[1, m]` in log mode, else linear `[-m/10, m]`; none for no rows. */
  function StateScale(max: Option<int>, logMode: bool): (y: Option<YScale>)
    ensures y.None? <==> max.None?
    ensures y.Some? ==> y.value.hi == max.value as real
    ensures y.Some? ==> (y.value.kind == Log <==> logMode)
    ensures y.Some? && y.value.kind == Log ==> y.value.lo == 1.0
    ensures y.Some? && y.value.kind == Linear ==> y.value.lo == -y.value.hi / 10.0
  {
    match max
    case None => None
    case Some(m) =>
      if logMode then Some(YScale(Log, 1.0, m as real))
      else Some(YScale(Linear, -(m as real) / 10.0, m as real))
  }

  // ---------------------------------------------------------------------------
  // The log-mode floor (`y`)
  // ---------------------------------------------------------------------------

  /** The value a national chart plots: floored at 1 for a log chart in log mode, unchanged otherwise. */
  function PlotValue(logMode: bool, s: Series, v: int): (p: int)
    ensures logMode && IsLogChart(s) ==> p >= 1 && (p == v || (v < 1 && p == 1))
    ensures !(logMode && IsLogChart(s)) ==> p == v
  {
    if logMode && IsLogChart(s) then (if v > 1 then v else 1) else v
  }

  /** The value a per-state chart plots: floored at 1 in log mode, since all three state charts are log charts. */
  function StatePlotValue(logMode: bool, v: int): (p: int)
    ensures logMode ==> p >= 1 && (p == v || (v < 1 && p == 1))
    ensures !logMode ==> p == v
  {
    if logMode then (if v > 1 then v else 1) else v
  }

  /**
   * Every plotted point of a chart on its own scale lies inside the scale's
   * domain: the floor keeps log points at or above 1, and the domain reaches
   * above the series' maximum.
   */
  lemma PlotInsideDomain(rows: seq<DayRow>, s: Series, logMode: bool, i: nat)
    requires rows != [] && i < |rows|
    requires forall k :: 0 <= k < |rows| ==> ValueOf(rows[k], s) >= 0
    requires logMode && IsLogChart(s) ==> exists k :: 0 <= k < |rows| && ValueOf(rows[k], s) >= 1
    ensures var y := TimeScale(Maxima(rows), s, false, logMode);
      var p := PlotValue(logMode, s, ValueOf(rows[i], s)) as real;
      y.lo <= p <= y.hi
  {
    var m := Maxima(rows)[s];
    if logMode && IsLogChart(s) {
      var k :| 0 <= k < |rows| && ValueOf(rows[k], s) >= 1;
      assert 1 <= ValueOf(rows[k], s) <= m;
    }
    var p := PlotValue(logMode, s, ValueOf(rows[i], s));
    assert 0 <= p <= m;
    assert p as real <= m as real <= 1.1 * m as real;
  }

  // ---------------------------------------------------------------------------
  // The day-over-day label
  // ---------------------------------------------------------------------------

  /** What the label under a national chart shows. */
  datatype Delta = NoDelta | Gain(g: nat) | Drop(d: int)

  /** Reading a row outside its array yields undefined, and reading a field of undefined throws a TypeError. */
  datatype ScriptError = TypeError

  /**
   * The label for `index`: nothing for an empty series or index 0; the
   * difference from the previous day otherwise, a gain when not negative.
   */
  function DeltaAt(rows: seq<DayRow>, s: Series, index: int): (r: Result<Delta, ScriptError>)
    ensures r == Success(NoDelta) <==> rows == [] || index == 0
    ensures r.Failure? <==> rows != [] && index != 0 && !(0 < index < |rows|)
    ensures r.Success? && r.value.Gain? ==>
      0 < index < |rows| && ValueOf(rows[index - 1], s) + r.value.g == ValueOf(rows[index], s)
    ensures r.Success? && r.value.Drop? ==>
      0 < index < |rows| && r.value.d < 0 && ValueOf(rows[index - 1], s) + r.value.d == ValueOf(rows[index], s)
  {
    if |rows| > 0 && index != 0 then
      if 0 < index < |rows| then
        var diff := ValueOf(rows[index], s) - ValueOf(rows[index - 1], s);
        if diff >= 0 then Success(Gain(diff)) else Success(Drop(diff))
      else Failure(TypeError)
    else Success(NoDelta)
  }

  /** The label text: `'+' + d` for a gain, the number with its minus sign for a drop, empty otherwise. */
  function DeltaText(d: Delta): (t: string)
    requires d.Drop? ==> d.d < 0
    ensures t == "" <==> d.NoDelta?
    ensures d.Gain? ==> t == "+" + Decimal(d.g)
    ensures d.Drop? ==> t == "-" + Decimal(-d.d)
  {
    match d
    case NoDelta => ""
    case Gain(g) => "+" + Decimal(g)
    case Drop(n) => "-" + Decimal(-n)
  }

  /** Reads a label back. */
  function ParseDelta(t: string): (d: Option<Delta>)
    ensures d.Some? && d.value.Drop? ==> d.value.d <= 0
  {
    if t == "" then Some(NoDelta)
    else if t[0] == '+' && |t| > 1 && AllDigits(t[1..]) then Some(Gain(DecimalValue(t[1..])))
    else if t[0] == '-' && |t| > 1 && AllDigits(t[1..]) then Some(Drop(-(DecimalValue(t[1..]) as int)))
    else None
  }

  /** The label text determines the delta: parsing it gives the delta back. */
  lemma DeltaTextRoundTrip(d: Delta)
    requires d.Drop? ==> d.d < 0
    ensures ParseDelta(DeltaText(d)) == Some(d)
  {
    match d
    case NoDelta =>
    case Gain(g) => SignedRoundTrip('+', g);
    case Drop(n) => SignedRoundTrip('-', -n);
  }

  /** A sign followed by the decimal digits of `n` parses back to `n`. */
  lemma SignedRoundTrip(sign: char, n: nat)
    ensures var t := [sign] + Decimal(n);
      && |t| > 1 && t[0] == sign && t[1..] == Decimal(n)
      && AllDigits(t[1..]) && DecimalValue(t[1..]) == n
  {
    DecimalRoundTrip(n);
  }

  /** The label starts with `+` exactly when the day did not lose ground, and with `-` exactly when it did. */
  lemma DeltaSign(rows: seq<DayRow>, s: Series, index: int)
    requires 0 < index < |rows|
    ensures DeltaAt(rows, s, index).Success?
    ensures var t := DeltaText(DeltaAt(rows, s, index).value);
      && t != []
      && (t[0] == '+' <==> ValueOf(rows[index], s) >= ValueOf(rows[index - 1], s))
      && (t[0] == '-' <==> ValueOf(rows[index], s) < ValueOf(rows[index - 1], s))
  {
  }

  /** A small series: going from 100 to 130 confirmed shows `+30`, and the first day shows nothing. */
  lemma GainScenario()
    ensures var rows := [DayRow("30 March ", 100, 10, 1, 20, 2, 0), DayRow("31 March ", 130, 12, 1, 30, 2, 0)];
      && DeltaText(DeltaAt(rows, TotalConfirmed, 1).value) == "+30"
      && DeltaAt(rows, TotalConfirmed, 0) == Success(NoDelta)
      && DeltaAt(rows, TotalConfirmed, 2).Failure?
  {
    var rows := [DayRow("30 March ", 100, 10, 1, 20, 2, 0), DayRow("31 March ", 130, 12, 1, 30, 2, 0)];
    assert Decimal(30) == "30";
  }
}
