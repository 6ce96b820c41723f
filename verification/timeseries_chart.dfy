/**
 * The state the time-series component keeps between renders: the national
 * series with its hover cursor, and the per-state rows that are spliced and
 * sorted in place for the state-wise charts. One cursor `index` serves both
 * groups of charts.
 */
module TimeSeriesChart {
  import opened Wrappers
  import opened TimeSeriesRules

  /** One state's totals, as the state-wise charts read them. */
  datatype StateRow = StateRow(state: string, statecode: string, confirmed: int, recovered: int, deaths: int)

  /** The three state-wise charts. */
  datatype StateField = Confirmed | Recovered | Deaths

  function FieldOf(r: StateRow, f: StateField): int
  {
    match f
    case Confirmed => r.confirmed
    case Recovered => r.recovered
    case Deaths => r.deaths
  }

  /** One state field read across all rows. */
  function StateColumn(rows: seq<StateRow>, f: StateField): (c: seq<int>)
    ensures |c| == |rows| && forall i :: 0 <= i < |rows| ==> c[i] == FieldOf(rows[i], f)
  {
    seq(|rows|, i requires 0 <= i < |rows| => FieldOf(rows[i], f))
  }

  /** The maximum a state chart's scale is built from; nothing for no rows. */
  function StateMax(rows: seq<StateRow>, f: StateField): (m: Option<int>)
    ensures m.None? <==> rows == []
    ensures m.Some? ==> (forall i :: 0 <= i < |rows| ==> FieldOf(rows[i], f) <= m.value)
    ensures m.Some? ==> m.value in StateColumn(rows, f)
  {
    MaxOf(StateColumn(rows, f))
  }

  predicate SortedByConfirmed(s: seq<StateRow>)
  {
    forall i, j :: 0 <= i < j < |s| ==> s[i].confirmed <= s[j].confirmed
  }

  /**
   * `data.sort((a, b) => a.confirmed - b.confirmed)`, as an insertion sort
   * by adjacent swaps: ascending by confirmed count, the same rows, and an
   * already sorted array is left exactly as it was.
   */
  method SortByConfirmed(a: array<StateRow>)
    modifies a
    ensures SortedByConfirmed(a[..])
    ensures multiset(a[..]) == multiset(old(a[..]))
    ensures SortedByConfirmed(old(a[..])) ==> a[..] == old(a[..])
  {
    var i := 0;
    while i < a.Length
      invariant 0 <= i <= a.Length
      invariant SortedByConfirmed(a[..i])
      invariant multiset(a[..]) == multiset(old(a[..]))
      invariant SortedByConfirmed(old(a[..])) ==> a[..] == old(a[..])
    {
      InsertAt(a, i);
      i := i + 1;
    }
    assert a[..a.Length] == a[..];
  }

  /** One insertion step: the row at `i` moves left past every larger row before it. */
  method InsertAt(a: array<StateRow>, i: nat)
    requires i < a.Length && SortedByConfirmed(a[..i])
    modifies a
    ensures SortedByConfirmed(a[..i + 1])
    ensures multiset(a[..]) == multiset(old(a[..]))
    ensures SortedByConfirmed(old(a[..])) ==> a[..] == old(a[..])
  {
    var j := i;
    InsertionStart(a[..], i);
    ghost var inOrder := i == 0 || a[i - 1].confirmed <= a[i].confirmed;
    while j > 0 && a[j - 1].confirmed > a[j].confirmed
      invariant 0 <= j <= i
      invariant Inserting(a[..], i, j)
      invariant multiset(a[..]) == multiset(old(a[..]))
      invariant j == i ==> a[..] == old(a[..])
      invariant inOrder ==> j == i
    {
      ghost var s := a[..];
      SwapStep(s, i, j);
      a[j - 1], a[j] := a[j], a[j - 1];
      assert a[..] == s[j - 1 := s[j]][j := s[j - 1]];
      j := j - 1;
    }
    InsertionDone(a[..], i, j);
  }

  /**
   * Mid-insertion: apart from the row being inserted (at `j`), the first
   * `i + 1` rows are in order, and that row is not above any row after it.
   */
  predicate Inserting(s: seq<StateRow>, i: nat, j: nat)
    requires j <= i < |s|
  {
    && (forall m, n :: 0 <= m < n <= i && m != j && n != j ==> s[m].confirmed <= s[n].confirmed)
    && (forall n :: j < n <= i ==> s[j].confirmed <= s[n].confirmed)
  }

  lemma InsertionStart(s: seq<StateRow>, i: nat)
    requires i < |s| && SortedByConfirmed(s[..i])
    ensures Inserting(s, i, i)
  {
    forall m, n | 0 <= m < n <= i && m != i && n != i
      ensures s[m].confirmed <= s[n].confirmed
    {
      assert s[m] == s[..i][m] && s[n] == s[..i][n];
    }
  }

  lemma SwapStep(s: seq<StateRow>, i: nat, j: nat)
    requires 0 < j <= i < |s| && Inserting(s, i, j)
    requires s[j - 1].confirmed > s[j].confirmed
    ensures Inserting(s[j - 1 := s[j]][j := s[j - 1]], i, j - 1)
    ensures multiset(s[j - 1 := s[j]][j := s[j - 1]]) == multiset(s)
  {
  }

  lemma InsertionDone(s: seq<StateRow>, i: nat, j: nat)
    requires j <= i < |s| && Inserting(s, i, j)
    requires j == 0 || s[j - 1].confirmed <= s[j].confirmed
    ensures SortedByConfirmed(s[..i + 1])
  {
    var t := s[..i + 1];
    forall m, n | 0 <= m < n < |t|
      ensures t[m].confirmed <= t[n].confirmed
    {
      if n == j && m < j - 1 {
        assert s[m].confirmed <= s[j - 1].confirmed;
      }
    }
  }

  /** The rows that remain after `splice(0, 1)`: all but the first. */
  function Spliced(statesData: seq<StateRow>): (r: seq<StateRow>)
    ensures |r| == if statesData == [] then 0 else |statesData| - 1
    ensures forall i :: 0 <= i < |r| ==> r[i] == statesData[i + 1]
  {
    if statesData == [] then [] else statesData[1..]
  }

  /** The national charts and the state-wise charts of one `TimeSeries` component. */
  class TimeSeries {
    var timeseries: seq<DayRow>
    var datapoint: Option<DayRow>
    var index: int
    var stateRows: array<StateRow>
    var stateDatapoint: Option<StateRow>

    /** The state rows stay sorted by confirmed count. */
    ghost predicate Valid()
      reads this, stateRows
    {
      SortedByConfirmed(stateRows[..])
    }

    /** The label under a national chart for the current cursor. */
    function Label(s: Series): Result<Delta, ScriptError>
      reads this
    {
      DeltaAt(timeseries, s, index)
    }

    /** The initial state: no series, no datapoint, and the cursor at 10. */
    constructor ()
      ensures timeseries == [] && datapoint == None && index == 10
      ensures stateRows.Length == 0 && stateDatapoint == None
      ensures Valid()
    {
      timeseries := [];
      datapoint := None;
      index := 10;
      stateRows := new StateRow[0];
      stateDatapoint := None;
    }

    /**
     * A new national series: accepted only with more than one day, and then
     * the cursor and the datapoint move to the last day.
     */
    method LoadTimeseries(ts: seq<DayRow>)
      modifies this
      ensures |ts| > 1 ==> timeseries == ts && datapoint == Some(ts[|ts| - 1]) && index == |ts| - 1
      ensures |ts| <= 1 ==> timeseries == old(timeseries) && datapoint == old(datapoint) && index == old(index)
      ensures |ts| > 1 ==> forall s :: Label(s).Success?
      ensures stateRows == old(stateRows) && stateDatapoint == old(stateDatapoint)
    {
      if |ts| > 1 {
        timeseries := ts;
        datapoint := Some(ts[|ts| - 1]);
        index := |ts| - 1;
      }
    }

    /** `mousemove` over a national chart at day `i`: the cursor follows only inside the series. */
    method MouseMove(i: int)
      modifies this
      ensures 0 <= i < |timeseries| ==> datapoint == Some(timeseries[i]) && index == i
      ensures !(0 <= i < |timeseries|) ==> datapoint == old(datapoint) && index == old(index)
      ensures 0 <= i < |timeseries| ==> forall s :: Label(s).Success?
      ensures timeseries == old(timeseries)
      ensures stateRows == old(stateRows) && stateDatapoint == old(stateDatapoint)
    {
      if 0 <= i && i < |timeseries| {
        datapoint := Some(timeseries[i]);
        index := i;
      }
    }

    /** `mouseout` of a national chart: back to the last day (the handler exists once a series is drawn). */
    method MouseOut()
      modifies this
      ensures |timeseries| > 1 ==> datapoint == Some(timeseries[|timeseries| - 1]) && index == |timeseries| - 1
      ensures |timeseries| <= 1 ==> datapoint == old(datapoint) && index == old(index)
      ensures timeseries == old(timeseries)
      ensures stateRows == old(stateRows) && stateDatapoint == old(stateDatapoint)
    {
      if |timeseries| > 1 {
        datapoint := Some(timeseries[|timeseries| - 1]);
        index := |timeseries| - 1;
      }
    }

    /**
     * `graphDataStates`: drops the first row, sorts the rest ascending by
     * confirmed count, points the datapoint and the cursor at the last row,
     * and places the focus dots on that row. With no rows left the cursor
     * becomes -1 and placing the dots reads `statecode` of undefined, so the
     * effect throws.
     */
    method GraphDataStates(statesData: seq<StateRow>) returns (focus: Result<StateRow, ScriptError>)
      modifies this
      ensures fresh(stateRows)
      ensures SortedByConfirmed(stateRows[..])
      ensures multiset(stateRows[..]) == multiset(Spliced(statesData))
      ensures stateDatapoint == if stateRows.Length > 0 then Some(stateRows[stateRows.Length - 1]) else None
      ensures index == stateRows.Length - 1
      ensures stateRows.Length == |Spliced(statesData)|
      ensures focus.Failure? <==> |statesData| <= 1
      ensures focus.Success? ==> focus.value == stateRows[stateRows.Length - 1]
      ensures timeseries == old(timeseries) && datapoint == old(datapoint)
      ensures Valid()
    {
      var rest := Spliced(statesData);
      var a := new StateRow[|rest|](i requires 0 <= i < |rest| => rest[i]);
      assert a[..] == rest;
      SortByConfirmed(a);
      stateRows := a;
      stateDatapoint := if a.Length > 0 then Some(a[a.Length - 1]) else None;
      index := a.Length - 1;
      focus := if a.Length > 0 then Success(a[a.Length - 1]) else Failure(TypeError);
    }

    /** `mousemove` over a state chart at row `i`: re-sorts the rows, which changes nothing, and moves the cursor inside the rows only. */
    method StateMouseMove(i: int)
      requires Valid()
      modifies this, stateRows
      ensures stateRows == old(stateRows) && stateRows[..] == old(stateRows[..])
      ensures 0 <= i < stateRows.Length ==> stateDatapoint == Some(stateRows[i]) && index == i
      ensures !(0 <= i < stateRows.Length) ==> stateDatapoint == old(stateDatapoint) && index == old(index)
      ensures timeseries == old(timeseries) && datapoint == old(datapoint)
      ensures Valid()
    {
      if 0 <= i && i < stateRows.Length {
        SortByConfirmed(stateRows);
        stateDatapoint := Some(stateRows[i]);
        index := i;
      }
    }

    /**
     * `mouseout` of a state chart: back to the last row. The handler is bound
     * only once the focus dots are placed, so with no rows nothing happens.
     */
    method StateMouseOut()
      modifies this
      ensures stateRows == old(stateRows)
      ensures stateRows.Length > 0 ==>
        stateDatapoint == Some(stateRows[stateRows.Length - 1]) && index == stateRows.Length - 1
      ensures stateRows.Length == 0 ==> stateDatapoint == old(stateDatapoint) && index == old(index)
      ensures timeseries == old(timeseries) && datapoint == old(datapoint)
    {
      if stateRows.Length > 0 {
        stateDatapoint := Some(stateRows[stateRows.Length - 1]);
        index := stateRows.Length - 1;
      }
    }
  }

  /** Rows arrive with a header row first; the rest come out sorted, the largest last and selected. */
  method StatesScenario()
  {
    var chart := new TimeSeries();
    var header := StateRow("Total", "TT", 900, 300, 20);
    var kl := StateRow("Kerala", "KL", 300, 200, 2);
    var mh := StateRow("Maharashtra", "MH", 500, 80, 15);
    var dl := StateRow("Delhi", "DL", 100, 20, 3);
    var focus := chart.GraphDataStates([header, kl, mh, dl]);
    assert chart.stateRows.Length == 3;
    assert focus == Success(chart.stateRows[2]);
    assert chart.stateDatapoint == Some(chart.stateRows[2]);
    assert chart.index == 2;
    assert multiset(chart.stateRows[..]) == multiset{kl, mh, dl};
  }

  /**
   * The cursor is shared: after the state rows are drawn it points at the
   * last state row, and a national label read at that index of a shorter
   * series reads past its end.
   */
  method SharedCursor()
  {
    var chart := new TimeSeries();
    var d1 := DayRow("1 April ", 1000, 100, 10, 50, 5, 1);
    var d2 := DayRow("2 April ", 1100, 120, 12, 100, 20, 2);
    chart.LoadTimeseries([d1, d2]);
    assert chart.Label(TotalConfirmed) == Success(Gain(100));
    var s := StateRow("x", "X", 1, 1, 1);
    var focus := chart.GraphDataStates([s, s, s, s]);
    assert chart.index == 2;
    assert chart.Label(TotalConfirmed).Failure?;
  }

  /** Only the header row arrives: no state rows remain, the cursor becomes -1, drawing the focus dots fails, and no state-chart handler is bound. */
  method HeaderOnly()
  {
    var chart := new TimeSeries();
    var header := StateRow("Total", "TT", 900, 300, 20);
    var focus := chart.GraphDataStates([header]);
    assert focus.Failure?;
    assert chart.index == -1 && chart.stateDatapoint == None;
    chart.StateMouseOut();
    assert chart.index == -1 && chart.stateDatapoint == None;
  }
}
