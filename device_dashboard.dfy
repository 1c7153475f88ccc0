/**
 * The device page: registered users and device counts per phone brand,
 * state, year and quarter.
 */
module DeviceDashboard {
  import opened Wrappers
  import opened Orders
  import opened Tables
  import Text

  /** One row of the device usage table. */
  datatype DeviceRow = DeviceRow(year: int, quarter: int, state: string, brand: string, regUser: int, count: int)

  function State(r: DeviceRow): string { r.state }
  function Brand(r: DeviceRow): string { r.brand }
  function RegUser(r: DeviceRow): int { r.regUser }
  function Count(r: DeviceRow): int { r.count }
  function StateYear(r: DeviceRow): (string, int) { (r.state, r.year) }

  /** The sidebar mask of `main`: year, quarter and brand are each selected. */
  function Selection(years: set<int>, quarters: set<int>, brands: set<string>): DeviceRow -> bool
  {
    (r: DeviceRow) => r.year in years && r.quarter in quarters && r.brand in brands
  }

  /** The filtered table `main` shows. */
  function SelectDevices(rows: seq<DeviceRow>, years: set<int>, quarters: set<int>, brands: set<string>): (r: seq<DeviceRow>)
    ensures forall x :: x in r <==> x in rows && x.year in years && x.quarter in quarters && x.brand in brands
    ensures forall x :: multiset(r)[x] == if x.year in years && x.quarter in quarters && x.brand in brands then multiset(rows)[x] else 0
    ensures IsSubsequence(r, rows)
  {
    FilterInOrder(rows, Selection(years, quarters, brands));
    FilterCount(rows, Selection(years, quarters, brands));
    Filter(rows, Selection(years, quarters, brands))
  }

  /** Selecting every year, quarter and brand that occurs keeps the whole table. */
  lemma SelectEverything(rows: seq<DeviceRow>, years: set<int>, quarters: set<int>, brands: set<string>)
    requires forall x :: x in rows ==> x.year in years && x.quarter in quarters && x.brand in brands
    ensures SelectDevices(rows, years, quarters, brands) == rows
  {
    FilterAll(rows, Selection(years, quarters, brands));
  }

  /**
   * `max_device_state`: for every (state, year) the row with the most
   * registered users (the first such row on a tie), most users first.
   */
  function MaxDeviceState(rows: seq<DeviceRow>): (r: seq<DeviceRow>)
    ensures SortedDesc(r, RegUser)
    ensures OnePerGroup(r, StateYear, rows, StateYear)
    ensures forall x :: x in r ==> FirstExtremeRow(rows, StateYear, AllValid, RegUser, Largest, x)
    ensures forall x, y :: x in r && y in rows && y.state == x.state && y.year == x.year ==> x in rows && y.regUser <= x.regUser
  {
    StrLtIsOrder();
    IntLtIsOrder();
    PairLtIsOrder(Text.StrLt, IntLt);
    var r := TopPerGroup(rows, StateYear, RegUser, Largest, PairLt(Text.StrLt, IntLt));
    assert forall x, y :: x in r && y in rows && y.state == x.state && y.year == x.year ==> x in rows && y.regUser <= x.regUser by {
      forall x, y | x in r && y in rows && y.state == x.state && y.year == x.year
        ensures x in rows && y.regUser <= x.regUser
      {
        FirstExtremeRowFacts(rows, StateYear, AllValid, RegUser, Largest, x);
        assert StateYear(y) == StateYear(x) && AllValid(y);
      }
    }
    r
  }

  /** The rows of the selected brands. */
  function BrandIn(brands: set<string>): DeviceRow -> bool
  {
    (r: DeviceRow) => r.brand in brands
  }

  /** The rows of the selected states. */
  function StateIn(states: set<string>): DeviceRow -> bool
  {
    (r: DeviceRow) => r.state in states
  }

  /**
   * `mobile_wise_data`: nothing without a brand selection; otherwise the
   * registered users of the selected brands summed per state, largest first.
   */
  function MobileWiseData(rows: seq<DeviceRow>, brands: set<string>): (f: Frame<Total<string>>)
    ensures f.EmptyFrame? <==> brands == {}
    ensures f.Table? ==> SortedDesc(f.rows, TotalOf)
    ensures f.Table? ==> OnePerGroup(f.rows, TotalKey, Filter(rows, BrandIn(brands)), State)
    ensures f.Table? ==> forall t :: 0 <= t < |f.rows| ==>
              f.rows[t].total == SumWhere(Filter(rows, BrandIn(brands)), State, f.rows[t].key, RegUser)
    ensures f.Table? ==> Sum(f.rows, TotalOf) == Sum(Filter(rows, BrandIn(brands)), RegUser)
  {
    if brands == {} then EmptyFrame
    else
      var sel := Filter(rows, BrandIn(brands));
      StrLtIsOrder();
      GroupSumDescTotals(sel, State, RegUser, Text.StrLt);
      Table(GroupSumDesc(sel, State, RegUser, Text.StrLt))
  }

  /**
   * `state_wise_data`: nothing without a state selection; otherwise the
   * device counts of the selected states summed per brand, largest first.
   */
  function StateWiseData(rows: seq<DeviceRow>, states: set<string>): (f: Frame<Total<string>>)
    ensures f.EmptyFrame? <==> states == {}
    ensures f.Table? ==> SortedDesc(f.rows, TotalOf)
    ensures f.Table? ==> OnePerGroup(f.rows, TotalKey, Filter(rows, StateIn(states)), Brand)
    ensures f.Table? ==> forall t :: 0 <= t < |f.rows| ==>
              f.rows[t].total == SumWhere(Filter(rows, StateIn(states)), Brand, f.rows[t].key, Count)
    ensures f.Table? ==> Sum(f.rows, TotalOf) == Sum(Filter(rows, StateIn(states)), Count)
  {
    if states == {} then EmptyFrame
    else
      var sel := Filter(rows, StateIn(states));
      StrLtIsOrder();
      GroupSumDescTotals(sel, Brand, Count, Text.StrLt);
      Table(GroupSumDesc(sel, Brand, Count, Text.StrLt))
  }

  /**
   * The two charts' columns as written: the bar plot of `mobile_cat` and
   * the donut of `state_cat` read the key column and the total column of
   * the frame, which the column-less frame of an empty selection does not
   * have (seaborn refuses the column names, pandas raises a KeyError).
   */
  function ChartColumnsAsWritten(f: Frame<Total<string>>): (o: Option<(seq<string>, seq<int>)>)
    ensures o.None? <==> f.EmptyFrame?
    ensures o.Some? ==> |o.value.0| == |o.value.1| == |f.rows|
    ensures o.Some? ==> forall t :: 0 <= t < |f.rows| ==> o.value.0[t] == f.rows[t].key && o.value.1[t] == f.rows[t].total
  {
    match f
    case EmptyFrame => None
    case Table(g) => Some((seq(|g|, t requires 0 <= t < |g| => g[t].key), seq(|g|, t requires 0 <= t < |g| => g[t].total)))
  }

  /** With no brand selected the page fails at the bar plot. */
  lemma MobileBarsFailWithoutBrands(rows: seq<DeviceRow>)
    ensures ChartColumnsAsWritten(MobileWiseData(rows, {})).None?
  {
  }

  /** With no state selected the page fails before it can draw the donut. */
  lemma BrandShareFailsWithoutStates(rows: seq<DeviceRow>)
    ensures ChartColumnsAsWritten(StateWiseData(rows, {})).None?
  {
  }

  /** The labels and values of a chart; an empty chart when nothing is selected. */
  function ChartColumns(f: Frame<Total<string>>): (r: (seq<string>, seq<int>))
    ensures |r.0| == |r.1|
    ensures f.EmptyFrame? ==> r == ([], [])
    ensures f.Table? ==> |r.0| == |f.rows| && forall t :: 0 <= t < |f.rows| ==> r.0[t] == f.rows[t].key && r.1[t] == f.rows[t].total
  {
    match ChartColumnsAsWritten(f)
    case None => ([], [])
    case Some(v) => v
  }

  /** The bars add up to the registered users of the selected brands, and each state has one bar. */
  lemma MobileBarsTotals(rows: seq<DeviceRow>, brands: set<string>)
    requires brands != {}
    ensures var r := ChartColumns(MobileWiseData(rows, brands));
            Sum(r.1, Id) == Sum(Filter(rows, BrandIn(brands)), RegUser)
            && forall t, u :: 0 <= t < u < |r.0| ==> r.0[t] != r.0[u]
  {
    var g := MobileWiseData(rows, brands).rows;
    var r := ChartColumns(MobileWiseData(rows, brands));
    SumMap(g, TotalOf, r.1, Id);
    assert DistinctKeys(g, TotalKey);
    forall t, u | 0 <= t < u < |r.0|
      ensures r.0[t] != r.0[u]
    {
      assert TotalKey(g[t]) != TotalKey(g[u]);
    }
  }

  /** The donut's values add up to the device count of the selected states, and each brand appears once. */
  lemma BrandShareTotals(rows: seq<DeviceRow>, states: set<string>)
    requires states != {}
    ensures var r := ChartColumns(StateWiseData(rows, states));
            Sum(r.1, Id) == Sum(Filter(rows, StateIn(states)), Count)
            && forall t, u :: 0 <= t < u < |r.0| ==> r.0[t] != r.0[u]
  {
    var g := StateWiseData(rows, states).rows;
    var r := ChartColumns(StateWiseData(rows, states));
    SumMap(g, TotalOf, r.1, Id);
    assert DistinctKeys(g, TotalKey);
    forall t, u | 0 <= t < u < |r.0|
      ensures r.0[t] != r.0[u]
    {
      assert TotalKey(g[t]) != TotalKey(g[u]);
    }
  }
}
