/**
 * The transaction dynamics page: transaction counts per state and payment
 * mode, the HIGH / POTENTIAL / LOW state classification and the
 * quarter-wise registered-user trend.
 */
module DynamicsDashboard {
  import opened Wrappers
  import opened Orders
  import opened Tables
  import opened Categories
  import Text

  /** One row of the aggregated transaction table. */
  datatype AggRow = AggRow(year: int, quarter: int, state: string, mode: string, transCount: int, regUser: int)

  function State(r: AggRow): string { r.state }
  function TransCount(r: AggRow): int { r.transCount }
  function RegUser(r: AggRow): int { r.regUser }
  function YearQuarter(r: AggRow): (int, int) { (r.year, r.quarter) }

  /** The sidebar mask of `main`: year, quarter and payment mode are each selected. */
  function Selection(years: set<int>, quarters: set<int>, modes: set<string>): AggRow -> bool
  {
    (r: AggRow) => r.year in years && r.quarter in quarters && r.mode in modes
  }

  /** The filtered table `main` shows. */
  function SelectAggregates(rows: seq<AggRow>, years: set<int>, quarters: set<int>, modes: set<string>): (r: seq<AggRow>)
    ensures forall x :: x in r <==> x in rows && x.year in years && x.quarter in quarters && x.mode in modes
    ensures forall x :: multiset(r)[x] == if x.year in years && x.quarter in quarters && x.mode in modes then multiset(rows)[x] else 0
    ensures IsSubsequence(r, rows)
  {
    FilterInOrder(rows, Selection(years, quarters, modes));
    FilterCount(rows, Selection(years, quarters, modes));
    Filter(rows, Selection(years, quarters, modes))
  }

  /** Selecting every year, quarter and mode that occurs keeps the whole table. */
  lemma SelectEverything(rows: seq<AggRow>, years: set<int>, quarters: set<int>, modes: set<string>)
    requires forall x :: x in rows ==> x.year in years && x.quarter in quarters && x.mode in modes
    ensures SelectAggregates(rows, years, quarters, modes) == rows
  {
    FilterAll(rows, Selection(years, quarters, modes));
  }

  /** The rows of the selected payment modes. */
  function ModeIn(modes: set<string>): AggRow -> bool
  {
    (r: AggRow) => r.mode in modes
  }

  /** The mean of the per-state transaction counts of `sel`. */
  function StateMean(sel: seq<AggRow>): real
  {
    StrLtIsOrder();
    GroupMean(sel, State, TransCount, Text.StrLt)
  }

  /** The spelling of the categories in this page's `category` column. */
  function Label(c: Category): string
  {
    match c
    case High => "HIGH"
    case Potential => "POTENTIAL"
    case Low => "LOW"
  }

  /**
   * `overall_growth`: nothing without a mode selection; otherwise, over the
   * rows of the selected modes, every state's transaction count classified
   * against the mean of all states' counts, largest count first.
   */
  function OverallGrowth(rows: seq<AggRow>, modes: set<string>): (f: Frame<Classified<string>>)
    ensures f.EmptyFrame? <==> modes == {}
    ensures f.Table? ==> SortedDesc(f.rows, ClassifiedTotal)
    ensures f.Table? ==> OnePerGroup(f.rows, ClassifiedKey, Filter(rows, ModeIn(modes)), State)
    ensures f.Table? ==> forall t :: 0 <= t < |f.rows| ==>
              f.rows[t].total == SumWhere(Filter(rows, ModeIn(modes)), State, f.rows[t].key, TransCount)
    ensures f.Table? ==> forall t :: 0 <= t < |f.rows| ==>
              f.rows[t].category == ClassifyStrict(f.rows[t].total as real, StateMean(Filter(rows, ModeIn(modes))))
  {
    if modes == {} then EmptyFrame
    else
      StrLtIsOrder();
      Table(ClassifyGroups(Filter(rows, ModeIn(modes)), State, TransCount, Text.StrLt))
  }

  /** A state's count sums the rows of that state, with the rows of unselected modes contributing nothing. */
  lemma StateCountOnlySelectedModes(rows: seq<AggRow>, modes: set<string>, t: nat)
    requires OverallGrowth(rows, modes).Table? && t < |OverallGrowth(rows, modes).rows|
    ensures OverallGrowth(rows, modes).rows[t].total
         == SumWhere(rows, State, OverallGrowth(rows, modes).rows[t].key, Masked(ModeIn(modes), TransCount))
  {
    SumWhereFilter(rows, ModeIn(modes), State, OverallGrowth(rows, modes).rows[t].key, TransCount);
  }

  /** Every state of the selected modes is in exactly one of HIGH, POTENTIAL and LOW. */
  lemma OverallGrowthPartition(rows: seq<AggRow>, modes: set<string>)
    requires modes != {}
    ensures var cs := CategoryColumn(OverallGrowth(rows, modes).rows);
            CountOf(cs, High) + CountOf(cs, Potential) + CountOf(cs, Low) == |KeySet(Filter(rows, ModeIn(modes)), State)|
  {
    StrLtIsOrder();
    var sel := Filter(rows, ModeIn(modes));
    ClassifyGroupsPartition(sel, State, TransCount, Text.StrLt);
    assert OverallGrowth(rows, modes).rows == ClassifyGroups(sel, State, TransCount, Text.StrLt);
  }

  /** With some state present, at least one state is not HIGH. */
  lemma OverallGrowthNotAllHigh(rows: seq<AggRow>, modes: set<string>)
    requires modes != {} && exists x :: x in rows && x.mode in modes
    ensures exists t :: 0 <= t < |OverallGrowth(rows, modes).rows| && OverallGrowth(rows, modes).rows[t].category != High
  {
    StrLtIsOrder();
    var sel := Filter(rows, ModeIn(modes));
    var x :| x in rows && x.mode in modes;
    assert ModeIn(modes)(x);
    assert x in sel;
    ClassifyGroupsNotAllHigh(sel, State, TransCount, Text.StrLt);
    var r := ClassifyGroups(sel, State, TransCount, Text.StrLt);
    assert OverallGrowth(rows, modes).rows == r;
    var t :| 0 <= t < |r| && r[t].category != High;
  }

  /** `potential_area[potential_area['category'] == 'POTENTIAL']`, shown only when the result has rows. */
  function PotentialStates(f: Frame<Classified<string>>): (r: seq<Classified<string>>)
    ensures f.EmptyFrame? ==> r == []
    ensures f.Table? ==> forall x :: x in r <==> x in f.rows && Label(x.category) == "POTENTIAL"
    ensures f.Table? ==> IsSubsequence(r, f.rows)
  {
    match f
    case EmptyFrame => []
    case Table(g) =>
      FilterInOrder(g, IsPotential);
      Filter(g, IsPotential)
  }

  predicate IsPotential(x: Classified<string>) { x.category == Potential }

  /**
   * The colour column of the choropleth as written: the state and the
   * category value of every row, read from the `state_name` and
   * `category` columns, which the column-less frame of an empty mode
   * selection does not have (a KeyError: None).
   */
  function CategoryValuesAsWritten(f: Frame<Classified<string>>): (o: Option<seq<(string, int)>>)
    ensures o.None? <==> f.EmptyFrame?
    ensures o.Some? ==> |o.value| == |f.rows|
    ensures o.Some? ==> forall t :: 0 <= t < |f.rows| ==>
              o.value[t].0 == f.rows[t].key && o.value[t].1 == ColorMap[TitleLabel(f.rows[t].category)]
  {
    match f
    case EmptyFrame => None
    case Table(g) => Some(seq(|g|, t requires 0 <= t < |g| => (g[t].key, CategoryValue(g[t].category))))
  }

  /** With no mode selected the page fails when it builds the map. */
  lemma CategoryValuesFailWithoutModes(rows: seq<AggRow>)
    ensures CategoryValuesAsWritten(OverallGrowth(rows, {})).None?
  {
  }

  /** The colour column of the choropleth; no states to colour when no mode is selected. */
  function CategoryValues(f: Frame<Classified<string>>): (r: seq<(string, int)>)
    ensures f.EmptyFrame? ==> r == []
    ensures f.Table? ==> |r| == |f.rows| && forall t :: 0 <= t < |f.rows| ==>
              r[t].0 == f.rows[t].key && r[t].1 == ColorMap[TitleLabel(f.rows[t].category)]
  {
    match CategoryValuesAsWritten(f)
    case None => []
    case Some(v) => v
  }

  /** The colour value orders the states as their categories do: HIGH above POTENTIAL above LOW. */
  lemma CategoryValuesOrdered(rows: seq<AggRow>, modes: set<string>)
    requires modes != {}
    ensures var g := OverallGrowth(rows, modes).rows;
            forall t, u :: 0 <= t < |g| && 0 <= u < |g| && g[t].total <= g[u].total ==>
              CategoryValues(OverallGrowth(rows, modes))[t].1 <= CategoryValues(OverallGrowth(rows, modes))[u].1
  {
    var g := OverallGrowth(rows, modes).rows;
    var cv := CategoryValues(OverallGrowth(rows, modes));
    forall t, u | 0 <= t < |g| && 0 <= u < |g| && g[t].total <= g[u].total
      ensures cv[t].1 <= cv[u].1
    {
      StrictMonotone(g[t].total as real, g[u].total as real, StateMean(Filter(rows, ModeIn(modes))));
    }
  }

  /** One point of the quarter-wise user trend, with its `Year_Quarter` label. */
  datatype GrowthPoint = GrowthPoint(year: int, quarter: int, regUser: int, period: string)

  function PointKey(p: GrowthPoint): (int, int) { (p.year, p.quarter) }
  function PointUsers(p: GrowthPoint): int { p.regUser }

  /**
   * `user_growth`: registered users summed per (year, quarter), in
   * ascending (year, quarter) order, each labelled "<year> Q<quarter>".
   * The later `sort_values(by=['trans_year', 'quarter'])` keeps this order.
   */
  function UserGrowth(rows: seq<AggRow>): (r: seq<GrowthPoint>)
    ensures SortedByKey(r, PointKey, PairLt(IntLt, IntLt))
    ensures OnePerGroup(r, PointKey, rows, YearQuarter)
    ensures forall t :: 0 <= t < |r| ==> r[t].regUser == SumWhere(rows, YearQuarter, PointKey(r[t]), RegUser)
    ensures forall t :: 0 <= t < |r| ==> r[t].period == Text.YearQuarterLabel(r[t].year, r[t].quarter)
    ensures Sum(r, PointUsers) == Sum(rows, RegUser)
  {
    IntLtIsOrder();
    PairLtIsOrder(IntLt, IntLt);
    var g := GroupSum(rows, YearQuarter, RegUser, PairLt(IntLt, IntLt));
    var r := seq(|g|, t requires 0 <= t < |g| => GrowthPoint(g[t].key.0, g[t].key.1, g[t].total, Text.YearQuarterLabel(g[t].key.0, g[t].key.1)));
    GroupSumOnePerGroup(rows, YearQuarter, RegUser, PairLt(IntLt, IntLt));
    OnePerGroupMap(g, TotalKey, r, PointKey, rows, YearQuarter);
    GroupSumConserves(rows, YearQuarter, RegUser, PairLt(IntLt, IntLt));
    SumMap(g, TotalOf, r, PointUsers);
    assert SortedByKey(r, PointKey, PairLt(IntLt, IntLt)) by {
      forall t, u | 0 <= t < u < |r|
        ensures PairLt(IntLt, IntLt)(PointKey(r[t]), PointKey(r[u]))
      {
        assert PointKey(r[t]) == g[t].key && PointKey(r[u]) == g[u].key;
      }
    }
    r
  }

  /** No two points share a label, so the line chart's x axis has one tick per quarter. */
  lemma UserGrowthLabelsDistinct(rows: seq<AggRow>)
    ensures forall t, u :: 0 <= t < u < |UserGrowth(rows)| ==> UserGrowth(rows)[t].period != UserGrowth(rows)[u].period
  {
    var r := UserGrowth(rows);
    forall t, u | 0 <= t < u < |r|
      ensures r[t].period != r[u].period
    {
      assert PointKey(r[t]) != PointKey(r[u]);
      if r[t].period == r[u].period {
        Text.YearQuarterLabelInjective(r[t].year, r[t].quarter, r[u].year, r[u].quarter);
        assert false;
      }
    }
  }
}
