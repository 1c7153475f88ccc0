/**
 * The district and pincode page: transaction counts and amounts per
 * district and per pincode, the top district and top pincode of every
 * state, yearly trends and the state-by-year heatmap.
 */
module DistrictPincodeDashboard {
  import opened Wrappers
  import opened Orders
  import opened Tables
  import Text

  /** One row of the district table. */
  datatype DistrictRow = DistrictRow(year: int, quarter: int, state: string, district: string, count: int, amount: int)

  /** One row of the pincode table. */
  datatype PincodeRow = PincodeRow(year: int, quarter: int, state: string, pincode: int, count: int)

  function DistrictState(r: DistrictRow): string { r.state }
  function District(r: DistrictRow): string { r.district }
  function DistrictCount(r: DistrictRow): int { r.count }
  function Amount(r: DistrictRow): int { r.amount }
  function YearState(r: DistrictRow): (int, string) { (r.year, r.state) }

  function PincodeState(r: PincodeRow): string { r.state }
  function PincodeCount(r: PincodeRow): int { r.count }
  function StateYear(r: PincodeRow): (string, int) { (r.state, r.year) }

  /** The pincode column after the page's `astype(str)`. */
  function PincodeText(r: PincodeRow): string { Text.IntToString(r.pincode) }

  /** The grouping key `['trans_year', 'state_name', 'pincode']` of the pincode trend. */
  function YearStatePincode(r: PincodeRow): ((int, string), string) { ((r.year, r.state), PincodeText(r)) }

  /** The district sidebar mask: year, quarter and state are each selected. */
  function DistrictMask(years: set<int>, quarters: set<int>, states: set<string>): DistrictRow -> bool
  {
    (r: DistrictRow) => r.year in years && r.quarter in quarters && r.state in states
  }

  /** The pincode sidebar mask: year, quarter and state are each selected. */
  function PincodeMask(years: set<int>, quarters: set<int>, states: set<string>): PincodeRow -> bool
  {
    (r: PincodeRow) => r.year in years && r.quarter in quarters && r.state in states
  }

  /**
   * The district filter, computed only when all three selections are
   * non-empty (otherwise the page shows a warning instead).
   */
  function SelectDistricts(rows: seq<DistrictRow>, years: set<int>, quarters: set<int>, states: set<string>): (o: Option<seq<DistrictRow>>)
    ensures o.Some? <==> years != {} && quarters != {} && states != {}
    ensures o.Some? ==> forall x :: x in o.value <==> x in rows && x.year in years && x.quarter in quarters && x.state in states
    ensures o.Some? ==> forall x :: multiset(o.value)[x] == if x.year in years && x.quarter in quarters && x.state in states then multiset(rows)[x] else 0
    ensures o.Some? ==> IsSubsequence(o.value, rows)
  {
    if years != {} && quarters != {} && states != {} then
      FilterInOrder(rows, DistrictMask(years, quarters, states));
      FilterCount(rows, DistrictMask(years, quarters, states));
      Some(Filter(rows, DistrictMask(years, quarters, states)))
    else
      None
  }

  /** The pincode filter, under the same guard. */
  function SelectPincodes(rows: seq<PincodeRow>, years: set<int>, quarters: set<int>, states: set<string>): (o: Option<seq<PincodeRow>>)
    ensures o.Some? <==> years != {} && quarters != {} && states != {}
    ensures o.Some? ==> forall x :: x in o.value <==> x in rows && x.year in years && x.quarter in quarters && x.state in states
    ensures o.Some? ==> forall x :: multiset(o.value)[x] == if x.year in years && x.quarter in quarters && x.state in states then multiset(rows)[x] else 0
    ensures o.Some? ==> IsSubsequence(o.value, rows)
  {
    if years != {} && quarters != {} && states != {} then
      FilterInOrder(rows, PincodeMask(years, quarters, states));
      FilterCount(rows, PincodeMask(years, quarters, states));
      Some(Filter(rows, PincodeMask(years, quarters, states)))
    else
      None
  }

  /**
   * `district_plot`: under the guard, the transaction count of the
   * filtered rows summed per district.
   */
  function DistrictPlot(rows: seq<DistrictRow>, years: set<int>, quarters: set<int>, states: set<string>): (o: Option<seq<Total<string>>>)
    ensures o.Some? <==> years != {} && quarters != {} && states != {}
    ensures o.Some? ==> SortedByKey(o.value, TotalKey, Text.StrLt)
    ensures o.Some? ==> OnePerGroup(o.value, TotalKey, SelectDistricts(rows, years, quarters, states).value, District)
    ensures o.Some? ==> forall t :: 0 <= t < |o.value| ==>
              o.value[t].total == SumWhere(SelectDistricts(rows, years, quarters, states).value, District, o.value[t].key, DistrictCount)
    ensures o.Some? ==> Sum(o.value, TotalOf) == Sum(SelectDistricts(rows, years, quarters, states).value, DistrictCount)
  {
    match SelectDistricts(rows, years, quarters, states)
    case None => None
    case Some(sel) =>
      StrLtIsOrder();
      Some(GroupTotals(sel, District, DistrictCount, Text.StrLt))
  }

  /**
   * `max_transaction_district`: the transaction amount summed per
   * (state, district); for every state the district with the largest sum
   * (on a tie the alphabetically first, which comes first in the grouped
   * table); largest sum first.
   */
  function MaxTransactionDistrict(rows: seq<DistrictRow>): (r: seq<Total<(string, string)>>)
    ensures SortedDesc(r, TotalOf)
    ensures OnePerGroup(r, ParentOf, rows, DistrictState)
    ensures forall t :: 0 <= t < |r| ==>
              HasKey(rows, PairKey(DistrictState, District), r[t].key)
              && r[t].total == SumWhere(rows, PairKey(DistrictState, District), r[t].key, Amount)
    ensures forall t, i :: 0 <= t < |r| && 0 <= i < |rows| && rows[i].state == r[t].key.0 ==>
              SumWhere(rows, PairKey(DistrictState, District), (rows[i].state, rows[i].district), Amount) <= r[t].total
    ensures forall t, i :: 0 <= t < |r| && 0 <= i < |rows| && rows[i].state == r[t].key.0 && Text.StrLt(rows[i].district, r[t].key.1) ==>
              SumWhere(rows, PairKey(DistrictState, District), (rows[i].state, rows[i].district), Amount) < r[t].total
  {
    StrLtIsOrder();
    TopChildPerParent(rows, DistrictState, District, Amount, Text.StrLt, Text.StrLt)
  }

  /** `yearly_trend` of the district table: the transaction amount summed per (year, state). */
  function DistrictYearlyTrend(rows: seq<DistrictRow>): (g: seq<Total<(int, string)>>)
    ensures SortedByKey(g, TotalKey, PairLt(IntLt, Text.StrLt))
    ensures OnePerGroup(g, TotalKey, rows, YearState)
    ensures forall t :: 0 <= t < |g| ==> g[t].total == SumWhere(rows, YearState, g[t].key, Amount)
    ensures Sum(g, TotalOf) == Sum(rows, Amount)
  {
    IntLtIsOrder();
    StrLtIsOrder();
    PairLtIsOrder(IntLt, Text.StrLt);
    GroupTotals(rows, YearState, Amount, PairLt(IntLt, Text.StrLt))
  }

  /**
   * `pd.pivot_table(pincode_df, values='transaction_count',
   * index='state_name', columns='trans_year', aggfunc='sum')`: a cell for
   * every (state, year) that occurs, holding the sum of its counts; the
   * other cells are empty (NaN).
   */
  function Heatmap(rows: seq<PincodeRow>): (m: map<(string, int), int>)
    ensures forall k :: k in m <==> HasKey(rows, StateYear, k)
    ensures forall k :: k in m ==> m[k] == SumWhere(rows, StateYear, k, PincodeCount)
  {
    if |rows| == 0 then map[]
    else
      var n := |rows| - 1;
      var m := Heatmap(rows[..n]);
      var k := StateYear(rows[n]);
      assert rows[..n] == rows[..|rows| - 1];
      assert forall j :: j != k ==> (HasKey(rows, StateYear, j) <==> HasKey(rows[..n], StateYear, j)) by {
        forall j | j != k
          ensures HasKey(rows, StateYear, j) <==> HasKey(rows[..n], StateYear, j)
        {
          HasKeyLast(rows, StateYear, j);
        }
      }
      HasKeyLast(rows, StateYear, k);
      if k in m then
        m[k := m[k] + rows[n].count]
      else
        assert SumWhere(rows[..n], StateYear, k, PincodeCount) == 0 by {
          SumWhereAbsent(rows[..n], StateYear, k, PincodeCount);
        }
        m[k := rows[n].count]
  }

  /** The heatmap's cells as a table: the transaction count summed per (state, year). */
  function HeatmapCells(rows: seq<PincodeRow>): (g: seq<Total<(string, int)>>)
    ensures SortedByKey(g, TotalKey, PairLt(Text.StrLt, IntLt))
    ensures OnePerGroup(g, TotalKey, rows, StateYear)
    ensures forall t :: 0 <= t < |g| ==> g[t].total == SumWhere(rows, StateYear, g[t].key, PincodeCount)
    ensures Sum(g, TotalOf) == Sum(rows, PincodeCount)
  {
    IntLtIsOrder();
    StrLtIsOrder();
    PairLtIsOrder(Text.StrLt, IntLt);
    GroupTotals(rows, StateYear, PincodeCount, PairLt(Text.StrLt, IntLt))
  }

  /**
   * The pivot holds exactly the cells of the grouped table, so its cells
   * add up to the transaction count of the whole pincode table.
   */
  lemma HeatmapMatchesCells(rows: seq<PincodeRow>)
    ensures |HeatmapCells(rows)| == |Heatmap(rows).Keys|
    ensures forall t :: 0 <= t < |HeatmapCells(rows)| ==>
              HeatmapCells(rows)[t].key in Heatmap(rows) && Heatmap(rows)[HeatmapCells(rows)[t].key] == HeatmapCells(rows)[t].total
  {
    var g := HeatmapCells(rows);
    var m := Heatmap(rows);
    forall t | 0 <= t < |g|
      ensures g[t].key in m && m[g[t].key] == g[t].total
    {
      assert HasKey(rows, StateYear, TotalKey(g[t]));
    }
    assert KeySet(g, TotalKey) == m.Keys by {
      forall k | k in m.Keys
        ensures k in KeySet(g, TotalKey)
      {
        assert HasKey(rows, StateYear, k);
        var i :| 0 <= i < |rows| && StateYear(rows[i]) == k;
        assert KeyPresent(g, TotalKey, StateYear(rows[i]));
        var t :| 0 <= t < |g| && TotalKey(g[t]) == k;
        assert g[t] in g;
      }
    }
    DistinctKeysCard(g, TotalKey);
  }

  /**
   * `max_transaction_pincode`: the transaction count summed per (state,
   * pincode); for every state the pincode with the largest sum (on a tie
   * the first in string order); largest sum first.
   */
  function MaxTransactionPincode(rows: seq<PincodeRow>): (r: seq<Total<(string, string)>>)
    ensures SortedDesc(r, TotalOf)
    ensures OnePerGroup(r, ParentOf, rows, PincodeState)
    ensures forall t :: 0 <= t < |r| ==>
              HasKey(rows, PairKey(PincodeState, PincodeText), r[t].key)
              && r[t].total == SumWhere(rows, PairKey(PincodeState, PincodeText), r[t].key, PincodeCount)
    ensures forall t, i :: 0 <= t < |r| && 0 <= i < |rows| && rows[i].state == r[t].key.0 ==>
              SumWhere(rows, PairKey(PincodeState, PincodeText), (rows[i].state, PincodeText(rows[i])), PincodeCount) <= r[t].total
    ensures forall t, i :: 0 <= t < |r| && 0 <= i < |rows| && rows[i].state == r[t].key.0 && Text.StrLt(PincodeText(rows[i]), r[t].key.1) ==>
              SumWhere(rows, PairKey(PincodeState, PincodeText), (rows[i].state, PincodeText(rows[i])), PincodeCount) < r[t].total
  {
    StrLtIsOrder();
    TopChildPerParent(rows, PincodeState, PincodeText, PincodeCount, Text.StrLt, Text.StrLt)
  }

  /** Each top pincode is one of the state's own pincodes, rendered as text. */
  lemma TopPincodeIsAPincode(rows: seq<PincodeRow>)
    ensures forall t :: 0 <= t < |MaxTransactionPincode(rows)| ==>
              exists i :: 0 <= i < |rows| && rows[i].state == MaxTransactionPincode(rows)[t].key.0
                          && Text.ParseInt(MaxTransactionPincode(rows)[t].key.1) == Some(rows[i].pincode)
  {
    var r := MaxTransactionPincode(rows);
    forall t | 0 <= t < |r|
      ensures exists i :: 0 <= i < |rows| && rows[i].state == r[t].key.0 && Text.ParseInt(r[t].key.1) == Some(rows[i].pincode)
    {
      assert HasKey(rows, PairKey(PincodeState, PincodeText), r[t].key);
      var i :| 0 <= i < |rows| && PairKey(PincodeState, PincodeText)(rows[i]) == r[t].key;
      Text.ParseIntToString(rows[i].pincode);
    }
  }

  /** The pincode `yearly_trend`: the transaction count summed per (year, state, pincode). */
  function PincodeYearlyTrend(rows: seq<PincodeRow>): (g: seq<Total<((int, string), string)>>)
    ensures SortedByKey(g, TotalKey, PairLt(PairLt(IntLt, Text.StrLt), Text.StrLt))
    ensures OnePerGroup(g, TotalKey, rows, YearStatePincode)
    ensures forall t :: 0 <= t < |g| ==> g[t].total == SumWhere(rows, YearStatePincode, g[t].key, PincodeCount)
    ensures Sum(g, TotalOf) == Sum(rows, PincodeCount)
  {
    IntLtIsOrder();
    StrLtIsOrder();
    PairLtIsOrder(IntLt, Text.StrLt);
    PairLtIsOrder(PairLt(IntLt, Text.StrLt), Text.StrLt);
    GroupTotals(rows, YearStatePincode, PincodeCount, PairLt(PairLt(IntLt, Text.StrLt), Text.StrLt))
  }
}
