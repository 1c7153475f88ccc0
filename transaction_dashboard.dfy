/**
 * The transaction page: district transaction counts per year and quarter,
 * the largest and smallest district of every quarter, and the HIGH /
 * PONTENTIAL / LOW district classification. The page's functions rewrite
 * columns of the table they are given, so the table is an object whose
 * `rows` the methods replace.
 */
module TransactionDashboard {
  import opened Wrappers
  import opened Orders
  import opened Tables
  import opened Categories
  import Text

  /** A year or quarter cell: a number as read from the file, or its `astype(str)` text. */
  datatype Dim = IntDim(n: int) | StrDim(s: string)

  /** `str()` of the cell. */
  function DimText(d: Dim): string
  {
    match d
    case IntDim(n) => Text.IntToString(n)
    case StrDim(s) => s
  }

  /** A `transaction_count` cell: a number, a missing value (NaN), or text. */
  datatype Cell = Num(n: int) | Missing | Str(s: string)

  /** One row of the district transaction table. */
  datatype TransRow = TransRow(year: Dim, quarter: Dim, state: string, district: string, count: Cell)

  function YearQuarterKey(r: TransRow): (string, string) { (DimText(r.year), DimText(r.quarter)) }
  function StateDistrict(r: TransRow): (string, string) { (r.state, r.district) }

  /** A row whose count idxmax/idxmin can use. */
  predicate HasCount(r: TransRow) { r.count.Num? }

  function CountValue(r: TransRow): int { if r.count.Num? then r.count.n else 0 }

  /** The sidebar mask of `main`; a year or quarter that is already text never equals a selected number. */
  function Selection(years: set<int>, quarters: set<int>, states: set<string>): TransRow -> bool
  {
    (r: TransRow) => r.year.IntDim? && r.year.n in years && r.quarter.IntDim? && r.quarter.n in quarters && r.state in states
  }

  /** The filtered table `main` shows. */
  function SelectTransactions(rows: seq<TransRow>, years: set<int>, quarters: set<int>, states: set<string>): (r: seq<TransRow>)
    ensures forall x :: x in r <==> x in rows && x.year in (set y | y in years :: IntDim(y))
                                      && x.quarter in (set q | q in quarters :: IntDim(q)) && x.state in states
    ensures forall x :: multiset(r)[x] == if Selection(years, quarters, states)(x) then multiset(rows)[x] else 0
    ensures IsSubsequence(r, rows)
  {
    FilterInOrder(rows, Selection(years, quarters, states));
    FilterCount(rows, Selection(years, quarters, states));
    Filter(rows, Selection(years, quarters, states))
  }

  /** Selecting every year, quarter and state of a freshly read table keeps it whole. */
  lemma SelectEverything(rows: seq<TransRow>, years: set<int>, quarters: set<int>, states: set<string>)
    requires forall x :: x in rows ==> x.year.IntDim? && x.year.n in years && x.quarter.IntDim? && x.quarter.n in quarters && x.state in states
    ensures SelectTransactions(rows, years, quarters, states) == rows
  {
    FilterAll(rows, Selection(years, quarters, states));
  }

  // ---------------------------------------------------------------------
  // In-place column rewrites
  // ---------------------------------------------------------------------

  /** `df['trans_year'] = df['trans_year'].astype(str)` and the same for `quarter`. */
  function YearsAsText(rows: seq<TransRow>): (r: seq<TransRow>)
    ensures |r| == |rows|
    ensures forall i :: 0 <= i < |rows| ==>
              r[i] == rows[i].(year := StrDim(DimText(rows[i].year)), quarter := StrDim(DimText(rows[i].quarter)))
  {
    seq(|rows|, i requires 0 <= i < |rows| =>
      rows[i].(year := StrDim(DimText(rows[i].year)), quarter := StrDim(DimText(rows[i].quarter))))
  }

  /** Converting twice is converting once, and the grouping key of every row stays what it was. */
  lemma YearsAsTextKeepsKeys(rows: seq<TransRow>)
    ensures YearsAsText(YearsAsText(rows)) == YearsAsText(rows)
    ensures forall i :: 0 <= i < |rows| ==> YearQuarterKey(YearsAsText(rows)[i]) == YearQuarterKey(rows[i])
  {
  }

  /**
   * `pd.to_numeric(cell, errors='coerce')`: numbers stay, text that is an
   * integer literal becomes that number, and any other text becomes missing.
   */
  function Coerce(c: Cell): (r: Cell)
    ensures !r.Str?
    ensures c.Num? || c.Missing? ==> r == c
    ensures c.Str? ==> (r.Num? <==> Text.ParseInt(c.s).Some?)
    ensures c.Str? && r.Num? ==> r.n == Text.ParseInt(c.s).value
  {
    match c
    case Str(s) => (if Text.ParseInt(s).Some? then Num(Text.ParseInt(s).value) else Missing)
    case _ => c
  }

  /** The text of a number coerces back to the number. */
  lemma CoerceText(n: int)
    ensures Coerce(Str(Text.IntToString(n))) == Num(n)
  {
    Text.ParseIntToString(n);
  }

  /** `pt_df['transaction_count'] = pd.to_numeric(pt_df['transaction_count'], errors='coerce')`. */
  function Coerced(rows: seq<TransRow>): (r: seq<TransRow>)
    ensures |r| == |rows|
    ensures forall i :: 0 <= i < |rows| ==> r[i] == rows[i].(count := Coerce(rows[i].count))
  {
    seq(|rows|, i requires 0 <= i < |rows| => rows[i].(count := Coerce(rows[i].count)))
  }

  /** A table without text counts has nothing to coerce. */
  lemma CoercedNoText(rows: seq<TransRow>)
    requires !HasTextCount(rows)
    ensures Coerced(rows) == rows
  {
    forall i | 0 <= i < |rows|
      ensures Coerced(rows)[i] == rows[i]
    {
      assert !rows[i].count.Str?;
    }
  }

  /** Coercing twice is coercing once; afterwards no count is text. */
  lemma CoercedIdempotent(rows: seq<TransRow>)
    ensures Coerced(Coerced(rows)) == Coerced(rows)
    ensures forall i :: 0 <= i < |rows| ==> !Coerced(rows)[i].count.Str?
  {
  }

  // ---------------------------------------------------------------------
  // max_trans_every_year_quarter / min_trans_every_year_quarter
  // ---------------------------------------------------------------------

  /** Why idxmax/idxmin cannot produce a table. */
  datatype TransError =
    | TextCount       // the count column holds text (an `object` column) and the reduction is refused
    | NoCountInGroup  // some (year, quarter) has only missing counts, so no label exists for `.loc`


  predicate HasTextCount(rows: seq<TransRow>)
  {
    exists i :: 0 <= i < |rows| && rows[i].count.Str?
  }

  /**
   * `df.loc[df.groupby(['trans_year', 'quarter'])['transaction_count'].idxmax()]`
   * (Largest) or `idxmin()` (Smallest), sorted by the (string) year and
   * quarter: for every (year, quarter) the first row with the extreme count,
   * missing counts skipped.
   */
  function ExtremeTrans(rows: seq<TransRow>, e: Extreme): (r: Result<seq<TransRow>, TransError>)
    ensures r.Failure? && r.error == TextCount <==> HasTextCount(rows)
    ensures r.Failure? && r.error == NoCountInGroup <==> !HasTextCount(rows) && SomeGroupAllInvalid(rows, YearQuarterKey, HasCount)
    ensures r.Success? ==> SortedByKey(r.value, YearQuarterKey, TextPairLt)
    ensures r.Success? ==> OnePerGroup(r.value, YearQuarterKey, rows, YearQuarterKey)
    ensures r.Success? ==> forall x :: x in r.value ==> FirstExtremeRow(rows, YearQuarterKey, HasCount, CountValue, e, x)
    ensures r.Success? ==> forall x, y :: x in r.value && y in rows && YearQuarterKey(y) == YearQuarterKey(x) && y.count.Num? ==>
              x in rows && x.count.Num? && !Beats(e, y.count.n, x.count.n)
  {
    if HasTextCount(rows) then Failure(TextCount)
    else
      TextPairLtIsOrder();
      match PickPerGroup(rows, YearQuarterKey, HasCount, CountValue, e, TextPairLt)
      case None => Failure(NoCountInGroup)
      case Some(v) =>
        assert forall x, y :: x in v && y in rows && YearQuarterKey(y) == YearQuarterKey(x) && y.count.Num? ==>
                 x in rows && x.count.Num? && !Beats(e, y.count.n, x.count.n) by {
          forall x, y | x in v && y in rows && YearQuarterKey(y) == YearQuarterKey(x) && y.count.Num?
            ensures x in rows && x.count.Num? && !Beats(e, y.count.n, x.count.n)
          {
            FirstExtremeRowFacts(rows, YearQuarterKey, HasCount, CountValue, e, x);
            assert HasCount(y);
          }
        }
        Success(v)
  }

  /** The largest count of every (year, quarter); the first such row on a tie. */
  function MaxTrans(rows: seq<TransRow>): (r: Result<seq<TransRow>, TransError>)
    ensures r.Failure? && r.error == TextCount <==> HasTextCount(rows)
    ensures r.Failure? && r.error == NoCountInGroup <==> !HasTextCount(rows) && SomeGroupAllInvalid(rows, YearQuarterKey, HasCount)
    ensures r.Success? ==> SortedByKey(r.value, YearQuarterKey, TextPairLt)
    ensures r.Success? ==> OnePerGroup(r.value, YearQuarterKey, rows, YearQuarterKey)
    ensures r.Success? ==> forall x :: x in r.value ==> FirstExtremeRow(rows, YearQuarterKey, HasCount, CountValue, Largest, x)
    ensures r.Success? ==> forall x, y :: x in r.value && y in rows && YearQuarterKey(y) == YearQuarterKey(x) && y.count.Num? ==>
              x in rows && x.count.Num? && y.count.n <= x.count.n
  {
    ExtremeTrans(rows, Largest)
  }

  /** The smallest count of every (year, quarter); the first such row on a tie. */
  function MinTrans(rows: seq<TransRow>): (r: Result<seq<TransRow>, TransError>)
    ensures r.Failure? && r.error == TextCount <==> HasTextCount(rows)
    ensures r.Failure? && r.error == NoCountInGroup <==> !HasTextCount(rows) && SomeGroupAllInvalid(rows, YearQuarterKey, HasCount)
    ensures r.Success? ==> SortedByKey(r.value, YearQuarterKey, TextPairLt)
    ensures r.Success? ==> OnePerGroup(r.value, YearQuarterKey, rows, YearQuarterKey)
    ensures r.Success? ==> forall x :: x in r.value ==> FirstExtremeRow(rows, YearQuarterKey, HasCount, CountValue, Smallest, x)
    ensures r.Success? ==> forall x, y :: x in r.value && y in rows && YearQuarterKey(y) == YearQuarterKey(x) && y.count.Num? ==>
              x in rows && x.count.Num? && y.count.n >= x.count.n
  {
    ExtremeTrans(rows, Smallest)
  }

  /** A table of numeric counts always yields one row per (year, quarter). */
  lemma NumericCountsSucceed(rows: seq<TransRow>, e: Extreme)
    requires forall i :: 0 <= i < |rows| ==> rows[i].count.Num?
    ensures ExtremeTrans(rows, e).Success?
  {
    forall i | 0 <= i < |rows|
      ensures !NoValidRow(rows, YearQuarterKey, YearQuarterKey(rows[i]), HasCount)
    {
      assert HasCount(rows[i]);
    }
  }

  // ---------------------------------------------------------------------
  // pontential_area
  // ---------------------------------------------------------------------

  /** The count a row adds to its district's sum after coercion; a missing value adds nothing. */
  function CoercedCount(r: TransRow): int
  {
    match Coerce(r.count)
    case Num(n) => n
    case _ => 0
  }

  /** The spelling of the categories in this page's `category` column. */
  function Label(c: Category): string
  {
    match c
    case High => "HIGH"
    case Potential => "PONTENTIAL"
    case Low => "LOW"
  }

  /** The mean of the per-district sums. */
  function DistrictMean(rows: seq<TransRow>): real
  {
    TextPairLtIsOrder();
    GroupMean(rows, StateDistrict, CoercedCount, TextPairLt)
  }

  /**
   * `pontential_area` after the coercion: every (state, district) with its
   * summed count, classified against the mean of all district sums,
   * largest sum first.
   */
  function PontentialAreaOf(rows: seq<TransRow>): (r: seq<Classified<(string, string)>>)
    ensures SortedDesc(r, ClassifiedTotal)
    ensures OnePerGroup(r, ClassifiedKey, rows, StateDistrict)
    ensures forall t :: 0 <= t < |r| ==> r[t].total == SumWhere(rows, StateDistrict, r[t].key, CoercedCount)
    ensures forall t :: 0 <= t < |r| ==> r[t].category == ClassifyStrict(r[t].total as real, DistrictMean(rows))
    ensures forall t :: 0 <= t < |r| ==>
              Label(r[t].category) == (if r[t].total as real > DistrictMean(rows) then "HIGH"
                                       else if (r[t].total as real) < DistrictMean(rows) * 0.5 then "LOW"
                                       else "PONTENTIAL")
  {
    TextPairLtIsOrder();
    ClassifyGroups(rows, StateDistrict, CoercedCount, TextPairLt)
  }

  /** Every distinct (state, district) is in exactly one of HIGH, PONTENTIAL and LOW. */
  lemma PontentialAreaPartition(rows: seq<TransRow>)
    ensures var cs := CategoryColumn(PontentialAreaOf(rows));
            CountOf(cs, High) + CountOf(cs, Potential) + CountOf(cs, Low) == |KeySet(rows, StateDistrict)|
  {
    TextPairLtIsOrder();
    ClassifyGroupsPartition(rows, StateDistrict, CoercedCount, TextPairLt);
    assert PontentialAreaOf(rows) == ClassifyGroups(rows, StateDistrict, CoercedCount, TextPairLt);
  }

  /** A table without districts has no category column to fill; otherwise some district is not HIGH. */
  lemma PontentialAreaNotAllHigh(rows: seq<TransRow>)
    requires |rows| > 0
    ensures exists t :: 0 <= t < |PontentialAreaOf(rows)| && PontentialAreaOf(rows)[t].category != High
  {
    TextPairLtIsOrder();
    ClassifyGroupsNotAllHigh(rows, StateDistrict, CoercedCount, TextPairLt);
    var r := ClassifyGroups(rows, StateDistrict, CoercedCount, TextPairLt);
    assert PontentialAreaOf(rows) == r;
    var t :| 0 <= t < |r| && r[t].category != High;
  }

  /**
   * `find_potential[find_potential['state_name'].isin(state_potential)]`:
   * the districts of the selected states, in the classified order.
   */
  function StatePotential(r: seq<Classified<(string, string)>>, states: set<string>): (s: seq<Classified<(string, string)>>)
    ensures forall x :: x in s <==> x in r && x.key.0 in states
    ensures IsSubsequence(s, r)
    ensures SortedDesc(r, ClassifiedTotal) ==> SortedDesc(s, ClassifiedTotal)
  {
    var keep := (x: Classified<(string, string)>) => x.key.0 in states;
    FilterInOrder(r, keep);
    SubsequenceSortedDesc(Filter(r, keep), r, ClassifiedTotal);
    Filter(r, keep)
  }

  // ---------------------------------------------------------------------
  // The table object
  // ---------------------------------------------------------------------

  /** `pt_df`: the table the page reads once and its functions rewrite in place. */
  class TransactionFrame {
    var rows: seq<TransRow>

    constructor(rows0: seq<TransRow>)
      ensures rows == rows0
    {
      rows := rows0;
    }

    /** Lines 57-58 rewrite the year and quarter columns as text, then the maxima are taken. */
    method MaxTransEveryYearQuarter() returns (r: Result<seq<TransRow>, TransError>)
      modifies this
      ensures rows == YearsAsText(old(rows))
      ensures r == MaxTrans(rows)
    {
      rows := YearsAsText(rows);
      r := MaxTrans(rows);
    }

    /** The same rewrite, then the minima. */
    method MinTransEveryYearQuarter() returns (r: Result<seq<TransRow>, TransError>)
      modifies this
      ensures rows == YearsAsText(old(rows))
      ensures r == MinTrans(rows)
    {
      rows := YearsAsText(rows);
      r := MinTrans(rows);
    }

    /** The count column is coerced in place, then the districts are classified. */
    method PontentialArea() returns (r: seq<Classified<(string, string)>>)
      modifies this
      ensures rows == Coerced(old(rows))
      ensures r == PontentialAreaOf(rows)
    {
      rows := Coerced(rows);
      r := PontentialAreaOf(rows);
    }
  }

  /**
   * The module-level run of the page on the table it read: the maxima;
   * then the minima on the table the first call already converted; then
   * the classification on the converted table. An exception of the first
   * reduction stops the script, so nothing after it is computed (None).
   * When the maxima exist no count is text, and the coercion changes nothing.
   */
  method TransactionPage(table: seq<TransRow>)
    returns (maxima: Result<seq<TransRow>, TransError>, minima: Option<seq<TransRow>>,
             potential: Option<seq<Classified<(string, string)>>>)
    ensures maxima == MaxTrans(YearsAsText(table))
    ensures minima.None? <==> maxima.Failure?
    ensures potential.None? <==> maxima.Failure?
    ensures minima.Some? ==> MinTrans(YearsAsText(table)) == Success(minima.value)
    ensures potential.Some? ==> Coerced(YearsAsText(table)) == YearsAsText(table)
    ensures potential.Some? ==> potential.value == PontentialAreaOf(YearsAsText(table))
  {
    var frame := new TransactionFrame(table);
    maxima := frame.MaxTransEveryYearQuarter();
    if maxima.Failure? {
      return maxima, None, None;
    }
    YearsAsTextKeepsKeys(table);
    var m := frame.MinTransEveryYearQuarter();
    assert m.Success?;
    minima := Some(m.value);
    CoercedNoText(frame.rows);
    var p := frame.PontentialArea();
    potential := Some(p);
  }
}
