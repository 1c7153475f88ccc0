/**
 * The user page: registered users and app opens per state, year and
 * quarter; the best and worst state of every quarter, the yearly growth
 * and the High / Potential / Low engagement classification.
 */
module UserDashboard {
  import opened Wrappers
  import opened Orders
  import opened Tables
  import opened Categories
  import Text

  /** One row of the user table. */
  datatype UserRow = UserRow(year: int, quarter: int, state: string, regUser: int, appOpens: int)

  function Year(r: UserRow): int { r.year }
  function State(r: UserRow): string { r.state }
  function RegUser(r: UserRow): int { r.regUser }
  function AppOpens(r: UserRow): int { r.appOpens }
  function YearQuarter(r: UserRow): (int, int) { (r.year, r.quarter) }

  /** The grouping key after `astype(str)` of `user_year` and `quarter`. */
  function YearQuarterText(r: UserRow): (string, string) { (Text.IntToString(r.year), Text.IntToString(r.quarter)) }

  /** The year column after `astype(str)`. */
  function YearText(r: UserRow): string { Text.IntToString(r.year) }

  /** The sidebar mask of `main`: year and state are each selected. */
  function Selection(years: set<int>, states: set<string>): UserRow -> bool
  {
    (r: UserRow) => r.year in years && r.state in states
  }

  /** The filtered table `main` shows. */
  function SelectUsers(rows: seq<UserRow>, years: set<int>, states: set<string>): (r: seq<UserRow>)
    ensures forall x :: x in r <==> x in rows && x.year in years && x.state in states
    ensures forall x :: multiset(r)[x] == if x.year in years && x.state in states then multiset(rows)[x] else 0
    ensures IsSubsequence(r, rows)
  {
    FilterInOrder(rows, Selection(years, states));
    FilterCount(rows, Selection(years, states));
    Filter(rows, Selection(years, states))
  }

  /** Selecting every year and state that occurs keeps the whole table. */
  lemma SelectEverything(rows: seq<UserRow>, years: set<int>, states: set<string>)
    requires forall x :: x in rows ==> x.year in years && x.state in states
    ensures SelectUsers(rows, years, states) == rows
  {
    FilterAll(rows, Selection(years, states));
  }


  /**
   * The body shared by `max_user_every_year_quarter` (Largest) and
   * `min_user_every_year_quarter` (Smallest): None for an empty table,
   * otherwise the idxmax/idxmin row of every (year, quarter) in the
   * order of the string keys.
   */
  function ExtremeUsers(rows: seq<UserRow>, e: Extreme): (o: Option<seq<UserRow>>)
    ensures o.None? <==> |rows| == 0
    ensures o.Some? ==> SortedByKey(o.value, YearQuarterText, TextPairLt)
    ensures o.Some? ==> OnePerGroup(o.value, YearQuarter, rows, YearQuarter)
    ensures o.Some? ==> forall x :: x in o.value ==> FirstExtremeRow(rows, YearQuarterText, AllValid, RegUser, e, x)
    ensures o.Some? ==> forall x, y :: x in o.value && y in rows && y.year == x.year && y.quarter == x.quarter ==>
              x in rows && !Beats(e, y.regUser, x.regUser)
  {
    if |rows| == 0 then None
    else
      TextPairLtIsOrder();
      var r := ExtremePerGroup(rows, YearQuarterText, RegUser, e, TextPairLt);
      SameQuarterSameText(r, rows);
      assert forall x, y :: x in r && y in rows && y.year == x.year && y.quarter == x.quarter ==> x in rows && !Beats(e, y.regUser, x.regUser) by {
        forall x, y | x in r && y in rows && y.year == x.year && y.quarter == x.quarter
          ensures x in rows && !Beats(e, y.regUser, x.regUser)
        {
          FirstExtremeRowFacts(rows, YearQuarterText, AllValid, RegUser, e, x);
          assert YearQuarterText(y) == YearQuarterText(x) && AllValid(y);
        }
      }
      Some(r)
  }

  /** Grouping by the string keys groups exactly as grouping by the numbers. */
  lemma SameQuarterSameText(s: seq<UserRow>, rows: seq<UserRow>)
    requires OnePerGroup(s, YearQuarterText, rows, YearQuarterText)
    ensures OnePerGroup(s, YearQuarter, rows, YearQuarter)
  {
    forall a: UserRow, b: UserRow
      ensures YearQuarterText(a) == YearQuarterText(b) <==> YearQuarter(a) == YearQuarter(b)
    {
      if YearQuarterText(a) == YearQuarterText(b) {
        Text.IntToStringInjective(a.year, b.year);
        Text.IntToStringInjective(a.quarter, b.quarter);
      }
    }
    OnePerGroupRekey(s, YearQuarterText, YearQuarter, rows, YearQuarterText, YearQuarter);
  }

  /** `max_user_every_year_quarter`: each row's users bound its quarter from above; the first such row wins a tie. */
  function MaxUserEveryYearQuarter(rows: seq<UserRow>): (o: Option<seq<UserRow>>)
    ensures o.None? <==> |rows| == 0
    ensures o.Some? ==> SortedByKey(o.value, YearQuarterText, TextPairLt)
    ensures o.Some? ==> OnePerGroup(o.value, YearQuarter, rows, YearQuarter)
    ensures o.Some? ==> forall x :: x in o.value ==> FirstExtremeRow(rows, YearQuarterText, AllValid, RegUser, Largest, x)
    ensures o.Some? ==> forall x, y :: x in o.value && y in rows && y.year == x.year && y.quarter == x.quarter ==>
              x in rows && y.regUser <= x.regUser
  {
    ExtremeUsers(rows, Largest)
  }

  /** `min_user_every_year_quarter`: each row's users bound its quarter from below; the first such row wins a tie. */
  function MinUserEveryYearQuarter(rows: seq<UserRow>): (o: Option<seq<UserRow>>)
    ensures o.None? <==> |rows| == 0
    ensures o.Some? ==> SortedByKey(o.value, YearQuarterText, TextPairLt)
    ensures o.Some? ==> OnePerGroup(o.value, YearQuarter, rows, YearQuarter)
    ensures o.Some? ==> forall x :: x in o.value ==> FirstExtremeRow(rows, YearQuarterText, AllValid, RegUser, Smallest, x)
    ensures o.Some? ==> forall x, y :: x in o.value && y in rows && y.year == x.year && y.quarter == x.quarter ==>
              x in rows && y.regUser >= x.regUser
  {
    ExtremeUsers(rows, Smallest)
  }

  /** A calendar year and quarter as the data holds them: four-digit years, one-digit quarters. */
  predicate Calendar(r: UserRow) { 1000 <= r.year <= 9999 && 0 <= r.quarter <= 9 }

  /**
   * With calendar years and quarters the string order of the sort is the
   * chronological one.
   */
  lemma TextOrderIsChronological(a: UserRow, b: UserRow)
    requires Calendar(a) && Calendar(b)
    ensures TextPairLt(YearQuarterText(a), YearQuarterText(b)) <==> PairLt(IntLt, IntLt)(YearQuarter(a), YearQuarter(b))
  {
    Text.FourDigits(a.year);
    Text.FourDigits(b.year);
    assert |Text.IntToString(a.quarter)| == 1 == |Text.IntToString(b.quarter)|;
    Text.SameWidthOrder(a.year, b.year);
    Text.SameWidthOrder(a.quarter, b.quarter);
    var ya, yb := Text.IntToString(a.year), Text.IntToString(b.year);
    assert ya == yb <==> a.year == b.year by {
      if ya == yb {
        Text.IntToStringInjective(a.year, b.year);
      }
    }
    assert TextPairLt(YearQuarterText(a), YearQuarterText(b))
        <==> Text.StrLt(ya, yb) || (ya == yb && Text.StrLt(Text.IntToString(a.quarter), Text.IntToString(b.quarter)));
    assert YearQuarter(a) == (a.year, a.quarter) && YearQuarter(b) == (b.year, b.quarter);
    assert PairLt(IntLt, IntLt)(YearQuarter(a), YearQuarter(b)) <==> IntLt(a.year, b.year) || (a.year == b.year && IntLt(a.quarter, b.quarter));
  }

  /** The max and min tables of calendar data run in chronological order. */
  lemma ExtremeUsersChronological(rows: seq<UserRow>, e: Extreme)
    requires |rows| > 0 && forall x :: x in rows ==> Calendar(x)
    ensures SortedByKey(ExtremeUsers(rows, e).value, YearQuarter, PairLt(IntLt, IntLt))
  {
    var r := ExtremeUsers(rows, e).value;
    forall t, u | 0 <= t < u < |r|
      ensures PairLt(IntLt, IntLt)(YearQuarter(r[t]), YearQuarter(r[u]))
    {
      FirstExtremeRowFacts(rows, YearQuarterText, AllValid, RegUser, e, r[t]);
      FirstExtremeRowFacts(rows, YearQuarterText, AllValid, RegUser, e, r[u]);
      TextOrderIsChronological(r[t], r[u]);
    }
  }

  /**
   * `user_growth_over_time`: registered users summed per year (as a
   * string key), one row per year, adding up to the column total.
   */
  function UserGrowthOverTime(rows: seq<UserRow>): (r: seq<Total<string>>)
    ensures SortedByKey(r, TotalKey, Text.StrLt)
    ensures OnePerGroup(r, TotalKey, rows, YearText)
    ensures forall t :: 0 <= t < |r| ==> r[t].total == SumWhere(rows, YearText, r[t].key, RegUser)
    ensures Sum(r, TotalOf) == Sum(rows, RegUser)
  {
    StrLtIsOrder();
    GroupSumOnePerGroup(rows, YearText, RegUser, Text.StrLt);
    GroupSumConserves(rows, YearText, RegUser, Text.StrLt);
    GroupSum(rows, YearText, RegUser, Text.StrLt)
  }

  /** The total of one year is the sum over the rows of that year. */
  lemma {:induction false} YearTotalIsYearSum(rows: seq<UserRow>, year: int)
    ensures SumWhere(rows, YearText, Text.IntToString(year), RegUser) == SumWhere(rows, Year, year, RegUser)
  {
    if |rows| > 0 {
      var n := |rows| - 1;
      YearTotalIsYearSum(rows[..n], year);
      if YearText(rows[n]) == Text.IntToString(year) {
        Text.IntToStringInjective(rows[n].year, year);
      }
    }
  }

  /** One row of `potential_area`'s result. */
  datatype Engagement = Engagement(state: string, appOpens: int, regUser: int, openPerUser: real, category: Category)

  function EngagementState(g: Engagement): string { g.state }

  /** The `open_per_user` column. */
  function OpenPerUserColumn(r: seq<Engagement>): (vs: seq<real>)
    ensures |vs| == |r| && forall t :: 0 <= t < |r| ==> vs[t] == r[t].openPerUser
  {
    seq(|r|, t requires 0 <= t < |r| => r[t].openPerUser)
  }

  /**
   * `potential_area`: app opens and registered users summed per state (in
   * state order), `open_per_user` computed by `ratio` from the two sums,
   * and every state classified with `>=` against the mean `open_per_user`.
   */
  function PotentialArea(rows: seq<UserRow>, ratio: (int, int) -> real): (r: seq<Engagement>)
    ensures SortedByKey(r, EngagementState, Text.StrLt)
    ensures OnePerGroup(r, EngagementState, rows, State)
    ensures forall t :: 0 <= t < |r| ==>
              r[t].appOpens == SumWhere(rows, State, r[t].state, AppOpens) && r[t].regUser == SumWhere(rows, State, r[t].state, RegUser)
    ensures forall t :: 0 <= t < |r| ==> r[t].openPerUser == ratio(r[t].appOpens, r[t].regUser)
    ensures forall t :: 0 <= t < |r| ==> r[t].category == ClassifyAtLeast(r[t].openPerUser, Mean(OpenPerUserColumn(r)))
  {
    StrLtIsOrder();
    var ks := GroupKeys(rows, State, Text.StrLt);
    var sums := seq(|ks|, t requires 0 <= t < |ks| =>
                  (SumWhere(rows, State, ks[t], AppOpens), SumWhere(rows, State, ks[t], RegUser)));
    var vs := seq(|ks|, t requires 0 <= t < |ks| => ratio(sums[t].0, sums[t].1));
    var avg := if |vs| == 0 then 0.0 else Mean(vs);
    var r := seq(|ks|, t requires 0 <= t < |ks| =>
               Engagement(ks[t], sums[t].0, sums[t].1, vs[t], ClassifyAtLeast(vs[t], avg)));
    assert OpenPerUserColumn(r) == vs;
    assert OnePerGroup(r, EngagementState, rows, State) by {
      forall t | 0 <= t < |r|
        ensures HasKey(rows, State, EngagementState(r[t]))
      {
        assert ks[t] in ks;
      }
      forall i | 0 <= i < |rows|
        ensures KeyPresent(r, EngagementState, State(rows[i]))
      {
        assert HasKey(rows, State, State(rows[i]));
        var t :| 0 <= t < |ks| && ks[t] == State(rows[i]);
        assert EngagementState(r[t]) == State(rows[i]);
      }
      forall t, u | 0 <= t < u < |r|
        ensures EngagementState(r[t]) != EngagementState(r[u])
      {
        assert Text.StrLt(ks[t], ks[u]);
      }
    }
    r
  }

  /** Some state always reaches High: the largest `open_per_user` is at least the mean. */
  lemma PotentialAreaHasHigh(rows: seq<UserRow>, ratio: (int, int) -> real)
    requires |rows| > 0
    ensures exists t :: 0 <= t < |PotentialArea(rows, ratio)| && PotentialArea(rows, ratio)[t].category == High
  {
    var r := PotentialArea(rows, ratio);
    assert KeyPresent(r, EngagementState, State(rows[0]));
    var i := AtLeastHasHigh(OpenPerUserColumn(r));
    assert r[i].category == High;
  }

  /** `category_value` of the choropleth: the colour map applied to each state's category. */
  function ChoroplethValues(r: seq<Engagement>): (v: seq<int>)
    ensures |v| == |r|
    ensures forall t :: 0 <= t < |r| ==> TitleLabel(r[t].category) in ColorMap && v[t] == ColorMap[TitleLabel(r[t].category)]
  {
    seq(|r|, t requires 0 <= t < |r| => CategoryValue(r[t].category))
  }

  /** A state with more opens per user never gets a lower colour value. */
  lemma ChoroplethValuesMonotone(rows: seq<UserRow>, ratio: (int, int) -> real, t: nat, u: nat)
    requires t < |PotentialArea(rows, ratio)| && u < |PotentialArea(rows, ratio)|
    requires PotentialArea(rows, ratio)[t].openPerUser <= PotentialArea(rows, ratio)[u].openPerUser
    ensures ChoroplethValues(PotentialArea(rows, ratio))[t] <= ChoroplethValues(PotentialArea(rows, ratio))[u]
  {
    var r := PotentialArea(rows, ratio);
    AtLeastMonotone(r[t].openPerUser, r[u].openPerUser, Mean(OpenPerUserColumn(r)));
  }
}
