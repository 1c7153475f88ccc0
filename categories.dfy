/**
 * The mean-threshold classifier the dashboards use to label groups: a
 * group's value is compared with the mean of all groups' values and with
 * half of that mean. The mean is exact (a `real`).
 */
module Categories {
  import opened Orders
  import opened Tables

  datatype Category = High | Potential | Low

  /** The order of the categories, Low lowest. */
  function Rank(c: Category): nat
  {
    match c
    case Low => 0
    case Potential => 1
    case High => 2
  }

  function RealSum(vs: seq<real>): real
  {
    if |vs| == 0 then 0.0 else RealSum(vs[..|vs| - 1]) + vs[|vs| - 1]
  }

  /** Arithmetic mean, as `Series.mean()` computes it for a non-empty series. */
  function Mean(vs: seq<real>): (avg: real)
    requires |vs| > 0
    ensures avg * (|vs| as real) == RealSum(vs)
  {
    RealSum(vs) / (|vs| as real)
  }

  /**
   * The `>` variant: HIGH above the mean, LOW below half the mean (and not
   * above the mean), POTENTIAL in between.
   */
  function ClassifyStrict(v: real, avg: real): (c: Category)
    ensures c == High <==> v > avg
    ensures c == Low <==> v <= avg && v < avg * 0.5
    ensures c == Potential <==> avg * 0.5 <= v <= avg
  {
    if v > avg then High
    else if v < avg * 0.5 then Low
    else Potential
  }

  /**
   * The `>=` variant: High from the mean up, Potential from half the mean
   * up, Low below.
   */
  function ClassifyAtLeast(v: real, avg: real): (c: Category)
    ensures c == High <==> v >= avg
    ensures c == Potential <==> v < avg && v >= avg * 0.5
    ensures c == Low <==> v < avg && v < avg * 0.5
  {
    if v >= avg then High
    else if v >= avg * 0.5 then Potential
    else Low
  }

  /** For a fixed mean, a larger value never gets a lower category. */
  lemma StrictMonotone(v1: real, v2: real, avg: real)
    requires v1 <= v2
    ensures Rank(ClassifyStrict(v1, avg)) <= Rank(ClassifyStrict(v2, avg))
  {
  }

  lemma AtLeastMonotone(v1: real, v2: real, avg: real)
    requires v1 <= v2
    ensures Rank(ClassifyAtLeast(v1, avg)) <= Rank(ClassifyAtLeast(v2, avg))
  {
  }

  lemma {:induction false} RealSumBelow(vs: seq<real>, c: real)
    requires forall i :: 0 <= i < |vs| ==> vs[i] < c
    ensures |vs| > 0 ==> RealSum(vs) < (|vs| as real) * c
  {
    if |vs| > 1 {
      RealSumBelow(vs[..|vs| - 1], c);
    } else if |vs| == 1 {
      assert vs[..0] == [];
    }
  }

  lemma {:induction false} RealSumAbove(vs: seq<real>, c: real)
    requires forall i :: 0 <= i < |vs| ==> vs[i] > c
    ensures |vs| > 0 ==> RealSum(vs) > (|vs| as real) * c
  {
    if |vs| > 1 {
      RealSumAbove(vs[..|vs| - 1], c);
    } else if |vs| == 1 {
      assert vs[..0] == [];
    }
  }

  /** Some value reaches the mean. */
  lemma SomeAtLeastMean(vs: seq<real>) returns (i: nat)
    requires |vs| > 0
    ensures i < |vs| && vs[i] >= Mean(vs)
  {
    var avg := Mean(vs);
    if forall j :: 0 <= j < |vs| ==> vs[j] < avg {
      RealSumBelow(vs, avg);
      assert false;
    }
    i :| 0 <= i < |vs| && vs[i] >= avg;
  }

  /** Some value does not exceed the mean. */
  lemma SomeAtMostMean(vs: seq<real>) returns (i: nat)
    requires |vs| > 0
    ensures i < |vs| && vs[i] <= Mean(vs)
  {
    var avg := Mean(vs);
    if forall j :: 0 <= j < |vs| ==> vs[j] > avg {
      RealSumAbove(vs, avg);
      assert false;
    }
    i :| 0 <= i < |vs| && vs[i] <= avg;
  }

  /** With the `>=` classifier, some group is always High. */
  lemma AtLeastHasHigh(vs: seq<real>) returns (i: nat)
    requires |vs| > 0
    ensures i < |vs| && ClassifyAtLeast(vs[i], Mean(vs)) == High
  {
    i := SomeAtLeastMean(vs);
  }

  /** With the `>` classifier, not every group can be HIGH. */
  lemma StrictHasNonHigh(vs: seq<real>) returns (i: nat)
    requires |vs| > 0
    ensures i < |vs| && ClassifyStrict(vs[i], Mean(vs)) != High
  {
    i := SomeAtMostMean(vs);
  }

  lemma {:induction false} RealSumNonNegative(vs: seq<real>)
    requires forall i :: 0 <= i < |vs| ==> vs[i] >= 0.0
    ensures RealSum(vs) >= 0.0
  {
    if |vs| > 0 {
      RealSumNonNegative(vs[..|vs| - 1]);
    }
  }

  /** With non-negative totals, not every group can be LOW under the `>` classifier. */
  lemma StrictNonNegativeHasNonLow(vs: seq<real>) returns (i: nat)
    requires |vs| > 0
    requires forall j :: 0 <= j < |vs| ==> vs[j] >= 0.0
    ensures i < |vs| && ClassifyStrict(vs[i], Mean(vs)) != Low
  {
    RealSumNonNegative(vs);
    i := SomeAtLeastMean(vs);
  }

  lemma {:induction false} RealSumUpdate(vs: seq<real>, i: nat, x: real)
    requires i < |vs|
    ensures RealSum(vs[i := x]) == RealSum(vs) - vs[i] + x
  {
    var n := |vs| - 1;
    if i < n {
      RealSumUpdate(vs[..n], i, x);
      assert vs[i := x][..n] == vs[..n][i := x];
    } else {
      assert vs[i := x][..n] == vs[..n];
    }
  }

  /** Raising one value by `d` raises the mean by `d / n`. */
  lemma MeanUpdate(vs: seq<real>, i: nat, d: real)
    requires i < |vs|
    ensures Mean(vs[i := vs[i] + d]) == Mean(vs) + d / (|vs| as real)
  {
    RealSumUpdate(vs, i, vs[i] + d);
  }

  /** A share of a non-negative amount among at least one group is at most the amount. */
  lemma ShareAtMost(d: real, n: real)
    requires d >= 0.0 && n >= 1.0
    ensures d / n <= d
  {
    var q := d / n;
    assert q >= 0.0;
    assert q * (n - 1.0) >= 0.0;
    assert q * (n - 1.0) == d - q;
  }

  /**
   * Raising one group's value, with the mean recomputed from all groups,
   * never lowers that group's category: the mean moves by only d/n.
   */
  lemma StrictRaiseNeverLowers(vs: seq<real>, i: nat, d: real)
    requires i < |vs| && d >= 0.0
    ensures Rank(ClassifyStrict(vs[i], Mean(vs))) <= Rank(ClassifyStrict(vs[i] + d, Mean(vs[i := vs[i] + d])))
  {
    var n := |vs| as real;
    MeanUpdate(vs, i, d);
    ShareAtMost(d, n);
  }

  lemma AtLeastRaiseNeverLowers(vs: seq<real>, i: nat, d: real)
    requires i < |vs| && d >= 0.0
    ensures Rank(ClassifyAtLeast(vs[i], Mean(vs))) <= Rank(ClassifyAtLeast(vs[i] + d, Mean(vs[i := vs[i] + d])))
  {
    var n := |vs| as real;
    MeanUpdate(vs, i, d);
    ShareAtMost(d, n);
  }

  /**
   * Totals 100, 400 and 50 have mean 550/3: 400 is HIGH, 100 is POTENTIAL
   * (at least half the mean) and 50 is LOW.
   */
  lemma ThreeStateExample()
    ensures Mean([100.0, 400.0, 50.0]) == 550.0 / 3.0
    ensures ClassifyStrict(100.0, 550.0 / 3.0) == Potential
    ensures ClassifyStrict(400.0, 550.0 / 3.0) == High
    ensures ClassifyStrict(50.0, 550.0 / 3.0) == Low
  {
    var vs := [100.0, 400.0, 50.0];
    assert vs[..2] == [100.0, 400.0];
    assert vs[..2][..1] == [100.0];
    assert vs[..2][..1][..0] == [];
    assert RealSum([100.0]) == 100.0;
    assert RealSum([100.0, 400.0]) == 500.0;
    assert RealSum(vs) == 550.0;
  }

  function CountOf(cs: seq<Category>, c: Category): nat
  {
    if |cs| == 0 then 0 else CountOf(cs[..|cs| - 1], c) + (if cs[|cs| - 1] == c then 1 else 0)
  }

  /** Every entry of a category column is exactly one of the three categories. */
  lemma {:induction false} CategoriesPartition(cs: seq<Category>)
    ensures CountOf(cs, High) + CountOf(cs, Potential) + CountOf(cs, Low) == |cs|
  {
    if |cs| > 0 {
      CategoriesPartition(cs[..|cs| - 1]);
    }
  }

  /** The category names after `.str.title()`, as the choropleth colour map spells them. */
  function TitleLabel(c: Category): string
  {
    match c
    case High => "High"
    case Potential => "Potential"
    case Low => "Low"
  }

  const ColorMap: map<string, int> := map["Low" := 0, "Potential" := 1, "High" := 2]

  /** `category_value`: the colour map applied to the title-cased category. */
  function CategoryValue(c: Category): (v: int)
    ensures TitleLabel(c) in ColorMap
    ensures v == Rank(c)
  {
    ColorMap[TitleLabel(c)]
  }

  // ---------------------------------------------------------------------
  // Classifying grouped totals against their mean (strict variant)
  // ---------------------------------------------------------------------

  /** A group with its total and its category. */
  datatype Classified<K> = Classified(key: K, total: int, category: Category)

  function ClassifiedKey<K>(c: Classified<K>): K { c.key }
  function ClassifiedTotal<K>(c: Classified<K>): int { c.total }

  /** The group totals as exact numbers. */
  function TotalValues<K>(g: seq<Total<K>>): (vs: seq<real>)
    ensures |vs| == |g| && forall t :: 0 <= t < |g| ==> vs[t] == g[t].total as real
  {
    seq(|g|, t requires 0 <= t < |g| => g[t].total as real)
  }

  /**
   * `total.mean()` over the group totals of `df.groupby(key)[m].sum()`.
   * pandas gives NaN for a table without groups; nothing is classified in
   * that case, and the model uses 0.
   */
  function GroupMean<R, K(==,!new)>(rows: seq<R>, key: R -> K, m: R -> int, lt: (K, K) -> bool): (avg: real)
    requires StrictTotalOrder(lt)
    ensures |KeySet(rows, key)| == 0 ==> avg == 0.0
    ensures |KeySet(rows, key)| > 0 ==> avg * (|KeySet(rows, key)| as real) == Sum(rows, m) as real
  {
    var g := GroupSum(rows, key, m, lt);
    GroupCountAndSum(rows, key, m, lt);
    if |g| == 0 then 0.0 else Mean(TotalValues(g))
  }

  /** There is one group total per distinct key, and their exact sum is the column total. */
  lemma GroupCountAndSum<R, K(!new)>(rows: seq<R>, key: R -> K, m: R -> int, lt: (K, K) -> bool)
    requires StrictTotalOrder(lt)
    ensures |TotalValues(GroupSum(rows, key, m, lt))| == |KeySet(rows, key)|
    ensures RealSum(TotalValues(GroupSum(rows, key, m, lt))) == Sum(rows, m) as real
  {
    var g := GroupSum(rows, key, m, lt);
    GroupSumOnePerGroup(rows, key, m, lt);
    OnePerGroupCard(g, TotalKey, rows, key);
    GroupSumConserves(rows, key, m, lt);
    RealSumTotals(g);
  }

  /** The exact sum of the group totals is their integer sum. */
  lemma {:induction false} RealSumTotals<K>(g: seq<Total<K>>)
    ensures RealSum(TotalValues(g)) == Sum(g, TotalOf) as real
  {
    if |g| > 0 {
      var n := |g| - 1;
      RealSumTotals(g[..n]);
      assert TotalValues(g)[..n] == TotalValues(g[..n]);
    }
  }

  /** `result['category'] = result[m].apply(classify)` on the grouped totals. */
  function ClassifyTotals<K>(g: seq<Total<K>>, avg: real): (r: seq<Classified<K>>)
    ensures |r| == |g|
    ensures forall t :: 0 <= t < |g| ==> r[t].key == g[t].key && r[t].total == g[t].total
    ensures forall t :: 0 <= t < |g| ==> r[t].category == ClassifyStrict(g[t].total as real, avg)
  {
    seq(|g|, t requires 0 <= t < |g| => Classified(g[t].key, g[t].total, ClassifyStrict(g[t].total as real, avg)))
  }

  /**
   * Group totals classified against the mean of all group totals, largest
   * total first: the shape of both strict classifiers' results.
   */
  function ClassifyGroups<R, K(==,!new)>(rows: seq<R>, key: R -> K, m: R -> int, lt: (K, K) -> bool): (r: seq<Classified<K>>)
    requires StrictTotalOrder(lt)
    ensures SortedDesc(r, ClassifiedTotal)
    ensures OnePerGroup(r, ClassifiedKey, rows, key)
    ensures forall t :: 0 <= t < |r| ==> r[t].total == SumWhere(rows, key, r[t].key, m)
    ensures forall t :: 0 <= t < |r| ==> r[t].category == ClassifyStrict(r[t].total as real, GroupMean(rows, key, m, lt))
  {
    var g := GroupSum(rows, key, m, lt);
    var c := ClassifyTotals(g, GroupMean(rows, key, m, lt));
    var r := SortDesc(c, ClassifiedTotal);
    GroupSumOnePerGroup(rows, key, m, lt);
    OnePerGroupMap(g, TotalKey, c, ClassifiedKey, rows, key);
    OnePerGroupPermutation(c, r, ClassifiedKey, rows, key);
    assert forall t :: 0 <= t < |r| ==>
             (r[t].total == SumWhere(rows, key, r[t].key, m) && r[t].category == ClassifyStrict(r[t].total as real, GroupMean(rows, key, m, lt))) by {
      forall t | 0 <= t < |r|
        ensures r[t].total == SumWhere(rows, key, r[t].key, m)
        ensures r[t].category == ClassifyStrict(r[t].total as real, GroupMean(rows, key, m, lt))
      {
        assert r[t] in multiset(c);
        var u :| 0 <= u < |c| && c[u] == r[t];
      }
    }
    r
  }

  /** The `category` column of a classified table. */
  function CategoryColumn<K>(r: seq<Classified<K>>): (cs: seq<Category>)
    ensures |cs| == |r| && forall t :: 0 <= t < |r| ==> cs[t] == r[t].category
  {
    seq(|r|, t requires 0 <= t < |r| => r[t].category)
  }

  /** The HIGH, POTENTIAL and LOW groups together are the distinct groups of the table, each once. */
  lemma ClassifyGroupsPartition<R, K(!new)>(rows: seq<R>, key: R -> K, m: R -> int, lt: (K, K) -> bool)
    requires StrictTotalOrder(lt)
    ensures var cs := CategoryColumn(ClassifyGroups(rows, key, m, lt));
            CountOf(cs, High) + CountOf(cs, Potential) + CountOf(cs, Low) == |KeySet(rows, key)|
  {
    var r := ClassifyGroups(rows, key, m, lt);
    CategoriesPartition(CategoryColumn(r));
    OnePerGroupCard(r, ClassifiedKey, rows, key);
  }

  /**
   * A non-empty table has at least one group that is not HIGH: no group
   * total can lie above the mean of them all.
   */
  lemma ClassifyGroupsNotAllHigh<R, K(!new)>(rows: seq<R>, key: R -> K, m: R -> int, lt: (K, K) -> bool)
    requires StrictTotalOrder(lt) && |rows| > 0
    ensures exists t :: 0 <= t < |ClassifyGroups(rows, key, m, lt)| && ClassifyGroups(rows, key, m, lt)[t].category != High
  {
    var g := GroupSum(rows, key, m, lt);
    var r := ClassifyGroups(rows, key, m, lt);
    assert HasKey(rows, key, key(rows[0]));
    var vs := TotalValues(g);
    var u := StrictHasNonHigh(vs);
    assert ClassifyStrict(g[u].total as real, GroupMean(rows, key, m, lt)) != High;
    assert multiset(r) == multiset(ClassifyTotals(g, GroupMean(rows, key, m, lt)));
    var c := ClassifyTotals(g, GroupMean(rows, key, m, lt));
    assert c[u] in multiset(r);
    var t :| 0 <= t < |r| && r[t] == c[u];
  }
}
