/**
 * The table reductions every dashboard page applies to the rows it loaded:
 * boolean-mask filtering, sums, `groupby(...).sum()`, the row index of the
 * per-group maximum or minimum (`idxmax` / `idxmin`) and descending
 * `sort_values`. A table is a sequence of rows; a group key and a measure
 * are functions of a row.
 */
module Tables {
  import opened Wrappers
  import opened Orders

  // ---------------------------------------------------------------------
  // Filtering: df[mask]
  // ---------------------------------------------------------------------

  /** `r` is `rows` read at strictly increasing positions `idx`. */
  ghost predicate SubsequenceAt<R>(r: seq<R>, rows: seq<R>, idx: seq<nat>)
  {
    && |idx| == |r|
    && (forall j :: 0 <= j < |idx| ==> idx[j] < |rows| && r[j] == rows[idx[j]])
    && (forall j, l :: 0 <= j < l < |idx| ==> idx[j] < idx[l])
  }

  /** `r` keeps some of the rows of `rows`, in their original order. */
  ghost predicate IsSubsequence<R>(r: seq<R>, rows: seq<R>)
  {
    exists idx :: SubsequenceAt(r, rows, idx)
  }

  /** The rows that satisfy `keep` (see FilterInOrder for their order). */
  function Filter<R(!new)>(rows: seq<R>, keep: R -> bool): (r: seq<R>)
    ensures |r| <= |rows|
    ensures forall x :: x in r <==> x in rows && keep(x)
  {
    if |rows| == 0 then []
    else
      var n := |rows| - 1;
      assert rows == rows[..n] + [rows[n]];
      Filter(rows[..n], keep) + (if keep(rows[n]) then [rows[n]] else [])
  }

  /** Each kept row appears as often as in the input, each rejected row not at all. */
  lemma {:induction false} FilterCount<R(!new)>(rows: seq<R>, keep: R -> bool)
    ensures forall x :: multiset(Filter(rows, keep))[x] == if keep(x) then multiset(rows)[x] else 0
  {
    if |rows| > 0 {
      var n := |rows| - 1;
      FilterCount(rows[..n], keep);
      assert rows == rows[..n] + [rows[n]];
      assert multiset(rows) == multiset(rows[..n]) + multiset{rows[n]};
    }
  }

  /** The filtered rows keep their original order. */
  lemma {:induction false} FilterInOrder<R(!new)>(rows: seq<R>, keep: R -> bool)
    ensures IsSubsequence(Filter(rows, keep), rows)
  {
    if |rows| == 0 {
      assert SubsequenceAt([], rows, []);
    } else {
      var n := |rows| - 1;
      var front := Filter(rows[..n], keep);
      FilterInOrder(rows[..n], keep);
      var idx :| SubsequenceAt(front, rows[..n], idx);
      if keep(rows[n]) {
        var r, jdx := front + [rows[n]], idx + [n];
        forall j | 0 <= j < |jdx|
          ensures jdx[j] < |rows| && r[j] == rows[jdx[j]]
        {
          if j < |idx| {
            assert r[j] == front[j] && rows[..n][idx[j]] == rows[idx[j]];
          }
        }
        forall j, l | 0 <= j < l < |jdx|
          ensures jdx[j] < jdx[l]
        {
          if l == |idx| {
            assert jdx[j] == idx[j] < n;
          }
        }
        assert SubsequenceAt(r, rows, jdx);
        assert Filter(rows, keep) == r;
      } else {
        forall j | 0 <= j < |idx|
          ensures idx[j] < |rows| && front[j] == rows[idx[j]]
        {
          assert rows[..n][idx[j]] == rows[idx[j]];
        }
        assert SubsequenceAt(front, rows, idx);
        assert Filter(rows, keep) == front;
      }
    }
  }

  /** The measure with the rows outside the mask counted as 0. */
  function Masked<R>(keep: R -> bool, m: R -> int): R -> int
  {
    r => if keep(r) then m(r) else 0
  }

  /** A group total over the filtered table counts only the rows the mask keeps. */
  lemma {:induction false} SumWhereFilter<R(!new), K>(rows: seq<R>, keep: R -> bool, key: R -> K, k: K, m: R -> int)
    ensures SumWhere(Filter(rows, keep), key, k, m) == SumWhere(rows, key, k, Masked(keep, m))
  {
    if |rows| > 0 {
      var n := |rows| - 1;
      SumWhereFilter(rows[..n], keep, key, k, m);
      var front := Filter(rows[..n], keep);
      assert SumWhere(rows, key, k, Masked(keep, m))
          == SumWhere(rows[..n], key, k, Masked(keep, m)) + (if key(rows[n]) == k then Masked(keep, m)(rows[n]) else 0);
      if keep(rows[n]) {
        var r := front + [rows[n]];
        assert Filter(rows, keep) == r;
        assert r[..|front|] == front;
        assert SumWhere(r, key, k, m) == SumWhere(front, key, k, m) + (if key(rows[n]) == k then m(rows[n]) else 0);
      } else {
        assert Filter(rows, keep) == front;
      }
    }
  }

  /** A mask that holds for every row keeps the table unchanged. */
  lemma {:induction false} FilterAll<R(!new)>(rows: seq<R>, keep: R -> bool)
    requires forall i :: 0 <= i < |rows| ==> keep(rows[i])
    ensures Filter(rows, keep) == rows
  {
    if |rows| > 0 {
      var n := |rows| - 1;
      FilterAll(rows[..n], keep);
      assert keep(rows[n]);
      assert Filter(rows, keep) == rows[..n] + [rows[n]];
      assert rows == rows[..n] + [rows[n]];
    }
  }

  // ---------------------------------------------------------------------
  // Sums
  // ---------------------------------------------------------------------

  /** Column sum `df[m].sum()`. */
  function Sum<R>(rows: seq<R>, m: R -> int): int
  {
    if |rows| == 0 then 0 else Sum(rows[..|rows| - 1], m) + m(rows[|rows| - 1])
  }

  /** A column of plain numbers. */
  function Id(x: int): int { x }

  /** Two tables whose rows carry the same values, row for row, have the same column total. */
  lemma {:induction false} SumMap<G, H>(a: seq<G>, va: G -> int, b: seq<H>, vb: H -> int)
    requires |a| == |b| && forall t :: 0 <= t < |a| ==> vb(b[t]) == va(a[t])
    ensures Sum(b, vb) == Sum(a, va)
  {
    if |a| > 0 {
      var n := |a| - 1;
      SumMap(a[..n], va, b[..n], vb);
    }
  }

  /** Sum of `m` over the rows whose key is `k`. */
  function SumWhere<R, K(==)>(rows: seq<R>, key: R -> K, k: K, m: R -> int): int
  {
    if |rows| == 0 then 0
    else SumWhere(rows[..|rows| - 1], key, k, m) + (if key(rows[|rows| - 1]) == k then m(rows[|rows| - 1]) else 0)
  }

  /** Sum of `m` over the rows whose key is in `ks`. */
  function SumWhereIn<R, K>(rows: seq<R>, key: R -> K, ks: set<K>, m: R -> int): int
  {
    if |rows| == 0 then 0
    else SumWhereIn(rows[..|rows| - 1], key, ks, m) + (if key(rows[|rows| - 1]) in ks then m(rows[|rows| - 1]) else 0)
  }

  lemma {:induction false} SumConcat<R>(a: seq<R>, b: seq<R>, m: R -> int)
    ensures Sum(a + b, m) == Sum(a, m) + Sum(b, m)
  {
    if |b| > 0 {
      var n := |b| - 1;
      assert (a + b)[..|a + b| - 1] == a + b[..n];
      SumConcat(a, b[..n], m);
    } else {
      assert a + b == a;
    }
  }

  /** Reordering the rows does not change a column sum. */
  lemma {:induction false} SumPermutation<R>(a: seq<R>, b: seq<R>, m: R -> int)
    requires multiset(a) == multiset(b)
    ensures Sum(a, m) == Sum(b, m)
  {
    if |a| > 0 {
      var n := |a| - 1;
      var x := a[n];
      assert a == a[..n] + [x];
      assert x in multiset(b);
      var k :| 0 <= k < |b| && b[k] == x;
      assert b == b[..k] + [x] + b[k + 1..];
      var rest := b[..k] + b[k + 1..];
      assert multiset(b) == multiset(b[..k]) + multiset{x} + multiset(b[k + 1..]);
      assert multiset(rest) == multiset(b[..k]) + multiset(b[k + 1..]);
      assert multiset(a) == multiset(a[..n]) + multiset{x};
      assert multiset(a[..n]) == multiset(a) - multiset{x};
      assert multiset(rest) == multiset(b) - multiset{x};
      SumPermutation(a[..n], rest, m);
      SumConcat(b[..k], [x], m);
      SumConcat(b[..k] + [x], b[k + 1..], m);
      SumConcat(b[..k], b[k + 1..], m);
      assert Sum([x], m) == m(x) by {
        assert [x][..0] == [];
      }
    } else {
      assert b == [];
    }
  }

  lemma {:induction false} SumWhereInAdd<R, K>(rows: seq<R>, key: R -> K, ks: set<K>, k: K, m: R -> int)
    requires k !in ks
    ensures SumWhereIn(rows, key, ks + {k}, m) == SumWhereIn(rows, key, ks, m) + SumWhere(rows, key, k, m)
  {
    if |rows| > 0 {
      SumWhereInAdd(rows[..|rows| - 1], key, ks, k, m);
    }
  }

  lemma {:induction false} SumWhereInCovers<R, K>(rows: seq<R>, key: R -> K, ks: set<K>, m: R -> int)
    requires forall i :: 0 <= i < |rows| ==> key(rows[i]) in ks
    ensures SumWhereIn(rows, key, ks, m) == Sum(rows, m)
  {
    if |rows| > 0 {
      SumWhereInCovers(rows[..|rows| - 1], key, ks, m);
    }
  }

  /** Sum over the keys `ks` of the per-key sums. */
  function SumOverKeys<R, K(==)>(ks: seq<K>, rows: seq<R>, key: R -> K, m: R -> int): int
  {
    if |ks| == 0 then 0 else SumOverKeys(ks[..|ks| - 1], rows, key, m) + SumWhere(rows, key, ks[|ks| - 1], m)
  }

  ghost predicate Distinct<K>(ks: seq<K>)
  {
    forall i, j :: 0 <= i < j < |ks| ==> ks[i] != ks[j]
  }

  lemma SortedDistinct<K(!new)>(ks: seq<K>, lt: (K, K) -> bool)
    requires StrictTotalOrder(lt) && StrictlySorted(ks, lt)
    ensures Distinct(ks)
  {
    forall i, j | 0 <= i < j < |ks|
      ensures ks[i] != ks[j]
    {
      assert lt(ks[i], ks[j]);
    }
  }

  lemma {:induction false} SumOverDistinctKeys<R, K>(ks: seq<K>, rows: seq<R>, key: R -> K, m: R -> int)
    requires Distinct(ks)
    ensures SumOverKeys(ks, rows, key, m) == SumWhereIn(rows, key, (set k | k in ks), m)
  {
    if |ks| == 0 {
      assert (set k | k in ks) == {};
      SumWhereInEmpty(rows, key, m);
    } else {
      var n := |ks| - 1;
      var front := ks[..n];
      SumOverDistinctKeys(front, rows, key, m);
      assert ks[n] !in front;
      assert (set k | k in ks) == (set k | k in front) + {ks[n]} by {
        assert ks == front + [ks[n]];
      }
      SumWhereInAdd(rows, key, (set k | k in front), ks[n], m);
    }
  }

  lemma {:induction false} SumWhereInEmpty<R, K>(rows: seq<R>, key: R -> K, m: R -> int)
    ensures SumWhereIn(rows, key, {}, m) == 0
  {
    if |rows| > 0 {
      SumWhereInEmpty(rows[..|rows| - 1], key, m);
    }
  }

  // ---------------------------------------------------------------------
  // Group keys: the sorted index of df.groupby(key)
  // ---------------------------------------------------------------------

  /** Some row has key `k`. */
  ghost predicate HasKey<R, K>(rows: seq<R>, key: R -> K, k: K)
  {
    exists i :: 0 <= i < |rows| && key(rows[i]) == k
  }

  lemma HasKeyLast<R, K>(rows: seq<R>, key: R -> K, k: K)
    requires |rows| > 0
    ensures HasKey(rows, key, k) <==> HasKey(rows[..|rows| - 1], key, k) || key(rows[|rows| - 1]) == k
  {
    var n := |rows| - 1;
    if HasKey(rows, key, k) && key(rows[n]) != k {
      var i :| 0 <= i < |rows| && key(rows[i]) == k;
      assert rows[..n][i] == rows[i];
    }
    if HasKey(rows[..n], key, k) {
      var i :| 0 <= i < n && key(rows[..n][i]) == k;
      assert key(rows[i]) == k;
    }
  }
  /** A key that no row has totals 0. */
  lemma {:induction false} SumWhereAbsent<R, K>(rows: seq<R>, key: R -> K, k: K, m: R -> int)
    requires !HasKey(rows, key, k)
    ensures SumWhere(rows, key, k, m) == 0
  {
    if |rows| > 0 {
      HasKeyLast(rows, key, k);
      SumWhereAbsent(rows[..|rows| - 1], key, k, m);
    }
  }


  /** Insert `k` into a strictly sorted key list unless it is already there. */
  function InsertKey<K(==,!new)>(k: K, ks: seq<K>, lt: (K, K) -> bool): (r: seq<K>)
    requires StrictTotalOrder(lt) && StrictlySorted(ks, lt)
    ensures StrictlySorted(r, lt)
    ensures forall j :: j in r <==> j in ks || j == k
  {
    if |ks| == 0 then [k]
    else if k == ks[0] then ks
    else if lt(k, ks[0]) then [k] + ks
    else
      var tail := InsertKey(k, ks[1..], lt);
      assert forall j :: j in tail ==> lt(ks[0], j) by {
        forall j | j in tail
          ensures lt(ks[0], j)
        {
          if j != k {
            var i :| 0 <= i < |ks[1..]| && ks[1..][i] == j;
            assert ks[i + 1] == j;
          }
        }
      }
      [ks[0]] + tail
  }

  /** The distinct keys of the rows, ascending: what pandas' groupby iterates over. */
  function GroupKeys<R, K(==,!new)>(rows: seq<R>, key: R -> K, lt: (K, K) -> bool): (ks: seq<K>)
    requires StrictTotalOrder(lt)
    ensures StrictlySorted(ks, lt)
    ensures forall k :: k in ks <==> HasKey(rows, key, k)
  {
    if |rows| == 0 then []
    else
      var n := |rows| - 1;
      var r := InsertKey(key(rows[n]), GroupKeys(rows[..n], key, lt), lt);
      assert forall k :: HasKey(rows, key, k) <==> HasKey(rows[..n], key, k) || key(rows[n]) == k by {
        forall k
          ensures HasKey(rows, key, k) <==> HasKey(rows[..n], key, k) || key(rows[n]) == k
        {
          HasKeyLast(rows, key, k);
        }
      }
      r
  }

  // ---------------------------------------------------------------------
  // df.groupby(key)[m].sum().reset_index()
  // ---------------------------------------------------------------------

  /** One row of a grouped sum: the group key and the group's total. */
  datatype Total<K> = Total(key: K, total: int)

  function TotalKey<K>(t: Total<K>): K { t.key }

  function TotalOf<K>(t: Total<K>): int { t.total }

  /**
   * One row per distinct key, in ascending key order, holding the sum of `m`
   * over that key's rows.
   */
  function GroupSum<R, K(==,!new)>(rows: seq<R>, key: R -> K, m: R -> int, lt: (K, K) -> bool): (g: seq<Total<K>>)
    requires StrictTotalOrder(lt)
    ensures forall t, u :: 0 <= t < u < |g| ==> lt(g[t].key, g[u].key)
    ensures forall k :: (exists t :: 0 <= t < |g| && g[t].key == k) <==> HasKey(rows, key, k)
    ensures forall t :: 0 <= t < |g| ==> g[t].total == SumWhere(rows, key, g[t].key, m)
  {
    var ks := GroupKeys(rows, key, lt);
    var g := seq(|ks|, t requires 0 <= t < |ks| => Total(ks[t], SumWhere(rows, key, ks[t], m)));
    assert forall k :: (exists t :: 0 <= t < |g| && g[t].key == k) <==> k in ks by {
      forall k | k in ks
        ensures exists t :: 0 <= t < |g| && g[t].key == k
      {
        var t :| 0 <= t < |ks| && ks[t] == k;
        assert g[t].key == k;
      }
    }
    g
  }

  lemma {:induction false} TotalsSumOverKeys<R, K(!new)>(g: seq<Total<K>>, ks: seq<K>, rows: seq<R>, key: R -> K, m: R -> int)
    requires |g| == |ks|
    requires forall t :: 0 <= t < |g| ==> g[t].key == ks[t] && g[t].total == SumWhere(rows, key, ks[t], m)
    ensures Sum(g, TotalOf) == SumOverKeys(ks, rows, key, m)
  {
    if |g| > 0 {
      TotalsSumOverKeys(g[..|g| - 1], ks[..|ks| - 1], rows, key, m);
    }
  }

  /** The group totals add up to the column total: grouping loses and duplicates nothing. */
  lemma GroupSumConserves<R, K(!new)>(rows: seq<R>, key: R -> K, m: R -> int, lt: (K, K) -> bool)
    requires StrictTotalOrder(lt)
    ensures Sum(GroupSum(rows, key, m, lt), TotalOf) == Sum(rows, m)
  {
    var ks := GroupKeys(rows, key, lt);
    var g := GroupSum(rows, key, m, lt);
    assert |g| == |ks| && forall t :: 0 <= t < |g| ==> g[t].key == ks[t];
    TotalsSumOverKeys(g, ks, rows, key, m);
    SortedDistinct(ks, lt);
    SumOverDistinctKeys(ks, rows, key, m);
    forall i | 0 <= i < |rows|
      ensures key(rows[i]) in (set k | k in ks)
    {
      assert HasKey(rows, key, key(rows[i]));
    }
    SumWhereInCovers(rows, key, (set k | k in ks), m);
  }

  // ---------------------------------------------------------------------
  // df.groupby(key)[m].idxmax() / .idxmin()
  // ---------------------------------------------------------------------

  datatype Extreme = Largest | Smallest

  /** `a` is strictly more extreme than `b`. */
  predicate Beats(e: Extreme, a: int, b: int)
  {
    match e
    case Largest => a > b
    case Smallest => a < b
  }

  /**
   * Row `i` is what idxmax (Largest) or idxmin (Smallest) picks for group
   * `k`: a valid row of the group that no valid row of the group beats, and
   * the first such row in input order. Rows that are not `valid` (a missing
   * value) are skipped.
   */
  ghost predicate IsFirstExtreme<R, K>(rows: seq<R>, key: R -> K, k: K, valid: R -> bool, m: R -> int, e: Extreme, i: int)
  {
    && 0 <= i < |rows| && key(rows[i]) == k && valid(rows[i])
    && (forall j :: 0 <= j < |rows| && key(rows[j]) == k && valid(rows[j]) ==> !Beats(e, m(rows[j]), m(rows[i])))
    && (forall j :: 0 <= j < i && key(rows[j]) == k && valid(rows[j]) ==> Beats(e, m(rows[i]), m(rows[j])))
  }

  /** At most one row satisfies the idxmax/idxmin specification of a group. */
  lemma FirstExtremeUnique<R, K>(rows: seq<R>, key: R -> K, k: K, valid: R -> bool, m: R -> int, e: Extreme, i: int, j: int)
    requires IsFirstExtreme(rows, key, k, valid, m, e, i)
    requires IsFirstExtreme(rows, key, k, valid, m, e, j)
    ensures i == j
  {
  }

  /** Group `k` has no valid row. */
  ghost predicate NoValidRow<R, K>(rows: seq<R>, key: R -> K, k: K, valid: R -> bool)
  {
    forall i :: 0 <= i < |rows| && key(rows[i]) == k ==> !valid(rows[i])
  }

  /** The index idxmax/idxmin returns for group `k`, or None when the group has no valid row. */
  function FirstExtreme<R, K(==)>(rows: seq<R>, key: R -> K, k: K, valid: R -> bool, m: R -> int, e: Extreme): (o: Option<nat>)
    ensures o.None? <==> NoValidRow(rows, key, k, valid)
    ensures o.Some? ==> IsFirstExtreme(rows, key, k, valid, m, e, o.value)
  {
    if |rows| == 0 then None
    else
      var n := |rows| - 1;
      var o' := FirstExtreme(rows[..n], key, k, valid, m, e);
      if key(rows[n]) == k && valid(rows[n]) && (o'.None? || Beats(e, m(rows[n]), m(rows[o'.value]))) then Some(n)
      else o'
  }

  /** idxmax/idxmin for each of the keys `ks`, or None if one of them has no valid row. */
  function PickExtremes<R, K(==)>(rows: seq<R>, key: R -> K, ks: seq<K>, valid: R -> bool, m: R -> int, e: Extreme): (o: Option<seq<nat>>)
    ensures o.None? <==> exists t :: 0 <= t < |ks| && NoValidRow(rows, key, ks[t], valid)
    ensures o.Some? ==> |o.value| == |ks| && forall t :: 0 <= t < |ks| ==> IsFirstExtreme(rows, key, ks[t], valid, m, e, o.value[t])
  {
    if |ks| == 0 then Some([])
    else
      var n := |ks| - 1;
      match PickExtremes(rows, key, ks[..n], valid, m, e)
      case None => assert NoValidRow(rows, key, ks[..n][0], valid) || exists t :: 0 <= t < n && NoValidRow(rows, key, ks[t], valid); None
      case Some(idx) =>
        match FirstExtreme(rows, key, ks[n], valid, m, e)
        case None => None
        case Some(i) => Some(idx + [i])
  }

  /**
   * `idx` is what `df.groupby(key)[m].idxmax()` (or idxmin) returns: one
   * index per group, groups in ascending key order, every group of the
   * table represented, each index the first most extreme valid row of its
   * group.
   */
  /** Some picked position holds a row of group `k`. */
  ghost predicate KeyPicked<R, K>(rows: seq<R>, key: R -> K, idx: seq<nat>, k: K)
  {
    exists t :: 0 <= t < |idx| && idx[t] < |rows| && key(rows[idx[t]]) == k
  }

  ghost predicate IsExtremeSelection<R, K>(rows: seq<R>, key: R -> K, valid: R -> bool, m: R -> int, e: Extreme, lt: (K, K) -> bool, idx: seq<nat>)
  {
    && (forall t :: 0 <= t < |idx| ==> idx[t] < |rows|)
    && (forall t :: 0 <= t < |idx| ==> IsFirstExtreme(rows, key, key(rows[idx[t]]), valid, m, e, idx[t]))
    && (forall t, u :: 0 <= t < u < |idx| ==> lt(key(rows[idx[t]]), key(rows[idx[u]])))
    && (forall i {:trigger KeyPicked(rows, key, idx, key(rows[i]))} :: 0 <= i < |rows| ==> KeyPicked(rows, key, idx, key(rows[i])))
  }

  /** Some group of the table has no valid row at all. */
  ghost predicate SomeGroupAllInvalid<R, K>(rows: seq<R>, key: R -> K, valid: R -> bool)
  {
    exists i :: 0 <= i < |rows| && NoValidRow(rows, key, key(rows[i]), valid)
  }

  /** idxmax/idxmin over all groups; None when some group holds no valid value. */
  function ExtremeIndices<R, K(==,!new)>(rows: seq<R>, key: R -> K, valid: R -> bool, m: R -> int, e: Extreme, lt: (K, K) -> bool): (o: Option<seq<nat>>)
    requires StrictTotalOrder(lt)
    ensures o.None? <==> SomeGroupAllInvalid(rows, key, valid)
    ensures o.Some? ==> IsExtremeSelection(rows, key, valid, m, e, lt, o.value)
  {
    var ks := GroupKeys(rows, key, lt);
    var o := PickExtremes(rows, key, ks, valid, m, e);
    assert o.None? <==> SomeGroupAllInvalid(rows, key, valid) by {
      if o.None? {
        var t :| 0 <= t < |ks| && NoValidRow(rows, key, ks[t], valid);
        assert HasKey(rows, key, ks[t]);
        var i :| 0 <= i < |rows| && key(rows[i]) == ks[t];
        assert NoValidRow(rows, key, key(rows[i]), valid);
      }
      if SomeGroupAllInvalid(rows, key, valid) {
        var i :| 0 <= i < |rows| && NoValidRow(rows, key, key(rows[i]), valid);
        assert key(rows[i]) in ks;
        var t :| 0 <= t < |ks| && ks[t] == key(rows[i]);
        assert NoValidRow(rows, key, ks[t], valid);
      }
    }
    if o.Some? then
      var idx := o.value;
      assert forall t :: 0 <= t < |idx| ==> key(rows[idx[t]]) == ks[t];
      assert forall i {:trigger KeyPicked(rows, key, idx, key(rows[i]))} :: 0 <= i < |rows| ==> KeyPicked(rows, key, idx, key(rows[i])) by {
        forall i | 0 <= i < |rows|
          ensures KeyPicked(rows, key, idx, key(rows[i]))
        {
          assert HasKey(rows, key, key(rows[i]));
          var t :| 0 <= t < |ks| && ks[t] == key(rows[i]);
          assert key(rows[idx[t]]) == key(rows[i]);
        }
      }
      o
    else
      o
  }

  /** `df.loc[idx]`: the rows at the given positions. */
  function Pick<R>(rows: seq<R>, idx: seq<nat>): (r: seq<R>)
    requires forall t :: 0 <= t < |idx| ==> idx[t] < |rows|
    ensures |r| == |idx| && forall t :: 0 <= t < |idx| ==> r[t] == rows[idx[t]]
  {
    seq(|idx|, t requires 0 <= t < |idx| => rows[idx[t]])
  }

  /** Always-true row predicate: a column without missing values. */
  predicate AllValid<R>(x: R) { true }

  // ---------------------------------------------------------------------
  // df.sort_values(by=v, ascending=False)
  // ---------------------------------------------------------------------

  ghost predicate SortedDesc<G>(s: seq<G>, v: G -> int)
  {
    forall i, j :: 0 <= i < j < |s| ==> v(s[i]) >= v(s[j])
  }

  function InsertDesc<G(==)>(x: G, s: seq<G>, v: G -> int): (r: seq<G>)
    requires SortedDesc(s, v)
    ensures SortedDesc(r, v)
    ensures multiset(r) == multiset(s) + multiset{x}
  {
    if |s| == 0 then [x]
    else if v(x) > v(s[0]) then [x] + s
    else
      var tail := InsertDesc(x, s[1..], v);
      assert s == [s[0]] + s[1..];
      assert forall y :: y in tail ==> v(s[0]) >= v(y) by {
        forall y | y in tail
          ensures v(s[0]) >= v(y)
        {
          assert y in multiset(tail);
          if y != x {
            assert y in multiset(s[1..]);
            var i :| 0 <= i < |s[1..]| && s[1..][i] == y;
            assert s[i + 1] == y;
          }
        }
      }
      [s[0]] + tail
  }

  /**
   * The rows reordered so that `v` does not increase. pandas' default sort
   * is not stable; this one keeps ties in input order, one of the orders
   * pandas may produce.
   */
  function SortDesc<G(==)>(s: seq<G>, v: G -> int): (r: seq<G>)
    ensures SortedDesc(r, v)
    ensures multiset(r) == multiset(s)
  {
    if |s| == 0 then []
    else
      var n := |s| - 1;
      assert s == s[..n] + [s[n]];
      InsertDesc(s[n], SortDesc(s[..n], v), v)
  }

  // ---------------------------------------------------------------------
  // One row per group, whatever the row order
  // ---------------------------------------------------------------------

  /** Keeping some rows of a sorted table in their order keeps it sorted. */
  lemma SubsequenceSortedDesc<G>(r: seq<G>, s: seq<G>, v: G -> int)
    requires IsSubsequence(r, s)
    ensures SortedDesc(s, v) ==> SortedDesc(r, v)
  {
    var idx :| SubsequenceAt(r, s, idx);
    if SortedDesc(s, v) {
      forall i, j | 0 <= i < j < |r|
        ensures v(r[i]) >= v(r[j])
      {
        assert idx[i] < idx[j];
      }
    }
  }

  /** No two rows share a key. */
  ghost predicate DistinctKeys<G, K>(s: seq<G>, gk: G -> K)
  {
    forall t, u :: 0 <= t < u < |s| ==> gk(s[t]) != gk(s[u])
  }

  ghost function KeySet<G, K>(s: seq<G>, gk: G -> K): set<K>
  {
    set x | x in s :: gk(x)
  }

  lemma KeySetLast<G, K>(s: seq<G>, gk: G -> K)
    requires |s| > 0
    ensures KeySet(s, gk) == KeySet(s[..|s| - 1], gk) + {gk(s[|s| - 1])}
  {
    var n := |s| - 1;
    assert s == s[..n] + [s[n]];
  }

  lemma {:induction false} KeySetBound<G, K>(s: seq<G>, gk: G -> K)
    ensures |KeySet(s, gk)| <= |s|
  {
    if |s| == 0 {
      assert KeySet(s, gk) == {};
    } else {
      KeySetLast(s, gk);
      KeySetBound(s[..|s| - 1], gk);
    }
  }

  /** Keys are distinct exactly when there are as many keys as rows. */
  lemma {:induction false} DistinctKeysCard<G, K>(s: seq<G>, gk: G -> K)
    ensures DistinctKeys(s, gk) <==> |KeySet(s, gk)| == |s|
  {
    if |s| == 0 {
      assert KeySet(s, gk) == {};
    } else {
      var n := |s| - 1;
      var p := s[..n];
      KeySetLast(s, gk);
      KeySetBound(p, gk);
      DistinctKeysCard(p, gk);
      var isNew := gk(s[n]) !in KeySet(p, gk);
      assert isNew <==> forall t :: 0 <= t < n ==> gk(s[t]) != gk(s[n]) by {
        if !isNew {
          var x :| x in p && gk(x) == gk(s[n]);
          var t :| 0 <= t < n && p[t] == x;
          assert gk(s[t]) == gk(s[n]);
        }
        forall t | 0 <= t < n
          ensures isNew ==> gk(s[t]) != gk(s[n])
        {
          assert s[t] == p[t] && p[t] in p;
        }
      }
      assert DistinctKeys(s, gk) <==> DistinctKeys(p, gk) && isNew by {
        forall t, u | 0 <= t < u < n
          ensures s[t] == p[t] && s[u] == p[u]
        {
        }
      }
    }
  }

  /** Reordering a table keeps its keys distinct. */
  lemma DistinctKeysPermutation<G, K>(a: seq<G>, b: seq<G>, gk: G -> K)
    requires multiset(a) == multiset(b)
    requires DistinctKeys(a, gk)
    ensures DistinctKeys(b, gk)
  {
    assert |a| == |multiset(a)| == |multiset(b)| == |b|;
    assert KeySet(a, gk) == KeySet(b, gk) by {
      forall x
        ensures x in a <==> x in b
      {
        assert x in a <==> x in multiset(a);
        assert x in b <==> x in multiset(b);
      }
    }
    DistinctKeysCard(a, gk);
    DistinctKeysCard(b, gk);
  }

  /** Some row of `s` has key `k`. */
  ghost predicate KeyPresent<G, K>(s: seq<G>, gk: G -> K, k: K)
  {
    exists t :: 0 <= t < |s| && gk(s[t]) == k
  }

  /**
   * `s` holds exactly one row per group of `rows`: every key of `s` is a
   * group of `rows`, every group appears, and no group appears twice.
   */
  ghost predicate OnePerGroup<G, R, K>(s: seq<G>, gk: G -> K, rows: seq<R>, key: R -> K)
  {
    && (forall t :: 0 <= t < |s| ==> HasKey(rows, key, gk(s[t])))
    && (forall i {:trigger KeyPresent(s, gk, key(rows[i]))} :: 0 <= i < |rows| ==> KeyPresent(s, gk, key(rows[i])))
    && DistinctKeys(s, gk)
  }

  /** A table with one row per group has exactly as many rows as there are distinct keys in `rows`. */
  lemma OnePerGroupCard<G, R, K>(s: seq<G>, gk: G -> K, rows: seq<R>, key: R -> K)
    requires OnePerGroup(s, gk, rows, key)
    ensures |s| == |KeySet(rows, key)|
  {
    assert KeySet(s, gk) == KeySet(rows, key) by {
      forall k | k in KeySet(s, gk)
        ensures k in KeySet(rows, key)
      {
        var x :| x in s && gk(x) == k;
        var t :| 0 <= t < |s| && s[t] == x;
        assert HasKey(rows, key, gk(s[t]));
        var i :| 0 <= i < |rows| && key(rows[i]) == k;
        assert rows[i] in rows;
      }
      forall k | k in KeySet(rows, key)
        ensures k in KeySet(s, gk)
      {
        var x :| x in rows && key(x) == k;
        var i :| 0 <= i < |rows| && rows[i] == x;
        assert KeyPresent(s, gk, key(rows[i]));
        var t :| 0 <= t < |s| && gk(s[t]) == k;
        assert s[t] in s;
      }
    }
    DistinctKeysCard(s, gk);
  }

  lemma OnePerGroupPermutation<G, R, K>(a: seq<G>, b: seq<G>, gk: G -> K, rows: seq<R>, key: R -> K)
    requires multiset(a) == multiset(b)
    requires OnePerGroup(a, gk, rows, key)
    ensures OnePerGroup(b, gk, rows, key)
  {
    DistinctKeysPermutation(a, b, gk);
    forall t | 0 <= t < |b|
      ensures HasKey(rows, key, gk(b[t]))
    {
      assert b[t] in multiset(a);
      var u :| 0 <= u < |a| && a[u] == b[t];
    }
    forall i | 0 <= i < |rows|
      ensures KeyPresent(b, gk, key(rows[i]))
    {
      assert KeyPresent(a, gk, key(rows[i]));
      var u :| 0 <= u < |a| && gk(a[u]) == key(rows[i]);
      assert a[u] in multiset(b);
      var t :| 0 <= t < |b| && b[t] == a[u];
    }
  }

  /** Two keys that group the rows alike give the same one-row-per-group property. */
  lemma OnePerGroupRekey<G, R, K1, K2>(s: seq<G>, g1: G -> K1, g2: G -> K2, rows: seq<R>, k1: R -> K1, k2: R -> K2)
    requires OnePerGroup(s, g1, rows, k1)
    requires forall t, i :: 0 <= t < |s| && 0 <= i < |rows| ==> (g1(s[t]) == k1(rows[i]) <==> g2(s[t]) == k2(rows[i]))
    requires forall t, u :: 0 <= t < |s| && 0 <= u < |s| ==> (g1(s[t]) == g1(s[u]) <==> g2(s[t]) == g2(s[u]))
    ensures OnePerGroup(s, g2, rows, k2)
  {
    forall t | 0 <= t < |s|
      ensures HasKey(rows, k2, g2(s[t]))
    {
      assert HasKey(rows, k1, g1(s[t]));
      var i :| 0 <= i < |rows| && k1(rows[i]) == g1(s[t]);
    }
    forall i | 0 <= i < |rows|
      ensures KeyPresent(s, g2, k2(rows[i]))
    {
      assert KeyPresent(s, g1, k1(rows[i]));
      var t :| 0 <= t < |s| && g1(s[t]) == k1(rows[i]);
    }
    assert DistinctKeys(s, g2) by {
      forall t, u | 0 <= t < u < |s|
        ensures g2(s[t]) != g2(s[u])
      {
        assert g1(s[t]) != g1(s[u]);
      }
    }
  }

  /** A grouped sum holds one row per group. */
  lemma GroupSumOnePerGroup<R, K(!new)>(rows: seq<R>, key: R -> K, m: R -> int, lt: (K, K) -> bool)
    requires StrictTotalOrder(lt)
    ensures OnePerGroup(GroupSum(rows, key, m, lt), TotalKey, rows, key)
  {
    var g := GroupSum(rows, key, m, lt);
    forall t, u | 0 <= t < u < |g|
      ensures g[t].key != g[u].key
    {
      assert lt(g[t].key, g[u].key);
    }
    forall i | 0 <= i < |rows|
      ensures KeyPresent(g, TotalKey, key(rows[i]))
    {
      assert HasKey(rows, key, key(rows[i]));
    }
  }

  /**
   * What the page functions hand back: `pd.DataFrame()` (no rows and no
   * columns, returned when a selection is empty) or a table of rows.
   */
  datatype Frame<T> = EmptyFrame | Table(rows: seq<T>)

  /**
   * The rows `df.loc[idx]` picks for an idxmax/idxmin selection hold one
   * row per group.
   */
  lemma ExtremeSelectionOnePerGroup<R, K(!new)>(rows: seq<R>, key: R -> K, valid: R -> bool, m: R -> int, e: Extreme, lt: (K, K) -> bool, idx: seq<nat>)
    requires StrictTotalOrder(lt)
    requires IsExtremeSelection(rows, key, valid, m, e, lt, idx)
    ensures OnePerGroup(Pick(rows, idx), key, rows, key)
  {
    var p := Pick(rows, idx);
    forall t | 0 <= t < |p|
      ensures HasKey(rows, key, key(p[t]))
    {
      assert key(rows[idx[t]]) == key(p[t]);
    }
    forall t, u | 0 <= t < u < |p|
      ensures key(p[t]) != key(p[u])
    {
      assert lt(key(rows[idx[t]]), key(rows[idx[u]]));
    }
    forall i | 0 <= i < |rows|
      ensures KeyPresent(p, key, key(rows[i]))
    {
      assert KeyPicked(rows, key, idx, key(rows[i]));
      var t :| 0 <= t < |idx| && idx[t] < |rows| && key(rows[idx[t]]) == key(rows[i]);
      assert 0 <= t < |p| && key(p[t]) == key(rows[i]);
    }
    assert DistinctKeys(p, key);
  }

  /** Every row of a reordering of grouped totals still holds its group's sum. */
  lemma TotalsPermutation<R, K>(g: seq<Total<K>>, r: seq<Total<K>>, rows: seq<R>, key: R -> K, m: R -> int)
    requires multiset(g) == multiset(r)
    requires forall t :: 0 <= t < |g| ==> g[t].total == SumWhere(rows, key, g[t].key, m)
    ensures forall t :: 0 <= t < |r| ==> r[t].total == SumWhere(rows, key, r[t].key, m)
  {
    forall t | 0 <= t < |r|
      ensures r[t].total == SumWhere(rows, key, r[t].key, m)
    {
      assert r[t] in multiset(g);
      var u :| 0 <= u < |g| && g[u] == r[t];
    }
  }

  /**
   * `df.groupby(key)[m].sum().reset_index().sort_values(by=m, ascending=False)`:
   * the grouped totals, largest first.
   */
  function GroupSumDesc<R, K(==,!new)>(rows: seq<R>, key: R -> K, m: R -> int, lt: (K, K) -> bool): (r: seq<Total<K>>)
    requires StrictTotalOrder(lt)
    ensures SortedDesc(r, TotalOf)
    ensures multiset(r) == multiset(GroupSum(rows, key, m, lt))
  {
    SortDesc(GroupSum(rows, key, m, lt), TotalOf)
  }

  /**
   * The sorted grouped totals hold one row per group with the group's
   * total, and they add up to the column total.
   */
  lemma GroupSumDescTotals<R, K(!new)>(rows: seq<R>, key: R -> K, m: R -> int, lt: (K, K) -> bool)
    requires StrictTotalOrder(lt)
    ensures OnePerGroup(GroupSumDesc(rows, key, m, lt), TotalKey, rows, key)
    ensures forall t :: 0 <= t < |GroupSumDesc(rows, key, m, lt)| ==>
              GroupSumDesc(rows, key, m, lt)[t].total == SumWhere(rows, key, GroupSumDesc(rows, key, m, lt)[t].key, m)
    ensures Sum(GroupSumDesc(rows, key, m, lt), TotalOf) == Sum(rows, m)
  {
    var g := GroupSum(rows, key, m, lt);
    var r := GroupSumDesc(rows, key, m, lt);
    GroupSumOnePerGroup(rows, key, m, lt);
    OnePerGroupPermutation(g, r, TotalKey, rows, key);
    GroupSumConserves(rows, key, m, lt);
    SumPermutation(g, r, TotalOf);
    TotalsPermutation(g, r, rows, key, m);
  }

  /** Rows ordered strictly ascending by their key. */
  ghost predicate SortedByKey<R, K>(s: seq<R>, key: R -> K, lt: (K, K) -> bool)
  {
    forall t, u :: 0 <= t < u < |s| ==> lt(key(s[t]), key(s[u]))
  }

  /**
   * `x` is what idxmax/idxmin picks for its group: a valid row of the
   * table whose value no valid row of the group beats, and the first such
   * row in input order.
   */
  ghost predicate FirstExtremeRow<R, K>(rows: seq<R>, key: R -> K, valid: R -> bool, m: R -> int, e: Extreme, x: R)
  {
    exists i :: 0 <= i < |rows| && rows[i] == x && IsFirstExtreme(rows, key, key(x), valid, m, e, i)
  }

  lemma FirstExtremeRowFacts<R, K>(rows: seq<R>, key: R -> K, valid: R -> bool, m: R -> int, e: Extreme, x: R)
    requires FirstExtremeRow(rows, key, valid, m, e, x)
    ensures x in rows && valid(x)
    ensures forall y :: y in rows && key(y) == key(x) && valid(y) ==> !Beats(e, m(y), m(x))
  {
    var i :| 0 <= i < |rows| && rows[i] == x && IsFirstExtreme(rows, key, key(x), valid, m, e, i);
    forall y | y in rows && key(y) == key(x) && valid(y)
      ensures !Beats(e, m(y), m(x))
    {
      var j :| 0 <= j < |rows| && rows[j] == y;
    }
  }

  /**
   * `df.loc[df.groupby(key)[m].idxmax()]` (or idxmin): one row per group in
   * ascending key order; None when some group has no valid value, where
   * pandas has no label to look up.
   */
  function PickPerGroup<R, K(==,!new)>(rows: seq<R>, key: R -> K, valid: R -> bool, m: R -> int, e: Extreme, lt: (K, K) -> bool): (o: Option<seq<R>>)
    requires StrictTotalOrder(lt)
    ensures o.None? <==> SomeGroupAllInvalid(rows, key, valid)
    ensures o.Some? ==> OnePerGroup(o.value, key, rows, key) && SortedByKey(o.value, key, lt)
    ensures o.Some? ==> forall t :: 0 <= t < |o.value| ==> FirstExtremeRow(rows, key, valid, m, e, o.value[t])
  {
    match ExtremeIndices(rows, key, valid, m, e, lt)
    case None => None
    case Some(idx) =>
      var p := Pick(rows, idx);
      ExtremeSelectionOnePerGroup(rows, key, valid, m, e, lt, idx);
      assert forall t :: 0 <= t < |p| ==> FirstExtremeRow(rows, key, valid, m, e, p[t]) by {
        forall t | 0 <= t < |p|
          ensures FirstExtremeRow(rows, key, valid, m, e, p[t])
        {
          assert IsFirstExtreme(rows, key, key(rows[idx[t]]), valid, m, e, idx[t]);
          assert rows[idx[t]] == p[t];
        }
      }
      assert SortedByKey(p, key, lt) by {
        forall t, u | 0 <= t < u < |p|
          ensures lt(key(p[t]), key(p[u]))
        {
          assert lt(key(rows[idx[t]]), key(rows[idx[u]]));
        }
      }
      Some(p)
  }

  /** PickPerGroup on a column without missing values never fails. */
  function ExtremePerGroup<R, K(==,!new)>(rows: seq<R>, key: R -> K, m: R -> int, e: Extreme, lt: (K, K) -> bool): (r: seq<R>)
    requires StrictTotalOrder(lt)
    ensures OnePerGroup(r, key, rows, key) && SortedByKey(r, key, lt)
    ensures forall t :: 0 <= t < |r| ==> FirstExtremeRow(rows, key, AllValid, m, e, r[t])
  {
    var o := PickPerGroup(rows, key, AllValid, m, e, lt);
    assert !SomeGroupAllInvalid(rows, key, AllValid) by {
      forall i | 0 <= i < |rows|
        ensures !NoValidRow(rows, key, key(rows[i]), AllValid)
      {
        assert AllValid(rows[i]);
      }
    }
    o.value
  }

  /**
   * `df.loc[df.groupby(key)[m].idxmax()].sort_values(by=m, ascending=False)`:
   * the per-group picks, largest value first.
   */
  function TopPerGroup<R(==), K(==,!new)>(rows: seq<R>, key: R -> K, m: R -> int, e: Extreme, lt: (K, K) -> bool): (r: seq<R>)
    requires StrictTotalOrder(lt)
    ensures SortedDesc(r, m) && OnePerGroup(r, key, rows, key)
    ensures forall t :: 0 <= t < |r| ==> FirstExtremeRow(rows, key, AllValid, m, e, r[t])
  {
    var p := ExtremePerGroup(rows, key, m, e, lt);
    var r := SortDesc(p, m);
    OnePerGroupPermutation(p, r, key, rows, key);
    assert forall t :: 0 <= t < |r| ==> FirstExtremeRow(rows, key, AllValid, m, e, r[t]) by {
      forall t | 0 <= t < |r|
        ensures FirstExtremeRow(rows, key, AllValid, m, e, r[t])
      {
        assert r[t] in multiset(p);
        var u :| 0 <= u < |p| && p[u] == r[t];
      }
    }
    r
  }

  /** A table whose rows correspond one to one, key for key, to a table with one row per group has one row per group too. */
  lemma OnePerGroupMap<G, H, R, K>(a: seq<G>, ga: G -> K, b: seq<H>, gb: H -> K, rows: seq<R>, key: R -> K)
    requires |a| == |b| && forall t :: 0 <= t < |a| ==> gb(b[t]) == ga(a[t])
    requires OnePerGroup(a, ga, rows, key)
    ensures OnePerGroup(b, gb, rows, key)
  {
    forall i | 0 <= i < |rows|
      ensures KeyPresent(b, gb, key(rows[i]))
    {
      assert KeyPresent(a, ga, key(rows[i]));
      var t :| 0 <= t < |a| && ga(a[t]) == key(rows[i]);
      assert gb(b[t]) == key(rows[i]);
    }
    assert DistinctKeys(b, gb) by {
      forall t, u | 0 <= t < u < |b|
        ensures gb(b[t]) != gb(b[u])
      {
        assert ga(a[t]) != ga(a[u]);
      }
    }
  }

  /**
   * `df.groupby(key)[m].sum().reset_index()` with everything the page
   * functions promise about it: ascending keys, one row per group, each
   * group's total, and the column total kept.
   */
  function GroupTotals<R, K(==,!new)>(rows: seq<R>, key: R -> K, m: R -> int, lt: (K, K) -> bool): (g: seq<Total<K>>)
    requires StrictTotalOrder(lt)
    ensures SortedByKey(g, TotalKey, lt)
    ensures OnePerGroup(g, TotalKey, rows, key)
    ensures forall t :: 0 <= t < |g| ==> g[t].total == SumWhere(rows, key, g[t].key, m)
    ensures Sum(g, TotalOf) == Sum(rows, m)
  {
    GroupSumOnePerGroup(rows, key, m, lt);
    GroupSumConserves(rows, key, m, lt);
    GroupSum(rows, key, m, lt)
  }

  // ---------------------------------------------------------------------
  // Top child per parent: sum per (parent, child), then idxmax per parent
  // ---------------------------------------------------------------------

  /** The two-column grouping key `[parent, child]`. */
  function PairKey<R, P, C>(parent: R -> P, child: R -> C): R -> (P, C)
  {
    r => (parent(r), child(r))
  }

  /** The parent column of a grouped (parent, child) total. */
  function ParentOf<P, C>(t: Total<(P, C)>): P { t.key.0 }

  /**
   * `grouped.loc[grouped.groupby(parent)[m].idxmax()].sort_values(by=m, ascending=False)`
   * where `grouped = df.groupby([parent, child])[m].sum().reset_index()`.
   */
  function TopChildPerParent<R, P(==,!new), C(==,!new)>(rows: seq<R>, parent: R -> P, child: R -> C, m: R -> int,
                                                      ltP: (P, P) -> bool, ltC: (C, C) -> bool): (r: seq<Total<(P, C)>>)
    requires StrictTotalOrder(ltP) && StrictTotalOrder(ltC)
    ensures SortedDesc(r, TotalOf)
    ensures OnePerGroup(r, ParentOf, rows, parent)
    ensures forall t :: 0 <= t < |r| ==>
              HasKey(rows, PairKey(parent, child), r[t].key) && r[t].total == SumWhere(rows, PairKey(parent, child), r[t].key, m)
    ensures forall t, i :: 0 <= t < |r| && 0 <= i < |rows| && parent(rows[i]) == r[t].key.0 ==>
              SumWhere(rows, PairKey(parent, child), (parent(rows[i]), child(rows[i])), m) <= r[t].total
    ensures forall t, i :: 0 <= t < |r| && 0 <= i < |rows| && parent(rows[i]) == r[t].key.0 && ltC(child(rows[i]), r[t].key.1) ==>
              SumWhere(rows, PairKey(parent, child), (parent(rows[i]), child(rows[i])), m) < r[t].total
  {
    PairLtIsOrder(ltP, ltC);
    var g := GroupSum(rows, PairKey(parent, child), m, PairLt(ltP, ltC));
    var r := TopPerGroup(g, ParentOf, TotalOf, Largest, ltP);
    TopChildGroups(rows, parent, child, m, ltP, ltC, g, r);
    TopChildBest(rows, parent, child, m, ltP, ltC, g, r);
    r
  }

  lemma TopChildGroups<R, P(!new), C(!new)>(rows: seq<R>, parent: R -> P, child: R -> C, m: R -> int,
                                             ltP: (P, P) -> bool, ltC: (C, C) -> bool, g: seq<Total<(P, C)>>, r: seq<Total<(P, C)>>)
    requires StrictTotalOrder(ltP) && StrictTotalOrder(ltC) && StrictTotalOrder(PairLt(ltP, ltC))
    requires g == GroupSum(rows, PairKey(parent, child), m, PairLt(ltP, ltC))
    requires OnePerGroup(r, ParentOf, g, ParentOf)
    ensures OnePerGroup(r, ParentOf, rows, parent)
  {
    var pk := PairKey(parent, child);
    forall t | 0 <= t < |r|
      ensures HasKey(rows, parent, ParentOf(r[t]))
    {
      assert HasKey(g, ParentOf, ParentOf(r[t]));
      var j :| 0 <= j < |g| && ParentOf(g[j]) == ParentOf(r[t]);
      assert HasKey(rows, pk, g[j].key);
      var i :| 0 <= i < |rows| && pk(rows[i]) == g[j].key;
      assert parent(rows[i]) == ParentOf(r[t]);
    }
    forall i | 0 <= i < |rows|
      ensures KeyPresent(r, ParentOf, parent(rows[i]))
    {
      assert HasKey(rows, pk, pk(rows[i]));
      var j :| 0 <= j < |g| && g[j].key == pk(rows[i]);
      assert KeyPresent(r, ParentOf, ParentOf(g[j]));
    }
  }

  lemma TopChildBest<R, P(!new), C(!new)>(rows: seq<R>, parent: R -> P, child: R -> C, m: R -> int,
                                           ltP: (P, P) -> bool, ltC: (C, C) -> bool, g: seq<Total<(P, C)>>, r: seq<Total<(P, C)>>)
    requires StrictTotalOrder(ltP) && StrictTotalOrder(ltC) && StrictTotalOrder(PairLt(ltP, ltC))
    requires g == GroupSum(rows, PairKey(parent, child), m, PairLt(ltP, ltC))
    requires forall t :: 0 <= t < |r| ==> FirstExtremeRow(g, ParentOf, AllValid, TotalOf, Largest, r[t])
    ensures forall t :: 0 <= t < |r| ==>
              HasKey(rows, PairKey(parent, child), r[t].key) && r[t].total == SumWhere(rows, PairKey(parent, child), r[t].key, m)
    ensures forall t, i :: 0 <= t < |r| && 0 <= i < |rows| && parent(rows[i]) == r[t].key.0 ==>
              SumWhere(rows, PairKey(parent, child), (parent(rows[i]), child(rows[i])), m) <= r[t].total
    ensures forall t, i :: 0 <= t < |r| && 0 <= i < |rows| && parent(rows[i]) == r[t].key.0 && ltC(child(rows[i]), r[t].key.1) ==>
              SumWhere(rows, PairKey(parent, child), (parent(rows[i]), child(rows[i])), m) < r[t].total
  {
    var pk := PairKey(parent, child);
    var lt := PairLt(ltP, ltC);
    forall t | 0 <= t < |r|
      ensures HasKey(rows, pk, r[t].key) && r[t].total == SumWhere(rows, pk, r[t].key, m)
    {
      FirstExtremeRowFacts(g, ParentOf, AllValid, TotalOf, Largest, r[t]);
      var j :| 0 <= j < |g| && g[j] == r[t];
      assert exists u :: 0 <= u < |g| && g[u].key == r[t].key;
    }
    forall t, i | 0 <= t < |r| && 0 <= i < |rows| && parent(rows[i]) == r[t].key.0
      ensures SumWhere(rows, pk, (parent(rows[i]), child(rows[i])), m) <= r[t].total
      ensures ltC(child(rows[i]), r[t].key.1) ==> SumWhere(rows, pk, (parent(rows[i]), child(rows[i])), m) < r[t].total
    {
      TopChildPairBest(rows, parent, child, m, ltP, ltC, g, r[t], i);
    }
  }

  /** One sibling pair against the picked pair of its parent. */
  lemma TopChildPairBest<R, P(!new), C(!new)>(rows: seq<R>, parent: R -> P, child: R -> C, m: R -> int,
                                               ltP: (P, P) -> bool, ltC: (C, C) -> bool, g: seq<Total<(P, C)>>, x: Total<(P, C)>, i: nat)
    requires StrictTotalOrder(ltP) && StrictTotalOrder(ltC) && StrictTotalOrder(PairLt(ltP, ltC))
    requires g == GroupSum(rows, PairKey(parent, child), m, PairLt(ltP, ltC))
    requires FirstExtremeRow(g, ParentOf, AllValid, TotalOf, Largest, x)
    requires i < |rows| && parent(rows[i]) == x.key.0
    ensures SumWhere(rows, PairKey(parent, child), (parent(rows[i]), child(rows[i])), m) <= x.total
    ensures ltC(child(rows[i]), x.key.1) ==> SumWhere(rows, PairKey(parent, child), (parent(rows[i]), child(rows[i])), m) < x.total
  {
    var pk := PairKey(parent, child);
    var lt := PairLt(ltP, ltC);
    var k := (parent(rows[i]), child(rows[i]));
    assert k == pk(rows[i]);
    assert HasKey(rows, pk, k);
    var j :| 0 <= j < |g| && g[j].key == k;
    assert g[j].total == SumWhere(rows, pk, k, m);
    FirstExtremeRowFacts(g, ParentOf, AllValid, TotalOf, Largest, x);
    assert g[j] in g && ParentOf(g[j]) == ParentOf(x) && AllValid(g[j]);
    if ltC(child(rows[i]), x.key.1) {
      var i0 :| 0 <= i0 < |g| && g[i0] == x && IsFirstExtreme(g, ParentOf, ParentOf(x), AllValid, TotalOf, Largest, i0);
      assert lt(k, g[i0].key);
      if j >= i0 {
        assert false;
      }
      assert Beats(Largest, TotalOf(g[i0]), TotalOf(g[j]));
    }
  }
}
