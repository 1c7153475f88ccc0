/**
 * The orders pandas sorts group keys by: numbers numerically, strings
 * lexicographically, and multi-column keys lexicographically column by column.
 */
module Orders {
  import Text

  ghost predicate StrictTotalOrder<K(!new)>(lt: (K, K) -> bool)
  {
    && (forall a :: !lt(a, a))
    && (forall a, b, c :: lt(a, b) && lt(b, c) ==> lt(a, c))
    && (forall a, b :: a != b ==> lt(a, b) || lt(b, a))
  }

  /** Strictly ascending, hence without repetitions. */
  ghost predicate StrictlySorted<K>(ks: seq<K>, lt: (K, K) -> bool)
  {
    forall i, j :: 0 <= i < j < |ks| ==> lt(ks[i], ks[j])
  }

  predicate IntLt(a: int, b: int) { a < b }

  /** Column-by-column order on a two-column key. */
  function PairLt<A(==), B>(la: (A, A) -> bool, lb: (B, B) -> bool): ((A, B), (A, B)) -> bool
  {
    (p: (A, B), q: (A, B)) => la(p.0, q.0) || (p.0 == q.0 && lb(p.1, q.1))
  }

  lemma IntLtIsOrder()
    ensures StrictTotalOrder(IntLt)
  {
  }

  lemma StrLtIsOrder()
    ensures StrictTotalOrder(Text.StrLt)
  {
    forall a: string
      ensures !Text.StrLt(a, a)
    {
      Text.StrLtIrreflexive(a);
    }
    forall a: string, b: string, c: string | Text.StrLt(a, b) && Text.StrLt(b, c)
      ensures Text.StrLt(a, c)
    {
      Text.StrLtTransitive(a, b, c);
    }
    forall a: string, b: string | a != b
      ensures Text.StrLt(a, b) || Text.StrLt(b, a)
    {
      Text.StrLtTotal(a, b);
    }
  }

  lemma PairLtIsOrder<A(!new), B(!new)>(la: (A, A) -> bool, lb: (B, B) -> bool)
    requires StrictTotalOrder(la) && StrictTotalOrder(lb)
    ensures StrictTotalOrder(PairLt(la, lb))
  {
    var lt := PairLt(la, lb);
    forall p: (A, B), q: (A, B) | p != q
      ensures lt(p, q) || lt(q, p)
    {
      if p.0 == q.0 {
        assert p.1 != q.1;
      }
    }
  }

  /** The order pandas sorts a two-column group key of strings by. */
  const TextPairLt: ((string, string), (string, string)) -> bool := PairLt(Text.StrLt, Text.StrLt)

  lemma TextPairLtIsOrder()
    ensures StrictTotalOrder(TextPairLt)
  {
    StrLtIsOrder();
    PairLtIsOrder(Text.StrLt, Text.StrLt);
  }
}
