/** The order on dimension tuples, and the sort keys that produce it on every dialect. */
module Ordering {
  import opened Relational
  import opened Plans

  // ---------------------------------------------------------------- the order on tuples

  lemma {:induction false} TupleLeTotal(a: Tuple, b: Tuple)
    ensures TupleLe(a, b) || TupleLe(b, a)
  {
    if a != [] && b != [] && a[0] == b[0] {
      TupleLeTotal(a[1..], b[1..]);
    }
  }

  lemma {:induction false} TupleLeAntisymmetric(a: Tuple, b: Tuple)
    requires TupleLe(a, b) && TupleLe(b, a)
    ensures a == b
  {
    if a != [] && b != [] {
      if a[0] == b[0] {
        TupleLeAntisymmetric(a[1..], b[1..]);
      }
      assert a == [a[0]] + a[1..] && b == [b[0]] + b[1..];
    }
  }

  lemma {:induction false} TupleLeTransitive(a: Tuple, b: Tuple, c: Tuple)
    requires TupleLe(a, b) && TupleLe(b, c)
    ensures TupleLe(a, c)
  {
    if a != [] && a[0] == b[0] && b[0] == c[0] {
      TupleLeTransitive(a[1..], b[1..], c[1..]);
    }
  }

  lemma {:induction false} TupleLeReflexive(a: Tuple)
    ensures TupleLe(a, a)
  {
    TupleLeTotal(a, a);
  }

  // ---------------------------------------------------------------- emitted sort keys

  /** Per order dimension an `IS NULL` indicator, then the column itself. */
  function OrderKeys(t: Tuple): Tuple {
    if t == [] then []
    else [D(if t[0].NullDim? then 1 else 0), t[0]] + OrderKeys(t[1..])
  }

  /** A dialect's own ascending order on one sort key. */
  predicate KeyLe(a: Dim, b: Dim, nullsFirst: bool) {
    if a.NullDim? then nullsFirst || b.NullDim?
    else if b.NullDim? then !nullsFirst
    else a.v <= b.v
  }

  predicate KeysLe(a: Tuple, b: Tuple, nullsFirst: bool) {
    if a == [] then true
    else if b == [] then false
    else if a[0] == b[0] then KeysLe(a[1..], b[1..], nullsFirst)
    else KeyLe(a[0], b[0], nullsFirst)
  }

  /** The emitted keys sort NULLs last on every dialect, wherever it sorts them by default. */
  lemma {:induction false} OrderKeysSortNullsLast(a: Tuple, b: Tuple, nullsFirst: bool)
    requires |a| == |b|
    ensures KeysLe(OrderKeys(a), OrderKeys(b), nullsFirst) <==> TupleLe(a, b)
  {
    if a != [] {
      OrderKeysSortNullsLast(a[1..], b[1..], nullsFirst);
      var ka, kb := OrderKeys(a), OrderKeys(b);
      assert ka[1..] == [a[0]] + OrderKeys(a[1..]) && kb[1..] == [b[0]] + OrderKeys(b[1..]);
      assert ka[1..][1..] == OrderKeys(a[1..]) && kb[1..][1..] == OrderKeys(b[1..]);
    }
  }
}
