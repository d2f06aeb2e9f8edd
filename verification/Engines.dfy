/** Engines that sort windows as SQL asks exist, wherever they put NULLs by default. */
module Engines {
  import opened Relational
  import opened Plans
  import opened Ordering
  import opened Semantics

  predicate InOrder(rows: seq<SpineRow>, acc: Accumulate, i: nat, j: nat) {
    i < |rows| && j < |rows| && TupleLe(OrderOf(acc, rows[i]), OrderOf(acc, rows[j]))
  }

  /** Positions of rows in order. */
  ghost predicate Sorted(p: seq<nat>, rows: seq<SpineRow>, acc: Accumulate) {
    forall a, b :: 0 <= a < b < |p| ==> InOrder(rows, acc, p[a], p[b])
  }

  function Insert(p: seq<nat>, k: nat, rows: seq<SpineRow>, acc: Accumulate): (r: seq<nat>)
    ensures |r| == |p| + 1
  {
    if p == [] then [k]
    else if InOrder(rows, acc, k, p[0]) then [k] + p
    else [p[0]] + Insert(p[1..], k, rows, acc)
  }

  /** The positions of the first `n` rows, sorted. */
  function Arrangement(rows: seq<SpineRow>, acc: Accumulate, n: nat): seq<nat> {
    if n == 0 then [] else Insert(Arrangement(rows, acc, n - 1), n - 1, rows, acc)
  }

  function SortingEngine(): Scan {
    (acc: Accumulate, rows: seq<SpineRow>) => Arrangement(rows, acc, |rows|)
  }

  lemma {:induction false} InsertMembers(p: seq<nat>, k: nat, rows: seq<SpineRow>, acc: Accumulate, x: nat)
    ensures x in Insert(p, k, rows, acc) <==> x in p || x == k
  {
    if p != [] && !InOrder(rows, acc, k, p[0]) {
      InsertMembers(p[1..], k, rows, acc, x);
      assert p == [p[0]] + p[1..];
    }
  }

  lemma {:induction false} InsertOnce(p: seq<nat>, k: nat, rows: seq<SpineRow>, acc: Accumulate)
    requires NoDup(p) && k !in p
    ensures NoDup(Insert(p, k, rows, acc))
  {
    if p == [] {
    } else if InOrder(rows, acc, k, p[0]) {
      NoDupAppend([k], p);
    } else {
      InsertOnce(p[1..], k, rows, acc);
      InsertMembers(p[1..], k, rows, acc, p[0]);
      assert p[0] !in p[1..];
      NoDupAppend([p[0]], Insert(p[1..], k, rows, acc));
    }
  }

  lemma {:induction false} InsertSorts(p: seq<nat>, k: nat, rows: seq<SpineRow>, acc: Accumulate)
    requires Sorted(p, rows, acc) && k < |rows| && Within(p, |rows|)
    ensures Sorted(Insert(p, k, rows, acc), rows, acc)
  {
    if p == [] {
    } else if InOrder(rows, acc, k, p[0]) {
      forall x | x in p
        ensures InOrder(rows, acc, k, x)
      {
        HeadIsLeast(p, k, rows, acc, x);
      }
      SortedCons(k, p, rows, acc);
    } else {
      InsertSorts(p[1..], k, rows, acc);
      forall x | x in Insert(p[1..], k, rows, acc)
        ensures InOrder(rows, acc, p[0], x)
      {
        InsertMembers(p[1..], k, rows, acc, x);
        TupleLeTotal(OrderOf(acc, rows[k]), OrderOf(acc, rows[p[0]]));
      }
      SortedCons(p[0], Insert(p[1..], k, rows, acc), rows, acc);
    }
  }

  lemma {:induction false} HeadIsLeast(p: seq<nat>, k: nat, rows: seq<SpineRow>, acc: Accumulate, x: nat)
    requires Sorted(p, rows, acc) && p != [] && InOrder(rows, acc, k, p[0]) && x in p
    ensures InOrder(rows, acc, k, x)
  {
    if x != p[0] {
      assert InOrder(rows, acc, p[0], x);
      TupleLeTransitive(OrderOf(acc, rows[k]), OrderOf(acc, rows[p[0]]), OrderOf(acc, rows[x]));
    }
  }

  lemma {:induction false} SortedCons(k: nat, p: seq<nat>, rows: seq<SpineRow>, acc: Accumulate)
    requires Sorted(p, rows, acc) && forall x :: x in p ==> InOrder(rows, acc, k, x)
    ensures Sorted([k] + p, rows, acc)
  {
  }

  /** The positions are those below `n`. */
  ghost predicate Lists(p: seq<nat>, n: nat) {
    Within(p, n) && forall k :: 0 <= k < n ==> k in p
  }

  lemma {:induction false} InsertLists(p: seq<nat>, rows: seq<SpineRow>, acc: Accumulate)
    requires Lists(p, |p|)
    ensures Lists(Insert(p, |p|, rows, acc), |p| + 1)
  {
    var q := Insert(p, |p|, rows, acc);
    forall a | 0 <= a < |q|
      ensures q[a] < |p| + 1
    {
      InsertMembers(p, |p|, rows, acc, q[a]);
    }
    forall k | 0 <= k < |p| + 1
      ensures k in q
    {
      InsertMembers(p, |p|, rows, acc, k);
    }
  }

  lemma {:induction false} ArrangementIsSorted(rows: seq<SpineRow>, acc: Accumulate, n: nat)
    requires n <= |rows|
    ensures var p := Arrangement(rows, acc, n);
      |p| == n && NoDup(p) && Lists(p, n) && Sorted(p, rows, acc)
  {
    if n > 0 {
      ArrangementIsSorted(rows, acc, n - 1);
      var p := Arrangement(rows, acc, n - 1);
      assert n - 1 !in p;
      InsertOnce(p, n - 1, rows, acc);
      InsertSorts(p, n - 1, rows, acc);
      InsertLists(p, rows, acc);
    }
  }

  /** One arrangement is right for engines that sort NULLs first and for those that sort them last. */
  lemma {:induction false} EnginesExist(nullsFirst: bool)
    ensures Sorts(SortingEngine(), nullsFirst)
  {
    forall acc, rows
      ensures Arranges(SortingEngine()(acc, rows), rows, acc, nullsFirst)
    {
      ArrangementIsSorted(rows, acc, |rows|);
      var p := Arrangement(rows, acc, |rows|);
      forall a, b | 0 <= a < b < |p|
        ensures Precedes(rows, acc, nullsFirst, p[a], p[b])
      {
        assert InOrder(rows, acc, p[a], p[b]);
        OrderKeysSortNullsLast(OrderOf(acc, rows[p[a]]), OrderOf(acc, rows[p[b]]), nullsFirst);
      }
    }
  }
}
