/** The rows `fill_observed` adds: observed order tuples crossed with observed partitions. */
module Fill {
  import opened Relational
  import opened Plans
  import opened Ordering

  // ---------------------------------------------------------------- splitting and merging tuples

  /** Order and partition positions together are every requested dimension, each once. */
  ghost predicate Covers(acc: Accumulate, n: nat) {
    && NoDup(acc.orderBy) && NoDup(acc.partitionBy)
    && (forall c :: c in acc.orderBy ==> c < n && c !in acc.partitionBy)
    && (forall c :: c in acc.partitionBy ==> c < n)
    && (forall c :: 0 <= c < n ==> c in acc.orderBy || c in acc.partitionBy)
  }

  function IndexOf(s: seq<nat>, c: nat): (k: nat)
    requires c in s
    ensures k < |s| && s[k] == c
  {
    if s[0] == c then 0 else 1 + IndexOf(s[1..], c)
  }

  /** The dimension tuple made of an order tuple and a partition tuple. */
  function Merge(o: Tuple, p: Tuple, acc: Accumulate, n: nat): (r: Tuple)
    ensures |r| == n
  {
    seq(n, c requires 0 <= c < n =>
      if c in acc.orderBy then (var k := IndexOf(acc.orderBy, c); if k < |o| then o[k] else NullDim)
      else if c in acc.partitionBy then (var k := IndexOf(acc.partitionBy, c); if k < |p| then p[k] else NullDim)
      else NullDim)
  }

  lemma {:induction false} MergeProjects(o: Tuple, p: Tuple, acc: Accumulate, n: nat)
    requires Covers(acc, n) && |o| == |acc.orderBy| && |p| == |acc.partitionBy|
    ensures Project(Merge(o, p, acc, n), acc.orderBy) == o
    ensures Project(Merge(o, p, acc, n), acc.partitionBy) == p
  {
    var d := Merge(o, p, acc, n);
    forall k | 0 <= k < |o|
      ensures Project(d, acc.orderBy)[k] == o[k]
    {
      var c := acc.orderBy[k];
      assert c in acc.orderBy;
      assert IndexOf(acc.orderBy, c) == k;
    }
    forall k | 0 <= k < |p|
      ensures Project(d, acc.partitionBy)[k] == p[k]
    {
      var c := acc.partitionBy[k];
      assert c in acc.partitionBy;
      assert c !in acc.orderBy;
      assert IndexOf(acc.partitionBy, c) == k;
    }
  }

  lemma {:induction false} ProjectMerges(d: Tuple, acc: Accumulate, n: nat)
    requires Covers(acc, n) && |d| == n
    ensures Merge(Project(d, acc.orderBy), Project(d, acc.partitionBy), acc, n) == d
  {
  }

  // ---------------------------------------------------------------- DENSE_RANK

  /** The order tuples strictly before `o`, without repeats. */
  function Before(orders: seq<Tuple>, o: Tuple): seq<Tuple> {
    Distinct(Filter(orders, (x: Tuple) => TupleLe(x, o) && x != o))
  }

  function DenseRank(orders: seq<Tuple>, o: Tuple): nat {
    |Before(orders, o)| + 1
  }

  lemma {:induction false} NoDupCardinality<A>(s: seq<A>)
    requires NoDup(s)
    ensures |Elems(s)| == |s|
  {
    if s == [] {
      assert Elems(s) == {};
    } else {
      assert s == [s[0]] + s[1..];
      NoDupCardinality(s[1..]);
      assert s[0] !in s[1..];
      assert Elems(s) == {s[0]} + Elems(s[1..]);
    }
  }

  lemma {:induction false} SubsetSize<A>(a: set<A>, b: set<A>)
    requires a <= b
    ensures |a| <= |b|
    ensures a != b ==> |a| < |b|
    decreases a
  {
    if a != {} {
      var x :| x in a;
      SubsetSize(a - {x}, b - {x});
    } else if b != {} {
      assert |b| > 0;
    }
  }

  /** Comparing ranks is comparing whole order tuples, NULLs last. */
  lemma {:induction false} RankComparesTuples(orders: seq<Tuple>, a: Tuple, b: Tuple)
    requires a in orders && b in orders
    ensures DenseRank(orders, a) <= DenseRank(orders, b) <==> TupleLe(a, b)
  {
    var ba, bb := Before(orders, a), Before(orders, b);
    NoDupCardinality(ba);
    NoDupCardinality(bb);
    TupleLeTotal(a, b);
    if TupleLe(a, b) {
      BeforeMonotone(orders, a, b);
      SubsetSize(Elems(ba), Elems(bb));
    } else {
      BeforeMonotone(orders, b, a);
      assert b in Elems(ba) && b !in Elems(bb);
      SubsetSize(Elems(bb), Elems(ba));
    }
  }

  lemma {:induction false} BeforeMonotone(orders: seq<Tuple>, a: Tuple, b: Tuple)
    requires TupleLe(a, b)
    ensures Elems(Before(orders, a)) <= Elems(Before(orders, b))
  {
    forall x | x in Before(orders, a)
      ensures x in Before(orders, b)
    {
      TupleLeTransitive(x, a, b);
      if x == b { TupleLeAntisymmetric(a, b); }
    }
  }

  // ---------------------------------------------------------------- the fill query

  /** A leaf row's dimensions, split into its order tuple and its partition tuple. */
  datatype Split = Split(order: Tuple, part: Tuple)

  /** A row of the `order_rank` CTE. */
  datatype Ranked = Ranked(row: Split, rank: nat)

  function Splits(tuples: seq<Tuple>, acc: Accumulate): (r: seq<Split>)
    ensures |r| == |tuples|
  {
    Map(tuples, (d: Tuple) => Split(Project(d, acc.orderBy), Project(d, acc.partitionBy)))
  }

  function Orders(rows: seq<Split>): (r: seq<Tuple>)
    ensures |r| == |rows|
    ensures forall o :: o in r <==> exists x :: x in rows && x.order == o
  {
    var r := Map(rows, (x: Split) => x.order);
    assert forall x :: x in rows ==> x.order in r by {
      forall x | x in rows
        ensures x.order in r
      {
        var k :| 0 <= k < |rows| && rows[k] == x;
        assert r[k] == x.order;
      }
    }
    r
  }

  function RankedRows(rows: seq<Split>): (r: seq<Ranked>)
    ensures |r| == |rows|
  {
    var orders := Orders(rows);
    Map(rows, (x: Split) => Ranked(x, DenseRank(orders, x.order)))
  }

  /** Distinct (order tuple, rank) pairs. */
  function ObservedTuples(rows: seq<Ranked>): seq<(Tuple, nat)> {
    Distinct(Map(rows, (r: Ranked) => (r.row.order, r.rank)))
  }

  function MinRank(rows: seq<Ranked>): nat {
    if rows == [] then 0
    else if |rows| == 1 then rows[0].rank
    else
      var rest := MinRank(rows[1..]);
      if rows[0].rank <= rest then rows[0].rank else rest
  }

  function InPartition(rows: seq<Ranked>, part: Tuple): (r: seq<Ranked>) {
    Filter(rows, (x: Ranked) => x.row.part == part)
  }

  /** Each observed partition with its lowest rank. */
  function ObservedPartitions(rows: seq<Ranked>): seq<(Tuple, nat)> {
    Map(Distinct(Map(rows, (r: Ranked) => r.row.part)), (part: Tuple) => (part, MinRank(InPartition(rows, part))))
  }

  /** The CROSS JOIN of tuples and partitions, kept where the rank is not below the first one. */
  function CrossFill(ts: seq<(Tuple, nat)>, ps: seq<(Tuple, nat)>, acc: Accumulate, n: nat): seq<Tuple> {
    if ts == [] then []
    else Map(Filter(ps, (p: (Tuple, nat)) => ts[0].1 >= p.1), (p: (Tuple, nat)) => Merge(ts[0].0, p.0, acc, n))
         + CrossFill(ts[1..], ps, acc, n)
  }

  /** What the fill CTE of a leaf with these dimension tuples returns. */
  function FillRows(tuples: seq<Tuple>, acc: Accumulate, n: nat): seq<Tuple> {
    var rows := RankedRows(Splits(tuples, acc));
    CrossFill(ObservedTuples(rows), ObservedPartitions(rows), acc, n)
  }

  // ---------------------------------------------------------------- exactness

  /** The order tuple is observed, and some row of the partition is at or before it. */
  ghost predicate Fillable(rows: seq<Split>, d: Split) {
    && (exists x :: x in rows && x.order == d.order)
    && (exists x :: x in rows && x.part == d.part && TupleLe(x.order, d.order))
  }

  lemma {:induction false} MinRankIsLeast(rows: seq<Ranked>)
    requires rows != []
    ensures forall r :: r in rows ==> MinRank(rows) <= r.rank
    ensures exists r :: r in rows && r.rank == MinRank(rows)
  {
    if |rows| > 1 {
      MinRankIsLeast(rows[1..]);
      assert rows == [rows[0]] + rows[1..];
      assert rows[0] in rows;
      var r :| r in rows[1..] && r.rank == MinRank(rows[1..]);
      assert r in rows;
    } else {
      assert rows[0] in rows;
    }
  }

  lemma {:induction false} CrossFillMembers(ts: seq<(Tuple, nat)>, ps: seq<(Tuple, nat)>, acc: Accumulate, n: nat,
      d: Tuple)
    requires Covers(acc, n) && |d| == n
    requires forall t :: t in ts ==> |t.0| == |acc.orderBy|
    requires forall p :: p in ps ==> |p.0| == |acc.partitionBy|
    ensures d in CrossFill(ts, ps, acc, n) <==> Pairs(ts, ps, SplitOf(d, acc))
  {
    if ts != [] {
      CrossFillMembers(ts[1..], ps, acc, n, d);
      var t0 := ts[0];
      assert ts == [t0] + ts[1..];
      var kept := Filter(ps, (p: (Tuple, nat)) => t0.1 >= p.1);
      var head := Map(kept, (p: (Tuple, nat)) => Merge(t0.0, p.0, acc, n));
      if d in head {
        var k :| 0 <= k < |head| && head[k] == d;
        assert kept[k] in ps;
        MergeProjects(t0.0, kept[k].0, acc, n);
        assert t0 in ts;
      }
      if p :| p in ps && t0.0 == Project(d, acc.orderBy) && p.0 == Project(d, acc.partitionBy) && t0.1 >= p.1 {
        assert p in kept;
        var k :| 0 <= k < |kept| && kept[k] == p;
        ProjectMerges(d, acc, n);
        assert head[k] == d;
      }
    }
  }

  ghost predicate KeyedOnce(s: seq<(Tuple, nat)>) {
    forall i, j :: 0 <= i < j < |s| ==> s[i].0 != s[j].0
  }

  lemma {:induction false} FilterKeyedOnce(s: seq<(Tuple, nat)>, p: ((Tuple, nat)) -> bool)
    requires KeyedOnce(s)
    ensures KeyedOnce(Filter(s, p))
  {
    if s != [] {
      FilterKeyedOnce(s[1..], p);
      assert forall x :: x in s[1..] ==> x.0 != s[0].0;
    }
  }

  lemma {:induction false} CrossFillLengths(ts: seq<(Tuple, nat)>, ps: seq<(Tuple, nat)>, acc: Accumulate, n: nat)
    ensures forall d :: d in CrossFill(ts, ps, acc, n) ==> |d| == n
  {
    if ts != [] {
      CrossFillLengths(ts[1..], ps, acc, n);
    }
  }

  lemma {:induction false} CrossFillOnce(ts: seq<(Tuple, nat)>, ps: seq<(Tuple, nat)>, acc: Accumulate, n: nat)
    requires Covers(acc, n) && KeyedOnce(ts) && KeyedOnce(ps)
    requires forall t :: t in ts ==> |t.0| == |acc.orderBy|
    requires forall p :: p in ps ==> |p.0| == |acc.partitionBy|
    ensures NoDup(CrossFill(ts, ps, acc, n))
  {
    if ts != [] {
      var t0 := ts[0];
      assert ts == [t0] + ts[1..];
      CrossFillOnce(ts[1..], ps, acc, n);
      CrossFillLengths(ts[1..], ps, acc, n);
      var kept := Filter(ps, (p: (Tuple, nat)) => t0.1 >= p.1);
      FilterKeyedOnce(ps, (p: (Tuple, nat)) => t0.1 >= p.1);
      var head := Map(kept, (p: (Tuple, nat)) => Merge(t0.0, p.0, acc, n));
      forall k | 0 <= k < |head|
        ensures Project(head[k], acc.orderBy) == t0.0 && Project(head[k], acc.partitionBy) == kept[k].0
      {
        assert kept[k] in ps;
        MergeProjects(t0.0, kept[k].0, acc, n);
      }
      assert NoDup(head);
      forall d | d in CrossFill(ts[1..], ps, acc, n)
        ensures Project(d, acc.orderBy) != t0.0
      {
        CrossFillMembers(ts[1..], ps, acc, n, d);
      }
      NoDupAppend(head, CrossFill(ts[1..], ps, acc, n));
    }
  }

  /** `ts` lists every observed order tuple once, with its rank. */
  ghost predicate RanksTuples(orders: seq<Tuple>, ts: seq<(Tuple, nat)>) {
    && KeyedOnce(ts)
    && (forall t :: t in ts ==> t.0 in orders && t.1 == DenseRank(orders, t.0))
    && (forall o :: o in orders ==> (o, DenseRank(orders, o)) in ts)
  }

  lemma {:induction false} TuplesObserved(rows: seq<Split>)
    ensures RanksTuples(Orders(rows), ObservedTuples(RankedRows(rows)))
  {
    var orders := Orders(rows);
    var pairs := Map(RankedRows(rows), (r: Ranked) => (r.row.order, r.rank));
    assert forall k :: 0 <= k < |orders| ==> pairs[k] == (orders[k], DenseRank(orders, orders[k]));
    PairsRank(orders, pairs);
  }

  lemma {:induction false} PairsRank(orders: seq<Tuple>, pairs: seq<(Tuple, nat)>)
    requires |pairs| == |orders|
    requires forall k :: 0 <= k < |orders| ==> pairs[k] == (orders[k], DenseRank(orders, orders[k]))
    ensures RanksTuples(orders, Distinct(pairs))
  {
    forall t | t in Distinct(pairs)
      ensures t.0 in orders && t.1 == DenseRank(orders, t.0)
    {
      var k :| 0 <= k < |pairs| && pairs[k] == t;
      assert orders[k] in orders;
    }
    forall o | o in orders
      ensures (o, DenseRank(orders, o)) in Distinct(pairs)
    {
      var k :| 0 <= k < |orders| && orders[k] == o;
      assert pairs[k] in pairs;
    }
  }

  ghost function RankIn(rows: seq<Split>, x: Split): nat {
    DenseRank(Orders(rows), x.order)
  }

  /** `first` is the lowest rank observed in partition `part`, and some row attains it. */
  ghost predicate FirstRank(rows: seq<Split>, part: Tuple, first: nat) {
    && (forall x :: x in rows && x.part == part ==> first <= RankIn(rows, x))
    && (exists x :: x in rows && x.part == part && first == RankIn(rows, x))
  }

  /** `ps` lists every observed partition once, with its lowest rank. */
  ghost predicate RanksPartitions(rows: seq<Split>, ps: seq<(Tuple, nat)>) {
    && KeyedOnce(ps)
    && (forall p :: p in ps ==> FirstRank(rows, p.0, p.1))
    && (forall x :: x in rows ==> exists p :: p in ps && p.0 == x.part)
  }

  lemma {:induction false} PartitionsObserved(rows: seq<Split>)
    ensures RanksPartitions(rows, ObservedPartitions(RankedRows(rows)))
  {
    var ranked := RankedRows(rows);
    var parts := Map(ranked, (r: Ranked) => r.row.part);
    var ps, keys := ObservedPartitions(ranked), Distinct(parts);
    forall p | p in ps
      ensures FirstRank(rows, p.0, p.1)
    {
      var k :| 0 <= k < |ps| && ps[k] == p;
      assert keys[k] in parts;
      var i :| 0 <= i < |parts| && parts[i] == p.0;
      PartitionFirstRank(rows, p.0, rows[i]);
    }
    forall x | x in rows
      ensures exists p :: p in ps && p.0 == x.part
    {
      PartitionListed(rows, x);
    }
  }

  lemma {:induction false} PartitionListed(rows: seq<Split>, x: Split)
    requires x in rows
    ensures exists p :: p in ObservedPartitions(RankedRows(rows)) && p.0 == x.part
  {
    var ranked := RankedRows(rows);
    var parts := Map(ranked, (r: Ranked) => r.row.part);
    var ps, keys := ObservedPartitions(ranked), Distinct(parts);
    var m :| 0 <= m < |rows| && rows[m] == x;
    assert parts[m] in keys;
    var k :| 0 <= k < |keys| && keys[k] == parts[m];
    assert ps[k] in ps;
  }

  lemma {:induction false} PartitionFirstRank(rows: seq<Split>, part: Tuple, member: Split)
    requires member in rows && member.part == part
    ensures FirstRank(rows, part, MinRank(InPartition(RankedRows(rows), part)))
  {
    var ranked := RankedRows(rows);
    var own := InPartition(ranked, part);
    forall x | x in rows && x.part == part
      ensures Ranked(x, RankIn(rows, x)) in own
    {
      var m :| 0 <= m < |rows| && rows[m] == x;
      assert ranked[m] == Ranked(x, RankIn(rows, x));
    }
    assert Ranked(member, RankIn(rows, member)) in own;
    MinRankIsLeast(own);
    var r :| r in own && r.rank == MinRank(own);
    var j :| 0 <= j < |ranked| && ranked[j] == r;
    assert rows[j] in rows && r.rank == RankIn(rows, rows[j]);
  }

  /** `d` pairs a listed order tuple with a listed partition that starts no later. */
  ghost predicate Pairs(ts: seq<(Tuple, nat)>, ps: seq<(Tuple, nat)>, d: Split) {
    exists t, p :: t in ts && p in ps && t.0 == d.order && p.0 == d.part && t.1 >= p.1
  }

  lemma {:induction false} PairsAreFillable(rows: seq<Split>, ts: seq<(Tuple, nat)>, ps: seq<(Tuple, nat)>, d: Split)
    requires RanksTuples(Orders(rows), ts) && RanksPartitions(rows, ps)
    requires Pairs(ts, ps, d)
    ensures Fillable(rows, d)
  {
    var t, p :| t in ts && p in ps && t.0 == d.order && p.0 == d.part && t.1 >= p.1;
    assert t.0 in Orders(rows);
    assert FirstRank(rows, p.0, p.1);
    var f :| f in rows && f.part == p.0 && p.1 == RankIn(rows, f);
    assert f.order in Orders(rows);
    RankComparesTuples(Orders(rows), f.order, t.0);
  }

  lemma {:induction false} FillableArePairs(rows: seq<Split>, ts: seq<(Tuple, nat)>, ps: seq<(Tuple, nat)>, d: Split)
    requires RanksTuples(Orders(rows), ts) && RanksPartitions(rows, ps)
    requires Fillable(rows, d)
    ensures Pairs(ts, ps, d)
  {
    var b :| b in rows && b.part == d.part && TupleLe(b.order, d.order);
    var p :| p in ps && p.0 == b.part;
    assert d.order in Orders(rows);
    assert (d.order, DenseRank(Orders(rows), d.order)) in ts;
    assert FirstRank(rows, p.0, p.1);
    FirstRankBelow(rows, p, b, d.order);
  }

  lemma {:induction false} FirstRankBelow(rows: seq<Split>, p: (Tuple, nat), b: Split, o: Tuple)
    requires FirstRank(rows, p.0, p.1) && b in rows && b.part == p.0
    requires o in Orders(rows) && TupleLe(b.order, o)
    ensures p.1 <= DenseRank(Orders(rows), o)
  {
    assert p.1 <= RankIn(rows, b);
    assert b.order in Orders(rows);
    RankComparesTuples(Orders(rows), b.order, o);
  }

  ghost function SplitOf(d: Tuple, acc: Accumulate): Split {
    Split(Project(d, acc.orderBy), Project(d, acc.partitionBy))
  }

  /** The fill query returns exactly the observed order tuples crossed with the observed
      partitions, from each partition's first tuple on, each combination once. */
  lemma {:induction false} FillExact(tuples: seq<Tuple>, acc: Accumulate, n: nat)
    requires Covers(acc, n)
    ensures NoDup(FillRows(tuples, acc, n))
    ensures forall d :: d in FillRows(tuples, acc, n) <==> |d| == n && Fillable(Splits(tuples, acc), SplitOf(d, acc))
  {
    var rows := Splits(tuples, acc);
    var ts, ps := ObservedTuples(RankedRows(rows)), ObservedPartitions(RankedRows(rows));
    TuplesObserved(rows);
    PartitionsObserved(rows);
    ListingsFit(tuples, acc, ts, ps);
    CrossFillOnce(ts, ps, acc, n);
    CrossFillLengths(ts, ps, acc, n);
    forall d | |d| == n
      ensures d in CrossFill(ts, ps, acc, n) <==> Fillable(rows, SplitOf(d, acc))
    {
      CrossFillMembers(ts, ps, acc, n, d);
      PairsIffFillable(rows, ts, ps, SplitOf(d, acc));
    }
  }

  lemma {:induction false} PairsIffFillable(rows: seq<Split>, ts: seq<(Tuple, nat)>, ps: seq<(Tuple, nat)>, d: Split)
    requires RanksTuples(Orders(rows), ts) && RanksPartitions(rows, ps)
    ensures Pairs(ts, ps, d) <==> Fillable(rows, d)
  {
    if Pairs(ts, ps, d) {
      PairsAreFillable(rows, ts, ps, d);
    }
    if Fillable(rows, d) {
      FillableArePairs(rows, ts, ps, d);
    }
  }

  lemma {:induction false} ListingsFit(tuples: seq<Tuple>, acc: Accumulate, ts: seq<(Tuple, nat)>,
      ps: seq<(Tuple, nat)>)
    requires RanksTuples(Orders(Splits(tuples, acc)), ts) && RanksPartitions(Splits(tuples, acc), ps)
    ensures forall t :: t in ts ==> |t.0| == |acc.orderBy|
    ensures forall p :: p in ps ==> |p.0| == |acc.partitionBy|
  {
    SplitWidths(tuples, acc);
    forall t | t in ts
      ensures |t.0| == |acc.orderBy|
    {
      assert t.0 in Orders(Splits(tuples, acc));
    }
    forall p | p in ps
      ensures |p.0| == |acc.partitionBy|
    {
      assert FirstRank(Splits(tuples, acc), p.0, p.1);
    }
  }

  lemma {:induction false} SplitWidths(tuples: seq<Tuple>, acc: Accumulate)
    ensures forall x :: x in Splits(tuples, acc) ==> |x.order| == |acc.orderBy| && |x.part| == |acc.partitionBy|
    ensures forall o :: o in Orders(Splits(tuples, acc)) ==> |o| == |acc.orderBy|
  {
  }

  lemma {:induction false} SplitIn(tuples: seq<Tuple>, acc: Accumulate, t: Tuple)
    requires t in tuples
    ensures SplitOf(t, acc) in Splits(tuples, acc)
  {
    var k :| 0 <= k < |tuples| && tuples[k] == t;
    assert Splits(tuples, acc)[k] == SplitOf(t, acc);
  }

  /** Filling never loses a row: every leaf tuple is among the filled ones. */
  lemma {:induction false} LeafRowsAreFilled(tuples: seq<Tuple>, acc: Accumulate, n: nat, t: Tuple)
    requires Covers(acc, n) && t in tuples && |t| == n
    ensures t in FillRows(tuples, acc, n)
  {
    FillExact(tuples, acc, n);
    SplitIn(tuples, acc, t);
    OwnRowFillable(Splits(tuples, acc), SplitOf(t, acc));
  }

  lemma {:induction false} OwnRowFillable(rows: seq<Split>, x: Split)
    requires x in rows
    ensures Fillable(rows, x)
  {
    TupleLeReflexive(x.order);
  }
}
