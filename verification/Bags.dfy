/** Aggregates that do not depend on the order of their rows. */
module Bags {
  import opened Relational
  import opened Plans

  function Without<A>(s: seq<A>, i: nat): seq<A>
    requires i < |s|
  {
    s[..i] + s[i + 1..]
  }

  /** Drop the first row of `a` from both listings. */
  lemma {:induction false} DropFirst<A>(a: seq<A>, b: seq<A>) returns (i: nat)
    requires a != [] && multiset(a) == multiset(b)
    ensures i < |b| && b[i] == a[0]
    ensures multiset(a[1..]) == multiset(Without(b, i))
    ensures b == b[..i] + ([a[0]] + b[i + 1..])
  {
    assert a == [a[0]] + a[1..];
    assert a[0] in multiset(b);
    i :| 0 <= i < |b| && b[i] == a[0];
    assert b == b[..i] + ([b[i]] + b[i + 1..]);
    assert multiset(b) == multiset(Without(b, i)) + multiset{a[0]};
    assert multiset(a[1..]) == multiset(a) - multiset{a[0]};
    assert multiset(Without(b, i)) == multiset(b) - multiset{a[0]};
  }

  lemma {:induction false} SumSeqBag<A>(a: seq<A>, b: seq<A>, f: A -> real)
    requires multiset(a) == multiset(b)
    ensures SumSeq(a, f) == SumSeq(b, f)
  {
    if a == [] {
      NoneLeft(b);
    } else {
      var i := DropFirst(a, b);
      SumSeqBag(a[1..], Without(b, i), f);
      SumSeqAppend(b[..i], b[i + 1..], f);
      SumSeqAppend(b[..i], [a[0]] + b[i + 1..], f);
    }
  }

  lemma {:induction false} NoneLeft<A>(s: seq<A>)
    ensures multiset(s) == multiset{} ==> s == []
  {
    if s != [] {
      assert s[0] in multiset(s);
    }
  }

  lemma {:induction false} MapDrop<A, B>(s: seq<A>, i: nat, f: A -> B)
    requires i < |s|
    ensures multiset(Map(s, f)) == multiset(Map(Without(s, i), f)) + multiset{f(s[i])}
  {
    var m := Map(s, f);
    assert m == m[..i] + ([m[i]] + m[i + 1..]);
    assert Map(Without(s, i), f) == m[..i] + m[i + 1..];
  }

  lemma {:induction false} MapBag<A, B>(a: seq<A>, b: seq<A>, f: A -> B)
    requires multiset(a) == multiset(b)
    ensures multiset(Map(a, f)) == multiset(Map(b, f))
  {
    if a == [] {
      NoneLeft(b);
    } else {
      var i := DropFirst(a, b);
      MapBag(a[1..], Without(b, i), f);
      MapDrop(a, 0, f);
      MapDrop(b, i, f);
      assert Without(a, 0) == a[1..];
    }
  }

  lemma {:induction false} FilterCount<A(!new)>(s: seq<A>, p: A -> bool, x: A)
    ensures multiset(Filter(s, p))[x] == if p(x) then multiset(s)[x] else 0
  {
    if s != [] {
      FilterCount(s[1..], p, x);
      assert s == [s[0]] + s[1..];
    }
  }

  lemma {:induction false} FilterBag<A(!new)>(a: seq<A>, b: seq<A>, p: A -> bool)
    requires multiset(a) == multiset(b)
    ensures multiset(Filter(a, p)) == multiset(Filter(b, p))
  {
    forall x
      ensures multiset(Filter(a, p))[x] == multiset(Filter(b, p))[x]
    {
      FilterCount(a, p, x);
      FilterCount(b, p, x);
    }
  }

  // ---------------------------------------------------------------- aggregates

  predicate IsAdditive(m: Measure) {
    m.agg in {Sum, Count, CountRows}
  }

  function PresentTerm(k: nat, counting: bool): BaseRow -> real {
    (r: BaseRow) => if InputOf(r, k).Null? then 0.0 else if counting then 1.0 else InputOf(r, k).x
  }

  /** What one row adds to an additive measure. */
  function WeightOf(m: Measure, r: BaseRow): real {
    if m.agg == CountRows then 1.0 else PresentTerm(m.input, m.agg == Count)(r)
  }

  lemma {:induction false} WeightByInputs(m: Measure, r: BaseRow, s: BaseRow)
    requires r.inputs == s.inputs
    ensures WeightOf(m, r) == WeightOf(m, s)
  {
    assert InputOf(r, m.input) == InputOf(s, m.input);
  }

  function Weight(m: Measure): BaseRow -> real {
    (r: BaseRow) => WeightOf(m, r)
  }

  lemma {:induction false} PresentSums(rows: seq<BaseRow>, k: nat)
    ensures SumSeq(Present(rows, k), (x: real) => x) == SumSeq(rows, PresentTerm(k, false))
    ensures |Present(rows, k)| as real == SumSeq(rows, PresentTerm(k, true))
  {
    if rows != [] {
      PresentSums(rows[1..], k);
      var c := InputOf(rows[0], k);
      if !c.Null? {
        assert Present(rows, k)[1..] == Present(rows[1..], k);
      } else {
        assert Present(rows, k) == Present(rows[1..], k);
      }
    }
  }

  lemma {:induction false} RowCount(rows: seq<BaseRow>, f: BaseRow -> real)
    requires forall r :: f(r) == 1.0
    ensures SumSeq(rows, f) == |rows| as real
  {
    if rows != [] {
      RowCount(rows[1..], f);
    }
  }

  /** An additive measure is the sum of what its rows add, NULL counting as nothing. */
  lemma {:induction false} AdditiveIsSum(m: Measure, rows: seq<BaseRow>)
    requires IsAdditive(m)
    ensures Coalesce0(Aggregate(m, rows)) == SumSeq(rows, Weight(m))
  {
    match m.agg
    case CountRows => RowCount(rows, Weight(m));
    case Count =>
      PresentSums(rows, m.input);
      SumSeqCongruence(rows, PresentTerm(m.input, true), Weight(m));
    case Sum =>
      PresentSums(rows, m.input);
      SumSeqCongruence(rows, PresentTerm(m.input, false), Weight(m));
      if Present(rows, m.input) == [] {
        assert SumSeq(Present(rows, m.input), (x: real) => x) == 0.0;
      }
  }

  lemma {:induction false} PresentHolds(rows: seq<BaseRow>, k: nat)
    ensures forall x :: x in Present(rows, k) <==> exists r :: r in rows && InputOf(r, k) == Num(x)
  {
    if rows != [] {
      PresentHolds(rows[1..], k);
      assert rows[0] in rows && forall r :: r in rows <==> r == rows[0] || r in rows[1..];
      forall x
        ensures x in Present(rows, k) <==> x in Present(rows[1..], k) || InputOf(rows[0], k) == Num(x)
      {
      }
    }
  }

  predicate Beats(x: real, y: real, least: bool) {
    if least then x <= y else y <= x
  }

  lemma {:induction false} ExtremeBeatsAll(s: seq<real>, least: bool)
    requires s != []
    ensures Extreme(s, least) in s
    ensures forall x :: x in s ==> Beats(Extreme(s, least), x, least)
  {
    if |s| > 1 {
      ExtremeBeatsAll(s[1..], least);
      assert forall x :: x in s <==> x == s[0] || x in s[1..];
    }
  }

  lemma {:induction false} ExtremeBag(a: seq<real>, b: seq<real>, least: bool)
    requires a != [] && b != [] && forall x :: x in a <==> x in b
    ensures Extreme(a, least) == Extreme(b, least)
  {
    ExtremeBeatsAll(a, least);
    ExtremeBeatsAll(b, least);
  }

  lemma {:induction false} PresentBag(a: seq<BaseRow>, b: seq<BaseRow>, k: nat)
    requires multiset(a) == multiset(b)
    ensures forall x :: x in Present(a, k) <==> x in Present(b, k)
    ensures Present(a, k) == [] <==> Present(b, k) == []
  {
    PresentHolds(a, k);
    PresentHolds(b, k);
    assert forall r :: r in a <==> r in multiset(a);
    assert forall r :: r in b <==> r in multiset(b);
    HeadIn(Present(a, k));
    HeadIn(Present(b, k));
  }

  /** Every aggregate is a function of the bag of rows. */
  lemma {:induction false} AggregateBag(m: Measure, a: seq<BaseRow>, b: seq<BaseRow>)
    requires multiset(a) == multiset(b)
    ensures Aggregate(m, a) == Aggregate(m, b)
  {
    PresentBag(a, b, m.input);
    PresentSums(a, m.input);
    PresentSums(b, m.input);
    SumSeqBag(a, b, PresentTerm(m.input, false));
    SumSeqBag(a, b, PresentTerm(m.input, true));
    assert |a| == |multiset(a)| == |multiset(b)| == |b|;
    if Present(a, m.input) != [] {
      ExtremeBag(Present(a, m.input), Present(b, m.input), m.agg == Min);
    }
  }

  // ---------------------------------------------------------------- sums by key

  /** `x` added up `k` times. */
  function Times(k: nat, x: real): real {
    if k == 0 then 0.0 else x + Times(k - 1, x)
  }

  function OneOf<K(==)>(k: K, x: real): K -> real {
    (j: K) => if j == k then x else 0.0
  }

  lemma {:induction false} SumOneOf<K>(keys: seq<K>, k: K, x: real)
    requires NoDup(keys)
    ensures SumSeq(keys, OneOf(k, x)) == if k in keys then x else 0.0
  {
    if keys != [] {
      SumOneOf(keys[1..], k, x);
      assert forall j :: j in keys <==> j == keys[0] || j in keys[1..];
      assert keys[0] !in keys[1..];
    }
  }

  lemma {:induction false} SumPlus<A>(s: seq<A>, f: A -> real, g: A -> real, h: A -> real)
    requires forall x :: x in s ==> h(x) == f(x) + g(x)
    ensures SumSeq(s, h) == SumSeq(s, f) + SumSeq(s, g)
  {
    if s != [] {
      SumPlus(s[1..], f, g, h);
    }
  }

  function Keyed<A(!new), K(==)>(rows: seq<A>, key: A -> K, k: K): seq<A> {
    Filter(rows, (r: A) => key(r) == k)
  }

  function SumAt<A(!new), K(==)>(rows: seq<A>, key: A -> K, f: A -> real): K -> real {
    (k: K) => SumSeq(Keyed(rows, key, k), f)
  }

  /** Summing the parts of a partition by key sums the whole. */
  lemma {:induction false} SumByKey<A(!new), K(!new)>(rows: seq<A>, key: A -> K, keys: seq<K>, f: A -> real)
    requires NoDup(keys) && forall r :: r in rows ==> key(r) in keys
    ensures SumSeq(keys, SumAt(rows, key, f)) == SumSeq(rows, f)
  {
    if rows == [] {
      SumNothing(keys, SumAt(rows, key, f));
    } else {
      SumByKey(rows[1..], key, keys, f);
      var k := key(rows[0]);
      assert rows[0] in rows;
      SumOneOf(keys, k, f(rows[0]));
      forall j | j in keys
        ensures SumAt(rows, key, f)(j) == OneOf(k, f(rows[0]))(j) + SumAt(rows[1..], key, f)(j)
      {
        if j == k {
          assert Keyed(rows, key, j) == [rows[0]] + Keyed(rows[1..], key, j);
        }
      }
      SumPlus(keys, OneOf(k, f(rows[0])), SumAt(rows[1..], key, f), SumAt(rows, key, f));
    }
  }

  lemma {:induction false} SumMap<A, B>(s: seq<A>, g: A -> B, f: B -> real, h: A -> real)
    requires forall x :: x in s ==> h(x) == f(g(x))
    ensures SumSeq(Map(s, g), f) == SumSeq(s, h)
  {
    if s != [] {
      assert Map(s, g)[1..] == Map(s[1..], g);
      SumMap(s[1..], g, f, h);
    }
  }

  function GroupTotal(m: Measure): Group -> real {
    (g: Group) => Coalesce0(Aggregate(m, g.rows))
  }

  /** The groups of a SELECT add up to all of its rows. */
  lemma {:induction false} GroupsAddUp(b: Branch, n: nat, m: Measure)
    requires IsAdditive(m)
    ensures SumSeq(GroupsOf(b, n), GroupTotal(m)) == SumSeq(b.rows, Weight(m))
  {
    if n == 0 {
      AdditiveIsSum(m, b.rows);
      assert GroupsOf(b, n)[1..] == [];
    } else {
      var keys := Distinct(Map(b.rows, DimsOf()));
      KeysCover(b.rows);
      SumByKey(b.rows, DimsOf(), keys, Weight(m));
      forall d | d in keys
        ensures SumAt(b.rows, DimsOf(), Weight(m))(d) == GroupTotal(m)(MakeGroup(b)(d))
      {
        MakeGroupTotal(b, m, d);
      }
      SumMap(keys, MakeGroup(b), GroupTotal(m), SumAt(b.rows, DimsOf(), Weight(m)));
      GroupsAreMade(b, n);
    }
  }

  function DimsOf(): BaseRow -> Tuple {
    (r: BaseRow) => r.dims
  }

  function MakeGroup(b: Branch): Tuple -> Group {
    (d: Tuple) => Group(d, b.isFinal, Keyed(b.rows, DimsOf(), d))
  }

  lemma {:induction false} KeysCover(rows: seq<BaseRow>)
    ensures forall r :: r in rows ==> r.dims in Distinct(Map(rows, DimsOf()))
  {
    forall r | r in rows
      ensures r.dims in Distinct(Map(rows, DimsOf()))
    {
      var i :| 0 <= i < |rows| && rows[i] == r;
      assert Map(rows, DimsOf())[i] == r.dims;
    }
  }

  lemma {:induction false} MakeGroupTotal(b: Branch, m: Measure, d: Tuple)
    requires IsAdditive(m)
    ensures SumAt(b.rows, DimsOf(), Weight(m))(d) == GroupTotal(m)(MakeGroup(b)(d))
  {
    AdditiveIsSum(m, Keyed(b.rows, DimsOf(), d));
  }

  lemma {:induction false} GroupsAreMade(b: Branch, n: nat)
    requires n > 0
    ensures GroupsOf(b, n) == Map(Distinct(Map(b.rows, DimsOf())), MakeGroup(b))
  {
    assert Map(b.rows, (r: BaseRow) => r.dims) == Map(b.rows, DimsOf());
    forall d: Tuple
      ensures Filter(b.rows, (r: BaseRow) => r.dims == d) == Keyed(b.rows, DimsOf(), d)
    {
      KeyedIs(b.rows, DimsOf(), d, (r: BaseRow) => r.dims == d);
    }
  }

  lemma {:induction false} KeyedIs<A(!new), K>(rows: seq<A>, key: A -> K, k: K, p: A -> bool)
    requires forall r :: r in rows ==> p(r) == (key(r) == k)
    ensures Filter(rows, p) == Keyed(rows, key, k)
  {
    if rows != [] {
      KeyedIs(rows[1..], key, k, p);
    }
  }
}
