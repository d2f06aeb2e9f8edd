/** The fragment of SQL's semantics that the query compiler relies on: NULLs, three-valued
    logic, UNION, LEFT JOIN, and sums that do not depend on row order. */
module Relational {

  datatype Option<+T> = None | Some(value: T)

  /** A dimension value. Every non-NULL value belongs to one totally ordered domain. */
  datatype Dim = NullDim | D(v: int)

  type Tuple = seq<Dim>

  /** A measure value. Rounding is not modelled. */
  datatype Cell = Null | Num(x: real)

  datatype Truth = True | False | Unknown

  function Not3(a: Truth): Truth {
    match a
    case True => False
    case False => True
    case Unknown => Unknown
  }

  function And3(a: Truth, b: Truth): Truth {
    if a == False || b == False then False
    else if a == Unknown || b == Unknown then Unknown
    else True
  }

  function Or3(a: Truth, b: Truth): Truth {
    Not3(And3(Not3(a), Not3(b)))
  }

  function Bool3(b: bool): Truth {
    if b then True else False
  }

  /** SQL's `=` on dimension values: unknown as soon as one side is NULL. */
  function Eq3(a: Dim, b: Dim): Truth {
    if a.NullDim? || b.NullDim? then Unknown else Bool3(a == b)
  }

  /** A NULL measure counts as zero, as in COALESCE(x, 0). */
  function Coalesce0(c: Cell): real {
    if c.Null? then 0.0 else c.x
  }

  // ---------------------------------------------------------------- sequences

  function Map<A, B>(s: seq<A>, f: A -> B): (r: seq<B>)
    ensures |r| == |s|
    ensures forall i :: 0 <= i < |s| ==> r[i] == f(s[i])
  {
    seq(|s|, i requires 0 <= i < |s| => f(s[i]))
  }

  function Filter<A(!new)>(s: seq<A>, p: A -> bool): (r: seq<A>)
    ensures forall x :: x in r <==> x in s && p(x)
  {
    if s == [] then []
    else if p(s[0]) then [s[0]] + Filter(s[1..], p)
    else Filter(s[1..], p)
  }

  /** Row `x` occurs in one of the branches. */
  ghost predicate InSome<A>(x: A, s: seq<seq<A>>) {
    exists i :: 0 <= i < |s| && x in s[i]
  }

  lemma {:induction false} InSomeAppend<A>(x: A, s: seq<seq<A>>, last: seq<A>)
    ensures InSome(x, s + [last]) <==> InSome(x, s) || x in last
  {
    if x in last {
      assert x in (s + [last])[|s|];
    }
    if InSome(x, s) {
      var i :| 0 <= i < |s| && x in s[i];
      assert x in (s + [last])[i];
    }
  }

  /** UNION ALL of every branch. */
  function Flatten<A(!new)>(s: seq<seq<A>>): (r: seq<A>)
    ensures forall x :: x in r <==> InSome(x, s)
  {
    if s == [] then []
    else
      var n := |s| - 1;
      assert s == s[..n] + [s[n]];
      assert forall x :: InSome(x, s) <==> InSome(x, s[..n]) || x in s[n] by {
        forall x { InSomeAppend(x, s[..n], s[n]); }
      }
      Flatten(s[..n]) + s[n]
  }

  lemma {:induction false} HeadIn<A>(s: seq<A>)
    ensures s == [] || s[0] in s
  {
  }

  lemma {:induction false} HeadsDiffer<A>(s: seq<A>)
    ensures |s| < 2 || (s[0] in s && s[1] in s && (NoDup(s) ==> s[0] != s[1]))
  {
  }

  ghost function Elems<A>(s: seq<A>): set<A> {
    set x | x in s
  }

  ghost predicate NoDup<A>(s: seq<A>) {
    forall i, j :: 0 <= i < j < |s| ==> s[i] != s[j]
  }

  /** SELECT DISTINCT: the first occurrence of every row. */
  function Distinct<A(==, !new)>(s: seq<A>): (r: seq<A>)
    ensures NoDup(r)
    ensures forall x :: x in r <==> x in s
  {
    if s == [] then []
    else
      var n := |s| - 1;
      var r := Distinct(s[..n]);
      assert s == s[..n] + [s[n]];
      if s[n] in r then r else r + [s[n]]
  }

  /** A chain of `a UNION b UNION c`. One branch alone is not deduplicated. */
  function UnionChain<A(==, !new)>(branches: seq<seq<A>>): (r: seq<A>)
    requires |branches| > 0
    ensures forall x :: x in r <==> InSome(x, branches)
    ensures |branches| > 1 || NoDup(branches[0]) ==> NoDup(r)
  {
    var n := |branches| - 1;
    if n == 0 then
      assert forall x :: x in branches[0] ==> InSome(x, branches);
      branches[0]
    else
      assert branches == branches[..n] + [branches[n]];
      assert forall x :: InSome(x, branches) <==> InSome(x, branches[..n]) || x in branches[n] by {
        forall x { InSomeAppend(x, branches[..n], branches[n]); }
      }
      Distinct(UnionChain(branches[..n]) + branches[n])
  }

  lemma {:induction false} FilterKeepsAll<A(!new)>(s: seq<A>, p: A -> bool)
    requires forall x :: x in s ==> p(x)
    ensures Filter(s, p) == s
  {
    if s != [] {
      FilterKeepsAll(s[1..], p);
    }
  }

  lemma {:induction false} FilterAlike<A(!new)>(s: seq<A>, p: A -> bool, q: A -> bool)
    requires forall x :: x in s ==> p(x) == q(x)
    ensures Filter(s, p) == Filter(s, q)
  {
    if s != [] {
      FilterAlike(s[1..], p, q);
    }
  }

  lemma {:induction false} NoDupAppend<A>(a: seq<A>, b: seq<A>)
    requires NoDup(a) && NoDup(b) && forall x :: x in b ==> x !in a
    ensures NoDup(a + b)
  {
    forall i, j | 0 <= i < j < |a + b|
      ensures (a + b)[i] != (a + b)[j]
    {
      if i < |a| <= j {
        assert b[j - |a|] in b && a[i] in a;
      }
    }
  }

  lemma {:induction false} FilterNoDup<A(!new)>(s: seq<A>, p: A -> bool)
    requires NoDup(s)
    ensures NoDup(Filter(s, p))
  {
    if s != [] {
      FilterNoDup(s[1..], p);
      assert forall x :: x in s[1..] ==> x != s[0];
    }
  }

  /** Two duplicate-free listings of the same rows are the same bag. */
  lemma {:induction false} SameBag<A(!new)>(a: seq<A>, b: seq<A>)
    requires NoDup(a) && NoDup(b)
    requires Elems(a) == Elems(b)
    ensures multiset(a) == multiset(b)
  {
    forall x
      ensures multiset(a)[x] == multiset(b)[x]
    {
      NoDupCount(a, x);
      NoDupCount(b, x);
      assert x in Elems(a) <==> x in a;
      assert x in Elems(b) <==> x in b;
    }
  }

  lemma {:induction false} NoDupCount<A>(a: seq<A>, x: A)
    requires NoDup(a)
    ensures multiset(a)[x] == if x in a then 1 else 0
  {
    if a != [] {
      var n := |a| - 1;
      assert a == a[..n] + [a[n]];
      assert a[n] !in a[..n];
      NoDupCount(a[..n], x);
    }
  }

  // ---------------------------------------------------------------- sums

  /** Sum of a listing, in listing order. */
  function SumSeq<A>(s: seq<A>, f: A -> real): real {
    if s == [] then 0.0 else f(s[0]) + SumSeq(s[1..], f)
  }

  /** Sum over a set of rows, whatever their order. */
  ghost function SumSet<A>(s: set<A>, f: A -> real): real {
    if s == {} then 0.0
    else
      var x :| x in s;
      f(x) + SumSet(s - {x}, f)
  }

  lemma {:induction false} SumSetRemove<A>(s: set<A>, f: A -> real, x: A)
    requires x in s
    ensures SumSet(s, f) == f(x) + SumSet(s - {x}, f)
    decreases s
  {
    var y :| y in s && SumSet(s, f) == f(y) + SumSet(s - {y}, f);
    if y != x {
      SumSetRemove(s - {y}, f, x);
      SumSetRemove(s - {x}, f, y);
      assert s - {y} - {x} == s - {x} - {y};
    }
  }

  lemma {:induction false} SumSeqIsSumSet<A>(s: seq<A>, f: A -> real)
    requires NoDup(s)
    ensures SumSeq(s, f) == SumSet(Elems(s), f)
  {
    if s == [] {
      assert Elems(s) == {};
    } else {
      SumSeqIsSumSet(s[1..], f);
      assert s == [s[0]] + s[1..];
      assert s[0] !in s[1..];
      assert Elems(s) - {s[0]} == Elems(s[1..]);
      assert s[0] in Elems(s);
      SumSetRemove(Elems(s), f, s[0]);
    }
  }

  /** Only the elements where the summand is non-zero matter. */
  lemma {:induction false} SumSetSupport<A>(small: set<A>, big: set<A>, f: A -> real, g: A -> real)
    requires small <= big
    requires forall x :: x in small ==> f(x) == g(x)
    requires forall x :: x in big && x !in small ==> g(x) == 0.0
    ensures SumSet(small, f) == SumSet(big, g)
    decreases big
  {
    if big != {} {
      var x :| x in big;
      SumSetRemove(big, g, x);
      if x in small {
        SumSetRemove(small, f, x);
        SumSetSupport(small - {x}, big - {x}, f, g);
      } else {
        SumSetSupport(small, big - {x}, f, g);
      }
    }
  }

  lemma {:induction false} SumSeqAppend<A>(a: seq<A>, b: seq<A>, f: A -> real)
    ensures SumSeq(a + b, f) == SumSeq(a, f) + SumSeq(b, f)
  {
    if a == [] {
      assert a + b == b;
    } else {
      assert (a + b)[1..] == a[1..] + b;
      SumSeqAppend(a[1..], b, f);
    }
  }

  lemma {:induction false} SumSeqCongruence<A>(s: seq<A>, f: A -> real, g: A -> real)
    requires forall x :: x in s ==> f(x) == g(x)
    ensures SumSeq(s, f) == SumSeq(s, g)
  {
    if s != [] {
      SumSeqCongruence(s[1..], f, g);
    }
  }

  lemma {:induction false} SumNothing<A>(s: seq<A>, f: A -> real)
    requires forall x :: x in s ==> f(x) == 0.0
    ensures SumSeq(s, f) == 0.0
  {
    if s != [] {
      SumNothing(s[1..], f);
    }
  }

  lemma {:induction false} SumSplit<A>(s: set<A>, part: set<A>, f: A -> real)
    requires part <= s
    ensures SumSet(s, f) == SumSet(part, f) + SumSet(s - part, f)
    decreases part
  {
    if part == {} {
      assert s - part == s;
    } else {
      var x :| x in part;
      SumSetRemove(s, f, x);
      SumSetRemove(part, f, x);
      SumSplit(s - {x}, part - {x}, f);
      assert s - {x} - (part - {x}) == s - part;
    }
  }
}
