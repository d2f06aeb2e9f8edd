/** The grain spine and the joins of the leaves onto it. */
module Spine {
  import opened Relational
  import opened Plans
  import opened Semantics

  // ---------------------------------------------------------------- null-safe matching

  /** `a = b OR (a IS NULL AND b IS NULL)` for each column, joined by AND. */
  function NullSafeOn(a: Tuple, b: Tuple): Truth
    requires |a| == |b|
  {
    if a == [] then True
    else
      And3(Or3(Eq3(a[0], b[0]), And3(Bool3(a[0].NullDim?), Bool3(b[0].NullDim?))),
           NullSafeOn(a[1..], b[1..]))
  }

  /** The null-safe condition holds exactly for equal tuples, NULL being equal to NULL. */
  lemma {:induction false} NullSafeIsEquality(a: Tuple, b: Tuple)
    requires |a| == |b|
    ensures NullSafeOn(a, b) == True <==> a == b
  {
    if a != [] {
      NullSafeIsEquality(a[1..], b[1..]);
      assert a == [a[0]] + a[1..];
      assert b == [b[0]] + b[1..];
    }
  }

  /** A leaf row is joined onto a spine row: same tuple, and the same marker if it has one. */
  predicate On(marked: bool, s: SpineRow, g: Group) {
    && |s.dims| == |g.dims|
    && And3(NullSafeOn(s.dims, g.dims), if marked then Bool3(s.flag == g.flag) else True) == True
  }

  lemma {:induction false} OnIsEquality(marked: bool, s: SpineRow, g: Group)
    ensures On(marked, s, g) <==> s.dims == g.dims && (marked ==> s.flag == g.flag)
  {
    if |s.dims| == |g.dims| {
      NullSafeIsEquality(s.dims, g.dims);
    }
  }

  // ---------------------------------------------------------------- LEFT JOIN

  function Matches(cte: Cte, s: SpineRow): seq<Group> {
    Filter(cte.rows, (g: Group) => On(cte.projectsIsFinal, s, g))
  }

  /** The joined rows one spine row contributes: one per match, or one with nothing. */
  function JoinRow(j: Joined, c: nat, cte: Cte): seq<Joined> {
    var ms := Matches(cte, j.row);
    if ms == [] then [j.(matches := j.matches[c := None])]
    else Map(ms, (g: Group) => j.(matches := j.matches[c := Some(g)]))
  }

  function LeftJoin(t: seq<Joined>, c: nat, cte: Cte): seq<Joined> {
    Flatten(Map(t, (j: Joined) => JoinRow(j, c, cte)))
  }

  /** The chain of left joins, CTE by CTE in the given order. */
  function JoinAll(t: seq<Joined>, ctes: seq<Cte>, order: seq<nat>): seq<Joined>
    requires forall k :: 0 <= k < |order| ==> order[k] < |ctes|
    decreases |order|
  {
    if order == [] then t
    else JoinAll(LeftJoin(t, order[0], ctes[order[0]]), ctes, order[1..])
  }

  function Bare(s: SpineRow): Joined {
    Joined(s, map[])
  }

  // ---------------------------------------------------------------- exactness

  /** At most one of the rows matches any spine row. */
  ghost predicate OneRowPerTuple(rows: seq<Group>, marked: bool) {
    forall i, j :: 0 <= i < j < |rows| ==> rows[i].dims != rows[j].dims || (marked && rows[i].flag != rows[j].flag)
  }

  /** The row that belongs to a spine row. */
  ghost function Lookup(rows: seq<Group>, marked: bool, s: SpineRow): (r: Option<Group>)
    ensures r.Some? ==> r.value in rows && On(marked, s, r.value)
    ensures r.None? ==> forall g :: g in rows ==> !On(marked, s, g)
  {
    if exists g :: g in rows && On(marked, s, g) then
      var g :| g in rows && On(marked, s, g);
      Some(g)
    else None
  }

  ghost function LookupIn(cte: Cte, s: SpineRow): Option<Group> {
    Lookup(cte.rows, cte.projectsIsFinal, s)
  }

  lemma {:induction false} MatchesAreLookup(cte: Cte, s: SpineRow)
    requires OneRowPerTuple(cte.rows, cte.projectsIsFinal)
    ensures Matches(cte, s) == if LookupIn(cte, s).None? then [] else [LookupIn(cte, s).value]
  {
    var ms := Matches(cte, s);
    forall g | g in cte.rows { OnIsEquality(cte.projectsIsFinal, s, g); }
    AtMostOne(cte.rows, (g: Group) => On(cte.projectsIsFinal, s, g));
    if LookupIn(cte, s).Some? {
      assert LookupIn(cte, s).value in ms;
    } else {
      HeadIn(ms);
    }
  }

  lemma {:induction false} AtMostOne<A(!new)>(s: seq<A>, p: A -> bool)
    requires forall i, j :: 0 <= i < j < |s| ==> !(p(s[i]) && p(s[j]))
    ensures |Filter(s, p)| <= 1
  {
    if s != [] {
      AtMostOne(s[1..], p);
      if p(s[0]) {
        forall x | x in s[1..]
          ensures !p(x)
        {
          var j :| 0 <= j < |s[1..]| && s[1..][j] == x;
          assert !(p(s[0]) && p(s[j + 1]));
        }
        HeadIn(Filter(s[1..], p));
      }
    }
  }

  /** What one left join adds when a spine row has at most one partner. */
  ghost function WithLookup(j: Joined, c: nat, cte: Cte): Joined {
    Joined(j.row, j.matches[c := LookupIn(cte, j.row)])
  }

  lemma {:induction false} FlattenSingletons<A(!new), B(!new)>(s: seq<A>, f: A -> seq<B>, g: A -> B)
    requires forall x :: x in s ==> f(x) == [g(x)]
    ensures Flatten(Map(s, f)) == Map(s, g)
  {
    if s != [] {
      var n := |s| - 1;
      assert Map(s, f)[..n] == Map(s[..n], f);
      FlattenSingletons(s[..n], f, g);
      assert Map(s, g) == Map(s[..n], g) + [g(s[n])];
    }
  }

  /** A left join onto a leaf with one row per tuple neither drops nor duplicates a row. */
  lemma {:induction false} LeftJoinExact(t: seq<Joined>, c: nat, cte: Cte)
    requires OneRowPerTuple(cte.rows, cte.projectsIsFinal)
    ensures LeftJoin(t, c, cte) == Map(t, (j: Joined) => WithLookup(j, c, cte))
  {
    forall j | j in t
      ensures JoinRow(j, c, cte) == [WithLookup(j, c, cte)]
    {
      MatchesAreLookup(cte, j.row);
    }
    FlattenSingletons(t, (j: Joined) => JoinRow(j, c, cte), (j: Joined) => WithLookup(j, c, cte));
  }

  /** The joined row carries, for each of these CTEs, that CTE's own row for the tuple. */
  ghost predicate Paired(j: Joined, ctes: seq<Cte>, which: set<nat>) {
    forall c :: c in which ==> c < |ctes| && c in j.matches && j.matches[c] == LookupIn(ctes[c], j.row)
  }

  /** The joined rows are the given spine rows, one by one, each paired with these CTEs. */
  ghost predicate Aligned(t: seq<Joined>, spine: seq<SpineRow>, ctes: seq<Cte>, which: set<nat>) {
    && RowsOf(t) == spine
    && forall i :: 0 <= i < |t| ==> Paired(t[i], ctes, which)
  }

  lemma {:induction false} LeftJoinAligns(t: seq<Joined>, spine: seq<SpineRow>, ctes: seq<Cte>, c: nat,
      before: set<nat>)
    requires c < |ctes| && OneRowPerTuple(ctes[c].rows, ctes[c].projectsIsFinal)
    requires Aligned(t, spine, ctes, before)
    ensures Aligned(LeftJoin(t, c, ctes[c]), spine, ctes, before + {c})
  {
    LeftJoinExact(t, c, ctes[c]);
    forall i | 0 <= i < |t|
      ensures Paired(WithLookup(t[i], c, ctes[c]), ctes, before + {c})
    {
      assert Paired(t[i], ctes, before);
    }
  }

  /** Joining every leaf keeps the spine as it is, row by row, and pairs each row with each leaf's
      own row for that tuple. */
  lemma {:induction false} JoinAllExact(t: seq<Joined>, spine: seq<SpineRow>, ctes: seq<Cte>, order: seq<nat>,
      before: set<nat>)
    requires forall k ::
      0 <= k < |order| ==> order[k] < |ctes| && OneRowPerTuple(ctes[order[k]].rows, ctes[order[k]].projectsIsFinal)
    requires Aligned(t, spine, ctes, before)
    ensures Aligned(JoinAll(t, ctes, order), spine, ctes, before + Elems(order))
    decreases |order|
  {
    if order == [] {
      assert before + Elems(order) == before;
    } else {
      var c := order[0];
      LeftJoinAligns(t, spine, ctes, c, before);
      JoinAllExact(LeftJoin(t, c, ctes[c]), spine, ctes, order[1..], before + {c});
      assert before + {c} + Elems(order[1..]) == before + Elems(order);
    }
  }

  // ---------------------------------------------------------------- INNER JOIN on a key

  /** Rows joined with the listed tuples that equal their key, NULL being equal to NULL. */
  function InnerJoin<A(!new)>(rows: seq<A>, keep: seq<Tuple>, key: A -> Tuple): seq<A> {
    Flatten(Map(rows, (r: A) =>
      Map(Filter(keep, (v: Tuple) => |v| == |key(r)| && NullSafeOn(key(r), v) == True), (v: Tuple) => r)))
  }

  lemma {:induction false} FlattenFilter<A(!new)>(rows: seq<A>, f: A -> seq<A>, p: A -> bool)
    requires forall r :: r in rows ==> f(r) == if p(r) then [r] else []
    ensures forall x :: x in Flatten(Map(rows, f)) <==> x in rows && p(x)
    ensures NoDup(rows) ==> NoDup(Flatten(Map(rows, f)))
  {
    if rows != [] {
      var n := |rows| - 1;
      assert rows == rows[..n] + [rows[n]];
      assert Map(rows, f)[..n] == Map(rows[..n], f);
      FlattenFilter(rows[..n], f, p);
      assert Flatten(Map(rows, f)) == Flatten(Map(rows[..n], f)) + f(rows[n]);
    }
  }

  /** Against a duplicate-free list, an inner join keeps exactly the rows whose key is listed. */
  lemma {:induction false} InnerJoinKeeps<A(!new)>(rows: seq<A>, keep: seq<Tuple>, key: A -> Tuple)
    requires NoDup(keep)
    ensures forall x :: x in InnerJoin(rows, keep, key) <==> x in rows && key(x) in keep
    ensures NoDup(rows) ==> NoDup(InnerJoin(rows, keep, key))
  {
    var f := (r: A) =>
      Map(Filter(keep, (v: Tuple) => |v| == |key(r)| && NullSafeOn(key(r), v) == True), (v: Tuple) => r);
    forall r | r in rows
      ensures f(r) == if key(r) in keep then [r] else []
    {
      SingleMatch(keep, key(r));
    }
    FlattenFilter(rows, f, (r: A) => key(r) in keep);
  }

  lemma {:induction false} SingleMatch(keep: seq<Tuple>, k: Tuple)
    requires NoDup(keep)
    ensures |Filter(keep, (v: Tuple) => |v| == |k| && NullSafeOn(k, v) == True)| == if k in keep then 1 else 0
  {
    var p := (v: Tuple) => |v| == |k| && NullSafeOn(k, v) == True;
    forall v | |v| == |k| { NullSafeIsEquality(k, v); }
    assert forall v :: p(v) <==> v == k;
    AtMostOne(keep, p);
    if k in keep {
      assert k in Filter(keep, p);
    } else {
      HeadIn(Filter(keep, p));
    }
  }

  // ---------------------------------------------------------------- lookups

  lemma {:induction false} LookupFinds(rows: seq<Group>, marked: bool, s: SpineRow, g: Group)
    requires OneRowPerTuple(rows, marked) && g in rows && g.dims == s.dims && (marked ==> g.flag == s.flag)
    ensures Lookup(rows, marked, s) == Some(g)
  {
    OnIsEquality(marked, s, g);
    var found := Lookup(rows, marked, s);
    OnIsEquality(marked, s, found.value);
    var i :| 0 <= i < |rows| && rows[i] == g;
    var j :| 0 <= j < |rows| && rows[j] == found.value;
    assert i == j;
  }

  /** Which row is looked up depends on the rows only, not on their order. */
  lemma {:induction false} LookupIgnoresOrder(a: seq<Group>, b: seq<Group>, marked: bool, s: SpineRow)
    requires OneRowPerTuple(a, marked) && OneRowPerTuple(b, marked)
    requires forall g :: g in a <==> g in b
    ensures Lookup(a, marked, s) == Lookup(b, marked, s)
  {
    var found := Lookup(a, marked, s);
    if found.Some? {
      OnIsEquality(marked, s, found.value);
      LookupFinds(b, marked, s, found.value);
    }
  }
}
