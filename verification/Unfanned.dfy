/** A fanning join that only its own alias reads can be left out of the query. */
module Unfanned {
  import opened Relational
  import opened Plans
  import opened FanOut

  // ---------------------------------------------------------------- rows with and without some joins

  /** The partners of the joins that are kept. */
  function Narrow(joined: seq<Option<Tuple>>, keep: seq<bool>): seq<Option<Tuple>>
    requires |joined| == |keep|
  {
    if keep == [] then []
    else
      var n := |keep| - 1;
      Narrow(joined[..n], keep[..n]) + (if keep[n] then [joined[n]] else [])
  }

  /** `v` is row `w` without the joins that are not kept. */
  ghost predicate Narrows(w: Wide, v: Wide, keep: seq<bool>) {
    w.owner == v.owner && |w.joined| == |keep| && v.joined == Narrow(w.joined, keep)
  }

  /** Each row narrows to one of the others and each of those is narrowed to. */
  ghost predicate Related(rows: seq<Wide>, narrow: seq<Wide>, keep: seq<bool>) {
    && (forall w :: w in rows ==> exists v :: v in narrow && Narrows(w, v, keep))
    && (forall v :: v in narrow ==> exists w :: w in rows && Narrows(w, v, keep))
  }

  /** A kept join reads the same table, under a condition that reads kept joins only. */
  ghost predicate SameJoin(e: Edge, f: Edge, keep: seq<bool>) {
    e.table == f.table && forall w, v, t: Tuple :: Narrows(w, v, keep) ==> e.on(w, t) == f.on(v, t)
  }

  /** `fewer` are the edges that are flagged, in order; the joins before them are kept by `keep`. */
  ghost predicate Keeps(edges: seq<Edge>, flags: seq<bool>, fewer: seq<Edge>, keep: seq<bool>)
    decreases |flags|
  {
    if flags == [] then edges == [] && fewer == []
    else
      && edges != []
      && if flags[0] then
           && fewer != [] && SameJoin(edges[0], fewer[0], keep)
           && Keeps(edges[1..], flags[1..], fewer[1..], keep + [true])
         else Keeps(edges[1..], flags[1..], fewer, keep + [false])
  }

  lemma {:induction false} NarrowsStep(w: Wide, v: Wide, keep: seq<bool>, x: Option<Tuple>)
    requires Narrows(w, v, keep)
    ensures Narrows(w.(joined := w.joined + [x]), v, keep + [false])
    ensures Narrows(w.(joined := w.joined + [x]), v.(joined := v.joined + [x]), keep + [true])
  {
    var j := w.joined + [x];
    assert j[..|keep|] == w.joined && (keep + [false])[..|keep|] == keep && (keep + [true])[..|keep|] == keep;
  }

  lemma {:induction false} InLeftJoin(rows: seq<Wide>, e: Edge, x: Wide)
    ensures x in LeftJoin(rows, e) <==> exists w :: w in rows && x in Extend(w, e)
  {
    var parts := Map(rows, (w: Wide) => Extend(w, e));
    if x in LeftJoin(rows, e) {
      assert InSome(x, parts);
      var i :| 0 <= i < |parts| && x in parts[i];
      assert rows[i] in rows;
    }
    if w :| w in rows && x in Extend(w, e) {
      var i :| 0 <= i < |rows| && rows[i] == w;
      assert x in parts[i];
      assert InSome(x, parts);
    }
  }

  /** What a left join adds to a row: a partner, or nothing. */
  lemma {:induction false} ExtendAdds(w: Wide, e: Edge, x: Wide)
    ensures x in Extend(w, e) <==> exists p :: Added(w, e, p) && x == w.(joined := w.joined + [p])
  {
    var ps := Partners(w, e);
    if x in Extend(w, e) {
      if ps == [] {
        assert Added(w, e, None);
      } else {
        var k :| 0 <= k < |ps| && Extend(w, e)[k] == x;
        assert ps[k] in ps && Added(w, e, Some(ps[k]));
      }
    }
    if p :| Added(w, e, p) && x == w.(joined := w.joined + [p]) {
      if p.Some? {
        var k :| 0 <= k < |ps| && ps[k] == p.value;
        assert Extend(w, e)[k] == x;
      }
    }
  }

  ghost predicate Added(w: Wide, e: Edge, p: Option<Tuple>) {
    if p.None? then Partners(w, e) == [] else p.value in Partners(w, e)
  }

  lemma {:induction false} SomethingAdded(w: Wide, e: Edge) returns (p: Option<Tuple>)
    ensures Added(w, e, p)
  {
    HeadIn(Partners(w, e));
    p := if Partners(w, e) == [] then None else Some(Partners(w, e)[0]);
  }

  lemma {:induction false} SameAdded(w: Wide, v: Wide, e: Edge, f: Edge, keep: seq<bool>, p: Option<Tuple>)
    requires Narrows(w, v, keep) && SameJoin(e, f, keep)
    ensures Added(w, e, p) <==> Added(v, f, p)
  {
    FilterAlike(e.table, (t: Tuple) => e.on(w, t) == True, (t: Tuple) => f.on(v, t) == True);
  }

  /** A join that is left out changes the narrow rows in nothing. */
  lemma {:induction false} DroppedJoin(rows: seq<Wide>, narrow: seq<Wide>, e: Edge, keep: seq<bool>)
    requires Related(rows, narrow, keep)
    ensures Related(LeftJoin(rows, e), narrow, keep + [false])
  {
    forall x | x in LeftJoin(rows, e)
      ensures exists v :: v in narrow && Narrows(x, v, keep + [false])
    {
      InLeftJoin(rows, e, x);
      var w :| w in rows && x in Extend(w, e);
      ExtendAdds(w, e, x);
      var p :| Added(w, e, p) && x == w.(joined := w.joined + [p]);
      var v :| v in narrow && Narrows(w, v, keep);
      NarrowsStep(w, v, keep, p);
    }
    forall v | v in narrow
      ensures exists x :: x in LeftJoin(rows, e) && Narrows(x, v, keep + [false])
    {
      var w :| w in rows && Narrows(w, v, keep);
      var p := SomethingAdded(w, e);
      var x := w.(joined := w.joined + [p]);
      ExtendAdds(w, e, x);
      InLeftJoin(rows, e, x);
      NarrowsStep(w, v, keep, p);
    }
  }

  lemma {:induction false} KeptJoin(rows: seq<Wide>, narrow: seq<Wide>, e: Edge, f: Edge, keep: seq<bool>)
    requires Related(rows, narrow, keep) && SameJoin(e, f, keep)
    ensures Related(LeftJoin(rows, e), LeftJoin(narrow, f), keep + [true])
  {
    KeptNarrows(rows, narrow, e, f, keep);
    KeptWidens(rows, narrow, e, f, keep);
  }

  lemma {:induction false} KeptNarrows(rows: seq<Wide>, narrow: seq<Wide>, e: Edge, f: Edge, keep: seq<bool>)
    requires Related(rows, narrow, keep) && SameJoin(e, f, keep)
    ensures forall x :: x in LeftJoin(rows, e) ==> exists y :: y in LeftJoin(narrow, f) && Narrows(x, y, keep + [true])
  {
    forall x | x in LeftJoin(rows, e)
      ensures exists y :: y in LeftJoin(narrow, f) && Narrows(x, y, keep + [true])
    {
      InLeftJoin(rows, e, x);
      var w :| w in rows && x in Extend(w, e);
      ExtendAdds(w, e, x);
      var p :| Added(w, e, p) && x == w.(joined := w.joined + [p]);
      var v :| v in narrow && Narrows(w, v, keep);
      var y := BothExtend(w, v, e, f, keep, p, narrow);
    }
  }

  lemma {:induction false} KeptWidens(rows: seq<Wide>, narrow: seq<Wide>, e: Edge, f: Edge, keep: seq<bool>)
    requires Related(rows, narrow, keep) && SameJoin(e, f, keep)
    ensures forall y :: y in LeftJoin(narrow, f) ==> exists x :: x in LeftJoin(rows, e) && Narrows(x, y, keep + [true])
  {
    forall y | y in LeftJoin(narrow, f)
      ensures exists x :: x in LeftJoin(rows, e) && Narrows(x, y, keep + [true])
    {
      InLeftJoin(narrow, f, y);
      var v :| v in narrow && y in Extend(v, f);
      ExtendAdds(v, f, y);
      var p :| Added(v, f, p) && y == v.(joined := v.joined + [p]);
      var w :| w in rows && Narrows(w, v, keep);
      SameAdded(w, v, e, f, keep, p);
      var x := w.(joined := w.joined + [p]);
      ExtendAdds(w, e, x);
      InLeftJoin(rows, e, x);
      NarrowsStep(w, v, keep, p);
    }
  }

  lemma {:induction false} BothExtend(w: Wide, v: Wide, e: Edge, f: Edge, keep: seq<bool>, p: Option<Tuple>,
      narrow: seq<Wide>)
    returns (y: Wide)
    requires v in narrow && Narrows(w, v, keep) && SameJoin(e, f, keep) && Added(w, e, p)
    ensures y in LeftJoin(narrow, f) && Narrows(w.(joined := w.joined + [p]), y, keep + [true])
  {
    y := v.(joined := v.joined + [p]);
    SameAdded(w, v, e, f, keep, p);
    ExtendAdds(v, f, y);
    InLeftJoin(narrow, f, y);
    NarrowsStep(w, v, keep, p);
  }

  lemma {:induction false} FlagMoves(keep: seq<bool>, flags: seq<bool>)
    requires flags != []
    ensures keep + [flags[0]] + flags[1..] == keep + flags
  {
  }

  lemma {:induction false} JoinsRelate(rows: seq<Wide>, narrow: seq<Wide>, edges: seq<Edge>, flags: seq<bool>,
      fewer: seq<Edge>, keep: seq<bool>)
    requires Related(rows, narrow, keep) && Keeps(edges, flags, fewer, keep)
    ensures Related(JoinAll(rows, edges), JoinAll(narrow, fewer), keep + flags)
    decreases |flags|
  {
    if flags == [] {
      assert keep + flags == keep;
    } else if flags[0] {
      KeptJoin(rows, narrow, edges[0], fewer[0], keep);
      JoinsRelate(LeftJoin(rows, edges[0]), LeftJoin(narrow, fewer[0]), edges[1..], flags[1..], fewer[1..],
                  keep + [true]);
      FlagMoves(keep, flags);
    } else {
      DroppedJoin(rows, narrow, edges[0], keep);
      JoinsRelate(LeftJoin(rows, edges[0]), narrow, edges[1..], flags[1..], fewer, keep + [false]);
      FlagMoves(keep, flags);
    }
  }

  // ---------------------------------------------------------------- the query without its fanning joins

  /** `r` is query `q` without the joins that are not flagged: WHERE and dimensions do not read those. */
  ghost predicate Reduces(q: Query, r: Query, flags: seq<bool>) {
    && Keeps(q.edges, flags, r.edges, [])
    && forall w, v :: Narrows(w, v, flags) ==> q.condition(w) == r.condition(v) && q.dims(w) == r.dims(v)
  }

  lemma {:induction false} SelectedRelate(owners: seq<Owner>, q: Query, r: Query, flags: seq<bool>)
    requires Reduces(q, r, flags)
    ensures Related(Selected(owners, q), Selected(owners, r), flags)
  {
    var bare := Map(owners, (o: Owner) => Wide(o, []));
    forall w | w in bare
      ensures Narrows(w, w, [])
    {
      var k :| 0 <= k < |bare| && bare[k] == w;
    }
    JoinsRelate(bare, bare, q.edges, flags, r.edges, []);
    assert [] + flags == flags;
  }

  lemma {:induction false} SurvivesAlike(o: Owner, a: seq<Wide>, b: seq<Wide>, keep: seq<bool>)
    requires Related(a, b, keep)
    ensures Survives(o, a) <==> Survives(o, b)
  {
    if Survives(o, a) {
      var w :| w in a && w.owner == o;
      var v :| v in b && Narrows(w, v, keep);
    }
    if Survives(o, b) {
      var v :| v in b && v.owner == o;
      var w :| w in a && Narrows(w, v, keep);
    }
  }

  lemma {:induction false} SameSurvivors(owners: seq<Owner>, a: seq<Wide>, b: seq<Wide>, keep: seq<bool>)
    requires Related(a, b, keep)
    ensures Survivors(owners, a) == Survivors(owners, b)
  {
    if owners != [] {
      SameSurvivors(owners[1..], a, b, keep);
      SurvivesAlike(owners[0], a, b, keep);
    }
  }

  ghost function DimsOfOwner(rows: seq<Wide>, r: Query): Owner -> Tuple {
    (o: Owner) => DimsAt(rows, r, o)
  }

  ghost function DimsAt(rows: seq<Wide>, r: Query, o: Owner): Tuple {
    if Survives(o, rows) then
      var w :| w in rows && w.owner == o;
      r.dims(w)
    else []
  }

  lemma {:induction false} OneRowPerOwner(rows: seq<Wide>, v: Wide, w: Wide)
    requires NoDup(Map(rows, GrainOf())) && v in rows && w in rows && v.owner == w.owner
    ensures v == w
  {
    var i :| 0 <= i < |rows| && rows[i] == v;
    var j :| 0 <= j < |rows| && rows[j] == w;
    assert Map(rows, GrainOf())[i] == Map(rows, GrainOf())[j];
  }

  lemma {:induction false} DimsAreConstant(q: Query, r: Query, flags: seq<bool>, rows: seq<Wide>, narrow: seq<Wide>)
    requires Reduces(q, r, flags) && Related(rows, narrow, flags) && NoDup(Map(narrow, GrainOf()))
    ensures ConstantDims(rows, q, DimsOfOwner(narrow, r)) && ConstantDims(narrow, r, DimsOfOwner(narrow, r))
  {
    forall v | v in narrow
      ensures r.dims(v) == DimsAt(narrow, r, v.owner)
    {
      var x :| x in narrow && x.owner == v.owner && DimsAt(narrow, r, v.owner) == r.dims(x);
      OneRowPerOwner(narrow, v, x);
    }
    forall w | w in rows
      ensures q.dims(w) == DimsAt(narrow, r, w.owner)
    {
      var v :| v in narrow && Narrows(w, v, flags);
    }
  }

  lemma {:induction false} AnswersCompose(a: seq<Group>, b: seq<Group>, c: seq<Group>)
    requires SameAnswer(a, c) && SameAnswer(b, c)
    ensures SameAnswer(a, b)
  {
    AnswersThrough(a, c, b);
    AnswersThrough(b, c, a);
  }

  lemma {:induction false} AnswersThrough(a: seq<Group>, c: seq<Group>, b: seq<Group>)
    requires (forall g :: g in a ==> Answers(g, c)) && (forall g :: g in c ==> Answers(g, b))
    ensures forall g :: g in a ==> Answers(g, b)
  {
    forall g | g in a
      ensures Answers(g, b)
    {
      var h :| h in c && h.dims == g.dims && forall m :: Aggregate(m, h.rows) == Aggregate(m, g.rows);
      assert Answers(h, b);
      var k :| k in b && k.dims == h.dims && forall m :: Aggregate(m, k.rows) == Aggregate(m, h.rows);
    }
  }

  /** When WHERE and dimensions do not read the fanning joins, the deduplicated query returns, group by
      group and for every aggregate, what the plain query without those joins returns. */
  lemma {:induction false} DedupIsTheQueryWithoutTheFan(owners: seq<Owner>, q: Query, r: Query, flags: seq<bool>,
      out: seq<Wide>, n: nat)
    requires UniqueGrain(owners) && IsDistinctOn(Selected(owners, q), out)
    requires Reduces(q, r, flags) && Honest(r.edges) && forall e :: e in r.edges ==> !Fans(e)
    ensures SameAnswer(Aggregated(q, out, n), Aggregated(r, Selected(owners, r), n))
  {
    var rows, narrow := Selected(owners, q), Selected(owners, r);
    SelectedRelate(owners, q, r, flags);
    ToOneRowsAreDistinct(owners, r);
    DimsAreConstant(q, r, flags, rows, narrow);
    SameSurvivors(owners, rows, narrow, flags);
    DedupIsTheUnjoinedAggregate(owners, q, out, n, DimsOfOwner(narrow, r));
    DedupIsTheUnjoinedAggregate(owners, r, narrow, n, DimsOfOwner(narrow, r));
    AnswersCompose(Aggregated(q, out, n), Aggregated(r, narrow, n),
                   GroupsOf(Branch(true, Map(Survivors(owners, rows), Plain(DimsOfOwner(narrow, r)))), n));
  }
}
