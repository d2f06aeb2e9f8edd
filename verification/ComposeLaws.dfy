/** The composed statement returns the reference result, with or without fusion. */
module ComposeLaws {
  import opened Relational
  import opened Plans
  import opened Semantics
  import opened Spine
  import opened Leaves
  import opened Fusion
  import opened Fill
  import opened Compose
  import opened Reference

  // ---------------------------------------------------------------- one CTE and its leaves

  lemma {:induction false} RestCovers(l: LeafPlan)
    requires LeafOk(l)
    ensures Covers(AccFor(l), l.dimCount)
  {
    FilterNoDup<nat>(Ids(l.dimCount), (c: nat) => c !in l.order);
    forall c | 0 <= c < l.dimCount
      ensures c in l.order || c in Rest(l.order, l.dimCount)
    {
      assert Ids(l.dimCount)[c] == c;
      assert c in Ids(l.dimCount);
    }
  }

  /** CTE `c` is rebuilt from a planned leaf whose body every leaf it serves shares. */
  ghost predicate CteFits(leaves: seq<LeafPlan>, st: FuseState, c: nat)
    requires c < |st.physical| && |st.owner| == |leaves|
  {
    && LeafOk(st.physical[c].keyLeaf)
        && st.physical[c].keyLeaf.dimCount == (if leaves == [] then 0 else leaves[0].dimCount)
    && (exists i :: 0 <= i < |leaves| && st.owner[i] == c)
    && (forall i :: 0 <= i < |leaves| && st.owner[i] == c ==> SameBody(st.physical[c].keyLeaf, leaves[i]))
  }

  ghost predicate AllCtesFit(leaves: seq<LeafPlan>, st: FuseState) {
    && |st.owner| == |leaves|
    && (forall i :: 0 <= i < |leaves| ==> st.owner[i] < |st.physical|)
    && (forall c :: 0 <= c < |st.physical| ==> CteFits(leaves, st, c))
  }

  lemma {:induction false} CtesFit(leaves: seq<LeafPlan>, dedup: bool)
    requires LeavesOk(leaves) && KeysSound(leaves)
    ensures AllCtesFit(leaves, Fused(leaves, dedup))
  {
    FusedOwners(leaves, dedup);
    var st := Fused(leaves, dedup);
    forall c | 0 <= c < |st.physical|
      ensures CteFits(leaves, st, c)
    {
      assert Founded(st, leaves, c);
      forall i | 0 <= i < |leaves| && st.owner[i] == c
        ensures SameBody(st.physical[c].keyLeaf, leaves[i])
      {
        KeyLeafBody(st, leaves, i);
      }
    }
  }

  lemma {:induction false} PlanUsesFit(leaves: seq<LeafPlan>, p: MetricPlan, st: FuseState, c: nat)
    requires c < |st.physical| && |st.owner| == |leaves| && CteFits(leaves, st, c)
    requires PlanFits(leaves, p) && Uses(p, st.owner, c)
    ensures AccFits(p.accumulate.value, st.physical[c].keyLeaf)
  {
    assert SameBody(st.physical[c].keyLeaf, leaves[p.refs[0].leaf]);
  }

  /** The accumulation a CTE is densified by is the one its order dimensions determine. */
  lemma {:induction false} FillAgrees(leaves: seq<LeafPlan>, plans: seq<MetricPlan>, st: FuseState, c: nat)
    requires PlansFit(leaves, plans) && c < |st.physical| && |st.owner| == |leaves| && CteFits(leaves, st, c)
    ensures var fill := FillOf(plans, st.owner, c);
      && (fill.Some? ==> fill.value == AccFor(st.physical[c].keyLeaf))
      && (fill.Some? <==> exists i :: 0 <= i < |leaves| && st.owner[i] == c && Filled(leaves, plans, i))
  {
    var fill := FillOf(plans, st.owner, c);
    if fill.Some? {
      var p :| p in plans && Uses(p, st.owner, c) && p.accumulate == fill && WantsFill(fill.value);
      PlanUsesFit(leaves, p, st, c);
      assert Uses(p, Ids(|leaves|), p.refs[0].leaf);
      assert Filled(leaves, plans, p.refs[0].leaf);
    } else {
      forall i | 0 <= i < |leaves| && st.owner[i] == c
        ensures !Filled(leaves, plans, i)
      {
        assert forall p :: Uses(p, Ids(|leaves|), i) ==> Uses(p, st.owner, c);
      }
    }
  }

  /** A CTE hides rows exactly when its leaf hoists a visibility CTE, along its order dimensions. */
  lemma {:induction false} VisibleAgrees(leaves: seq<LeafPlan>, plans: seq<MetricPlan>, st: FuseState, c: nat)
    requires PlansFit(leaves, plans) && c < |st.physical| && |st.owner| == |leaves| && CteFits(leaves, st, c)
    ensures var acc := VisibleOf(plans, st.owner, c);
      && (acc.Some? <==> st.physical[c].keyLeaf.visible.Some?)
      && (acc.Some? ==> acc.value.orderBy == st.physical[c].keyLeaf.order)
  {
    var acc := VisibleOf(plans, st.owner, c);
    if acc.Some? {
      var p :| p in plans && Uses(p, st.owner, c) && p.accumulate == acc && acc.value.visibility;
      PlanUsesFit(leaves, p, st, c);
    }
    if st.physical[c].keyLeaf.visible.Some? {
      VisibleIsUsed(leaves, plans, st, c);
    }
  }

  lemma {:induction false} VisibleIsUsed(leaves: seq<LeafPlan>, plans: seq<MetricPlan>, st: FuseState, c: nat)
    requires PlansFit(leaves, plans) && c < |st.physical| && |st.owner| == |leaves| && CteFits(leaves, st, c)
    requires st.physical[c].keyLeaf.visible.Some?
    ensures exists p :: p in plans && Uses(p, st.owner, c) && p.accumulate.value.visibility
  {
    var i :| 0 <= i < |leaves| && st.owner[i] == c;
    assert SameBody(st.physical[c].keyLeaf, leaves[i]);
    assert Accumulated(leaves, plans, i);
    var p :| p in plans && Uses(p, Ids(|leaves|), i);
    PlanUsesFit(leaves, p, st, c);
  }

  // ---------------------------------------------------------------- the spine

  /** CTE `c` contributes spine row `s`. */
  ghost predicate CteContributes(cte: Cte, fill: Option<Accumulate>, n: nat, s: SpineRow) {
    s in CteRows(cte) || s in FillBranch(cte, fill, n)
  }

  lemma {:induction false} FillBranchMembers(l: LeafPlan, cte: Cte, s: SpineRow)
    requires LeafOk(l) && cte.rows == Groups(l)
    ensures s in FillBranch(cte, Some(AccFor(l)), l.dimCount) <==> FilledTuple(l, s.dims) && s.flag
  {
    RestCovers(l);
    assert CteDims(cte) == CteDims(LeafCte(l));
    FillExact(CteDims(cte), AccFor(l), l.dimCount);
    MarkedTrue(FillRows(CteDims(cte), AccFor(l), l.dimCount), s);
  }

  lemma {:induction false} MarkedTrue(rows: seq<Tuple>, s: SpineRow)
    ensures s in Map(rows, (d: Tuple) => SpineRow(d, true)) <==> s.dims in rows && s.flag
  {
    var b := Map(rows, (d: Tuple) => SpineRow(d, true));
    if s.dims in rows && s.flag {
      var k :| 0 <= k < |rows| && rows[k] == s.dims;
      assert b[k] == s;
    }
  }

  /** A CTE contributes to the spine what the leaves it serves contribute. */
  lemma {:induction false} CteContributesLeaves(leaves: seq<LeafPlan>, plans: seq<MetricPlan>, st: FuseState, c: nat,
      s: SpineRow)
    requires PlansFit(leaves, plans) && c < |st.physical| && |st.owner| == |leaves| && CteFits(leaves, st, c)
        && leaves != []
    ensures CteContributes(CteOf(st.physical[c]), FillOf(plans, st.owner, c), leaves[0].dimCount, s)
       <==> exists i :: 0 <= i < |leaves| && st.owner[i] == c && Contributes(leaves, plans, i, s)
  {
    var key, cte := st.physical[c].keyLeaf, CteOf(st.physical[c]);
    FillAgrees(leaves, plans, st, c);
    FillBranchMembers(key, cte, s);
    forall i | 0 <= i < |leaves| && st.owner[i] == c
      ensures s in CteRows(LeafCte(leaves[i])) <==> s in CteRows(cte)
      ensures FilledTuple(leaves[i], s.dims) == FilledTuple(key, s.dims)
    {
      SameBodySameRows(key, leaves[i], cte, s);
    }
    if s in CteRows(cte) {
      var i :| 0 <= i < |leaves| && st.owner[i] == c;
      assert Contributes(leaves, plans, i, s);
    }
  }

  lemma {:induction false} SameBodySameRows(a: LeafPlan, b: LeafPlan, cte: Cte, s: SpineRow)
    requires SameBody(a, b) && cte.rows == Groups(a) && cte.projectsIsFinal == a.projectsIsFinal
    ensures s in CteRows(LeafCte(b)) <==> s in CteRows(cte)
    ensures FilledTuple(b, s.dims) == FilledTuple(a, s.dims)
  {
    SameBranchesSameRows(a, b);
    RowsInBoth(cte, LeafCte(b), s);
    RowsInBoth(LeafCte(b), cte, s);
    SameSplits(a, b, AccFor(a));
    SameSplits(b, a, AccFor(a));
  }

  lemma {:induction false} RowsInBoth(a: Cte, b: Cte, s: SpineRow)
    requires a.projectsIsFinal == b.projectsIsFinal && forall g :: g in a.rows ==> g in b.rows
    ensures s in CteRows(a) ==> s in CteRows(b)
  {
    if s in CteRows(a) {
      var k :| 0 <= k < |a.rows| && CteRows(a)[k] == s;
      assert a.rows[k] in b.rows;
      var i :| 0 <= i < |b.rows| && b.rows[i] == a.rows[k];
      assert CteRows(b)[i] == s;
    }
  }

  lemma {:induction false} SameSplits(a: LeafPlan, b: LeafPlan, acc: Accumulate)
    requires SameRows(a, b)
    ensures forall x :: x in Splits(CteDims(LeafCte(a)), acc) ==> x in Splits(CteDims(LeafCte(b)), acc)
  {
    var ra, rb := Groups(a), Groups(b);
    forall x | x in Splits(CteDims(LeafCte(a)), acc)
      ensures x in Splits(CteDims(LeafCte(b)), acc)
    {
      var k :| 0 <= k < |ra| && Splits(CteDims(LeafCte(a)), acc)[k] == x;
      assert ra[k] in rb;
      var i :| 0 <= i < |rb| && rb[i] == ra[k];
      assert Splits(CteDims(LeafCte(b)), acc)[i] == x;
    }
  }

  lemma {:induction false} FillBranchesMembers(ctes: seq<Cte>, order: seq<nat>, plans: seq<MetricPlan>,
      owner: seq<nat>, n: nat, s: SpineRow)
    requires forall k :: 0 <= k < |order| ==> order[k] < |ctes|
    ensures InSome(s, FillBranches(ctes, order, plans, owner, n))
       <==> exists k :: 0 <= k < |order| && s in FillBranch(ctes[order[k]], FillOf(plans, owner, order[k]), n)
    decreases |order|
  {
    if order != [] {
      var rest := FillBranches(ctes, order[1..], plans, owner, n);
      FillBranchesMembers(ctes, order[1..], plans, owner, n, s);
      var head := FillBranch(ctes[order[0]], FillOf(plans, owner, order[0]), n);
      InSomeCons(s, head, rest);
      assert FillOf(plans, owner, order[0]).None? ==> head == [] && [] + rest == rest;
      if k :| 0 <= k < |order[1..]| && s in FillBranch(ctes[order[1..][k]], FillOf(plans, owner, order[1..][k]), n) {
        assert order[k + 1] == order[1..][k];
      }
      if k :| 0 < k < |order| && s in FillBranch(ctes[order[k]], FillOf(plans, owner, order[k]), n) {
        assert order[k] == order[1..][k - 1];
      }
    }
  }

  lemma {:induction false} InSomeCons<A>(x: A, head: seq<A>, rest: seq<seq<A>>)
    ensures InSome(x, [head] + rest) <==> x in head || InSome(x, rest)
  {
    if x in head {
      assert x in ([head] + rest)[0];
    }
    if InSome(x, rest) {
      var i :| 0 <= i < |rest| && x in rest[i];
      assert x in ([head] + rest)[i + 1];
    }
  }

  lemma {:induction false} InSomeSplit<A>(x: A, a: seq<seq<A>>, b: seq<seq<A>>)
    ensures InSome(x, a + b) <==> InSome(x, a) || InSome(x, b)
  {
    if InSome(x, a) {
      var i :| 0 <= i < |a| && x in a[i];
      assert x in (a + b)[i];
    }
    if InSome(x, b) {
      var i :| 0 <= i < |b| && x in b[i];
      assert x in (a + b)[|a| + i];
    }
  }

  /** A spine row is a row of some CTE or one of its filled rows. */
  lemma {:induction false} SpineMembers(ctes: seq<Cte>, order: seq<nat>, plans: seq<MetricPlan>, owner: seq<nat>,
      n: nat, s: SpineRow)
    requires IsOrder(order, |ctes|)
    ensures InSome(s, SpineBranches(ctes, order, plans, owner, n))
       <==> exists c :: 0 <= c < |ctes| && CteContributes(ctes[c], FillOf(plans, owner, c), n, s)
  {
    var own := seq(|order|, k requires 0 <= k < |order| => CteRows(ctes[order[k]]));
    InSomeSplit(s, own, FillBranches(ctes, order, plans, owner, n));
    FillBranchesMembers(ctes, order, plans, owner, n, s);
    if c :| 0 <= c < |ctes| && CteContributes(ctes[c], FillOf(plans, owner, c), n, s) {
      assert c in order;
      var k :| 0 <= k < |order| && order[k] == c;
      assert own[k] == CteRows(ctes[c]);
    }
    if InSome(s, own) {
      var k :| 0 <= k < |own| && s in own[k];
      assert CteContributes(ctes[order[k]], FillOf(plans, owner, order[k]), n, s);
    }
  }

  /** The spine is the set of tuples of every leaf, filled ones included, whatever was fused. */
  lemma {:induction false} SpineIsReference(leaves: seq<LeafPlan>, plans: seq<MetricPlan>, st: FuseState,
      order: seq<nat>, s: SpineRow)
    requires leaves != [] && PlansFit(leaves, plans) && AllCtesFit(leaves, st) && IsOrder(order, |st.physical|)
    ensures InSome(s, SpineBranches(Ctes(st.physical), order, plans, st.owner, leaves[0].dimCount))
       <==> InSpine(leaves, plans, s)
  {
    var ctes, n := Ctes(st.physical), leaves[0].dimCount;
    SpineMembers(ctes, order, plans, st.owner, n, s);
    if c :| 0 <= c < |ctes| && CteContributes(ctes[c], FillOf(plans, st.owner, c), n, s) {
      assert CteFits(leaves, st, c);
      CteContributesLeaves(leaves, plans, st, c, s);
    }
    if i :| 0 <= i < |leaves| && Contributes(leaves, plans, i, s) {
      var c := st.owner[i];
      assert CteFits(leaves, st, c);
      CteContributesLeaves(leaves, plans, st, c, s);
      assert CteContributes(ctes[c], FillOf(plans, st.owner, c), n, s);
    }
  }

  // ---------------------------------------------------------------- the FROM clause

  lemma {:induction false} LookupOwn(rows: seq<Group>, marked: bool, g: Group)
    requires OneRowPerTuple(rows, marked) && g in rows
    ensures Lookup(rows, marked, SpineRow(g.dims, !marked || g.flag)) == Some(g)
  {
    var s := SpineRow(g.dims, !marked || g.flag);
    OnIsEquality(marked, s, g);
    var found := Lookup(rows, marked, s);
    OnIsEquality(marked, s, found.value);
    var i :| 0 <= i < |rows| && rows[i] == g;
    var j :| 0 <= j < |rows| && rows[j] == found.value;
    assert i == j;
  }

  lemma {:induction false} CteRowsDistinct(cte: Cte)
    requires OneRowPerTuple(cte.rows, cte.projectsIsFinal)
    ensures NoDup(CteRows(cte))
  {
  }

  lemma {:induction false} AloneAligned(ctes: seq<Cte>, c: nat)
    requires c < |ctes| && OneRowPerTuple(ctes[c].rows, ctes[c].projectsIsFinal)
    ensures Aligned(Alone(ctes[c], c), CteRows(ctes[c]), ctes, {c})
  {
    var cte, t := ctes[c], Alone(ctes[c], c);
    forall i | 0 <= i < |t|
      ensures Paired(t[i], ctes, {c})
    {
      LookupOwn(cte.rows, cte.projectsIsFinal, cte.rows[i]);
    }
    assert RowsOf(t) == CteRows(cte);
  }

  /** A cross join onto a CTE with one row that matches everywhere is a left join. */
  lemma {:induction false} CrossIsLeft(t: seq<Joined>, c: nat, cte: Cte)
    requires |cte.rows| == 1 && forall j :: j in t ==> On(cte.projectsIsFinal, j.row, cte.rows[0])
    ensures CrossJoin(t, c, cte) == LeftJoin(t, c, cte)
  {
    var f := (j: Joined) => Map(cte.rows, (g: Group) => WithMatch(j, c, g));
    var h := (j: Joined) => JoinRow(j, c, cte);
    forall j | j in t
      ensures f(j) == h(j)
    {
      FilterKeepsAll(cte.rows, (g: Group) => On(cte.projectsIsFinal, j.row, g));
    }
    assert Map(t, f) == Map(t, h);
  }

  lemma {:induction false} CrossAllAligned(t: seq<Joined>, ctes: seq<Cte>, order: seq<nat>, before: set<nat>)
    requires forall k :: 0 <= k < |order| ==> order[k] < |ctes| && IsUnit(ctes[order[k]])
    requires Aligned(t, [SpineRow([], true)], ctes, before)
    ensures Aligned(CrossAll(t, ctes, order), [SpineRow([], true)], ctes, before + Elems(order))
    decreases |order|
  {
    if order == [] {
      assert before + Elems(order) == before;
    } else {
      var c := order[0];
      assert RowsOf(t)[0] == t[0].row;
      OnIsEquality(false, t[0].row, ctes[c].rows[0]);
      CrossIsLeft(t, c, ctes[c]);
      LeftJoinAligns(t, [SpineRow([], true)], ctes, c, before);
      CrossAllAligned(CrossJoin(t, c, ctes[c]), ctes, order[1..], before + {c});
      assert before + {c} + Elems(order[1..]) == before + Elems(order);
    }
  }

  /** One unmarked row without dimensions. */
  ghost predicate IsUnit(cte: Cte) {
    |cte.rows| == 1 && cte.rows[0].dims == [] && !cte.projectsIsFinal
  }

  lemma {:induction false} BareAligned(spine: seq<SpineRow>, ctes: seq<Cte>)
    ensures Aligned(Map(spine, Bare), spine, ctes, {})
  {
  }

  ghost predicate CtesDistinct(ctes: seq<Cte>) {
    forall c :: 0 <= c < |ctes| ==> OneRowPerTuple(ctes[c].rows, ctes[c].projectsIsFinal)
  }

  lemma {:induction false} FusedRowsDistinct(leaves: seq<LeafPlan>, st: FuseState)
    requires AllCtesFit(leaves, st)
    ensures CtesDistinct(Ctes(st.physical))
  {
    forall c | 0 <= c < |st.physical|
      ensures OneRowPerTuple(Ctes(st.physical)[c].rows, Ctes(st.physical)[c].projectsIsFinal)
    {
      assert CteFits(leaves, st, c);
      LeafRowsDistinct(st.physical[c].keyLeaf);
    }
  }

  /** Without running totals a leaf contributes its own rows only. */
  lemma {:induction false} NothingFilled(leaves: seq<LeafPlan>, plans: seq<MetricPlan>, i: nat)
    requires !Accumulates(plans)
    ensures !Filled(leaves, plans, i)
  {
  }

  ghost function All(n: nat): set<nat> {
    Elems(Ids(n))
  }

  lemma {:induction false} OrderIsAll(order: seq<nat>, n: nat)
    requires |order| > 0 && IsOrder(order, n)
    ensures {} + Elems(order) == All(n)
    ensures {order[0]} + Elems(order[1..]) == All(n)
  {
    assert order == [order[0]] + order[1..];
    forall c | c in All(n)
      ensures c in order
    {
      assert 0 <= c < n;
    }
    forall c | c in order
      ensures c in All(n)
    {
      assert Ids(n)[c] == c;
    }
  }

  /** The FROM clause lists every spine row of the reference once, paired with every CTE. */
  ghost predicate FromExact(leaves: seq<LeafPlan>, plans: seq<MetricPlan>, ctes: seq<Cte>, t: seq<Joined>) {
    && Aligned(t, RowsOf(t), ctes, All(|ctes|))
    && NoDup(RowsOf(t))
    && forall s :: s in RowsOf(t) <==> InSpine(leaves, plans, s)
  }

  lemma {:induction false} FromSpine(leaves: seq<LeafPlan>, plans: seq<MetricPlan>, st: FuseState, order: seq<nat>)
    requires leaves != [] && PlansFit(leaves, plans) && AllCtesFit(leaves, st)
    requires |order| > 0 && IsOrder(order, |st.physical|)
    ensures var ctes := Ctes(st.physical);
      FromExact(leaves, plans, ctes,
        JoinAll(Map(UnionChain(SpineBranches(ctes, order, plans, st.owner, leaves[0].dimCount)), Bare), ctes, order))
  {
    var ctes := Ctes(st.physical);
    var branches := SpineBranches(ctes, order, plans, st.owner, leaves[0].dimCount);
    var spine := UnionChain(branches);
    FusedRowsDistinct(leaves, st);
    assert branches[0] == CteRows(ctes[order[0]]);
    CteRowsDistinct(ctes[order[0]]);
    BareAligned(spine, ctes);
    JoinAllExact(Map(spine, Bare), spine, ctes, order, {});
    OrderIsAll(order, |ctes|);
    forall s
      ensures s in spine <==> InSpine(leaves, plans, s)
    {
      SpineIsReference(leaves, plans, st, order, s);
    }
  }

  lemma {:induction false} FromAlone(leaves: seq<LeafPlan>, plans: seq<MetricPlan>, st: FuseState)
    requires leaves != [] && PlansFit(leaves, plans) && AllCtesFit(leaves, st)
    requires |st.physical| == 1 && !Accumulates(plans)
    ensures FromExact(leaves, plans, Ctes(st.physical), Alone(Ctes(st.physical)[0], 0))
  {
    var ctes := Ctes(st.physical);
    FusedRowsDistinct(leaves, st);
    AloneAligned(ctes, 0);
    CteRowsDistinct(ctes[0]);
    assert Ids(1) == [0];
    forall s
      ensures s in CteRows(ctes[0]) <==> InSpine(leaves, plans, s)
    {
      OnlyOwnRows(leaves, plans, st, s);
    }
  }

  lemma {:induction false} OnlyOwnRows(leaves: seq<LeafPlan>, plans: seq<MetricPlan>, st: FuseState, s: SpineRow)
    requires AllCtesFit(leaves, st) && !Accumulates(plans)
    ensures InSpine(leaves, plans, s) <==> exists c :: 0 <= c < |st.physical| && s in CteRows(CteOf(st.physical[c]))
  {
    forall i | 0 <= i < |leaves|
      ensures s in CteRows(LeafCte(leaves[i])) <==> s in CteRows(CteOf(st.physical[st.owner[i]]))
      ensures !Filled(leaves, plans, i)
    {
      assert CteFits(leaves, st, st.owner[i]);
      SameBodySameRows(st.physical[st.owner[i]].keyLeaf, leaves[i], CteOf(st.physical[st.owner[i]]), s);
      NothingFilled(leaves, plans, i);
    }
    if InSpine(leaves, plans, s) {
      var i :| 0 <= i < |leaves| && Contributes(leaves, plans, i, s);
      assert s in CteRows(CteOf(st.physical[st.owner[i]]));
    }
    if c :| 0 <= c < |st.physical| && s in CteRows(CteOf(st.physical[c])) {
      assert CteFits(leaves, st, c);
      var i :| 0 <= i < |leaves| && st.owner[i] == c;
      assert Contributes(leaves, plans, i, s);
    }
  }

  lemma {:induction false} FromCross(leaves: seq<LeafPlan>, plans: seq<MetricPlan>, st: FuseState, order: seq<nat>)
    requires leaves != [] && PlansFit(leaves, plans) && AllCtesFit(leaves, st) && !Accumulates(plans)
    requires leaves[0].dimCount == 0 && |order| > 0 && IsOrder(order, |st.physical|)
    ensures var ctes := Ctes(st.physical);
      FromExact(leaves, plans, ctes, CrossAll(Alone(ctes[order[0]], order[0]), ctes, order[1..]))
  {
    var ctes := Ctes(st.physical);
    FusedRowsDistinct(leaves, st);
    forall c | 0 <= c < |ctes|
      ensures IsUnit(ctes[c]) && CteRows(ctes[c]) == [SpineRow([], true)]
    {
      assert CteFits(leaves, st, c);
      OneRowWithoutDimensions(st.physical[c].keyLeaf);
    }
    AloneAligned(ctes, order[0]);
    CrossAllAligned(Alone(ctes[order[0]], order[0]), ctes, order[1..], {order[0]});
    OrderIsAll(order, |ctes|);
    forall s
      ensures s in [SpineRow([], true)] <==> InSpine(leaves, plans, s)
    {
      OnlyOwnRows(leaves, plans, st, s);
      assert CteRows(CteOf(st.physical[order[0]])) == [SpineRow([], true)];
    }
  }
}
