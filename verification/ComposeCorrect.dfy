/** The main results on compose: the statement returns the reference result, so fusing leaves,
    naming them in another order, or adding other metrics changes no number. */
module ComposeCorrect {
  import opened Relational
  import opened Plans
  import opened Semantics
  import opened Spine
  import opened Leaves
  import opened Fusion
  import opened Fill
  import opened Compose
  import opened Reference
  import opened ComposeLaws
  import ZeroDenominators

  // ---------------------------------------------------------------- references

  ghost predicate RefFits(leaves: seq<LeafPlan>, r: LeafRef) {
    r.leaf < |leaves| && HasColumn(leaves[r.leaf], r.column)
  }

  lemma {:induction false} RefsFit(leaves: seq<LeafPlan>, m: MetricPlan)
    requires forall p :: p in Walk(m) ==> PlanFits(leaves, p)
    ensures forall r :: r in RefsOf(m) ==> RefFits(leaves, r)
    decreases m, 1
  {
    assert PlanFits(leaves, m);
    RefsFitAll(leaves, m.operands);
  }

  lemma {:induction false} RefsFitAll(leaves: seq<LeafPlan>, ms: seq<MetricPlan>)
    requires forall p :: p in WalkAll(ms) ==> PlanFits(leaves, p)
    ensures forall r :: r in RefsOfAll(ms) ==> RefFits(leaves, r)
    decreases ms, 0
  {
    if ms != [] {
      RefsFit(leaves, ms[0]);
      RefsFitAll(leaves, ms[1..]);
    }
  }

  /** A joined row serves a reference with the cell of the leaf the reference names. */
  lemma {:induction false} FetchIsLeafCell(leaves: seq<LeafPlan>, dedup: bool, j: Joined, r: LeafRef)
    requires LeavesOk(leaves) && KeysSound(leaves) && RefFits(leaves, r)
    requires Paired(j, Ctes(Fused(leaves, dedup).physical), All(|Fused(leaves, dedup).physical|))
    ensures Fetch(Ctes(Fused(leaves, dedup).physical), j, Fused(leaves, dedup).owner, r) == LeafCell(leaves, j.row, r)
  {
    var st, l := Fused(leaves, dedup), leaves[r.leaf];
    ServesLeaf(leaves, dedup, r.leaf);
    var c := st.owner[r.leaf];
    assert Ids(|st.physical|)[c] == c;
    assert c in All(|st.physical|);
    var m :| m in l.metrics && m.alias == r.column;
    CteLooksUpLeaf(leaves, dedup, r.leaf, j.row);
    assert MeasureOf(st.physical[c].metrics, r.column) == MeasureOf(l.metrics, r.column);
  }

  lemma {:induction false} CteLooksUpLeaf(leaves: seq<LeafPlan>, dedup: bool, i: nat, s: SpineRow)
    requires LeavesOk(leaves) && KeysSound(leaves) && i < |leaves|
    ensures var st := Fused(leaves, dedup);
      && i < |st.owner| && st.owner[i] < |st.physical|
      && var key := st.physical[st.owner[i]].keyLeaf;
      && key.projectsIsFinal == leaves[i].projectsIsFinal
      && Lookup(Groups(key), key.projectsIsFinal, s) == Lookup(Groups(leaves[i]), key.projectsIsFinal, s)
  {
    var st := Fused(leaves, dedup);
    ServesLeaf(leaves, dedup, i);
    CtesFit(leaves, dedup);
    assert CteFits(leaves, st, st.owner[i]);
    var key := st.physical[st.owner[i]].keyLeaf;
    LeafRowsDistinct(key);
    LeafRowsDistinct(leaves[i]);
    SameBranchesSameRows(key, leaves[i]);
    LookupIgnoresOrder(Groups(key), Groups(leaves[i]), key.projectsIsFinal, s);
  }

  lemma {:induction false} FromServes(leaves: seq<LeafPlan>, plans: seq<MetricPlan>, dedup: bool, t: seq<Joined>,
      refs: set<LeafRef>)
    requires LeavesOk(leaves) && KeysSound(leaves) && FromExact(leaves, plans, Ctes(Fused(leaves, dedup).physical), t)
    requires forall r :: r in refs ==> RefFits(leaves, r)
    ensures Serves(Ctes(Fused(leaves, dedup).physical), t, Fused(leaves, dedup).owner, LookAt(leaves), refs)
  {
    var st := Fused(leaves, dedup);
    forall i, r | 0 <= i < |t| && r in refs
      ensures Fetch(Ctes(st.physical), t[i], st.owner, r) == LookAt(leaves)(t[i].row, r)
    {
      FetchIsLeafCell(leaves, dedup, t[i], r);
    }
  }

  // ---------------------------------------------------------------- SELECT

  lemma {:induction false} FlagsCorrect(metrics: seq<MetricPlan>, ctes: seq<Cte>, t: seq<Joined>, scan: Scan,
      owner: seq<nat>, look: Look, i: nat)
    requires i < |t|
    requires forall k :: 0 <= k < |metrics|
               ==> WellFormed(metrics[k]) && Serves(ctes, t, owner, look, RefsOf(metrics[k]))
    requires forall k :: 0 <= k < |metrics| ==> Windowed(scan, t, Walk(metrics[k]))
    ensures FlagCells(metrics, ctes, owner, t, scan, i) == FlagsAt(metrics, Elems(RowsOf(t)), look, t[i].row)
  {
    if metrics != [] {
      ZeroDenominators.CountedCorrect(metrics[0], ctes, t, scan, owner, look, i);
      FlagsCorrect(metrics[1..], ctes, t, scan, owner, look, i);
    }
  }

  lemma {:induction false} SelectCorrect(metrics: seq<MetricPlan>, ctes: seq<Cte>, t: seq<Joined>, scan: Scan,
      owner: seq<nat>, look: Look, i: nat)
    requires i < |t|
    requires forall k :: 0 <= k < |metrics|
               ==> WellFormed(metrics[k]) && Serves(ctes, t, owner, look, RefsOf(metrics[k]))
    requires forall k :: 0 <= k < |metrics| ==> Windowed(scan, t, Walk(metrics[k]))
    ensures MetricCells(metrics, ctes, owner, t, scan, i) == MetricValuesAt(metrics, Elems(RowsOf(t)), look, t[i].row)
  {
    forall k | 0 <= k < |metrics|
      ensures MetricCells(metrics, ctes, owner, t, scan, i)[k]
          == MetricValuesAt(metrics, Elems(RowsOf(t)), look, t[i].row)[k]
    {
      MetricValueCorrect(metrics[k], ctes, t, scan, owner, look, i);
    }
  }

  lemma {:induction false} MarksAgree(leaves: seq<LeafPlan>, st: FuseState)
    requires AllCtesFit(leaves, st)
    ensures AnyMarked(Ctes(st.physical)) <==> AnyFinal(leaves)
  {
    if AnyFinal(leaves) {
      var i :| 0 <= i < |leaves| && leaves[i].projectsIsFinal;
      assert CteFits(leaves, st, st.owner[i]);
      assert Ctes(st.physical)[st.owner[i]].projectsIsFinal;
    }
    if AnyMarked(Ctes(st.physical)) {
      var c :| 0 <= c < |st.physical| && Ctes(st.physical)[c].projectsIsFinal;
      assert CteFits(leaves, st, c);
      var i :| 0 <= i < |leaves| && st.owner[i] == c;
      assert SameBody(st.physical[c].keyLeaf, leaves[i]);
    }
  }

  /** The outer SELECT yields the reference row of every spine row. */
  lemma {:induction false} SelectIsReference(leaves: seq<LeafPlan>, metrics: seq<MetricPlan>, dedup: bool,
      t: seq<Joined>, scan: Scan, i: nat)
    requires Planned(leaves, metrics) && i < |t| && Windowed(scan, t, WalkAll(metrics))
    requires FromExact(leaves, WalkAll(metrics), Ctes(Fused(leaves, dedup).physical), t)
    ensures Select(metrics, Ctes(Fused(leaves, dedup).physical), Fused(leaves, dedup).owner, t, scan, i,
                   AnyMarked(Ctes(Fused(leaves, dedup).physical)), !HidesRows(WalkAll(metrics)))
         == RowAt(leaves, metrics, Elems(RowsOf(t)), t[i].row)
  {
    var st := Fused(leaves, dedup);
    var ctes := Ctes(st.physical);
    forall k | 0 <= k < |metrics|
      ensures Serves(ctes, t, st.owner, LookAt(leaves), RefsOf(metrics[k])) && Windowed(scan, t, Walk(metrics[k]))
    {
      assert metrics[k] in metrics;
      RefsFit(leaves, metrics[k]);
      FromServes(leaves, WalkAll(metrics), dedup, t, RefsOf(metrics[k]));
    }
    SelectCorrect(metrics, ctes, t, scan, st.owner, LookAt(leaves), i);
    FlagsCorrect(metrics, ctes, t, scan, st.owner, LookAt(leaves), i);
    CtesFit(leaves, dedup);
    MarksAgree(leaves, st);
  }

  // ---------------------------------------------------------------- visibility

  lemma {:induction false} KeepVisibleMembers(rows: seq<Tuple>, acc: Option<Accumulate>, visible: Option<seq<Tuple>>)
    requires visible.Some? ==> NoDup(visible.value)
    requires acc.Some? ==> visible.Some?
    ensures forall d :: d in KeepVisible(rows, acc, visible) <==>
      d in rows && (acc.Some? ==> Project(d, acc.value.orderBy) in visible.value)
    ensures NoDup(rows) ==> NoDup(KeepVisible(rows, acc, visible))
  {
    if acc.Some? {
      InnerJoinKeeps(rows, visible.value, (d: Tuple) => Project(d, acc.value.orderBy));
    }
  }

  /** CTE `c` shows tuple `d`: one of its rows or filled rows that its visibility CTE keeps. */
  ghost predicate CteShows(cte: Cte, key: LeafPlan, fill: Option<Accumulate>, acc: Option<Accumulate>, n: nat,
      d: Tuple)
  {
    && (d in CteDims(cte) || (fill.Some? && d in FillRows(CteDims(cte), fill.value, n)))
    && (acc.Some? ==> key.visible.Some? && Project(d, acc.value.orderBy) in key.visible.value)
  }

  /** Visibility CTEs list each tuple once, and belong to the CTEs that are filtered by them. */
  ghost predicate VisibleOk(phys: seq<Phys>, plans: seq<MetricPlan>, owner: seq<nat>) {
    forall c :: 0 <= c < |phys| ==>
      && (phys[c].keyLeaf.visible.Some? ==> NoDup(phys[c].keyLeaf.visible.value))
      && (VisibleOf(plans, owner, c).Some? ==> phys[c].keyLeaf.visible.Some?)
  }

  lemma {:induction false} VisibleBranchesMembers(ctes: seq<Cte>, phys: seq<Phys>, order: seq<nat>,
      plans: seq<MetricPlan>, owner: seq<nat>, n: nat, d: Tuple)
    requires |phys| == |ctes| && VisibleOk(phys, plans, owner)
    requires forall k :: 0 <= k < |order| ==> order[k] < |ctes|
    ensures InSome(d, VisibleBranches(ctes, phys, order, plans, owner, n)) <==>
      exists k :: 0 <= k < |order| &&
        CteShows(ctes[order[k]], phys[order[k]].keyLeaf, FillOf(plans, owner, order[k]),
          VisibleOf(plans, owner, order[k]), n, d)
    decreases |order|
  {
    if order != [] {
      var c := order[0];
      var fill, acc, visible := FillOf(plans, owner, c), VisibleOf(plans, owner, c), phys[c].keyLeaf.visible;
      var rest := VisibleBranches(ctes, phys, order[1..], plans, owner, n);
      VisibleBranchesMembers(ctes, phys, order[1..], plans, owner, n, d);
      HeadBranches(ctes[c], phys[c].keyLeaf, fill, acc, n, d, rest);
      if k :| 0 <= k < |order[1..]|
              && CteShows(ctes[order[1..][k]], phys[order[1..][k]].keyLeaf, FillOf(plans, owner, order[1..][k]),
                          VisibleOf(plans, owner, order[1..][k]), n, d) {
        assert order[k + 1] == order[1..][k];
      }
      if k :| 0 < k < |order|
              && CteShows(ctes[order[k]], phys[order[k]].keyLeaf, FillOf(plans, owner, order[k]),
                          VisibleOf(plans, owner, order[k]), n, d) {
        assert order[k] == order[1..][k - 1];
      }
    }
  }

  lemma {:induction false} HeadBranches(cte: Cte, key: LeafPlan, fill: Option<Accumulate>, acc: Option<Accumulate>,
      n: nat, d: Tuple, rest: seq<seq<Tuple>>)
    requires key.visible.Some? ==> NoDup(key.visible.value)
    requires acc.Some? ==> key.visible.Some?
    ensures var own := [KeepVisible(CteDims(cte), acc, key.visible)];
      var filled := if fill.None? then [] else [KeepVisible(FillRows(CteDims(cte), fill.value, n), acc, key.visible)];
      InSome(d, own + filled + rest) <==> CteShows(cte, key, fill, acc, n, d) || InSome(d, rest)
  {
    var a := KeepVisible(CteDims(cte), acc, key.visible);
    if fill.None? {
      assert [a] + [] + rest == [a] + rest;
      InSomeCons(d, a, rest);
    } else {
      TwoBranches(d, a, KeepVisible(FillRows(CteDims(cte), fill.value, n), acc, key.visible), rest);
      KeepVisibleMembers(FillRows(CteDims(cte), fill.value, n), acc, key.visible);
    }
    KeepVisibleMembers(CteDims(cte), acc, key.visible);
  }

  lemma {:induction false} TwoBranches<A>(x: A, a: seq<A>, b: seq<A>, rest: seq<seq<A>>)
    ensures InSome(x, [a] + [b] + rest) <==> x in a || x in b || InSome(x, rest)
  {
    assert [a] + [b] + rest == [a] + ([b] + rest);
    InSomeCons(x, a, [b] + rest);
    InSomeCons(x, b, rest);
  }

  lemma {:induction false} UnmarkedRows(cte: Cte, d: Tuple)
    requires !cte.projectsIsFinal
    ensures SpineRow(d, true) in CteRows(cte) <==> d in CteDims(cte)
  {
    if d in CteDims(cte) {
      var k :| 0 <= k < |cte.rows| && CteDims(cte)[k] == d;
      assert CteRows(cte)[k] == SpineRow(d, true);
    }
    if SpineRow(d, true) in CteRows(cte) {
      var k :| 0 <= k < |cte.rows| && CteRows(cte)[k] == SpineRow(d, true);
      assert CteDims(cte)[k] == d;
    }
  }

  /** What a CTE shows is what it contributes to the spine and lets through. */
  lemma {:induction false} CteShowsContributions(leaves: seq<LeafPlan>, plans: seq<MetricPlan>, st: FuseState, c: nat,
      d: Tuple)
    requires leaves != [] && PlansFit(leaves, plans) && AllCtesFit(leaves, st) && c < |st.physical|
    requires !CteOf(st.physical[c]).projectsIsFinal
    ensures CteShows(CteOf(st.physical[c]), st.physical[c].keyLeaf, FillOf(plans, st.owner, c),
        VisibleOf(plans, st.owner, c), leaves[0].dimCount, d)
       <==> CteContributes(CteOf(st.physical[c]), FillOf(plans, st.owner, c), leaves[0].dimCount, SpineRow(d, true))
            && Passes(st.physical[c].keyLeaf, SpineRow(d, true))
  {
    var cte, fill := CteOf(st.physical[c]), FillOf(plans, st.owner, c);
    assert CteFits(leaves, st, c);
    VisibleAgrees(leaves, plans, st, c);
    UnmarkedRows(cte, d);
    if fill.Some? {
      MarkedTrue(FillRows(CteDims(cte), fill.value, leaves[0].dimCount), SpineRow(d, true));
    }
  }

  /** A CTE shows a tuple when one of the leaves it serves contributes it and lets it through. */
  lemma {:induction false} CteShowsLeaves(leaves: seq<LeafPlan>, plans: seq<MetricPlan>, st: FuseState, c: nat,
      d: Tuple)
    requires leaves != [] && PlansFit(leaves, plans) && AllCtesFit(leaves, st) && c < |st.physical|
    requires !CteOf(st.physical[c]).projectsIsFinal
    ensures CteShows(CteOf(st.physical[c]), st.physical[c].keyLeaf, FillOf(plans, st.owner, c),
        VisibleOf(plans, st.owner, c), leaves[0].dimCount, d)
       <==> exists i ::
         0 <= i < |leaves| && st.owner[i] == c && Contributes(leaves, plans, i, SpineRow(d, true))
         && Passes(leaves[i], SpineRow(d, true))
  {
    var s := SpineRow(d, true);
    assert CteFits(leaves, st, c);
    CteShowsContributions(leaves, plans, st, c, d);
    CteContributesLeaves(leaves, plans, st, c, s);
    forall i | 0 <= i < |leaves| && st.owner[i] == c
      ensures Passes(leaves[i], s) == Passes(st.physical[c].keyLeaf, s)
    {
      assert SameBody(st.physical[c].keyLeaf, leaves[i]);
    }
  }

  ghost predicate ShowsAt(leaves: seq<LeafPlan>, plans: seq<MetricPlan>, st: FuseState, c: nat, d: Tuple)
    requires leaves != [] && c < |st.physical|
  {
    CteShows(Ctes(st.physical)[c], st.physical[c].keyLeaf, FillOf(plans, st.owner, c), VisibleOf(plans, st.owner, c),
      leaves[0].dimCount, d)
  }

  lemma {:induction false} VisibleSpineMembers(leaves: seq<LeafPlan>, plans: seq<MetricPlan>, st: FuseState,
      order: seq<nat>, d: Tuple)
    requires leaves != [] && PlansFit(leaves, plans) && AllCtesFit(leaves, st) && IsOrder(order, |st.physical|)
    requires !AnyMarked(Ctes(st.physical)) && VisibleOk(st.physical, plans, st.owner)
    ensures InSome(d, VisibleBranches(Ctes(st.physical), st.physical, order, plans, st.owner, leaves[0].dimCount))
       <==> Shown(leaves, plans, SpineRow(d, true))
  {
    var ctes, s := Ctes(st.physical), SpineRow(d, true);
    VisibleBranchesMembers(ctes, st.physical, order, plans, st.owner, leaves[0].dimCount, d);
    assert forall c :: 0 <= c < |ctes| ==> !ctes[c].projectsIsFinal;
    if k :| 0 <= k < |order| && ShowsAt(leaves, plans, st, order[k], d) {
      CteShowsLeaves(leaves, plans, st, order[k], d);
    }
    if i :| 0 <= i < |leaves| && Contributes(leaves, plans, i, s) && Passes(leaves[i], s) {
      var c := st.owner[i];
      CteShowsLeaves(leaves, plans, st, c, d);
      assert ShowsAt(leaves, plans, st, c, d);
      assert c in order;
      var k :| 0 <= k < |order| && order[k] == c;
    }
  }

  // ---------------------------------------------------------------- the answer

  /** Where no leaf projects a marker, every spine row is marked TRUE. */
  lemma {:induction false} MarkedTrueThroughout(leaves: seq<LeafPlan>, plans: seq<MetricPlan>, s: SpineRow)
    requires !AnyFinal(leaves) && InSpine(leaves, plans, s)
    ensures s.flag
  {
    var i :| 0 <= i < |leaves| && Contributes(leaves, plans, i, s);
    assert !leaves[i].projectsIsFinal;
    assert forall r :: r in CteRows(LeafCte(leaves[i])) ==> r.flag;
  }

  lemma {:induction false} RowAtInjective(leaves: seq<LeafPlan>, metrics: seq<MetricPlan>, rows: set<SpineRow>,
      s: SpineRow, s': SpineRow)
    requires forall k :: 0 <= k < |metrics| ==> WellFormed(metrics[k])
    requires InSpine(leaves, WalkAll(metrics), s) && InSpine(leaves, WalkAll(metrics), s')
    requires RowAt(leaves, metrics, rows, s) == RowAt(leaves, metrics, rows, s')
    ensures s == s'
  {
    if !AnyFinal(leaves) {
      MarkedTrueThroughout(leaves, WalkAll(metrics), s);
      MarkedTrueThroughout(leaves, WalkAll(metrics), s');
    }
  }

  /** `outer` lists the reference row of every spine row once. */
  ghost predicate IsFull(leaves: seq<LeafPlan>, metrics: seq<MetricPlan>, rows: set<SpineRow>, outer: seq<OutRow>)
    requires forall k :: 0 <= k < |metrics| ==> WellFormed(metrics[k])
  {
    && NoDup(outer)
    && (forall s :: s in rows <==> InSpine(leaves, WalkAll(metrics), s))
    && (forall s :: s in rows ==> RowAt(leaves, metrics, rows, s) in outer)
    && (forall r :: r in outer ==> exists s :: s in rows && r == RowAt(leaves, metrics, rows, s))
  }

  ghost predicate Lists(leaves: seq<LeafPlan>, metrics: seq<MetricPlan>, spine: seq<SpineRow>, outer: seq<OutRow>)
    requires forall k :: 0 <= k < |metrics| ==> WellFormed(metrics[k])
  {
    && NoDup(spine) && |outer| == |spine|
    && (forall s :: s in spine <==> InSpine(leaves, WalkAll(metrics), s))
    && (forall i :: 0 <= i < |spine| ==> outer[i] == RowAt(leaves, metrics, Elems(spine), spine[i]))
  }

  lemma {:induction false} ListedOnce(leaves: seq<LeafPlan>, metrics: seq<MetricPlan>, spine: seq<SpineRow>,
      outer: seq<OutRow>)
    requires forall k :: 0 <= k < |metrics| ==> WellFormed(metrics[k])
    requires Lists(leaves, metrics, spine, outer)
    ensures NoDup(outer)
  {
    forall i, j | 0 <= i < j < |outer|
      ensures outer[i] != outer[j]
    {
      assert spine[i] in spine && spine[j] in spine;
      if outer[i] == outer[j] {
        RowAtInjective(leaves, metrics, Elems(spine), spine[i], spine[j]);
      }
    }
  }

  lemma {:induction false} ListingIsFull(leaves: seq<LeafPlan>, metrics: seq<MetricPlan>, spine: seq<SpineRow>,
      outer: seq<OutRow>)
    requires forall k :: 0 <= k < |metrics| ==> WellFormed(metrics[k])
    requires Lists(leaves, metrics, spine, outer)
    ensures IsFull(leaves, metrics, Elems(spine), outer)
  {
    var rows := Elems(spine);
    ListedOnce(leaves, metrics, spine, outer);
    forall s | s in rows
      ensures RowAt(leaves, metrics, rows, s) in outer
    {
      var i :| 0 <= i < |spine| && spine[i] == s;
      assert outer[i] == RowAt(leaves, metrics, rows, s);
    }
    forall r | r in outer
      ensures exists s :: s in rows && r == RowAt(leaves, metrics, rows, s)
    {
      var i :| 0 <= i < |outer| && outer[i] == r;
      assert spine[i] in rows;
    }
  }

  lemma {:induction false} SelectAllIsFull(leaves: seq<LeafPlan>, metrics: seq<MetricPlan>, dedup: bool,
      t: seq<Joined>, scan: Scan)
    requires Planned(leaves, metrics) && Windowed(scan, t, WalkAll(metrics))
    requires FromExact(leaves, WalkAll(metrics), Ctes(Fused(leaves, dedup).physical), t)
    ensures IsFull(leaves, metrics, Elems(RowsOf(t)),
                   SelectAll(metrics, Ctes(Fused(leaves, dedup).physical), Fused(leaves, dedup).owner, t, scan,
                             AnyMarked(Ctes(Fused(leaves, dedup).physical)), !HidesRows(WalkAll(metrics))))
  {
    var ctes := Ctes(Fused(leaves, dedup).physical);
    var outer :=
        SelectAll(metrics, ctes, Fused(leaves, dedup).owner, t, scan, AnyMarked(ctes), !HidesRows(WalkAll(metrics)));
    forall i | 0 <= i < |t|
      ensures outer[i] == RowAt(leaves, metrics, Elems(RowsOf(t)), RowsOf(t)[i])
    {
      SelectIsReference(leaves, metrics, dedup, t, scan, i);
    }
    ListingIsFull(leaves, metrics, RowsOf(t), outer);
  }

  lemma {:induction false} NothingHidden(leaves: seq<LeafPlan>, plans: seq<MetricPlan>, s: SpineRow)
    requires PlansFit(leaves, plans) && !HidesRows(plans)
    ensures Shown(leaves, plans, s) <==> InSpine(leaves, plans, s)
  {
    forall i | 0 <= i < |leaves| { HidingLeaf(leaves, plans, i); }
  }

  lemma {:induction false} HidingLeaf(leaves: seq<LeafPlan>, plans: seq<MetricPlan>, i: nat)
    requires PlansFit(leaves, plans) && i < |leaves|
    ensures leaves[i].visible.Some? ==> HidesRows(plans)
  {
    if leaves[i].visible.Some? {
      assert Accumulated(leaves, plans, i);
      var p :| p in plans && Uses(p, Ids(|leaves|), i);
      assert PlanFits(leaves, p);
    }
  }

  lemma {:induction false} FullIsAnswer(leaves: seq<LeafPlan>, metrics: seq<MetricPlan>, rows: set<SpineRow>,
      outer: seq<OutRow>)
    requires Planned(leaves, metrics) && !HidesRows(WalkAll(metrics))
    requires IsFull(leaves, metrics, rows, outer)
    ensures IsAnswer(leaves, metrics, rows, outer)
  {
    forall s | s in rows
      ensures Shown(leaves, WalkAll(metrics), s)
    {
      NothingHidden(leaves, WalkAll(metrics), s);
    }
  }

  /** The visible spine lists each tuple of a shown row once. */
  ghost predicate IsVisibleSpine(leaves: seq<LeafPlan>, plans: seq<MetricPlan>, visible: seq<Tuple>) {
    && NoDup(visible)
    && forall d :: d in visible <==> Shown(leaves, plans, SpineRow(d, true))
  }

  /** Filtering the accumulated rows by the visible spine leaves exactly the shown ones, unchanged. */
  lemma {:induction false} FilteredIsAnswer(leaves: seq<LeafPlan>, metrics: seq<MetricPlan>, rows: set<SpineRow>,
      outer: seq<OutRow>, visible: seq<Tuple>)
    requires Planned(leaves, metrics) && !AnyFinal(leaves)
    requires IsFull(leaves, metrics, rows, outer) && IsVisibleSpine(leaves, WalkAll(metrics), visible)
    ensures IsAnswer(leaves, metrics, rows, InnerJoin(outer, visible, (r: OutRow) => r.dims))
  {
    var plans := WalkAll(metrics);
    var answer := InnerJoin(outer, visible, (r: OutRow) => r.dims);
    InnerJoinKeeps(outer, visible, (r: OutRow) => r.dims);
    forall s | s in rows
      ensures Shown(leaves, plans, s) <==> s.dims in visible
    {
      MarkedTrueThroughout(leaves, plans, s);
      assert s == SpineRow(s.dims, true);
    }
    forall r | r in answer
      ensures exists s :: s in rows && Shown(leaves, plans, s) && r == RowAt(leaves, metrics, rows, s)
    {
      var s :| s in rows && r == RowAt(leaves, metrics, rows, s);
      assert r.dims == s.dims;
    }
  }

  lemma {:induction false} VisibleChain(leaves: seq<LeafPlan>, plans: seq<MetricPlan>, st: FuseState, order: seq<nat>)
    requires leaves != [] && PlansFit(leaves, plans) && AllCtesFit(leaves, st)
    requires |order| > 0 && IsOrder(order, |st.physical|) && !AnyMarked(Ctes(st.physical))
    ensures VisibleBranches(Ctes(st.physical), st.physical, order, plans, st.owner, leaves[0].dimCount) != []
    ensures IsVisibleSpine(leaves, plans,
        UnionChain(VisibleBranches(Ctes(st.physical), st.physical, order, plans, st.owner, leaves[0].dimCount)))
  {
    var ctes := Ctes(st.physical);
    var branches := VisibleBranches(ctes, st.physical, order, plans, st.owner, leaves[0].dimCount);
    forall c | 0 <= c < |st.physical|
      ensures st.physical[c].keyLeaf.visible.Some? ==> NoDup(st.physical[c].keyLeaf.visible.value)
      ensures VisibleOf(plans, st.owner, c).Some? ==> st.physical[c].keyLeaf.visible.Some?
    {
      assert CteFits(leaves, st, c);
      VisibleAgrees(leaves, plans, st, c);
    }
    assert VisibleOk(st.physical, plans, st.owner);
    FirstBranchDistinct(leaves, plans, st, order[0]);
    assert branches[0]
        == KeepVisible(CteDims(ctes[order[0]]), VisibleOf(plans, st.owner, order[0]),
          st.physical[order[0]].keyLeaf.visible);
    forall d
      ensures d in UnionChain(branches) <==> Shown(leaves, plans, SpineRow(d, true))
    {
      VisibleSpineMembers(leaves, plans, st, order, d);
    }
  }

  lemma {:induction false} FirstBranchDistinct(leaves: seq<LeafPlan>, plans: seq<MetricPlan>, st: FuseState, c: nat)
    requires AllCtesFit(leaves, st) && c < |st.physical| && VisibleOk(st.physical, plans, st.owner)
    requires !CteOf(st.physical[c]).projectsIsFinal
    ensures NoDup(KeepVisible(CteDims(CteOf(st.physical[c])), VisibleOf(plans, st.owner, c),
        st.physical[c].keyLeaf.visible))
  {
    assert CteFits(leaves, st, c);
    LeafRowsDistinct(st.physical[c].keyLeaf);
    KeepVisibleMembers(CteDims(CteOf(st.physical[c])), VisibleOf(plans, st.owner, c), st.physical[c].keyLeaf.visible);
  }

  // ---------------------------------------------------------------- the bare leaf

  lemma {:induction false} DirectColumns(metrics: seq<MetricPlan>)
    requires forall k :: 0 <= k < |metrics| ==> WellFormed(metrics[k]) && metrics[k].combine == Direct
    ensures |ReferencedColumns(metrics)| == |metrics|
    ensures forall k ::
      0 <= k < |metrics| ==> |metrics[k].refs| > 0 && ReferencedColumns(metrics)[k] == metrics[k].refs[0].column
  {
    if metrics != [] {
      DirectColumns(metrics[1..]);
    }
  }

  lemma {:induction false} NoFlags(metrics: seq<MetricPlan>, ctes: seq<Cte>, owner: seq<nat>, t: seq<Joined>,
      scan: Scan, i: nat)
    requires i < |t| && forall k :: 0 <= k < |metrics| ==> WellFormed(metrics[k]) && metrics[k].combine == Direct
    ensures FlagCells(metrics, ctes, owner, t, scan, i) == []
  {
    if metrics != [] {
      NoFlags(metrics[1..], ctes, owner, t, scan, i);
      assert Walk(metrics[0]) == [metrics[0]];
    }
  }

  lemma {:induction false} MeasureOfOwn(metrics: seq<LeafMetric>, k: nat)
    requires k < |metrics| && NoDup(Aliases(metrics))
    ensures MeasureOf(metrics, metrics[k].alias) == Some(metrics[k].measure)
  {
    if k > 0 {
      assert Aliases(metrics)[0] != Aliases(metrics)[k];
      assert Aliases(metrics[1..]) == Aliases(metrics)[1..];
      MeasureOfOwn(metrics[1..], k - 1);
    }
  }

  lemma {:induction false} BareCell(m: MetricPlan, cte: Cte, owner: seq<nat>, scan: Scan, i: nat, k: nat)
    requires WellFormed(m) && m.combine == Direct && m.accumulate.None?
    requires k < |cte.metrics| && NoDup(Aliases(cte.metrics)) && m.refs[0].column == cte.metrics[k].alias
    requires i < |cte.rows| && forall j :: 0 <= j < |owner| ==> owner[j] == 0
    ensures Eval(MetricValue(m, owner), [cte], Alone(cte, 0), scan, i)
        == Aggregate(cte.metrics[k].measure, cte.rows[i].rows)
  {
    MeasureOfOwn(cte.metrics, k);
    assert MetricValue(m, owner) == Column(0, m.refs[0].column);
  }

  /** The lone CTE emitted as it is returns what the wrapped SELECT would. */
  lemma {:induction false} BareIsSelect(metrics: seq<MetricPlan>, cte: Cte, owner: seq<nat>, scan: Scan, flags: bool)
    requires forall k :: 0 <= k < |metrics| ==> WellFormed(metrics[k]) && metrics[k].accumulate.None?
    requires NoDup(Aliases(cte.metrics)) && AlreadyOutput(metrics, Aliases(cte.metrics))
    requires forall i :: 0 <= i < |owner| ==> owner[i] == 0
    ensures BareRows(cte) == SelectAll(metrics, [cte], owner, Alone(cte, 0), scan, AnyMarked([cte]), flags)
  {
    var t := Alone(cte, 0);
    assert AnyMarked([cte]) <==> cte.projectsIsFinal by {
      if cte.projectsIsFinal { assert [cte][0].projectsIsFinal; }
    }
    forall i | 0 <= i < |t|
      ensures BareRows(cte)[i] == Select(metrics, [cte], owner, t, scan, i, AnyMarked([cte]), flags)
    {
      NoFlags(metrics, [cte], owner, t, scan, i);
      BareCells(metrics, cte, owner, scan, i);
    }
  }

  lemma {:induction false} BareCells(metrics: seq<MetricPlan>, cte: Cte, owner: seq<nat>, scan: Scan, i: nat)
    requires forall k :: 0 <= k < |metrics| ==> WellFormed(metrics[k]) && metrics[k].accumulate.None?
    requires NoDup(Aliases(cte.metrics)) && AlreadyOutput(metrics, Aliases(cte.metrics))
    requires i < |cte.rows| && forall j :: 0 <= j < |owner| ==> owner[j] == 0
    ensures MetricCells(metrics, [cte], owner, Alone(cte, 0), scan, i)
        == Map(cte.metrics, (m: LeafMetric) => Aggregate(m.measure, cte.rows[i].rows))
  {
    DirectColumns(metrics);
    assert |metrics| == |cte.metrics|;
    forall k | 0 <= k < |metrics|
      ensures Eval(MetricValue(metrics[k], owner), [cte], Alone(cte, 0), scan, i)
          == Aggregate(cte.metrics[k].measure, cte.rows[i].rows)
    {
      assert ReferencedColumns(metrics)[k] == Aliases(cte.metrics)[k];
      BareCell(metrics[k], cte, owner, scan, i, k);
    }
  }

  // ---------------------------------------------------------------- the theorems

  lemma {:induction false} FromIsExact(leaves: seq<LeafPlan>, plans: seq<MetricPlan>, dedup: bool, order: seq<nat>)
    requires LeavesOk(leaves) && KeysSound(leaves) && PlansFit(leaves, plans)
    requires |order| > 0 && IsOrder(order, |Fused(leaves, dedup).physical|)
    ensures FromExact(leaves, plans, Ctes(Fused(leaves, dedup).physical),
                      From(Ctes(Fused(leaves, dedup).physical), order, plans, Fused(leaves, dedup).owner,
                        leaves[0].dimCount, Accumulates(plans)))
  {
    var st := Fused(leaves, dedup);
    CtesFit(leaves, dedup);
    if |st.physical| == 1 && !Accumulates(plans) {
      FromAlone(leaves, plans, st);
    } else if leaves[0].dimCount > 0 {
      FromSpine(leaves, plans, st, order);
    } else {
      NoTotalsWithoutDimensions(leaves, plans);
      FromCross(leaves, plans, st, order);
    }
  }

  lemma {:induction false} NoTotalsWithoutDimensions(leaves: seq<LeafPlan>, plans: seq<MetricPlan>)
    requires LeavesOk(leaves) && PlansFit(leaves, plans) && leaves[0].dimCount == 0
    ensures !Accumulates(plans)
  {
    forall p | p in plans
      ensures p.accumulate.None?
    {
      assert PlanFits(leaves, p);
      if p.accumulate.Some? {
        var l := leaves[p.refs[0].leaf];
        HeadIn(l.order);
      }
    }
  }

  /** Two rows of a result without finality differ in the order or partition dimensions of every
      running total: together these are all requested dimensions. */
  lemma {:induction false} NoPeers(leaves: seq<LeafPlan>, plans: seq<MetricPlan>, p: MetricPlan, rows: set<SpineRow>)
    requires LeavesOk(leaves) && PlansFit(leaves, plans) && !AnyFinal(leaves) && p in plans && p.accumulate.Some?
    requires forall s :: s in rows <==> InSpine(leaves, plans, s)
    ensures TellsApart(rows, p.accumulate.value)
  {
    var acc, n := p.accumulate.value, leaves[0].dimCount;
    assert PlanFits(leaves, p);
    var l := leaves[p.refs[0].leaf];
    RestCovers(l);
    forall r, s | r in rows && s in rows && Peers(acc, r, s)
      ensures r == s
    {
      WidthOfSpineRow(leaves, plans, r);
      WidthOfSpineRow(leaves, plans, s);
      MarkedTrueThroughout(leaves, plans, r);
      MarkedTrueThroughout(leaves, plans, s);
      ProjectMerges(r.dims, acc, n);
      ProjectMerges(s.dims, acc, n);
    }
  }

  lemma {:induction false} WidthOfSpineRow(leaves: seq<LeafPlan>, plans: seq<MetricPlan>, s: SpineRow)
    requires LeavesOk(leaves) && InSpine(leaves, plans, s)
    ensures |s.dims| == leaves[0].dimCount
  {
    var i :| 0 <= i < |leaves| && Contributes(leaves, plans, i, s);
    LeafRowsDistinct(leaves[i]);
    if s in CteRows(LeafCte(leaves[i])) {
      var k :| 0 <= k < |Groups(leaves[i])| && CteRows(LeafCte(leaves[i]))[k] == s;
      assert Groups(leaves[i])[k] in Groups(leaves[i]);
    }
  }

  lemma {:induction false} WindowsAreDetermined(leaves: seq<LeafPlan>, plans: seq<MetricPlan>, t: seq<Joined>,
      scan: Scan)
    requires LeavesOk(leaves) && PlansFit(leaves, plans) && IsEngine(scan) && !(AnyFinal(leaves) && Cumulative(plans))
    requires forall s :: s in RowsOf(t) <==> InSpine(leaves, plans, s)
    ensures Windowed(scan, t, plans)
  {
    forall p | p in plans && p.accumulate.Some?
      ensures TellsApart(Elems(RowsOf(t)), p.accumulate.value)
    {
      NoPeers(leaves, plans, p, Elems(RowsOf(t)));
    }
  }

  /** Compose refuses exactly a cumulative metric under a finality rule. Otherwise it returns, each
      once, exactly the shown rows of the reference result: with and without fusion, for every
      order of the CTEs, through the bare, single, joined, crossed and filtered shapes alike. */
  lemma {:induction false} ComposeIsReference(leaves: seq<LeafPlan>, metrics: seq<MetricPlan>, dedup: bool,
      order: seq<nat>, scan: Scan) returns (rows: set<SpineRow>)
    requires Planned(leaves, metrics) && IsEngine(scan)
    requires |order| > 0 && IsOrder(order, |Fused(leaves, dedup).physical|)
    ensures Statement(leaves, metrics, dedup, order, scan).Rejected?
        <==> AnyFinal(leaves) && Cumulative(WalkAll(metrics))
    ensures Statement(leaves, metrics, dedup, order, scan).Answer?
        ==> IsAnswer(leaves, metrics, rows, Statement(leaves, metrics, dedup, order, scan).rows)
  {
    var st, plans := Fused(leaves, dedup), WalkAll(metrics);
    var ctes := Ctes(st.physical);
    CtesFit(leaves, dedup);
    MarksAgree(leaves, st);
    FromIsExact(leaves, plans, dedup, order);
    var t := From(ctes, order, plans, st.owner, leaves[0].dimCount, Accumulates(plans));
    rows := Elems(RowsOf(t));
    if AnyFinal(leaves) && Cumulative(plans) {
      return;
    }
    WindowsAreDetermined(leaves, plans, t, scan);
    SelectAllIsFull(leaves, metrics, dedup, t, scan);
    var outer := SelectAll(metrics, ctes, st.owner, t, scan, AnyMarked(ctes), !HidesRows(plans));
    if HidesRows(plans) {
      VisibleChain(leaves, plans, st, order);
      FilteredIsAnswer(leaves, metrics, rows, outer,
        UnionChain(VisibleBranches(ctes, st.physical, order, plans, st.owner, leaves[0].dimCount)));
    } else {
      FullIsAnswer(leaves, metrics, rows, outer);
      if !Accumulates(plans) && |ctes| == 1 && AlreadyOutput(metrics, Aliases(ctes[0].metrics)) {
        BareIsOuter(leaves, metrics, dedup, scan);
      }
    }
  }

  lemma {:induction false} BareIsOuter(leaves: seq<LeafPlan>, metrics: seq<MetricPlan>, dedup: bool, scan: Scan)
    requires Planned(leaves, metrics) && !Accumulates(WalkAll(metrics))
    requires |Fused(leaves, dedup).physical| == 1
    requires AlreadyOutput(metrics, Aliases(Ctes(Fused(leaves, dedup).physical)[0].metrics))
    ensures var ctes := Ctes(Fused(leaves, dedup).physical);
      BareRows(ctes[0])
          == SelectAll(metrics, ctes, Fused(leaves, dedup).owner, Alone(ctes[0], 0), scan, AnyMarked(ctes), true)
  {
    var ctes := Ctes(Fused(leaves, dedup).physical);
    LoneCte(leaves, dedup);
    NoneAccumulates(metrics);
    assert ctes == [ctes[0]];
    BareIsSelect(metrics, ctes[0], Fused(leaves, dedup).owner, scan, true);
  }

  lemma {:induction false} LoneCte(leaves: seq<LeafPlan>, dedup: bool)
    requires |Fused(leaves, dedup).physical| == 1
    ensures NoDup(Aliases(Ctes(Fused(leaves, dedup).physical)[0].metrics))
    ensures forall i :: 0 <= i < |Fused(leaves, dedup).owner| ==> Fused(leaves, dedup).owner[i] == 0
  {
    FusedColumns(leaves, dedup);
    assert ColumnedAt(Fused(leaves, dedup), leaves, 0);
  }

  lemma {:induction false} NoneAccumulates(metrics: seq<MetricPlan>)
    requires !Accumulates(WalkAll(metrics))
    ensures forall k :: 0 <= k < |metrics| ==> metrics[k].accumulate.None?
  {
    forall k | 0 <= k < |metrics|
      ensures metrics[k].accumulate.None?
    {
      assert metrics[k] in metrics;
    }
  }

  /** Fusion changes no number: with and without deduplication, and whatever the order of the CTEs,
      the statement is refused alike or returns the same bag of rows. */
  lemma {:induction false} FusionPreservesResult(leaves: seq<LeafPlan>, metrics: seq<MetricPlan>, dedup: bool,
      order: seq<nat>, scan: Scan, dedup': bool, order': seq<nat>, scan': Scan)
    requires Planned(leaves, metrics) && IsEngine(scan) && IsEngine(scan')
    requires |order| > 0 && IsOrder(order, |Fused(leaves, dedup).physical|)
    requires |order'| > 0 && IsOrder(order', |Fused(leaves, dedup').physical|)
    ensures var a, b :=
        Statement(leaves, metrics, dedup, order, scan), Statement(leaves, metrics, dedup', order', scan');
      (a.Rejected? <==> b.Rejected?) && (a.Answer? ==> multiset(a.rows) == multiset(b.rows))
  {
    var a, b := Statement(leaves, metrics, dedup, order, scan), Statement(leaves, metrics, dedup', order', scan');
    var rows := ComposeIsReference(leaves, metrics, dedup, order, scan);
    var rows' := ComposeIsReference(leaves, metrics, dedup', order', scan');
    if a.Answer? {
      AnswerIsUnique(leaves, metrics, rows, rows', a.rows, b.rows);
    }
  }
}
