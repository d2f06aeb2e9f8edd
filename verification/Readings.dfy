/** What single cells of a composed result mean in terms of the leaf rows behind them. */
module Readings {
  import opened Relational
  import opened Plans
  import opened Semantics
  import opened Spine
  import opened Leaves
  import opened Fusion
  import opened Windows
  import opened Compose
  import opened Reference
  import ComposeCorrect

  // ---------------------------------------------------------------- direct metrics

  /** Branch `b` of the leaf holds the rows of spine row `s`: it may be read there, and has some. */
  ghost predicate Holds(l: LeafPlan, b: Branch, s: SpineRow) {
    && b in l.branches && (l.projectsIsFinal ==> b.isFinal == s.flag)
    && exists r :: r in b.rows && r.dims == s.dims
  }

  ghost function RowsAt(b: Branch, d: Tuple): seq<BaseRow> {
    Filter(b.rows, (r: BaseRow) => r.dims == d)
  }

  lemma {:induction false} BranchGroup(b: Branch, n: nat, g: Group)
    requires n > 0
    ensures g in GroupsOf(b, n)
        <==> g == Group(g.dims, b.isFinal, RowsAt(b, g.dims)) && exists r :: r in b.rows && r.dims == g.dims
  {
    var all := Map(b.rows, (r: BaseRow) => r.dims);
    var keys := Distinct(all);
    if g in GroupsOf(b, n) {
      var k :| 0 <= k < |keys| && GroupsOf(b, n)[k] == g;
      assert keys[k] in all;
      var i :| 0 <= i < |all| && all[i] == g.dims;
      assert b.rows[i] in b.rows;
    }
    if r :| r in b.rows && r.dims == g.dims && g == Group(g.dims, b.isFinal, RowsAt(b, g.dims)) {
      var i :| 0 <= i < |b.rows| && b.rows[i] == r;
      assert all[i] == g.dims && g.dims in all && g.dims in keys;
      var k :| 0 <= k < |keys| && keys[k] == g.dims;
      assert GroupsOf(b, n)[k] == g;
    }
  }

  /** The row a leaf lends to a spine row is the group of one branch that may be read there. */
  lemma {:induction false} LookupIsBranchGroup(l: LeafPlan, s: SpineRow)
    requires LeafOk(l) && l.dimCount > 0
    ensures forall b :: Holds(l, b, s) ==>
      Lookup(Groups(l), l.projectsIsFinal, s) == Some(Group(s.dims, b.isFinal, RowsAt(b, s.dims)))
    ensures (forall b :: !Holds(l, b, s)) ==> Lookup(Groups(l), l.projectsIsFinal, s) == None
  {
    LeafRowsDistinct(l);
    forall b | Holds(l, b, s)
      ensures Lookup(Groups(l), l.projectsIsFinal, s) == Some(Group(s.dims, b.isFinal, RowsAt(b, s.dims)))
    {
      var g := Group(s.dims, b.isFinal, RowsAt(b, s.dims));
      BranchGroup(b, l.dimCount, g);
      LeafGroup(l, g);
      LookupFinds(Groups(l), l.projectsIsFinal, s, g);
    }
    var found := Lookup(Groups(l), l.projectsIsFinal, s);
    if found.Some? {
      var g := found.value;
      LeafGroup(l, g);
      var b :| b in l.branches && g in GroupsOf(b, l.dimCount);
      BranchGroup(b, l.dimCount, g);
      OnIsEquality(l.projectsIsFinal, s, g);
      assert Holds(l, b, s);
    }
  }

  /** A direct metric's cell is its measure over exactly its own leaf's rows of that tuple, and NULL,
      not zero, where there are none. A finality leaf is read only under its own marker. */
  lemma {:induction false} DirectCell(leaves: seq<LeafPlan>, m: MetricPlan, rows: set<SpineRow>, s: SpineRow,
      measure: Measure)
    requires WellFormed(m) && m.combine == Direct && m.accumulate.None?
    requires m.refs[0].leaf < |leaves| && LeafOk(leaves[m.refs[0].leaf]) && leaves[m.refs[0].leaf].dimCount > 0
    requires MeasureOf(leaves[m.refs[0].leaf].metrics, m.refs[0].column) == Some(measure)
    ensures var l, v := leaves[m.refs[0].leaf], Value(m, rows, LookAt(leaves), s);
      && (forall b :: Holds(l, b, s) ==> v == Aggregate(measure, RowsAt(b, s.dims)))
      && ((forall b :: !Holds(l, b, s)) ==> v == Null)
  {
    LookupIsBranchGroup(leaves[m.refs[0].leaf], s);
    assert Cells(m, LookAt(leaves), s)[0] == LeafCell(leaves, s, m.refs[0]);
  }

  // ---------------------------------------------------------------- running totals

  /** The leaf's own rows in the partition of `s`, at or before it, that carry a value. */
  ghost function OwnMeasured(acc: Accumulate, leaves: seq<LeafPlan>, r: LeafRef, s: SpineRow): set<SpineRow>
    requires r.leaf < |leaves|
  {
    Measured(acc, Elems(CteRows(LeafCte(leaves[r.leaf]))), Reading(LookAt(leaves), r), s)
  }

  /** On a result without finality, the running total at any row is the sum of its own leaf's values
      in the partition at or before that row's order tuple, NULL before the first one. */
  lemma {:induction false} RunningTotalOfLeaf(leaves: seq<LeafPlan>, plans: seq<MetricPlan>, m: MetricPlan,
      rows: set<SpineRow>, s: SpineRow)
    requires WellFormed(m) && m.accumulate.Some? && m.refs[0].leaf < |leaves| && !AnyFinal(leaves)
    requires forall x :: x in rows <==> InSpine(leaves, plans, x)
    ensures var own := OwnMeasured(m.accumulate.value, leaves, m.refs[0], s);
      Value(m, rows, LookAt(leaves), s)
      == if own == {} then Null else Num(SumSet(own, ValueOf(Reading(LookAt(leaves), m.refs[0]))))
  {
    var acc, r := m.accumulate.value, m.refs[0];
    var v := Reading(LookAt(leaves), r);
    OwnRowsCarryAll(leaves, plans, r, rows);
    RunningTotalIgnoresCompany(acc, Elems(CteRows(LeafCte(leaves[r.leaf]))), rows, v, s);
    RunningTotalIsSum(acc, Elems(CteRows(LeafCte(leaves[r.leaf]))), v, s);
  }

  lemma {:induction false} OwnRowsCarryAll(leaves: seq<LeafPlan>, plans: seq<MetricPlan>, r: LeafRef,
      rows: set<SpineRow>)
    requires r.leaf < |leaves| && !AnyFinal(leaves)
    requires forall x :: x in rows <==> InSpine(leaves, plans, x)
    ensures Elems(CteRows(LeafCte(leaves[r.leaf]))) <= rows
    ensures forall x :: x in rows && x !in Elems(CteRows(LeafCte(leaves[r.leaf]))) ==> LeafCell(leaves, x, r) == Null
  {
    forall x | x in CteRows(LeafCte(leaves[r.leaf]))
      ensures x in rows
    {
      assert Contributes(leaves, plans, r.leaf, x);
    }
    forall x | x in rows && LeafCell(leaves, x, r) != Null
      ensures x in CteRows(LeafCte(leaves[r.leaf]))
    {
      ComposeCorrect.MarkedTrueThroughout(leaves, plans, x);
      OwnRow(leaves, r, x);
    }
  }

  lemma {:induction false} OwnRow(leaves: seq<LeafPlan>, r: LeafRef, x: SpineRow)
    requires r.leaf < |leaves| && !leaves[r.leaf].projectsIsFinal && x.flag && LeafCell(leaves, x, r) != Null
    ensures x in CteRows(LeafCte(leaves[r.leaf]))
  {
    var l := leaves[r.leaf];
    var g := Lookup(Groups(l), l.projectsIsFinal, x).value;
    OnIsEquality(l.projectsIsFinal, x, g);
    var k :| 0 <= k < |Groups(l)| && Groups(l)[k] == g;
    assert CteRows(LeafCte(l))[k] == x;
  }

  // ---------------------------------------------------------------- markers

  /** A leaf without a finality rule is joined on the tuple alone: it reads the same under both markers. */
  lemma {:induction false} UnmarkedReadsBothMarkers(leaves: seq<LeafPlan>, r: LeafRef, d: Tuple)
    requires r.leaf < |leaves| && LeafOk(leaves[r.leaf]) && leaves[r.leaf].dimCount > 0
        && !leaves[r.leaf].projectsIsFinal
    ensures LeafCell(leaves, SpineRow(d, false), r) == LeafCell(leaves, SpineRow(d, true), r)
  {
    var l := leaves[r.leaf];
    LookupIsBranchGroup(l, SpineRow(d, false));
    LookupIsBranchGroup(l, SpineRow(d, true));
    assert forall b :: Holds(l, b, SpineRow(d, false)) <==> Holds(l, b, SpineRow(d, true));
  }

  /** A tuple is in the result as provisional exactly when some finality leaf has a provisional row of
      it. With `UnmarkedReadsBothMarkers`, this is where an unmarked metric's value shows up again. */
  lemma {:induction false} ProvisionalRows(leaves: seq<LeafPlan>, plans: seq<MetricPlan>, d: Tuple)
    ensures InSpine(leaves, plans, SpineRow(d, false)) <==>
      exists i, g :: 0 <= i < |leaves| && leaves[i].projectsIsFinal && g in Groups(leaves[i]) && g.dims == d && !g.flag
  {
    var s := SpineRow(d, false);
    if InSpine(leaves, plans, s) {
      var i :| 0 <= i < |leaves| && Contributes(leaves, plans, i, s);
      var cte := LeafCte(leaves[i]);
      var k :| 0 <= k < |cte.rows| && CteRows(cte)[k] == s;
      assert cte.rows[k] in Groups(leaves[i]);
    }
    if i, g :| 0 <= i < |leaves| && leaves[i].projectsIsFinal && g in Groups(leaves[i]) && g.dims == d && !g.flag {
      var cte := LeafCte(leaves[i]);
      var k :| 0 <= k < |cte.rows| && cte.rows[k] == g;
      assert CteRows(cte)[k] == s;
      assert Contributes(leaves, plans, i, s);
    }
  }
}
