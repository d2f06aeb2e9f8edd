/** A metric's value in a multi-metric result is the value that metric has on its own. */
module Together {
  import opened Relational
  import opened Plans
  import opened Semantics
  import opened Spine
  import opened Fusion
  import opened Windows
  import opened Compose
  import opened Reference
  import opened ComposeCorrect

  // ---------------------------------------------------------------- concatenating planned metrics

  /** What one requested metric contributes: its leaves, and its plan over them. */
  datatype MetricLeaves = MetricLeaves(leaves: seq<LeafPlan>, metric: MetricPlan)

  function AllLeaves(planned: seq<MetricLeaves>): seq<LeafPlan> {
    if planned == [] then []
    else AllLeaves(planned[..|planned| - 1]) + planned[|planned| - 1].leaves
  }

  function AllMetrics(planned: seq<MetricLeaves>): (r: seq<MetricPlan>)
    ensures |r| == |planned|
  {
    if planned == [] then []
    else
      var n := |planned| - 1;
      AllMetrics(planned[..n]) + [Shifted(planned[n].metric, |AllLeaves(planned[..n])|)]
  }

  /** Concatenate the leaves of every metric and re-point its plan into the whole list. */
  method Concatenate(planned: seq<MetricLeaves>) returns (leaves: seq<LeafPlan>, metrics: seq<MetricPlan>)
    ensures leaves == AllLeaves(planned) && metrics == AllMetrics(planned)
  {
    leaves, metrics := [], [];
    for n := 0 to |planned|
      invariant leaves == AllLeaves(planned[..n]) && metrics == AllMetrics(planned[..n])
    {
      assert planned[..n + 1][..n] == planned[..n];
      metrics := metrics + [Shifted(planned[n].metric, |leaves|)];
      leaves := leaves + planned[n].leaves;
    }
    assert planned[..|planned|] == planned;
  }

  function OffsetOf(planned: seq<MetricLeaves>, k: nat): nat
    requires k < |planned|
  {
    |AllLeaves(planned[..k])|
  }

  /** Metric `k`'s leaves sit at its offset, and its plan is its own, moved there. */
  lemma {:induction false} ConcatenationKeeps(planned: seq<MetricLeaves>, k: nat)
    requires k < |planned|
    ensures AllMetrics(planned)[k] == Shifted(planned[k].metric, OffsetOf(planned, k))
    ensures OffsetOf(planned, k) + |planned[k].leaves| <= |AllLeaves(planned)|
    ensures forall i ::
      0 <= i < |planned[k].leaves| ==> AllLeaves(planned)[OffsetOf(planned, k) + i] == planned[k].leaves[i]
  {
    var n := |planned| - 1;
    ConcatenationStep(planned);
    if k < n {
      ConcatenationKeeps(planned[..n], k);
      assert planned[..n][..k] == planned[..k];
    }
  }

  lemma {:induction false} ConcatenationStep(planned: seq<MetricLeaves>)
    requires planned != []
    ensures var n := |planned| - 1;
      && AllLeaves(planned) == AllLeaves(planned[..n]) + planned[n].leaves
      && AllMetrics(planned) == AllMetrics(planned[..n]) + [Shifted(planned[n].metric, |AllLeaves(planned[..n])|)]
  {
  }

  // ---------------------------------------------------------------- shifting a plan

  /** Reading shifted references from one list is reading the original ones from the other. */
  ghost predicate SameReads(look: Look, look': Look, delta: nat, refs: set<LeafRef>) {
    forall r, s :: r in refs ==> look'(s, LeafRef(r.leaf + delta, r.column)) == look(s, r)
  }

  lemma {:induction false} ShiftedWellFormed(m: MetricPlan, delta: nat)
    requires WellFormed(m)
    ensures WellFormed(Shifted(m, delta))
    decreases m
  {
    forall k | 0 <= k < |m.operands|
      ensures WellFormed(Shifted(m, delta).operands[k])
    {
      ShiftedWellFormed(m.operands[k], delta);
    }
  }

  lemma {:induction false} ShiftedValue(m: MetricPlan, delta: nat, rows: set<SpineRow>, look: Look, look': Look,
      s: SpineRow)
    requires WellFormed(m) && WellFormed(Shifted(m, delta))
    requires SameReads(look, look', delta, RefsOf(m))
    ensures Value(Shifted(m, delta), rows, look', s) == Value(m, rows, look, s)
    decreases m
  {
    var m' := Shifted(m, delta);
    if m.combine == Derived {
      forall k | 0 <= k < |m.operands|
        ensures Value(m'.operands[k], rows, look', s) == Value(m.operands[k], rows, look, s)
      {
        assert forall r :: r in RefsOf(m.operands[k]) ==> r in RefsOf(m);
        ShiftedValue(m.operands[k], delta, rows, look, look', s);
      }
      assert Values(m'.operands, rows, look', s) == Values(m.operands, rows, look, s);
    } else if m.accumulate.Some? {
      assert m.refs[0] in RefsOf(m);
      RunningTotalCongruence(m.accumulate.value, rows, Reading(look, m.refs[0]), Reading(look', m'.refs[0]), s);
    } else {
      forall k | 0 <= k < |m.refs|
        ensures Cells(m', look', s)[k] == Cells(m, look, s)[k]
      {
        assert m.refs[k] in RefsOf(m);
      }
      assert Cells(m', look', s) == Cells(m, look, s);
    }
  }

  lemma {:induction false} RunningTotalCongruence(acc: Accumulate, rows: set<SpineRow>, v: SpineRow -> Cell,
      v': SpineRow -> Cell, s: SpineRow)
    requires forall r :: r in rows ==> v(r) == v'(r)
    ensures RunningTotal(acc, rows, v, s) == RunningTotal(acc, rows, v', s)
  {
    SumSetSupport(rows, rows, FrameTerm(acc, v, s, true), FrameTerm(acc, v', s, true));
    SumSetSupport(rows, rows, FrameTerm(acc, v, s, false), FrameTerm(acc, v', s, false));
  }

  lemma {:induction false} WalkShifted(m: MetricPlan, delta: nat, p: MetricPlan)
    requires p in Walk(m)
    ensures Shifted(p, delta) in Walk(Shifted(m, delta))
    decreases m, 1
  {
    if p != m {
      WalkAllShifted(m.operands, delta, p);
    }
  }

  lemma {:induction false} WalkAllShifted(ms: seq<MetricPlan>, delta: nat, p: MetricPlan)
    requires p in WalkAll(ms)
    ensures Shifted(p, delta) in WalkAll(ShiftedAll(ms, delta))
    decreases ms, 0
  {
    if p in Walk(ms[0]) {
      WalkShifted(ms[0], delta, p);
    } else {
      WalkAllShifted(ms[1..], delta, p);
    }
  }

  // ---------------------------------------------------------------- more rows change nothing

  /** The rows that carry a value of the plan's running totals are all among `own`. */
  ghost predicate TotalsWithin(m: MetricPlan, own: set<SpineRow>, rows: set<SpineRow>, look: Look)
    decreases m
  {
    && (m.accumulate.Some? && |m.refs| > 0 ==> forall r :: r in rows && r !in own ==> look(r, m.refs[0]) == Null)
    && forall k :: 0 <= k < |m.operands| ==> TotalsWithin(m.operands[k], own, rows, look)
  }

  lemma {:induction false} ValueIgnoresCompany(m: MetricPlan, own: set<SpineRow>, rows: set<SpineRow>, look: Look,
      s: SpineRow)
    requires WellFormed(m) && own <= rows && TotalsWithin(m, own, rows, look)
    ensures Value(m, rows, look, s) == Value(m, own, look, s)
    decreases m
  {
    if m.combine == Derived {
      forall k | 0 <= k < |m.operands|
        ensures Value(m.operands[k], rows, look, s) == Value(m.operands[k], own, look, s)
      {
        ValueIgnoresCompany(m.operands[k], own, rows, look, s);
      }
      assert Values(m.operands, rows, look, s) == Values(m.operands, own, look, s);
    } else if m.accumulate.Some? {
      RunningTotalIgnoresCompany(m.accumulate.value, own, rows, Reading(look, m.refs[0]), s);
    }
  }

  // ---------------------------------------------------------------- alone and together

  lemma {:induction false} WalkAllSingle(m: MetricPlan)
    ensures WalkAll([m]) == Walk(m)
  {
    assert [m][1..] == [];
    assert WalkAll([m]) == Walk(m) + [];
  }

  lemma {:induction false} WalkWithin(ms: seq<MetricPlan>, k: nat, p: MetricPlan)
    requires k < |ms| && p in Walk(ms[k])
    ensures p in WalkAll(ms)
  {
    assert ms[k] in ms;
  }

  /** A plan of metric `k` occurs, moved, among the plans of the whole query. */
  lemma {:induction false} PlanLifts(planned: seq<MetricLeaves>, k: nat, p: MetricPlan)
    requires k < |planned| && p in WalkAll([planned[k].metric])
    ensures Shifted(p, OffsetOf(planned, k)) in WalkAll(AllMetrics(planned))
  {
    ConcatenationKeeps(planned, k);
    WalkAllSingle(planned[k].metric);
    WalkShifted(planned[k].metric, OffsetOf(planned, k), p);
    WalkWithin(AllMetrics(planned), k, Shifted(p, OffsetOf(planned, k)));
  }

  lemma {:induction false} FilledLifts(planned: seq<MetricLeaves>, k: nat, i: nat)
    requires k < |planned| && i < |planned[k].leaves|
    requires Filled(planned[k].leaves, WalkAll([planned[k].metric]), i)
    ensures Filled(AllLeaves(planned), WalkAll(AllMetrics(planned)), OffsetOf(planned, k) + i)
  {
    var p :| p in WalkAll([planned[k].metric]) && Uses(p, Ids(|planned[k].leaves|), i) && WantsFill(p.accumulate.value);
    PlanLifts(planned, k, p);
    ConcatenationKeeps(planned, k);
    var p' := Shifted(p, OffsetOf(planned, k));
    assert p'.refs[0].leaf == OffsetOf(planned, k) + i;
    assert Uses(p', Ids(|AllLeaves(planned)|), OffsetOf(planned, k) + i);
  }

  /** Every tuple the metric contributes, or shows, on its own, it contributes or shows in company. */
  lemma {:induction false} RowsLift(planned: seq<MetricLeaves>, k: nat, s: SpineRow)
    requires k < |planned|
    ensures InSpine(planned[k].leaves, WalkAll([planned[k].metric]), s)
        ==> InSpine(AllLeaves(planned), WalkAll(AllMetrics(planned)), s)
    ensures Shown(planned[k].leaves, WalkAll([planned[k].metric]), s)
        ==> Shown(AllLeaves(planned), WalkAll(AllMetrics(planned)), s)
  {
    var own, plans, d := planned[k].leaves, WalkAll([planned[k].metric]), OffsetOf(planned, k);
    ConcatenationKeeps(planned, k);
    if i :| 0 <= i < |own| && Contributes(own, plans, i, s) {
      ContributionLifts(planned, k, i, s);
    }
    if i :| 0 <= i < |own| && Contributes(own, plans, i, s) && Passes(own[i], s) {
      ContributionLifts(planned, k, i, s);
    }
  }

  lemma {:induction false} ContributionLifts(planned: seq<MetricLeaves>, k: nat, i: nat, s: SpineRow)
    requires k < |planned| && i < |planned[k].leaves|
        && Contributes(planned[k].leaves, WalkAll([planned[k].metric]), i, s)
    ensures OffsetOf(planned, k) + i < |AllLeaves(planned)|
    ensures AllLeaves(planned)[OffsetOf(planned, k) + i] == planned[k].leaves[i]
    ensures Contributes(AllLeaves(planned), WalkAll(AllMetrics(planned)), OffsetOf(planned, k) + i, s)
  {
    ConcatenationKeeps(planned, k);
    if Filled(planned[k].leaves, WalkAll([planned[k].metric]), i) {
      FilledLifts(planned, k, i);
    }
  }

  lemma {:induction false} ReadsLift(planned: seq<MetricLeaves>, k: nat)
    requires k < |planned| && forall r :: r in RefsOf(planned[k].metric) ==> RefFits(planned[k].leaves, r)
    ensures SameReads(LookAt(planned[k].leaves), LookAt(AllLeaves(planned)), OffsetOf(planned, k),
        RefsOf(planned[k].metric))
  {
    forall r, s | r in RefsOf(planned[k].metric)
      ensures LeafCell(AllLeaves(planned), s, LeafRef(r.leaf + OffsetOf(planned, k), r.column))
          == LeafCell(planned[k].leaves, s, r)
    {
      CellLifts(planned, k, r, s);
    }
  }

  lemma {:induction false} CellLifts(planned: seq<MetricLeaves>, k: nat, r: LeafRef, s: SpineRow)
    requires k < |planned| && r.leaf < |planned[k].leaves|
    ensures LeafCell(AllLeaves(planned), s, LeafRef(r.leaf + OffsetOf(planned, k), r.column))
        == LeafCell(planned[k].leaves, s, r)
  {
    ConcatenationKeeps(planned, k);
    SameLeafSameCell(planned[k].leaves, AllLeaves(planned), r.leaf, OffsetOf(planned, k) + r.leaf, r.column, s);
  }

  lemma {:induction false} SameLeafSameCell(a: seq<LeafPlan>, b: seq<LeafPlan>, i: nat, j: nat, column: string,
      s: SpineRow)
    requires i < |a| && j < |b| && a[i] == b[j]
    ensures LeafCell(a, s, LeafRef(i, column)) == LeafCell(b, s, LeafRef(j, column))
  {
  }

  lemma {:induction false} WithinFromWalk(m: MetricPlan, own: set<SpineRow>, rows: set<SpineRow>, look: Look)
    requires forall p, r ::
      p in Walk(m) && p.accumulate.Some? && |p.refs| > 0 && r in rows && r !in own ==> look(r, p.refs[0]) == Null
    ensures TotalsWithin(m, own, rows, look)
    decreases m
  {
    forall k | 0 <= k < |m.operands|
      ensures TotalsWithin(m.operands[k], own, rows, look)
    {
      forall p | p in Walk(m.operands[k])
        ensures p in Walk(m)
      {
        WalkWithin(m.operands, k, p);
      }
      WithinFromWalk(m.operands[k], own, rows, look);
    }
  }

  /** A leaf carries a value only at its own tuples. */
  lemma {:induction false} OwnTuplesOnly(leaves: seq<LeafPlan>, plans: seq<MetricPlan>, r: LeafRef, s: SpineRow)
    requires r.leaf < |leaves| && !leaves[r.leaf].projectsIsFinal && s.flag
    requires LeafCell(leaves, s, r) != Null
    ensures InSpine(leaves, plans, s)
  {
    var l := leaves[r.leaf];
    var g := Lookup(Groups(l), l.projectsIsFinal, s).value;
    OnIsEquality(l.projectsIsFinal, s, g);
    var k :| 0 <= k < |Groups(l)| && Groups(l)[k] == g;
    assert CteRows(LeafCte(l))[k] == s;
    assert Contributes(leaves, plans, r.leaf, s);
  }

  lemma {:induction false} TotalsStayOwn(planned: seq<MetricLeaves>, k: nat, own: set<SpineRow>, rows: set<SpineRow>)
    requires k < |planned| && Planned(planned[k].leaves, [planned[k].metric])
    requires !(AnyFinal(AllLeaves(planned)) && Cumulative(WalkAll(AllMetrics(planned))))
    requires forall s :: s in own <==> InSpine(planned[k].leaves, WalkAll([planned[k].metric]), s)
    requires forall s :: s in rows <==> InSpine(AllLeaves(planned), WalkAll(AllMetrics(planned)), s)
    ensures TotalsWithin(planned[k].metric, own, rows, LookAt(planned[k].leaves))
  {
    var m, ls := planned[k].metric, planned[k].leaves;
    WalkAllSingle(m);
    forall p, r | p in Walk(m) && p.accumulate.Some? && |p.refs| > 0 && r in rows && r !in own
      ensures LookAt(ls)(r, p.refs[0]) == Null
    {
      NoFinalityInCompany(planned, k, p);
      MarkedTrueThroughout(AllLeaves(planned), WalkAll(AllMetrics(planned)), r);
      assert PlanFits(ls, p);
      if LeafCell(ls, r, p.refs[0]) != Null {
        OwnTuplesOnly(ls, WalkAll([m]), p.refs[0], r);
      }
    }
    WithinFromWalk(m, own, rows, LookAt(ls));
  }

  lemma {:induction false} NoFinalityInCompany(planned: seq<MetricLeaves>, k: nat, p: MetricPlan)
    requires k < |planned| && p in WalkAll([planned[k].metric]) && p.accumulate.Some?
    requires !(AnyFinal(AllLeaves(planned)) && Cumulative(WalkAll(AllMetrics(planned))))
    ensures !AnyFinal(AllLeaves(planned))
    ensures forall i :: 0 <= i < |planned[k].leaves| ==> !planned[k].leaves[i].projectsIsFinal
  {
    PlanLifts(planned, k, p);
    ConcatenationKeeps(planned, k);
    assert Shifted(p, OffsetOf(planned, k)).accumulate.Some?;
    forall i | 0 <= i < |planned[k].leaves|
      ensures !planned[k].leaves[i].projectsIsFinal
    {
      assert AllLeaves(planned)[OffsetOf(planned, k) + i] == planned[k].leaves[i];
    }
  }

  /** At every row of its own result, a metric has the same value alone and in company. */
  lemma {:induction false} ValueInCompany(planned: seq<MetricLeaves>, k: nat, own: set<SpineRow>, rows: set<SpineRow>,
      s: SpineRow)
    requires k < |planned| && Planned(planned[k].leaves, [planned[k].metric]) && WellFormed(AllMetrics(planned)[k])
    requires !(AnyFinal(AllLeaves(planned)) && Cumulative(WalkAll(AllMetrics(planned))))
    requires forall s :: s in own <==> InSpine(planned[k].leaves, WalkAll([planned[k].metric]), s)
    requires forall s :: s in rows <==> InSpine(AllLeaves(planned), WalkAll(AllMetrics(planned)), s)
    ensures WellFormed(planned[k].metric)
    ensures Value(AllMetrics(planned)[k], rows, LookAt(AllLeaves(planned)), s)
        == Value(planned[k].metric, own, LookAt(planned[k].leaves), s)
  {
    var m, ls, d := planned[k].metric, planned[k].leaves, OffsetOf(planned, k);
    assert WellFormed([m][0]);
    ConcatenationKeeps(planned, k);
    WalkAllSingle(m);
    RefsFit(ls, m);
    ReadsLift(planned, k);
    ShiftedValue(m, d, rows, LookAt(ls), LookAt(AllLeaves(planned)), s);
    forall r | r in own
      ensures r in rows
    {
      RowsLift(planned, k, r);
    }
    TotalsStayOwn(planned, k, own, rows);
    ValueIgnoresCompany(m, own, rows, LookAt(ls), s);
  }

  /** The marker a row has in company: its own, or TRUE where the metric projects none. */
  function MarkerOf(r: OutRow): bool {
    r.isFinal.None? || r.isFinal.value
  }

  /** `r'` is row `r` of metric `k`'s own result, found again in the whole result. */
  ghost predicate SameReading(r: OutRow, r': OutRow, k: nat, marked: bool) {
    && r'.dims == r.dims && r'.isFinal == (if marked then Some(MarkerOf(r)) else None)
    && |r.values| == 1 && k < |r'.values| && r'.values[k] == r.values[0]
  }

  /** Every row a metric returns on its own is in the multi-metric result once, with the same value. */
  lemma {:induction false} AloneIsTogether(planned: seq<MetricLeaves>, k: nat, own: set<SpineRow>, alone: seq<OutRow>,
      rows: set<SpineRow>, all: seq<OutRow>, r: OutRow) returns (r': OutRow)
    requires k < |planned| && Planned(planned[k].leaves, [planned[k].metric])
        && Planned(AllLeaves(planned), AllMetrics(planned))
    requires !(AnyFinal(AllLeaves(planned)) && Cumulative(WalkAll(AllMetrics(planned))))
    requires IsAnswer(planned[k].leaves, [planned[k].metric], own, alone)
    requires IsAnswer(AllLeaves(planned), AllMetrics(planned), rows, all)
    requires r in alone
    ensures r' in all && SameReading(r, r', k, AnyFinal(AllLeaves(planned)))
    ensures forall x :: x in all && x.dims == r'.dims && x.isFinal == r'.isFinal ==> x == r'
  {
    var ls, ms := planned[k].leaves, [planned[k].metric];
    var s :| s in own && Shown(ls, WalkAll(ms), s) && r == RowAt(ls, ms, own, s);
    RowsLift(planned, k, s);
    r' := RowAt(AllLeaves(planned), AllMetrics(planned), rows, s);
    RowInCompany(planned, k, own, rows, s);
    forall x | x in all && x.dims == r'.dims && x.isFinal == r'.isFinal
      ensures x == r'
    {
      SameTupleSameRow(AllLeaves(planned), AllMetrics(planned), rows, all, s, x);
    }
  }

  lemma {:induction false} RowInCompany(planned: seq<MetricLeaves>, k: nat, own: set<SpineRow>, rows: set<SpineRow>,
      s: SpineRow)
    requires k < |planned| && Planned(planned[k].leaves, [planned[k].metric])
        && Planned(AllLeaves(planned), AllMetrics(planned))
    requires !(AnyFinal(AllLeaves(planned)) && Cumulative(WalkAll(AllMetrics(planned))))
    requires forall s :: s in own <==> InSpine(planned[k].leaves, WalkAll([planned[k].metric]), s)
    requires forall s :: s in rows <==> InSpine(AllLeaves(planned), WalkAll(AllMetrics(planned)), s)
    requires s in own
    ensures SameReading(RowAt(planned[k].leaves, [planned[k].metric], own, s),
        RowAt(AllLeaves(planned), AllMetrics(planned), rows, s), k, AnyFinal(AllLeaves(planned)))
  {
    ValueInCompany(planned, k, own, rows, s);
    var r := RowAt(planned[k].leaves, [planned[k].metric], own, s);
    if !AnyFinal(planned[k].leaves) {
      MarkedTrueThroughout(planned[k].leaves, WalkAll([planned[k].metric]), s);
    }
    assert r.values[0] == Value(planned[k].metric, own, LookAt(planned[k].leaves), s);
  }

  lemma {:induction false} SameTupleSameRow(leaves: seq<LeafPlan>, metrics: seq<MetricPlan>, rows: set<SpineRow>,
      all: seq<OutRow>, s: SpineRow, x: OutRow)
    requires forall k :: 0 <= k < |metrics| ==> WellFormed(metrics[k])
    requires IsAnswer(leaves, metrics, rows, all) && x in all && s in rows
    requires x.dims == s.dims && (AnyFinal(leaves) ==> x.isFinal == Some(s.flag))
    ensures x == RowAt(leaves, metrics, rows, s)
  {
    var u :| u in rows && Shown(leaves, WalkAll(metrics), u) && x == RowAt(leaves, metrics, rows, u);
    if !AnyFinal(leaves) {
      MarkedTrueThroughout(leaves, WalkAll(metrics), u);
      MarkedTrueThroughout(leaves, WalkAll(metrics), s);
    }
    assert u == s;
  }
}
