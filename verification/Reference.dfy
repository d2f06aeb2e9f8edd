/** The result a query must return, said without CTEs, fusion, joins or windows. */
module Reference {
  import opened Relational
  import opened Plans
  import opened Semantics
  import opened Spine
  import opened Leaves
  import opened Fusion
  import opened Fill
  import opened Compose
  import ZeroDenominators

  // ---------------------------------------------------------------- premises

  function Ids(n: nat): (r: seq<nat>)
    ensures |r| == n && forall i :: 0 <= i < n ==> r[i] == i
  {
    seq(n, i => i)
  }

  /** The requested dimensions that are not order dimensions, in request order. */
  function Rest(order: seq<nat>, n: nat): seq<nat> {
    Filter<nat>(Ids(n), (c: nat) => c !in order)
  }

  ghost predicate HasColumn(l: LeafPlan, column: string) {
    exists m :: m in l.metrics && m.alias == column
  }

  /** A running total orders by its leaf's order dimensions, partitions by every other requested
      dimension, and hides rows exactly when the leaf hoists a visibility CTE. */
  ghost predicate AccFits(acc: Accumulate, l: LeafPlan) {
    && acc.orderBy == l.order && l.order != []
    && acc.partitionBy == Rest(l.order, l.dimCount)
    && acc.visibility == l.visible.Some?
  }

  ghost predicate PlanFits(leaves: seq<LeafPlan>, p: MetricPlan) {
    && (forall r :: r in p.refs ==> r.leaf < |leaves| && HasColumn(leaves[r.leaf], r.column))
    && (p.accumulate.Some?
        ==> |p.refs| > 0 && p.refs[0].leaf < |leaves| && AccFits(p.accumulate.value, leaves[p.refs[0].leaf]))
  }

  /** Every plan refers to the leaves properly, and every visibility CTE belongs to a running total. */
  ghost predicate PlansFit(leaves: seq<LeafPlan>, plans: seq<MetricPlan>) {
    && (forall p :: p in plans ==> PlanFits(leaves, p))
    && (forall i :: 0 <= i < |leaves| && leaves[i].visible.Some? ==> Accumulated(leaves, plans, i))
  }

  ghost predicate Accumulated(leaves: seq<LeafPlan>, plans: seq<MetricPlan>, i: nat) {
    exists p :: p in plans && Uses(p, Ids(|leaves|), i)
  }

  ghost predicate LeavesOk(leaves: seq<LeafPlan>) {
    && leaves != []
    && (forall i :: 0 <= i < |leaves| ==> LeafOk(leaves[i]) && leaves[i].dimCount == leaves[0].dimCount)
  }

  /** What planning guarantees about leaves and metric plans. */
  ghost predicate Planned(leaves: seq<LeafPlan>, metrics: seq<MetricPlan>) {
    && LeavesOk(leaves) && KeysSound(leaves)
    && (forall k :: 0 <= k < |metrics| ==> WellFormed(metrics[k]))
    && PlansFit(leaves, WalkAll(metrics))
  }

  // ---------------------------------------------------------------- the reference result

  /** A leaf column at a spine row: the leaf's own row for that tuple, or NULL. */
  ghost function LeafCell(leaves: seq<LeafPlan>, s: SpineRow, r: LeafRef): Cell {
    if r.leaf < |leaves| then
      var l := leaves[r.leaf];
      CellOf(l.metrics, Lookup(Groups(l), l.projectsIsFinal, s), r.column)
    else Null
  }

  ghost function LookAt(leaves: seq<LeafPlan>): Look {
    (s: SpineRow, r: LeafRef) => LeafCell(leaves, s, r)
  }

  /** The densifying accumulation of a leaf, which its order dimensions determine. */
  ghost function AccFor(l: LeafPlan): Accumulate {
    Accumulate(l.order, Rest(l.order, l.dimCount), true, l.visible.Some?)
  }

  /** Some running total over leaf `i` densifies it. */
  ghost predicate Filled(leaves: seq<LeafPlan>, plans: seq<MetricPlan>, i: nat) {
    exists p :: p in plans && Uses(p, Ids(|leaves|), i) && WantsFill(p.accumulate.value)
  }

  ghost predicate FilledTuple(l: LeafPlan, d: Tuple) {
    && |d| == l.dimCount
    && Fillable(Splits(CteDims(LeafCte(l)), AccFor(l)), SplitOf(d, AccFor(l)))
  }

  /** Leaf `i` contributes spine row `s`: one of its own rows or one of its filled ones. */
  ghost predicate Contributes(leaves: seq<LeafPlan>, plans: seq<MetricPlan>, i: nat, s: SpineRow)
    requires i < |leaves|
  {
    || s in CteRows(LeafCte(leaves[i]))
    || (Filled(leaves, plans, i) && FilledTuple(leaves[i], s.dims) && s.flag)
  }

  /** The row survives the leaf's visibility filter, if it has one. */
  ghost predicate Passes(l: LeafPlan, s: SpineRow) {
    l.visible.Some? ==> Project(s.dims, l.order) in l.visible.value
  }

  ghost predicate InSpine(leaves: seq<LeafPlan>, plans: seq<MetricPlan>, s: SpineRow) {
    exists i :: 0 <= i < |leaves| && Contributes(leaves, plans, i, s)
  }

  ghost predicate Shown(leaves: seq<LeafPlan>, plans: seq<MetricPlan>, s: SpineRow) {
    exists i :: 0 <= i < |leaves| && Contributes(leaves, plans, i, s) && Passes(leaves[i], s)
  }

  ghost predicate AnyFinal(leaves: seq<LeafPlan>) {
    exists i :: 0 <= i < |leaves| && leaves[i].projectsIsFinal
  }

  ghost function MetricValuesAt(metrics: seq<MetricPlan>, rows: set<SpineRow>, look: Look, s: SpineRow): (r: seq<Cell>)
    requires forall k :: 0 <= k < |metrics| ==> WellFormed(metrics[k])
    ensures |r| == |metrics|
  {
    seq(|metrics|, k requires 0 <= k < |metrics| => Value(metrics[k], rows, look, s))
  }

  ghost function FlagsAt(metrics: seq<MetricPlan>, rows: set<SpineRow>, look: Look, s: SpineRow): seq<Cell>
    requires forall k :: 0 <= k < |metrics| ==> WellFormed(metrics[k])
  {
    if metrics == [] then []
    else
      (if ZeroDenominators.Counts(metrics[0])
       then [ZeroDenominators.Flag(ZeroDenominators.CountedValues(metrics[0], rows, look, s))]
       else [])
      + FlagsAt(metrics[1..], rows, look, s)
  }

  /** The result row at spine row `s` of a result whose spine is `rows`. */
  ghost function RowAt(leaves: seq<LeafPlan>, metrics: seq<MetricPlan>, rows: set<SpineRow>, s: SpineRow): OutRow
    requires forall k :: 0 <= k < |metrics| ==> WellFormed(metrics[k])
  {
    OutRow(s.dims, MetricValuesAt(metrics, rows, LookAt(leaves), s),
           if AnyFinal(leaves) then Some(s.flag) else None,
           if HidesRows(WalkAll(metrics)) then [] else FlagsAt(metrics, rows, LookAt(leaves), s))
  }

  /** `answer` lists, without repeats, exactly the row of every shown tuple. */
  ghost predicate IsAnswer(leaves: seq<LeafPlan>, metrics: seq<MetricPlan>, rows: set<SpineRow>, answer: seq<OutRow>)
    requires forall k :: 0 <= k < |metrics| ==> WellFormed(metrics[k])
  {
    && NoDup(answer)
    && (forall s :: s in rows <==> InSpine(leaves, WalkAll(metrics), s))
    && (forall s :: s in rows && Shown(leaves, WalkAll(metrics), s) ==> RowAt(leaves, metrics, rows, s) in answer)
    && (forall r ::
      r in answer
      ==> exists s :: s in rows && Shown(leaves, WalkAll(metrics), s) && r == RowAt(leaves, metrics, rows, s))
  }

  /** The specification fixes the bag of rows: two answers are permutations of each other. */
  lemma {:induction false} AnswerIsUnique(leaves: seq<LeafPlan>, metrics: seq<MetricPlan>, rows: set<SpineRow>,
      rows': set<SpineRow>, a: seq<OutRow>, b: seq<OutRow>)
    requires forall k :: 0 <= k < |metrics| ==> WellFormed(metrics[k])
    requires IsAnswer(leaves, metrics, rows, a) && IsAnswer(leaves, metrics, rows', b)
    ensures multiset(a) == multiset(b)
  {
    assert rows == rows';
    AnswerHolds(leaves, metrics, rows, a, b);
    AnswerHolds(leaves, metrics, rows, b, a);
    assert Elems(a) == Elems(b);
    SameBag(a, b);
  }

  lemma {:induction false} AnswerHolds(leaves: seq<LeafPlan>, metrics: seq<MetricPlan>, rows: set<SpineRow>,
                                       a: seq<OutRow>, b: seq<OutRow>)
    requires forall k :: 0 <= k < |metrics| ==> WellFormed(metrics[k])
    requires IsAnswer(leaves, metrics, rows, a) && IsAnswer(leaves, metrics, rows, b)
    ensures forall r :: r in a ==> r in b
  {
    forall r | r in a
      ensures r in b
    {
      var s :| s in rows && Shown(leaves, WalkAll(metrics), s) && r == RowAt(leaves, metrics, rows, s);
    }
  }
}
