/** Assembling planned leaves into one statement, and the result that statement must return. */
module Compose {
  import opened Relational
  import opened Plans
  import opened Semantics
  import opened Spine
  import opened Fusion
  import opened Fill
  import ZeroDenominators

  /** A result row: dimensions, metrics in request order, the finality marker if one is projected,
      and the hidden zero-denominator columns. */
  datatype OutRow = OutRow(dims: Tuple, values: seq<Cell>, isFinal: Option<bool>, zeroFlags: seq<Cell>)

  /** A cumulative metric together with a finality rule is refused. */
  datatype Composed = Rejected | Answer(rows: seq<OutRow>)

  // ---------------------------------------------------------------- cumulative leaves

  /** Plan `p` accumulates over a leaf served by CTE `c`. */
  predicate Uses(p: MetricPlan, owner: seq<nat>, c: nat) {
    && p.accumulate.Some? && |p.refs| > 0
    && p.refs[0].leaf < |owner| && owner[p.refs[0].leaf] == c
  }

  predicate WantsFill(acc: Accumulate) {
    acc.fillObserved && acc.partitionBy != []
  }

  /** The first accumulation over CTE `c` that densifies it. */
  function FillOf(plans: seq<MetricPlan>, owner: seq<nat>, c: nat): (r: Option<Accumulate>)
    ensures r.Some? ==> exists p :: p in plans && Uses(p, owner, c) && p.accumulate == r && WantsFill(r.value)
    ensures r.None? ==> forall p :: p in plans && Uses(p, owner, c) ==> !WantsFill(p.accumulate.value)
  {
    if plans == [] then None
    else if Uses(plans[0], owner, c) && WantsFill(plans[0].accumulate.value) then plans[0].accumulate
    else FillOf(plans[1..], owner, c)
  }

  /** The first accumulation over CTE `c` whose leaf decides which order tuples are shown. */
  function VisibleOf(plans: seq<MetricPlan>, owner: seq<nat>, c: nat): (r: Option<Accumulate>)
    ensures r.Some? ==> exists p :: p in plans && Uses(p, owner, c) && p.accumulate == r && r.value.visibility
    ensures r.None? ==> forall p :: p in plans && Uses(p, owner, c) ==> !p.accumulate.value.visibility
  {
    if plans == [] then None
    else if Uses(plans[0], owner, c) && plans[0].accumulate.value.visibility then plans[0].accumulate
    else VisibleOf(plans[1..], owner, c)
  }

  // ---------------------------------------------------------------- the spine

  /** The spine branch of a CTE: its tuples, marked TRUE unless it projects a marker. */
  function CteRows(cte: Cte): (r: seq<SpineRow>)
    ensures |r| == |cte.rows|
  {
    Map(cte.rows, (g: Group) => SpineRow(g.dims, !cte.projectsIsFinal || g.flag))
  }

  function CteDims(cte: Cte): seq<Tuple> {
    Map(cte.rows, (g: Group) => g.dims)
  }

  function FillBranch(cte: Cte, fill: Option<Accumulate>, n: nat): seq<SpineRow> {
    if fill.None? then []
    else Map(FillRows(CteDims(cte), fill.value, n), (d: Tuple) => SpineRow(d, true))
  }

  /** UNION of every CTE's tuples and of the filled ones. */
  function SpineBranches(ctes: seq<Cte>, order: seq<nat>, plans: seq<MetricPlan>, owner: seq<nat>,
      n: nat): seq<seq<SpineRow>>
    requires forall k :: 0 <= k < |order| ==> order[k] < |ctes|
  {
    seq(|order|, k requires 0 <= k < |order| => CteRows(ctes[order[k]]))
    + FillBranches(ctes, order, plans, owner, n)
  }

  function FillBranches(ctes: seq<Cte>, order: seq<nat>, plans: seq<MetricPlan>, owner: seq<nat>,
      n: nat): seq<seq<SpineRow>>
    requires forall k :: 0 <= k < |order| ==> order[k] < |ctes|
    decreases |order|
  {
    if order == [] then []
    else
      var fill := FillOf(plans, owner, order[0]);
      (if fill.None? then [] else [FillBranch(ctes[order[0]], fill, n)])
      + FillBranches(ctes, order[1..], plans, owner, n)
  }

  // ---------------------------------------------------------------- FROM

  function WithMatch(j: Joined, c: nat, g: Group): Joined {
    Joined(j.row, j.matches[c := Some(g)])
  }

  function CrossJoin(t: seq<Joined>, c: nat, cte: Cte): seq<Joined> {
    Flatten(Map(t, (j: Joined) => Map(cte.rows, (g: Group) => WithMatch(j, c, g))))
  }

  function CrossAll(t: seq<Joined>, ctes: seq<Cte>, order: seq<nat>): seq<Joined>
    requires forall k :: 0 <= k < |order| ==> order[k] < |ctes|
    decreases |order|
  {
    if order == [] then t
    else CrossAll(CrossJoin(t, order[0], ctes[order[0]]), ctes, order[1..])
  }

  /** A CTE read on its own. */
  function Alone(cte: Cte, c: nat): seq<Joined> {
    Map(cte.rows, (g: Group) => Joined(SpineRow(g.dims, !cte.projectsIsFinal || g.flag), map[c := Some(g)]))
  }

  /** The rows of the outer FROM clause: one CTE alone, the spine with every CTE left-joined, or,
      without dimensions, the cross join of one-row CTEs. */
  function From(ctes: seq<Cte>, order: seq<nat>, plans: seq<MetricPlan>, owner: seq<nat>, n: nat,
      accumulating: bool): seq<Joined>
    requires |order| > 0 && forall k :: 0 <= k < |order| ==> order[k] < |ctes|
  {
    if |ctes| == 1 && !accumulating then Alone(ctes[0], 0)
    else if n > 0 then JoinAll(Map(UnionChain(SpineBranches(ctes, order, plans, owner, n)), Bare), ctes, order)
    else CrossAll(Alone(ctes[order[0]], order[0]), ctes, order[1..])
  }

  // ---------------------------------------------------------------- SELECT

  function MetricCells(metrics: seq<MetricPlan>, ctes: seq<Cte>, owner: seq<nat>, t: seq<Joined>, scan: Scan,
      i: nat): (r: seq<Cell>)
    requires i < |t| && forall k :: 0 <= k < |metrics| ==> WellFormed(metrics[k])
    ensures |r| == |metrics|
  {
    seq(|metrics|, k requires 0 <= k < |metrics| => Eval(MetricValue(metrics[k], owner), ctes, t, scan, i))
  }

  function FlagCells(metrics: seq<MetricPlan>, ctes: seq<Cte>, owner: seq<nat>, t: seq<Joined>, scan: Scan,
      i: nat): seq<Cell>
    requires i < |t| && forall k :: 0 <= k < |metrics| ==> WellFormed(metrics[k])
  {
    if metrics == [] then []
    else
      var denominators := ZeroDenominators.CountedDenominators(metrics[0], owner);
      (if ZeroDenominators.Counts(metrics[0])
       then [ZeroDenominators.Flag(ZeroDenominators.Evals(denominators, ctes, t, scan, i))]
       else [])
      + FlagCells(metrics[1..], ctes, owner, t, scan, i)
  }

  function Select(metrics: seq<MetricPlan>, ctes: seq<Cte>, owner: seq<nat>, t: seq<Joined>, scan: Scan, i: nat,
      withFinal: bool, flags: bool): OutRow
    requires i < |t| && forall k :: 0 <= k < |metrics| ==> WellFormed(metrics[k])
  {
    OutRow(t[i].row.dims, MetricCells(metrics, ctes, owner, t, scan, i),
           if withFinal then Some(t[i].row.flag) else None,
           if flags then FlagCells(metrics, ctes, owner, t, scan, i) else [])
  }

  function SelectAll(metrics: seq<MetricPlan>, ctes: seq<Cte>, owner: seq<nat>, t: seq<Joined>, scan: Scan,
      withFinal: bool, flags: bool): (r: seq<OutRow>)
    requires forall k :: 0 <= k < |metrics| ==> WellFormed(metrics[k])
    ensures |r| == |t|
  {
    seq(|t|, i requires 0 <= i < |t| => Select(metrics, ctes, owner, t, scan, i, withFinal, flags))
  }

  /** Every reference column of the metrics, flattened. */
  function ReferencedColumns(metrics: seq<MetricPlan>): seq<string> {
    if metrics == [] then []
    else Map(metrics[0].refs, (r: LeafRef) => r.column) + ReferencedColumns(metrics[1..])
  }

  /** A lone CTE's own projection is the requested output. */
  predicate AlreadyOutput(metrics: seq<MetricPlan>, columns: seq<string>) {
    && (forall k :: 0 <= k < |metrics| ==> metrics[k].combine == Direct)
    && Map(metrics, (m: MetricPlan) => m.name) == columns
    && ReferencedColumns(metrics) == columns
  }

  /** The lone CTE emitted as it is. */
  function BareRows(cte: Cte): (r: seq<OutRow>)
    ensures |r| == |cte.rows|
  {
    Map(cte.rows, (g: Group) =>
      OutRow(g.dims, Map(cte.metrics, (m: LeafMetric) => Aggregate(m.measure, g.rows)),
             if cte.projectsIsFinal then Some(g.flag) else None, []))
  }

  // ---------------------------------------------------------------- visibility

  /** Rows whose order tuple the leaf's visibility CTE kept, or all rows when it has none. */
  function KeepVisible(rows: seq<Tuple>, acc: Option<Accumulate>, visible: Option<seq<Tuple>>): seq<Tuple> {
    if acc.None? then rows
    else InnerJoin(rows, if visible.Some? then visible.value else [], (d: Tuple) => Project(d, acc.value.orderBy))
  }

  function VisibleBranches(ctes: seq<Cte>, phys: seq<Phys>, order: seq<nat>, plans: seq<MetricPlan>, owner: seq<nat>,
      n: nat): seq<seq<Tuple>>
    requires |phys| == |ctes| && forall k :: 0 <= k < |order| ==> order[k] < |ctes|
    decreases |order|
  {
    if order == [] then []
    else
      var c := order[0];
      var fill, acc, visible := FillOf(plans, owner, c), VisibleOf(plans, owner, c), phys[c].keyLeaf.visible;
      [KeepVisible(CteDims(ctes[c]), acc, visible)]
      + (if fill.None? then [] else [KeepVisible(FillRows(CteDims(ctes[c]), fill.value, n), acc, visible)])
      + VisibleBranches(ctes, phys, order[1..], plans, owner, n)
  }

  // ---------------------------------------------------------------- compose

  predicate AnyMarked(ctes: seq<Cte>) {
    exists c :: 0 <= c < |ctes| && ctes[c].projectsIsFinal
  }

  predicate Cumulative(plans: seq<MetricPlan>) {
    exists p :: p in plans && (p.accumulate.Some? || p.cumulative)
  }

  predicate Accumulates(plans: seq<MetricPlan>) {
    exists p :: p in plans && p.accumulate.Some?
  }

  predicate HidesRows(plans: seq<MetricPlan>) {
    exists p :: p in plans && p.accumulate.Some? && p.accumulate.value.visibility
  }

  /** `order` lists the CTEs once each, in the order they are named and joined. */
  ghost predicate IsOrder(order: seq<nat>, n: nat) {
    && NoDup(order)
    && (forall k :: 0 <= k < |order| ==> order[k] < n)
    && (forall c :: 0 <= c < n ==> c in order)
  }

  function Statement(leaves: seq<LeafPlan>, metrics: seq<MetricPlan>, dedup: bool, order: seq<nat>,
      scan: Scan): Composed
    requires leaves != [] && forall k :: 0 <= k < |metrics| ==> WellFormed(metrics[k])
    requires |order| > 0 && IsOrder(order, |Fused(leaves, dedup).physical|)
  {
    var st := Fused(leaves, dedup);
    var ctes, plans, n := Ctes(st.physical), WalkAll(metrics), leaves[0].dimCount;
    if AnyMarked(ctes) && Cumulative(plans) then Rejected
    else if !Accumulates(plans) && |ctes| == 1 && AlreadyOutput(metrics, Aliases(ctes[0].metrics)) then
      Answer(BareRows(ctes[0]))
    else
      var t := From(ctes, order, plans, st.owner, n, Accumulates(plans));
      var outer := SelectAll(metrics, ctes, st.owner, t, scan, AnyMarked(ctes), !HidesRows(plans));
      if !HidesRows(plans) then Answer(outer)
      else
        var visible := UnionChain(VisibleBranches(ctes, st.physical, order, plans, st.owner, n));
        Answer(InnerJoin(outer, visible, (r: OutRow) => r.dims))
  }
}
