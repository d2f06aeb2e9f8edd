/** The planned query: leaves, metric plans, and the SQL expressions compose emits for them. */
module Plans {
  import opened Relational

  // ---------------------------------------------------------------- leaves

  /** Identity of a leaf's resolved plan without its measures. */
  datatype FusionKey = FusionKey(
    source: string, strategy: string, dimensions: seq<string>, dimensionExprs: seq<string>,
    filters: seq<string>, joinPath: seq<(string, string, string)>, finality: seq<string>,
    strategyParams: seq<(string, string)>)

  datatype Agg = Sum | Count | CountRows | Min | Max

  datatype Measure = Measure(name: string, agg: Agg, input: nat)

  /** One projected metric: the measure and its output column. */
  datatype LeafMetric = LeafMetric(alias: string, measure: Measure)

  /** A row that survived the leaf's joins and WHERE: its dimension tuple and measure inputs. */
  datatype BaseRow = BaseRow(dims: Tuple, inputs: seq<Cell>)

  /** One SELECT of the leaf. A finality leaf is a UNION ALL of several, each with its marker. */
  datatype Branch = Branch(isFinal: bool, rows: seq<BaseRow>)

  /** What a result says about the finality of its rows. */
  datatype FinalityMeta = FinalityMeta(watermark: string, sources: seq<string>, flag: string)

  datatype Meta = Meta(
    fired: seq<string>, warnings: seq<string>,
    used: set<string>, scoped: set<string>, shared: set<string>, finality: Option<FinalityMeta>)

  /** A planned leaf. `branches`, `order` and `visible` are what its SELECT denotes on the
      database at hand: `order` holds the positions of a cumulative leaf's order dimensions and
      `visible` the order tuples its hoisted visibility CTE keeps. */
  datatype LeafPlan = LeafPlan(
    key: FusionKey, metrics: seq<LeafMetric>, fusable: bool,
    dimCount: nat, projectsIsFinal: bool, branches: seq<Branch>,
    order: seq<nat>, visible: Option<seq<Tuple>>, meta: Meta)

  function InputOf(r: BaseRow, k: nat): Cell {
    if k < |r.inputs| then r.inputs[k] else Null
  }

  function Present(rows: seq<BaseRow>, k: nat): seq<real> {
    if rows == [] then []
    else (if InputOf(rows[0], k).Null? then [] else [InputOf(rows[0], k).x]) + Present(rows[1..], k)
  }

  function Extreme(s: seq<real>, least: bool): real
    requires s != []
  {
    if |s| == 1 then s[0]
    else
      var rest := Extreme(s[1..], least);
      if (s[0] <= rest) == least then s[0] else rest
  }

  /** SQL aggregates skip NULLs, and all but the counts are NULL over nothing. */
  function Aggregate(m: Measure, rows: seq<BaseRow>): Cell {
    var xs := Present(rows, m.input);
    match m.agg
    case CountRows => Num(|rows| as real)
    case Count => Num(|xs| as real)
    case Sum => if xs == [] then Null else Num(SumSeq(xs, (x: real) => x))
    case Min => if xs == [] then Null else Num(Extreme(xs, true))
    case Max => if xs == [] then Null else Num(Extreme(xs, false))
  }

  /** One output row of a leaf, before its measures are projected. */
  datatype Group = Group(dims: Tuple, flag: bool, rows: seq<BaseRow>)

  /** GROUP BY the dimensions. Without dimensions there is one row, even over no input. */
  function GroupsOf(b: Branch, dimCount: nat): seq<Group> {
    if dimCount == 0 then [Group([], b.isFinal, b.rows)]
    else
      Map(Distinct(Map(b.rows, (r: BaseRow) => r.dims)),
          (d: Tuple) => Group(d, b.isFinal, Filter(b.rows, (r: BaseRow) => r.dims == d)))
  }

  /** Every row the leaf's SELECT returns. */
  function Groups(l: LeafPlan): seq<Group> {
    Flatten(Map(l.branches, (b: Branch) => GroupsOf(b, l.dimCount)))
  }

  // ---------------------------------------------------------------- order

  function DimLe(a: Dim, b: Dim): bool {
    b.NullDim? || (a.D? && a.v <= b.v)
  }

  /** Lexicographic order on tuples, NULLs last. */
  predicate TupleLe(a: Tuple, b: Tuple) {
    if a == [] then true
    else if b == [] then false
    else if a[0] == b[0] then TupleLe(a[1..], b[1..])
    else DimLe(a[0], b[0])
  }

  function Project(t: Tuple, columns: seq<nat>): (r: Tuple)
    ensures |r| == |columns|
  {
    Map(columns, (c: nat) => if c < |t| then t[c] else NullDim)
  }

  // ---------------------------------------------------------------- metric plans

  datatype Combine = Direct | RatioNull | RatioZero | RatioRaw | Derived

  datatype LeafRef = LeafRef(leaf: nat, column: string)

  /** Positions of the order and partition dimensions among the requested ones. */
  datatype Accumulate = Accumulate(
    orderBy: seq<nat>, partitionBy: seq<nat>, fillObserved: bool, visibility: bool)

  datatype MetricPlan = MetricPlan(
    name: string, refs: seq<LeafRef>, combine: Combine, accumulate: Option<Accumulate>,
    cumulative: bool, operands: seq<MetricPlan>, template: Expr, division: Option<Combine>)

  /** SQL expressions of the outer SELECT. `CountOver` and `SumOver` are windows with a ROWS
      frame from the partition's first order tuple to the current row. */
  datatype Expr =
    | Column(cte: nat, column: string)
    | Operand(index: nat)
    | Literal(x: real)
    | Paren(e: Expr)
    | Add(l: Expr, r: Expr)
    | Sub(l: Expr, r: Expr)
    | Mul(l: Expr, r: Expr)
    | Div(l: Expr, r: Expr)
    | Nullif0(e: Expr)
    | Coalesce(l: Expr, r: Expr)
    | IfPresent(test: Expr, e: Expr)
    | CountOver(acc: Accumulate, e: Expr)
    | SumOver(acc: Accumulate, e: Expr)
    | NullWhenZero(test: Expr, e: Expr)

  /** This plan with every leaf reference, its operands' included, moved by `delta`. */
  function Shifted(m: MetricPlan, delta: nat): MetricPlan
    decreases m, 1
  {
    m.(refs := Map(m.refs, (r: LeafRef) => LeafRef(r.leaf + delta, r.column)),
       operands := ShiftedAll(m.operands, delta))
  }

  function ShiftedAll(ms: seq<MetricPlan>, delta: nat): (r: seq<MetricPlan>)
    ensures |r| == |ms|
    ensures forall k :: 0 <= k < |ms| ==> r[k] == Shifted(ms[k], delta)
    decreases ms, 0
  {
    if ms == [] then []
    else [Shifted(ms[0], delta)] + ShiftedAll(ms[1..], delta)
  }

  /** This plan and every operand under it, depth first. */
  function Walk(m: MetricPlan): (r: seq<MetricPlan>)
    ensures m in r
    decreases m, 1
  {
    [m] + WalkAll(m.operands)
  }

  function WalkAll(ms: seq<MetricPlan>): (r: seq<MetricPlan>)
    ensures forall m :: m in ms ==> m in r
    ensures forall m, p :: m in ms && p in Walk(m) ==> p in r
    decreases ms, 0
  {
    if ms == [] then [] else
      assert ms == [ms[0]] + ms[1..];
      Walk(ms[0]) + WalkAll(ms[1..])
  }

  lemma {:induction false} WalkNests(m: MetricPlan)
    ensures forall p, q :: p in Walk(m) && q in Walk(p) ==> q in Walk(m)
    ensures forall p, q :: p in WalkAll(m.operands) && q in Walk(p) ==> q in Walk(m)
    decreases m, 1
  {
    WalkAllNests(m.operands);
  }

  lemma {:induction false} WalkAllNests(ms: seq<MetricPlan>)
    ensures forall p, q :: p in WalkAll(ms) && q in Walk(p) ==> q in WalkAll(ms)
    decreases ms, 0
  {
    if ms != [] {
      WalkNests(ms[0]);
      WalkAllNests(ms[1..]);
    }
  }

  // ---------------------------------------------------------------- emitted expressions

  /** `n / d` under a ratio's zero-denominator policy. */
  function GuardDivision(n: Expr, d: Expr, c: Combine): Expr {
    match c
    case RatioRaw => Div(n, d)
    case RatioZero => Coalesce(Div(n, Nullif0(d)), Literal(0.0))
    case _ => Div(n, Nullif0(d))
  }

  function ColumnsOf(m: MetricPlan, owner: seq<nat>): (r: seq<Expr>)
    ensures |r| == |m.refs|
  {
    Map(m.refs, (r: LeafRef) => Column(if r.leaf < |owner| then owner[r.leaf] else 0, r.column))
  }

  function CombineExpr(c: Combine, columns: seq<Expr>): Expr
    requires |columns| >= 1 && (c != Direct ==> |columns| >= 2)
  {
    if c == Direct then columns[0] else GuardDivision(columns[0], columns[1], c)
  }

  /** Running total, NULL before the partition's first measured row. */
  function AccumulateExpr(acc: Accumulate, value: Expr): Expr {
    NullWhenZero(CountOver(acc, value), SumOver(acc, Coalesce(value, Literal(0.0))))
  }

  /** Replace placeholder `i` by the parenthesised value of input `i`. */
  function Substitute(e: Expr, values: seq<Expr>): Expr {
    match e
    case Operand(i) => if i < |values| then Paren(values[i]) else e
    case Paren(a) => Paren(Substitute(a, values))
    case Add(a, b) => Add(Substitute(a, values), Substitute(b, values))
    case Sub(a, b) => Sub(Substitute(a, values), Substitute(b, values))
    case Mul(a, b) => Mul(Substitute(a, values), Substitute(b, values))
    case Div(a, b) => Div(Substitute(a, values), Substitute(b, values))
    case Nullif0(a) => Nullif0(Substitute(a, values))
    case Coalesce(a, b) => Coalesce(Substitute(a, values), Substitute(b, values))
    case IfPresent(a, b) => IfPresent(Substitute(a, values), Substitute(b, values))
    case _ => e
  }

  /** Refs match the combine mode, only derived plans have operands, and a running total is
      taken over one leaf column. This is what every planning strategy produces. */
  predicate WellFormed(m: MetricPlan)
    decreases m
  {
    && (m.combine == Direct ==> |m.refs| == 1)
    && (m.combine in {RatioNull, RatioZero, RatioRaw} ==> |m.refs| == 2)
    && (m.combine != Derived ==> m.operands == [])
    && (m.combine == Derived ==> m.accumulate.None? && IsTemplate(m.template, |m.operands|))
    && (m.accumulate.Some? ==> m.combine == Direct)
    && forall k :: 0 <= k < |m.operands| ==> WellFormed(m.operands[k])
  }

  /** Arithmetic over numbered inputs, without columns or windows of its own. */
  predicate IsTemplate(e: Expr, inputs: nat) {
    match e
    case Operand(i) => i < inputs
    case Literal(_) => true
    case Paren(a) => IsTemplate(a, inputs)
    case Add(a, b) => IsTemplate(a, inputs) && IsTemplate(b, inputs)
    case Sub(a, b) => IsTemplate(a, inputs) && IsTemplate(b, inputs)
    case Mul(a, b) => IsTemplate(a, inputs) && IsTemplate(b, inputs)
    case Div(a, b) => IsTemplate(a, inputs) && IsTemplate(b, inputs)
    case Nullif0(a) => IsTemplate(a, inputs)
    case Coalesce(a, b) => IsTemplate(a, inputs) && IsTemplate(b, inputs)
    case IfPresent(a, b) => IsTemplate(a, inputs) && IsTemplate(b, inputs)
    case _ => false
  }

  /** One metric's value in the final SELECT: combined, accumulated, or derived from others. */
  function MetricValue(m: MetricPlan, owner: seq<nat>): Expr
    requires WellFormed(m)
    decreases m, 1
  {
    if m.combine == Derived then Substitute(m.template, MetricValues(m.operands, owner))
    else
      var value := CombineExpr(m.combine, ColumnsOf(m, owner));
      if m.accumulate.Some? then AccumulateExpr(m.accumulate.value, value) else value
  }

  function MetricValues(ms: seq<MetricPlan>, owner: seq<nat>): (r: seq<Expr>)
    requires forall k :: 0 <= k < |ms| ==> WellFormed(ms[k])
    ensures |r| == |ms|
    ensures forall k :: 0 <= k < |ms| ==> r[k] == MetricValue(ms[k], owner)
    decreases ms, 0
  {
    if ms == [] then []
    else [MetricValue(ms[0], owner)] + MetricValues(ms[1..], owner)
  }
}
