/** What the emitted expressions compute over the joined rows, what a metric plan means, and the
    proof that the first computes the second. */
module Semantics {
  import opened Relational
  import opened Plans
  import opened Ordering

  /** A spine row: a dimension tuple and the finality marker (TRUE where none is projected). */
  datatype SpineRow = SpineRow(dims: Tuple, flag: bool)

  /** A CTE as the outer SELECT sees it. */
  datatype Cte = Cte(metrics: seq<LeafMetric>, rows: seq<Group>, projectsIsFinal: bool)

  /** A row of the outer FROM clause: the spine row and, per CTE, the row joined onto it. */
  datatype Joined = Joined(row: SpineRow, matches: map<nat, Option<Group>>)

  // ---------------------------------------------------------------- arithmetic

  function AddC(a: Cell, b: Cell): Cell {
    if a.Null? || b.Null? then Null else Num(a.x + b.x)
  }

  function SubC(a: Cell, b: Cell): Cell {
    if a.Null? || b.Null? then Null else Num(a.x - b.x)
  }

  function MulC(a: Cell, b: Cell): Cell {
    if a.Null? || b.Null? then Null else Num(a.x * b.x)
  }

  /** Division. By zero the engine raises; `Faults` says when, and the value is irrelevant. */
  function DivC(a: Cell, b: Cell): Cell {
    if a.Null? || b.Null? || b.x == 0.0 then Null else Num(a.x / b.x)
  }

  function NullifC(a: Cell): Cell {
    if a == Num(0.0) then Null else a
  }

  function CoalesceC(a: Cell, b: Cell): Cell {
    if a.Null? then b else a
  }

  // ---------------------------------------------------------------- columns and windows

  /** The measure behind an output column; the first one under that name. */
  function MeasureOf(metrics: seq<LeafMetric>, column: string): (r: Option<Measure>)
    ensures r.Some? ==> LeafMetric(column, r.value) in metrics
    ensures r.None? ==> forall m :: m in metrics ==> m.alias != column
  {
    if metrics == [] then None
    else if metrics[0].alias == column then Some(metrics[0].measure)
    else MeasureOf(metrics[1..], column)
  }

  /** A column of a left-joined CTE row: NULL when nothing matched. */
  function CellOf(metrics: seq<LeafMetric>, g: Option<Group>, column: string): Cell {
    var m := MeasureOf(metrics, column);
    if g.None? || m.None? then Null else Aggregate(m.value, g.value.rows)
  }

  /** A column of one joined row. */
  function ColumnCell(ctes: seq<Cte>, j: Joined, c: nat, column: string): Cell {
    if c < |ctes| && c in j.matches then CellOf(ctes[c].metrics, j.matches[c], column) else Null
  }

  function OrderOf(acc: Accumulate, r: SpineRow): Tuple {
    Project(r.dims, acc.orderBy)
  }

  function PartitionOf(acc: Accumulate, r: SpineRow): Tuple {
    Project(r.dims, acc.partitionBy)
  }

  /** How an engine arranges rows for a window: the positions of the rows, in scanning order. */
  type Scan = (Accumulate, seq<SpineRow>) -> seq<nat>

  /** What a value contributes to COUNT(v), or to SUM(v). */
  function Term(counting: bool, c: Cell): real {
    if !counting then Coalesce0(c) else if c.Null? then 0.0 else 1.0
  }

  function Eval(e: Expr, ctes: seq<Cte>, t: seq<Joined>, scan: Scan, i: nat): Cell
    requires i < |t|
    decreases e, 0
  {
    match e
    case Column(c, column) => ColumnCell(ctes, t[i], c, column)
    case Operand(_) => Null
    case Literal(x) => Num(x)
    case Paren(a) => Eval(a, ctes, t, scan, i)
    case Add(a, b) => AddC(Eval(a, ctes, t, scan, i), Eval(b, ctes, t, scan, i))
    case Sub(a, b) => SubC(Eval(a, ctes, t, scan, i), Eval(b, ctes, t, scan, i))
    case Mul(a, b) => MulC(Eval(a, ctes, t, scan, i), Eval(b, ctes, t, scan, i))
    case Div(a, b) => DivC(Eval(a, ctes, t, scan, i), Eval(b, ctes, t, scan, i))
    case Nullif0(a) => NullifC(Eval(a, ctes, t, scan, i))
    case Coalesce(a, b) => CoalesceC(Eval(a, ctes, t, scan, i), Eval(b, ctes, t, scan, i))
    case IfPresent(a, b) => if Eval(a, ctes, t, scan, i).Null? then Null else Eval(b, ctes, t, scan, i)
    case CountOver(acc, a) => Num(OverRows(a, ctes, t, scan, i, acc, true, scan(acc, RowsOf(t))))
    case SumOver(acc, a) => Num(OverRows(a, ctes, t, scan, i, acc, false, scan(acc, RowsOf(t))))
    case NullWhenZero(a, b) => if Eval(a, ctes, t, scan, i) == Num(0.0) then Null else Eval(b, ctes, t, scan, i)
  }

  /** A ROWS frame from the start of the partition to row `i`: the rows of its partition, in scanning
      order, up to and including the row itself. */
  function OverRows(e: Expr, ctes: seq<Cte>, t: seq<Joined>, scan: Scan, i: nat, acc: Accumulate, counting: bool,
                    p: seq<nat>): real
    requires i < |t|
    decreases e, |p|
  {
    if p == [] then 0.0
    else if p[0] >= |t| then OverRows(e, ctes, t, scan, i, acc, counting, p[1..])
    else
      var x := if PartitionOf(acc, t[p[0]].row) == PartitionOf(acc, t[i].row)
               then Term(counting, Eval(e, ctes, t, scan, p[0])) else 0.0;
      if p[0] == i then x else x + OverRows(e, ctes, t, scan, i, acc, counting, p[1..])
  }

  function RowsOf(t: seq<Joined>): seq<SpineRow> {
    Map(t, (j: Joined) => j.row)
  }

  // ---------------------------------------------------------------- meaning of a metric plan

  /** A ratio or plain column from the cells it reads. */
  function CombineValue(c: Combine, cells: seq<Cell>): Cell
    requires |cells| >= 1 && (c != Direct ==> |cells| >= 2)
  {
    match c
    case Direct => cells[0]
    case RatioRaw => DivC(cells[0], cells[1])
    case RatioZero => CoalesceC(DivC(cells[0], NullifC(cells[1])), Num(0.0))
    case _ => DivC(cells[0], NullifC(cells[1]))
  }

  /** Row `r` is in the partition of row `s`, at or before it in order. */
  predicate InFrame(acc: Accumulate, r: SpineRow, s: SpineRow) {
    PartitionOf(acc, r) == PartitionOf(acc, s) && TupleLe(OrderOf(acc, r), OrderOf(acc, s))
  }

  /** What row `r` adds to the total at row `s`. */
  function Share(acc: Accumulate, r: SpineRow, s: SpineRow, x: real): real {
    if InFrame(acc, r, s) then x else 0.0
  }

  /** The total of `v` over the rows of the partition at or before `s`; NULL if none is measured. */
  ghost function RunningTotal(acc: Accumulate, rows: set<SpineRow>, v: SpineRow -> Cell, s: SpineRow): Cell {
    if SumSet(rows, FrameTerm(acc, v, s, true)) == 0.0 then Null
    else Num(SumSet(rows, FrameTerm(acc, v, s, false)))
  }

  ghost function FrameTerm(acc: Accumulate, v: SpineRow -> Cell, s: SpineRow, counting: bool): SpineRow -> real {
    (r: SpineRow) => Share(acc, r, s, Term(counting, v(r)))
  }

  function TemplateValue(e: Expr, values: seq<Cell>): Cell
    requires IsTemplate(e, |values|)
  {
    match e
    case Operand(i) => values[i]
    case Literal(x) => Num(x)
    case Paren(a) => TemplateValue(a, values)
    case Add(a, b) => AddC(TemplateValue(a, values), TemplateValue(b, values))
    case Sub(a, b) => SubC(TemplateValue(a, values), TemplateValue(b, values))
    case Mul(a, b) => MulC(TemplateValue(a, values), TemplateValue(b, values))
    case Div(a, b) => DivC(TemplateValue(a, values), TemplateValue(b, values))
    case Nullif0(a) => NullifC(TemplateValue(a, values))
    case Coalesce(a, b) => CoalesceC(TemplateValue(a, values), TemplateValue(b, values))
    case IfPresent(a, b) => if TemplateValue(a, values).Null? then Null else TemplateValue(b, values)
  }

  /** Which value a leaf column has at a spine row, before any CTE exists. */
  type Look = (SpineRow, LeafRef) -> Cell

  /** One leaf column, row by row. */
  ghost function Reading(look: Look, r: LeafRef): SpineRow -> Cell {
    (s: SpineRow) => look(s, r)
  }

  ghost function Cells(m: MetricPlan, look: Look, s: SpineRow): (r: seq<Cell>)
    ensures |r| == |m.refs|
  {
    Map(m.refs, (r: LeafRef) => look(s, r))
  }

  /** The meaning of a metric plan at spine row `s` of a result with rows `rows`. */
  ghost function Value(m: MetricPlan, rows: set<SpineRow>, look: Look, s: SpineRow): Cell
    requires WellFormed(m)
    decreases m, 1
  {
    if m.combine == Derived then TemplateValue(m.template, Values(m.operands, rows, look, s))
    else if m.accumulate.Some? then RunningTotal(m.accumulate.value, rows, Reading(look, m.refs[0]), s)
    else CombineValue(m.combine, Cells(m, look, s))
  }

  ghost function Values(ms: seq<MetricPlan>, rows: set<SpineRow>, look: Look, s: SpineRow): (r: seq<Cell>)
    requires forall k :: 0 <= k < |ms| ==> WellFormed(ms[k])
    ensures |r| == |ms|
    ensures forall k :: 0 <= k < |ms| ==> r[k] == Value(ms[k], rows, look, s)
    decreases ms, 0
  {
    if ms == [] then [] else [Value(ms[0], rows, look, s)] + Values(ms[1..], rows, look, s)
  }

  // ---------------------------------------------------------------- compilation is correct

  // ---------------------------------------------------------------- ROWS frames

  ghost predicate Within(p: seq<nat>, n: nat) {
    forall a :: 0 <= a < |p| ==> p[a] < n
  }

  /** The listing is an arrangement of all rows that sorts every partition by the emitted keys. Rows
      with equal keys may come in any order. */
  ghost predicate Arranges(p: seq<nat>, rows: seq<SpineRow>, acc: Accumulate, nullsFirst: bool) {
    && NoDup(p) && Within(p, |rows|)
    && (forall k :: 0 <= k < |rows| ==> k in p)
    && (forall a, b :: 0 <= a < b < |p| ==> Precedes(rows, acc, nullsFirst, p[a], p[b]))
  }

  ghost predicate Precedes(rows: seq<SpineRow>, acc: Accumulate, nullsFirst: bool, i: nat, j: nat) {
    i < |rows| && j < |rows| && PartitionOf(acc, rows[i]) == PartitionOf(acc, rows[j]) ==>
      KeysLe(OrderKeys(OrderOf(acc, rows[i])), OrderKeys(OrderOf(acc, rows[j])), nullsFirst)
  }

  /** The engine sorts as SQL asks, with NULLs wherever it puts them by default. */
  ghost predicate Sorts(scan: Scan, nullsFirst: bool) {
    forall acc, rows :: Arranges(scan(acc, rows), rows, acc, nullsFirst)
  }

  ghost predicate IsEngine(scan: Scan) {
    exists nullsFirst :: Sorts(scan, nullsFirst)
  }

  /** Order and partition dimensions together tell any two rows apart. */
  ghost predicate TellsApart(rows: set<SpineRow>, acc: Accumulate) {
    forall r, s :: r in rows && s in rows && Peers(acc, r, s) ==> r == s
  }

  ghost predicate Peers(acc: Accumulate, r: SpineRow, s: SpineRow) {
    OrderOf(acc, r) == OrderOf(acc, s) && PartitionOf(acc, r) == PartitionOf(acc, s)
  }

  /** The windows of these plans are determined: the engine sorts, and no two rows are peers. */
  ghost predicate Windowed(scan: Scan, t: seq<Joined>, plans: seq<MetricPlan>) {
    && IsEngine(scan)
    && forall p :: p in plans && p.accumulate.Some? ==> TellsApart(Elems(RowsOf(t)), p.accumulate.value)
  }

  /** Position `m` of the arrangement is row `i`: the rows of its partition up to there are its frame,
      and no later row is. */
  ghost predicate FrameEnds(p: seq<nat>, rows: seq<SpineRow>, acc: Accumulate, i: nat, m: nat) {
    && i < |rows| && m < |p| && p[m] == i && NoDup(p) && Within(p, |rows|)
    && (forall a :: 0 <= a <= m ==> InsideIsFrame(rows, acc, p[a], i))
    && (forall a :: m < a < |p| ==> Outside(rows, acc, p[a], i))
  }

  ghost predicate InsideIsFrame(rows: seq<SpineRow>, acc: Accumulate, j: nat, i: nat) {
    && i < |rows| && j < |rows|
    && (PartitionOf(acc, rows[j]) == PartitionOf(acc, rows[i]) <==> InFrame(acc, rows[j], rows[i]))
  }

  ghost predicate Outside(rows: seq<SpineRow>, acc: Accumulate, j: nat, i: nat) {
    i < |rows| && j < |rows| && !InFrame(acc, rows[j], rows[i])
  }

  /** Whatever arrangement the engine scans, a ROWS frame is the set of rows of the partition at or
      before the current one: the frame is deterministic. */
  lemma {:induction false} RowsFrameIsDeterministic(p: seq<nat>, rows: seq<SpineRow>, acc: Accumulate,
                                                    nullsFirst: bool, i: nat) returns (m: nat)
    requires Arranges(p, rows, acc, nullsFirst) && NoDup(rows) && TellsApart(Elems(rows), acc) && i < |rows|
    ensures FrameEnds(p, rows, acc, i, m)
  {
    assert i in p;
    m :| 0 <= m < |p| && p[m] == i;
    forall a | 0 <= a <= m
      ensures InsideIsFrame(rows, acc, p[a], i)
    {
      if a < m {
        assert Precedes(rows, acc, nullsFirst, p[a], p[m]);
        OrderKeysSortNullsLast(OrderOf(acc, rows[p[a]]), OrderOf(acc, rows[i]), nullsFirst);
      } else {
        TupleLeReflexive(OrderOf(acc, rows[i]));
      }
    }
    forall a | m < a < |p|
      ensures Outside(rows, acc, p[a], i)
    {
      assert Precedes(rows, acc, nullsFirst, p[m], p[a]);
      LaterIsOutside(rows, acc, nullsFirst, i, p[a]);
    }
  }

  lemma {:induction false} LaterIsOutside(rows: seq<SpineRow>, acc: Accumulate, nullsFirst: bool, i: nat, j: nat)
    requires i < |rows| && j < |rows| && i != j && NoDup(rows) && TellsApart(Elems(rows), acc)
    requires Precedes(rows, acc, nullsFirst, i, j)
    ensures Outside(rows, acc, j, i)
  {
    assert rows[i] in Elems(rows) && rows[j] in Elems(rows);
    OrderKeysSortNullsLast(OrderOf(acc, rows[i]), OrderOf(acc, rows[j]), nullsFirst);
    if TupleLe(OrderOf(acc, rows[i]), OrderOf(acc, rows[j])) && TupleLe(OrderOf(acc, rows[j]), OrderOf(acc, rows[i])) {
      TupleLeAntisymmetric(OrderOf(acc, rows[i]), OrderOf(acc, rows[j]));
      assert Peers(acc, rows[i], rows[j]) || PartitionOf(acc, rows[i]) != PartitionOf(acc, rows[j]);
    }
  }

  // ---------------------------------------------------------------- serving references

  /** The joined rows list every spine row once and serve every reference of the plan. */
  ghost predicate Serves(ctes: seq<Cte>, t: seq<Joined>, owner: seq<nat>, look: Look, refs: set<LeafRef>) {
    && NoDup(RowsOf(t))
    && forall i, r :: 0 <= i < |t| && r in refs ==> Fetch(ctes, t[i], owner, r) == look(t[i].row, r)
  }

  ghost function Fetch(ctes: seq<Cte>, j: Joined, owner: seq<nat>, r: LeafRef): Cell {
    ColumnCell(ctes, j, if r.leaf < |owner| then owner[r.leaf] else 0, r.column)
  }

  ghost function RefsOf(m: MetricPlan): set<LeafRef>
    decreases m, 1
  {
    Elems(m.refs) + RefsOfAll(m.operands)
  }

  ghost function RefsOfAll(ms: seq<MetricPlan>): (s: set<LeafRef>)
    ensures forall k, r :: 0 <= k < |ms| && r in RefsOf(ms[k]) ==> r in s
    decreases ms, 0
  {
    if ms == [] then {} else RefsOf(ms[0]) + RefsOfAll(ms[1..])
  }

  /** The emitted expression evaluates to the metric's meaning on every joined row. */
  lemma {:induction false} MetricValueCorrect(m: MetricPlan, ctes: seq<Cte>, t: seq<Joined>, scan: Scan,
      owner: seq<nat>, look: Look, i: nat)
    requires WellFormed(m) && i < |t|
    requires Serves(ctes, t, owner, look, RefsOf(m)) && Windowed(scan, t, Walk(m))
    ensures Eval(MetricValue(m, owner), ctes, t, scan, i) == Value(m, Elems(RowsOf(t)), look, t[i].row)
    decreases m, 1
  {
    if m.combine == Derived {
      OperandsCorrect(m, ctes, t, scan, owner, look, i);
      SubstituteCorrect(m.template, MetricValues(m.operands, owner),
                        Values(m.operands, Elems(RowsOf(t)), look, t[i].row), ctes, t, scan, i);
    } else if m.accumulate.Some? {
      WindowCorrect(m, ctes, t, scan, owner, look, i);
    } else {
      ColumnsCorrect(m, ctes, t, scan, owner, look, i);
      assert Cells(m, look, t[i].row)[0] == look(t[i].row, m.refs[0]);
      assert m.combine != Direct ==> Cells(m, look, t[i].row)[1] == look(t[i].row, m.refs[1]);
      CombineCorrect(m.combine, ColumnsOf(m, owner), Cells(m, look, t[i].row), ctes, t, scan, i);
    }
  }

  lemma {:induction false} OperandsCorrect(m: MetricPlan, ctes: seq<Cte>, t: seq<Joined>, scan: Scan, owner: seq<nat>,
      look: Look, i: nat)
    requires WellFormed(m) && i < |t|
    requires Serves(ctes, t, owner, look, RefsOf(m)) && Windowed(scan, t, Walk(m))
    ensures forall k :: 0 <= k < |m.operands| ==>
      Eval(MetricValues(m.operands, owner)[k], ctes, t, scan, i)
          == Values(m.operands, Elems(RowsOf(t)), look, t[i].row)[k]
    decreases m, 0
  {
    forall k | 0 <= k < |m.operands|
      ensures Eval(MetricValues(m.operands, owner)[k], ctes, t, scan, i)
          == Values(m.operands, Elems(RowsOf(t)), look, t[i].row)[k]
    {
      assert forall r :: r in RefsOf(m.operands[k]) ==> r in RefsOf(m);
      assert forall p :: p in Walk(m.operands[k]) ==> p in Walk(m);
      MetricValueCorrect(m.operands[k], ctes, t, scan, owner, look, i);
    }
  }

  lemma {:induction false} CombineCorrect(c: Combine, columns: seq<Expr>, cells: seq<Cell>, ctes: seq<Cte>,
      t: seq<Joined>, scan: Scan, i: nat)
    requires i < |t| && c != Derived
    requires |columns| == |cells| == if c == Direct then 1 else 2
    requires forall k :: 0 <= k < |columns| ==> Eval(columns[k], ctes, t, scan, i) == cells[k]
    ensures Eval(CombineExpr(c, columns), ctes, t, scan, i) == CombineValue(c, cells)
  {
    if c != Direct {
      var n, d := columns[0], columns[1];
      assert Eval(Nullif0(d), ctes, t, scan, i) == NullifC(cells[1]);
      assert Eval(Div(n, Nullif0(d)), ctes, t, scan, i) == DivC(cells[0], NullifC(cells[1]));
    }
  }

  lemma {:induction false} ColumnsCorrect(m: MetricPlan, ctes: seq<Cte>, t: seq<Joined>, scan: Scan, owner: seq<nat>,
      look: Look, i: nat)
    requires i < |t|
    requires Serves(ctes, t, owner, look, RefsOf(m))
    ensures forall k ::
      0 <= k < |m.refs| ==> Eval(ColumnsOf(m, owner)[k], ctes, t, scan, i) == look(t[i].row, m.refs[k])
  {
    forall k | 0 <= k < |m.refs|
      ensures Eval(ColumnsOf(m, owner)[k], ctes, t, scan, i) == look(t[i].row, m.refs[k])
    {
      assert m.refs[k] in RefsOf(m);
      assert Fetch(ctes, t[i], owner, m.refs[k]) == look(t[i].row, m.refs[k]);
    }
  }

  /** Substituting placeholders and then evaluating is evaluating the template on the inputs. */
  lemma {:induction false} SubstituteCorrect(e: Expr, exprs: seq<Expr>, values: seq<Cell>, ctes: seq<Cte>,
      t: seq<Joined>, scan: Scan, i: nat)
    requires i < |t| && |exprs| == |values| && IsTemplate(e, |values|)
    requires forall k :: 0 <= k < |exprs| ==> Eval(exprs[k], ctes, t, scan, i) == values[k]
    ensures Eval(Substitute(e, exprs), ctes, t, scan, i) == TemplateValue(e, values)
    decreases e
  {
    match e
    case Operand(_) =>
    case Literal(_) =>
    case Paren(a) => SubstituteCorrect(a, exprs, values, ctes, t, scan, i);
    case Nullif0(a) => SubstituteCorrect(a, exprs, values, ctes, t, scan, i);
    case Add(a, b) =>
      SubstituteCorrect(a, exprs, values, ctes, t, scan, i);
      SubstituteCorrect(b, exprs, values, ctes, t, scan, i);
    case Sub(a, b) =>
      SubstituteCorrect(a, exprs, values, ctes, t, scan, i);
      SubstituteCorrect(b, exprs, values, ctes, t, scan, i);
    case Mul(a, b) =>
      SubstituteCorrect(a, exprs, values, ctes, t, scan, i);
      SubstituteCorrect(b, exprs, values, ctes, t, scan, i);
    case Div(a, b) =>
      SubstituteCorrect(a, exprs, values, ctes, t, scan, i);
      SubstituteCorrect(b, exprs, values, ctes, t, scan, i);
    case Coalesce(a, b) =>
      SubstituteCorrect(a, exprs, values, ctes, t, scan, i);
      SubstituteCorrect(b, exprs, values, ctes, t, scan, i);
    case IfPresent(a, b) =>
      SubstituteCorrect(a, exprs, values, ctes, t, scan, i);
      SubstituteCorrect(b, exprs, values, ctes, t, scan, i);
  }

  lemma {:induction false} WindowCorrect(m: MetricPlan, ctes: seq<Cte>, t: seq<Joined>, scan: Scan, owner: seq<nat>,
      look: Look, i: nat)
    requires WellFormed(m) && m.accumulate.Some? && i < |t|
    requires Serves(ctes, t, owner, look, RefsOf(m)) && Windowed(scan, t, Walk(m))
    ensures Eval(MetricValue(m, owner), ctes, t, scan, i) == Value(m, Elems(RowsOf(t)), look, t[i].row)
  {
    var acc := m.accumulate.value;
    var e := ColumnsOf(m, owner)[0];
    var v := Reading(look, m.refs[0]);
    forall j | 0 <= j < |t|
      ensures Eval(e, ctes, t, scan, j) == v(t[j].row)
    {
      ColumnsCorrect(m, ctes, t, scan, owner, look, j);
    }
    var nullsFirst :| Sorts(scan, nullsFirst);
    AccumulateCorrect(e, ctes, t, scan, nullsFirst, i, acc, v);
  }

  /** The emitted window expression is the running total over the set of result rows, whatever
      arrangement the engine scans. */
  lemma {:induction false} AccumulateCorrect(e: Expr, ctes: seq<Cte>, t: seq<Joined>, scan: Scan, nullsFirst: bool,
      i: nat, acc: Accumulate, v: SpineRow -> Cell)
    requires i < |t| && NoDup(RowsOf(t)) && Sorts(scan, nullsFirst) && TellsApart(Elems(RowsOf(t)), acc)
    requires forall j :: 0 <= j < |t| ==> Eval(e, ctes, t, scan, j) == v(t[j].row)
    ensures Eval(AccumulateExpr(acc, e), ctes, t, scan, i) == RunningTotal(acc, Elems(RowsOf(t)), v, t[i].row)
  {
    var zero := Coalesce(e, Literal(0.0));
    forall j | 0 <= j < |t|
      ensures Term(true, Eval(e, ctes, t, scan, j)) == Term(true, v(t[j].row))
      ensures Term(false, Eval(zero, ctes, t, scan, j)) == Term(false, v(t[j].row))
    {
      assert Eval(zero, ctes, t, scan, j) == CoalesceC(Eval(e, ctes, t, scan, j), Num(0.0));
    }
    WindowSum(e, ctes, t, scan, nullsFirst, i, acc, true, v);
    WindowSum(zero, ctes, t, scan, nullsFirst, i, acc, false, v);
    WindowUnfolds(e, ctes, t, scan, i, acc);
    WindowUnfolds(zero, ctes, t, scan, i, acc);
  }

  lemma {:induction false} WindowUnfolds(e: Expr, ctes: seq<Cte>, t: seq<Joined>, scan: Scan, i: nat, acc: Accumulate)
    requires i < |t|
    ensures Eval(CountOver(acc, e), ctes, t, scan, i)
        == Num(OverRows(e, ctes, t, scan, i, acc, true, scan(acc, RowsOf(t))))
    ensures Eval(SumOver(acc, e), ctes, t, scan, i)
        == Num(OverRows(e, ctes, t, scan, i, acc, false, scan(acc, RowsOf(t))))
  {
  }

  /** A window aggregate over the joined rows is the sum over the set of spine rows in the frame. */
  lemma {:induction false} WindowSum(e: Expr, ctes: seq<Cte>, t: seq<Joined>, scan: Scan, nullsFirst: bool, i: nat,
      acc: Accumulate, counting: bool, v: SpineRow -> Cell)
    requires i < |t| && NoDup(RowsOf(t)) && Sorts(scan, nullsFirst) && TellsApart(Elems(RowsOf(t)), acc)
    requires forall j :: 0 <= j < |t| ==> Term(counting, Eval(e, ctes, t, scan, j)) == Term(counting, v(t[j].row))
    ensures OverRows(e, ctes, t, scan, i, acc, counting, scan(acc, RowsOf(t)))
         == SumSet(Elems(RowsOf(t)), FrameTerm(acc, v, t[i].row, counting))
  {
    var rows, p := RowsOf(t), scan(acc, RowsOf(t));
    var f := FrameTerm(acc, v, t[i].row, counting);
    assert Arranges(p, rows, acc, nullsFirst);
    var m := RowsFrameIsDeterministic(p, rows, acc, nullsFirst, i);
    FrameSum(e, ctes, t, scan, i, acc, counting, v, p, m);
    ScannedOnce(p, rows);
    SumSeqIsSumSet(Scanned(p, rows), f);
  }

  /** The rows in scanning order. */
  ghost function Scanned(p: seq<nat>, rows: seq<SpineRow>): (r: seq<SpineRow>)
    requires Within(p, |rows|)
    ensures |r| == |p| && forall a :: 0 <= a < |p| ==> r[a] == rows[p[a]]
  {
    seq(|p|, a requires 0 <= a < |p| => rows[p[a]])
  }

  lemma {:induction false} ScannedOnce(p: seq<nat>, rows: seq<SpineRow>)
    requires NoDup(p) && NoDup(rows) && Within(p, |rows|) && forall k :: 0 <= k < |rows| ==> k in p
    ensures NoDup(Scanned(p, rows)) && Elems(Scanned(p, rows)) == Elems(rows)
  {
    var all := Scanned(p, rows);
    forall a, b | 0 <= a < b < |all|
      ensures all[a] != all[b]
    {
      assert p[a] != p[b] && p[a] < |rows| && p[b] < |rows|;
    }
    forall r | r in rows
      ensures r in all
    {
      var k :| 0 <= k < |rows| && rows[k] == r;
      assert k in p;
      var a :| 0 <= a < |p| && p[a] == k;
      assert all[a] == r;
    }
    forall r | r in all
      ensures r in rows
    {
      var a :| 0 <= a < |all| && all[a] == r;
      assert p[a] < |rows|;
    }
  }

  lemma {:induction false} FrameSum(e: Expr, ctes: seq<Cte>, t: seq<Joined>, scan: Scan, i: nat, acc: Accumulate,
                                    counting: bool, v: SpineRow -> Cell, p: seq<nat>, m: nat)
    requires FrameEnds(p, RowsOf(t), acc, i, m)
    requires forall j :: 0 <= j < |t| ==> Term(counting, Eval(e, ctes, t, scan, j)) == Term(counting, v(t[j].row))
    ensures OverRows(e, ctes, t, scan, i, acc, counting, p)
         == SumSeq(Scanned(p, RowsOf(t)), FrameTerm(acc, v, t[i].row, counting))
    decreases |p|
  {
    var rows := RowsOf(t);
    WithinRest(p, rows);
    assert InsideIsFrame(rows, acc, p[0], i);
    OverRowsStep(e, ctes, t, scan, i, acc, counting, p);
    FrameShare(rows, acc, p[0], i, v, counting);
    if m == 0 {
      NothingLater(p, rows, acc, i, v, counting);
    } else {
      assert p[0] != p[m];
      FrameEndsLater(p, rows, acc, i, m);
      FrameSum(e, ctes, t, scan, i, acc, counting, v, p[1..], m - 1);
    }
  }

  lemma {:induction false} OverRowsStep(e: Expr, ctes: seq<Cte>, t: seq<Joined>, scan: Scan, i: nat, acc: Accumulate,
                                        counting: bool, p: seq<nat>)
    requires i < |t| && p != [] && p[0] < |t|
    ensures OverRows(e, ctes, t, scan, i, acc, counting, p)
         == (if PartitionOf(acc, RowsOf(t)[p[0]]) == PartitionOf(acc, t[i].row)
             then Term(counting, Eval(e, ctes, t, scan, p[0])) else 0.0)
          + (if p[0] == i then 0.0 else OverRows(e, ctes, t, scan, i, acc, counting, p[1..]))
  {
  }

  lemma {:induction false} FrameShare(rows: seq<SpineRow>, acc: Accumulate, j: nat, i: nat, v: SpineRow -> Cell,
      counting: bool)
    requires InsideIsFrame(rows, acc, j, i)
    ensures FrameTerm(acc, v, rows[i], counting)(rows[j])
         == if PartitionOf(acc, rows[j]) == PartitionOf(acc, rows[i]) then Term(counting, v(rows[j])) else 0.0
  {
  }

  lemma {:induction false} NothingLater(p: seq<nat>, rows: seq<SpineRow>, acc: Accumulate, i: nat,
      v: SpineRow -> Cell, counting: bool)
    requires FrameEnds(p, rows, acc, i, 0) && Within(p[1..], |rows|)
    ensures SumSeq(Scanned(p[1..], rows), FrameTerm(acc, v, rows[i], counting)) == 0.0
  {
    var rest := Scanned(p[1..], rows);
    forall r | r in rest
      ensures FrameTerm(acc, v, rows[i], counting)(r) == 0.0
    {
      var a :| 0 <= a < |rest| && rest[a] == r;
      assert Outside(rows, acc, p[a + 1], i);
    }
    SumNothing(rest, FrameTerm(acc, v, rows[i], counting));
  }

  lemma {:induction false} WithinRest(p: seq<nat>, rows: seq<SpineRow>)
    requires p != [] && Within(p, |rows|)
    ensures p[0] < |rows| && Within(p[1..], |rows|)
    ensures Scanned(p, rows) == [rows[p[0]]] + Scanned(p[1..], rows)
  {
  }

  lemma {:induction false} FrameEndsLater(p: seq<nat>, rows: seq<SpineRow>, acc: Accumulate, i: nat, m: nat)
    requires FrameEnds(p, rows, acc, i, m) && m > 0
    ensures FrameEnds(p[1..], rows, acc, i, m - 1)
  {
    var q := p[1..];
    assert forall a :: 0 <= a < |q| ==> q[a] == p[a + 1];
    forall a | 0 <= a <= m - 1
      ensures InsideIsFrame(rows, acc, q[a], i)
    {
      assert InsideIsFrame(rows, acc, p[a + 1], i);
    }
    forall a | m - 1 < a < |q|
      ensures Outside(rows, acc, q[a], i)
    {
      assert Outside(rows, acc, p[a + 1], i);
    }
  }
}
