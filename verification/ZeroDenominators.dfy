/** Accounting for divisions whose zero denominator is replaced instead of raised. */
module ZeroDenominators {
  import opened Relational
  import opened Plans
  import opened Semantics

  // ---------------------------------------------------------------- policies

  /** Policy of the divisions the metric itself performs, if any. */
  function Policy(m: MetricPlan): Option<Combine> {
    if m.accumulate.Some? then None
    else if m.combine == Derived then m.division
    else if m.combine == Direct then None
    else Some(m.combine)
  }

  predicate Substitutes(m: MetricPlan) {
    Policy(m) in {Some(RatioNull), Some(RatioZero)}
  }

  predicate Nulls(m: MetricPlan) {
    exists p :: p in Walk(m) && Policy(p) == Some(RatioNull)
  }

  /** Whether the result carries a column that counts the metric's zero denominators. */
  predicate Counts(m: MetricPlan) {
    Substitutes(m) || Nulls(m)
  }

  /** `e` with every division, nested ones included, under the policy `c`. */
  function Guarded(e: Expr, c: Combine): Expr {
    match e
    case Div(a, b) => GuardDivision(Guarded(a, c), Guarded(b, c), c)
    case Paren(a) => Paren(Guarded(a, c))
    case Add(a, b) => Add(Guarded(a, c), Guarded(b, c))
    case Sub(a, b) => Sub(Guarded(a, c), Guarded(b, c))
    case Mul(a, b) => Mul(Guarded(a, c), Guarded(b, c))
    case Nullif0(a) => Nullif0(Guarded(a, c))
    case Coalesce(a, b) => Coalesce(Guarded(a, c), Guarded(b, c))
    case IfPresent(a, b) => IfPresent(Guarded(a, c), Guarded(b, c))
    case _ => e
  }

  // ---------------------------------------------------------------- denominators

  /** What every guarded division of a template divides by. */
  function GuardedDenominators(e: Expr): seq<Expr> {
    match e
    case Div(a, b) => (if b.Nullif0? then [b.e] else []) + GuardedDenominators(a) + GuardedDenominators(b)
    case Paren(a) => GuardedDenominators(a)
    case Nullif0(a) => GuardedDenominators(a)
    case Add(a, b) => GuardedDenominators(a) + GuardedDenominators(b)
    case Sub(a, b) => GuardedDenominators(a) + GuardedDenominators(b)
    case Mul(a, b) => GuardedDenominators(a) + GuardedDenominators(b)
    case Coalesce(a, b) => GuardedDenominators(a) + GuardedDenominators(b)
    case IfPresent(a, b) => GuardedDenominators(a) + GuardedDenominators(b)
    case _ => []
  }

  /** The denominators of the divisions the metric itself performs, as output expressions. */
  function Denominators(m: MetricPlan, owner: seq<nat>): seq<Expr>
    requires WellFormed(m) && Policy(m).Some?
  {
    if m.combine != Derived then [ColumnsOf(m, owner)[1]]
    else Map(GuardedDenominators(m.template), (d: Expr) => Substitute(d, MetricValues(m.operands, owner)))
  }

  /** The denominators, over a walk, of every plan that turns a zero into NULL. */
  function NullingDenominators(plans: seq<MetricPlan>, owner: seq<nat>): seq<Expr>
    requires forall p :: p in plans ==> WellFormed(p)
  {
    if plans == [] then []
    else (if Policy(plans[0]) == Some(RatioNull) then Denominators(plans[0], owner) else [])
         + NullingDenominators(plans[1..], owner)
  }

  /** The metric's own denominators, and those of every input that turns zero into NULL. */
  function CountedDenominators(m: MetricPlan, owner: seq<nat>): seq<Expr>
    requires WellFormed(m)
  {
    WalkWellFormed(m);
    (if Substitutes(m) then Denominators(m, owner) else []) + NullingDenominators(WalkAll(m.operands), owner)
  }

  lemma {:induction false} WalkWellFormed(m: MetricPlan)
    requires WellFormed(m)
    ensures forall p :: p in Walk(m) ==> WellFormed(p)
    ensures forall p :: p in WalkAll(m.operands) ==> WellFormed(p)
    decreases m, 1
  {
    WalkAllWellFormed(m.operands);
  }

  lemma {:induction false} WalkAllWellFormed(ms: seq<MetricPlan>)
    requires forall k :: 0 <= k < |ms| ==> WellFormed(ms[k])
    ensures forall p :: p in WalkAll(ms) ==> WellFormed(p)
    decreases ms, 0
  {
    if ms != [] {
      WalkWellFormed(ms[0]);
      WalkAllWellFormed(ms[1..]);
    }
  }

  /** `d1 = 0 OR d2 = 0 OR ...` in three-valued logic. */
  function AnyZero(cells: seq<Cell>): Truth {
    if cells == [] then False
    else Or3(if cells[0].Null? then Unknown else Bool3(cells[0].x == 0.0), AnyZero(cells[1..]))
  }

  /** CASE WHEN d1 = 0 OR ... THEN 1 ELSE 0 END. */
  function Flag(cells: seq<Cell>): Cell {
    if AnyZero(cells) == True then Num(1.0) else Num(0.0)
  }

  /** A NULL denominator neither raises the flag nor hides another denominator's zero. */
  lemma {:induction false} FlagMeansZero(cells: seq<Cell>)
    ensures Flag(cells) == Num(1.0) <==> Num(0.0) in cells
  {
    if cells != [] {
      assert cells == [cells[0]] + cells[1..];
      FlagMeansZero(cells[1..]);
    }
  }

  // ---------------------------------------------------------------- denominators by value

  lemma {:induction false} DenominatorsAreTemplates(e: Expr, n: nat)
    requires IsTemplate(e, n)
    ensures forall d :: d in GuardedDenominators(e) ==> IsTemplate(d, n)
  {
    match e
    case Div(a, b) => DenominatorsAreTemplates(a, n); DenominatorsAreTemplates(b, n);
    case Paren(a) => DenominatorsAreTemplates(a, n);
    case Nullif0(a) => DenominatorsAreTemplates(a, n);
    case Add(a, b) => DenominatorsAreTemplates(a, n); DenominatorsAreTemplates(b, n);
    case Sub(a, b) => DenominatorsAreTemplates(a, n); DenominatorsAreTemplates(b, n);
    case Mul(a, b) => DenominatorsAreTemplates(a, n); DenominatorsAreTemplates(b, n);
    case Coalesce(a, b) => DenominatorsAreTemplates(a, n); DenominatorsAreTemplates(b, n);
    case IfPresent(a, b) => DenominatorsAreTemplates(a, n); DenominatorsAreTemplates(b, n);
    case _ =>
  }

  /** What the metric's own divisions divide by at spine row `s`. */
  ghost function DenominatorValues(m: MetricPlan, rows: set<SpineRow>, look: Look, s: SpineRow): seq<Cell>
    requires WellFormed(m) && Policy(m).Some?
  {
    if m.combine != Derived then [look(s, m.refs[1])]
    else
      DenominatorsAreTemplates(m.template, |m.operands|);
      TemplateValues(GuardedDenominators(m.template), Values(m.operands, rows, look, s))
  }

  ghost function TemplateValues(es: seq<Expr>, values: seq<Cell>): (r: seq<Cell>)
    requires forall e :: e in es ==> IsTemplate(e, |values|)
    ensures |r| == |es|
    ensures forall k :: 0 <= k < |es| ==> r[k] == TemplateValue(es[k], values)
  {
    seq(|es|, k requires 0 <= k < |es| => TemplateValue(es[k], values))
  }

  ghost function NullingValues(plans: seq<MetricPlan>, rows: set<SpineRow>, look: Look, s: SpineRow): seq<Cell>
    requires forall p :: p in plans ==> WellFormed(p)
  {
    if plans == [] then []
    else (if Policy(plans[0]) == Some(RatioNull) then DenominatorValues(plans[0], rows, look, s) else [])
         + NullingValues(plans[1..], rows, look, s)
  }

  ghost function CountedValues(m: MetricPlan, rows: set<SpineRow>, look: Look, s: SpineRow): seq<Cell>
    requires WellFormed(m)
  {
    WalkWellFormed(m);
    (if Substitutes(m) then DenominatorValues(m, rows, look, s) else [])
    + NullingValues(WalkAll(m.operands), rows, look, s)
  }

  // ---------------------------------------------------------------- the emitted flag column

  function Evals(es: seq<Expr>, ctes: seq<Cte>, t: seq<Joined>, scan: Scan, i: nat): (r: seq<Cell>)
    requires i < |t|
    ensures |r| == |es|
    ensures forall k :: 0 <= k < |es| ==> r[k] == Eval(es[k], ctes, t, scan, i)
  {
    seq(|es|, k requires 0 <= k < |es| => Eval(es[k], ctes, t, scan, i))
  }

  lemma {:induction false} DenominatorsCorrect(m: MetricPlan, ctes: seq<Cte>, t: seq<Joined>, scan: Scan,
      owner: seq<nat>, look: Look, i: nat)
    requires WellFormed(m) && Policy(m).Some? && i < |t|
    requires Serves(ctes, t, owner, look, RefsOf(m)) && Windowed(scan, t, Walk(m))
    ensures Evals(Denominators(m, owner), ctes, t, scan, i) == DenominatorValues(m, Elems(RowsOf(t)), look, t[i].row)
  {
    if m.combine != Derived {
      ColumnsCorrect(m, ctes, t, scan, owner, look, i);
    } else {
      var exprs := MetricValues(m.operands, owner);
      var values := Values(m.operands, Elems(RowsOf(t)), look, t[i].row);
      OperandsCorrect(m, ctes, t, scan, owner, look, i);
      DenominatorsAreTemplates(m.template, |m.operands|);
      var ds := GuardedDenominators(m.template);
      forall k | 0 <= k < |ds|
        ensures Eval(Substitute(ds[k], exprs), ctes, t, scan, i) == TemplateValue(ds[k], values)
      {
        assert ds[k] in ds;
        SubstituteCorrect(ds[k], exprs, values, ctes, t, scan, i);
      }
    }
  }

  lemma {:induction false} NullingCorrect(plans: seq<MetricPlan>, ctes: seq<Cte>, t: seq<Joined>, scan: Scan,
      owner: seq<nat>, look: Look, refs: set<LeafRef>, i: nat)
    requires forall p :: p in plans ==> WellFormed(p) && RefsOf(p) <= refs
    requires i < |t| && Serves(ctes, t, owner, look, refs)
    requires forall p :: p in plans ==> Windowed(scan, t, Walk(p))
    ensures Evals(NullingDenominators(plans, owner), ctes, t, scan, i)
        == NullingValues(plans, Elems(RowsOf(t)), look, t[i].row)
  {
    if plans != [] {
      NullingCorrect(plans[1..], ctes, t, scan, owner, look, refs, i);
      if Policy(plans[0]) == Some(RatioNull) {
        assert plans[0] in plans;
        DenominatorsCorrect(plans[0], ctes, t, scan, owner, look, i);
        EvalsAppend(Denominators(plans[0], owner), NullingDenominators(plans[1..], owner), ctes, t, scan, i);
      } else {
        assert [] + NullingDenominators(plans[1..], owner) == NullingDenominators(plans[1..], owner);
      }
    }
  }

  lemma {:induction false} EvalsAppend(a: seq<Expr>, b: seq<Expr>, ctes: seq<Cte>, t: seq<Joined>, scan: Scan, i: nat)
    requires i < |t|
    ensures Evals(a + b, ctes, t, scan, i) == Evals(a, ctes, t, scan, i) + Evals(b, ctes, t, scan, i)
  {
  }

  lemma {:induction false} WalkRefs(m: MetricPlan)
    ensures forall p :: p in Walk(m) ==> RefsOf(p) <= RefsOf(m)
    ensures forall p :: p in WalkAll(m.operands) ==> RefsOf(p) <= RefsOf(m)
    decreases m, 1
  {
    WalkAllRefs(m.operands);
  }

  lemma {:induction false} WalkAllRefs(ms: seq<MetricPlan>)
    ensures forall p :: p in WalkAll(ms) ==> RefsOf(p) <= RefsOfAll(ms)
    decreases ms, 0
  {
    if ms != [] {
      WalkRefs(ms[0]);
      WalkAllRefs(ms[1..]);
    }
  }

  /** The emitted denominators evaluate to what the metric divides by. */
  lemma {:induction false} CountedCorrect(m: MetricPlan, ctes: seq<Cte>, t: seq<Joined>, scan: Scan, owner: seq<nat>,
      look: Look, i: nat)
    requires WellFormed(m) && i < |t|
    requires Serves(ctes, t, owner, look, RefsOf(m)) && Windowed(scan, t, Walk(m))
    ensures Evals(CountedDenominators(m, owner), ctes, t, scan, i) == CountedValues(m, Elems(RowsOf(t)), look, t[i].row)
  {
    WalkWellFormed(m);
    WalkRefs(m);
    WalkNests(m);
    NullingCorrect(WalkAll(m.operands), ctes, t, scan, owner, look, RefsOf(m), i);
    if Substitutes(m) {
      DenominatorsCorrect(m, ctes, t, scan, owner, look, i);
      EvalsAppend(Denominators(m, owner), NullingDenominators(WalkAll(m.operands), owner), ctes, t, scan, i);
    } else {
      assert [] + NullingDenominators(WalkAll(m.operands), owner) == NullingDenominators(WalkAll(m.operands), owner);
    }
  }

  // ---------------------------------------------------------------- no uncounted NULL

  /** Arithmetic as the contract author writes it: no NULLIF of its own. */
  predicate IsArithmetic(e: Expr, inputs: nat) {
    match e
    case Operand(i) => i < inputs
    case Literal(_) => true
    case Paren(a) => IsArithmetic(a, inputs)
    case Add(a, b) => IsArithmetic(a, inputs) && IsArithmetic(b, inputs)
    case Sub(a, b) => IsArithmetic(a, inputs) && IsArithmetic(b, inputs)
    case Mul(a, b) => IsArithmetic(a, inputs) && IsArithmetic(b, inputs)
    case Div(a, b) => IsArithmetic(a, inputs) && IsArithmetic(b, inputs)
    case Coalesce(a, b) => IsArithmetic(a, inputs) && IsArithmetic(b, inputs)
    case IfPresent(a, b) => IsArithmetic(a, inputs) && IsArithmetic(b, inputs)
    case _ => false
  }

  predicate Divides(e: Expr) {
    match e
    case Div(_, _) => true
    case Paren(a) => Divides(a)
    case Nullif0(a) => Divides(a)
    case Add(a, b) => Divides(a) || Divides(b)
    case Sub(a, b) => Divides(a) || Divides(b)
    case Mul(a, b) => Divides(a) || Divides(b)
    case Coalesce(a, b) => Divides(a) || Divides(b)
    case IfPresent(a, b) => Divides(a) || Divides(b)
    case _ => false
  }

  /** The template and division policy a derived or conversion metric is planned with. */
  ghost predicate PlannedFrom(m: MetricPlan, raw: Expr, c: Combine) {
    && IsArithmetic(raw, |m.operands|)
    && m.template == Guarded(raw, c)
    && m.division == (if Divides(raw) then Some(c) else None)
    && c in {RatioNull, RatioZero}
  }

  /** Nowhere in the tree a running total or a division that is left to the engine. */
  ghost predicate Replacing(m: MetricPlan)
    decreases m
  {
    && m.accumulate.None? && m.combine != RatioRaw
    && (m.combine == Derived ==> exists raw, c :: PlannedFrom(m, raw, c))
    && forall k :: 0 <= k < |m.operands| ==> Replacing(m.operands[k])
  }

  /** A NULL in guarded arithmetic comes from a NULL input or, under the NULL policy, from a
      denominator that is exactly zero. */
  lemma {:induction false} NullHasACause(e: Expr, c: Combine, values: seq<Cell>)
    requires IsArithmetic(e, |values|) && c in {RatioNull, RatioZero}
    requires IsTemplate(Guarded(e, c), |values|)
    requires TemplateValue(Guarded(e, c), values) == Null
    ensures Null in values || (c == RatioNull && Divides(e) && ZeroAmong(Guarded(e, c), values))
    decreases e
  {
    if Null !in values {
      match e
      case Operand(_) =>
      case Literal(_) =>
      case Paren(a) => NullHasACause(a, c, values);
      case Add(a, b) =>
        if TemplateValue(Guarded(a, c), values) == Null {
          NullHasACause(a, c, values);
        } else {
          NullHasACause(b, c, values);
        }
      case Sub(a, b) =>
        if TemplateValue(Guarded(a, c), values) == Null {
          NullHasACause(a, c, values);
        } else {
          NullHasACause(b, c, values);
        }
      case Mul(a, b) =>
        if TemplateValue(Guarded(a, c), values) == Null {
          NullHasACause(a, c, values);
        } else {
          NullHasACause(b, c, values);
        }
      case IfPresent(a, b) =>
        if TemplateValue(Guarded(a, c), values) == Null {
          NullHasACause(a, c, values);
        } else {
          NullHasACause(b, c, values);
        }
      case Coalesce(a, b) => NullHasACause(b, c, values);
      case Div(a, b) => NullQuotient(a, b, c, values);
    }
  }

  /** Under the zero policy a quotient is never NULL. */
  lemma {:induction false} ZeroQuotient(a: Expr, b: Expr, values: seq<Cell>)
    requires IsTemplate(Guarded(Div(a, b), RatioZero), |values|)
    ensures TemplateValue(Guarded(Div(a, b), RatioZero), values).Num?
  {
    assert TemplateValue(Literal(0.0), values) == Num(0.0);
  }

  lemma {:induction false} NullQuotient(a: Expr, b: Expr, c: Combine, values: seq<Cell>)
    requires IsArithmetic(a, |values|) && IsArithmetic(b, |values|) && c in {RatioNull, RatioZero}
    requires IsTemplate(Guarded(Div(a, b), c), |values|)
    requires TemplateValue(Guarded(Div(a, b), c), values) == Null
    requires Null !in values
    ensures c == RatioNull && ZeroAmong(Guarded(Div(a, b), c), values)
    decreases Div(a, b), 0
  {
    if c == RatioZero {
      ZeroQuotient(a, b, values);
    } else {
      var n, d := Guarded(a, c), Guarded(b, c);
      var quotient := Div(n, Nullif0(d));
      assert Guarded(Div(a, b), c) == quotient;
      assert IsTemplate(Nullif0(d), |values|);
      assert TemplateValue(quotient, values) == DivC(TemplateValue(n, values), NullifC(TemplateValue(d, values)));
      assert GuardedDenominators(Nullif0(d)) == GuardedDenominators(d);
      assert GuardedDenominators(quotient) == [d] + GuardedDenominators(n) + GuardedDenominators(d);
      if TemplateValue(n, values) == Null {
        NullHasACause(a, c, values);
      } else if TemplateValue(d, values) == Null {
        NullHasACause(b, c, values);
      } else {
        assert d in GuardedDenominators(quotient);
      }
    }
  }

  ghost predicate ZeroAmong(e: Expr, values: seq<Cell>)
    requires IsTemplate(e, |values|)
  {
    exists d :: d in GuardedDenominators(e) && IsTemplate(d, |values|) && TemplateValue(d, values) == Num(0.0)
  }

  /** A NULL metric has a culprit in its tree: a division under the NULL policy by exactly zero. */
  lemma {:induction false} Culprit(m: MetricPlan, rows: set<SpineRow>, look: Look, s: SpineRow) returns (p: MetricPlan)
    requires WellFormed(m) && Replacing(m)
    requires forall r :: r in RefsOf(m) ==> look(s, r).Num?
    requires Value(m, rows, look, s) == Null
    ensures p in Walk(m) && WellFormed(p) && Policy(p) == Some(RatioNull)
    ensures Num(0.0) in DenominatorValues(p, rows, look, s)
    decreases m
  {
    p := m;
    if m.combine == Derived {
      var raw, c :| PlannedFrom(m, raw, c);
      var values := Values(m.operands, rows, look, s);
      NullHasACause(raw, c, values);
      if Null in values {
        var k :| 0 <= k < |values| && values[k] == Null;
        p := Culprit(m.operands[k], rows, look, s);
      } else {
        var d :| d in GuardedDenominators(m.template) && IsTemplate(d, |values|)
            && TemplateValue(d, values) == Num(0.0);
        var k :| 0 <= k < |GuardedDenominators(m.template)| && GuardedDenominators(m.template)[k] == d;
        assert DenominatorValues(m, rows, look, s)[k] == Num(0.0);
      }
    } else {
      var cells := Cells(m, look, s);
      assert cells[0] == look(s, m.refs[0]) && m.refs[0] in RefsOf(m);
      if m.combine != Direct {
        assert cells[1] == look(s, m.refs[1]) && m.refs[1] in RefsOf(m);
        assert DenominatorValues(m, rows, look, s)[0] == cells[1];
      }
    }
  }

  lemma {:induction false} NullingIncludes(plans: seq<MetricPlan>, p: MetricPlan, rows: set<SpineRow>, look: Look,
      s: SpineRow)
    requires forall q :: q in plans ==> WellFormed(q)
    requires p in plans && Policy(p) == Some(RatioNull)
    ensures forall x :: x in DenominatorValues(p, rows, look, s) ==> x in NullingValues(plans, rows, look, s)
  {
    if plans[0] != p {
      NullingIncludes(plans[1..], p, rows, look, s);
    }
  }

  /** With every leaf column present, a NULL metric is flagged: it carries a counting column and
      that column is 1. */
  lemma {:induction false} NoUncountedNull(m: MetricPlan, rows: set<SpineRow>, look: Look, s: SpineRow)
    requires WellFormed(m) && Replacing(m)
    requires forall r :: r in RefsOf(m) ==> look(s, r).Num?
    requires Value(m, rows, look, s) == Null
    ensures Counts(m) && Flag(CountedValues(m, rows, look, s)) == Num(1.0)
  {
    WalkWellFormed(m);
    var p := Culprit(m, rows, look, s);
    if p != m {
      assert p in WalkAll(m.operands);
      NullingIncludes(WalkAll(m.operands), p, rows, look, s);
    }
    FlagMeansZero(CountedValues(m, rows, look, s));
  }

  // ---------------------------------------------------------------- division by zero

  /** Evaluating `e` on this row divides a present value by zero, which the engine refuses. */
  predicate Faults(e: Expr, ctes: seq<Cte>, t: seq<Joined>, scan: Scan, i: nat)
    requires i < |t|
  {
    match e
    case Div(a, b) =>
      || Faults(a, ctes, t, scan, i) || Faults(b, ctes, t, scan, i)
      || (Eval(a, ctes, t, scan, i).Num? && Eval(b, ctes, t, scan, i) == Num(0.0))
    case Paren(a) => Faults(a, ctes, t, scan, i)
    case Nullif0(a) => Faults(a, ctes, t, scan, i)
    case Add(a, b) => Faults(a, ctes, t, scan, i) || Faults(b, ctes, t, scan, i)
    case Sub(a, b) => Faults(a, ctes, t, scan, i) || Faults(b, ctes, t, scan, i)
    case Mul(a, b) => Faults(a, ctes, t, scan, i) || Faults(b, ctes, t, scan, i)
    case Coalesce(a, b) => Faults(a, ctes, t, scan, i) || Faults(b, ctes, t, scan, i)
    case IfPresent(a, b) => Faults(a, ctes, t, scan, i) || Faults(b, ctes, t, scan, i)
    case CountOver(_, a) => exists j :: 0 <= j < |t| && Faults(a, ctes, t, scan, j)
    case SumOver(_, a) => exists j :: 0 <= j < |t| && Faults(a, ctes, t, scan, j)
    case NullWhenZero(a, b) => Faults(a, ctes, t, scan, i) || Faults(b, ctes, t, scan, i)
    case _ => false
  }

  /** Every division in `e` is by a NULLIF(_, 0). */
  predicate Safe(e: Expr) {
    match e
    case Div(a, b) => b.Nullif0? && Safe(a) && Safe(b)
    case Paren(a) => Safe(a)
    case Nullif0(a) => Safe(a)
    case Add(a, b) => Safe(a) && Safe(b)
    case Sub(a, b) => Safe(a) && Safe(b)
    case Mul(a, b) => Safe(a) && Safe(b)
    case Coalesce(a, b) => Safe(a) && Safe(b)
    case IfPresent(a, b) => Safe(a) && Safe(b)
    case CountOver(_, a) => Safe(a)
    case SumOver(_, a) => Safe(a)
    case NullWhenZero(a, b) => Safe(a) && Safe(b)
    case _ => true
  }

  lemma {:induction false} SafeNeverFaults(e: Expr, ctes: seq<Cte>, t: seq<Joined>, scan: Scan, i: nat)
    requires i < |t| && Safe(e)
    ensures !Faults(e, ctes, t, scan, i)
    decreases e
  {
    match e
    case Div(a, b) => SafeNeverFaults(a, ctes, t, scan, i); SafeNeverFaults(b, ctes, t, scan, i);
    case Paren(a) => SafeNeverFaults(a, ctes, t, scan, i);
    case Nullif0(a) => SafeNeverFaults(a, ctes, t, scan, i);
    case Add(a, b) => SafeNeverFaults(a, ctes, t, scan, i); SafeNeverFaults(b, ctes, t, scan, i);
    case Sub(a, b) => SafeNeverFaults(a, ctes, t, scan, i); SafeNeverFaults(b, ctes, t, scan, i);
    case Mul(a, b) => SafeNeverFaults(a, ctes, t, scan, i); SafeNeverFaults(b, ctes, t, scan, i);
    case Coalesce(a, b) => SafeNeverFaults(a, ctes, t, scan, i); SafeNeverFaults(b, ctes, t, scan, i);
    case IfPresent(a, b) => SafeNeverFaults(a, ctes, t, scan, i); SafeNeverFaults(b, ctes, t, scan, i);
    case CountOver(_, a) => forall j | 0 <= j < |t| { SafeNeverFaults(a, ctes, t, scan, j); }
    case SumOver(_, a) => forall j | 0 <= j < |t| { SafeNeverFaults(a, ctes, t, scan, j); }
    case NullWhenZero(a, b) => SafeNeverFaults(a, ctes, t, scan, i); SafeNeverFaults(b, ctes, t, scan, i);
    case _ =>
  }

  lemma {:induction false} GuardedIsSafe(e: Expr, c: Combine, n: nat)
    requires IsArithmetic(e, n) && c in {RatioNull, RatioZero}
    ensures Safe(Guarded(e, c))
  {
    match e
    case Div(a, b) =>
      GuardedIsSafe(a, c, n);
      GuardedIsSafe(b, c, n);
      assert Safe(Nullif0(Guarded(b, c)));
      assert Safe(Div(Guarded(a, c), Nullif0(Guarded(b, c))));
    case Operand(_) =>
    case Literal(_) =>
    case Paren(a) => GuardedIsSafe(a, c, n);
    case Add(a, b) => GuardedIsSafe(a, c, n); GuardedIsSafe(b, c, n);
    case Sub(a, b) => GuardedIsSafe(a, c, n); GuardedIsSafe(b, c, n);
    case Mul(a, b) => GuardedIsSafe(a, c, n); GuardedIsSafe(b, c, n);
    case Coalesce(a, b) => GuardedIsSafe(a, c, n); GuardedIsSafe(b, c, n);
    case IfPresent(a, b) => GuardedIsSafe(a, c, n); GuardedIsSafe(b, c, n);
  }

  lemma {:induction false} SubstituteIsSafe(e: Expr, values: seq<Expr>)
    requires Safe(e) && forall k :: 0 <= k < |values| ==> Safe(values[k])
    ensures Safe(Substitute(e, values))
  {
    match e
    case Div(a, b) => SubstituteIsSafe(a, values); SubstituteIsSafe(b, values);
    case Paren(a) => SubstituteIsSafe(a, values);
    case Nullif0(a) => SubstituteIsSafe(a, values);
    case Add(a, b) => SubstituteIsSafe(a, values); SubstituteIsSafe(b, values);
    case Sub(a, b) => SubstituteIsSafe(a, values); SubstituteIsSafe(b, values);
    case Mul(a, b) => SubstituteIsSafe(a, values); SubstituteIsSafe(b, values);
    case Coalesce(a, b) => SubstituteIsSafe(a, values); SubstituteIsSafe(b, values);
    case IfPresent(a, b) => SubstituteIsSafe(a, values); SubstituteIsSafe(b, values);
    case _ =>
  }

  lemma {:induction false} MetricIsSafe(m: MetricPlan, owner: seq<nat>)
    requires WellFormed(m) && Replacing(m)
    ensures Safe(MetricValue(m, owner))
    decreases m
  {
    if m.combine == Derived {
      var raw, c :| PlannedFrom(m, raw, c);
      GuardedIsSafe(raw, c, |m.operands|);
      var values := MetricValues(m.operands, owner);
      forall k | 0 <= k < |values|
        ensures Safe(values[k])
      {
        MetricIsSafe(m.operands[k], owner);
      }
      SubstituteIsSafe(m.template, values);
    } else if m.combine != Direct {
      var columns := ColumnsOf(m, owner);
      assert Safe(columns[0]) && Safe(columns[1]);
      assert Safe(Nullif0(columns[1]));
      assert Safe(Div(columns[0], Nullif0(columns[1])));
    }
  }

  /** Whatever the data, a metric whose divisions all replace a zero never divides by zero. */
  lemma {:induction false} NeverDividesByZero(m: MetricPlan, owner: seq<nat>, ctes: seq<Cte>, t: seq<Joined>,
      scan: Scan, i: nat)
    requires WellFormed(m) && Replacing(m) && i < |t|
    ensures !Faults(MetricValue(m, owner), ctes, t, scan, i)
  {
    MetricIsSafe(m, owner);
    SafeNeverFaults(MetricValue(m, owner), ctes, t, scan, i);
  }
}
