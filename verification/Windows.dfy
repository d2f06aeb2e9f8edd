/** What a running total amounts to. */
module Windows {
  import opened Relational
  import opened Plans
  import opened Ordering
  import opened Semantics

  // ---------------------------------------------------------------- running totals

  /** The rows of `rows` in the partition of `s`, at or before it, that carry a value. */
  ghost function Measured(acc: Accumulate, rows: set<SpineRow>, v: SpineRow -> Cell, s: SpineRow): set<SpineRow> {
    set r | r in rows && InFrame(acc, r, s) && v(r).Num?
  }

  ghost function ValueOf(v: SpineRow -> Cell): SpineRow -> real {
    (r: SpineRow) => Coalesce0(v(r))
  }

  lemma {:induction false} SumOfOnes(s: set<SpineRow>, f: SpineRow -> real)
    requires forall r :: r in s ==> f(r) == 1.0
    ensures SumSet(s, f) == |s| as real
    decreases s
  {
    if s != {} {
      var x :| x in s;
      SumSetRemove(s, f, x);
      SumOfOnes(s - {x}, f);
      assert |s - {x}| + 1 == |s|;
    }
  }

  /** The running total is NULL until something is measured, and then the sum of what was. */
  lemma {:induction false} RunningTotalIsSum(acc: Accumulate, rows: set<SpineRow>, v: SpineRow -> Cell, s: SpineRow)
    ensures RunningTotal(acc, rows, v, s)
         == if Measured(acc, rows, v, s) == {} then Null else Num(SumSet(Measured(acc, rows, v, s), ValueOf(v)))
  {
    var m := Measured(acc, rows, v, s);
    SumSetSupport(m, rows, FrameTerm(acc, v, s, true), FrameTerm(acc, v, s, true));
    SumOfOnes(m, FrameTerm(acc, v, s, true));
    SumSetSupport(m, rows, ValueOf(v), FrameTerm(acc, v, s, false));
  }

  /** A running total depends only on the rows that carry a value: spine rows that other leaves or
      a fill contribute change nothing. */
  lemma {:induction false} RunningTotalIgnoresCompany(acc: Accumulate, own: set<SpineRow>, rows: set<SpineRow>,
      v: SpineRow -> Cell, s: SpineRow)
    requires own <= rows
    requires forall r :: r in rows && r !in own ==> v(r) == Null
    ensures RunningTotal(acc, rows, v, s) == RunningTotal(acc, own, v, s)
  {
    RunningTotalIsSum(acc, rows, v, s);
    RunningTotalIsSum(acc, own, v, s);
    assert Measured(acc, rows, v, s) == Measured(acc, own, v, s);
  }

  /** From one order tuple of a partition to the next, the total grows by the newly measured rows. */
  lemma {:induction false} RunningTotalStep(acc: Accumulate, rows: set<SpineRow>, v: SpineRow -> Cell, s: SpineRow,
      s': SpineRow)
    requires InFrame(acc, s, s')
    ensures Measured(acc, rows, v, s) <= Measured(acc, rows, v, s')
    ensures Coalesce0(RunningTotal(acc, rows, v, s'))
         == Coalesce0(RunningTotal(acc, rows, v, s))
             + SumSet(Measured(acc, rows, v, s') - Measured(acc, rows, v, s), ValueOf(v))
  {
    var m, m' := Measured(acc, rows, v, s), Measured(acc, rows, v, s');
    forall r | r in m
      ensures r in m'
    {
      TupleLeTransitive(OrderOf(acc, r), OrderOf(acc, s), OrderOf(acc, s'));
    }
    RunningTotalIsSum(acc, rows, v, s);
    RunningTotalIsSum(acc, rows, v, s');
    SumSplit(m', m, ValueOf(v));
  }
}
