/** A finality leaf: one gated SELECT per realization, and what the split at the watermark keeps. */
module FinalityUnion {
  import opened Relational
  import opened Plans
  import opened Bags
  import opened Watermarks
  import opened Finality

  // ---------------------------------------------------------------- gates

  /** A row that survived a realization's joins and the re-qualified WHERE: its time, which may be
      NULL, its owner's grain, its dimensions and measure inputs. */
  datatype Stored = Stored(time: Option<int>, grain: Tuple, row: BaseRow)

  function Le3(a: Option<int>, b: int): Truth {
    if a.None? then Unknown else Bool3(a.value <= b)
  }

  function Gt3(a: Option<int>, b: int): Truth {
    if a.None? then Unknown else Bool3(a.value > b)
  }

  /** The gate a realization's branch adds to its WHERE. */
  function Gate(role: string, watermark: int, s: Stored): Truth {
    if role == "final" then Le3(s.time, watermark) else Gt3(s.time, watermark)
  }

  /** The gates are exclusive and, on rows with a time, exhaustive. A NULL time passes neither. */
  lemma {:induction false} GatesPartition(watermark: int, s: Stored)
    ensures s.time.Some? ==> (Gate("final", watermark, s) == True <==> Gate("provisional", watermark, s) != True)
    ensures s.time.None? ==> Gate("final", watermark, s) == Unknown && Gate("provisional", watermark, s) == Unknown
  {
  }

  function Passing(role: string, watermark: int): Stored -> bool {
    (s: Stored) => Gate(role, watermark, s) == True
  }

  // ---------------------------------------------------------------- the union

  /** What a loaded source offers to a leaf: its measures and whether they are additive, the
      dimensions it reaches, whether its joins fan out, and its rows. */
  datatype Loaded = Loaded(measures: map<string, bool>, dimensions: set<string>, fans: bool, rows: seq<Stored>)

  type Data = map<string, Loaded>

  /** The measures and dimensions the leaf needs of every realization. */
  datatype Asked = Asked(measures: seq<string>, dimensions: seq<string>)

  /** DISTINCT ON the owner's grain, as an engine happens to pick. */
  type Pick = seq<Stored> -> seq<Stored>

  function GrainOf(): Stored -> Tuple {
    (s: Stored) => s.grain
  }

  function RowOf(): Stored -> BaseRow {
    (s: Stored) => s.row
  }

  ghost predicate OnePerGrain(rows: seq<Stored>, out: seq<Stored>) {
    && (forall s :: s in out ==> s in rows)
    && NoDup(Map(out, GrainOf()))
    && Elems(Map(out, GrainOf())) == Elems(Map(rows, GrainOf()))
  }

  ghost predicate Picks(pick: Pick) {
    forall rows :: OnePerGrain(rows, pick(rows))
  }

  /** A fanning branch deduplicates its owner's grain before it aggregates. */
  function Emitted(fans: bool, rows: seq<Stored>, pick: Pick): seq<Stored> {
    if fans then pick(rows) else rows
  }

  /** One SELECT of the union: the realization's rows behind its gate, with its marker. */
  function BranchOf(role: string, l: Loaded, watermark: int, pick: Pick): Branch {
    Branch(role == "final", Map(Emitted(l.fans, Filter(l.rows, Passing(role, watermark)), pick), RowOf()))
  }

  datatype Refusal = UnknownSource | MissingMeasure | UnreachableDimension | FanoutUnsafe | NoRealizations

  datatype Outcome = Union(branches: seq<Branch>) | Refused(why: Refusal)

  /** Why a realization cannot serve the leaf, if so. */
  function RefusalOf(x: Realization, asked: Asked, data: Data): Option<Refusal> {
    if x.source !in data then Some(UnknownSource)
    else
      var l := data[x.source];
      if exists m :: m in asked.measures && m !in l.measures then Some(MissingMeasure)
      else if exists d :: d in asked.dimensions && d !in l.dimensions then Some(UnreachableDimension)
      else if l.fans && exists m :: m in asked.measures && m in l.measures && !l.measures[m] then Some(FanoutUnsafe)
      else None
  }

  ghost predicate Built(b: Branch, x: Realization, data: Data, watermark: int, pick: Pick) {
    x.source in data && b == BranchOf(x.role, data[x.source], watermark, pick)
  }

  ghost predicate AllBuilt(branches: seq<Branch>, xs: seq<Realization>, data: Data, watermark: int, pick: Pick) {
    |branches| == |xs| && forall i :: 0 <= i < |xs| ==> Built(branches[i], xs[i], data, watermark, pick)
  }

  /** The refusal of the first realization that has one. */
  ghost predicate FirstRefusal(xs: seq<Realization>, asked: Asked, data: Data, why: Refusal) {
    exists i :: 0 <= i < |xs| && RefusalOf(xs[i], asked, data) == Some(why)
      && forall k :: 0 <= k < i ==> RefusalOf(xs[k], asked, data).None?
  }

  /** One branch per realization, in declaration order, or the first refusal. */
  method BuildFinalityUnion(xs: seq<Realization>, asked: Asked, data: Data, watermark: int, pick: Pick)
      returns (r: Outcome)
    ensures r.Union? ==> xs != [] && AllBuilt(r.branches, xs, data, watermark, pick)
    ensures r.Union? ==> forall x :: x in xs ==> RefusalOf(x, asked, data).None?
    ensures r.Refused? ==> if xs == [] then r.why == NoRealizations else FirstRefusal(xs, asked, data, r.why)
  {
    var branches: seq<Branch> := [];
    for i := 0 to |xs|
      invariant AllBuilt(branches, xs[..i], data, watermark, pick)
      invariant forall k :: 0 <= k < i ==> RefusalOf(xs[k], asked, data).None?
    {
      var why := RefusalOf(xs[i], asked, data);
      if why.Some? {
        return Refused(why.value);
      }
      branches := branches + [BranchOf(xs[i].role, data[xs[i].source], watermark, pick)];
    }
    if branches == [] {
      return Refused(NoRealizations);
    }
    return Union(branches);
  }

  // ---------------------------------------------------------------- what a branch adds up to

  function Timed(): Stored -> bool {
    (s: Stored) => s.time.Some?
  }

  function StoredWeight(m: Measure): Stored -> real {
    (s: Stored) => WeightOf(m, s.row)
  }

  /** A grain names one owner row: its time and its measure inputs. */
  ghost predicate OneOwnerPerGrain(rows: seq<Stored>) {
    forall s, t :: s in rows && t in rows && s.grain == t.grain ==> s.time == t.time && s.row.inputs == t.row.inputs
  }

  ghost function WeightOfGrain(rows: seq<Stored>, m: Measure, g: Tuple): real {
    if exists s :: s in rows && s.grain == g then
      var s :| s in rows && s.grain == g;
      WeightOf(m, s.row)
    else 0.0
  }

  ghost function GrainWeight(rows: seq<Stored>, m: Measure): Tuple -> real {
    (g: Tuple) => WeightOfGrain(rows, m, g)
  }

  ghost function Grains(rows: seq<Stored>): set<Tuple> {
    Elems(Map(rows, GrainOf()))
  }

  /** What the rows of `l` that satisfy `p` add up to: every row, or every owner once. */
  ghost function PartTotal(l: Loaded, p: Stored -> bool, m: Measure): real {
    if l.fans then SumSet(Grains(Filter(l.rows, p)), GrainWeight(l.rows, m))
    else SumSeq(Filter(l.rows, p), StoredWeight(m))
  }

  lemma {:induction false} EmittedTotal(rows: seq<Stored>, all: seq<Stored>, m: Measure, pick: Pick)
    requires Picks(pick) && OneOwnerPerGrain(all) && forall s :: s in rows ==> s in all
    ensures SumSeq(pick(rows), StoredWeight(m)) == SumSet(Grains(rows), GrainWeight(all, m))
  {
    var out := pick(rows);
    assert OnePerGrain(rows, out);
    forall s | s in out
      ensures StoredWeight(m)(s) == GrainWeight(all, m)(GrainOf()(s))
    {
      assert s in all;
      var t :| t in all && t.grain == s.grain && WeightOfGrain(all, m, s.grain) == WeightOf(m, t.row);
      WeightByInputs(m, s.row, t.row);
    }
    SumMap(out, GrainOf(), GrainWeight(all, m), StoredWeight(m));
    SumSeqIsSumSet(Map(out, GrainOf()), GrainWeight(all, m));
  }

  lemma {:induction false} BranchTotal(role: string, l: Loaded, watermark: int, pick: Pick, n: nat, m: Measure)
    requires IsAdditive(m) && Picks(pick) && OneOwnerPerGrain(l.rows)
    ensures SumSeq(GroupsOf(BranchOf(role, l, watermark, pick), n), GroupTotal(m))
        == PartTotal(l, Passing(role, watermark), m)
  {
    var rows := Filter(l.rows, Passing(role, watermark));
    GroupsAddUp(BranchOf(role, l, watermark, pick), n, m);
    SumMap(Emitted(l.fans, rows, pick), RowOf(), Weight(m), StoredWeight(m));
    if l.fans {
      EmittedTotal(rows, l.rows, m, pick);
    }
  }

  // ---------------------------------------------------------------- conservation

  lemma {:induction false} GrainIn(rows: seq<Stored>, p: Stored -> bool, g: Tuple)
    ensures g in Grains(Filter(rows, p)) <==> exists s :: s in rows && p(s) && s.grain == g
  {
    var kept := Filter(rows, p);
    if s :| s in rows && p(s) && s.grain == g {
      var k :| 0 <= k < |kept| && kept[k] == s;
      assert Map(kept, GrainOf())[k] == g;
    }
    if g in Grains(kept) {
      var k :| 0 <= k < |kept| && Map(kept, GrainOf())[k] == g;
      assert kept[k] in kept;
    }
  }

  lemma {:induction false} SplitConserves(rows: seq<Stored>, watermark: int, f: Stored -> real)
    ensures SumSeq(Filter(rows, Passing("final", watermark)), f)
        + SumSeq(Filter(rows, Passing("provisional", watermark)), f)
         == SumSeq(Filter(rows, Timed()), f)
  {
    if rows != [] {
      SplitConserves(rows[1..], watermark, f);
      GatesPartition(watermark, rows[0]);
    }
  }

  lemma {:induction false} GrainsSplit(rows: seq<Stored>, watermark: int)
    requires OneOwnerPerGrain(rows)
    ensures var early, late :=
        Grains(Filter(rows, Passing("final", watermark))), Grains(Filter(rows, Passing("provisional", watermark)));
      early !! late && early + late == Grains(Filter(rows, Timed()))
  {
    var early, late :=
        Grains(Filter(rows, Passing("final", watermark))), Grains(Filter(rows, Passing("provisional", watermark)));
    forall s | s in rows { GatesPartition(watermark, s); }
    forall g
      ensures !(g in early && g in late) && (g in early || g in late <==> g in Grains(Filter(rows, Timed())))
    {
      GrainIn(rows, Passing("final", watermark), g);
      GrainIn(rows, Passing("provisional", watermark), g);
      GrainIn(rows, Timed(), g);
    }
  }

  /** What passes the two gates adds up to the rows that carry a time. */
  lemma {:induction false} PartsConserve(l: Loaded, watermark: int, m: Measure)
    requires OneOwnerPerGrain(l.rows)
    ensures PartTotal(l, Passing("final", watermark), m) + PartTotal(l, Passing("provisional", watermark), m)
         == PartTotal(l, Timed(), m)
  {
    if l.fans {
      GrainsSplit(l.rows, watermark);
      var all, early := Grains(Filter(l.rows, Timed())), Grains(Filter(l.rows, Passing("final", watermark)));
      SumSplit(all, early, GrainWeight(l.rows, m));
      assert all - early == Grains(Filter(l.rows, Passing("provisional", watermark)));
    } else {
      SplitConserves(l.rows, watermark, StoredWeight(m));
    }
  }

  ghost function UnionTotal(branches: seq<Branch>, n: nat, m: Measure): real {
    SumSeq(Flatten(Map(branches, (b: Branch) => GroupsOf(b, n))), GroupTotal(m))
  }

  ghost function BranchTotals(branches: seq<Branch>, n: nat, m: Measure, i: int): real
    requires 0 <= i < |branches|
  {
    SumSeq(GroupsOf(branches[i], n), GroupTotal(m))
  }

  /** One branch adds up to `e`, every other one to `l`. */
  lemma {:induction false} UnionTotalIs(branches: seq<Branch>, f: nat, e: real, l: real, n: nat, m: Measure)
    requires forall i :: 0 <= i < |branches| ==> BranchTotals(branches, n, m, i) == if i == f then e else l
    ensures UnionTotal(branches, n, m)
         == if f < |branches| then e + Times(|branches| - 1, l) else Times(|branches|, l)
  {
    if branches != [] {
      var init := branches[..|branches| - 1];
      UnionTotalSnoc(branches, n, m);
      forall i | 0 <= i < |init|
        ensures BranchTotals(init, n, m, i) == BranchTotals(branches, n, m, i)
      {
        assert init[i] == branches[i];
      }
      UnionTotalIs(init, f, e, l, n, m);
    }
  }

  lemma {:induction false} UnionTotalSnoc(branches: seq<Branch>, n: nat, m: Measure)
    requires branches != []
    ensures var k := |branches| - 1;
      UnionTotal(branches, n, m) == UnionTotal(branches[..k], n, m) + BranchTotals(branches, n, m, k)
  {
    var k := |branches| - 1;
    var parts := Map(branches, (b: Branch) => GroupsOf(b, n));
    assert parts[..k] == Map(branches[..k], (b: Branch) => GroupsOf(b, n));
    SumSeqAppend(Flatten(parts[..k]), parts[k], GroupTotal(m));
  }

  lemma {:induction false} TimesIsZero(k: nat, x: real)
    requires k > 0
    ensures Times(k, x) == 0.0 <==> x == 0.0
    ensures x >= 0.0 ==> Times(k, x) >= x
    ensures x <= 0.0 ==> Times(k, x) <= x
  {
    if k > 1 {
      TimesIsZero(k - 1, x);
    }
  }

  lemma {:induction false} TimesIsOnce(k: nat, x: real)
    ensures Times(k, x) == x <==> k == 1 || x == 0.0
  {
    if k > 1 {
      TimesIsZero(k - 1, x);
    } else if k == 1 {
      assert Times(0, x) == 0.0;
    }
    if k > 0 && x == 0.0 {
      TimesIsZero(k, x);
    }
  }

  /** What an ungated source adds up to over the rows that carry a time. */
  function SingleSource(l: Loaded, m: Measure, pick: Pick): real {
    SumSeq(Emitted(l.fans, Filter(l.rows, Timed()), pick), StoredWeight(m))
  }

  /** What the rows later than the watermark add up to. */
  ghost function Later(l: Loaded, watermark: int, m: Measure): real {
    PartTotal(l, Passing("provisional", watermark), m)
  }

  ghost predicate SameData(a: Loaded, b: Loaded) {
    a.fans == b.fans && multiset(a.rows) == multiset(b.rows)
  }

  /** Every realization of the rule holds the rows of `l`. */
  ghost predicate AllHold(rule: Rule, data: Data, l: Loaded) {
    forall i :: 0 <= i < |rule.realizations| ==>
      rule.realizations[i].source in data && SameData(data[rule.realizations[i].source], l)
  }

  lemma {:induction false} SameDataSameTotal(a: Loaded, b: Loaded, p: Stored -> bool, m: Measure)
    requires SameData(a, b) && OneOwnerPerGrain(b.rows)
    ensures OneOwnerPerGrain(a.rows) && PartTotal(a, p, m) == PartTotal(b, p, m)
  {
    assert forall s :: s in a.rows <==> s in multiset(a.rows);
    assert forall s :: s in b.rows <==> s in multiset(b.rows);
    if a.fans {
      forall g
        ensures g in Grains(Filter(a.rows, p)) <==> g in Grains(Filter(b.rows, p))
      {
        GrainIn(a.rows, p, g);
        GrainIn(b.rows, p, g);
      }
      assert Grains(Filter(a.rows, p)) == Grains(Filter(b.rows, p));
      SameGrainWeights(a.rows, b.rows, m);
      SumSetSupport(Grains(Filter(a.rows, p)), Grains(Filter(b.rows, p)), GrainWeight(a.rows, m),
        GrainWeight(b.rows, m));
    } else {
      FilterBag(a.rows, b.rows, p);
      SumSeqBag(Filter(a.rows, p), Filter(b.rows, p), StoredWeight(m));
    }
  }

  lemma {:induction false} SameGrainWeights(a: seq<Stored>, b: seq<Stored>, m: Measure)
    requires (forall s :: s in a <==> s in b) && OneOwnerPerGrain(b)
    ensures forall g :: GrainWeight(a, m)(g) == GrainWeight(b, m)(g)
  {
    forall g
      ensures WeightOfGrain(a, m, g) == WeightOfGrain(b, m, g)
    {
      if exists s :: s in a && s.grain == g {
        var s :| s in a && s.grain == g && WeightOfGrain(a, m, g) == WeightOf(m, s.row);
        assert s in b;
        var t :| t in b && t.grain == g && WeightOfGrain(b, m, g) == WeightOf(m, t.row);
        WeightByInputs(m, s.row, t.row);
      }
    }
  }

  /** For a valid rule whose sources all hold the same rows, the union adds up to the single source,
      whatever the watermark and whether or not the joins fan out, exactly when there is one provisional
      realization or the later rows add up to nothing. Only rows without a time are lost. */
  lemma {:induction false} UnionConservesIff(
    rule: Rule, sources: Sources, grammar: string -> Watermark, zones: set<string>, f: nat,
    data: Data, l: Loaded, watermark: int, pick: Pick, branches: seq<Branch>, n: nat, m: Measure)
    requires WellFormedRule(rule, sources, grammar, zones, f) && IsAdditive(m) && AllHold(rule, data, l)
    requires Picks(pick) && OneOwnerPerGrain(l.rows) && AllBuilt(branches, rule.realizations, data, watermark, pick)
    ensures UnionTotal(branches, n, m) == SingleSource(l, m, pick) <==>
      |rule.realizations| == 2 || Later(l, watermark, m) == 0.0
  {
    UnionTotalByParts(rule, sources, grammar, zones, f, data, l, watermark, pick, branches, n, m);
    SingleIsTimed(l, m, pick);
    PartsConserve(l, watermark, m);
    SumsAgreeIff(PartTotal(l, Passing("final", watermark), m), Later(l, watermark, m), |rule.realizations| - 1);
  }

  lemma {:induction false} SumsAgreeIff(early: real, late: real, k: nat)
    ensures early + Times(k, late) == early + late <==> k == 1 || late == 0.0
  {
    TimesIsOnce(k, late);
  }

  lemma {:induction false} SingleIsTimed(l: Loaded, m: Measure, pick: Pick)
    requires Picks(pick) && OneOwnerPerGrain(l.rows)
    ensures SingleSource(l, m, pick) == PartTotal(l, Timed(), m)
  {
    if l.fans {
      EmittedTotal(Filter(l.rows, Timed()), l.rows, m, pick);
    }
  }

  lemma {:induction false} UnionTotalByParts(
    rule: Rule, sources: Sources, grammar: string -> Watermark, zones: set<string>, f: nat,
    data: Data, l: Loaded, watermark: int, pick: Pick, branches: seq<Branch>, n: nat, m: Measure)
    requires WellFormedRule(rule, sources, grammar, zones, f) && IsAdditive(m) && AllHold(rule, data, l)
    requires Picks(pick) && OneOwnerPerGrain(l.rows) && AllBuilt(branches, rule.realizations, data, watermark, pick)
    ensures UnionTotal(branches, n, m)
         == PartTotal(l, Passing("final", watermark), m) + Times(|branches| - 1, Later(l, watermark, m))
  {
    var e := PartTotal(l, Passing("final", watermark), m);
    forall i | 0 <= i < |branches|
      ensures BranchTotals(branches, n, m, i) == if i == f then e else Later(l, watermark, m)
    {
      var x := rule.realizations[i];
      assert Built(branches[i], x, data, watermark, pick);
      SameDataSameTotal(data[x.source], l, Passing(x.role, watermark), m);
      BranchTotal(x.role, data[x.source], watermark, pick, n, m);
    }
    UnionTotalIs(branches, f, e, Later(l, watermark, m), n, m);
  }

  /** Without a fan-out the same holds per output tuple: its final and its provisional part make up its
      single-source total. */
  lemma {:induction false} FinalitySplitConservesEachTuple(l: Loaded, watermark: int, pick: Pick, m: Measure, d: Tuple)
    requires !l.fans
    ensures SumSeq(Keyed(BranchOf("final", l, watermark, pick).rows, DimsOf(), d), Weight(m))
          + SumSeq(Keyed(BranchOf("provisional", l, watermark, pick).rows, DimsOf(), d), Weight(m))
         == SumSeq(Keyed(Map(Filter(l.rows, Timed()), RowOf()), DimsOf(), d), Weight(m))
  {
    TuplesConserve(l.rows, watermark, m, d);
  }

  lemma {:induction false} TuplesConserve(rows: seq<Stored>, watermark: int, m: Measure, d: Tuple)
    ensures TupleTotal(rows, Passing("final", watermark), m, d)
        + TupleTotal(rows, Passing("provisional", watermark), m, d)
         == TupleTotal(rows, Timed(), m, d)
  {
    if rows != [] {
      TuplesConserve(rows[1..], watermark, m, d);
      GatesPartition(watermark, rows[0]);
      TupleTotalCons(rows, Passing("final", watermark), m, d);
      TupleTotalCons(rows, Passing("provisional", watermark), m, d);
      TupleTotalCons(rows, Timed(), m, d);
    }
  }

  ghost function TupleTotal(rows: seq<Stored>, p: Stored -> bool, m: Measure, d: Tuple): real {
    SumSeq(Keyed(Map(Filter(rows, p), RowOf()), DimsOf(), d), Weight(m))
  }

  lemma {:induction false} TupleTotalCons(rows: seq<Stored>, p: Stored -> bool, m: Measure, d: Tuple)
    requires rows != []
    ensures TupleTotal(rows, p, m, d)
         == (if p(rows[0]) && rows[0].row.dims == d then WeightOf(m, rows[0].row) else 0.0)
             + TupleTotal(rows[1..], p, m, d)
  {
    var rest := Map(Filter(rows[1..], p), RowOf());
    if p(rows[0]) {
      assert Map(Filter(rows, p), RowOf()) == [rows[0].row] + rest;
      if rows[0].row.dims == d {
        assert Keyed([rows[0].row] + rest, DimsOf(), d) == [rows[0].row] + Keyed(rest, DimsOf(), d);
      }
    }
  }

  // ---------------------------------------------------------------- two provisional sources

  function Reading(role: string): Realization {
    Realization(if role == "final" then "settled" else "live", role, "business_day", "UTC")
  }

  const TWICE_LIVE := Rule([Reading("final"), Reading("provisional"), Reading("provisional")], None)

  /** One row of 5 at time 1. */
  const ONE_ROW :=
    Loaded(map["revenue" := true], {"day"}, false, [Stored(Some(1), [D(1)], BaseRow([D(1)], [Num(5.0)]))])

  const BOTH_SERVE: Data := map["settled" := ONE_ROW, "live" := ONE_ROW]

  lemma {:induction false} BothHold()
    ensures AllHold(TWICE_LIVE, BOTH_SERVE, ONE_ROW)
  {
  }

  lemma {:induction false} TwiceLiveIsValid(grammar: string -> Watermark)
    requires grammar("business_day") == BusinessDay
    ensures WellFormedRule(TWICE_LIVE, None, grammar, {"UTC"}, 0)
  {
  }

  /** A valid rule with two provisional sources counts a row later than the watermark twice. */
  lemma {:induction false} TwoProvisionalsCountTwice(pick: Pick, branches: seq<Branch>, grammar: string -> Watermark)
    requires Picks(pick) && grammar("business_day") == BusinessDay
    requires AllBuilt(branches, TWICE_LIVE.realizations, BOTH_SERVE, 0, pick)
    ensures WellFormedRule(TWICE_LIVE, None, grammar, {"UTC"}, 0)
    ensures var m := Measure("revenue", Sum, 0);
      UnionTotal(branches, 1, m) == 10.0 && SingleSource(ONE_ROW, m, pick) == 5.0
  {
    var m := Measure("revenue", Sum, 0);
    TwiceLiveTotal(pick, branches, grammar, m);
    OneRowTotals(m);
    SingleIsTimed(ONE_ROW, m, pick);
  }

  lemma {:induction false} TwiceLiveTotal(pick: Pick, branches: seq<Branch>, grammar: string -> Watermark, m: Measure)
    requires Picks(pick) && grammar("business_day") == BusinessDay && IsAdditive(m)
    requires AllBuilt(branches, TWICE_LIVE.realizations, BOTH_SERVE, 0, pick)
    ensures WellFormedRule(TWICE_LIVE, None, grammar, {"UTC"}, 0)
    ensures UnionTotal(branches, 1, m) == PartTotal(ONE_ROW, Passing("final", 0), m) + 2.0 * Later(ONE_ROW, 0, m)
  {
    TwiceLiveIsValid(grammar);
    BothHold();
    UnionTotalByParts(TWICE_LIVE, None, grammar, {"UTC"}, 0, BOTH_SERVE, ONE_ROW, 0, pick, branches, 1, m);
    var later := Later(ONE_ROW, 0, m);
    assert Times(2, later) == later + Times(1, later);
  }

  lemma {:induction false} OneRowTotals(m: Measure)
    requires m == Measure("revenue", Sum, 0)
    ensures PartTotal(ONE_ROW, Passing("final", 0), m) == 0.0
    ensures Later(ONE_ROW, 0, m) == 5.0 && PartTotal(ONE_ROW, Timed(), m) == 5.0
  {
    var s := ONE_ROW.rows[0];
    assert ONE_ROW.rows[1..] == [];
    assert Filter(ONE_ROW.rows, Passing("final", 0)) == [];
    assert Filter(ONE_ROW.rows, Passing("provisional", 0)) == [s] && [s][1..] == [];
    assert Filter(ONE_ROW.rows, Timed()) == [s];
    assert WeightOf(m, s.row) == 5.0;
  }
}
