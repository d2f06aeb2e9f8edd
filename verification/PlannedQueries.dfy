/** Queries over planned leaves: fusion without a premise on their rows, and what single leaves read. */
module PlannedQueries {
  import opened Relational
  import opened Plans
  import opened Semantics
  import opened Fusion
  import opened Compose
  import opened Reference
  import opened LeafSpecs
  import opened LeafKeys
  import Bags
  import ComposeCorrect
  import FanOut
  import FilterKey
  import FinalityKeys
  import Joins
  import Results
  import Tenancy

  // ---------------------------------------------------------------- fusion

  /** What planning guarantees, with nothing said about equal keys. */
  ghost predicate WellPlanned(leaves: seq<LeafPlan>, metrics: seq<MetricPlan>) {
    && LeavesOk(leaves)
    && (forall k :: 0 <= k < |metrics| ==> WellFormed(metrics[k]))
    && PlansFit(leaves, WalkAll(metrics))
  }

  /** Fusion changes no number of a planned query: deduplication on or off, in any order of the CTEs and on
      any engine, the statement is refused alike or returns the same bag of rows. Asked is only that joins
      were planned consistently and that leaves which group together give a column name one measure and
      name the same final source. */
  lemma {:induction false} PlannedFusionPreservesResult(
    ps: seq<Planning>, schema: Schema, text: Text, world: World, metrics: seq<MetricPlan>,
    dedup: bool, order: seq<nat>, scan: Scan, dedup': bool, order': seq<nat>, scan': Scan)
    requires Faithful(text, world) && Joins.Declared(schema.graph)
    requires forall i :: 0 <= i < |ps| ==> Consistent(ps[i].spec, schema)
    requires GroupsAgree(ps, schema, text, world) && WellPlanned(LeavesOf(ps, schema, text, world), metrics)
    requires IsEngine(scan) && IsEngine(scan')
    requires |order| > 0 && IsOrder(order, |Fused(LeavesOf(ps, schema, text, world), dedup).physical|)
    requires |order'| > 0 && IsOrder(order', |Fused(LeavesOf(ps, schema, text, world), dedup').physical|)
    ensures var leaves := LeavesOf(ps, schema, text, world);
      var a, b := Statement(leaves, metrics, dedup, order, scan), Statement(leaves, metrics, dedup', order', scan');
      (a.Rejected? <==> b.Rejected?) && (a.Answer? ==> multiset(a.rows) == multiset(b.rows))
  {
    PlannedKeysAreSound(ps, schema, text, world);
    ComposeCorrect.FusionPreservesResult(LeavesOf(ps, schema, text, world), metrics, dedup, order, scan, dedup',
      order', scan');
  }

  /** What a leaf reports of its rule: the watermark as text, the sources in declaration order, the flag. */
  function ReportOf(s: Spec, text: Text): Option<FinalityMeta> {
    match s.finality
    case None => None
    case Some(f) => Some(FinalityMeta(text.instant(f.watermark), FinalityKeys.SourcesOf(f.rule), f.flag))
  }

  ghost predicate AllReport(ps: seq<Planning>, text: Text) {
    forall i :: 0 <= i < |ps| ==> ps[i].meta.finality == ReportOf(ps[i].spec, text)
  }

  /** Nor does fusion change what a planned query reports, but for the order of its warnings. */
  lemma {:induction false} PlannedFusionPreservesMetadata(
    ps: seq<Planning>, schema: Schema, text: Text, world: World, dedup: bool, order: seq<nat>, dedup': bool,
    order': seq<nat>)
    requires AllReport(ps, text)
    requires Results.Lists(order, |Fused(LeavesOf(ps, schema, text, world), dedup).physical|)
    requires Results.Lists(order', |Fused(LeavesOf(ps, schema, text, world), dedup').physical|)
    ensures var leaves := LeavesOf(ps, schema, text, world);
      var a := Results.MergedOf(Results.MetasOf(Fused(leaves, dedup).physical, order));
      var b := Results.MergedOf(Results.MetasOf(Fused(leaves, dedup').physical, order'));
      b == a.(warnings := b.warnings) && multiset(a.warnings) == multiset(b.warnings)
  {
    var leaves := LeavesOf(ps, schema, text, world);
    forall i | 0 <= i < |leaves|
      ensures Results.KeyedFinality(leaves[i])
    {
      assert leaves[i].key.finality == FinalityPart(ps[i].spec, text) && leaves[i].meta == ps[i].meta;
    }
    Results.FusionPreservesMetadata(leaves, dedup, order, dedup', order');
  }

  // ---------------------------------------------------------------- additive leaves

  lemma {:induction false} SameFans(s: Spec, text: Text, world: World)
    ensures FansOut(s.edges) <==> exists e :: e in QueryOf(SelectOf(s), text, world).edges && FanOut.Fans(e)
  {
    var edges := QueryOf(SelectOf(s), text, world).edges;
    if e :| e in s.edges && (e.join.relationship == Joins.OneToMany || e.join.relationship == Joins.ManyToMany) {
      var k :| 0 <= k < |s.edges| && s.edges[k] == e;
      assert FanOut.Fans(edges[k]);
    }
    if e :| e in edges && FanOut.Fans(e) {
      var k :| 0 <= k < |edges| && edges[k] == e;
      assert s.edges[k] in s.edges;
    }
  }

  lemma {:induction false} OneBranch(b: Branch, n: nat)
    ensures Flatten(Map([b], (b: Branch) => GroupsOf(b, n))) == GroupsOf(b, n)
  {
    var parts := Map([b], (b: Branch) => GroupsOf(b, n));
    assert parts == [GroupsOf(b, n)] && parts[..0] == [];
    assert Flatten(parts) == Flatten(parts[..0]) + parts[0];
  }

  /** The groups of a planned additive leaf add up to the owner rows that survive its joins and WHERE, each
      counted once, whatever its joins multiply and whatever row DISTINCT ON keeps. */
  lemma {:induction false} PlannedLeafConserves(p: Planning, schema: Schema, text: Text, world: World, m: Measure)
    requires p.spec.finality.None? && p.spec.strategy !in schema.custom && Bags.IsAdditive(m)
    requires var q := QueryOf(SelectOf(p.spec), text, world);
      var owners := world.owners(p.spec.owner);
      && FanOut.UniqueGrain(owners) && FanOut.Honest(q.edges)
      && FanOut.IsDistinctOn(FanOut.Selected(owners, q), world.distinct(FanOut.Selected(owners, q)))
    ensures SumSeq(Groups(LeafOf(p, schema, text, world)), Bags.GroupTotal(m))
         == FanOut.OwnersTotal(world.owners(p.spec.owner), QueryOf(SelectOf(p.spec), text, world), m)
  {
    var s := p.spec;
    var q, rows := QueryOf(SelectOf(s), text, world), AdditiveRows(s, text, world);
    SameFans(s, text, world);
    assert FanOut.Emits(world.owners(s.owner), q, rows);
    FanOut.AdditiveLeafConserves(world.owners(s.owner), q, rows, |s.dims|, m);
    OneBranch(Branch(true, BaseRows(s, text, world)), |s.dims|);
  }

  // ---------------------------------------------------------------- tenancy

  /** The tenant predicates of a leaf, as conditions. */
  function TenantConditions(scoping: Tenancy.Scoping, write: Tenancy.Condition -> string): seq<FilterKey.Cond> {
    Map(scoping.conditions, (c: Tenancy.Condition) => FilterKey.Atom(write(c)))
  }

  /** The written predicates mean what they say, `columns` being the values of a joined row's columns. */
  ghost predicate Written(world: World, names: seq<string>, write: Tenancy.Condition -> string,
      columns: Wide -> Tenancy.Row)
  {
    forall c, w {:trigger world.atom(names, write(c), w)} ::
      world.atom(names, write(c), w) == Tenancy.Holds(c, columns(w))
  }

  lemma {:induction false} TenantWhere(cs: seq<Tenancy.Condition>, write: Tenancy.Condition -> string,
      names: seq<string>, world: World, columns: Wide -> Tenancy.Row, w: Wide)
    requires Written(world, names, write, columns)
    ensures FilterKey.Where(Map(cs, (c: Tenancy.Condition) => FilterKey.Atom(write(c))), AtomsOn(names, w, world))
         == Tenancy.WhereScoped(cs, columns(w))
  {
    if cs != [] {
      var f := (c: Tenancy.Condition) => FilterKey.Atom(write(c));
      assert Map(cs, f)[1..] == Map(cs[1..], f);
      TenantWhere(cs[1..], write, names, world, columns, w);
      assert FilterKey.Holds(f(cs[0]), AtomsOn(names, w, world)) == world.atom(names, write(cs[0]), w);
    }
  }

  /** Every row a planned leaf reads carries an allowed tenant in every joined alias that is scoped,
      whatever else its WHERE says. */
  lemma {:induction false} PlannedLeafReadsPermitted(
    s: Spec, text: Text, world: World, policy: Tenancy.Policy, scoping: Tenancy.Scoping, rest: seq<FilterKey.Cond>,
    write: Tenancy.Condition -> string, columns: Wide -> Tenancy.Row, w: Wide)
    requires Tenancy.Scopes(policy, Names(SelectOf(s)), scoping)
    requires s.conditions == TenantConditions(scoping, write) + rest
    requires Written(world, Names(SelectOf(s)), write, columns)
    requires w in SelectedRows(SelectOf(s), text, world)
    ensures Tenancy.Permitted(policy, Names(SelectOf(s)), columns(w))
  {
    var row := AtomsOn(Names(SelectOf(s)), w, world);
    assert QueryOf(SelectOf(s), text, world).condition(w) == True;
    FilterKey.WhereAppend(TenantConditions(scoping, write), rest, row);
    TenantWhere(scoping.conditions, write, Names(SelectOf(s)), world, columns, w);
    Tenancy.WhereScopedMeans(scoping.conditions, columns(w));
    Tenancy.ScopesPermit(policy, Names(SelectOf(s)), scoping, columns(w));
  }
}
