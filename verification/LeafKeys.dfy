/** Equal leaf keys mean equal rows. */
module LeafKeys {
  import opened Relational
  import opened Plans
  import opened Fusion
  import opened LeafSpecs
  import FilterKey
  import Joins
  import JoinKeys
  import FanOut
  import Finality
  import FinalityUnion
  import FinalityKeys

  // ---------------------------------------------------------------- premises

  /** Texts do not confuse meanings: equal text means the same value on every row, and for conditions the
      same atoms; different watermarks differ as text. */
  ghost predicate Faithful(text: Text, world: World) {
    && FilterKey.Faithful(text.cond) && FilterKey.NamesAtoms(text.cond)
    && (forall x, y :: text.scalar(x) == text.scalar(y) ==> SameScalar(x, y, world))
    && (forall a, b :: text.instant(a) == text.instant(b) ==> a == b)
  }

  ghost predicate SameScalar(x: Scalar, y: Scalar, world: World) {
    forall names, w :: world.scalar(names, x, w) == world.scalar(names, y, w)
  }

  /** The leaf's joins were planned consistently. */
  ghost predicate Consistent(s: Spec, schema: Schema) {
    JoinKeys.Consistent(schema.graph, s.owner, s.edges)
  }

  /** Both rules are valid and their final realizations name the same source. */
  ghost predicate SameFinalSource(a: Finality.Rule, b: Finality.Rule) {
    exists k: nat, l: nat :: FinalityKeys.Valid(a, k) && FinalityKeys.Valid(b, l)
      && a.realizations[k].source == b.realizations[l].source
  }

  ghost predicate RulesAgree(a: Spec, b: Spec) {
    a.finality.Some? && b.finality.Some? ==> SameFinalSource(a.finality.value.rule, b.finality.value.rule)
  }

  // ---------------------------------------------------------------- one SELECT

  /** The two SELECTs differ at most in how conditions and expressions are written. */
  ghost predicate Alike(q: Select, q': Select, world: World) {
    && q.owner == q'.owner && q.edges == q'.edges && |q.exprs| == |q'.exprs|
    && (forall row :: FilterKey.Where(q.conditions, row) == FilterKey.Where(q'.conditions, row))
    && (forall k :: 0 <= k < |q.exprs| ==> SameScalar(q.exprs[k], q'.exprs[k], world))
  }

  lemma {:induction false} SameEdges(q: Select, q': Select, text: Text, world: World)
    requires q.owner == q'.owner && q.edges == q'.edges
    ensures QueryOf(q, text, world).edges == QueryOf(q', text, world).edges
  {
    assert Names(q) == Names(q');
  }

  lemma {:induction false} SameSelected(q: Select, q': Select, text: Text, world: World)
    requires Alike(q, q', world)
    ensures SelectedRows(q, text, world) == SelectedRows(q', text, world)
  {
    SameEdges(q, q', text, world);
    var from := FanOut.JoinAll(Map(world.owners(q.owner), (o: FanOut.Owner) => FanOut.Wide(o, [])),
        QueryOf(q, text, world).edges);
    var p, p' := QueryOf(q, text, world).condition, QueryOf(q', text, world).condition;
    FilterAlike(from, (w: Wide) => p(w) == True, (w: Wide) => p'(w) == True);
  }

  lemma {:induction false} SameBase(q: Select, q': Select, text: Text, world: World, w: Wide)
    requires Alike(q, q', world)
    ensures FanOut.AsBase(QueryOf(q, text, world))(w) == FanOut.AsBase(QueryOf(q', text, world))(w)
  {
    assert Names(q) == Names(q');
    assert DimsOn(q, world)(w) == DimsOn(q', world)(w);
  }

  lemma {:induction false} SameBases(q: Select, q': Select, text: Text, world: World, rows: seq<Wide>)
    requires Alike(q, q', world)
    ensures Map(rows, FanOut.AsBase(QueryOf(q, text, world))) == Map(rows, FanOut.AsBase(QueryOf(q', text, world)))
  {
    forall k | 0 <= k < |rows|
      ensures FanOut.AsBase(QueryOf(q, text, world))(rows[k]) == FanOut.AsBase(QueryOf(q', text, world))(rows[k])
    {
      SameBase(q, q', text, world, rows[k]);
    }
  }

  // ---------------------------------------------------------------- the parts of a key

  lemma {:induction false} SameExprs(a: Spec, b: Spec, text: Text, world: World)
    requires Faithful(text, world) && SpecKey(a, text) == SpecKey(b, text)
    ensures |a.dims| == |b.dims| && forall k :: 0 <= k < |a.dims| ==> SameScalar(a.dims[k].expr, b.dims[k].expr, world)
  {
    var ta, tb := SpecKey(a, text).dimensionExprs, SpecKey(b, text).dimensionExprs;
    assert |ta| == |a.dims| && |tb| == |b.dims|;
    forall k | 0 <= k < |a.dims|
      ensures SameScalar(a.dims[k].expr, b.dims[k].expr, world)
    {
      assert ta[k] == text.scalar(a.dims[k].expr) && tb[k] == text.scalar(b.dims[k].expr);
    }
  }

  lemma {:induction false} SameWhere(a: Spec, b: Spec, text: Text, world: World)
    requires Faithful(text, world) && SpecKey(a, text) == SpecKey(b, text)
    ensures forall row :: FilterKey.Where(a.conditions, row) == FilterKey.Where(b.conditions, row)
    ensures FilterKey.AllAtoms(a.conditions) == FilterKey.AllAtoms(b.conditions)
  {
    assert FilterKey.Key(a.conditions, text.cond) == FilterKey.Key(b.conditions, text.cond);
    forall row { FilterKey.EqualKeysSelectTheSameRows(a.conditions, b.conditions, text.cond, row); }
    FilterKey.EqualKeysSameAtoms(a.conditions, b.conditions, text.cond);
  }

  /** Equal keys of consistently planned leaves: the same joins, equivalent conditions and dimensions. */
  lemma {:induction false} SameKeyAlike(a: Spec, b: Spec, schema: Schema, text: Text, world: World)
    requires Faithful(text, world) && Joins.Declared(schema.graph) && Consistent(a, schema) && Consistent(b, schema)
    requires SpecKey(a, text) == SpecKey(b, text)
    ensures Alike(SelectOf(a), SelectOf(b), world)
    ensures a.strategy == b.strategy && a.params == b.params && Outputs(a) == Outputs(b)
  {
    SameExprs(a, b, text, world);
    SameWhere(a, b, text, world);
    JoinKeys.SamePathSameEdges(schema.graph, a.owner, a.edges, b.edges, text.on);
  }

  lemma {:induction false} SamePlainRows(a: Spec, b: Spec, schema: Schema, text: Text, world: World,
                                         metrics: seq<LeafMetric>, metrics': seq<LeafMetric>, fusable: bool)
    requires Alike(SelectOf(a), SelectOf(b), world) && a.strategy == b.strategy && a.params == b.params
    requires fusable || metrics == metrics'
    ensures BaseRows(a, text, world) == BaseRows(b, text, world)
    ensures PlainRows(a, schema, text, world, metrics, fusable) == PlainRows(b, schema, text, world, metrics', fusable)
  {
    SameSelected(SelectOf(a), SelectOf(b), text, world);
    SameBases(SelectOf(a), SelectOf(b), text, world, AdditiveRows(a, text, world));
    SameBases(SelectOf(a), SelectOf(b), text, world, SelectedRows(SelectOf(a), text, world));
  }

  // ---------------------------------------------------------------- finality

  lemma {:induction false} SameRealized(a: Spec, b: Spec, schema: Schema, source: string, world: World)
    requires Alike(SelectOf(a), SelectOf(b), world) && a.params == b.params && Outputs(a) == Outputs(b)
    requires FilterKey.AllAtoms(a.conditions) == FilterKey.AllAtoms(b.conditions)
    ensures Alike(RealizedSelect(a, schema, source), RealizedSelect(b, schema, source), world)
  {
    var f := (t: string) => schema.requalify(a.owner, source, t);
    var qa, qb := RealizedSelect(a, schema, source), RealizedSelect(b, schema, source);
    assert RealizedDims(a, schema, source) == RealizedDims(b, schema, source);
    assert Referenced(a, schema, source) == Referenced(b, schema, source);
    forall row
      ensures FilterKey.Where(qa.conditions, row) == FilterKey.Where(qb.conditions, row)
    {
      FilterKey.RequalifiedWhere(a.conditions, f, row);
      FilterKey.RequalifiedWhere(b.conditions, f, row);
      assert FilterKey.Where(SelectOf(a).conditions, FilterKey.Moved(row, f))
          == FilterKey.Where(SelectOf(b).conditions, FilterKey.Moved(row, f));
    }
  }

  lemma {:induction false} SameLoaded(a: Spec, b: Spec, schema: Schema, text: Text, world: World, source: string)
    requires Alike(SelectOf(a), SelectOf(b), world) && a.params == b.params && Outputs(a) == Outputs(b)
    requires FilterKey.AllAtoms(a.conditions) == FilterKey.AllAtoms(b.conditions)
    ensures LoadedOf(a, schema, text, world, source) == LoadedOf(b, schema, text, world, source)
  {
    var qa, qb := RealizedSelect(a, schema, source), RealizedSelect(b, schema, source);
    SameRealized(a, b, schema, source, world);
    SameSelected(qa, qb, text, world);
    var rows := SelectedRows(qa, text, world);
    var time := schema.timeDimension(Outputs(a));
    assert Names(qa) == Names(qb);
    forall k | 0 <= k < |rows|
      ensures StoredOf(qa, time, text, world)(rows[k]) == StoredOf(qb, time, text, world)(rows[k])
    {
      SameBase(qa, qb, text, world, rows[k]);
    }
    assert Map(rows, StoredOf(qa, time, text, world)) == Map(rows, StoredOf(qb, time, text, world));
  }

  lemma {:induction false} SameDataOf(a: Spec, b: Spec, ra: Finality.Rule, rb: Finality.Rule, schema: Schema,
      text: Text, world: World)
    requires Alike(SelectOf(a), SelectOf(b), world) && a.params == b.params && Outputs(a) == Outputs(b)
    requires FilterKey.AllAtoms(a.conditions) == FilterKey.AllAtoms(b.conditions)
    requires multiset(FinalityKeys.SourcesOf(ra)) == multiset(FinalityKeys.SourcesOf(rb))
    ensures DataOf(a, ra, schema, text, world) == DataOf(b, rb, schema, text, world)
  {
    var load, load' := Loading(a, schema, text, world), Loading(b, schema, text, world);
    forall source
      ensures load(source) == load'(source)
    {
      SameLoaded(a, b, schema, text, world, source);
    }
    SameLoads(FinalityKeys.SourcesOf(ra), FinalityKeys.SourcesOf(rb), load, load');
  }

  lemma {:induction false} SameLoads(sa: seq<string>, sb: seq<string>, load: string -> FinalityUnion.Loaded,
      load': string -> FinalityUnion.Loaded)
    requires multiset(sa) == multiset(sb) && forall source :: load(source) == load'(source)
    ensures LoadAll(sa, load) == LoadAll(sb, load')
  {
    assert forall x :: x in sa <==> x in multiset(sa);
    assert forall x :: x in sb <==> x in multiset(sb);
  }

  lemma {:induction false} SameUnion(a: Spec, b: Spec, schema: Schema, text: Text, world: World)
    requires Faithful(text, world) && a.finality.Some? && b.finality.Some?
    requires FinalityPart(a, text) == FinalityPart(b, text)
    requires Alike(SelectOf(a), SelectOf(b), world) && a.params == b.params && Outputs(a) == Outputs(b)
    requires FilterKey.AllAtoms(a.conditions) == FilterKey.AllAtoms(b.conditions)
    requires SameFinalSource(a.finality.value.rule, b.finality.value.rule)
    ensures multiset(BranchesOf(a, schema, text, world, [], true))
        == multiset(BranchesOf(b, schema, text, world, [], true))
  {
    var fa, fb := a.finality.value, b.finality.value;
    FinalityKeys.EqualKeysEqualSources(fa.rule, fb.rule, text.instant(fa.watermark), text.instant(fb.watermark),
      fa.flag, fb.flag);
    SameDataOf(a, b, fa.rule, fb.rule, schema, text, world);
    var k: nat, l: nat :| FinalityKeys.Valid(fa.rule, k) && FinalityKeys.Valid(fb.rule, l)
      && fa.rule.realizations[k].source == fb.rule.realizations[l].source;
    FinalityKeys.SameFinalSameBranches(fa.rule, k, fb.rule, l, DataOf(a, fa.rule, schema, text, world), fa.watermark,
      world.pick);
  }

  // ---------------------------------------------------------------- leaves

  /** The measures match the key: leaves whose builder wraps one measure group on it. */
  ghost predicate SameGroup(p: Planning, q: Planning, schema: Schema, text: Text, world: World) {
    Fusion.KeyOf(LeafOf(p, schema, text, world)) == Fusion.KeyOf(LeafOf(q, schema, text, world))
  }

  /** Leaves that group together return the same rows on every database, provided their joins were
      planned consistently and their rules, if any, name the same final source. */
  lemma {:induction false} EqualKeysEqualRows(p: Planning, q: Planning, schema: Schema, text: Text, world: World)
    requires Faithful(text, world) && Joins.Declared(schema.graph)
    requires Consistent(p.spec, schema) && Consistent(q.spec, schema) && RulesAgree(p.spec, q.spec)
    requires SameGroup(p, q, schema, text, world)
    ensures SameBody(LeafOf(p, schema, text, world), LeafOf(q, schema, text, world))
  {
    var a, b := p.spec, q.spec;
    SameKeyAlike(a, b, schema, text, world);
    SameWhere(a, b, text, world);
    SamePlainRows(a, b, schema, text, world, p.metrics, q.metrics, p.fusable);
    assert |Outputs(a)| == |a.dims| && |Outputs(b)| == |b.dims|;
    assert a.finality.Some? <==> |SpecKey(a, text).finality| > 0;
    assert b.finality.Some? <==> |SpecKey(b, text).finality| > 0;
    if a.finality.Some? {
      SameUnion(a, b, schema, text, world);
    }
  }

  /** A query's planned leaves. */
  function LeavesOf(ps: seq<Planning>, schema: Schema, text: Text, world: World): seq<LeafPlan> {
    Map(ps, (p: Planning) => LeafOf(p, schema, text, world))
  }

  /** What is left to ask of leaves that group together: under one key a column name means one measure,
      and rules name the same final source. */
  ghost predicate GroupsAgree(ps: seq<Planning>, schema: Schema, text: Text, world: World) {
    forall i, j :: 0 <= i < |ps| && 0 <= j < |ps| && SameGroup(ps[i], ps[j], schema, text, world) ==>
      AliasesAgree(ps[i].metrics, ps[j].metrics) && RulesAgree(ps[i].spec, ps[j].spec)
  }

  /** The premise of fusion holds for planned leaves. */
  lemma {:induction false} PlannedKeysAreSound(ps: seq<Planning>, schema: Schema, text: Text, world: World)
    requires Faithful(text, world) && Joins.Declared(schema.graph)
    requires forall i :: 0 <= i < |ps| ==> Consistent(ps[i].spec, schema)
    requires GroupsAgree(ps, schema, text, world)
    ensures KeysSound(LeavesOf(ps, schema, text, world))
  {
    var leaves := LeavesOf(ps, schema, text, world);
    forall i, j | 0 <= i < |leaves| && 0 <= j < |leaves| && Fusion.KeyOf(leaves[i]) == Fusion.KeyOf(leaves[j])
      ensures SameBody(leaves[i], leaves[j]) && AliasesAgree(leaves[i].metrics, leaves[j].metrics)
    {
      assert SameGroup(ps[i], ps[j], schema, text, world);
      EqualKeysEqualRows(ps[i], ps[j], schema, text, world);
    }
  }
}
