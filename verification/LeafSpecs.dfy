/** What a leaf is planned from, the key it gets, and the rows its SELECT returns. */
module LeafSpecs {
  import opened Relational
  import opened Plans
  import FilterKey
  import Joins
  import JoinPlan
  import JoinKeys
  import AliasTree
  import FanOut
  import Finality
  import FinalityUnion
  import FinalityKeys

  // ---------------------------------------------------------------- specifications

  /** A dimension's expression: a column, with granularity, masking and time offset applied. */
  datatype Scalar = Field(alias: string, column: string) | Constant(text: string) | Call(name: string,
      args: seq<Scalar>)

  /** A requested dimension: its output column and its expression. */
  datatype Dimension = Dimension(output: string, expr: Scalar)

  /** The finality rule of a leaf, with its evaluated watermark. */
  datatype FinalityOf = FinalityOf(rule: Finality.Rule, watermark: int, flag: string)

  /** The resolved plan of a leaf. Time offsets are part of `params`. */
  datatype Spec = Spec(
    owner: string, strategy: string, params: seq<(string, string)>, dims: seq<Dimension>,
    conditions: seq<FilterKey.Cond>, edges: seq<Joins.JoinEdge>, finality: Option<FinalityOf>)

  /** How conditions, dimension expressions, ON clauses and watermarks are written as text. */
  datatype Text = Text(
    cond: FilterKey.Render, scalar: Scalar -> string, on: Joins.JoinEdge -> string, instant: int -> string)

  /** What is declared: the joins, which strategies have a builder of their own, and how names resolve. */
  datatype Schema = Schema(
    graph: Joins.Graph, custom: set<string>, orderOf: (string, seq<(string, string)>, seq<string>) -> seq<nat>,
    tablesOf: string -> set<string>, requalify: (string, string, string) -> string,
    dimension: (string, string, seq<(string, string)>) -> (string, Scalar),
    timeDimension: seq<string> -> string, sorted: set<string> -> seq<string>)

  type Wide = FanOut.Wide

  /** A database and an engine: the tables, what expressions evaluate to on a row joined under the given
      aliases, and which row DISTINCT ON keeps. */
  datatype World = World(
    owners: string -> seq<FanOut.Owner>, tables: string -> seq<Tuple>,
    atom: (seq<string>, string, Wide) -> Truth, scalar: (seq<string>, Scalar, Wide) -> Dim,
    on: (seq<string>, string, Wide, Tuple) -> Truth, time: (seq<string>, string, Wide) -> Option<int>,
    distinct: seq<Wide> -> seq<Wide>, pick: FinalityUnion.Pick,
    build: (string, seq<(string, string)>, seq<LeafMetric>, seq<BaseRow>) -> seq<BaseRow>,
    visible: (string, seq<(string, string)>, seq<BaseRow>) -> Option<seq<Tuple>>)

  // ---------------------------------------------------------------- the key

  function Outputs(s: Spec): seq<string> {
    Map(s.dims, (d: Dimension) => d.output)
  }

  function FinalityPart(s: Spec, text: Text): seq<string> {
    match s.finality
    case None => []
    case Some(f) => FinalityKeys.FinalityKey(f.rule, text.instant(f.watermark), f.flag)
  }

  /** The leaf key without its measures. */
  function SpecKey(s: Spec, text: Text): FusionKey {
    FusionKey(s.owner, s.strategy, Outputs(s), Map(s.dims, (d: Dimension) => text.scalar(d.expr)),
              FilterKey.Key(s.conditions, text.cond), JoinKeys.JoinPathOf(s.edges, text.on), FinalityPart(s, text),
              s.params)
  }

  // ---------------------------------------------------------------- the rows

  /** FROM, joins and WHERE of one SELECT. */
  datatype Select = Select(owner: string, edges: seq<Joins.JoinEdge>, conditions: seq<FilterKey.Cond>,
      exprs: seq<Scalar>)

  function Names(q: Select): seq<string> {
    [q.owner] + Joins.Route(q.edges)
  }

  function AtomsOn(names: seq<string>, w: Wide, world: World): FilterKey.Row {
    (t: string) => world.atom(names, t, w)
  }

  function OnOf(names: seq<string>, sql: string, world: World): (Wide, Tuple) -> Truth {
    (w: Wide, t: Tuple) => world.on(names, sql, w, t)
  }

  function EdgeOf(q: Select, text: Text, world: World): Joins.JoinEdge -> FanOut.Edge {
    (e: Joins.JoinEdge) => FanOut.Edge(e.join.relationship, world.tables(e.join.to), OnOf(Names(q), text.on(e), world))
  }

  function DimsOn(q: Select, world: World): Wide -> Tuple {
    (w: Wide) => Map(q.exprs, (x: Scalar) => world.scalar(Names(q), x, w))
  }

  function QueryOf(q: Select, text: Text, world: World): FanOut.Query {
    FanOut.Query(Map(q.edges, EdgeOf(q, text, world)),
                 (w: Wide) => FilterKey.Where(q.conditions, AtomsOn(Names(q), w, world)), DimsOn(q, world))
  }

  function SelectedRows(q: Select, text: Text, world: World): seq<Wide> {
    FanOut.Selected(world.owners(q.owner), QueryOf(q, text, world))
  }

  predicate FansOut(edges: seq<Joins.JoinEdge>) {
    exists e :: e in edges && (e.join.relationship == Joins.OneToMany || e.join.relationship == Joins.ManyToMany)
  }

  function SelectOf(s: Spec): Select {
    Select(s.owner, s.edges, s.conditions, Map(s.dims, (d: Dimension) => d.expr))
  }

  /** The additive builder: aggregate the selected rows, or one per owner grain where the joins fan out. */
  function AdditiveRows(s: Spec, text: Text, world: World): seq<Wide> {
    var rows := SelectedRows(SelectOf(s), text, world);
    if FansOut(s.edges) then world.distinct(rows) else rows
  }

  function BaseRows(s: Spec, text: Text, world: World): seq<BaseRow> {
    Map(AdditiveRows(s, text, world), FanOut.AsBase(QueryOf(SelectOf(s), text, world)))
  }

  /** A strategy with its own builder aggregates a shape of its own over the selected rows. One that
      wraps exactly one measure may depend on it. */
  function PlainRows(s: Spec, schema: Schema, text: Text, world: World, metrics: seq<LeafMetric>,
      fusable: bool): seq<BaseRow>
  {
    if s.strategy in schema.custom then
      world.build(s.strategy, s.params, if fusable then [] else metrics,
                  Map(SelectedRows(SelectOf(s), text, world), FanOut.AsBase(QueryOf(SelectOf(s), text, world))))
    else BaseRows(s, text, world)
  }

  // ---------------------------------------------------------------- one realization

  function RealizedDims(s: Spec, schema: Schema, source: string): seq<(string, Scalar)> {
    Map(Outputs(s), (output: string) => schema.dimension(source, output, s.params))
  }

  /** Every alias a realization's dimensions and the leaf's conditions refer to. */
  function Referenced(s: Spec, schema: Schema, source: string): set<string> {
    (set d | d in RealizedDims(s, schema, source) :: d.0)
    + (set a, t | a in FilterKey.AllAtoms(s.conditions) && t in schema.tablesOf(a) :: t)
  }

  /** The joins planned for a realization on its own: to the source of every alias referred to that the
      realization's alias tree knows. */
  function RealizedEdges(s: Spec, schema: Schema, source: string): seq<Joins.JoinEdge> {
    var tree := AliasTree.AliasTreeOf(schema.graph, source);
    var needed := set a | a in Referenced(s, schema, source) && a != source && a in tree :: tree[a];
    match JoinPlan.PlanFrom(schema.graph, source, schema.sorted(needed), None, [], {source})
    case Planned(edges) => edges
    case _ => []
  }

  function RealizedSelect(s: Spec, schema: Schema, source: string): Select {
    Select(source, RealizedEdges(s, schema, source),
           FilterKey.AllRequalified(s.conditions, (t: string) => schema.requalify(s.owner, source, t)),
           Map(RealizedDims(s, schema, source), (d: (string, Scalar)) => d.1))
  }

  function StoredOf(q: Select, timeDim: string, text: Text, world: World): Wide -> FinalityUnion.Stored {
    (w: Wide) => FinalityUnion.Stored(world.time(Names(q), timeDim, w), w.owner.grain,
      FanOut.AsBase(QueryOf(q, text, world))(w))
  }

  /** A realization's rows before its gate. */
  function LoadedOf(s: Spec, schema: Schema, text: Text, world: World, source: string): FinalityUnion.Loaded {
    var q := RealizedSelect(s, schema, source);
    FinalityUnion.Loaded(map[], {}, FansOut(q.edges),
      Map(SelectedRows(q, text, world), StoredOf(q, schema.timeDimension(Outputs(s)), text, world)))
  }

  function Loading(s: Spec, schema: Schema, text: Text, world: World): string -> FinalityUnion.Loaded {
    (source: string) => LoadedOf(s, schema, text, world, source)
  }

  function LoadAll(sources: seq<string>, load: string -> FinalityUnion.Loaded): FinalityUnion.Data {
    map source | source in sources :: load(source)
  }

  function DataOf(s: Spec, rule: Finality.Rule, schema: Schema, text: Text, world: World): FinalityUnion.Data {
    LoadAll(FinalityKeys.SourcesOf(rule), Loading(s, schema, text, world))
  }

  // ---------------------------------------------------------------- the planned leaf

  function BranchesOf(s: Spec, schema: Schema, text: Text, world: World, metrics: seq<LeafMetric>,
      fusable: bool): seq<Branch>
  {
    match s.finality
    case Some(f) => FinalityKeys.RuleUnion(f.rule, DataOf(s, f.rule, schema, text, world), f.watermark, world.pick)
    case None => [Branch(true, PlainRows(s, schema, text, world, metrics, fusable))]
  }

  /** A specification with the measures, the fusability and the metadata it is planned with. */
  datatype Planning = Planning(spec: Spec, metrics: seq<LeafMetric>, fusable: bool, meta: Meta)

  function LeafOf(p: Planning, schema: Schema, text: Text, world: World): LeafPlan {
    var s := p.spec;
    LeafPlan(SpecKey(s, text), p.metrics, p.fusable, |s.dims|, s.finality.Some?,
             BranchesOf(s, schema, text, world, p.metrics, p.fusable),
             schema.orderOf(s.strategy, s.params, Outputs(s)),
             world.visible(s.strategy, s.params, BaseRows(s, text, world)), p.meta)
  }
}
