/** What equal keys do not say: the roles of a rule's sources, and the source behind a join alias. */
module LooseKeys {
  import opened Relational
  import opened Plans
  import opened Fusion
  import opened Leaves
  import opened LeafSpecs
  import Joins
  import JoinKeys
  import FanOut
  import Bags
  import Finality
  import FinalityUnion
  import FinalityKeys

  // ---------------------------------------------------------------- fused finality leaves

  /** Two leaves, the second of which is served by the CTE of the first if their keys agree. */
  ghost predicate ServedByOwnRows(leaves: seq<LeafPlan>) {
    var st := Fused(leaves, true);
    && |st.owner| == |leaves|
    && forall i :: 0 <= i < |leaves| ==> ServedAt(leaves, st, i)
  }

  ghost predicate ServedAt(leaves: seq<LeafPlan>, st: FuseState, i: nat)
    requires i < |leaves| && |st.owner| == |leaves|
  {
    st.owner[i] < |st.physical| && SameRows(st.physical[st.owner[i]].keyLeaf, leaves[i])
  }

  lemma {:induction false} ServedIfSame(a: LeafPlan, b: LeafPlan)
    requires Fusion.KeyOf(a) == Fusion.KeyOf(b)
    ensures ServedByOwnRows([a, b]) <==> SameRows(a, b)
  {
    var leaves := [a, b];
    var st := Fused(leaves, true);
    FusedOwners(leaves, true);
    SharingIsKeyEquality(leaves, true, 0, 1);
    assert Founded(st, leaves, st.owner[0]);
    FirstFounds(a, b);
    assert ServedByOwnRows(leaves) <==> ServedAt(leaves, st, 0) && ServedAt(leaves, st, 1);
  }

  lemma {:induction false} FirstFounds(a: LeafPlan, b: LeafPlan)
    requires Fusion.KeyOf(a) == Fusion.KeyOf(b)
    ensures var st := Fused([a, b], true);
      |st.owner| == 2 && |st.physical| == 1 && st.owner[0] == 0 && st.physical[0].keyLeaf == a
  {
    assert [a, b][..1] == [a] && [a][..0] == [];
    assert Fused([a], true) == Step(Fused([], true), a, true);
    assert Fused([a, b], true) == Step(Fused([a], true), b, true);
  }

  /** A finality leaf over one dimension: its key but for finality is `key`. */
  function RuleLeaf(key: FusionKey, rule: Finality.Rule, iso: string, flag: string, metrics: seq<LeafMetric>,
                    data: FinalityUnion.Data, watermark: int, pick: FinalityUnion.Pick): LeafPlan
  {
    LeafPlan(key.(finality := FinalityKeys.FinalityKey(rule, iso, flag)), metrics, true, 1, true,
             FinalityKeys.RuleUnion(rule, data, watermark, pick), [], None, NO_META)
  }

  /** Two finality leaves whose rules have equal keys share a CTE. On every data set that CTE has the rows
      of both if and only if the final realizations name the same source. */
  lemma {:induction false} FusedRulesServeOwnRowsIff(
    key: FusionKey, metrics: seq<LeafMetric>, a: Finality.Rule, fa: nat, b: Finality.Rule, fb: nat,
    iso: string, flag: string, watermark: int, pick: FinalityUnion.Pick)
    requires FinalityKeys.Valid(a, fa) && FinalityKeys.Valid(b, fb)
    requires FinalityKeys.FinalityKey(a, iso, flag) == FinalityKeys.FinalityKey(b, iso, flag)
    ensures (forall data :: ServedByOwnRows([RuleLeaf(key, a, iso, flag, metrics, data, watermark, pick),
                                             RuleLeaf(key, b, iso, flag, metrics, data, watermark, pick)]))
       <==> a.realizations[fa].source == b.realizations[fb].source
  {
    var source := a.realizations[fa].source;
    if source == b.realizations[fb].source {
      forall data
        ensures ServedByOwnRows([RuleLeaf(key, a, iso, flag, metrics, data, watermark, pick),
                                 RuleLeaf(key, b, iso, flag, metrics, data, watermark, pick)])
      {
        var l, l' :=
            RuleLeaf(key, a, iso, flag, metrics, data, watermark, pick),
            RuleLeaf(key, b, iso, flag, metrics, data, watermark, pick);
        FinalityKeys.EqualKeysEqualSources(a, b, iso, iso, flag, flag);
        FinalityKeys.SameFinalSameBranches(a, fa, b, fb, data, watermark, pick);
        SameBranchesSameRows(l, l');
        ServedIfSame(l, l');
      }
    } else {
      var data := FinalityKeys.OnlyIn(source, watermark);
      var l, l' :=
          RuleLeaf(key, a, iso, flag, metrics, data, watermark, pick),
          RuleLeaf(key, b, iso, flag, metrics, data, watermark, pick);
      FinalityKeys.OwnFinalReturns(a, fa, watermark, pick);
      FinalityKeys.OtherFinalReturnsNothing(b, fb, source, watermark, pick);
      ReturnedRowsDiffer(l, l', FinalityKeys.WITNESS);
      ServedIfSame(l, l');
    }
  }

  /** A final row that only one of two leaves returns is in a group that only one of them has. */
  lemma {:induction false} ReturnedRowsDiffer(a: LeafPlan, b: LeafPlan, r: BaseRow)
    requires a.dimCount > 0 && b.dimCount > 0
    requires FinalityKeys.Returns(a.branches, true, r) && !FinalityKeys.Returns(b.branches, true, r)
    ensures !SameRows(a, b)
  {
    var x :| x in a.branches && x.isFinal && r in x.rows;
    Bags.GroupsAreMade(x, a.dimCount);
    Bags.KeysCover(x.rows);
    var keys := Distinct(Map(x.rows, Bags.DimsOf()));
    var k :| 0 <= k < |keys| && keys[k] == r.dims;
    var g := GroupsOf(x, a.dimCount)[k];
    assert g == Group(r.dims, true, Bags.Keyed(x.rows, Bags.DimsOf(), r.dims)) && r in g.rows;
    LeafGroup(a, g);
    GroupReturns(b, g, r);
  }

  lemma {:induction false} GroupReturns(l: LeafPlan, g: Group, r: BaseRow)
    requires l.dimCount > 0 && g.flag && r in g.rows
    ensures g in Groups(l) ==> FinalityKeys.Returns(l.branches, true, r)
  {
    if g in Groups(l) {
      LeafGroup(l, g);
      var x :| x in l.branches && g in GroupsOf(x, l.dimCount);
      Bags.GroupsAreMade(x, l.dimCount);
    }
  }

  // ---------------------------------------------------------------- join targets

  /** FROM and joins of a SELECT, before its WHERE. */
  function JoinedRows(q: Select, text: Text, world: World): seq<Wide> {
    FanOut.JoinAll(Map(world.owners(q.owner), (o: FanOut.Owner) => FanOut.Wide(o, [])), QueryOf(q, text, world).edges)
  }

  function TargetsOf(edges: seq<Joins.JoinEdge>): (r: seq<string>)
    ensures |r| == |edges|
  {
    Map(edges, (e: Joins.JoinEdge) => e.join.to)
  }

  function Joining(owner: string, edges: seq<Joins.JoinEdge>): Select {
    Select(owner, edges, [], [])
  }

  lemma {:induction false} SameTablesSameRows(rows: seq<Wide>, a: seq<FanOut.Edge>, b: seq<FanOut.Edge>)
    requires |a| == |b| && forall k :: 0 <= k < |a| ==> a[k].table == b[k].table && a[k].on == b[k].on
    ensures FanOut.JoinAll(rows, a) == FanOut.JoinAll(rows, b)
    decreases |a|
  {
    if a != [] {
      forall w: Wide
        ensures FanOut.Extend(w, a[0]) == FanOut.Extend(w, b[0])
      {
        assert FanOut.Partners(w, a[0]) == FanOut.Partners(w, b[0]);
      }
      assert Map(rows, (w: Wide) => FanOut.Extend(w, a[0])) == Map(rows, (w: Wide) => FanOut.Extend(w, b[0]));
      assert FanOut.LeftJoin(rows, a[0]) == FanOut.LeftJoin(rows, b[0]);
      SameTablesSameRows(FanOut.LeftJoin(rows, a[0]), a[1..], b[1..]);
    }
  }

  lemma {:induction false} SamePathSameNames(owner: string, a: seq<Joins.JoinEdge>, b: seq<Joins.JoinEdge>, text: Text)
    requires JoinKeys.JoinPathOf(a, text.on) == JoinKeys.JoinPathOf(b, text.on)
    ensures |a| == |b| && Names(Joining(owner, a)) == Names(Joining(owner, b))
    ensures forall k :: 0 <= k < |a| ==> text.on(a[k]) == text.on(b[k])
  {
    var pa, pb := JoinKeys.JoinPathOf(a, text.on), JoinKeys.JoinPathOf(b, text.on);
    assert |pa| == |a| && |pb| == |b|;
    forall k | 0 <= k < |a|
      ensures a[k].Alias() == b[k].Alias() && text.on(a[k]) == text.on(b[k])
    {
      assert pa[k] == pb[k];
    }
    assert Joins.Route(a) == Joins.Route(b);
  }

  lemma {:induction false} SameTargetsSameRows(owner: string, a: seq<Joins.JoinEdge>, b: seq<Joins.JoinEdge>,
      text: Text, world: World)
    requires JoinKeys.JoinPathOf(a, text.on) == JoinKeys.JoinPathOf(b, text.on) && TargetsOf(a) == TargetsOf(b)
    ensures JoinedRows(Joining(owner, a), text, world) == JoinedRows(Joining(owner, b), text, world)
  {
    SamePathSameNames(owner, a, b, text);
    var ea, eb := QueryOf(Joining(owner, a), text, world).edges, QueryOf(Joining(owner, b), text, world).edges;
    forall k | 0 <= k < |ea|
      ensures ea[k].table == eb[k].table && ea[k].on == eb[k].on
    {
      assert TargetsOf(a)[k] == TargetsOf(b)[k];
    }
    SameTablesSameRows(Map(world.owners(owner), (o: FanOut.Owner) => FanOut.Wide(o, [])), ea, eb);
  }

  /** One owner row, every ON clause true, and one row in `source` alone. */
  function Lone(source: string): World {
    World((s: string) => [FanOut.Owner([], [])], (s: string) => if s == source then [[]] else [],
          (names: seq<string>, t: string, w: Wide) => True, (names: seq<string>, x: Scalar, w: Wide) => NullDim,
          (names: seq<string>, sql: string, w: Wide, t: Tuple) => True,
          (names: seq<string>, t: string, w: Wide) => None,
          (rows: seq<Wide>) => rows, (rows: seq<FinalityUnion.Stored>) => rows,
          (s: string, ps: seq<(string, string)>, ms: seq<LeafMetric>, rows: seq<BaseRow>) => rows,
          (s: string, ps: seq<(string, string)>, rows: seq<BaseRow>) => None)
  }

  /** Which joins found the one row. */
  function Found(edges: seq<Joins.JoinEdge>, source: string): (r: seq<Option<Tuple>>)
    ensures |r| == |edges|
  {
    Map(edges, (e: Joins.JoinEdge) => if e.join.to == source then Some([]) else None)
  }

  lemma {:induction false} LonePartners(w: Wide, source: string, q: Select, e: Joins.JoinEdge, text: Text)
    ensures FanOut.Partners(w, EdgeOf(q, text, Lone(source))(e)) == if e.join.to == source then [[]] else []
  {
    var edge := EdgeOf(q, text, Lone(source))(e);
    assert edge.table == if e.join.to == source then [[]] else [];
    forall t | t in edge.table
      ensures edge.on(w, t) == True
    {
      assert edge.on(w, t) == Lone(source).on(Names(q), text.on(e), w, t);
    }
    FilterKeepsAll(edge.table, (t: Tuple) => edge.on(w, t) == True);
  }

  lemma {:induction false} OneRowJoin(w: Wide, edge: FanOut.Edge)
    ensures FanOut.LeftJoin([w], edge) == FanOut.Extend(w, edge)
  {
    var parts := Map([w], (w: Wide) => FanOut.Extend(w, edge));
    assert parts == [FanOut.Extend(w, edge)] && parts[..0] == [];
    assert Flatten(parts) == Flatten(parts[..0]) + parts[0];
  }

  /** The edge adds exactly `hit` to any row. */
  ghost predicate Hits(edge: FanOut.Edge, hit: Option<Tuple>) {
    forall w: Wide :: FanOut.LeftJoin([w], edge) == [With(w, [hit])]
  }

  function With(w: Wide, hits: seq<Option<Tuple>>): Wide {
    FanOut.Wide(w.owner, w.joined + hits)
  }

  lemma {:induction false} WithBoth(w: Wide, hits: seq<Option<Tuple>>)
    ensures With(w, []) == w
    ensures hits != [] ==> With(With(w, [hits[0]]), hits[1..]) == With(w, hits)
  {
    assert w.joined + [] == w.joined;
    if hits != [] {
      assert w.joined + hits == w.joined + [hits[0]] + hits[1..];
    }
  }

  lemma {:induction false} JoinsOneByOne(w: Wide, edges: seq<FanOut.Edge>, hits: seq<Option<Tuple>>)
    requires |edges| == |hits| && forall k :: 0 <= k < |edges| ==> Hits(edges[k], hits[k])
    ensures FanOut.JoinAll([w], edges) == [With(w, hits)]
    decreases |edges|
  {
    WithBoth(w, hits);
    if edges != [] {
      assert Hits(edges[0], hits[0]);
      var w' := With(w, [hits[0]]);
      assert FanOut.LeftJoin([w], edges[0]) == [w'];
      JoinsOneByOne(w', edges[1..], hits[1..]);
    }
  }

  lemma {:induction false} LoneJoins(w: Wide, source: string, q: Select, edges: seq<Joins.JoinEdge>, text: Text)
    ensures FanOut.JoinAll([w], Map(edges, EdgeOf(q, text, Lone(source)))) == [With(w, Found(edges, source))]
  {
    var joins, hits := Map(edges, EdgeOf(q, text, Lone(source))), Found(edges, source);
    forall k | 0 <= k < |joins|
      ensures Hits(joins[k], hits[k])
    {
      LoneHits(source, q, edges[k], text);
    }
    JoinsOneByOne(w, joins, hits);
  }

  lemma {:induction false} LoneHits(source: string, q: Select, e: Joins.JoinEdge, text: Text)
    ensures Hits(EdgeOf(q, text, Lone(source))(e), if e.join.to == source then Some([]) else None)
  {
    var edge := EdgeOf(q, text, Lone(source))(e);
    forall w: Wide
      ensures FanOut.LeftJoin([w], edge) == [With(w, [if e.join.to == source then Some([]) else None])]
    {
      LonePartners(w, source, q, e, text);
      OneRowJoin(w, edge);
    }
  }

  /** Equal join paths denote the same joined rows on every database if and only if the joins have the same
      target sources. */
  lemma {:induction false} EqualPathsSameRowsIff(owner: string, a: seq<Joins.JoinEdge>, b: seq<Joins.JoinEdge>,
      text: Text)
    requires JoinKeys.JoinPathOf(a, text.on) == JoinKeys.JoinPathOf(b, text.on)
    ensures (forall world :: JoinedRows(Joining(owner, a), text, world) == JoinedRows(Joining(owner, b), text, world))
       <==> TargetsOf(a) == TargetsOf(b)
  {
    SamePathSameNames(owner, a, b, text);
    if TargetsOf(a) == TargetsOf(b) {
      forall world
        ensures JoinedRows(Joining(owner, a), text, world) == JoinedRows(Joining(owner, b), text, world)
      {
        SameTargetsSameRows(owner, a, b, text, world);
      }
    } else {
      var k :| 0 <= k < |a| && TargetsOf(a)[k] != TargetsOf(b)[k];
      var source := a[k].join.to;
      var w := FanOut.Wide(FanOut.Owner([], []), []);
      assert Map(Lone(source).owners(owner), (o: FanOut.Owner) => FanOut.Wide(o, [])) == [w];
      LoneJoins(w, source, Joining(owner, a), a, text);
      LoneJoins(w, source, Joining(owner, b), b, text);
      assert Found(a, source)[k] == Some([]) && Found(b, source)[k] == None;
      assert ([] + Found(a, source))[k] != ([] + Found(b, source))[k];
      assert With(w, Found(a, source)) != With(w, Found(b, source));
      assert JoinedRows(Joining(owner, a), text, Lone(source)) != JoinedRows(Joining(owner, b), text, Lone(source));
    }
  }
}
