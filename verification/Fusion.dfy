/** Collapsing planned leaves into the CTEs that are emitted. */
module Fusion {
  import opened Relational
  import opened Plans
  import opened Semantics

  /** What a leaf groups on: its plan without measures, or the whole key when its builder wraps
      exactly one measure. */
  datatype GroupKey = Blind(key: FusionKey) | Exact(key: FusionKey, measures: seq<LeafMetric>)

  function KeyOf(l: LeafPlan): GroupKey {
    if l.fusable then Blind(l.key) else Exact(l.key, l.metrics)
  }

  /** One emitted CTE: the leaf it is rebuilt from, the columns it projects, merged metadata. */
  datatype Phys = Phys(keyLeaf: LeafPlan, metrics: seq<LeafMetric>, meta: Meta)

  const NO_META := Meta([], [], {}, {}, {}, None)

  function Aliases(metrics: seq<LeafMetric>): (r: seq<string>)
    ensures |r| == |metrics|
    ensures forall k :: 0 <= k < |r| ==> r[k] == metrics[k].alias
  {
    Map(metrics, (m: LeafMetric) => m.alias)
  }

  /** Append the metrics whose column is not projected yet. */
  function Absorb(have: seq<LeafMetric>, more: seq<LeafMetric>): seq<LeafMetric>
    decreases |more|
  {
    if more == [] then have
    else if more[0].alias in Aliases(have) then Absorb(have, more[1..])
    else Absorb(have + [more[0]], more[1..])
  }

  function AppendNew(have: seq<string>, more: seq<string>): (r: seq<string>)
    ensures Elems(r) == Elems(have) + Elems(more)
    decreases |more|
  {
    if more == [] then have
    else
      assert more == [more[0]] + more[1..];
      if more[0] in have then AppendNew(have, more[1..])
      else AppendNew(have + [more[0]], more[1..])
  }

  function MergeMeta(a: Meta, b: Meta): Meta {
    Meta(a.fired + Filter(b.fired, (g: string) => g !in a.fired), AppendNew(a.warnings, b.warnings),
         a.used + b.used, a.scoped + b.scoped, a.shared + b.shared,
         if b.finality.Some? then b.finality else a.finality)
  }

  // ---------------------------------------------------------------- specification

  datatype FuseState = FuseState(physical: seq<Phys>, index: map<GroupKey, nat>, owner: seq<nat>)

  function Step(st: FuseState, l: LeafPlan, dedup: bool): FuseState {
    var k := KeyOf(l);
    if dedup && k in st.index && st.index[k] < |st.physical| then
      var i := st.index[k];
      FuseState(st.physical[i := Extend(st.physical[i], l)], st.index, st.owner + [i])
    else
      FuseState(st.physical + [Extend(Phys(l, [], NO_META), l)],
                if dedup then st.index[k := |st.physical|] else st.index,
                st.owner + [|st.physical|])
  }

  function Extend(p: Phys, l: LeafPlan): Phys {
    Phys(p.keyLeaf, Absorb(p.metrics, l.metrics), MergeMeta(p.meta, l.meta))
  }

  function Fused(leaves: seq<LeafPlan>, dedup: bool): FuseState {
    if leaves == [] then FuseState([], map[], [])
    else Step(Fused(leaves[..|leaves| - 1], dedup), leaves[|leaves| - 1], dedup)
  }

  // ---------------------------------------------------------------- implementation

  /** A CTE under construction. */
  class Physical {
    const keyLeaf: LeafPlan
    var metrics: seq<LeafMetric>
    var columns: seq<string>
    var meta: Meta

    ghost predicate Valid()
      reads this
    {
      columns == Aliases(metrics)
    }

    function View(): Phys
      reads this
    {
      Phys(keyLeaf, metrics, meta)
    }

    constructor (leaf: LeafPlan)
      ensures Valid() && View() == Phys(leaf, [], NO_META)
    {
      keyLeaf := leaf;
      metrics, columns, meta := [], [], NO_META;
    }

    /** Project the leaf's columns that are not projected already. */
    method ProjectColumns(leaf: LeafPlan)
      requires Valid()
      modifies this
      ensures Valid() && meta == old(meta)
      ensures metrics == Absorb(old(metrics), leaf.metrics)
    {
      var k := 0;
      while k < |leaf.metrics|
        invariant 0 <= k <= |leaf.metrics|
        invariant Valid() && meta == old(meta)
        invariant Absorb(metrics, leaf.metrics[k..]) == Absorb(old(metrics), leaf.metrics)
      {
        assert leaf.metrics[k..][1..] == leaf.metrics[k + 1..];
        if leaf.metrics[k].alias !in columns {
          columns := columns + [leaf.metrics[k].alias];
          metrics := metrics + [leaf.metrics[k]];
        }
        k := k + 1;
      }
    }

    /** Union one planned leaf's metadata into this CTE. */
    method MergeInto(leaf: LeafPlan)
      requires Valid()
      modifies this
      ensures Valid() && metrics == old(metrics)
      ensures meta == MergeMeta(old(meta), leaf.meta)
    {
      var seen := meta.fired;
      var warnings, k := meta.warnings, 0;
      while k < |leaf.meta.warnings|
        invariant 0 <= k <= |leaf.meta.warnings|
        invariant AppendNew(warnings, leaf.meta.warnings[k..]) == AppendNew(meta.warnings, leaf.meta.warnings)
      {
        assert leaf.meta.warnings[k..][1..] == leaf.meta.warnings[k + 1..];
        if leaf.meta.warnings[k] !in warnings {
          warnings := warnings + [leaf.meta.warnings[k]];
        }
        k := k + 1;
      }
      meta := Meta(meta.fired + Filter(leaf.meta.fired, (g: string) => g !in seen), warnings,
                   meta.used + leaf.meta.used, meta.scoped + leaf.meta.scoped, meta.shared + leaf.meta.shared,
                   if leaf.meta.finality.Some? then leaf.meta.finality else meta.finality);
    }
  }

  /** The CTEs are distinct objects that hold the specified contents. */
  ghost predicate Holds(physical: seq<Physical>, spec: seq<Phys>)
    reads physical
  {
    && |physical| == |spec|
    && NoDup(physical)
    && forall i :: 0 <= i < |physical| ==> physical[i].Valid() && physical[i].View() == spec[i]
  }

  /** Collapse planned leaves into CTEs; `ownerOf[i]` is the CTE that serves leaf `i`. */
  method Fuse(leaves: seq<LeafPlan>, dedup: bool) returns (physical: seq<Physical>, ownerOf: seq<nat>)
    ensures forall i :: 0 <= i < |physical| ==> fresh(physical[i])
    ensures Holds(physical, Fused(leaves, dedup).physical)
    ensures ownerOf == Fused(leaves, dedup).owner
  {
    physical, ownerOf := [], [];
    var byKey: map<GroupKey, nat> := map[];
    for n := 0 to |leaves|
      invariant forall i :: 0 <= i < |physical| ==> fresh(physical[i])
      invariant Holds(physical, Fused(leaves[..n], dedup).physical)
      invariant byKey == Fused(leaves[..n], dedup).index && ownerOf == Fused(leaves[..n], dedup).owner
    {
      assert leaves[..n + 1][..n] == leaves[..n];
      physical, byKey, ownerOf := Place(physical, byKey, ownerOf, leaves[n], dedup, Fused(leaves[..n], dedup));
    }
    assert leaves[..|leaves|] == leaves;
  }

  /** One round of the fusion loop. */
  method Place(physical: seq<Physical>, byKey: map<GroupKey, nat>, ownerOf: seq<nat>, leaf: LeafPlan, dedup: bool,
      ghost st: FuseState)
    returns (physical': seq<Physical>, byKey': map<GroupKey, nat>, ownerOf': seq<nat>)
    requires Holds(physical, st.physical) && byKey == st.index && ownerOf == st.owner
    modifies physical
    ensures physical <= physical' && forall i :: |physical| <= i < |physical'| ==> fresh(physical'[i])
    ensures Holds(physical', Step(st, leaf, dedup).physical)
    ensures byKey' == Step(st, leaf, dedup).index && ownerOf' == Step(st, leaf, dedup).owner
  {
    var key := KeyOf(leaf);
    physical', byKey' := physical, byKey;
    var index := |physical|;
    if dedup && key in byKey && byKey[key] < |physical| {
      index := byKey[key];
    } else {
      var cte := new Physical(leaf);
      physical' := physical + [cte];
      if dedup {
        byKey' := byKey[key := index];
      }
    }
    ownerOf' := ownerOf + [index];
    Serve(physical', index, leaf);
  }

  /** Add one leaf's columns and metadata to the CTE that serves it. */
  method Serve(physical: seq<Physical>, index: nat, leaf: LeafPlan)
    requires index < |physical| && NoDup(physical)
    requires forall i :: 0 <= i < |physical| ==> physical[i].Valid()
    modifies physical[index]
    ensures forall i :: 0 <= i < |physical| ==> physical[i].Valid()
    ensures forall i :: 0 <= i < |physical| ==>
      physical[i].View() == if i == index then Extend(old(physical[i].View()), leaf) else old(physical[i].View())
  {
    physical[index].ProjectColumns(leaf);
    physical[index].MergeInto(leaf);
  }

  // ---------------------------------------------------------------- what fusion guarantees

  ghost predicate Indexed(st: FuseState, dedup: bool) {
    && (forall k :: k in st.index ==> st.index[k] < |st.physical| && KeyOf(st.physical[st.index[k]].keyLeaf) == k)
    && (dedup ==> forall p :: 0 <= p < |st.physical| ==>
          KeyOf(st.physical[p].keyLeaf) in st.index && st.index[KeyOf(st.physical[p].keyLeaf)] == p)
  }

  ghost predicate Owned(st: FuseState, leaves: seq<LeafPlan>) {
    && |st.owner| == |leaves|
    && (forall i :: 0 <= i < |leaves| ==> st.owner[i] < |st.physical|)
    && (forall i :: 0 <= i < |leaves| ==> KeyOf(st.physical[st.owner[i]].keyLeaf) == KeyOf(leaves[i]))
    && (forall p :: 0 <= p < |st.physical| ==> Founded(st, leaves, p))
  }

  /** CTE `p` is built from one of the leaves it serves. */
  ghost predicate Founded(st: FuseState, leaves: seq<LeafPlan>, p: nat)
    requires p < |st.physical| && |st.owner| == |leaves|
  {
    exists i :: 0 <= i < |leaves| && st.owner[i] == p && st.physical[p].keyLeaf == leaves[i]
  }

  lemma {:induction false} StepOwners(st: FuseState, leaves: seq<LeafPlan>, l: LeafPlan, dedup: bool)
    requires Indexed(st, dedup) && Owned(st, leaves)
    ensures Owned(Step(st, l, dedup), leaves + [l])
  {
    var st' := Step(st, l, dedup);
    forall p | 0 <= p < |st'.physical|
      ensures Founded(st', leaves + [l], p)
    {
      if p < |st.physical| {
        assert Founded(st, leaves, p);
        var i :| 0 <= i < |leaves| && st.owner[i] == p && st.physical[p].keyLeaf == leaves[i];
        assert st'.owner[i] == p && (leaves + [l])[i] == leaves[i];
      } else {
        assert st'.owner[|leaves|] == p && (leaves + [l])[|leaves|] == l;
      }
    }
  }

  /** Every leaf is served by the CTE at its own position. */
  ghost predicate Identity(st: FuseState) {
    && |st.physical| == |st.owner|
    && forall i :: 0 <= i < |st.owner| ==> st.owner[i] == i
  }

  lemma {:induction false} StepIndex(st: FuseState, l: LeafPlan, dedup: bool)
    requires Indexed(st, dedup)
    ensures Indexed(Step(st, l, dedup), dedup)
  {
  }

  ghost predicate Assigned(st: FuseState, leaves: seq<LeafPlan>, dedup: bool) {
    Indexed(st, dedup) && Owned(st, leaves) && (!dedup ==> Identity(st))
  }

  lemma {:induction false} StepAssigned(st: FuseState, leaves: seq<LeafPlan>, l: LeafPlan, dedup: bool)
    requires Assigned(st, leaves, dedup)
    ensures Assigned(Step(st, l, dedup), leaves + [l], dedup)
  {
    StepIndex(st, l, dedup);
    StepOwners(st, leaves, l, dedup);
  }

  /** What holds of no leaves and is kept by every round holds of the fused leaves. */
  lemma {:induction false} FusedInduction(P: (FuseState, seq<LeafPlan>) -> bool, leaves: seq<LeafPlan>, dedup: bool)
    requires P(FuseState([], map[], []), [])
    requires forall st, ls, l :: P(st, ls) ==> P(Step(st, l, dedup), ls + [l])
    ensures P(Fused(leaves, dedup), leaves)
  {
    if leaves != [] {
      var n := |leaves| - 1;
      FusedInduction(P, leaves[..n], dedup);
      assert P(Step(Fused(leaves[..n], dedup), leaves[n], dedup), leaves[..n] + [leaves[n]]);
      assert leaves[..n] + [leaves[n]] == leaves;
    }
  }

  lemma {:induction false} FusedAssigned(leaves: seq<LeafPlan>, dedup: bool)
    ensures Assigned(Fused(leaves, dedup), leaves, dedup)
  {
    var P := (st: FuseState, ls: seq<LeafPlan>) => Assigned(st, ls, dedup);
    forall st, ls, l | P(st, ls)
      ensures P(Step(st, l, dedup), ls + [l])
    {
      StepAssigned(st, ls, l, dedup);
    }
    FusedInduction(P, leaves, dedup);
  }

  lemma {:induction false} FusedOwners(leaves: seq<LeafPlan>, dedup: bool)
    ensures Indexed(Fused(leaves, dedup), dedup) && Owned(Fused(leaves, dedup), leaves)
    ensures !dedup ==> Identity(Fused(leaves, dedup))
  {
    FusedAssigned(leaves, dedup);
  }

  /** With deduplication two leaves share a CTE exactly when their keys agree; without it each
      leaf has its own. */
  lemma {:induction false} SharingIsKeyEquality(leaves: seq<LeafPlan>, dedup: bool, i: nat, j: nat)
    requires i < |leaves| && j < |leaves|
    ensures |Fused(leaves, dedup).owner| == |leaves|
    ensures Fused(leaves, dedup).owner[i] == Fused(leaves, dedup).owner[j]
       <==> if dedup then KeyOf(leaves[i]) == KeyOf(leaves[j]) else i == j
  {
    FusedOwners(leaves, dedup);
  }

  // ---------------------------------------------------------------- columns

  /** CTE `p` projects each column once, and exactly the columns of the leaves it serves. */
  ghost predicate ColumnedAt(st: FuseState, leaves: seq<LeafPlan>, p: nat)
    requires |st.owner| == |leaves| && p < |st.physical|
  {
    && NoDup(Aliases(st.physical[p].metrics))
    && (forall m :: m in st.physical[p].metrics ==> Contributed(st, leaves, p, m))
    && (forall i, m :: 0 <= i < |leaves| && st.owner[i] == p && m in leaves[i].metrics ==>
          m.alias in Aliases(st.physical[p].metrics))
  }

  ghost predicate Columned(st: FuseState, leaves: seq<LeafPlan>)
    requires |st.owner| == |leaves|
  {
    forall p :: 0 <= p < |st.physical| ==> ColumnedAt(st, leaves, p)
  }

  ghost predicate Contributed(st: FuseState, leaves: seq<LeafPlan>, p: nat, m: LeafMetric)
    requires |st.owner| == |leaves|
  {
    exists i :: 0 <= i < |leaves| && st.owner[i] == p && m in leaves[i].metrics
  }

  lemma {:induction false} AbsorbColumns(have: seq<LeafMetric>, more: seq<LeafMetric>)
    requires NoDup(Aliases(have))
    ensures NoDup(Aliases(Absorb(have, more)))
    ensures forall m :: m in Absorb(have, more) ==> m in have || m in more
    ensures forall m :: m in have ==> m in Absorb(have, more)
    ensures forall m :: m in more ==> m.alias in Aliases(Absorb(have, more))
    decreases |more|
  {
    if more != [] {
      assert more == [more[0]] + more[1..];
      var have' := if more[0].alias in Aliases(have) then have else have + [more[0]];
      assert Aliases(have + [more[0]]) == Aliases(have) + [more[0].alias];
      AbsorbColumns(have', more[1..]);
      assert more[0].alias in Aliases(have');
      var k :| 0 <= k < |have'| && have'[k].alias == more[0].alias;
      assert have'[k] in Absorb(have', more[1..]);
      InAliases(Absorb(have', more[1..]), have'[k]);
    }
  }

  lemma {:induction false} InAliases(metrics: seq<LeafMetric>, m: LeafMetric)
    requires m in metrics
    ensures m.alias in Aliases(metrics)
  {
    var k :| 0 <= k < |metrics| && metrics[k] == m;
    assert Aliases(metrics)[k] == m.alias;
  }

  lemma {:induction false} StepColumns(st: FuseState, leaves: seq<LeafPlan>, l: LeafPlan, dedup: bool)
    requires Owned(st, leaves) && Columned(st, leaves)
    ensures Columned(Step(st, l, dedup), leaves + [l])
  {
    var st' := Step(st, l, dedup);
    forall p | 0 <= p < |st'.physical|
      ensures ColumnedAt(st', leaves + [l], p)
    {
      if p == st'.owner[|leaves|] {
        ServingColumns(st, leaves, l, dedup);
      } else {
        OtherColumns(st, leaves, l, dedup, p);
      }
    }
  }

  lemma {:induction false} OtherColumns(st: FuseState, leaves: seq<LeafPlan>, l: LeafPlan, dedup: bool, p: nat)
    requires Owned(st, leaves) && p < |st.physical| && ColumnedAt(st, leaves, p)
    requires p != Step(st, l, dedup).owner[|leaves|]
    ensures ColumnedAt(Step(st, l, dedup), leaves + [l], p)
  {
    var st' := Step(st, l, dedup);
    forall m | m in st'.physical[p].metrics
      ensures Contributed(st', leaves + [l], p, m)
    {
      ContributedStays(st, leaves, l, dedup, p, m);
    }
  }

  lemma {:induction false} ContributedStays(st: FuseState, leaves: seq<LeafPlan>, l: LeafPlan, dedup: bool, p: nat,
      m: LeafMetric)
    requires |st.owner| == |leaves| && Contributed(st, leaves, p, m)
    ensures Contributed(Step(st, l, dedup), leaves + [l], p, m)
  {
    var i :| 0 <= i < |leaves| && st.owner[i] == p && m in leaves[i].metrics;
    assert Step(st, l, dedup).owner[i] == p && (leaves + [l])[i] == leaves[i];
  }

  lemma {:induction false} ServingColumns(st: FuseState, leaves: seq<LeafPlan>, l: LeafPlan, dedup: bool)
    requires Owned(st, leaves) && Columned(st, leaves)
    ensures ColumnedAt(Step(st, l, dedup), leaves + [l], Step(st, l, dedup).owner[|leaves|])
  {
    var st', ls := Step(st, l, dedup), leaves + [l];
    var q := st'.owner[|leaves|];
    var have := if q < |st.physical| then st.physical[q].metrics else [];
    assert q < |st.physical| ==> ColumnedAt(st, leaves, q);
    AbsorbColumns(have, l.metrics);
    var got := Absorb(have, l.metrics);
    assert st'.physical[q].metrics == got;
    forall m | m in got
      ensures Contributed(st', ls, q, m)
    {
      if m in have {
        ContributedStays(st, leaves, l, dedup, q, m);
      } else {
        assert st'.owner[|leaves|] == q && m in ls[|leaves|].metrics;
      }
    }
    forall i, m | 0 <= i < |ls| && st'.owner[i] == q && m in ls[i].metrics
      ensures m.alias in Aliases(got)
    {
      if i < |leaves| {
        assert m in leaves[i].metrics && m.alias in Aliases(have);
        var k :| 0 <= k < |have| && have[k].alias == m.alias;
        InAliases(got, have[k]);
      }
    }
  }

  ghost predicate Projected(st: FuseState, leaves: seq<LeafPlan>) {
    Owned(st, leaves) && Columned(st, leaves)
  }

  lemma {:induction false} StepProjected(st: FuseState, leaves: seq<LeafPlan>, l: LeafPlan, dedup: bool)
    requires Assigned(st, leaves, dedup) && Projected(st, leaves)
    ensures Assigned(Step(st, l, dedup), leaves + [l], dedup) && Projected(Step(st, l, dedup), leaves + [l])
  {
    StepAssigned(st, leaves, l, dedup);
    StepColumns(st, leaves, l, dedup);
  }

  lemma {:induction false} FusedProjected(leaves: seq<LeafPlan>, dedup: bool)
    ensures Projected(Fused(leaves, dedup), leaves)
  {
    var P := (st: FuseState, ls: seq<LeafPlan>) => Assigned(st, ls, dedup) && Projected(st, ls);
    forall st, ls, l | P(st, ls)
      ensures P(Step(st, l, dedup), ls + [l])
    {
      StepProjected(st, ls, l, dedup);
    }
    FusedInduction(P, leaves, dedup);
  }

  lemma {:induction false} FusedColumns(leaves: seq<LeafPlan>, dedup: bool)
    ensures Owned(Fused(leaves, dedup), leaves) && Columned(Fused(leaves, dedup), leaves)
  {
    FusedProjected(leaves, dedup);
  }

  // ---------------------------------------------------------------- premises on the keys

  /** The parts of a leaf that decide its rows. UNION ALL does not order its SELECTs. */
  predicate SameBody(a: LeafPlan, b: LeafPlan) {
    && multiset(a.branches) == multiset(b.branches) && a.dimCount == b.dimCount
    && a.projectsIsFinal == b.projectsIsFinal && a.order == b.order && a.visible == b.visible
  }

  ghost predicate AliasesAgree(a: seq<LeafMetric>, b: seq<LeafMetric>) {
    forall m, m' :: m in a && m' in b && m.alias == m'.alias ==> m == m'
  }

  /** Equal keys mean equal rows, and under one key a column name means one measure. */
  ghost predicate KeysSound(leaves: seq<LeafPlan>) {
    && (forall i, j :: 0 <= i < |leaves| && 0 <= j < |leaves| && KeyOf(leaves[i]) == KeyOf(leaves[j]) ==>
          SameBody(leaves[i], leaves[j]))
    && (forall i, j :: 0 <= i < |leaves| && 0 <= j < |leaves| && KeyOf(leaves[i]) == KeyOf(leaves[j]) ==>
          AliasesAgree(leaves[i].metrics, leaves[j].metrics))
  }

  function CteOf(p: Phys): Cte {
    Cte(p.metrics, Groups(p.keyLeaf), p.keyLeaf.projectsIsFinal)
  }

  function LeafCte(l: LeafPlan): Cte {
    Cte(l.metrics, Groups(l), l.projectsIsFinal)
  }

  function Ctes(ps: seq<Phys>): (r: seq<Cte>)
    ensures |r| == |ps|
  {
    Map(ps, CteOf)
  }

  /** The CTE that serves a leaf has that leaf's rows, and the same measure under each of the
      leaf's columns. */
  lemma {:induction false} ServesLeaf(leaves: seq<LeafPlan>, dedup: bool, i: nat)
    requires i < |leaves| && KeysSound(leaves)
    ensures var st := Fused(leaves, dedup);
      && i < |st.owner| && st.owner[i] < |st.physical|
      && var p := st.physical[st.owner[i]];
      && SameBody(p.keyLeaf, leaves[i])
      && (forall m :: m in leaves[i].metrics ==> MeasureOf(p.metrics, m.alias) == MeasureOf(leaves[i].metrics, m.alias))
  {
    FusedColumns(leaves, dedup);
    var st := Fused(leaves, dedup);
    KeyLeafBody(st, leaves, i);
    forall m | m in leaves[i].metrics
      ensures MeasureOf(st.physical[st.owner[i]].metrics, m.alias) == MeasureOf(leaves[i].metrics, m.alias)
    {
      SameMeasure(st, leaves, i, m);
    }
  }

  lemma {:induction false} KeyLeafBody(st: FuseState, leaves: seq<LeafPlan>, i: nat)
    requires i < |leaves| && KeysSound(leaves) && Owned(st, leaves)
    ensures SameBody(st.physical[st.owner[i]].keyLeaf, leaves[i])
  {
    assert Founded(st, leaves, st.owner[i]);
  }

  lemma {:induction false} SameMeasure(st: FuseState, leaves: seq<LeafPlan>, i: nat, m: LeafMetric)
    requires i < |leaves| && KeysSound(leaves) && Owned(st, leaves) && Columned(st, leaves)
    requires m in leaves[i].metrics
    ensures MeasureOf(st.physical[st.owner[i]].metrics, m.alias) == MeasureOf(leaves[i].metrics, m.alias)
  {
    var q := st.owner[i];
    var metrics := st.physical[q].metrics;
    assert ColumnedAt(st, leaves, q);
    assert m.alias in Aliases(metrics);
    var found := LeafMetric(m.alias, MeasureOf(metrics, m.alias).value);
    assert Contributed(st, leaves, q, found);
    var j :| 0 <= j < |leaves| && st.owner[j] == q && found in leaves[j].metrics;
    assert KeyOf(leaves[j]) == KeyOf(leaves[i]);
    var own := LeafMetric(m.alias, MeasureOf(leaves[i].metrics, m.alias).value);
    assert own in leaves[i].metrics;
  }

  // ---------------------------------------------------------------- metadata

  /** One piece of a leaf's metadata. */
  datatype Tag =
    | FiredGuardrail(id: string)
    | Warned(text: string)
    | UsedSource(name: string)
    | ScopedSource(name: string)
    | SharedSource(name: string)

  predicate Tagged(m: Meta, t: Tag) {
    match t
    case FiredGuardrail(id) => id in m.fired
    case Warned(text) => text in m.warnings
    case UsedSource(name) => name in m.used
    case ScopedSource(name) => name in m.scoped
    case SharedSource(name) => name in m.shared
  }

  ghost predicate CteTagged(physical: seq<Phys>, t: Tag) {
    exists p :: 0 <= p < |physical| && Tagged(physical[p].meta, t)
  }

  ghost predicate LeafTagged(leaves: seq<LeafPlan>, t: Tag) {
    exists i :: 0 <= i < |leaves| && Tagged(leaves[i].meta, t)
  }

  lemma {:induction false} MergeTags(a: Meta, b: Meta, t: Tag)
    ensures Tagged(MergeMeta(a, b), t) <==> Tagged(a, t) || Tagged(b, t)
  {
    assert forall x :: x in AppendNew(a.warnings, b.warnings) <==> x in Elems(a.warnings) + Elems(b.warnings);
  }

  lemma {:induction false} StepTags(st: FuseState, l: LeafPlan, dedup: bool, t: Tag)
    ensures CteTagged(Step(st, l, dedup).physical, t) <==> CteTagged(st.physical, t) || Tagged(l.meta, t)
  {
    var st' := Step(st, l, dedup);
    var n := st'.owner[|st.owner|];
    MergeTags(if n < |st.physical| then st.physical[n].meta else NO_META, l.meta, t);
    assert Tagged(st'.physical[n].meta, t)
        <==> (n < |st.physical| && Tagged(st.physical[n].meta, t)) || Tagged(l.meta, t);
    if CteTagged(st.physical, t) {
      var p :| 0 <= p < |st.physical| && Tagged(st.physical[p].meta, t);
      assert Tagged(st'.physical[p].meta, t);
    }
    if CteTagged(st'.physical, t) {
      var p :| 0 <= p < |st'.physical| && Tagged(st'.physical[p].meta, t);
      assert p != n ==> st'.physical[p] == st.physical[p];
    }
  }

  lemma {:induction false} LeafTaggedSnoc(leaves: seq<LeafPlan>, l: LeafPlan, t: Tag)
    ensures LeafTagged(leaves + [l], t) <==> LeafTagged(leaves, t) || Tagged(l.meta, t)
  {
    var all := leaves + [l];
    assert all[|leaves|] == l && forall i :: 0 <= i < |leaves| ==> all[i] == leaves[i];
  }

  /** Fusing loses no guardrail, warning or source of any leaf, and adds none. */
  lemma {:induction false} MetadataConserved(leaves: seq<LeafPlan>, dedup: bool, t: Tag)
    ensures CteTagged(Fused(leaves, dedup).physical, t) <==> LeafTagged(leaves, t)
  {
    var P := (st: FuseState, ls: seq<LeafPlan>) => CteTagged(st.physical, t) <==> LeafTagged(ls, t);
    assert !CteTagged([], t) && !LeafTagged([], t);
    forall st, ls, l | P(st, ls)
      ensures P(Step(st, l, dedup), ls + [l])
    {
      StepTags(st, l, dedup, t);
      LeafTaggedSnoc(ls, l, t);
    }
    FusedInduction(P, leaves, dedup);
  }
}
