/** The compose step as it runs: fuse, then grow the FROM clause, the spine and the visible spine. */
module Assembly {
  import opened Relational
  import opened Plans
  import opened Semantics
  import opened Spine
  import opened Fusion
  import opened Fill
  import opened Compose
  import Results

  /** Assemble planned leaves into one statement; the result is what that statement returns on an engine
      that scans as `scan`, and the merged metadata. */
  method ComposeQuery(leaves: seq<LeafPlan>, metrics: seq<MetricPlan>, dedup: bool, order: seq<nat>, scan: Scan)
    returns (r: Composed, meta: Results.Merged)
    requires leaves != [] && forall k :: 0 <= k < |metrics| ==> WellFormed(metrics[k])
    requires |order| > 0 && IsOrder(order, |Fused(leaves, dedup).physical|)
    ensures r == Statement(leaves, metrics, dedup, order, scan)
    ensures meta == Results.MergedOf(Results.MetasOf(Fused(leaves, dedup).physical, order))
  {
    ghost var st := Fused(leaves, dedup);
    var physical, owner := Fuse(leaves, dedup);
    var ctes, visibles := Declare(physical, st.physical);
    meta := Results.MergeResult(physical, order, st.physical);
    var plans, n := WalkAll(metrics), leaves[0].dimCount;
    if AnyMarked(ctes) && Cumulative(plans) {
      return Rejected, meta;
    }
    var accumulating := Accumulates(plans);
    if !accumulating && |ctes| == 1 && AlreadyOutput(metrics, physical[0].columns) {
      return Answer(BareRows(ctes[0])), meta;
    }
    var fills, visible := Accumulations(plans, owner);
    var t := BuildFrom(ctes, order, fills, plans, owner, n, accumulating);
    var outer := SelectAll(metrics, ctes, owner, t, scan, AnyMarked(ctes), !HidesRows(plans));
    if !HidesRows(plans) {
      return Answer(outer), meta;
    }
    var shown := BuildVisibleSpine(ctes, visibles, order, fills, visible, plans, owner, n, st.physical);
    return Answer(InnerJoin(outer, shown, (r: OutRow) => r.dims)), meta;
  }

  /** One CTE alone, the spine with every CTE joined onto it, or one-row CTEs side by side. */
  method BuildFrom(ctes: seq<Cte>, order: seq<nat>, fills: map<nat, Accumulate>, plans: seq<MetricPlan>,
      owner: seq<nat>, n: nat, accumulating: bool)
    returns (t: seq<Joined>)
    requires |order| > 0 && forall k :: 0 <= k < |order| ==> order[k] < |ctes|
    requires forall c: nat :: Find(fills, c) == FillOf(plans, owner, c)
    ensures t == From(ctes, order, plans, owner, n, accumulating)
  {
    if |ctes| == 1 && !accumulating {
      t := Alone(ctes[0], 0);
    } else if n > 0 {
      var spine := BuildSpine(ctes, order, fills, plans, owner, n);
      t := JoinLeaves(Map(spine, Bare), ctes, order);
    } else {
      t := CrossLeaves(Alone(ctes[order[0]], order[0]), ctes, order[1..]);
    }
  }

  /** The leaf CTEs, and the visibility CTE each one hoists. */
  method Declare(physical: seq<Physical>, ghost spec: seq<Phys>) returns (ctes: seq<Cte>,
      visibles: seq<Option<seq<Tuple>>>)
    requires Holds(physical, spec)
    ensures ctes == Ctes(spec)
    ensures |visibles| == |spec| && forall c :: 0 <= c < |spec| ==> visibles[c] == spec[c].keyLeaf.visible
  {
    ctes, visibles := [], [];
    for c := 0 to |physical|
      invariant |ctes| == c && forall k :: 0 <= k < c ==> ctes[k] == CteOf(spec[k])
      invariant |visibles| == c && forall k :: 0 <= k < c ==> visibles[k] == spec[k].keyLeaf.visible
    {
      var p := physical[c];
      assert p.View() == spec[c];
      ctes := ctes + [Cte(p.metrics, Groups(p.keyLeaf), p.keyLeaf.projectsIsFinal)];
      visibles := visibles + [p.keyLeaf.visible];
    }
    assert ctes == Ctes(spec);
  }

  function Find(m: map<nat, Accumulate>, c: nat): Option<Accumulate> {
    if c in m then Some(m[c]) else None
  }

  /** Which CTEs a running total densifies and which hide rows; the first plan over a CTE wins. */
  method Accumulations(plans: seq<MetricPlan>, owner: seq<nat>) returns (fills: map<nat, Accumulate>,
      visible: map<nat, Accumulate>)
    ensures forall c: nat :: Find(fills, c) == FillOf(plans, owner, c)
    ensures forall c: nat :: Find(visible, c) == VisibleOf(plans, owner, c)
  {
    fills, visible := map[], map[];
    for k := 0 to |plans|
      invariant forall c: nat :: Find(fills, c) == FillOf(plans[..k], owner, c)
      invariant forall c: nat :: Find(visible, c) == VisibleOf(plans[..k], owner, c)
    {
      var p := plans[k];
      assert plans[..k + 1] == plans[..k] + [p];
      forall c: nat { FirstOf(plans[..k], p, owner, c); }
      if p.accumulate.Some? && |p.refs| > 0 && p.refs[0].leaf < |owner| {
        var c, acc := owner[p.refs[0].leaf], p.accumulate.value;
        if WantsFill(acc) && c !in fills {
          fills := fills[c := acc];
        }
        if acc.visibility && c !in visible {
          visible := visible[c := acc];
        }
      }
    }
    assert plans[..|plans|] == plans;
  }

  lemma {:induction false} FirstOf(plans: seq<MetricPlan>, p: MetricPlan, owner: seq<nat>, c: nat)
    ensures FillOf(plans + [p], owner, c)
         == if FillOf(plans, owner, c).Some? then FillOf(plans, owner, c)
            else if Uses(p, owner, c) && WantsFill(p.accumulate.value) then p.accumulate else None
    ensures VisibleOf(plans + [p], owner, c)
         == if VisibleOf(plans, owner, c).Some? then VisibleOf(plans, owner, c)
            else if Uses(p, owner, c) && p.accumulate.value.visibility then p.accumulate else None
  {
    if plans == [] {
      assert [p][1..] == [];
    } else {
      assert (plans + [p])[1..] == plans[1..] + [p];
      FirstOf(plans[1..], p, owner, c);
    }
  }

  /** LEFT JOIN every CTE in turn. */
  method JoinLeaves(spine: seq<Joined>, ctes: seq<Cte>, order: seq<nat>) returns (t: seq<Joined>)
    requires forall k :: 0 <= k < |order| ==> order[k] < |ctes|
    ensures t == JoinAll(spine, ctes, order)
  {
    t := spine;
    for k := 0 to |order|
      invariant JoinAll(t, ctes, order[k..]) == JoinAll(spine, ctes, order)
    {
      assert order[k..][1..] == order[k + 1..];
      t := LeftJoin(t, order[k], ctes[order[k]]);
    }
  }

  /** CROSS JOIN every further CTE. */
  method CrossLeaves(first: seq<Joined>, ctes: seq<Cte>, order: seq<nat>) returns (t: seq<Joined>)
    requires forall k :: 0 <= k < |order| ==> order[k] < |ctes|
    ensures t == CrossAll(first, ctes, order)
  {
    t := first;
    for k := 0 to |order|
      invariant CrossAll(t, ctes, order[k..]) == CrossAll(first, ctes, order)
    {
      assert order[k..][1..] == order[k + 1..];
      t := CrossJoin(t, order[k], ctes[order[k]]);
    }
  }

  /** Chain the branches with UNION. */
  method Chain<A(==, !new)>(branches: seq<seq<A>>) returns (rows: seq<A>)
    requires |branches| > 0
    ensures rows == UnionChain(branches)
  {
    rows := branches[0];
    assert branches[..1] == [branches[0]];
    for k := 1 to |branches|
      invariant rows == UnionChain(branches[..k])
    {
      assert branches[..k + 1][..k] == branches[..k];
      rows := Distinct(rows + branches[k]);
    }
    assert branches[..|branches|] == branches;
  }

  /** The dimension tuples of every CTE, then the filled ones. */
  method BuildSpine(ctes: seq<Cte>, order: seq<nat>, fills: map<nat, Accumulate>, plans: seq<MetricPlan>,
      owner: seq<nat>, n: nat)
    returns (spine: seq<SpineRow>)
    requires |order| > 0 && forall k :: 0 <= k < |order| ==> order[k] < |ctes|
    requires forall c: nat :: Find(fills, c) == FillOf(plans, owner, c)
    ensures spine == UnionChain(SpineBranches(ctes, order, plans, owner, n))
  {
    var branches: seq<seq<SpineRow>> := [];
    for k := 0 to |order|
      invariant |branches| == k && forall i :: 0 <= i < k ==> branches[i] == CteRows(ctes[order[i]])
    {
      branches := branches + [CteRows(ctes[order[k]])];
    }
    var filled := FilledBranches(ctes, order, fills, plans, owner, n);
    assert branches + filled == SpineBranches(ctes, order, plans, owner, n);
    spine := Chain(branches + filled);
  }

  method FilledBranches(ctes: seq<Cte>, order: seq<nat>, fills: map<nat, Accumulate>, plans: seq<MetricPlan>,
      owner: seq<nat>, n: nat)
    returns (branches: seq<seq<SpineRow>>)
    requires forall k :: 0 <= k < |order| ==> order[k] < |ctes|
    requires forall c: nat :: Find(fills, c) == FillOf(plans, owner, c)
    ensures branches == FillBranches(ctes, order, plans, owner, n)
  {
    branches := [];
    ghost var piece := FillPiece(ctes, plans, owner, n);
    for k := 0 to |order|
      invariant branches == Pieces(order[..k], piece)
    {
      PiecesSnoc(order, k, piece);
      branches := branches + FilledBy(ctes[order[k]], Find(fills, order[k]), n);
    }
    assert order[..|order|] == order;
    FillBranchesArePieces(ctes, order, plans, owner, n);
  }

  function FilledBy(cte: Cte, fill: Option<Accumulate>, n: nat): seq<seq<SpineRow>> {
    if fill.None? then [] else [FillBranch(cte, fill, n)]
  }

  /** The pieces of the listed CTEs, one after the other. */
  function Pieces<A>(order: seq<nat>, piece: nat -> seq<A>): seq<A> {
    if order == [] then [] else piece(order[0]) + Pieces(order[1..], piece)
  }

  lemma {:induction false} PiecesSnoc<A>(order: seq<nat>, k: nat, piece: nat -> seq<A>)
    requires k < |order|
    ensures Pieces(order[..k + 1], piece) == Pieces(order[..k], piece) + piece(order[k])
  {
    if k == 0 {
      assert order[..1][1..] == [];
    } else {
      assert order[..k + 1][1..] == order[1..][..k] && order[..k][1..] == order[1..][..k - 1];
      PiecesSnoc(order[1..], k - 1, piece);
    }
  }

  function FillPiece(ctes: seq<Cte>, plans: seq<MetricPlan>, owner: seq<nat>, n: nat): nat -> seq<seq<SpineRow>> {
    (c: nat) => if c < |ctes| then FilledBy(ctes[c], FillOf(plans, owner, c), n) else []
  }

  lemma {:induction false} FillBranchesArePieces(ctes: seq<Cte>, order: seq<nat>, plans: seq<MetricPlan>,
      owner: seq<nat>, n: nat)
    requires forall k :: 0 <= k < |order| ==> order[k] < |ctes|
    ensures FillBranches(ctes, order, plans, owner, n) == Pieces(order, FillPiece(ctes, plans, owner, n))
    decreases |order|
  {
    if order != [] {
      FillBranchesArePieces(ctes, order[1..], plans, owner, n);
    }
  }

  /** The tuples each CTE shows: its own and its filled ones, behind its visibility CTE. */
  method BuildVisibleSpine(ctes: seq<Cte>, visibles: seq<Option<seq<Tuple>>>, order: seq<nat>,
      fills: map<nat, Accumulate>, visible: map<nat, Accumulate>, plans: seq<MetricPlan>, owner: seq<nat>, n: nat,
      ghost phys: seq<Phys>)
    returns (shown: seq<Tuple>)
    requires |order| > 0 && |phys| == |ctes| == |visibles| && forall k :: 0 <= k < |order| ==> order[k] < |ctes|
    requires forall c :: 0 <= c < |phys| ==> visibles[c] == phys[c].keyLeaf.visible
    requires forall c: nat :: Find(fills, c) == FillOf(plans, owner, c)
    requires forall c: nat :: Find(visible, c) == VisibleOf(plans, owner, c)
    ensures shown == UnionChain(VisibleBranches(ctes, phys, order, plans, owner, n))
  {
    var branches := VisibleParts(ctes, visibles, order, fills, visible, plans, owner, n, phys);
    VisibleBranchesStep(ctes, phys, order, plans, owner, n);
    shown := Chain(branches);
  }

  function ShownBy(cte: Cte, fill: Option<Accumulate>, acc: Option<Accumulate>, visible: Option<seq<Tuple>>,
      n: nat): seq<seq<Tuple>>
  {
    [KeepVisible(CteDims(cte), acc, visible)]
    + (if fill.None? then [] else [KeepVisible(FillRows(CteDims(cte), fill.value, n), acc, visible)])
  }

  method VisibleParts(ctes: seq<Cte>, visibles: seq<Option<seq<Tuple>>>, order: seq<nat>, fills: map<nat, Accumulate>,
                      visible: map<nat, Accumulate>, plans: seq<MetricPlan>, owner: seq<nat>, n: nat,
                      ghost phys: seq<Phys>)
    returns (branches: seq<seq<Tuple>>)
    requires |phys| == |ctes| == |visibles| && forall k :: 0 <= k < |order| ==> order[k] < |ctes|
    requires forall c :: 0 <= c < |phys| ==> visibles[c] == phys[c].keyLeaf.visible
    requires forall c: nat :: Find(fills, c) == FillOf(plans, owner, c)
    requires forall c: nat :: Find(visible, c) == VisibleOf(plans, owner, c)
    ensures branches == VisibleBranches(ctes, phys, order, plans, owner, n)
  {
    branches := [];
    ghost var piece := ShownPiece(ctes, phys, plans, owner, n);
    for k := 0 to |order|
      invariant branches == Pieces(order[..k], piece)
    {
      var c := order[k];
      PiecesSnoc(order, k, piece);
      branches := branches + ShownBy(ctes[c], Find(fills, c), Find(visible, c), visibles[c], n);
    }
    assert order[..|order|] == order;
    VisibleBranchesArePieces(ctes, phys, order, plans, owner, n);
  }

  function ShownPiece(ctes: seq<Cte>, phys: seq<Phys>, plans: seq<MetricPlan>, owner: seq<nat>,
      n: nat): nat -> seq<seq<Tuple>>
    requires |phys| == |ctes|
  {
    (c: nat) =>
      if c < |ctes| then
        ShownBy(ctes[c], FillOf(plans, owner, c), VisibleOf(plans, owner, c), phys[c].keyLeaf.visible, n)
      else []
  }

  lemma {:induction false} VisibleBranchesArePieces(ctes: seq<Cte>, phys: seq<Phys>, order: seq<nat>,
      plans: seq<MetricPlan>, owner: seq<nat>, n: nat)
    requires |phys| == |ctes| && forall k :: 0 <= k < |order| ==> order[k] < |ctes|
    ensures VisibleBranches(ctes, phys, order, plans, owner, n)
        == Pieces(order, ShownPiece(ctes, phys, plans, owner, n))
    decreases |order|
  {
    if order != [] {
      VisibleBranchesStep(ctes, phys, order, plans, owner, n);
      VisibleBranchesArePieces(ctes, phys, order[1..], plans, owner, n);
    }
  }

  lemma {:induction false} VisibleBranchesStep(ctes: seq<Cte>, phys: seq<Phys>, order: seq<nat>,
      plans: seq<MetricPlan>, owner: seq<nat>, n: nat)
    requires order != [] && |phys| == |ctes| && forall k :: 0 <= k < |order| ==> order[k] < |ctes|
    ensures var c := order[0];
      var fill, acc, visible := FillOf(plans, owner, c), VisibleOf(plans, owner, c), phys[c].keyLeaf.visible;
      VisibleBranches(ctes, phys, order, plans, owner, n)
      == ShownBy(ctes[c], fill, acc, visible, n) + VisibleBranches(ctes, phys, order[1..], plans, owner, n)
  {
  }
}
