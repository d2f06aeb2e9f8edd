/** When planning without `via` accepts exactly the targets with one simple path. */
module JoinUniqueness {
  import opened Relational
  import opened Joins
  import opened JoinPlan

  ghost predicate Unique(g: Graph, owner: string, alias: string) {
    |AllSimplePaths(g, owner, alias)| == 1
  }

  ghost function ThePath(g: Graph, owner: string, alias: string): Path
    requires Unique(g, owner, alias)
  {
    AllSimplePaths(g, owner, alias)[0]
  }

  /** Every alias on the one path to an alias has itself one path. */
  ghost predicate PathsStayUnique(g: Graph, owner: string) {
    forall t, k :: Unique(g, owner, t) && 0 <= k < |ThePath(g, owner, t)|
        ==> Unique(g, owner, ThePath(g, owner, t)[k].Alias())
  }

  /** A join alias determines its target source. */
  ghost predicate Functional(g: Graph) {
    forall s, s', j, j' :: s in g && s' in g && j in g[s] && j' in g[s'] && j.Alias() == j'.Alias() ==> j.to == j'.to
  }

  lemma {:induction false} ThePathIsOnly(g: Graph, owner: string, alias: string, p: Path)
    requires Declared(g) && Unique(g, owner, alias)
    ensures SimplePath(g, owner, alias, p) <==> p == ThePath(g, owner, alias)
  {
    SimplePathsExact(g, owner, alias);
    assert AllSimplePaths(g, owner, alias) == [ThePath(g, owner, alias)];
  }

  lemma {:induction false} OwnerIsUnique(g: Graph, owner: string)
    ensures Unique(g, owner, owner) && ThePath(g, owner, owner) == []
  {
  }

  lemma {:induction false} UniqueIfOnly(g: Graph, owner: string, alias: string, p: Path)
    requires Declared(g) && SimplePath(g, owner, alias, p)
    requires forall q :: SimplePath(g, owner, alias, q) ==> q == p
    ensures Unique(g, owner, alias)
  {
    SimplePathsExact(g, owner, alias);
    var all := AllSimplePaths(g, owner, alias);
    assert p in all;
    HeadsDiffer(all);
  }

  // ---------------------------------------------------------------- prefixes and splices

  lemma {:induction false} PrefixIsSimple(g: Graph, owner: string, target: string, p: Path, k: nat)
    requires SimplePath(g, owner, target, p) && k < |p|
    ensures SimplePath(g, owner, p[k].Alias(), p[..k + 1])
  {
    var q := p[..k + 1];
    forall i | 0 <= i < |q|
      ensures Linked(g, owner, owner, q, i)
    {
      assert Linked(g, owner, owner, p, i);
    }
    assert Route(q) == Route(p)[..k + 1];
  }

  /** Path `q`, left at its `j`-th alias, continued on `p` after the same alias at `m`. */
  ghost function Splice(q: Path, j: nat, p: Path, m: nat): Path
    requires j < |q| && m < |p|
  {
    q[..j + 1] + p[m + 1..]
  }

  /** Before `j`, path `q` meets no alias of `p` from `m` on. */
  ghost predicate Apart(q: Path, j: nat, p: Path, m: nat)
    requires j <= |q|
  {
    forall i, k :: 0 <= i < j && m <= k < |p| ==> q[i].Alias() != p[k].Alias()
  }

  lemma {:induction false} SpliceIsSimple(g: Graph, owner: string, a: string, t: string, q: Path, j: nat, p: Path,
      m: nat)
    requires Functional(g) && SimplePath(g, owner, a, q) && SimplePath(g, owner, t, p)
    requires j < |q| && m < |p| && q[j].Alias() == p[m].Alias()
    requires Apart(q, j, p, m)
    ensures SimplePath(g, owner, t, Splice(q, j, p, m))
  {
    var r := Splice(q, j, p, m);
    assert Linked(g, owner, owner, q, j) && Linked(g, owner, owner, p, m);
    assert q[j].join.to == p[m].join.to;
    forall i | 0 <= i < |r|
      ensures Linked(g, owner, owner, r, i)
    {
      SpliceLinked(g, owner, q, j, p, m, i);
    }
    SpliceRoute(q, j, p, m);
    SpliceEnd(owner, q, j, p, m);
  }

  lemma {:induction false} SpliceEnd(owner: string, q: Path, j: nat, p: Path, m: nat)
    requires j < |q| && m < |p| && q[j].Alias() == p[m].Alias()
    ensures End(owner, Splice(q, j, p, m)) == End(owner, p)
    ensures forall i :: 0 <= i < |Splice(q, j, p, m)| ==> Splice(q, j, p, m)[i] in q || Splice(q, j, p, m)[i] in p
  {
  }

  lemma {:induction false} SpliceLinked(g: Graph, owner: string, q: Path, j: nat, p: Path, m: nat, i: nat)
    requires j < |q| && m < |p| && q[j].Alias() == p[m].Alias() && q[j].join.to == p[m].join.to
    requires forall k :: 0 <= k < |q| ==> Linked(g, owner, owner, q, k)
    requires forall k :: 0 <= k < |p| ==> Linked(g, owner, owner, p, k)
    requires i < |Splice(q, j, p, m)|
    ensures Linked(g, owner, owner, Splice(q, j, p, m), i)
  {
    var r := Splice(q, j, p, m);
    if i <= j {
      assert Linked(g, owner, owner, q, i);
    } else {
      var k := m + (i - j);
      assert r[i] == p[k];
      assert Linked(g, owner, owner, p, k);
      assert r[i - 1] == if i - 1 == j then q[j] else p[k - 1];
    }
  }

  lemma {:induction false} SpliceRoute(q: Path, j: nat, p: Path, m: nat)
    requires j < |q| && m < |p| && q[j].Alias() == p[m].Alias()
    requires NoDup(Route(q)) && NoDup(Route(p))
    requires Apart(q, j, p, m)
    ensures NoDup(Route(Splice(q, j, p, m)))
  {
    var r := Splice(q, j, p, m);
    forall x, y | 0 <= x < y < |r|
      ensures Route(r)[x] != Route(r)[y]
    {
      if y <= j {
        assert Route(q)[x] != Route(q)[y];
      } else if x > j {
        assert Route(p)[m + (x - j)] != Route(p)[m + (y - j)];
      } else if x == j {
        assert Route(p)[m] != Route(p)[m + (y - j)];
      } else {
        assert r[y] == p[m + (y - j)];
      }
    }
  }

  /** The first alias of `q` that also occurs in `p` from position `i` on, and where. */
  lemma {:induction false} FirstMeeting(q: Path, p: Path, i: nat) returns (j: nat, m: nat)
    requires q != [] && i < |p| && q[|q| - 1].Alias() == p[i].Alias()
    ensures j < |q| && i <= m < |p| && q[j].Alias() == p[m].Alias()
    ensures Apart(q, j, p, m)
  {
    j := 0;
    while !(exists k :: i <= k < |p| && q[j].Alias() == p[k].Alias())
      invariant j < |q|
      invariant Apart(q, j, p, i)
      decreases |q| - j
    {
      j := j + 1;
    }
    m :| i <= m < |p| && q[j].Alias() == p[m].Alias();
  }

  /** If aliases determine their sources, one path to a target means one path to every alias on it:
      a second path to such an alias could be continued to a second path to the target. */
  lemma {:induction false} SecondPathContinues(g: Graph, owner: string, t: string, p: Path, i: nat, q: Path)
      returns (r: Path)
    requires Functional(g) && SimplePath(g, owner, t, p) && i < |p|
    requires SimplePath(g, owner, p[i].Alias(), q) && q != p[..i + 1]
    ensures SimplePath(g, owner, t, r) && r != p
  {
    assert p[i].Alias() !in {owner};
    var j, m := FirstMeeting(q, p, i);
    r := Splice(q, j, p, m);
    SpliceIsSimple(g, owner, p[i].Alias(), t, q, j, p, m);
    if m == i {
      assert Route(q)[j] == Route(q)[|q| - 1];
      assert q[..j + 1] == q;
      SamePrefix(q, p, i);
    } else {
      forall x | 0 <= x < |r|
        ensures r[x].Alias() != p[i].Alias()
      {
        if x > j {
          assert r[x] == p[m + (x - j)];
          assert Route(p)[i] != Route(p)[m + (x - j)];
        } else if x == j {
          assert Route(p)[i] != Route(p)[m];
        }
      }
      assert Route(p)[i] in Route(p) && Route(p)[i] !in Route(r);
    }
  }

  lemma {:induction false} SamePrefix(q: Path, p: Path, i: nat)
    requires i < |p|
    ensures q + p[i + 1..] == p ==> q == p[..i + 1]
  {
    if q + p[i + 1..] == p {
      assert |q| == i + 1;
      assert forall k :: 0 <= k < |q| ==> (q + p[i + 1..])[k] == q[k];
    }
  }

  /** Functional aliases keep paths unique. */
  lemma {:induction false} FunctionalKeepsUnique(g: Graph, owner: string)
    requires Declared(g) && Functional(g)
    ensures PathsStayUnique(g, owner)
  {
    forall t, i | Unique(g, owner, t) && 0 <= i < |ThePath(g, owner, t)|
      ensures Unique(g, owner, ThePath(g, owner, t)[i].Alias())
    {
      var p := ThePath(g, owner, t);
      ThePathIsOnly(g, owner, t, p);
      PrefixIsSimple(g, owner, t, p, i);
      forall q | SimplePath(g, owner, p[i].Alias(), q)
        ensures q == p[..i + 1]
      {
        if q != p[..i + 1] {
          var r := SecondPathContinues(g, owner, t, p, i, q);
          ThePathIsOnly(g, owner, t, r);
        }
      }
      UniqueIfOnly(g, owner, p[i].Alias(), p[..i + 1]);
    }
  }

  // ---------------------------------------------------------------- plan_joins without via

  ghost function PlanOf(g: Graph, owner: string, targets: seq<string>): Plan {
    PlanFrom(g, owner, targets, None, [], {owner})
  }

  lemma {:induction false} AddPathJoins(edges: seq<JoinEdge>, joined: set<string>, p: Path)
    ensures AddPath(edges, joined, p).1 == joined + Elems(Route(p))
    decreases |p|
  {
    if p != [] {
      RouteTail(p);
      assert Route(p) == [p[0].Alias()] + Route(p[1..]);
      if p[0].Alias() in joined {
        AddPathJoins(edges, joined, p[1..]);
      } else {
        AddPathJoins(edges + [p[0]], joined + {p[0].Alias()}, p[1..]);
      }
    }
  }

  ghost predicate AllUnique(g: Graph, owner: string, aliases: set<string>) {
    forall a :: a in aliases ==> Unique(g, owner, a)
  }

  lemma {:induction false} PlannedIffUnique(g: Graph, owner: string, targets: seq<string>, edges: seq<JoinEdge>,
      joined: set<string>)
    requires PathsStayUnique(g, owner) && AllUnique(g, owner, joined)
    ensures PlanFrom(g, owner, targets, None, edges, joined).Planned? <==> AllUnique(g, owner, Elems(targets))
    decreases |targets|
  {
    if targets != [] {
      var t := targets[0];
      assert targets == [t] + targets[1..];
      assert Elems(targets) == {t} + Elems(targets[1..]);
      if t in joined {
        PlannedIffUnique(g, owner, targets[1..], edges, joined);
      } else if Unique(g, owner, t) {
        var p := ThePath(g, owner, t);
        AddPathJoins(edges, joined, p);
        var next := AddPath(edges, joined, p);
        forall a | a in Elems(Route(p))
          ensures Unique(g, owner, a)
        {
          var k :| 0 <= k < |p| && Route(p)[k] == a;
          assert Unique(g, owner, p[k].Alias());
        }
        PlannedIffUnique(g, owner, targets[1..], next.0, next.1);
      }
    }
  }

  /** For every set and order of targets, planning succeeds exactly when each target has exactly one
      simple path. */
  ghost predicate PlansExactly(g: Graph, owner: string) {
    forall targets :: PlanOf(g, owner, targets).Planned? <==> AllUnique(g, owner, Elems(targets))
  }

  /** If some alias on the one path to `t` has several paths, asking for both hides the ambiguity. */
  lemma {:induction false} SkippingHides(g: Graph, owner: string, t: string, k: nat)
    requires Declared(g) && Unique(g, owner, t) && k < |ThePath(g, owner, t)|
    ensures PlanOf(g, owner, [t, ThePath(g, owner, t)[k].Alias()]).Planned?
  {
    var p := ThePath(g, owner, t);
    ThePathIsOnly(g, owner, t, p);
    assert t != owner;
    AddPathJoins([], {owner}, p);
    var next := AddPath([], {owner}, p);
    assert Route(p)[k] in Route(p);
    var rest := [t, p[k].Alias()][1..];
    assert rest == [p[k].Alias()] && rest[1..] == [];
    assert PlanFrom(g, owner, rest, None, next.0, next.1) == PlanFrom(g, owner, [], None, next.0, next.1);
  }

  /** Planning accepts exactly the target sets with one path each, for every order of the targets, if
      and only if every alias on a unique path has itself a unique path. */
  lemma {:induction false} PlansExactlyIff(g: Graph, owner: string)
    requires Declared(g)
    ensures PlansExactly(g, owner) <==> PathsStayUnique(g, owner)
  {
    if PathsStayUnique(g, owner) {
      OwnerIsUnique(g, owner);
      forall targets
        ensures PlanOf(g, owner, targets).Planned? <==> AllUnique(g, owner, Elems(targets))
      {
        PlannedIffUnique(g, owner, targets, [], {owner});
      }
    }
    if PlansExactly(g, owner) {
      forall t, k | Unique(g, owner, t) && 0 <= k < |ThePath(g, owner, t)|
        ensures Unique(g, owner, ThePath(g, owner, t)[k].Alias())
      {
        var z := ThePath(g, owner, t)[k].Alias();
        SkippingHides(g, owner, t, k);
        assert AllUnique(g, owner, Elems([t, z]));
        assert z in Elems([t, z]) by { assert [t, z][1] == z; }
      }
    }
  }

  /** Where aliases determine their sources, planning is exact. */
  lemma {:induction false} FunctionalPlansExactly(g: Graph, owner: string)
    requires Declared(g) && Functional(g)
    ensures PlansExactly(g, owner)
  {
    FunctionalKeepsUnique(g, owner);
    PlansExactlyIff(g, owner);
  }

  // ---------------------------------------------------------------- the plan itself

  /** The edge is the last one of the only path to its alias. */
  ghost predicate Canonical(g: Graph, owner: string, e: JoinEdge) {
    Unique(g, owner, e.Alias()) && ThePath(g, owner, e.Alias()) != []
    && ThePath(g, owner, e.Alias())[|ThePath(g, owner, e.Alias())| - 1] == e
  }

  lemma {:induction false} PathEdgesCanonical(g: Graph, owner: string, t: string, k: nat)
    requires Declared(g) && PathsStayUnique(g, owner) && Unique(g, owner, t) && k < |ThePath(g, owner, t)|
    ensures Canonical(g, owner, ThePath(g, owner, t)[k])
    ensures ThePath(g, owner, ThePath(g, owner, t)[k].Alias()) == ThePath(g, owner, t)[..k + 1]
  {
    var p := ThePath(g, owner, t);
    ThePathIsOnly(g, owner, t, p);
    PrefixIsSimple(g, owner, t, p, k);
    assert Unique(g, owner, p[k].Alias());
    ThePathIsOnly(g, owner, p[k].Alias(), p[..k + 1]);
  }

  lemma {:induction false} AddPathEdges(edges: seq<JoinEdge>, joined: set<string>, p: Path, e: JoinEdge)
    ensures e in AddPath(edges, joined, p).0 ==> e in edges || e in p
    ensures e in edges ==> e in AddPath(edges, joined, p).0
    decreases |p|
  {
    if p != [] {
      if p[0].Alias() in joined {
        AddPathEdges(edges, joined, p[1..], e);
      } else {
        AddPathEdges(edges + [p[0]], joined + {p[0].Alias()}, p[1..], e);
      }
    }
  }

  /** The edge lies on the only path to one of the targets. */
  ghost predicate OnSomePath(g: Graph, owner: string, targets: seq<string>, e: JoinEdge) {
    exists t :: t in targets && Unique(g, owner, t) && e in ThePath(g, owner, t)
  }

  lemma {:induction false} PlanEdgesOrigin(g: Graph, owner: string, targets: seq<string>, edges: seq<JoinEdge>,
      joined: set<string>, e: JoinEdge)
    requires PlanFrom(g, owner, targets, None, edges, joined).Planned?
    ensures e in PlanFrom(g, owner, targets, None, edges, joined).edges
        ==> e in edges || OnSomePath(g, owner, targets, e)
    decreases |targets|
  {
    if targets != [] {
      var t := targets[0];
      assert targets == [t] + targets[1..];
      if t in joined {
        PlanEdgesOrigin(g, owner, targets[1..], edges, joined, e);
      } else {
        var p := ThePath(g, owner, t);
        AddPathEdges(edges, joined, p, e);
        var next := AddPath(edges, joined, p);
        PlanEdgesOrigin(g, owner, targets[1..], next.0, next.1, e);
      }
    }
  }

  lemma {:induction false} OnPathCanonical(g: Graph, owner: string, targets: seq<string>, e: JoinEdge)
    requires Declared(g) && PathsStayUnique(g, owner) && OnSomePath(g, owner, targets, e)
    ensures Canonical(g, owner, e)
  {
    var t :| t in targets && Unique(g, owner, t) && e in ThePath(g, owner, t);
    var k :| 0 <= k < |ThePath(g, owner, t)| && ThePath(g, owner, t)[k] == e;
    PathEdgesCanonical(g, owner, t, k);
  }

  /** Whatever order the targets come in, the plan holds exactly the edges of the targets' only
      paths: an alias met again is joined by the very same edge, never from another parent. */
  lemma {:induction false} PlanIsUnionOfPaths(g: Graph, owner: string, targets: seq<string>, e: JoinEdge)
    requires Declared(g) && PathsStayUnique(g, owner) && PlanOf(g, owner, targets).Planned?
    ensures e in PlanOf(g, owner, targets).edges <==> OnSomePath(g, owner, targets, e)
  {
    var edges := PlanOf(g, owner, targets).edges;
    PlanEdgesOrigin(g, owner, targets, [], {owner}, e);
    if OnSomePath(g, owner, targets, e) {
      PlansAreJoinable(g, owner, targets, None);
      var t :| t in targets && Unique(g, owner, t) && e in ThePath(g, owner, t);
      assert Before(owner, edges, |edges|, t);
      var k :| 0 <= k < |ThePath(g, owner, t)| && ThePath(g, owner, t)[k] == e;
      PlannedPathComplete(g, owner, targets, t, k);
    }
  }

  lemma {:induction false} JoinedByOwnEdge(g: Graph, owner: string, targets: seq<string>, e: JoinEdge)
    requires Declared(g) && PathsStayUnique(g, owner) && PlanOf(g, owner, targets).Planned?
        && e in PlanOf(g, owner, targets).edges
    ensures Canonical(g, owner, e)
  {
    PlanEdgesOrigin(g, owner, targets, [], {owner}, e);
    OnPathCanonical(g, owner, targets, e);
  }

  /** If an alias is joined, so is every alias on its only path, each by its own edge. */
  lemma {:induction false} PlannedPathComplete(g: Graph, owner: string, targets: seq<string>, t: string, k: nat)
    requires Declared(g) && PathsStayUnique(g, owner) && PlanOf(g, owner, targets).Planned?
    requires Unique(g, owner, t) && k < |ThePath(g, owner, t)|
    requires Before(owner, PlanOf(g, owner, targets).edges, |PlanOf(g, owner, targets).edges|, t)
    ensures ThePath(g, owner, t)[k] in PlanOf(g, owner, targets).edges
    decreases |ThePath(g, owner, t)|
  {
    var n := |ThePath(g, owner, t)| - 1;
    var i := PlannedLast(g, owner, targets, t);
    if k < n {
      var a := PlannedParent(g, owner, targets, t, i);
      PlannedPathComplete(g, owner, targets, a, k);
    }
  }

  lemma {:induction false} PlannedLast(g: Graph, owner: string, targets: seq<string>, t: string) returns (i: nat)
    requires Declared(g) && PathsStayUnique(g, owner) && PlanOf(g, owner, targets).Planned?
    requires Unique(g, owner, t) && |ThePath(g, owner, t)| > 0
    requires Before(owner, PlanOf(g, owner, targets).edges, |PlanOf(g, owner, targets).edges|, t)
    ensures var edges, p := PlanOf(g, owner, targets).edges, ThePath(g, owner, t);
      i < |edges| && edges[i] == p[|p| - 1]
  {
    var edges, p := PlanOf(g, owner, targets).edges, ThePath(g, owner, t);
    ThePathIsOnly(g, owner, t, p);
    PathEdgesCanonical(g, owner, t, |p| - 1);
    i :| 0 <= i < |edges| && edges[i].Alias() == t;
    JoinedByOwnEdge(g, owner, targets, edges[i]);
  }

  /** The alias before the last one on the only path to `t` is joined, and its only path is the rest. */
  lemma {:induction false} PlannedParent(g: Graph, owner: string, targets: seq<string>, t: string, i: nat)
      returns (a: string)
    requires Declared(g) && PathsStayUnique(g, owner) && PlanOf(g, owner, targets).Planned?
    requires Unique(g, owner, t) && |ThePath(g, owner, t)| > 1 && i < |PlanOf(g, owner, targets).edges|
    requires PlanOf(g, owner, targets).edges[i] == ThePath(g, owner, t)[|ThePath(g, owner, t)| - 1]
    ensures var edges, p := PlanOf(g, owner, targets).edges, ThePath(g, owner, t);
      Before(owner, edges, |edges|, a) && Unique(g, owner, a) && ThePath(g, owner, a) == p[..|p| - 1]
  {
    var edges, p := PlanOf(g, owner, targets).edges, ThePath(g, owner, t);
    var n := |p| - 1;
    ThePathIsOnly(g, owner, t, p);
    assert Linked(g, owner, owner, p, n);
    PlansAreJoinable(g, owner, targets, None);
    a := p[n - 1].Alias();
    assert Before(owner, edges, i, a);
    PathEdgesCanonical(g, owner, t, n - 1);
  }

  /** A refusal names a requested target: unreachable means it has no simple path, ambiguous that it
      has several, and the candidates are all of them. */
  lemma {:induction false} RefusalsAreRight(g: Graph, owner: string, targets: seq<string>, edges: seq<JoinEdge>,
      joined: set<string>)
    requires Declared(g)
    ensures var plan := PlanFrom(g, owner, targets, None, edges, joined);
      && (plan.Unreachable? ==> plan.target in targets && forall p :: !SimplePath(g, owner, plan.target, p))
      && (plan.Ambiguous? ==> plan.target in targets && |plan.candidates| > 1 && NoDup(plan.candidates)
                              && forall p :: p in plan.candidates <==> SimplePath(g, owner, plan.target, p))
    decreases |targets|
  {
    if targets != [] {
      assert targets == [targets[0]] + targets[1..];
      SimplePathsExact(g, owner, targets[0]);
      if targets[0] in joined {
        RefusalsAreRight(g, owner, targets[1..], edges, joined);
      } else if Unique(g, owner, targets[0]) {
        var next := AddPath(edges, joined, ThePath(g, owner, targets[0]));
        RefusalsAreRight(g, owner, targets[1..], next.0, next.1);
      }
    }
  }

  // ---------------------------------------------------------------- aliases with two sources

  const TO_Z := Join("s1", Some("z"), "o.x = z.x", ManyToOne)
  const TO_B := Join("b", None, "o.b = b.id", ManyToOne)
  const B_TO_Z := Join("s2", Some("z"), "b.x = z.x", ManyToOne)
  const TO_T := Join("t", None, "z.t = t.id", ManyToOne)

  /** `z` is source s1 when joined from o, and source s2 when joined from b. */
  const TWO_FACED: Graph := map["o" := [TO_Z, TO_B], "b" := [B_TO_Z], "s1" := [TO_T]]

  lemma {:induction false} TwoFacedAliases()
    ensures TO_Z.Alias() == "z" && B_TO_Z.Alias() == "z" && TO_B.Alias() == "b" && TO_T.Alias() == "t"
  {
  }

  lemma {:induction false} WalkSingle(g: Graph, target: string, alias: string, src: string, visited: set<string>,
      trail: Path, j: Join)
    requires src in g && g[src] == [j] && alias != target
    ensures Walk(g, target, alias, src, visited, trail) == Branch(g, target, alias, src, visited, trail, j)
  {
    assert WalkJoins(g, target, alias, src, visited, trail, 1) == [];
  }

  lemma {:induction false} WalkPair(g: Graph, target: string, alias: string, src: string, visited: set<string>,
      trail: Path, j: Join, j': Join)
    requires src in g && g[src] == [j, j'] && alias != target
    ensures Walk(g, target, alias, src, visited, trail)
         == Branch(g, target, alias, src, visited, trail, j) + Branch(g, target, alias, src, visited, trail, j')
  {
    assert WalkJoins(g, target, alias, src, visited, trail, 2) == [];
    assert WalkJoins(g, target, alias, src, visited, trail, 1) == Branch(g, target, alias, src, visited, trail, j');
  }

  lemma {:induction false} BranchOpens(g: Graph, target: string, alias: string, src: string, visited: set<string>,
      trail: Path, j: Join, trail': Path)
    requires src in g && j in g[src] && j.Alias() !in visited && trail' == trail + [JoinEdge(src, alias, j)]
    ensures Branch(g, target, alias, src, visited, trail, j)
        == Walk(g, target, j.Alias(), j.to, visited + {j.Alias()}, trail')
  {
  }

  lemma {:induction false} TwoPathsToZ()
    ensures |AllSimplePaths(TWO_FACED, "o", "z")| == 2
  {
    var g := TWO_FACED;
    TwoFacedAliases();
    var e, f := JoinEdge("o", "o", TO_B), JoinEdge("b", "b", B_TO_Z);
    WalkPair(g, "z", "o", "o", {"o"}, [], TO_Z, TO_B);
    BranchOpens(g, "z", "o", "o", {"o"}, [], TO_Z, [JoinEdge("o", "o", TO_Z)]);
    BranchOpens(g, "z", "o", "o", {"o"}, [], TO_B, [e]);
    WalkSingle(g, "z", "b", "b", {"o"} + {"b"}, [e], B_TO_Z);
    BranchOpens(g, "z", "b", "b", {"o"} + {"b"}, [e], B_TO_Z, [e, f]);
  }

  lemma {:induction false} OnePathToT()
    ensures AllSimplePaths(TWO_FACED, "o", "t") == [[JoinEdge("o", "o", TO_Z), JoinEdge("s1", "z", TO_T)]]
  {
    var g := TWO_FACED;
    TwoFacedAliases();
    var e, f := JoinEdge("o", "o", TO_Z), JoinEdge("o", "o", TO_B);
    WalkPair(g, "t", "o", "o", {"o"}, [], TO_Z, TO_B);
    BranchOpens(g, "t", "o", "o", {"o"}, [], TO_Z, [e]);
    WalkSingle(g, "t", "z", "s1", {"o"} + {"z"}, [e], TO_T);
    BranchOpens(g, "t", "z", "s1", {"o"} + {"z"}, [e], TO_T, [e, JoinEdge("s1", "z", TO_T)]);
    BranchOpens(g, "t", "o", "o", {"o"}, [], TO_B, [f]);
    WalkSingle(g, "t", "b", "b", {"o"} + {"b"}, [f], B_TO_Z);
    BranchOpens(g, "t", "b", "b", {"o"} + {"b"}, [f], B_TO_Z, [f, JoinEdge("b", "b", B_TO_Z)]);
  }

  /** With an alias that names two sources, `z` has two paths but lies on the only path to `t`, so
      asking for `t` and `z` is accepted although `z` alone is ambiguous. */
  lemma {:induction false} TwoFacedIsNotExact()
    ensures Declared(TWO_FACED) && !Functional(TWO_FACED)
    ensures PlanOf(TWO_FACED, "o", ["t", "z"]).Planned? && !Unique(TWO_FACED, "o", "z")
    ensures !PlansExactly(TWO_FACED, "o")
  {
    var g := TWO_FACED;
    TwoFacedAliases();
    assert Declared(g);
    assert "o" in g && "b" in g && TO_Z in g["o"] && B_TO_Z in g["b"];
    TwoPathsToZ();
    OnePathToT();
    SkippingHides(g, "o", "t", 0);
    assert "z" in Elems(["t", "z"]) by { assert ["t", "z"][1] == "z"; }
  }
}
