/** The join path of a leaf key, and when it determines the joins. */
module JoinKeys {
  import opened Relational
  import opened Joins
  import opened JoinPlan
  import opened JoinUniqueness

  /** Per edge its source alias, its alias and its rewritten ON clause. The target source is left out. */
  function JoinPathOf(edges: seq<JoinEdge>, text: JoinEdge -> string): (r: seq<(string, string, string)>)
    ensures |r| == |edges|
  {
    Map(edges, (e: JoinEdge) => (e.fromAlias, e.Alias(), text(e)))
  }

  /** The edge is declared on its source, and its source is what the plan joins under its source alias. */
  ghost predicate Grounded(g: Graph, owner: string, edges: seq<JoinEdge>, k: nat)
    requires k < |edges|
  {
    && edges[k].fromSource in g && edges[k].join in g[edges[k].fromSource]
    && if edges[k].fromAlias == owner then edges[k].fromSource == owner
       else exists i :: 0 <= i < k && edges[i].Alias() == edges[k].fromAlias && edges[i].join.to == edges[k].fromSource
  }

  /** No edge of the plan was planned from another source than the one its source alias stands for. */
  ghost predicate Consistent(g: Graph, owner: string, edges: seq<JoinEdge>) {
    Joinable(owner, edges) && forall k :: 0 <= k < |edges| ==> Grounded(g, owner, edges, k)
  }

  lemma {:induction false} SameSource(g: Graph, owner: string, a: seq<JoinEdge>, b: seq<JoinEdge>, k: nat)
    requires Consistent(g, owner, a) && Consistent(g, owner, b)
    requires k < |a| && k < |b| && a[..k] == b[..k] && a[k].fromAlias == b[k].fromAlias
    ensures a[k].fromSource == b[k].fromSource
  {
    assert Grounded(g, owner, a, k) && Grounded(g, owner, b, k);
    if a[k].fromAlias != owner {
      var i :| 0 <= i < k && a[i].Alias() == a[k].fromAlias && a[i].join.to == a[k].fromSource;
      var j :| 0 <= j < k && b[j].Alias() == b[k].fromAlias && b[j].join.to == b[k].fromSource;
      assert a[j] == a[..k][j] == b[j];
      assert Route(a)[i] == Route(a)[j];
    }
  }

  lemma {:induction false} SameJoin(g: Graph, source: string, a: Join, b: Join)
    requires Declared(g) && source in g && a in g[source] && b in g[source] && a.Alias() == b.Alias()
    ensures a == b
  {
    var js := g[source];
    var x :| 0 <= x < |js| && js[x] == a;
    var y :| 0 <= y < |js| && js[y] == b;
    assert AliasesOf(js)[x] == AliasesOf(js)[y];
  }

  lemma {:induction false} SameEdge(g: Graph, owner: string, a: seq<JoinEdge>, b: seq<JoinEdge>, k: nat)
    requires Declared(g) && Consistent(g, owner, a) && Consistent(g, owner, b)
    requires k < |a| && k < |b| && a[..k] == b[..k]
    requires a[k].fromAlias == b[k].fromAlias && a[k].Alias() == b[k].Alias()
    ensures a[k] == b[k]
  {
    SameSource(g, owner, a, b, k);
    assert Grounded(g, owner, a, k) && Grounded(g, owner, b, k);
    SameJoin(g, a[k].fromSource, a[k].join, b[k].join);
  }

  /** Consistent plans of one owner with equal join paths are the same plan: same targets, same
      relationships, same ON clauses. */
  lemma {:induction false} SamePathSameEdges(g: Graph, owner: string, a: seq<JoinEdge>, b: seq<JoinEdge>,
      text: JoinEdge -> string)
    requires Declared(g) && Consistent(g, owner, a) && Consistent(g, owner, b)
    requires JoinPathOf(a, text) == JoinPathOf(b, text)
    ensures a == b
  {
    SamePrefix(g, owner, a, b, text, |a|);
    assert a[..|a|] == a && b[..|b|] == b && |a| == |JoinPathOf(a, text)| == |b|;
  }

  lemma {:induction false} SamePrefix(g: Graph, owner: string, a: seq<JoinEdge>, b: seq<JoinEdge>,
      text: JoinEdge -> string, k: nat)
    requires Declared(g) && Consistent(g, owner, a) && Consistent(g, owner, b)
    requires JoinPathOf(a, text) == JoinPathOf(b, text) && k <= |a| && k <= |b|
    ensures a[..k] == b[..k]
  {
    if k > 0 {
      SamePrefix(g, owner, a, b, text, k - 1);
      assert JoinPathOf(a, text)[k - 1] == JoinPathOf(b, text)[k - 1];
      SameEdge(g, owner, a, b, k - 1);
      assert a[..k] == a[..k - 1] + [a[k - 1]] && b[..k] == b[..k - 1] + [b[k - 1]];
    }
  }

  // ---------------------------------------------------------------- which plans are consistent

  /** The edge lies on a simple path from the owner. */
  ghost predicate OnPath(g: Graph, owner: string, e: JoinEdge) {
    exists t, p, k :: SimplePath(g, owner, t, p) && 0 <= k < |p| && p[k] == e
  }

  lemma {:induction false} PlannedOnPaths(g: Graph, owner: string, targets: seq<string>, via: Option<seq<string>>,
                                          edges: seq<JoinEdge>, joined: set<string>, e: JoinEdge)
    requires Declared(g) && PlanFrom(g, owner, targets, via, edges, joined).Planned?
    ensures e in PlanFrom(g, owner, targets, via, edges, joined).edges ==> e in edges || OnPath(g, owner, e)
    decreases |targets|
  {
    if targets != [] {
      var t := targets[0];
      if t in joined {
        PlannedOnPaths(g, owner, targets[1..], via, edges, joined, e);
      } else {
        var paths := Candidates(g, owner, t, via);
        CandidatesAreSimple(g, owner, t, via);
        assert paths[0] in paths;
        AddPathEdges(edges, joined, paths[0], e);
        var next := AddPath(edges, joined, paths[0]);
        PlannedOnPaths(g, owner, targets[1..], via, next.0, next.1, e);
        if e in paths[0] {
          var k :| 0 <= k < |paths[0]| && paths[0][k] == e;
        }
      }
    }
  }

  /** Where aliases determine their sources, every plan is consistent, with `via` or without. */
  lemma {:induction false} FunctionalPlansAreConsistent(g: Graph, owner: string, targets: seq<string>,
      via: Option<seq<string>>)
    requires Declared(g) && Functional(g) && PlanFrom(g, owner, targets, via, [], {owner}).Planned?
    ensures Consistent(g, owner, PlanFrom(g, owner, targets, via, [], {owner}).edges)
  {
    var edges := PlanFrom(g, owner, targets, via, [], {owner}).edges;
    PlansAreJoinable(g, owner, targets, via);
    forall n | 0 <= n < |edges|
      ensures Grounded(g, owner, edges, n)
    {
      PlannedOnPaths(g, owner, targets, via, [], {owner}, edges[n]);
      var t, p, k :| SimplePath(g, owner, t, p) && 0 <= k < |p| && p[k] == edges[n];
      assert Linked(g, owner, owner, p, k);
      if k > 0 {
        assert Linked(g, owner, owner, p, k - 1);
        var i :| 0 <= i < n && edges[i].Alias() == edges[n].fromAlias;
        PlannedOnPaths(g, owner, targets, via, [], {owner}, edges[i]);
        var t', p', k' :| SimplePath(g, owner, t', p') && 0 <= k' < |p'| && p'[k'] == edges[i];
        assert Linked(g, owner, owner, p', k');
      }
    }
  }

  /** Without `via`, plans are consistent wherever planning is exact. */
  lemma {:induction false} ExactPlansAreConsistent(g: Graph, owner: string, targets: seq<string>)
    requires Declared(g) && PlansExactly(g, owner) && PlanOf(g, owner, targets).Planned?
    ensures Consistent(g, owner, PlanOf(g, owner, targets).edges)
  {
    var edges := PlanOf(g, owner, targets).edges;
    PlansExactlyIff(g, owner);
    PlansAreJoinable(g, owner, targets, None);
    forall n | 0 <= n < |edges|
      ensures Grounded(g, owner, edges, n)
    {
      JoinedByOwnEdge(g, owner, targets, edges[n]);
      var p := ThePath(g, owner, edges[n].Alias());
      var last := |p| - 1;
      ThePathIsOnly(g, owner, edges[n].Alias(), p);
      assert Linked(g, owner, owner, p, last);
      if last > 0 {
        var i :| 0 <= i < n && edges[i].Alias() == edges[n].fromAlias;
        JoinedByOwnEdge(g, owner, targets, edges[i]);
        PathEdgesCanonical(g, owner, edges[n].Alias(), last - 1);
        assert edges[i] == p[last - 1];
      }
    }
  }

  // ---------------------------------------------------------------- a join path that hides a target

  const O_Z := Join("s1", Some("z"), "o.k = s1.k", ManyToOne)
  const O_B := Join("b", None, "o.k = b.k", ManyToOne)
  const Z_A := Join("a", None, "s1.k = a.k", ManyToOne)
  const Z_U := Join("y", Some("u"), "s1.k = y.k", ManyToOne)
  const B_Z := Join("s2", Some("z"), "b.k = s2.k", ManyToOne)
  const Z_X := Join("x", Some("u"), "s2.k = x.k", ManyToOne)
  const U_V := Join("v", None, "y.k = v.k", ManyToOne)

  /** `z` is s1 or s2, and `u` is y or x, depending on the way there. */
  const CROSSED: Graph := map["o" := [O_Z, O_B], "s1" := [Z_A, Z_U], "b" := [B_Z], "s2" := [Z_X], "y" := [U_V]]

  /** Every ON clause above, rewritten to the aliases. */
  function OnKeys(): JoinEdge -> string {
    (e: JoinEdge) => e.fromAlias + ".k = " + e.Alias() + ".k"
  }

  const E_Z := JoinEdge("o", "o", O_Z)
  const E_A := JoinEdge("s1", "z", Z_A)
  const E_Y := JoinEdge("s1", "z", Z_U)
  const E_V := JoinEdge("y", "u", U_V)
  const E_B := JoinEdge("o", "o", O_B)
  const E_Z2 := JoinEdge("b", "b", B_Z)
  const E_X := JoinEdge("s2", "z", Z_X)

  lemma {:induction false} CrossedAliases()
    ensures O_Z.Alias() == "z" && O_B.Alias() == "b" && Z_A.Alias() == "a" && Z_U.Alias() == "u"
    ensures B_Z.Alias() == "z" && Z_X.Alias() == "u" && U_V.Alias() == "v" && Declared(CROSSED)
  {
  }

  lemma {:induction false} DeadEnd(g: Graph, target: string, alias: string, src: string, visited: set<string>,
      trail: Path)
    requires src !in g
    ensures Walk(g, target, alias, src, visited, trail) == if alias == target then [trail] else []
  {
  }

  lemma {:induction false} ThroughY(t: string, visited: set<string>)
    requires "v" !in visited
    ensures Walk(CROSSED, t, "u", "y", visited, [E_Z, E_Y])
         == if t == "u" then [[E_Z, E_Y]] else if t == "v" then [[E_Z, E_Y, E_V]] else []
  {
    CrossedAliases();
    if t != "u" {
      WalkSingle(CROSSED, t, "u", "y", visited, [E_Z, E_Y], U_V);
      BranchOpens(CROSSED, t, "u", "y", visited, [E_Z, E_Y], U_V, [E_Z, E_Y, E_V]);
      DeadEnd(CROSSED, t, "v", "v", visited + {"v"}, [E_Z, E_Y, E_V]);
    }
  }

  lemma {:induction false} ThroughZ(t: string)
    requires t in {"a", "b", "u", "v"}
    ensures Walk(CROSSED, t, "z", "s1", {"o"} + {"z"}, [E_Z])
         == if t == "a" then [[E_Z, E_A]]
            else if t == "u" then [[E_Z, E_Y]]
            else if t == "v" then [[E_Z, E_Y, E_V]]
            else []
  {
    CrossedAliases();
    var visited := {"o"} + {"z"};
    WalkPair(CROSSED, t, "z", "s1", visited, [E_Z], Z_A, Z_U);
    BranchOpens(CROSSED, t, "z", "s1", visited, [E_Z], Z_A, [E_Z, E_A]);
    DeadEnd(CROSSED, t, "a", "a", visited + {"a"}, [E_Z, E_A]);
    BranchOpens(CROSSED, t, "z", "s1", visited, [E_Z], Z_U, [E_Z, E_Y]);
    ThroughY(t, visited + {"u"});
  }

  lemma {:induction false} ThroughB(t: string)
    requires t in {"a", "b", "u", "v"}
    ensures Walk(CROSSED, t, "b", "b", {"o"} + {"b"}, [E_B])
         == if t == "b" then [[E_B]] else if t == "u" then [[E_B, E_Z2, E_X]] else []
  {
    CrossedAliases();
    var visited := {"o"} + {"b"};
    if t != "b" {
      WalkSingle(CROSSED, t, "b", "b", visited, [E_B], B_Z);
      BranchOpens(CROSSED, t, "b", "b", visited, [E_B], B_Z, [E_B, E_Z2]);
      WalkSingle(CROSSED, t, "z", "s2", visited + {"z"}, [E_B, E_Z2], Z_X);
      BranchOpens(CROSSED, t, "z", "s2", visited + {"z"}, [E_B, E_Z2], Z_X, [E_B, E_Z2, E_X]);
      DeadEnd(CROSSED, t, "u", "x", visited + {"z"} + {"u"}, [E_B, E_Z2, E_X]);
    }
  }

  lemma {:induction false} CrossedPaths(t: string)
    requires t in {"a", "b", "u", "v"}
    ensures AllSimplePaths(CROSSED, "o", t)
         == if t == "a" then [[E_Z, E_A]] else if t == "b" then [[E_B]]
            else if t == "u" then [[E_Z, E_Y], [E_B, E_Z2, E_X]] else [[E_Z, E_Y, E_V]]
  {
    CrossedAliases();
    WalkPair(CROSSED, t, "o", "o", {"o"}, [], O_Z, O_B);
    BranchOpens(CROSSED, t, "o", "o", {"o"}, [], O_Z, [E_Z]);
    BranchOpens(CROSSED, t, "o", "o", {"o"}, [], O_B, [E_B]);
    ThroughZ(t);
    ThroughB(t);
  }

  /** Planning one target with a single candidate path. */
  lemma {:induction false} PlanStep(targets: seq<string>, t: string, rest: seq<string>, edges: seq<JoinEdge>,
      joined: set<string>, p: Path)
    requires targets == [t] + rest && t !in joined && Candidates(CROSSED, "o", t, Some(["b"])) == [p]
    ensures PlanFrom(CROSSED, "o", targets, Some(["b"]), edges, joined)
         == PlanFrom(CROSSED, "o", rest, Some(["b"]), AddPath(edges, joined, p).0, AddPath(edges, joined, p).1)
  {
    assert targets[1..] == rest;
  }

  lemma {:induction false} Take(edges: seq<JoinEdge>, joined: set<string>, p: Path, e: JoinEdge, rest: Path,
                                edges': seq<JoinEdge>, joined': set<string>)
    requires p == [e] + rest && e.Alias() !in joined && edges' == edges + [e] && joined' == joined + {e.Alias()}
    ensures AddPath(edges, joined, p) == AddPath(edges', joined', rest)
  {
    assert p[1..] == rest;
  }

  lemma {:induction false} Skip(edges: seq<JoinEdge>, joined: set<string>, p: Path, e: JoinEdge, rest: Path)
    requires p == [e] + rest && e.Alias() in joined
    ensures AddPath(edges, joined, p) == AddPath(edges, joined, rest)
  {
    assert p[1..] == rest;
  }

  lemma {:induction false} OneCandidate(t: string)
    requires t in {"a", "b", "u", "v"}
    ensures Candidates(CROSSED, "o", t, Some(["b"]))
         == [if t == "a" then [E_Z, E_A]
             else if t == "b" then [E_B]
             else if t == "u" then [E_B, E_Z2, E_X]
             else [E_Z, E_Y, E_V]]
  {
    CrossedPaths(t);
    if t == "u" {
      ViaB();
    }
  }

  lemma {:induction false} ViaB()
    ensures FilterByVia([[E_Z, E_Y], [E_B, E_Z2, E_X]], ["b"]) == [[E_B, E_Z2, E_X]]
  {
    CrossedAliases();
    var p, q := [E_Z, E_Y], [E_B, E_Z2, E_X];
    assert Route(p)[0] == "z" && Route(q)[0] == "b" && Route(q)[..1] == ["b"];
    assert !(["b"] <= Route(p)) && ["b"] <= Route(q);
    KeepSecond(p, q, (p: Path) => ["b"] <= Route(p));
  }

  lemma {:induction false} KeepSecond<A(!new)>(p: A, q: A, keep: A -> bool)
    requires !keep(p) && keep(q)
    ensures Filter([p, q], keep) == [q]
  {
    assert [p, q][1..] == [q] && [q][1..] == [];
    assert Filter([q], keep) == [q] + Filter([q][1..], keep);
  }

  lemma {:induction false} JoinsA(targets: seq<string>, rest: seq<string>)
    requires targets == ["a"] + rest
    ensures PlanFrom(CROSSED, "o", targets, Some(["b"]), [], {"o"})
         == PlanFrom(CROSSED, "o", rest, Some(["b"]), [E_Z, E_A], {"o", "z", "a"})
  {
    OneCandidate("a");
    CrossedAliases();
    PlanStep(targets, "a", rest, [], {"o"}, [E_Z, E_A]);
    Take([], {"o"}, [E_Z, E_A], E_Z, [E_A], [E_Z], {"o", "z"});
    Take([E_Z], {"o", "z"}, [E_A], E_A, [], [E_Z, E_A], {"o", "z", "a"});
  }

  /** Reaching `u` through b: z is joined already, so the edge to x leaves from the other z. */
  lemma {:induction false} JoinsX()
    ensures PlanFrom(CROSSED, "o", ["u", "v"], Some(["b"]), [E_Z, E_A], {"o", "z", "a"})
         == PlanFrom(CROSSED, "o", ["v"], Some(["b"]), [E_Z, E_A, E_B, E_X], {"o", "z", "a", "b", "u"})
  {
    OneCandidate("u");
    CrossedAliases();
    var joined := {"o", "z", "a"};
    PlanStep(["u", "v"], "u", ["v"], [E_Z, E_A], joined, [E_B, E_Z2, E_X]);
    Take([E_Z, E_A], joined, [E_B, E_Z2, E_X], E_B, [E_Z2, E_X], [E_Z, E_A, E_B], {"o", "z", "a", "b"});
    Skip([E_Z, E_A, E_B], {"o", "z", "a", "b"}, [E_Z2, E_X], E_Z2, [E_X]);
    Take([E_Z, E_A, E_B], {"o", "z", "a", "b"}, [E_X], E_X, [], [E_Z, E_A, E_B, E_X], {"o", "z", "a", "b", "u"});
  }

  lemma {:induction false} JoinsVAfterX()
    ensures PlanFrom(CROSSED, "o", ["v"], Some(["b"]), [E_Z, E_A, E_B, E_X], {"o", "z", "a", "b", "u"})
         == Planned([E_Z, E_A, E_B, E_X, E_V])
  {
    OneCandidate("v");
    CrossedAliases();
    var edges, joined := [E_Z, E_A, E_B, E_X], {"o", "z", "a", "b", "u"};
    PlanStep(["v"], "v", [], edges, joined, [E_Z, E_Y, E_V]);
    Skip(edges, joined, [E_Z, E_Y, E_V], E_Z, [E_Y, E_V]);
    Skip(edges, joined, [E_Y, E_V], E_Y, [E_V]);
    Take(edges, joined, [E_V], E_V, [], [E_Z, E_A, E_B, E_X, E_V], joined + {"v"});
  }

  lemma {:induction false} PlanThroughX()
    ensures PlanFrom(CROSSED, "o", ["a", "u", "v"], Some(["b"]), [], {"o"}) == Planned([E_Z, E_A, E_B, E_X, E_V])
  {
    JoinsA(["a", "u", "v"], ["u", "v"]);
    JoinsX();
    JoinsVAfterX();
  }

  lemma {:induction false} JoinsB()
    ensures PlanFrom(CROSSED, "o", ["b", "v"], Some(["b"]), [E_Z, E_A], {"o", "z", "a"})
         == PlanFrom(CROSSED, "o", ["v"], Some(["b"]), [E_Z, E_A, E_B], {"o", "z", "a", "b"})
  {
    OneCandidate("b");
    CrossedAliases();
    PlanStep(["b", "v"], "b", ["v"], [E_Z, E_A], {"o", "z", "a"}, [E_B]);
    Take([E_Z, E_A], {"o", "z", "a"}, [E_B], E_B, [], [E_Z, E_A, E_B], {"o", "z", "a", "b"});
  }

  lemma {:induction false} JoinsVAfterB()
    ensures PlanFrom(CROSSED, "o", ["v"], Some(["b"]), [E_Z, E_A, E_B], {"o", "z", "a", "b"})
         == Planned([E_Z, E_A, E_B, E_Y, E_V])
  {
    OneCandidate("v");
    CrossedAliases();
    var edges, joined := [E_Z, E_A, E_B], {"o", "z", "a", "b"};
    PlanStep(["v"], "v", [], edges, joined, [E_Z, E_Y, E_V]);
    Skip(edges, joined, [E_Z, E_Y, E_V], E_Z, [E_Y, E_V]);
    Take(edges, joined, [E_Y, E_V], E_Y, [E_V], [E_Z, E_A, E_B, E_Y], joined + {"u"});
    Take([E_Z, E_A, E_B, E_Y], joined + {"u"}, [E_V], E_V, [], [E_Z, E_A, E_B, E_Y, E_V], joined + {"u"} + {"v"});
  }

  lemma {:induction false} PlanThroughY()
    ensures PlanFrom(CROSSED, "o", ["a", "b", "v"], Some(["b"]), [], {"o"}) == Planned([E_Z, E_A, E_B, E_Y, E_V])
  {
    JoinsA(["a", "b", "v"], ["b", "v"]);
    JoinsB();
    JoinsVAfterB();
  }

  lemma {:induction false} CrossedIsNotFunctional()
    ensures !Functional(CROSSED)
  {
    CrossedAliases();
    assert "o" in CROSSED && "b" in CROSSED && O_Z in CROSSED["o"] && B_Z in CROSSED["b"];
  }

  lemma {:induction false} MixedIsInconsistent()
    ensures !Consistent(CROSSED, "o", [E_Z, E_A, E_B, E_X, E_V])
  {
    CrossedAliases();
    assert !Grounded(CROSSED, "o", [E_Z, E_A, E_B, E_X, E_V], 3);
  }

  lemma {:induction false} SameJoinPath()
    ensures JoinPathOf([E_Z, E_A, E_B, E_X, E_V], OnKeys()) == JoinPathOf([E_Z, E_A, E_B, E_Y, E_V], OnKeys())
  {
    CrossedAliases();
  }

  /** With aliases that name two sources and a `via`, two plans of one query have equal join paths but
      join different sources under `u`: the first is not consistent. */
  lemma {:induction false} JoinPathHidesTarget(a: Plan, b: Plan)
    requires a == PlanFrom(CROSSED, "o", ["a", "u", "v"], Some(["b"]), [], {"o"})
    requires b == PlanFrom(CROSSED, "o", ["a", "b", "v"], Some(["b"]), [], {"o"})
    ensures a.Planned? && b.Planned? && JoinPathOf(a.edges, OnKeys()) == JoinPathOf(b.edges, OnKeys())
    ensures |a.edges| == |b.edges| == 5 && a.edges[3].join.to == "x" && b.edges[3].join.to == "y"
    ensures Declared(CROSSED) && !Functional(CROSSED) && !Consistent(CROSSED, "o", a.edges)
  {
    PlanThroughX();
    PlanThroughY();
    SameJoinPath();
    CrossedAliases();
    CrossedIsNotFunctional();
    MixedIsInconsistent();
  }
}
