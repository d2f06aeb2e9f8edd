/** Join planning over declared joins: the alias tree, simple paths, and the join plan. */
module Joins {
  import opened Relational

  // ---------------------------------------------------------------- the declared graph

  datatype Relationship = OneToOne | ManyToOne | OneToMany | ManyToMany

  datatype Join = Join(to: string, name: Option<string>, on: string, relationship: Relationship) {
    /** The SQL alias of the join target. */
    function Alias(): string {
      if name.Some? && name.value != "" then name.value else to
    }
  }

  /** The declared joins of every known source. */
  type Graph = map<string, seq<Join>>

  /** A join taken from `fromSource`, joined in as `fromAlias`. Its rewritten ON clause is a function
      of these fields. */
  datatype JoinEdge = JoinEdge(fromSource: string, fromAlias: string, join: Join) {
    function Alias(): string {
      join.Alias()
    }
  }

  type Path = seq<JoinEdge>

  /** No source declares one alias twice, which loading a source enforces. */
  ghost predicate Declared(g: Graph) {
    forall s :: s in g ==> NoDup(AliasesOf(g[s]))
  }

  function AliasesOf(js: seq<Join>): (r: seq<string>)
    ensures |r| == |js| && forall k :: 0 <= k < |js| ==> r[k] == js[k].Alias()
  {
    seq(|js|, k requires 0 <= k < |js| => js[k].Alias())
  }

  function Route(p: Path): (r: seq<string>)
    ensures |r| == |p| && forall k :: 0 <= k < |p| ==> r[k] == p[k].Alias()
  {
    seq(|p|, k requires 0 <= k < |p| => p[k].Alias())
  }

  // ---------------------------------------------------------------- simple paths

  /** Edge `k` of the path starts where the path has arrived. */
  ghost predicate Linked(g: Graph, alias: string, src: string, p: Path, k: nat)
    requires k < |p|
  {
    && p[k].fromAlias == (if k == 0 then alias else p[k - 1].Alias())
    && p[k].fromSource == (if k == 0 then src else p[k - 1].join.to)
    && p[k].fromSource in g && p[k].join in g[p[k].fromSource]
  }

  ghost function End(alias: string, p: Path): string {
    if p == [] then alias else p[|p| - 1].Alias()
  }

  /** From (alias, src) the path follows declared joins to `target`, repeats no alias and meets none
      of `visited`. */
  ghost predicate Reaches(g: Graph, alias: string, src: string, visited: set<string>, target: string, p: Path) {
    && (forall k :: 0 <= k < |p| ==> Linked(g, alias, src, p, k))
    && NoDup(Route(p))
    && (forall k :: 0 <= k < |p| ==> p[k].Alias() !in visited)
    && End(alias, p) == target
  }

  ghost predicate SimplePath(g: Graph, owner: string, target: string, p: Path) {
    Reaches(g, owner, owner, {owner}, target, p)
  }

  /** The first step of a path, and the rest of it. */
  lemma {:induction false} ReachesStep(g: Graph, alias: string, src: string, visited: set<string>, target: string,
      p: Path)
    requires p != []
    ensures Reaches(g, alias, src, visited, target, p) <==>
      && Linked(g, alias, src, p, 0) && p[0].Alias() !in visited
      && Reaches(g, p[0].Alias(), p[0].join.to, visited + {p[0].Alias()}, target, p[1..])
  {
    if Reaches(g, alias, src, visited, target, p) {
      ReachesSplit(g, alias, src, visited, target, p);
    }
    if Linked(g, alias, src, p, 0) && p[0].Alias() !in visited
        && Reaches(g, p[0].Alias(), p[0].join.to, visited + {p[0].Alias()}, target, p[1..]) {
      ReachesJoin(g, alias, src, visited, target, p);
    }
  }

  lemma {:induction false} ReachesSplit(g: Graph, alias: string, src: string, visited: set<string>, target: string,
      p: Path)
    requires p != [] && Reaches(g, alias, src, visited, target, p)
    ensures Linked(g, alias, src, p, 0) && p[0].Alias() !in visited
    ensures Reaches(g, p[0].Alias(), p[0].join.to, visited + {p[0].Alias()}, target, p[1..])
  {
    var rest := p[1..];
    forall k | 0 <= k < |rest|
      ensures Linked(g, p[0].Alias(), p[0].join.to, rest, k)
    {
      assert Linked(g, alias, src, p, k + 1);
    }
    forall k | 0 <= k < |rest|
      ensures rest[k].Alias() !in visited + {p[0].Alias()}
    {
      assert Route(p)[0] != Route(p)[k + 1];
    }
    RouteTail(p);
  }

  lemma {:induction false} RouteTail(p: Path)
    requires p != []
    ensures Route(p)[1..] == Route(p[1..])
    ensures NoDup(Route(p)) <==> NoDup(Route(p[1..])) && p[0].Alias() !in Route(p[1..])
  {
    var r := Route(p);
    assert r == [r[0]] + r[1..];
  }

  lemma {:induction false} ReachesJoin(g: Graph, alias: string, src: string, visited: set<string>, target: string,
      p: Path)
    requires p != [] && Linked(g, alias, src, p, 0) && p[0].Alias() !in visited
    requires Reaches(g, p[0].Alias(), p[0].join.to, visited + {p[0].Alias()}, target, p[1..])
    ensures Reaches(g, alias, src, visited, target, p)
  {
    var rest := p[1..];
    forall k | 0 <= k < |p|
      ensures Linked(g, alias, src, p, k)
    {
      if k > 0 { assert Linked(g, p[0].Alias(), p[0].join.to, rest, k - 1); }
    }
    forall k | 0 <= k < |p|
      ensures p[k].Alias() !in visited
    {
      if k > 0 { assert rest[k - 1].Alias() !in visited + {p[0].Alias()}; }
    }
    forall x | x in Route(rest)
      ensures x != p[0].Alias()
    {
      var k :| 0 <= k < |rest| && rest[k].Alias() == x;
      assert rest[k].Alias() !in visited + {p[0].Alias()};
    }
    RouteTail(p);
  }

  // ---------------------------------------------------------------- enumeration

  /** Every alias some declared join introduces. */
  function AllAliases(g: Graph): (r: set<string>)
    ensures forall s, j :: s in g && j in g[s] ==> j.Alias() in r
  {
    set s, j | s in g && j in g[s] :: j.Alias()
  }

  /** What the recursive walk appends to `paths`, in declaration order. */
  function Walk(g: Graph, target: string, alias: string, src: string, visited: set<string>, trail: Path): seq<Path>
    decreases |AllAliases(g) - visited|, 1, 0
  {
    if alias == target then [trail]
    else if src !in g then []
    else WalkJoins(g, target, alias, src, visited, trail, 0)
  }

  /** The same through one declared join. */
  function Branch(g: Graph, target: string, alias: string, src: string, visited: set<string>, trail: Path,
      j: Join): seq<Path>
    requires src in g && j in g[src]
    decreases |AllAliases(g) - visited|, 0, 0
  {
    if j.Alias() in visited then []
    else
      Shrinks(g, src, j, visited);
      Walk(g, target, j.Alias(), j.to, visited + {j.Alias()}, trail + [JoinEdge(src, alias, j)])
  }

  /** The same from the `k`-th declared join on. */
  function WalkJoins(g: Graph, target: string, alias: string, src: string, visited: set<string>, trail: Path,
      k: nat): seq<Path>
    requires src in g && k <= |g[src]|
    decreases |AllAliases(g) - visited|, 0, |g[src]| - k + 1
  {
    if k == |g[src]| then []
    else
      Branch(g, target, alias, src, visited, trail, g[src][k])
      + WalkJoins(g, target, alias, src, visited, trail, k + 1)
  }

  lemma {:induction false} Shrinks(g: Graph, src: string, j: Join, visited: set<string>)
    requires src in g && j in g[src] && j.Alias() !in visited
    ensures |AllAliases(g) - (visited + {j.Alias()})| < |AllAliases(g) - visited|
  {
    var rest := AllAliases(g) - visited;
    assert AllAliases(g) - (visited + {j.Alias()}) == rest - {j.Alias()};
    assert j.Alias() in rest;
  }

  function AllSimplePaths(g: Graph, owner: string, target: string): seq<Path> {
    Walk(g, target, owner, owner, {owner}, [])
  }

  /** The search with its shared `paths` and `trail` lists. */
  class Search {
    const g: Graph
    const target: string
    var paths: seq<Path>
    var trail: Path

    constructor (g: Graph, target: string)
      ensures this.g == g && this.target == target && paths == [] && trail == []
    {
      this.g, this.target := g, target;
      paths, trail := [], [];
    }

    method Visit(alias: string, src: string, visited: set<string>)
      modifies this
      ensures trail == old(trail)
      ensures paths == old(paths) + Walk(g, target, alias, src, visited, old(trail))
      decreases |AllAliases(g) - visited|, 1
    {
      if alias == target {
        paths := paths + [trail];
        return;
      }
      if src !in g {
        return;
      }
      ghost var start, all := paths, WalkJoins(g, target, alias, src, visited, trail, 0);
      ghost var found: seq<Path> := [];
      for k := 0 to |g[src]|
        invariant trail == old(trail) && paths == start + found
        invariant found + WalkJoins(g, target, alias, src, visited, trail, k) == all
      {
        ghost var branch := Branch(g, target, alias, src, visited, trail, g[src][k]);
        Descend(alias, src, visited, g[src][k]);
        Regroup(start, found, branch, WalkJoins(g, target, alias, src, visited, trail, k + 1));
        found := found + branch;
      }
      assert found == all;
    }

    /** Push the edge, walk below it, pop it. */
    method Descend(alias: string, src: string, visited: set<string>, j: Join)
      requires src in g && j in g[src]
      modifies this
      ensures trail == old(trail)
      ensures paths == old(paths) + Branch(g, target, alias, src, visited, old(trail), j)
      decreases |AllAliases(g) - visited|, 0
    {
      if j.Alias() in visited {
        return;
      }
      Shrinks(g, src, j, visited);
      trail := trail + [JoinEdge(src, alias, j)];
      Visit(j.Alias(), j.to, visited + {j.Alias()});
      trail := trail[..|trail| - 1];
    }
  }

  lemma {:induction false} Regroup<A>(start: seq<A>, found: seq<A>, branch: seq<A>, rest: seq<A>)
    ensures start + found + branch == start + (found + branch)
    ensures found + (branch + rest) == found + branch + rest
  {
  }

  /** Every simple directed path of declared joins from owner to target. */
  method FindSimplePaths(g: Graph, owner: string, target: string) returns (paths: seq<Path>)
    ensures paths == AllSimplePaths(g, owner, target)
  {
    var search := new Search(g, target);
    search.Visit(owner, owner, {owner});
    paths := search.paths;
  }

  // ---------------------------------------------------------------- the enumeration is exact

  /** `p` extends the trail by join `j` and reaches the target from there. */
  ghost predicate Through(g: Graph, target: string, alias: string, src: string, visited: set<string>, trail: Path,
      j: Join, p: Path)
  {
    && |trail| < |p| && trail <= p && p[|trail|] == JoinEdge(src, alias, j) && j.Alias() !in visited
    && Reaches(g, j.Alias(), j.to, visited + {j.Alias()}, target, p[|trail| + 1..])
  }

  ghost predicate Extends(g: Graph, target: string, alias: string, src: string, visited: set<string>, trail: Path,
      p: Path)
  {
    trail <= p && Reaches(g, alias, src, visited, target, p[|trail|..])
  }

  lemma {:induction false} ExtendsThrough(g: Graph, target: string, alias: string, src: string, visited: set<string>,
      trail: Path, p: Path)
    requires alias != target
    ensures Extends(g, target, alias, src, visited, trail, p) <==>
      src in g && exists k :: 0 <= k < |g[src]| && Through(g, target, alias, src, visited, trail, g[src][k], p)
  {
    if trail <= p && |trail| < |p| {
      var rest := p[|trail|..];
      ReachesStep(g, alias, src, visited, target, rest);
      assert rest[1..] == p[|trail| + 1..];
      if Reaches(g, alias, src, visited, target, rest) {
        var k :| 0 <= k < |g[src]| && g[src][k] == rest[0].join;
        assert Through(g, target, alias, src, visited, trail, g[src][k], p);
      }
      if src in g {
        if k :| 0 <= k < |g[src]| && Through(g, target, alias, src, visited, trail, g[src][k], p) {
          assert Linked(g, alias, src, rest, 0);
        }
      }
    } else if trail <= p {
      assert p[|trail|..] == [];
    }
  }

  lemma {:induction false} BranchExact(g: Graph, target: string, alias: string, src: string, visited: set<string>,
      trail: Path, j: Join)
    requires Declared(g) && src in g && j in g[src]
    ensures NoDup(Branch(g, target, alias, src, visited, trail, j))
    ensures forall p ::
      p in Branch(g, target, alias, src, visited, trail, j) <==> Through(g, target, alias, src, visited, trail, j, p)
    decreases |AllAliases(g) - visited|, 0, 0
  {
    if j.Alias() !in visited {
      Shrinks(g, src, j, visited);
      var e := JoinEdge(src, alias, j);
      WalkExact(g, target, j.Alias(), j.to, visited + {j.Alias()}, trail + [e]);
      forall p
        ensures Extends(g, target, j.Alias(), j.to, visited + {j.Alias()}, trail + [e], p)
            <==> Through(g, target, alias, src, visited, trail, j, p)
      {
        assert trail + [e] <= p <==> |trail| < |p| && trail <= p && p[|trail|] == e;
      }
    }
  }

  lemma {:induction false} WalkJoinsExact(g: Graph, target: string, alias: string, src: string, visited: set<string>,
      trail: Path, k: nat)
    requires Declared(g) && src in g && k <= |g[src]|
    ensures NoDup(WalkJoins(g, target, alias, src, visited, trail, k))
    ensures forall p :: p in WalkJoins(g, target, alias, src, visited, trail, k) <==>
      exists i :: k <= i < |g[src]| && Through(g, target, alias, src, visited, trail, g[src][i], p)
    decreases |AllAliases(g) - visited|, 0, |g[src]| - k + 1
  {
    if k < |g[src]| {
      var j := g[src][k];
      BranchExact(g, target, alias, src, visited, trail, j);
      WalkJoinsExact(g, target, alias, src, visited, trail, k + 1);
      var a, b := Branch(g, target, alias, src, visited, trail, j),
          WalkJoins(g, target, alias, src, visited, trail, k + 1);
      forall i | k < i < |g[src]|
        ensures g[src][i] != j
      {
        assert AliasesOf(g[src])[k] != AliasesOf(g[src])[i];
      }
      NoDupAppend(a, b);
    }
  }

  lemma {:induction false} WalkExact(g: Graph, target: string, alias: string, src: string, visited: set<string>,
      trail: Path)
    requires Declared(g) && alias in visited
    ensures NoDup(Walk(g, target, alias, src, visited, trail))
    ensures forall p ::
      p in Walk(g, target, alias, src, visited, trail) <==> Extends(g, target, alias, src, visited, trail, p)
    decreases |AllAliases(g) - visited|, 1, 0
  {
    if alias == target {
      forall p
        ensures Extends(g, target, alias, src, visited, trail, p) <==> p == trail
      {
        OnlyTheTrail(g, target, src, visited, trail, p);
      }
    } else {
      if src in g {
        WalkJoinsExact(g, target, alias, src, visited, trail, 0);
      }
      forall p
        ensures p in Walk(g, target, alias, src, visited, trail) <==> Extends(g, target, alias, src, visited, trail, p)
      {
        ExtendsThrough(g, target, alias, src, visited, trail, p);
      }
    }
  }

  lemma {:induction false} OnlyTheTrail(g: Graph, target: string, src: string, visited: set<string>, trail: Path,
      p: Path)
    requires target in visited
    ensures Extends(g, target, target, src, visited, trail, p) <==> p == trail
  {
    if trail <= p {
      assert p == trail + p[|trail|..];
    }
  }

  /** The search enumerates every simple path from owner to target, and each exactly once. */
  lemma {:induction false} SimplePathsExact(g: Graph, owner: string, target: string)
    requires Declared(g)
    ensures NoDup(AllSimplePaths(g, owner, target))
    ensures forall p :: p in AllSimplePaths(g, owner, target) <==> SimplePath(g, owner, target, p)
  {
    WalkExact(g, target, owner, owner, {owner}, []);
    forall p
      ensures Extends(g, target, owner, owner, {owner}, [], p) <==> SimplePath(g, owner, target, p)
    {
      assert p[0..] == p;
    }
  }
}
