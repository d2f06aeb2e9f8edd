/** The aliases reachable from a source, found breadth first. */
module AliasTree {
  import opened Relational
  import opened Joins
  import opened JoinUniqueness

  /** `p` leads from the owner to `alias` over aliases of the tree and ends at the tree's source. */
  ghost predicate Rooted(g: Graph, owner: string, tree: map<string, string>, alias: string, p: Path) {
    && alias in tree && SimplePath(g, owner, alias, p)
    && (forall k :: 0 <= k < |p| ==> p[k].Alias() in tree)
    && tree[alias] == (if p == [] then owner else p[|p| - 1].join.to)
  }

  /** The joins of the tree's source for `alias` lead into the tree. */
  ghost predicate Expanded(g: Graph, tree: map<string, string>, alias: string) {
    alias in tree && (tree[alias] in g ==> forall k :: 0 <= k < |g[tree[alias]]| ==> g[tree[alias]][k].Alias() in tree)
  }

  ghost predicate IsTree(g: Graph, owner: string, tree: map<string, string>) {
    && owner in tree && tree[owner] == owner
    && (forall a {:trigger HasRoot(g, owner, tree, a)} :: a in tree ==> HasRoot(g, owner, tree, a))
  }

  ghost predicate HasRoot(g: Graph, owner: string, tree: map<string, string>, alias: string) {
    exists p :: Rooted(g, owner, tree, alias, p)
  }

  lemma {:induction false} Grow(g: Graph, owner: string, tree: map<string, string>, alias: string, j: Join)
    requires IsTree(g, owner, tree) && alias in tree && tree[alias] in g && j in g[tree[alias]] && j.Alias() !in tree
    ensures IsTree(g, owner, tree[j.Alias() := j.to])
  {
    var tree' := tree[j.Alias() := j.to];
    forall a | a in tree'
      ensures HasRoot(g, owner, tree', a)
    {
      assert HasRoot(g, owner, tree, if a == j.Alias() then alias else a);
      if a == j.Alias() {
        var p :| Rooted(g, owner, tree, alias, p);
        GrowPath(g, owner, tree, alias, j, p);
      } else {
        var p :| Rooted(g, owner, tree, a, p);
        assert Rooted(g, owner, tree', a, p);
      }
    }
  }

  lemma {:induction false} GrowPath(g: Graph, owner: string, tree: map<string, string>, alias: string, j: Join, p: Path)
    requires IsTree(g, owner, tree) && Rooted(g, owner, tree, alias, p)
    requires tree[alias] in g && j in g[tree[alias]] && j.Alias() !in tree
    ensures Rooted(g, owner, tree[j.Alias() := j.to], j.Alias(), p + [JoinEdge(tree[alias], alias, j)])
  {
    var q := p + [JoinEdge(tree[alias], alias, j)];
    forall k | 0 <= k < |q|
      ensures Linked(g, owner, owner, q, k)
    {
      if k < |p| { assert Linked(g, owner, owner, p, k); }
    }
    assert Route(q) == Route(p) + [j.Alias()];
  }

  /** Every alias of the tree is expanded, still queued, or the one being expanded. */
  ghost predicate Pending(g: Graph, tree: map<string, string>, queue: seq<string>, busy: set<string>) {
    && (forall a :: a in queue ==> a in tree)
    && (forall a {:trigger Expanded(g, tree, a)} :: a in tree ==> a in queue || a in busy || Expanded(g, tree, a))
  }

  lemma {:induction false} PendingGrows(g: Graph, tree: map<string, string>, queue: seq<string>, busy: set<string>,
      j: Join)
    requires Pending(g, tree, queue, busy) && j.Alias() !in tree
    ensures Pending(g, tree[j.Alias() := j.to], queue + [j.Alias()], busy)
  {
    var tree' := tree[j.Alias() := j.to];
    forall a | a in tree'
      ensures a in queue + [j.Alias()] || a in busy || Expanded(g, tree', a)
    {
      if a != j.Alias() && a !in queue && a !in busy {
        assert Expanded(g, tree, a);
        assert tree'[a] == tree[a];
      }
    }
  }

  /** How many declared aliases are not known yet. */
  ghost function Left(g: Graph, known: set<string>): nat {
    |AllAliases(g) - known|
  }

  lemma {:induction false} KeysGrow(tree: map<string, string>, alias: string, source: string)
    ensures tree[alias := source].Keys == tree.Keys + {alias}
  {
  }

  lemma {:induction false} Fewer(g: Graph, j: Join, tree: map<string, string>)
    requires IsDeclared(g, j) && j.Alias() !in tree
    ensures Left(g, tree[j.Alias() := j.to].Keys) < Left(g, tree.Keys)
  {
    var s :| s in g && j in g[s];
    Shrinks(g, s, j, tree.Keys);
    KeysGrow(tree, j.Alias(), j.to);
  }

  // ---------------------------------------------------------------- breadth-first search

  ghost predicate IsDeclared(g: Graph, j: Join) {
    exists s :: s in g && j in g[s]
  }

  function JoinsOf(g: Graph, source: string): (r: seq<Join>)
    ensures forall j :: j in r ==> IsDeclared(g, j)
  {
    if source in g then g[source] else []
  }

  /** Queued aliases are known. */
  predicate Known(tree: map<string, string>, queue: seq<string>) {
    forall a :: a in queue ==> a in tree
  }

  /** Add the aliases of `joins` that are new, in declaration order. */
  function AddJoins(tree: map<string, string>, queue: seq<string>,
      joins: seq<Join>): (r: (map<string, string>, seq<string>))
    requires Known(tree, queue)
    ensures Known(r.0, r.1)
    decreases |joins|
  {
    if joins == [] then (tree, queue)
    else
      var alias := joins[0].Alias();
      if alias in tree then AddJoins(tree, queue, joins[1..])
      else AddJoins(tree[alias := joins[0].to], queue + [alias], joins[1..])
  }

  lemma {:induction false} AddJoinsShrinks(g: Graph, tree: map<string, string>, queue: seq<string>, joins: seq<Join>)
    requires Known(tree, queue) && forall j :: j in joins ==> IsDeclared(g, j)
    ensures var r := AddJoins(tree, queue, joins);
      Left(g, r.0.Keys) < Left(g, tree.Keys) || r == (tree, queue)
    decreases |joins|
  {
    if joins != [] {
      var j := joins[0];
      if j.Alias() in tree {
        AddJoinsShrinks(g, tree, queue, joins[1..]);
      } else {
        Fewer(g, j, tree);
        AddJoinsShrinks(g, tree[j.Alias() := j.to], queue + [j.Alias()], joins[1..]);
      }
    }
  }

  /** Take aliases from the queue until it is empty. */
  function Explore(g: Graph, tree: map<string, string>, queue: seq<string>): map<string, string>
    requires Known(tree, queue)
    decreases Left(g, tree.Keys), |queue|
  {
    if queue == [] then tree
    else
      var joins := JoinsOf(g, tree[queue[0]]);
      AddJoinsShrinks(g, tree, queue[1..], joins);
      var next := AddJoins(tree, queue[1..], joins);
      Explore(g, next.0, next.1)
  }

  /** Each alias with the source it is first found under, breadth first. */
  function AliasTreeOf(g: Graph, owner: string): map<string, string> {
    Explore(g, map[owner := owner], [owner])
  }

  method BuildAliasTree(g: Graph, owner: string) returns (tree: map<string, string>)
    ensures tree == AliasTreeOf(g, owner)
  {
    tree := map[owner := owner];
    var queue := [owner];
    while queue != []
      invariant Known(tree, queue) && Explore(g, tree, queue) == AliasTreeOf(g, owner)
      decreases Left(g, tree.Keys), |queue|
    {
      var source := tree[queue[0]];
      AddJoinsShrinks(g, tree, queue[1..], JoinsOf(g, source));
      if source in g {
        tree, queue := Expand(tree, queue[1..], g[source]);
      } else {
        queue := queue[1..];
      }
    }
  }

  /** Add every join target that is new. */
  method Expand(tree: map<string, string>, queue: seq<string>, joins: seq<Join>)
    returns (tree': map<string, string>, queue': seq<string>)
    requires Known(tree, queue)
    ensures Known(tree', queue') && (tree', queue') == AddJoins(tree, queue, joins)
  {
    tree', queue' := tree, queue;
    for k := 0 to |joins|
      invariant Known(tree', queue') && AddJoins(tree', queue', joins[k..]) == AddJoins(tree, queue, joins)
    {
      assert joins[k..][1..] == joins[k + 1..];
      var alias := joins[k].Alias();
      if alias !in tree' {
        tree' := tree'[alias := joins[k].to];
        queue' := queue' + [alias];
      }
    }
  }

  // ---------------------------------------------------------------- the result is a closed tree

  lemma {:induction false} StartTree(g: Graph, owner: string)
    ensures IsTree(g, owner, map[owner := owner]) && Pending(g, map[owner := owner], [owner], {})
  {
    assert Rooted(g, owner, map[owner := owner], owner, []);
  }

  lemma {:induction false} PopPending(g: Graph, tree: map<string, string>, queue: seq<string>)
    requires Pending(g, tree, queue, {}) && queue != []
    ensures queue[0] in tree && Pending(g, tree, queue[1..], {queue[0]})
  {
    assert queue == [queue[0]] + queue[1..];
  }

  lemma {:induction false} AddJoinsKeeps(g: Graph, owner: string, tree: map<string, string>, queue: seq<string>,
      alias: string, joins: seq<Join>)
    requires IsTree(g, owner, tree) && alias in tree && Pending(g, tree, queue, {alias}) && Known(tree, queue)
    requires forall j :: j in joins ==> tree[alias] in g && j in g[tree[alias]]
    ensures var r := AddJoins(tree, queue, joins);
      && IsTree(g, owner, r.0) && Pending(g, r.0, r.1, {alias})
      && alias in r.0 && r.0[alias] == tree[alias]
      && (forall a :: a in tree ==> a in r.0)
      && (forall j :: j in joins ==> j.Alias() in r.0)
    decreases |joins|
  {
    if joins != [] {
      var j := joins[0];
      assert j in joins && joins == [j] + joins[1..];
      if j.Alias() in tree {
        AddJoinsKeeps(g, owner, tree, queue, alias, joins[1..]);
      } else {
        Grow(g, owner, tree, alias, j);
        PendingGrows(g, tree, queue, {alias}, j);
        AddJoinsKeeps(g, owner, tree[j.Alias() := j.to], queue + [j.Alias()], alias, joins[1..]);
      }
    }
  }

  lemma {:induction false} SearchKeeps(g: Graph, owner: string, tree: map<string, string>, queue: seq<string>)
    requires IsTree(g, owner, tree) && Pending(g, tree, queue, {}) && Known(tree, queue)
    ensures IsAliasTree(g, owner, Explore(g, tree, queue))
    decreases Left(g, tree.Keys), |queue|
  {
    if queue != [] {
      var alias, joins := queue[0], JoinsOf(g, tree[queue[0]]);
      PopPending(g, tree, queue);
      AddJoinsShrinks(g, tree, queue[1..], joins);
      AddJoinsKeeps(g, owner, tree, queue[1..], alias, joins);
      var next := AddJoins(tree, queue[1..], joins);
      assert Expanded(g, next.0, alias);
      SearchKeeps(g, owner, next.0, next.1);
    }
  }

  /** The search ends with a tree in which every alias has a simple path to the source named for it,
      and every join of a named source leads into the tree. */
  lemma {:induction false} AliasTreeIsClosed(g: Graph, owner: string)
    ensures IsAliasTree(g, owner, AliasTreeOf(g, owner))
  {
    StartTree(g, owner);
    SearchKeeps(g, owner, map[owner := owner], [owner]);
  }

  // ---------------------------------------------------------------- tree and path search agree

  ghost predicate IsAliasTree(g: Graph, owner: string, tree: map<string, string>) {
    IsTree(g, owner, tree) && forall a {:trigger Expanded(g, tree, a)} :: a in tree ==> Expanded(g, tree, a)
  }

  /** Every alias of the tree has a simple path that ends at the source the tree names. */
  lemma {:induction false} TreeIsReachable(g: Graph, owner: string, tree: map<string, string>, alias: string)
    requires Declared(g) && IsAliasTree(g, owner, tree) && alias in tree
    ensures AllSimplePaths(g, owner, alias) != []
  {
    assert HasRoot(g, owner, tree, alias);
    var p :| Rooted(g, owner, tree, alias, p);
    SimplePathsExact(g, owner, alias);
    assert p in AllSimplePaths(g, owner, alias);
  }

  lemma {:induction false} TreeNamesTheSource(g: Graph, owner: string, tree: map<string, string>, src: string, j: Join)
    requires Functional(g) && IsTree(g, owner, tree)
    requires src in g && j in g[src] && j.Alias() in tree && j.Alias() != owner
    ensures tree[j.Alias()] == j.to
  {
    assert HasRoot(g, owner, tree, j.Alias());
    var q :| Rooted(g, owner, tree, j.Alias(), q);
    assert Linked(g, owner, owner, q, |q| - 1);
  }

  /** Every step of a path stays in the tree, under the source the tree names. */
  lemma {:induction false} PathInTree(g: Graph, owner: string, tree: map<string, string>, p: Path, k: nat)
    requires Functional(g) && IsAliasTree(g, owner, tree) && k < |p|
    requires forall i :: 0 <= i < |p| ==> Linked(g, owner, owner, p, i)
    requires forall i :: 0 <= i < |p| ==> p[i].Alias() != owner
    ensures p[k].Alias() in tree && tree[p[k].Alias()] == p[k].join.to
    decreases k
  {
    if k > 0 {
      PathInTree(g, owner, tree, p, k - 1);
    }
    assert Linked(g, owner, owner, p, k);
    StepInTree(g, owner, tree, p[k]);
  }

  lemma {:induction false} StepInTree(g: Graph, owner: string, tree: map<string, string>, e: JoinEdge)
    requires Functional(g) && IsAliasTree(g, owner, tree)
    requires e.fromAlias in tree && tree[e.fromAlias] == e.fromSource
    requires e.fromSource in g && e.join in g[e.fromSource] && e.Alias() != owner
    ensures e.Alias() in tree && tree[e.Alias()] == e.join.to
  {
    assert Expanded(g, tree, e.fromAlias);
    TreeNamesTheSource(g, owner, tree, e.fromSource, e.join);
  }

  lemma {:induction false} SimplePathInTree(g: Graph, owner: string, tree: map<string, string>, alias: string, p: Path)
    requires Functional(g) && IsAliasTree(g, owner, tree) && SimplePath(g, owner, alias, p)
    ensures alias in tree && (p != [] ==> tree[alias] == p[|p| - 1].join.to)
  {
    if p != [] {
      PathInTree(g, owner, tree, p, |p| - 1);
    }
  }

  /** Where aliases determine their sources, an alias is in the tree exactly when a simple path
      reaches it, and the tree names the source every such path ends at. */
  lemma {:induction false} TreeIffReachable(g: Graph, owner: string, tree: map<string, string>, alias: string)
    requires Declared(g) && Functional(g) && IsAliasTree(g, owner, tree)
    ensures alias in tree <==> AllSimplePaths(g, owner, alias) != []
    ensures forall p: Path ::
      SimplePath(g, owner, alias, p) && p != [] ==> alias in tree && tree[alias] == p[|p| - 1].join.to
  {
    if alias in tree {
      TreeIsReachable(g, owner, tree, alias);
    }
    forall p: Path | SimplePath(g, owner, alias, p)
      ensures alias in tree && (p != [] ==> tree[alias] == p[|p| - 1].join.to)
    {
      SimplePathInTree(g, owner, tree, alias, p);
    }
    SimplePathsExact(g, owner, alias);
    HeadIn(AllSimplePaths(g, owner, alias));
  }

  // ---------------------------------------------------------------- exactly when they agree

  ghost function EndSource(owner: string, p: Path): string {
    if p == [] then owner else p[|p| - 1].join.to
  }

  ghost predicate Reachable(g: Graph, owner: string, alias: string) {
    exists p :: SimplePath(g, owner, alias, p)
  }

  /** Whatever simple path is taken, the joins of the source it ends at lead into the tree. */
  ghost predicate PathsStayInside(g: Graph, owner: string, tree: map<string, string>) {
    forall p: Path, j: Join :: Continues(g, owner, p, j) ==> j.Alias() in tree
  }

  /** `j` is declared on the source where a simple path ends. */
  ghost predicate Continues(g: Graph, owner: string, p: Path, j: Join) {
    SimplePath(g, owner, End(owner, p), p) && EndSource(owner, p) in g && j in g[EndSource(owner, p)]
  }

  /** Tree and path search know the same aliases. */
  ghost predicate TreeIsExact(g: Graph, owner: string, tree: map<string, string>) {
    forall a :: a in tree <==> Reachable(g, owner, a)
  }

  lemma {:induction false} InsidePath(g: Graph, owner: string, tree: map<string, string>, alias: string, p: Path)
    requires IsAliasTree(g, owner, tree) && PathsStayInside(g, owner, tree) && SimplePath(g, owner, alias, p)
    ensures alias in tree
  {
    if p != [] {
      var n := |p| - 1;
      assert Linked(g, owner, owner, p, n);
      DropLast(g, owner, p);
      assert EndSource(owner, p[..n]) == p[n].fromSource;
      assert Continues(g, owner, p[..n], p[n].join);
    }
  }

  lemma {:induction false} DropLast(g: Graph, owner: string, p: Path)
    requires p != [] && SimplePath(g, owner, End(owner, p), p)
    ensures SimplePath(g, owner, End(owner, p[..|p| - 1]), p[..|p| - 1])
  {
    var n := |p| - 1;
    if n > 0 {
      PrefixIsSimple(g, owner, End(owner, p), p, n - 1);
    }
  }

  /** One more join either leads somewhere the path has been, or makes a longer simple path. */
  lemma {:induction false} NextIsReachable(g: Graph, owner: string, p: Path, j: Join)
    requires Continues(g, owner, p, j)
    ensures Reachable(g, owner, j.Alias())
  {
    if j.Alias() == owner {
      assert SimplePath(g, owner, owner, []);
    } else if j.Alias() in Route(p) {
      var k :| 0 <= k < |p| && p[k].Alias() == j.Alias();
      PrefixIsSimple(g, owner, End(owner, p), p, k);
    } else {
      var q := p + [JoinEdge(EndSource(owner, p), End(owner, p), j)];
      forall k | 0 <= k < |q|
        ensures Linked(g, owner, owner, q, k)
      {
        if k < |p| { assert Linked(g, owner, owner, p, k); }
      }
      assert Route(q) == Route(p) + [j.Alias()];
      assert SimplePath(g, owner, j.Alias(), q);
    }
  }

  /** A closed tree knows exactly the aliases that simple paths reach if and only if, whichever path is
      taken, the joins of the source it ends at lead into the tree. */
  lemma {:induction false} TreeIsExactIff(g: Graph, owner: string, tree: map<string, string>)
    requires IsAliasTree(g, owner, tree)
    ensures TreeIsExact(g, owner, tree) <==> PathsStayInside(g, owner, tree)
  {
    if PathsStayInside(g, owner, tree) {
      forall a
        ensures a in tree <==> Reachable(g, owner, a)
      {
        if a in tree {
          assert HasRoot(g, owner, tree, a);
          var p :| Rooted(g, owner, tree, a, p);
        }
        if Reachable(g, owner, a) {
          var p :| SimplePath(g, owner, a, p);
          InsidePath(g, owner, tree, a, p);
        }
      }
    }
    if TreeIsExact(g, owner, tree) {
      forall p: Path, j: Join | Continues(g, owner, p, j)
        ensures j.Alias() in tree
      {
        NextIsReachable(g, owner, p, j);
      }
    }
  }

  // ---------------------------------------------------------------- aliases with two sources

  const TO_U := Join("u", None, "z.u = u.id", ManyToOne)

  /** As TWO_FACED, but only the second source of `z` leads on, to `u`. */
  const HIDDEN: Graph := map["o" := [TO_Z, TO_B], "b" := [B_TO_Z], "s2" := [TO_U]]

  lemma {:induction false} HiddenPath()
    ensures SimplePath(HIDDEN, "o", "u",
        [JoinEdge("o", "o", TO_B), JoinEdge("b", "b", B_TO_Z), JoinEdge("s2", "z", TO_U)])
  {
    var p := [JoinEdge("o", "o", TO_B), JoinEdge("b", "b", B_TO_Z), JoinEdge("s2", "z", TO_U)];
    TwoFacedAliases();
    assert TO_U.Alias() == "u";
    assert Linked(HIDDEN, "o", "o", p, 0) && Linked(HIDDEN, "o", "o", p, 1) && Linked(HIDDEN, "o", "o", p, 2);
  }

  lemma {:induction false} HiddenTree()
    ensures AliasTreeOf(HIDDEN, "o") == map["o" := "o", "z" := "s1", "b" := "b"]
  {
    var g := HIDDEN;
    TwoFacedAliases();
    var t0, t1 := map["o" := "o"], map["o" := "o", "z" := "s1"];
    var t2 := map["o" := "o", "z" := "s1", "b" := "b"];
    assert ["o"][1..] == [] && JoinsOf(g, "o") == [TO_Z, TO_B] && [TO_Z, TO_B][1..] == [TO_B];
    AddsOne(t0, [], TO_Z, [TO_B]);
    AddsOne(t1, ["z"], TO_B, []);
    assert ["z", "b"][1..] == ["b"] && ["b"][1..] == [];
    assert t0["z" := "s1"] == t1 && t1["b" := "b"] == t2;
    assert [] + ["z"] == ["z"] && ["z"] + ["b"] == ["z", "b"];
    assert AddJoins(t0, [], [TO_Z, TO_B]) == (t2, ["z", "b"]);
    assert JoinsOf(g, "s1") == [] && JoinsOf(g, "b") == [B_TO_Z] && [B_TO_Z][1..] == [];
    assert AddJoins(t2, ["b"], []) == (t2, ["b"]);
    assert AddJoins(t2, [], [B_TO_Z]) == (t2, []);
    ExploreStep(g, t0, ["o"]);
    ExploreStep(g, t2, ["z", "b"]);
    ExploreStep(g, t2, ["b"]);
  }

  lemma {:induction false} ExploreStep(g: Graph, tree: map<string, string>, queue: seq<string>)
    requires Known(tree, queue) && queue != []
    ensures var next := AddJoins(tree, queue[1..], JoinsOf(g, tree[queue[0]]));
      Explore(g, tree, queue) == Explore(g, next.0, next.1)
  {
  }

  lemma {:induction false} AddsOne(tree: map<string, string>, queue: seq<string>, j: Join, rest: seq<Join>)
    requires Known(tree, queue) && j.Alias() !in tree
    ensures AddJoins(tree, queue, [j] + rest) == AddJoins(tree[j.Alias() := j.to], queue + [j.Alias()], rest)
  {
    assert ([j] + rest)[1..] == rest;
  }

  /** The search finds `z` under its first source only and never learns of `u`, which a simple path
      through the second source reaches. */
  lemma {:induction false} TwoFacedTreeMisses()
    ensures "u" !in AliasTreeOf(HIDDEN, "o") && Reachable(HIDDEN, "o", "u")
    ensures Declared(HIDDEN) && !PathsStayInside(HIDDEN, "o", AliasTreeOf(HIDDEN, "o"))
  {
    HiddenPath();
    HiddenTree();
    TwoFacedAliases();
    AliasTreeIsClosed(HIDDEN, "o");
    TreeIsExactIff(HIDDEN, "o", AliasTreeOf(HIDDEN, "o"));
  }
}
