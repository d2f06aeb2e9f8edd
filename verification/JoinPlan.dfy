/** Planning the joins of a leaf, and the alias tree it binds names against. */
module JoinPlan {
  import opened Relational
  import opened Joins

  /** The planned edges in join order, or the target that stopped planning. */
  datatype Plan =
    | Planned(edges: seq<JoinEdge>)
    | Unreachable(target: string)
    | Ambiguous(target: string, candidates: seq<Path>)

  // ---------------------------------------------------------------- plan_joins

  /** Keep the paths whose alias sequence starts with `via`. */
  function FilterByVia(paths: seq<Path>, via: seq<string>): seq<Path> {
    Filter(paths, (p: Path) => via <= Route(p))
  }

  /** The candidate paths of one target, after `via` had its say. */
  function Candidates(g: Graph, owner: string, target: string, via: Option<seq<string>>): seq<Path> {
    var paths := AllSimplePaths(g, owner, target);
    if |paths| > 1 && via.Some? then FilterByVia(paths, via.value) else paths
  }

  /** Append the edges whose alias is not joined yet. */
  function AddPath(edges: seq<JoinEdge>, joined: set<string>, p: Path): (seq<JoinEdge>, set<string>)
    decreases |p|
  {
    if p == [] then (edges, joined)
    else if p[0].Alias() in joined then AddPath(edges, joined, p[1..])
    else AddPath(edges + [p[0]], joined + {p[0].Alias()}, p[1..])
  }

  /** Process the targets in the given order. */
  function PlanFrom(g: Graph, owner: string, targets: seq<string>, via: Option<seq<string>>, edges: seq<JoinEdge>,
      joined: set<string>): Plan
    decreases |targets|
  {
    if targets == [] then Planned(edges)
    else if targets[0] in joined then PlanFrom(g, owner, targets[1..], via, edges, joined)
    else
      var paths := Candidates(g, owner, targets[0], via);
      if paths == [] then Unreachable(targets[0])
      else if |paths| > 1 then Ambiguous(targets[0], paths)
      else
        var (edges', joined') := AddPath(edges, joined, paths[0]);
        PlanFrom(g, owner, targets[1..], via, edges', joined')
  }

  /** The ordered join edges that connect `owner` to every target alias. */
  method PlanJoins(g: Graph, owner: string, targets: seq<string>, via: Option<seq<string>>) returns (plan: Plan)
    ensures plan == PlanFrom(g, owner, targets, via, [], {owner})
  {
    var edges: seq<JoinEdge> := [];
    var joined := {owner};
    for n := 0 to |targets|
      invariant PlanFrom(g, owner, targets[n..], via, edges, joined) == PlanFrom(g, owner, targets, via, [], {owner})
    {
      assert targets[n..][1..] == targets[n + 1..];
      if targets[n] !in joined {
        var paths := FindSimplePaths(g, owner, targets[n]);
        if paths == [] {
          return Unreachable(targets[n]);
        }
        if |paths| > 1 && via.Some? {
          paths := FilterByVia(paths, via.value);
          if paths == [] {
            return Unreachable(targets[n]);
          }
        }
        if |paths| > 1 {
          return Ambiguous(targets[n], paths);
        }
        edges, joined := JoinPath(edges, joined, paths[0]);
      }
    }
    plan := Planned(edges);
  }

  method JoinPath(edges: seq<JoinEdge>, joined: set<string>, p: Path) returns (edges': seq<JoinEdge>,
      joined': set<string>)
    ensures (edges', joined') == AddPath(edges, joined, p)
  {
    edges', joined' := edges, joined;
    for k := 0 to |p|
      invariant AddPath(edges', joined', p[k..]) == AddPath(edges, joined, p)
    {
      assert p[k..][1..] == p[k + 1..];
      if p[k].Alias() !in joined' {
        edges' := edges' + [p[k]];
        joined' := joined' + {p[k].Alias()};
      }
    }
  }

  // ---------------------------------------------------------------- every plan is joinable

  /** Each edge starts at the owner or at an alias joined before it, and no alias is joined twice. */
  ghost predicate Joinable(owner: string, edges: seq<JoinEdge>) {
    && NoDup(Route(edges))
    && (forall k :: 0 <= k < |edges| ==> edges[k].Alias() != owner)
    && (forall k :: 0 <= k < |edges| ==> Before(owner, edges, k, edges[k].fromAlias))
  }

  /** `alias` is the owner or is joined by one of the first `k` edges. */
  ghost predicate Before(owner: string, edges: seq<JoinEdge>, k: nat, alias: string) {
    alias == owner || exists i :: 0 <= i < k && i < |edges| && edges[i].Alias() == alias
  }

  ghost predicate Tracks(owner: string, edges: seq<JoinEdge>, joined: set<string>) {
    forall a :: a in joined <==> Before(owner, edges, |edges|, a)
  }

  ghost predicate Good(owner: string, edges: seq<JoinEdge>, joined: set<string>) {
    Joinable(owner, edges) && Tracks(owner, edges, joined)
  }

  lemma {:induction false} AddEdge(owner: string, edges: seq<JoinEdge>, joined: set<string>, e: JoinEdge)
    requires Good(owner, edges, joined) && e.fromAlias in joined && e.Alias() !in joined
    ensures Good(owner, edges + [e], joined + {e.Alias()})
  {
    var es := edges + [e];
    assert Before(owner, edges, |edges|, e.fromAlias);
    forall k | 0 <= k < |es|
      ensures Before(owner, es, k, es[k].fromAlias)
    {
      var a := es[k].fromAlias;
      if a != owner {
        assert Before(owner, edges, k, a);
        var i :| 0 <= i < k && i < |edges| && edges[i].Alias() == a;
        assert es[i].Alias() == a;
      }
    }
    forall a
      ensures a in joined + {e.Alias()} <==> Before(owner, es, |es|, a)
    {
      if a == e.Alias() {
        assert es[|edges|].Alias() == a;
      } else if a in joined && a != owner {
        var i :| 0 <= i < |edges| && edges[i].Alias() == a;
        assert es[i].Alias() == a;
      }
    }
    assert forall k :: 0 <= k < |edges| ==> edges[k].Alias() in joined by {
      forall k | 0 <= k < |edges|
        ensures edges[k].Alias() in joined
      {
        assert Before(owner, edges, |edges|, edges[k].Alias());
      }
    }
  }

  /** Following a path from a joined alias keeps the plan joinable and joins the whole path. */
  lemma {:induction false} AddPathGood(g: Graph, owner: string, alias: string, src: string, edges: seq<JoinEdge>,
      joined: set<string>, p: Path)
    requires Good(owner, edges, joined) && alias in joined
    requires forall k :: 0 <= k < |p| ==> Linked(g, alias, src, p, k)
    ensures Good(owner, AddPath(edges, joined, p).0, AddPath(edges, joined, p).1)
    ensures joined <= AddPath(edges, joined, p).1 && End(alias, p) in AddPath(edges, joined, p).1
    decreases |p|
  {
    if p != [] {
      assert Linked(g, alias, src, p, 0);
      forall k | 0 <= k < |p[1..]|
        ensures Linked(g, p[0].Alias(), p[0].join.to, p[1..], k)
      {
        assert Linked(g, alias, src, p, k + 1);
      }
      if p[0].Alias() in joined {
        AddPathGood(g, owner, p[0].Alias(), p[0].join.to, edges, joined, p[1..]);
      } else {
        AddEdge(owner, edges, joined, p[0]);
        AddPathGood(g, owner, p[0].Alias(), p[0].join.to, edges + [p[0]], joined + {p[0].Alias()}, p[1..]);
      }
    }
  }

  lemma {:induction false} CandidatesAreSimple(g: Graph, owner: string, target: string, via: Option<seq<string>>)
    requires Declared(g)
    ensures forall p :: p in Candidates(g, owner, target, via) ==> SimplePath(g, owner, target, p)
  {
    SimplePathsExact(g, owner, target);
  }

  lemma {:induction false} PlanFromJoinable(g: Graph, owner: string, targets: seq<string>, via: Option<seq<string>>,
      edges: seq<JoinEdge>, joined: set<string>)
    requires Declared(g) && Good(owner, edges, joined) && owner in joined
    ensures var plan := PlanFrom(g, owner, targets, via, edges, joined);
      plan.Planned? ==> && Joinable(owner, plan.edges)
                        && (forall t :: t in targets || t in joined ==> Before(owner, plan.edges, |plan.edges|, t))
    decreases |targets|
  {
    if targets != [] {
      assert targets == [targets[0]] + targets[1..];
      if targets[0] in joined {
        PlanFromJoinable(g, owner, targets[1..], via, edges, joined);
      } else {
        var paths := Candidates(g, owner, targets[0], via);
        if |paths| == 1 {
          CandidatesAreSimple(g, owner, targets[0], via);
          assert paths[0] in paths;
          var next := AddPath(edges, joined, paths[0]);
          AddPathGood(g, owner, owner, owner, edges, joined, paths[0]);
          PlanFromJoinable(g, owner, targets[1..], via, next.0, next.1);
        }
      }
    }
  }

  /** Whatever the targets and `via`, a plan joins every target, starts each edge at an alias joined
      earlier, and joins no alias twice. */
  lemma {:induction false} PlansAreJoinable(g: Graph, owner: string, targets: seq<string>, via: Option<seq<string>>)
    requires Declared(g)
    ensures var plan := PlanFrom(g, owner, targets, via, [], {owner});
      plan.Planned? ==> && Joinable(owner, plan.edges)
                        && (forall t :: t in targets ==> Before(owner, plan.edges, |plan.edges|, t))
  {
    PlanFromJoinable(g, owner, targets, via, [], {owner});
  }
}
