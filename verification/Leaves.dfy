/** What the rows of one planned leaf look like. */
module Leaves {
  import opened Relational
  import opened Plans
  import opened Spine

  /** Tuples have the requested width. A leaf without a finality rule is one SELECT; a finality
      leaf groups by a time dimension and has at most one SELECT per marker. */
  ghost predicate LeafOk(l: LeafPlan) {
    && (forall b, r :: b in l.branches && r in b.rows ==> |r.dims| == l.dimCount)
    && (!l.projectsIsFinal ==> |l.branches| == 1)
    && (l.projectsIsFinal ==> l.dimCount > 0)
    && (l.projectsIsFinal ==>
          forall i, j :: 0 <= i < j < |l.branches| ==> l.branches[i].isFinal != l.branches[j].isFinal)
    && NoDup(l.order) && (forall c :: c in l.order ==> c < l.dimCount)
    && (l.visible.Some? ==> NoDup(l.visible.value))
  }

  lemma {:induction false} BranchGroupsDistinct(b: Branch, n: nat)
    requires forall r :: r in b.rows ==> |r.dims| == n
    ensures forall i, j :: 0 <= i < j < |GroupsOf(b, n)| ==> GroupsOf(b, n)[i].dims != GroupsOf(b, n)[j].dims
    ensures forall g :: g in GroupsOf(b, n) ==> g.flag == b.isFinal && |g.dims| == n
  {
    var all := Map(b.rows, (r: BaseRow) => r.dims);
    assert forall d :: d in all ==> |d| == n;
  }

  lemma {:induction false} GroupsDistinct(branches: seq<Branch>, n: nat)
    requires forall b, r :: b in branches && r in b.rows ==> |r.dims| == n
    requires forall i, j :: 0 <= i < j < |branches| ==> branches[i].isFinal != branches[j].isFinal
    ensures var gs := Flatten(Map(branches, (b: Branch) => GroupsOf(b, n)));
      && OneRowPerTuple(gs, true)
      && (forall g :: g in gs ==> |g.dims| == n && exists b :: b in branches && g.flag == b.isFinal)
  {
    if branches != [] {
      var k := |branches| - 1;
      var f := (b: Branch) => GroupsOf(b, n);
      GroupsDistinct(branches[..k], n);
      BranchGroupsDistinct(branches[k], n);
      assert Map(branches, f)[..k] == Map(branches[..k], f);
      var init := Flatten(Map(branches[..k], f));
      assert Flatten(Map(branches, f)) == init + GroupsOf(branches[k], n);
      assert branches[k] in branches;
      forall g | g in init
        ensures g.flag != branches[k].isFinal
      {
        var b :| b in branches[..k] && g.flag == b.isFinal;
        var i :| 0 <= i < k && branches[i] == b;
      }
    }
  }

  /** A leaf has one row per dimension tuple, or per tuple and marker under a finality rule. */
  lemma {:induction false} LeafRowsDistinct(l: LeafPlan)
    requires LeafOk(l)
    ensures OneRowPerTuple(Groups(l), l.projectsIsFinal)
    ensures forall g :: g in Groups(l) ==> |g.dims| == l.dimCount
  {
    if l.projectsIsFinal {
      GroupsDistinct(l.branches, l.dimCount);
    } else {
      var b := l.branches[0];
      assert b in l.branches;
      BranchGroupsDistinct(b, l.dimCount);
      var m := Map(l.branches, (b: Branch) => GroupsOf(b, l.dimCount));
      assert m == [] + [m[0]] && m[..0] == [];
      assert Flatten(m) == Flatten(m[..0]) + m[0];
      assert Groups(l) == GroupsOf(b, l.dimCount);
    }
  }

  /** Without dimensions a leaf is exactly one row. */
  lemma {:induction false} OneRowWithoutDimensions(l: LeafPlan)
    requires LeafOk(l) && l.dimCount == 0
    ensures |Groups(l)| == 1 && Groups(l)[0].dims == []
  {
    var m := Map(l.branches, (b: Branch) => GroupsOf(b, l.dimCount));
    assert m[..0] == [];
    assert Flatten(m) == Flatten(m[..0]) + m[0];
  }

  // ---------------------------------------------------------------- rows as a set

  lemma {:induction false} LeafGroup(l: LeafPlan, g: Group)
    ensures g in Groups(l) <==> exists b :: b in l.branches && g in GroupsOf(b, l.dimCount)
  {
    var f := (b: Branch) => GroupsOf(b, l.dimCount);
    if g in Groups(l) {
      var i :| 0 <= i < |l.branches| && g in Map(l.branches, f)[i];
      assert l.branches[i] in l.branches;
    }
    if b :| b in l.branches && g in GroupsOf(b, l.dimCount) {
      var i :| 0 <= i < |l.branches| && l.branches[i] == b;
      assert g in Map(l.branches, f)[i];
    }
  }

  /** The leaves return the same rows, whatever the order of their SELECTs. */
  ghost predicate SameRows(a: LeafPlan, b: LeafPlan) {
    forall g :: g in Groups(a) <==> g in Groups(b)
  }

  lemma {:induction false} SameBranchesSameRows(a: LeafPlan, b: LeafPlan)
    requires multiset(a.branches) == multiset(b.branches) && a.dimCount == b.dimCount
    ensures SameRows(a, b)
  {
    assert forall x :: x in a.branches <==> x in multiset(a.branches);
    assert forall x :: x in b.branches <==> x in multiset(b.branches);
    forall g
      ensures g in Groups(a) <==> g in Groups(b)
    {
      LeafGroup(a, g);
      LeafGroup(b, g);
    }
  }
}
