/** A leaf that joins one-to-many: deduplicate the owner grain, then aggregate. */
module FanOut {
  import opened Relational
  import opened Plans
  import opened Bags
  import Joins

  /** A row of the measure source: its grain columns and its measure inputs. */
  datatype Owner = Owner(grain: Tuple, inputs: seq<Cell>)

  /** A row after the joins: one partner per join, or none. */
  datatype Wide = Wide(owner: Owner, joined: seq<Option<Tuple>>)

  datatype Edge = Edge(relationship: Joins.Relationship, table: seq<Tuple>, on: (Wide, Tuple) -> Truth)

  /** The planned leaf: its joins, its WHERE and its dimension expressions. */
  datatype Query = Query(edges: seq<Edge>, condition: Wide -> Truth, dims: Wide -> Tuple)

  // ---------------------------------------------------------------- the emitted SQL

  function Partners(w: Wide, e: Edge): seq<Tuple> {
    Filter(e.table, (t: Tuple) => e.on(w, t) == True)
  }

  function Extend(w: Wide, e: Edge): seq<Wide> {
    if Partners(w, e) == [] then [w.(joined := w.joined + [None])]
    else Map(Partners(w, e), (t: Tuple) => w.(joined := w.joined + [Some(t)]))
  }

  function LeftJoin(rows: seq<Wide>, e: Edge): seq<Wide> {
    Flatten(Map(rows, (w: Wide) => Extend(w, e)))
  }

  function JoinAll(rows: seq<Wide>, edges: seq<Edge>): seq<Wide>
    decreases |edges|
  {
    if edges == [] then rows else JoinAll(LeftJoin(rows, edges[0]), edges[1..])
  }

  function Selected(owners: seq<Owner>, q: Query): seq<Wide> {
    Filter(JoinAll(Map(owners, (o: Owner) => Wide(o, [])), q.edges), (w: Wide) => q.condition(w) == True)
  }

  function GrainOf(): Wide -> Tuple {
    (w: Wide) => w.owner.grain
  }

  function OwnerOf(): Wide -> Owner {
    (w: Wide) => w.owner
  }

  /** `out` is a result of DISTINCT ON (grain): one row per grain tuple, whichever it picks. */
  ghost predicate IsDistinctOn(rows: seq<Wide>, out: seq<Wide>) {
    && (forall w :: w in out ==> w in rows)
    && NoDup(Map(out, GrainOf()))
    && (forall w :: w in rows ==> Kept(out, w.owner.grain))
  }

  ghost predicate Kept(out: seq<Wide>, grain: Tuple) {
    exists w :: w in out && w.owner.grain == grain
  }

  function AsBase(q: Query): Wide -> BaseRow {
    (w: Wide) => BaseRow(q.dims(w), w.owner.inputs)
  }

  /** The SELECT that aggregates `rows`, the output of the inner query. */
  function Aggregated(q: Query, rows: seq<Wide>, n: nat): seq<Group> {
    GroupsOf(Branch(true, Map(rows, AsBase(q))), n)
  }

  // ---------------------------------------------------------------- owner rows that survive

  ghost predicate Survives(o: Owner, rows: seq<Wide>) {
    exists w :: w in rows && w.owner == o
  }

  /** Owner rows with at least one joined row that passes the WHERE, each once. */
  ghost function Survivors(owners: seq<Owner>, rows: seq<Wide>): (r: seq<Owner>)
    ensures forall o :: o in r <==> o in owners && Survives(o, rows)
  {
    if owners == [] then []
    else if Survives(owners[0], rows) then [owners[0]] + Survivors(owners[1..], rows)
    else Survivors(owners[1..], rows)
  }

  ghost predicate UniqueGrain(owners: seq<Owner>) {
    forall i, j :: 0 <= i < j < |owners| ==> owners[i].grain != owners[j].grain
  }

  lemma {:induction false} ExtendKeepsOwner(w: Wide, e: Edge)
    ensures Extend(w, e) != [] && forall x :: x in Extend(w, e) ==> x.owner == w.owner
  {
  }

  /** A left join neither loses nor invents an owner row. */
  lemma {:induction false} LeftJoinKeepsOwners(rows: seq<Wide>, e: Edge, o: Owner)
    ensures Survives(o, LeftJoin(rows, e)) <==> Survives(o, rows)
  {
    var parts := Map(rows, (w: Wide) => Extend(w, e));
    if Survives(o, rows) {
      var i :| 0 <= i < |rows| && rows[i].owner == o;
      ExtendKeepsOwner(rows[i], e);
      assert parts[i][0] in parts[i];
      assert InSome(parts[i][0], parts);
    }
    if Survives(o, LeftJoin(rows, e)) {
      var x :| x in LeftJoin(rows, e) && x.owner == o;
      assert InSome(x, parts);
      var i :| 0 <= i < |parts| && x in parts[i];
      ExtendKeepsOwner(rows[i], e);
      assert rows[i] in rows;
    }
  }

  lemma {:induction false} JoinAllKeepsOwners(rows: seq<Wide>, edges: seq<Edge>, o: Owner)
    ensures Survives(o, JoinAll(rows, edges)) <==> Survives(o, rows)
    decreases |edges|
  {
    if edges != [] {
      LeftJoinKeepsOwners(rows, edges[0], o);
      JoinAllKeepsOwners(LeftJoin(rows, edges[0]), edges[1..], o);
    }
  }

  lemma {:induction false} FromKeepsOwners(owners: seq<Owner>, edges: seq<Edge>, o: Owner)
    ensures Survives(o, JoinAll(Map(owners, (o: Owner) => Wide(o, [])), edges)) <==> o in owners
  {
    var bare := Map(owners, (o: Owner) => Wide(o, []));
    JoinAllKeepsOwners(bare, edges, o);
    if o in owners {
      var i :| 0 <= i < |owners| && owners[i] == o;
      assert bare[i] in bare;
    }
  }

  lemma {:induction false} SelectedOwners(owners: seq<Owner>, q: Query)
    ensures forall w :: w in Selected(owners, q) ==> w.owner in Survivors(owners, Selected(owners, q))
  {
    forall w | w in Selected(owners, q)
      ensures w.owner in owners
    {
      FromKeepsOwners(owners, q.edges, w.owner);
    }
  }

  lemma {:induction false} SurvivorsUnique(owners: seq<Owner>, rows: seq<Wide>)
    requires UniqueGrain(owners)
    ensures UniqueGrain(Survivors(owners, rows)) && NoDup(Survivors(owners, rows))
  {
    if owners != [] {
      SurvivorsUnique(owners[1..], rows);
      forall o | o in Survivors(owners[1..], rows)
        ensures o.grain != owners[0].grain
      {
        var i :| 1 <= i < |owners| && owners[i] == o;
      }
    }
  }

  // ---------------------------------------------------------------- conservation

  /** Whatever rows DISTINCT ON picks, their owners are the surviving owner rows, each once. */
  lemma {:induction false} DedupKeepsEachOwnerOnce(owners: seq<Owner>, q: Query, out: seq<Wide>)
    requires UniqueGrain(owners) && IsDistinctOn(Selected(owners, q), out)
    ensures multiset(Map(out, OwnerOf())) == multiset(Survivors(owners, Selected(owners, q)))
  {
    var rows := Selected(owners, q);
    var left, right := Map(out, OwnerOf()), Survivors(owners, rows);
    SurvivorsUnique(owners, rows);
    SelectedOwners(owners, q);
    assert NoDup(left) by {
      forall i, j | 0 <= i < j < |left|
        ensures left[i] != left[j]
      {
        assert Map(out, GrainOf())[i] != Map(out, GrainOf())[j];
      }
    }
    forall o | o in right
      ensures o in left
    {
      var w :| w in rows && w.owner == o;
      assert Kept(out, o.grain);
      var k :| 0 <= k < |out| && out[k].owner.grain == o.grain;
      SameGrain(right, o, out[k].owner);
      assert left[k] == o;
    }
    forall o | o in left
      ensures o in right
    {
      var k :| 0 <= k < |left| && left[k] == o;
      assert out[k] in out;
    }
    assert Elems(left) == Elems(right);
    SameBag(left, right);
  }

  lemma {:induction false} SameGrain(owners: seq<Owner>, a: Owner, b: Owner)
    requires UniqueGrain(owners) && a in owners && b in owners && a.grain == b.grain
    ensures a == b
  {
    var i :| 0 <= i < |owners| && owners[i] == a;
    var j :| 0 <= j < |owners| && owners[j] == b;
  }

  function WeightOfOwner(m: Measure, o: Owner): real {
    WeightOf(m, BaseRow([], o.inputs))
  }

  function OwnerWeight(m: Measure): Owner -> real {
    (o: Owner) => WeightOfOwner(m, o)
  }

  /** What the surviving owner rows add up to, each counted once. */
  ghost function OwnersTotal(owners: seq<Owner>, q: Query, m: Measure): real {
    SumSeq(Survivors(owners, Selected(owners, q)), OwnerWeight(m))
  }

  function WideWeight(m: Measure): Wide -> real {
    (w: Wide) => WeightOfOwner(m, w.owner)
  }

  /** The groups of the outer SELECT add up to what its input rows add. */
  lemma {:induction false} AggregatedTotal(q: Query, rows: seq<Wide>, n: nat, m: Measure)
    requires IsAdditive(m)
    ensures SumSeq(Aggregated(q, rows, n), GroupTotal(m)) == SumSeq(rows, WideWeight(m))
  {
    GroupsAddUp(Branch(true, Map(rows, AsBase(q))), n, m);
    forall w | w in rows
      ensures WideWeight(m)(w) == Weight(m)(AsBase(q)(w))
    {
      WeightByInputs(m, AsBase(q)(w), BaseRow([], w.owner.inputs));
    }
    SumMap(rows, AsBase(q), Weight(m), WideWeight(m));
  }

  /** The fan-out never inflates: over all output groups an additive measure adds up to the
      surviving owner rows, each once. */
  lemma {:induction false} DedupConserves(owners: seq<Owner>, q: Query, out: seq<Wide>, n: nat, m: Measure)
    requires UniqueGrain(owners) && IsDistinctOn(Selected(owners, q), out) && IsAdditive(m)
    ensures SumSeq(Aggregated(q, out, n), GroupTotal(m)) == OwnersTotal(owners, q, m)
  {
    AggregatedTotal(q, out, n, m);
    SumMap(out, OwnerOf(), OwnerWeight(m), WideWeight(m));
    DedupKeepsEachOwnerOnce(owners, q, out);
    SumSeqBag(Map(out, OwnerOf()), Survivors(owners, Selected(owners, q)), OwnerWeight(m));
  }

  // ---------------------------------------------------------------- the additive builder

  datatype Additivity = Additive | SemiAdditive(over: seq<string>) | NonAdditive

  datatype Declared = Declared(additivity: Additivity, compilable: bool)

  datatype Refusal = UnsupportedMeasure | FanoutUnsafe

  /** Why a measure may not be aggregated over these joins, if so. */
  function RefusalOf(d: Declared, fanout: bool, grouped: set<string>): Option<Refusal> {
    match d.additivity
    case Additive => if d.compilable then None else Some(UnsupportedMeasure)
    case NonAdditive => if fanout then Some(FanoutUnsafe) else None
    case SemiAdditive(over) =>
      if fanout then Some(FanoutUnsafe)
      else if exists x :: x in over && x !in grouped then Some(UnsupportedMeasure)
      else None
  }

  /** The first refusal, in measure order. What passes under a fan-out is additive throughout. */
  method EnforceSafetyFloor(resolved: seq<Declared>, fanout: bool, grouped: set<string>)
      returns (r: Option<(nat, Refusal)>)
    ensures r.None? ==> forall d :: d in resolved ==> RefusalOf(d, fanout, grouped).None?
    ensures r.None? && fanout ==> forall d :: d in resolved ==> d.additivity.Additive?
    ensures r.Some? ==> r.value.0 < |resolved| && RefusalOf(resolved[r.value.0], fanout, grouped) == Some(r.value.1)
    ensures r.Some? ==> forall k :: 0 <= k < r.value.0 ==> RefusalOf(resolved[k], fanout, grouped).None?
  {
    for i := 0 to |resolved|
      invariant forall k :: 0 <= k < i ==> RefusalOf(resolved[k], fanout, grouped).None?
    {
      var d := resolved[i];
      if d.additivity.Additive? {
        if !d.compilable {
          return Some((i, UnsupportedMeasure));
        }
      } else {
        if fanout {
          return Some((i, FanoutUnsafe));
        }
        if d.additivity.SemiAdditive? {
          var over := d.additivity.over;
          var unsafe := set x | x in over && x !in grouped;
          if unsafe != {} {
            ghost var x :| x in unsafe;
            return Some((i, UnsupportedMeasure));
          }
          assert forall x :: x in over && x !in grouped ==> x in unsafe;
        }
      }
    }
    return None;
  }

  predicate Fans(e: Edge) {
    e.relationship == Joins.OneToMany || e.relationship == Joins.ManyToMany
  }

  /** A join declared to-one finds at most one partner for any row. */
  ghost predicate Honest(edges: seq<Edge>) {
    forall e, w: Wide :: e in edges && !Fans(e) ==> |Partners(w, e)| <= 1
  }

  /** What the outer SELECT aggregates: deduplicated rows under a fan-out, else the joined rows. */
  ghost predicate Emits(owners: seq<Owner>, q: Query, rows: seq<Wide>) {
    if exists e :: e in q.edges && Fans(e) then IsDistinctOn(Selected(owners, q), rows)
    else rows == Selected(owners, q)
  }

  lemma {:induction false} ToOneJoinKeepsRows(rows: seq<Wide>, e: Edge)
    requires forall w :: |Partners(w, e)| <= 1
    ensures Map(LeftJoin(rows, e), OwnerOf()) == Map(rows, OwnerOf())
  {
    if rows != [] {
      var k := |rows| - 1;
      var f := (w: Wide) => Extend(w, e);
      ToOneJoinKeepsRows(rows[..k], e);
      assert Map(rows, f)[..k] == Map(rows[..k], f);
      assert LeftJoin(rows, e) == LeftJoin(rows[..k], e) + Extend(rows[k], e);
      assert rows == rows[..k] + [rows[k]];
      assert Map(Extend(rows[k], e), OwnerOf()) == [rows[k].owner];
      assert |LeftJoin(rows[..k], e)| == k;
    }
  }

  lemma {:induction false} ToOneJoinsKeepRows(rows: seq<Wide>, edges: seq<Edge>)
    requires Honest(edges) && forall e :: e in edges ==> !Fans(e)
    ensures Map(JoinAll(rows, edges), OwnerOf()) == Map(rows, OwnerOf())
    decreases |edges|
  {
    if edges != [] {
      assert edges[0] in edges;
      ToOneJoinKeepsRows(rows, edges[0]);
      ToOneJoinsKeepRows(LeftJoin(rows, edges[0]), edges[1..]);
    }
  }

  lemma {:induction false} FilterKeepsGrain(s: seq<Wide>, p: Wide -> bool)
    requires NoDup(Map(s, GrainOf()))
    ensures NoDup(Map(Filter(s, p), GrainOf()))
  {
    if s != [] {
      var rest := Filter(s[1..], p);
      assert Map(s[1..], GrainOf()) == Map(s, GrainOf())[1..];
      FilterKeepsGrain(s[1..], p);
      forall k | 0 <= k < |rest|
        ensures rest[k].owner.grain != s[0].owner.grain
      {
        assert rest[k] in s[1..];
        var i :| 1 <= i < |s| && s[i] == rest[k];
        assert Map(s, GrainOf())[i] != Map(s, GrainOf())[0];
      }
      if p(s[0]) {
        assert Map([s[0]] + rest, GrainOf()) == [s[0].owner.grain] + Map(rest, GrainOf());
      }
    }
  }

  lemma {:induction false} ToOneRowsAreDistinct(owners: seq<Owner>, q: Query)
    requires UniqueGrain(owners) && Honest(q.edges) && forall e :: e in q.edges ==> !Fans(e)
    ensures IsDistinctOn(Selected(owners, q), Selected(owners, q))
  {
    var bare := Map(owners, (o: Owner) => Wide(o, []));
    var from := JoinAll(bare, q.edges);
    ToOneJoinsKeepRows(bare, q.edges);
    assert |from| == |Map(from, OwnerOf())| == |owners|;
    forall i, j | 0 <= i < j < |from|
      ensures Map(from, GrainOf())[i] != Map(from, GrainOf())[j]
    {
      assert Map(from, OwnerOf())[i] == Map(bare, OwnerOf())[i] == owners[i];
      assert Map(from, OwnerOf())[j] == Map(bare, OwnerOf())[j] == owners[j];
    }
    FilterKeepsGrain(from, (w: Wide) => q.condition(w) == True);
    forall w | w in Selected(owners, q)
      ensures Kept(Selected(owners, q), w.owner.grain)
    {
    }
  }

  /** With or without a fan-out, the leaf's groups add up to the surviving owner rows, each once. */
  lemma {:induction false} AdditiveLeafConserves(owners: seq<Owner>, q: Query, rows: seq<Wide>, n: nat, m: Measure)
    requires UniqueGrain(owners) && Honest(q.edges) && IsAdditive(m) && Emits(owners, q, rows)
    ensures SumSeq(Aggregated(q, rows, n), GroupTotal(m)) == OwnersTotal(owners, q, m)
  {
    if forall e :: e in q.edges ==> !Fans(e) {
      ToOneRowsAreDistinct(owners, q);
    }
    DedupConserves(owners, q, rows, n, m);
  }

  // ---------------------------------------------------------------- constant dimensions

  /** The same groups with the same aggregates. */
  ghost predicate SameAnswer(a: seq<Group>, b: seq<Group>) {
    && (forall g :: g in a ==> Answers(g, b))
    && (forall g :: g in b ==> Answers(g, a))
  }

  ghost predicate Answers(g: Group, other: seq<Group>) {
    exists h :: h in other && h.dims == g.dims && forall m :: Aggregate(m, h.rows) == Aggregate(m, g.rows)
  }

  lemma {:induction false} GroupAnswered(a: Branch, b: Branch, n: nat, g: Group)
    requires multiset(a.rows) == multiset(b.rows) && g in GroupsOf(a, n)
    ensures Answers(g, GroupsOf(b, n))
  {
    if n == 0 {
      var h := GroupsOf(b, n)[0];
      forall m { AggregateBag(m, h.rows, g.rows); }
    } else {
      GroupsAreMade(a, n);
      GroupsAreMade(b, n);
      var keys := Distinct(Map(b.rows, DimsOf()));
      assert Elems(Map(a.rows, DimsOf())) == Elems(Map(b.rows, DimsOf())) by {
        MapBag(a.rows, b.rows, DimsOf());
        SameElems(Map(a.rows, DimsOf()), Map(b.rows, DimsOf()));
      }
      assert g.dims in Elems(Map(a.rows, DimsOf()));
      var k :| 0 <= k < |keys| && keys[k] == g.dims;
      var h := GroupsOf(b, n)[k];
      FilterBag(a.rows, b.rows, (r: BaseRow) => r.dims == g.dims);
      KeyedIs(a.rows, DimsOf(), g.dims, (r: BaseRow) => r.dims == g.dims);
      KeyedIs(b.rows, DimsOf(), g.dims, (r: BaseRow) => r.dims == g.dims);
      forall m { AggregateBag(m, h.rows, g.rows); }
    }
  }

  lemma {:induction false} SameElems<A>(a: seq<A>, b: seq<A>)
    requires multiset(a) == multiset(b)
    ensures Elems(a) == Elems(b)
  {
    assert forall x :: x in a <==> x in multiset(a);
    assert forall x :: x in b <==> x in multiset(b);
  }

  lemma {:induction false} GroupsOfBag(a: Branch, b: Branch, n: nat)
    requires multiset(a.rows) == multiset(b.rows)
    ensures SameAnswer(GroupsOf(a, n), GroupsOf(b, n))
  {
    forall g | g in GroupsOf(a, n) { GroupAnswered(a, b, n, g); }
    forall g | g in GroupsOf(b, n) { GroupAnswered(b, a, n, g); }
  }

  /** Dimensions that the owner row alone determines. */
  ghost predicate ConstantDims(rows: seq<Wide>, q: Query, dims: Owner -> Tuple) {
    forall w :: w in rows ==> q.dims(w) == dims(w.owner)
  }

  function Plain(dims: Owner -> Tuple): Owner -> BaseRow {
    (o: Owner) => BaseRow(dims(o), o.inputs)
  }

  /** Dimensions constant per owner row: every group is the aggregate of the surviving owner rows
      as if nothing had been joined, for additive and other aggregates alike. */
  lemma {:induction false} DedupIsTheUnjoinedAggregate(owners: seq<Owner>, q: Query, out: seq<Wide>, n: nat,
      dims: Owner -> Tuple)
    requires UniqueGrain(owners) && IsDistinctOn(Selected(owners, q), out)
    requires ConstantDims(Selected(owners, q), q, dims)
    ensures SameAnswer(Aggregated(q, out, n),
                       GroupsOf(Branch(true, Map(Survivors(owners, Selected(owners, q)), Plain(dims))), n))
  {
    var survivors := Survivors(owners, Selected(owners, q));
    DedupKeepsEachOwnerOnce(owners, q, out);
    MapBag(Map(out, OwnerOf()), survivors, Plain(dims));
    assert Map(out, AsBase(q)) == Map(Map(out, OwnerOf()), Plain(dims));
    GroupsOfBag(Branch(true, Map(out, AsBase(q))), Branch(true, Map(survivors, Plain(dims))), n);
  }

  /** A WHERE on owner columns keeps exactly the owner rows it holds for, whatever is joined. */
  lemma {:induction false} OwnerConditionSurvives(owners: seq<Owner>, q: Query, condition: Owner -> Truth, o: Owner)
    requires forall w :: q.condition(w) == condition(w.owner)
    ensures o in Survivors(owners, Selected(owners, q)) <==> o in owners && condition(o) == True
  {
    var from := JoinAll(Map(owners, (o: Owner) => Wide(o, [])), q.edges);
    FromKeepsOwners(owners, q.edges, o);
    if o in owners && condition(o) == True {
      var w :| w in from && w.owner == o;
      assert w in Selected(owners, q);
    }
  }

  // ---------------------------------------------------------------- without deduplication

  /** How many joined rows an owner row has. */
  function Multiplicity(rows: seq<Wide>, o: Owner): nat {
    |Keyed(rows, OwnerOf(), o)|
  }

  function Inflated(rows: seq<Wide>, m: Measure): Owner -> real {
    (o: Owner) => Times(Multiplicity(rows, o), WeightOfOwner(m, o))
  }

  lemma {:induction false} SumConstant<A>(s: seq<A>, f: A -> real, c: real)
    requires forall x :: x in s ==> f(x) == c
    ensures SumSeq(s, f) == Times(|s|, c)
  {
    if s != [] {
      SumConstant(s[1..], f, c);
    }
  }

  lemma {:induction false} OwnerShare(rows: seq<Wide>, o: Owner, m: Measure)
    ensures SumAt(rows, OwnerOf(), WideWeight(m))(o) == Inflated(rows, m)(o)
  {
    SumConstant(Keyed(rows, OwnerOf(), o), WideWeight(m), WeightOfOwner(m, o));
  }

  lemma {:induction false} SumByOwner(rows: seq<Wide>, owners: seq<Owner>, m: Measure)
    requires NoDup(owners) && forall w :: w in rows ==> w.owner in owners
    ensures SumSeq(rows, WideWeight(m)) == SumSeq(owners, Inflated(rows, m))
  {
    SumByKey(rows, OwnerOf(), owners, WideWeight(m));
    forall o | o in owners
      ensures SumAt(rows, OwnerOf(), WideWeight(m))(o) == Inflated(rows, m)(o)
    {
      OwnerShare(rows, o, m);
    }
    SumSeqCongruence(owners, SumAt(rows, OwnerOf(), WideWeight(m)), Inflated(rows, m));
  }

  /** Aggregating the joined rows directly counts every owner row once per joined row. */
  lemma {:induction false} NaiveSumInflates(owners: seq<Owner>, q: Query, n: nat, m: Measure)
    requires UniqueGrain(owners) && IsAdditive(m)
    ensures var rows := Selected(owners, q);
      SumSeq(Aggregated(q, rows, n), GroupTotal(m)) == SumSeq(Survivors(owners, rows), Inflated(rows, m))
  {
    var rows := Selected(owners, q);
    AggregatedTotal(q, rows, n, m);
    SurvivorsUnique(owners, rows);
    SelectedOwners(owners, q);
    SumByOwner(rows, Survivors(owners, rows), m);
  }

  lemma {:induction false} SurvivorsAppear(owners: seq<Owner>, rows: seq<Wide>)
    ensures forall o :: o in Survivors(owners, rows) ==> Multiplicity(rows, o) >= 1
  {
    forall o | o in Survivors(owners, rows)
      ensures Multiplicity(rows, o) >= 1
    {
      var w :| w in rows && w.owner == o;
      assert w in Keyed(rows, OwnerOf(), o);
    }
  }

  lemma {:induction false} DominatedSum<A>(s: seq<A>, f: A -> real, g: A -> real)
    requires forall x :: x in s ==> f(x) <= g(x)
    ensures SumSeq(s, f) <= SumSeq(s, g)
    ensures SumSeq(s, f) == SumSeq(s, g) <==> forall x :: x in s ==> f(x) == g(x)
  {
    if s != [] {
      DominatedSum(s[1..], f, g);
      assert s[0] in s && forall x :: x in s <==> x == s[0] || x in s[1..];
    }
  }

  lemma {:induction false} InflatedIff(owners: seq<Owner>, rows: seq<Wide>, m: Measure)
    requires forall o :: o in owners ==> WeightOfOwner(m, o) >= 0.0 && Multiplicity(rows, o) >= 1
    ensures SumSeq(owners, OwnerWeight(m)) <= SumSeq(owners, Inflated(rows, m))
    ensures SumSeq(owners, OwnerWeight(m)) == SumSeq(owners, Inflated(rows, m)) <==> NoneRepeats(owners, rows, m)
  {
    forall o | o in owners
      ensures WeightOfOwner(m, o) <= Inflated(rows, m)(o)
      ensures WeightOfOwner(m, o) == Inflated(rows, m)(o) <==> Multiplicity(rows, o) == 1 || WeightOfOwner(m, o) == 0.0
    {
      Scaled(Multiplicity(rows, o), WeightOfOwner(m, o));
    }
    DominatedSum(owners, OwnerWeight(m), Inflated(rows, m));
  }

  ghost predicate NoneRepeats(owners: seq<Owner>, rows: seq<Wide>, m: Measure) {
    forall o :: o in owners ==> Multiplicity(rows, o) == 1 || WeightOfOwner(m, o) == 0.0
  }

  /** For values of one sign, leaving the deduplication out is harmless exactly when no owner row
      with a value appears more than once. */
  lemma {:induction false} NaiveIsRightIff(owners: seq<Owner>, q: Query, n: nat, m: Measure)
    requires UniqueGrain(owners) && IsAdditive(m)
    requires forall o :: o in owners ==> WeightOfOwner(m, o) >= 0.0
    ensures var naive := SumSeq(Aggregated(q, Selected(owners, q), n), GroupTotal(m));
      && naive >= OwnersTotal(owners, q, m)
      && (naive == OwnersTotal(owners, q, m)
          <==> NoneRepeats(Survivors(owners, Selected(owners, q)), Selected(owners, q), m))
  {
    var rows := Selected(owners, q);
    NaiveSumInflates(owners, q, n, m);
    SurvivorsAppear(owners, rows);
    InflatedIff(Survivors(owners, rows), rows, m);
  }

  lemma {:induction false} Scaled(k: nat, x: real)
    requires k >= 1 && x >= 0.0
    ensures x <= Times(k, x) && (x == Times(k, x) <==> k == 1 || x == 0.0)
  {
    if k > 1 {
      Scaled(k - 1, x);
    }
  }

  // ---------------------------------------------------------------- the grain premise

  lemma {:induction false} ElemsCount<A>(s: seq<A>)
    ensures |Elems(s)| <= |s|
    ensures |Elems(s)| == |s| <==> NoDup(s)
  {
    if s == [] {
      assert Elems(s) == {};
    } else {
      var n := |s| - 1;
      ElemsCount(s[..n]);
      assert s == s[..n] + [s[n]];
      assert Elems(s) == Elems(s[..n]) + {s[n]};
      assert s[n] in s[..n] <==> s[n] in Elems(s[..n]);
      if s[n] in s[..n] {
        assert Elems(s) == Elems(s[..n]);
      }
    }
  }

  lemma {:induction false} SameGrains(rows: seq<Wide>, survivors: seq<Owner>, out: seq<Wide>)
    requires IsDistinctOn(rows, out)
    requires forall w :: w in rows ==> w.owner in survivors
    requires forall o :: o in survivors ==> Survives(o, rows)
    ensures Elems(Map(survivors, GrainOfOwner())) == Elems(Map(out, GrainOf()))
  {
    var grains := Map(survivors, GrainOfOwner());
    forall g | g in grains
      ensures g in Map(out, GrainOf())
    {
      var i :| 0 <= i < |survivors| && survivors[i].grain == g;
      assert Survives(survivors[i], rows);
      assert Kept(out, g);
      var k :| 0 <= k < |out| && out[k].owner.grain == g;
      assert Map(out, GrainOf())[k] == g;
    }
    forall g | g in Map(out, GrainOf())
      ensures g in grains
    {
      var k :| 0 <= k < |out| && out[k].owner.grain == g;
      assert out[k] in out;
      var i :| 0 <= i < |survivors| && survivors[i] == out[k].owner;
      assert grains[i] == g;
    }
  }

  function GrainOfOwner(): Owner -> Tuple {
    (o: Owner) => o.grain
  }

  /** DISTINCT ON keeps as many rows as there are surviving owner rows exactly when their grain
      tuples are distinct, NULL counting as a value; otherwise it loses some. */
  lemma {:induction false} DedupKeepsAllIffGrainUnique(owners: seq<Owner>, q: Query, out: seq<Wide>)
    requires IsDistinctOn(Selected(owners, q), out)
    ensures var survivors := Survivors(owners, Selected(owners, q));
      |out| <= |survivors| && (|out| == |survivors| <==> UniqueGrain(survivors))
  {
    var survivors := Survivors(owners, Selected(owners, q));
    SelectedOwners(owners, q);
    SameGrains(Selected(owners, q), survivors, out);
    ElemsCount(Map(survivors, GrainOfOwner()));
    ElemsCount(Map(out, GrainOf()));
    assert NoDup(Map(survivors, GrainOfOwner())) <==> UniqueGrain(survivors);
  }
}
