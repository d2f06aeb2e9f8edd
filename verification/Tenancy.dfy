/** Tenant predicates: which ones a leaf gets, and what they let through. */
module Tenancy {
  import opened Relational
  import opened Tenants

  datatype ColumnType = Numeric | Textual | OtherType

  /** How the host language reads an integer from text and writes one. */
  datatype Codec = Codec(parse: string -> Option<int>, text: int -> string)

  /** A tenant value as the column's type, if it has one there. */
  function Match(v: TenantValue, t: ColumnType, codec: Codec): Option<TenantValue> {
    match (t, v)
    case (Numeric, Text(s)) => if codec.parse(s).None? then None else Some(Number(codec.parse(s).value))
    case (Textual, Number(n)) => Some(Text(codec.text(n)))
    case _ => Some(v)
  }

  ghost function Matched(tenants: seq<TenantValue>, t: ColumnType, codec: Codec): set<TenantValue> {
    set v | v in tenants && Match(v, t, codec).Some? :: Match(v, t, codec).value
  }

  ghost predicate AllMatch(tenants: seq<TenantValue>, t: ColumnType, codec: Codec) {
    forall v :: v in tenants ==> Match(v, t, codec).Some?
  }

  /** The matched tenants in canonical order, or a refusal when one cannot be matched. */
  method TenantLiterals(tenants: seq<TenantValue>, t: ColumnType, codec: Codec) returns (r: Result<seq<TenantValue>>)
    ensures r == Err(Unresolved) || r.Ok?
    ensures r.Ok? <==> AllMatch(tenants, t, codec)
    ensures r.Ok? ==> Lists(r.value, Matched(tenants, t, codec))
  {
    var matched: set<TenantValue> := {};
    for i := 0 to |tenants|
      invariant AllMatch(tenants[..i], t, codec) && matched == Matched(tenants[..i], t, codec)
    {
      assert tenants[..i + 1] == tenants[..i] + [tenants[i]];
      var v := Match(tenants[i], t, codec);
      if v.None? {
        assert tenants[i] in tenants;
        return Err(Unresolved);
      }
      matched := matched + {v.value};
    }
    assert tenants[..|tenants|] == tenants;
    var s := SortedListing(matched);
    return Ok(s);
  }

  /** A number and its text become one literal on a typed column. */
  lemma {:induction false} NumberAndTextCollapse(n: int, t: ColumnType, codec: Codec)
    requires codec.parse(codec.text(n)) == Some(n)
    ensures t != OtherType <==> Match(Number(n), t, codec) == Match(Text(codec.text(n)), t, codec)
  {
  }

  // ---------------------------------------------------------------- predicates

  /** The value of a column of a joined alias, NULL included. */
  type Row = (string, string) -> Option<TenantValue>

  datatype Condition = Condition(alias: string, column: string, values: seq<TenantValue>)

  function Equals(a: Option<TenantValue>, b: TenantValue): Truth {
    if a.None? then Unknown else Bool3(a.value == b)
  }

  function InList(a: Option<TenantValue>, values: seq<TenantValue>): Truth {
    if values == [] then False else Or3(Equals(a, values[0]), InList(a, values[1..]))
  }

  /** `alias.column = v` for one value, `alias.column IN (...)` for several. */
  function Holds(c: Condition, row: Row): Truth {
    if |c.values| == 1 then Equals(row(c.alias, c.column), c.values[0])
    else InList(row(c.alias, c.column), c.values)
  }

  lemma {:induction false} InListMeans(a: Option<TenantValue>, values: seq<TenantValue>)
    ensures InList(a, values) == True <==> a.Some? && a.value in values
  {
    if values != [] {
      InListMeans(a, values[1..]);
      assert values == [values[0]] + values[1..];
    }
  }

  ghost predicate Allowed(c: Condition, row: Row) {
    row(c.alias, c.column).Some? && row(c.alias, c.column).value in c.values
  }

  lemma {:induction false} HoldsMeans(c: Condition, row: Row)
    ensures Holds(c, row) == True <==> Allowed(c, row)
  {
    InListMeans(row(c.alias, c.column), c.values);
  }

  // ---------------------------------------------------------------- scoping a leaf

  datatype Resolution = Scoped(column: string, columnType: ColumnType) | Shared | Undeclared

  /** The tenancy policy as it applies to the principal of a query. */
  datatype Policy = Policy(
    resolve: string -> Resolution, sourceOf: map<string, string>,
    tenants: seq<TenantValue>, exempt: bool, warnUndeclared: bool, codec: Codec)

  function Source(p: Policy, alias: string): string {
    if alias in p.sourceOf then p.sourceOf[alias] else alias
  }

  datatype Scoping = Scoping(conditions: seq<Condition>, scoped: set<string>, shared: set<string>, warned: seq<string>)

  /** Why an alias refuses the query, if it does. */
  ghost function Fault(p: Policy, alias: string): Option<Failure> {
    match p.resolve(Source(p, alias))
    case Scoped(_, t) => if AllMatch(p.tenants, t, p.codec) then None else Some(Unresolved)
    case Shared => None
    case Undeclared => if p.warnUndeclared then None else Some(ScopeMissing)
  }

  ghost predicate NeedsScope(p: Policy, alias: string) {
    p.resolve(Source(p, alias)).Scoped? && p.tenants != []
  }

  /** `c` is the tenant predicate the alias needs. */
  ghost predicate IsScopeOf(p: Policy, alias: string, c: Condition) {
    && NeedsScope(p, alias) && c.alias == alias && c.column == p.resolve(Source(p, alias)).column
    && Lists(c.values, Matched(p.tenants, p.resolve(Source(p, alias)).columnType, p.codec))
  }

  ghost predicate HasScope(p: Policy, alias: string, conditions: seq<Condition>) {
    exists c :: c in conditions && IsScopeOf(p, alias, c)
  }

  /** Every joined alias that needs a predicate has it, and there are no others. */
  ghost predicate Scopes(p: Policy, aliases: seq<string>, s: Scoping) {
    && (forall a {:trigger NeedsScope(p, a)} :: a in aliases && NeedsScope(p, a) ==> HasScope(p, a, s.conditions))
    && (forall c :: c in s.conditions ==> c.alias in aliases && IsScopeOf(p, c.alias, c))
    && s.scoped == (set a | a in aliases && NeedsScope(p, a) :: Source(p, a))
    && s.shared == (set a | a in aliases && p.resolve(Source(p, a)).Shared? :: Source(p, a))
    && Elems(s.warned) == (set a | a in aliases && p.resolve(Source(p, a)).Undeclared? :: Source(p, a))
  }

  lemma {:induction false} ScopesKeeps(p: Policy, aliases: seq<string>, s: Scoping, alias: string)
    requires Scopes(p, aliases, s) && !NeedsScope(p, alias)
    ensures Scopes(p, aliases + [alias],
      match p.resolve(Source(p, alias))
      case Shared => s.(shared := s.shared + {Source(p, alias)})
      case Undeclared => s.(warned := s.warned + [Source(p, alias)])
      case _ => s)
  {
    assert Elems(s.warned + [Source(p, alias)]) == Elems(s.warned) + {Source(p, alias)};
  }

  lemma {:induction false} ScopesAdds(p: Policy, aliases: seq<string>, s: Scoping, alias: string, c: Condition)
    requires Scopes(p, aliases, s) && IsScopeOf(p, alias, c)
    ensures Scopes(p, aliases + [alias], s.(conditions := s.conditions + [c], scoped := s.scoped + {Source(p, alias)}))
  {
    var s' := s.(conditions := s.conditions + [c], scoped := s.scoped + {Source(p, alias)});
    forall a | a in aliases + [alias] && NeedsScope(p, a)
      ensures HasScope(p, a, s'.conditions)
    {
      if a == alias {
        assert c in s'.conditions;
      } else {
        var d :| d in s.conditions && IsScopeOf(p, a, d);
        assert d in s'.conditions;
      }
    }
  }

  ghost predicate FirstFault(p: Policy, aliases: seq<string>, failure: Failure) {
    exists i :: 0 <= i < |aliases| && Fault(p, aliases[i]) == Some(failure)
      && forall k :: 0 <= k < i ==> Fault(p, aliases[k]).None?
  }

  /** The tenant predicates of a leaf, alias by alias, or the first alias's refusal. */
  method TenantConditions(p: Policy, owner: string, joined: seq<string>) returns (r: Result<Scoping>)
    ensures p.exempt ==> r == Ok(Scoping([], {}, {}, []))
    ensures !p.exempt && r.Ok? ==> Scopes(p, [owner] + joined, r.value)
    ensures !p.exempt && r.Ok? ==> forall a :: a in [owner] + joined ==> Fault(p, a).None?
    ensures !p.exempt && r.Err? ==> FirstFault(p, [owner] + joined, r.failure)
  {
    var s := Scoping([], {}, {}, []);
    if p.exempt {
      return Ok(s);
    }
    var aliases := [owner] + joined;
    for i := 0 to |aliases|
      invariant Scopes(p, aliases[..i], s)
      invariant forall k :: 0 <= k < i ==> Fault(p, aliases[k]).None?
    {
      var alias := aliases[i];
      assert aliases[..i + 1] == aliases[..i] + [alias] && alias in aliases;
      match p.resolve(Source(p, alias))
      case Scoped(column, t) =>
        if p.tenants == [] {
          ScopesKeeps(p, aliases[..i], s, alias);
          continue;
        }
        var values := TenantLiterals(p.tenants, t, p.codec);
        if values.Err? {
          return Err(Unresolved);
        }
        ScopesAdds(p, aliases[..i], s, alias, Condition(alias, column, values.value));
        s := s.(conditions := s.conditions + [Condition(alias, column, values.value)],
                scoped := s.scoped + {Source(p, alias)});
      case Shared =>
        ScopesKeeps(p, aliases[..i], s, alias);
        s := s.(shared := s.shared + {Source(p, alias)});
      case Undeclared =>
        if !p.warnUndeclared {
          return Err(ScopeMissing);
        }
        ScopesKeeps(p, aliases[..i], s, alias);
        s := s.(warned := s.warned + [Source(p, alias)]);
    }
    assert aliases[..|aliases|] == aliases;
    return Ok(s);
  }

  // ---------------------------------------------------------------- narrowing

  /** Any other condition of the leaf's WHERE: a query filter, a population filter, a guardrail. */
  type Test = Row -> Truth

  function WhereScoped(conditions: seq<Condition>, row: Row): Truth {
    if conditions == [] then True else And3(Holds(conditions[0], row), WhereScoped(conditions[1..], row))
  }

  function WhereTests(tests: seq<Test>, row: Row): Truth {
    if tests == [] then True else And3(tests[0](row), WhereTests(tests[1..], row))
  }

  /** The leaf's WHERE: tenancy, then the caller's filters, populations and guardrails. */
  function LeafWhere(s: Scoping, filters: seq<Test>, populations: seq<Test>, guardrails: seq<Test>, row: Row): Truth {
    And3(WhereScoped(s.conditions, row), WhereTests(filters + populations + guardrails, row))
  }

  /** The row carries an allowed tenant in every joined alias that needs one. */
  ghost predicate Permitted(p: Policy, aliases: seq<string>, row: Row) {
    forall a {:trigger NeedsScope(p, a)} :: a in aliases && NeedsScope(p, a) ==> PermittedIn(p, a, row)
  }

  ghost predicate PermittedIn(p: Policy, alias: string, row: Row)
    requires NeedsScope(p, alias)
  {
    var scope := p.resolve(Source(p, alias));
    var v := row(alias, scope.column);
    v.Some? && v.value in Matched(p.tenants, scope.columnType, p.codec)
  }

  lemma {:induction false} WhereScopedMeans(conditions: seq<Condition>, row: Row)
    ensures WhereScoped(conditions, row) == True <==> forall c :: c in conditions ==> Allowed(c, row)
  {
    if conditions != [] {
      HoldsMeans(conditions[0], row);
      WhereScopedMeans(conditions[1..], row);
      assert conditions[0] in conditions && forall c :: c in conditions <==> c == conditions[0] || c in conditions[1..];
    }
  }

  lemma {:induction false} WhereTestsAppend(a: seq<Test>, b: seq<Test>, row: Row)
    ensures WhereTests(a + b, row) == And3(WhereTests(a, row), WhereTests(b, row))
  {
    if a == [] {
      assert a + b == b;
    } else {
      assert (a + b)[1..] == a[1..] + b;
      WhereTestsAppend(a[1..], b, row);
    }
  }

  lemma {:induction false} ScopesPermit(p: Policy, aliases: seq<string>, s: Scoping, row: Row)
    requires Scopes(p, aliases, s)
    ensures Permitted(p, aliases, row) <==> forall c :: c in s.conditions ==> Allowed(c, row)
  {
    forall c | c in s.conditions
      ensures Allowed(c, row) <==> PermittedIn(p, c.alias, row)
    {
      assert row(c.alias, c.column).Some? ==>
        (row(c.alias, c.column).value in c.values <==> row(c.alias, c.column).value in Elems(c.values));
    }
    if forall c :: c in s.conditions ==> Allowed(c, row) {
      forall a | a in aliases && NeedsScope(p, a)
        ensures PermittedIn(p, a, row)
      {
        assert HasScope(p, a, s.conditions);
        var c :| c in s.conditions && IsScopeOf(p, a, c);
      }
    }
  }

  /** Exactly the permitted rows that pass the other conditions are read. */
  lemma {:induction false} ScopedLeafReads(p: Policy, aliases: seq<string>, s: Scoping,
                                           filters: seq<Test>, populations: seq<Test>, guardrails: seq<Test>, row: Row)
    requires Scopes(p, aliases, s)
    ensures LeafWhere(s, filters, populations, guardrails, row) == True <==>
      && Permitted(p, aliases, row) && WhereTests(filters, row) == True
      && WhereTests(populations, row) == True && WhereTests(guardrails, row) == True
  {
    ScopesPermit(p, aliases, s, row);
    WhereScopedMeans(s.conditions, row);
    WhereTestsAppend(filters + populations, guardrails, row);
    WhereTestsAppend(filters, populations, row);
  }

  /** The caller's filters only narrow. Without them the leaf joins fewer aliases and is scoped on those
      it still joins; what is read with the filters is permitted, and is read without them. */
  lemma {:induction false} FiltersOnlyNarrow(p: Policy, aliases: seq<string>, s: Scoping, fewer: seq<string>,
      s': Scoping, filters: seq<Test>, populations: seq<Test>, guardrails: seq<Test>, row: Row)
    requires Scopes(p, aliases, s) && Scopes(p, fewer, s') && forall a :: a in fewer ==> a in aliases
    requires LeafWhere(s, filters, populations, guardrails, row) == True
    ensures Permitted(p, aliases, row)
    ensures LeafWhere(s', [], populations, guardrails, row) == True
    ensures LeafWhere(s', [], [], [], row) == True
  {
    ScopedLeafReads(p, aliases, s, filters, populations, guardrails, row);
    ScopedLeafReads(p, fewer, s', [], populations, guardrails, row);
    ScopedLeafReads(p, fewer, s', [], [], [], row);
  }

  /** Some joined alias is scoped. */
  ghost predicate AnyScoped(p: Policy, aliases: seq<string>) {
    exists a :: a in aliases && p.resolve(Source(p, a)).Scoped?
  }

  /** Fewer tenants read less, except that a query without tenants is served unscoped: for all rows what the
      fewer tenants may read the others may read too, if and only if there are tenants, or there are none
      on the other side either, or no alias is scoped. */
  lemma {:induction false} FewerTenantsReadLessIff(p: Policy, q: Policy, aliases: seq<string>)
    requires q == p.(tenants := q.tenants) && Elems(p.tenants) <= Elems(q.tenants)
    ensures (forall row :: Permitted(p, aliases, row) ==> Permitted(q, aliases, row)) <==>
      p.tenants != [] || q.tenants == [] || !AnyScoped(p, aliases)
  {
    if p.tenants != [] || q.tenants == [] || !AnyScoped(p, aliases) {
      forall row | Permitted(p, aliases, row)
        ensures Permitted(q, aliases, row)
      {
        TenantsReadLess(p, q, aliases, row);
      }
    } else {
      NoTenantReadsMore(p, q, aliases);
    }
  }

  /** A row without any value. */
  function Nulls(): Row {
    (alias: string, column: string) => None
  }

  /** Without a tenant the row of NULLs is read; with one it is not. */
  lemma {:induction false} NoTenantReadsMore(p: Policy, q: Policy, aliases: seq<string>)
    requires q == p.(tenants := q.tenants) && p.tenants == [] && q.tenants != [] && AnyScoped(p, aliases)
    ensures Permitted(p, aliases, Nulls()) && !Permitted(q, aliases, Nulls())
  {
    var a :| a in aliases && p.resolve(Source(p, a)).Scoped?;
    assert NeedsScope(q, a) && !PermittedIn(q, a, Nulls());
    assert forall a :: !NeedsScope(p, a);
  }

  lemma {:induction false} TenantsReadLess(p: Policy, q: Policy, aliases: seq<string>, row: Row)
    requires q == p.(tenants := q.tenants) && Elems(p.tenants) <= Elems(q.tenants)
    requires p.tenants != [] || q.tenants == [] || !AnyScoped(p, aliases)
    requires Permitted(p, aliases, row)
    ensures Permitted(q, aliases, row)
  {
    forall a | a in aliases && NeedsScope(q, a)
      ensures PermittedIn(q, a, row)
    {
      assert AnyScoped(p, aliases);
      assert NeedsScope(p, a) && PermittedIn(p, a, row);
      assert forall v :: v in p.tenants ==> v in Elems(q.tenants);
    }
  }

  /** Joining more aliases never permits more. */
  lemma {:induction false} MoreJoinsReadLess(p: Policy, aliases: seq<string>, more: seq<string>, row: Row)
    requires Permitted(p, aliases + more, row)
    ensures Permitted(p, aliases, row) && Permitted(p, more, row)
  {
    forall a | (a in aliases || a in more) && NeedsScope(p, a)
      ensures PermittedIn(p, a, row)
    {
      assert a in aliases + more;
    }
  }
}
