/** Tenant lists in canonical order. */
module Tenants {
  import opened Relational
  import opened Texts

  datatype TenantValue = Number(n: int) | Text(s: string)

  // ---------------------------------------------------------------- order

  /** Numbers first, by value, then strings. */
  predicate Before(a: TenantValue, b: TenantValue) {
    match (a, b)
    case (Number(m), Number(n)) => m < n
    case (Number(_), Text(_)) => true
    case (Text(_), Number(_)) => false
    case (Text(s), Text(t)) => TextBefore(s, t)
  }

  lemma {:induction false} Trichotomy(a: TenantValue, b: TenantValue)
    ensures a == b || Before(a, b) || Before(b, a)
    ensures !(Before(a, b) && Before(b, a)) && !Before(a, a)
  {
    if a.Text? {
      TextIrreflexive(a.s);
      if b.Text? {
        TextTrichotomy(a.s, b.s);
      }
    }
  }

  lemma {:induction false} Transitive(a: TenantValue, b: TenantValue, c: TenantValue)
    ensures Before(a, b) && Before(b, c) ==> Before(a, c)
  {
    if a.Text? && b.Text? && c.Text? {
      TextTransitive(a.s, b.s, c.s);
    }
  }

  // ---------------------------------------------------------------- sorted listings

  ghost predicate Sorted(s: seq<TenantValue>) {
    forall i, j :: 0 <= i < j < |s| ==> Before(s[i], s[j])
  }

  /** `s` lists exactly the values of `values`, each once, in order. */
  ghost predicate Lists(s: seq<TenantValue>, values: set<TenantValue>) {
    Sorted(s) && Elems(s) == values
  }

  function Insert(s: seq<TenantValue>, x: TenantValue): seq<TenantValue> {
    if s == [] then [x]
    else if Before(s[0], x) then [s[0]] + Insert(s[1..], x)
    else [x] + s
  }

  lemma {:induction false} InsertElems(s: seq<TenantValue>, x: TenantValue)
    ensures forall y :: y in Insert(s, x) <==> y in s || y == x
  {
    if s != [] {
      InsertElems(s[1..], x);
      assert s == [s[0]] + s[1..];
    }
  }

  lemma {:induction false} InsertSorted(s: seq<TenantValue>, x: TenantValue)
    requires Sorted(s) && x !in s
    ensures Sorted(Insert(s, x))
  {
    if s != [] {
      Trichotomy(s[0], x);
      if Before(s[0], x) {
        InsertSorted(s[1..], x);
        InsertElems(s[1..], x);
        SortedCons(s[0], Insert(s[1..], x));
      } else {
        forall y | y in s
          ensures Before(x, y)
        {
          Transitive(x, s[0], y);
        }
        SortedCons(x, s);
      }
    }
  }

  lemma {:induction false} SortedCons(x: TenantValue, s: seq<TenantValue>)
    requires Sorted(s) && forall y :: y in s ==> Before(x, y)
    ensures Sorted([x] + s)
  {
  }

  lemma {:induction false} NoElems(s: seq<TenantValue>)
    ensures s == [] <==> Elems(s) == {}
  {
    if s != [] {
      assert s[0] in Elems(s);
    }
  }

  /** A set has only one sorted listing. */
  lemma {:induction false} ListingIsUnique(a: seq<TenantValue>, b: seq<TenantValue>)
    requires Sorted(a) && Sorted(b) && Elems(a) == Elems(b)
    ensures a == b
  {
    if a == [] || b == [] {
      NoElems(a);
      NoElems(b);
    } else {
      assert a[0] in Elems(b) && b[0] in Elems(a);
      Trichotomy(a[0], b[0]);
      assert a[0] == b[0];
      TailElems(a);
      TailElems(b);
      ListingIsUnique(a[1..], b[1..]);
      assert a == [a[0]] + a[1..] && b == [b[0]] + b[1..];
    }
  }

  lemma {:induction false} TailElems(a: seq<TenantValue>)
    requires Sorted(a) && a != []
    ensures Elems(a[1..]) == Elems(a) - {a[0]}
  {
    Trichotomy(a[0], a[0]);
    assert a == [a[0]] + a[1..];
    forall y | y in a[1..]
      ensures y != a[0]
    {
      var i :| 1 <= i < |a| && a[i] == y;
    }
  }

  /** `sorted(values, key=tenant_sort_key)`. */
  method SortedListing(values: set<TenantValue>) returns (s: seq<TenantValue>)
    ensures Lists(s, values)
  {
    s := [];
    var rest := values;
    while rest != {}
      invariant rest <= values && Lists(s, values - rest)
    {
      var x :| x in rest;
      InsertElems(s, x);
      assert x !in Elems(s);
      InsertSorted(s, x);
      assert Elems(Insert(s, x)) == Elems(s) + {x};
      assert values - (rest - {x}) == (values - rest) + {x};
      s := Insert(s, x);
      rest := rest - {x};
    }
  }

  // ---------------------------------------------------------------- normalising a claim

  /** One element of a tenant claim. `WholeFloat` is a float with no fraction. */
  datatype Claim =
    Nothing | Boolean(b: bool) | Integer(n: int) | WholeFloat(n: int) | Fraction | Str(s: string) | Nested

  datatype Failure = Unresolved | LimitExceeded | ScopeMissing

  datatype Result<+T> = Ok(value: T) | Err(failure: Failure)

  function Element(c: Claim, blank: string -> bool): Result<Option<TenantValue>> {
    match c
    case Nothing => Ok(None)
    case Integer(n) => Ok(Some(Number(n)))
    case WholeFloat(n) => Ok(Some(Number(n)))
    case Str(s) => Ok(if blank(s) then None else Some(Text(s)))
    case _ => Err(Unresolved)
  }

  /** What a claim list resolves to: its values in canonical order. */
  ghost predicate Normalized(raw: seq<Claim>, blank: string -> bool, limit: nat, r: Result<seq<TenantValue>>) {
    if exists c :: c in raw && Element(c, blank).Err? then r == Err(Unresolved)
    else if |Values(raw, blank)| > limit then r == Err(LimitExceeded)
    else r.Ok? && Lists(r.value, Values(raw, blank))
  }

  ghost function Values(raw: seq<Claim>, blank: string -> bool): set<TenantValue> {
    set c | c in raw && Element(c, blank).Ok? && Element(c, blank).value.Some? :: Element(c, blank).value.value
  }

  method NormalizeTenants(raw: seq<Claim>, blank: string -> bool, limit: nat) returns (r: Result<seq<TenantValue>>)
    ensures Normalized(raw, blank, limit, r)
  {
    var values: set<TenantValue> := {};
    for i := 0 to |raw|
      invariant forall k :: 0 <= k < i ==> Element(raw[k], blank).Ok?
      invariant values == Values(raw[..i], blank)
    {
      var e := Element(raw[i], blank);
      if e.Err? {
        assert raw[i] in raw;
        return Err(e.failure);
      }
      assert raw[..i + 1] == raw[..i] + [raw[i]];
      if e.value.Some? {
        values := values + {e.value.value};
      }
    }
    assert raw[..|raw|] == raw;
    if |values| > limit {
      return Err(LimitExceeded);
    }
    var s := SortedListing(values);
    return Ok(s);
  }

  /** Claim lists that are permutations or repetitions of each other normalise alike. */
  lemma {:induction false} OrderAndRepetitionDoNotMatter(a: seq<Claim>, b: seq<Claim>, blank: string -> bool,
      limit: nat, r: Result<seq<TenantValue>>, r': Result<seq<TenantValue>>)
    requires Elems(a) == Elems(b)
    requires Normalized(a, blank, limit, r) && Normalized(b, blank, limit, r')
    ensures r == r'
  {
    assert forall c :: c in a <==> c in Elems(a);
    assert forall c :: c in b <==> c in Elems(b);
    assert Values(a, blank) == Values(b, blank);
    if r.Ok? {
      ListingIsUnique(r.value, r'.value);
    }
  }

  function AsClaim(): TenantValue -> Claim {
    (v: TenantValue) => if v.Number? then Integer(v.n) else Str(v.s)
  }

  /** A normalised list normalises to itself. */
  lemma {:induction false} NormalizingTwice(raw: seq<Claim>, blank: string -> bool, limit: nat,
                                            r: Result<seq<TenantValue>>, again: Result<seq<TenantValue>>)
    requires Normalized(raw, blank, limit, r) && r.Ok?
    requires Normalized(Map(r.value, AsClaim()), blank, limit, again)
    ensures again == r
  {
    var claims := Map(r.value, AsClaim());
    forall v | v in r.value
      ensures Element(AsClaim()(v), blank) == Ok(Some(v)) && AsClaim()(v) in claims
    {
      assert v in Elems(r.value);
      var c :| c in raw && Element(c, blank) == Ok(Some(v));
      var i :| 0 <= i < |r.value| && r.value[i] == v;
      assert claims[i] == AsClaim()(v);
    }
    forall c | c in claims
      ensures Element(c, blank).Ok?
    {
      var i :| 0 <= i < |claims| && claims[i] == c;
      assert r.value[i] in r.value;
    }
    assert Values(claims, blank) == Elems(r.value);
    ListingIsUnique(again.value, r.value);
  }
}
