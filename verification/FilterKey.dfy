/** The normal form of a leaf's WHERE conditions that fusion compares. */
module FilterKey {
  import opened Relational

  datatype Cond =
    | Atom(text: string)
    | Not(body: Cond)
    | And(left: Cond, right: Cond)
    | Or(left: Cond, right: Cond)
    | Paren(body: Cond)
  {
    ghost function Size(): nat {
      match this
      case Atom(_) => 1
      case Not(b) => 1 + b.Size()
      case Paren(b) => 1 + b.Size()
      case And(l, r) => 1 + l.Size() + r.Size()
      case Or(l, r) => 1 + l.Size() + r.Size()
    }
  }

  /** What each atomic predicate evaluates to on one row. */
  type Row = string -> Truth

  function Holds(c: Cond, row: Row): Truth {
    match c
    case Atom(t) => row(t)
    case Not(b) => Not3(Holds(b, row))
    case Paren(b) => Holds(b, row)
    case And(l, r) => And3(Holds(l, row), Holds(r, row))
    case Or(l, r) => Or3(Holds(l, row), Holds(r, row))
  }

  /** The value of a WHERE that joins the conditions by AND. No condition lets every row pass. */
  function Where(conditions: seq<Cond>, row: Row): Truth {
    if conditions == [] then True else And3(Holds(conditions[0], row), Where(conditions[1..], row))
  }

  // ---------------------------------------------------------------- the code

  /** The predicates a condition joins by AND, without redundant parentheses. */
  function Conjuncts(c: Cond): seq<Cond> {
    match c
    case Paren(b) => if b.Or? then [c] else Conjuncts(b)
    case And(l, r) => Conjuncts(l) + Conjuncts(r)
    case Or(_, _) => [Paren(c)]
    case _ => [c]
  }

  function AllConjuncts(conditions: seq<Cond>): seq<Cond> {
    if conditions == [] then [] else Conjuncts(conditions[0]) + AllConjuncts(conditions[1..])
  }

  type Render = Cond -> string

  /** The conjuncts of every condition, each rendered text once, in first-seen order. */
  function Once(s: seq<Cond>, render: Render): seq<Cond> {
    if s == [] then []
    else
      var n := |s| - 1;
      var r := Once(s[..n], render);
      if render(s[n]) in Map(r, render) then r else r + [s[n]]
  }

  function NormalForm(conditions: seq<Cond>, render: Render): seq<Cond> {
    Once(AllConjuncts(conditions), render)
  }

  function Key(conditions: seq<Cond>, render: Render): seq<string> {
    Map(NormalForm(conditions, render), render)
  }

  /** The splitting loop of the code: strip parentheses, then split. */
  method Split(condition: Cond) returns (r: seq<Cond>)
    ensures r == Conjuncts(condition)
    decreases condition.Size()
  {
    var node := condition;
    while node.Paren? && !node.body.Or?
      invariant Conjuncts(node) == Conjuncts(condition) && node.Size() <= condition.Size()
      decreases node.Size()
    {
      node := node.body;
    }
    if node.And? {
      var left := Split(node.left);
      var right := Split(node.right);
      return left + right;
    }
    if node.Or? {
      return [Paren(node)];
    }
    return [node];
  }

  /** The key as `dict.fromkeys` collects it. */
  method FilterKeyOf(conditions: seq<Cond>, render: Render) returns (key: seq<string>)
    ensures key == Key(conditions, render)
  {
    key := [];
    ghost var seen: seq<Cond> := [];
    for i := 0 to |conditions|
      invariant seen == AllConjuncts(conditions[..i]) && key == Map(Once(seen, render), render)
    {
      var parts := Split(conditions[i]);
      key := Collect(parts, seen, key, render);
      seen := seen + parts;
      AllConjunctsSnoc(conditions, i);
    }
    assert conditions[..|conditions|] == conditions;
  }

  method Collect(parts: seq<Cond>, ghost seen: seq<Cond>, known: seq<string>, render: Render) returns (key: seq<string>)
    requires known == Map(Once(seen, render), render)
    ensures key == Map(Once(seen + parts, render), render)
  {
    key := known;
    assert seen + parts[..0] == seen;
    for k := 0 to |parts|
      invariant key == Map(Once(seen + parts[..k], render), render)
    {
      OnceStep(seen, parts, k, render);
      if render(parts[k]) !in key {
        key := key + [render(parts[k])];
      }
    }
    assert parts[..|parts|] == parts;
  }

  lemma {:induction false} OnceSnoc(s: seq<Cond>, x: Cond, render: Render)
    ensures var known := Map(Once(s, render), render);
      Map(Once(s + [x], render), render) == if render(x) in known then known else known + [render(x)]
  {
    assert (s + [x])[..|s|] == s;
  }

  lemma {:induction false} OnceStep(seen: seq<Cond>, parts: seq<Cond>, k: nat, render: Render)
    requires k < |parts|
    ensures var known := Map(Once(seen + parts[..k], render), render);
      Map(Once(seen + parts[..k + 1], render), render)
      == if render(parts[k]) in known then known else known + [render(parts[k])]
  {
    OnceSnoc(seen + parts[..k], parts[k], render);
    assert seen + parts[..k + 1] == seen + parts[..k] + [parts[k]];
  }

  // ---------------------------------------------------------------- meaning

  /** Two conditions rendered alike have one meaning. */
  ghost predicate Faithful(render: Render) {
    forall a, b, row: Row {:trigger render(a), render(b), Holds(a, row)} :: render(a) == render(b)
        ==> Holds(a, row) == Holds(b, row)
  }

  /** A conjunction is False as soon as one part is, and otherwise Unknown as soon as one part is. */
  lemma {:induction false} WhereMeans(s: seq<Cond>, row: Row)
    ensures Where(s, row) == False <==> exists c :: c in s && Holds(c, row) == False
    ensures Where(s, row) == True <==> forall c :: c in s ==> Holds(c, row) == True
  {
    if s != [] {
      WhereMeans(s[1..], row);
      assert s[0] in s && forall c :: c in s <==> c == s[0] || c in s[1..];
    }
  }

  /** The conjunction depends only on which texts occur. */
  lemma {:induction false} WhereByText(a: seq<Cond>, b: seq<Cond>, render: Render, row: Row)
    requires Faithful(render)
    requires Elems(Map(a, render)) == Elems(Map(b, render))
    ensures Where(a, row) == Where(b, row)
  {
    WhereMeans(a, row);
    WhereMeans(b, row);
    Matching(a, b, render, row);
    Matching(b, a, render, row);
  }

  lemma {:induction false} Matching(a: seq<Cond>, b: seq<Cond>, render: Render, row: Row)
    requires Faithful(render)
    requires Elems(Map(a, render)) == Elems(Map(b, render))
    ensures forall c :: c in a ==> exists d :: d in b && Holds(d, row) == Holds(c, row)
  {
    forall c | c in a
      ensures exists d :: d in b && Holds(d, row) == Holds(c, row)
    {
      var i :| 0 <= i < |a| && a[i] == c;
      assert Map(a, render)[i] in Elems(Map(a, render));
      var k :| 0 <= k < |b| && Map(b, render)[k] == render(c);
      assert render(b[k]) == render(c) && b[k] in b;
    }
  }

  lemma {:induction false} WhereAppend(a: seq<Cond>, b: seq<Cond>, row: Row)
    ensures Where(a + b, row) == And3(Where(a, row), Where(b, row))
  {
    if a == [] {
      assert a + b == b;
    } else {
      assert (a + b)[1..] == a[1..] + b;
      WhereAppend(a[1..], b, row);
    }
  }

  lemma {:induction false} AllConjunctsAppend(a: seq<Cond>, b: seq<Cond>)
    ensures AllConjuncts(a + b) == AllConjuncts(a) + AllConjuncts(b)
  {
    if a == [] {
      assert a + b == b;
    } else {
      assert (a + b)[1..] == a[1..] + b;
      AllConjunctsAppend(a[1..], b);
    }
  }

  lemma {:induction false} AllConjunctsSnoc(s: seq<Cond>, i: nat)
    requires i < |s|
    ensures AllConjuncts(s[..i + 1]) == AllConjuncts(s[..i]) + Conjuncts(s[i])
  {
    assert s[..i + 1] == s[..i] + [s[i]];
    AllConjunctsAppend(s[..i], [s[i]]);
    assert AllConjuncts([s[i]]) == Conjuncts(s[i]) + AllConjuncts([]);
  }

  lemma {:induction false} Single(c: Cond, row: Row)
    ensures Where([c], row) == Holds(c, row)
  {
    assert [c][1..] == [];
  }

  /** Splitting keeps the three-valued value of the condition. */
  lemma {:induction false} ConjunctsKeepMeaning(c: Cond, row: Row)
    ensures Where(Conjuncts(c), row) == Holds(c, row)
  {
    match c
    case Paren(b) =>
      if b.Or? { Single(c, row); } else { ConjunctsKeepMeaning(b, row); }
    case And(l, r) =>
      ConjunctsKeepMeaning(l, row);
      ConjunctsKeepMeaning(r, row);
      WhereAppend(Conjuncts(l), Conjuncts(r), row);
    case Or(_, _) => Single(Paren(c), row);
    case Not(_) => Single(c, row);
    case Atom(_) => Single(c, row);
  }

  lemma {:induction false} SplitKeepsMeaning(conditions: seq<Cond>, row: Row)
    ensures Where(AllConjuncts(conditions), row) == Where(conditions, row)
  {
    if conditions != [] {
      ConjunctsKeepMeaning(conditions[0], row);
      SplitKeepsMeaning(conditions[1..], row);
      WhereAppend(Conjuncts(conditions[0]), AllConjuncts(conditions[1..]), row);
    }
  }

  lemma {:induction false} ElemsAppend<A>(a: seq<A>, b: seq<A>)
    ensures Elems(a + b) == Elems(a) + Elems(b)
  {
  }

  lemma {:induction false} OnceKeepsTexts(s: seq<Cond>, render: Render)
    ensures Elems(Map(Once(s, render), render)) == Elems(Map(s, render))
    ensures NoDup(Map(Once(s, render), render))
    ensures forall c :: c in Once(s, render) ==> c in s
  {
    if s != [] {
      var n := |s| - 1;
      OnceKeepsTexts(s[..n], render);
      assert s == s[..n] + [s[n]];
      assert Map(s, render) == Map(s[..n], render) + [render(s[n])];
      var r := Once(s[..n], render);
      assert Map(r + [s[n]], render) == Map(r, render) + [render(s[n])];
      ElemsAppend(Map(s[..n], render), [render(s[n])]);
      ElemsAppend(Map(r, render), [render(s[n])]);
    }
  }

  /** The normal form has, on every row, the three-valued value of the conditions it came from. */
  lemma {:induction false} NormalFormKeepsMeaning(conditions: seq<Cond>, render: Render, row: Row)
    requires Faithful(render)
    ensures Where(NormalForm(conditions, render), row) == Where(conditions, row)
  {
    SplitKeepsMeaning(conditions, row);
    OnceKeepsTexts(AllConjuncts(conditions), render);
    WhereByText(NormalForm(conditions, render), AllConjuncts(conditions), render, row);
  }

  /** Leaves with equal filter keys select the same rows. */
  lemma {:induction false} EqualKeysSelectTheSameRows(a: seq<Cond>, b: seq<Cond>, render: Render, row: Row)
    requires Faithful(render) && Key(a, render) == Key(b, render)
    ensures Where(a, row) == Where(b, row)
  {
    NormalFormKeepsMeaning(a, render, row);
    NormalFormKeepsMeaning(b, render, row);
    WhereByText(NormalForm(a, render), NormalForm(b, render), render, row);
  }

  // ---------------------------------------------------------------- normality

  lemma {:induction false} ConjunctsAreAtomic(c: Cond)
    ensures forall d :: d in Conjuncts(c) ==> Conjuncts(d) == [d]
  {
    match c
    case Paren(b) => if !b.Or? { ConjunctsAreAtomic(b); }
    case And(l, r) =>
      ConjunctsAreAtomic(l);
      ConjunctsAreAtomic(r);
    case _ =>
  }

  lemma {:induction false} AllConjunctsAreAtomic(conditions: seq<Cond>)
    ensures forall d :: d in AllConjuncts(conditions) ==> Conjuncts(d) == [d]
  {
    if conditions != [] {
      ConjunctsAreAtomic(conditions[0]);
      AllConjunctsAreAtomic(conditions[1..]);
    }
  }

  lemma {:induction false} AtomicStay(s: seq<Cond>)
    requires forall d :: d in s ==> Conjuncts(d) == [d]
    ensures AllConjuncts(s) == s
  {
    if s != [] {
      AtomicStay(s[1..]);
    }
  }

  lemma {:induction false} OnceOfUnique(s: seq<Cond>, render: Render)
    requires NoDup(Map(s, render))
    ensures Once(s, render) == s
  {
    if s != [] {
      var n := |s| - 1;
      assert Map(s, render) == Map(s[..n], render) + [render(s[n])];
      OnceOfUnique(s[..n], render);
      assert s == s[..n] + [s[n]];
    }
  }

  /** Normalising twice changes nothing. */
  lemma {:induction false} NormalFormIsIdempotent(conditions: seq<Cond>, render: Render)
    ensures NormalForm(NormalForm(conditions, render), render) == NormalForm(conditions, render)
  {
    var s := AllConjuncts(conditions);
    AllConjunctsAreAtomic(conditions);
    OnceKeepsTexts(s, render);
    AtomicStay(Once(s, render));
    OnceOfUnique(Once(s, render), render);
  }

  // ---------------------------------------------------------------- what the key forgets

  lemma {:induction false} OnceSkipsKnown(s: seq<Cond>, more: seq<Cond>, render: Render)
    requires Elems(Map(more, render)) <= Elems(Map(s, render))
    ensures Once(s + more, render) == Once(s, render)
  {
    if more == [] {
      assert s + more == s;
    } else {
      var n := |more| - 1;
      var x := more[n];
      assert (s + more)[..|s + more| - 1] == s + more[..n];
      assert Map(more, render)[n] in Elems(Map(more, render));
      forall t | t in Elems(Map(more[..n], render))
        ensures t in Elems(Map(s, render))
      {
        var i :| 0 <= i < n && Map(more[..n], render)[i] == t;
        assert Map(more, render)[i] == t;
        assert t in Elems(Map(more, render));
      }
      OnceSkipsKnown(s, more[..n], render);
      OnceKeepsTexts(s, render);
      assert render(x) in Elems(Map(Once(s, render), render));
    }
  }

  /** A condition whose conjuncts were all there already does not change the key: a population
      filter equal to a guardrail predicate, with or without parentheses. */
  lemma {:induction false} RepeatsDoNotChangeTheKey(conditions: seq<Cond>, extra: Cond, render: Render)
    requires Elems(Map(Conjuncts(extra), render)) <= Elems(Map(AllConjuncts(conditions), render))
    ensures Key(conditions + [extra], render) == Key(conditions, render)
  {
    var all := conditions + [extra];
    assert all[..|conditions|] == conditions && all[..|all|] == all;
    AllConjunctsSnoc(all, |conditions|);
    OnceSkipsKnown(AllConjuncts(conditions), Conjuncts(extra), render);
  }

  /** Parentheses and the way ANDs are nested or listed do not change the key. */
  lemma {:induction false} ShapeDoesNotChangeTheKey(before: seq<Cond>, l: Cond, r: Cond, after: seq<Cond>,
      render: Render)
    ensures Key(before + [And(l, r)] + after, render) == Key(before + [l, r] + after, render)
    ensures Key(before + [Paren(l)] + after, render) == Key(before + [l] + after, render)
  {
    InContext(before, [And(l, r)], after);
    InContext(before, [l, r], after);
    InContext(before, [Paren(l)], after);
    InContext(before, [l], after);
    AllConjunctsAppend([l], [r]);
    assert [l] + [r] == [l, r];
    forall c: Cond
      ensures AllConjuncts([c]) == Conjuncts(c)
    {
      assert [c][1..] == [];
    }
  }

  lemma {:induction false} InContext(before: seq<Cond>, middle: seq<Cond>, after: seq<Cond>)
    ensures AllConjuncts(before + middle + after) == AllConjuncts(before) + AllConjuncts(middle) + AllConjuncts(after)
  {
    AllConjunctsAppend(before + middle, after);
    AllConjunctsAppend(before, middle);
  }

  // ---------------------------------------------------------------- atoms

  /** The atomic predicates of a condition. */
  function Atoms(c: Cond): set<string> {
    match c
    case Atom(t) => {t}
    case Not(b) => Atoms(b)
    case Paren(b) => Atoms(b)
    case And(l, r) => Atoms(l) + Atoms(r)
    case Or(l, r) => Atoms(l) + Atoms(r)
  }

  function AllAtoms(conditions: seq<Cond>): set<string> {
    if conditions == [] then {} else Atoms(conditions[0]) + AllAtoms(conditions[1..])
  }

  /** Conditions rendered alike name the same atoms. */
  ghost predicate NamesAtoms(render: Render) {
    forall a, b :: render(a) == render(b) ==> Atoms(a) == Atoms(b)
  }

  lemma {:induction false} AtomIn(conditions: seq<Cond>, atom: string)
    ensures atom in AllAtoms(conditions) <==> exists c :: c in conditions && atom in Atoms(c)
  {
    if conditions != [] {
      AtomIn(conditions[1..], atom);
      assert conditions[0] in conditions && forall c :: c in conditions <==> c == conditions[0] || c in conditions[1..];
    }
  }

  lemma {:induction false} AllAtomsAppend(a: seq<Cond>, b: seq<Cond>)
    ensures AllAtoms(a + b) == AllAtoms(a) + AllAtoms(b)
  {
    if a == [] {
      assert a + b == b;
    } else {
      assert (a + b)[1..] == a[1..] + b;
      AllAtomsAppend(a[1..], b);
    }
  }

  lemma {:induction false} ConjunctsKeepAtoms(c: Cond)
    ensures AllAtoms(Conjuncts(c)) == Atoms(c)
  {
    match c
    case Paren(b) =>
      if b.Or? { OneAtomList(c); } else { ConjunctsKeepAtoms(b); }
    case And(l, r) =>
      ConjunctsKeepAtoms(l);
      ConjunctsKeepAtoms(r);
      AllAtomsAppend(Conjuncts(l), Conjuncts(r));
    case Or(_, _) => OneAtomList(Paren(c));
    case Not(_) => OneAtomList(c);
    case Atom(_) => OneAtomList(c);
  }

  lemma {:induction false} OneAtomList(c: Cond)
    ensures AllAtoms([c]) == Atoms(c)
  {
    assert [c][1..] == [];
  }

  lemma {:induction false} SplitKeepsAtoms(conditions: seq<Cond>)
    ensures AllAtoms(AllConjuncts(conditions)) == AllAtoms(conditions)
  {
    if conditions != [] {
      ConjunctsKeepAtoms(conditions[0]);
      SplitKeepsAtoms(conditions[1..]);
      AllAtomsAppend(Conjuncts(conditions[0]), AllConjuncts(conditions[1..]));
    }
  }

  lemma {:induction false} AtomsByText(a: seq<Cond>, b: seq<Cond>, render: Render, atom: string)
    requires NamesAtoms(render) && Elems(Map(a, render)) <= Elems(Map(b, render))
    ensures atom in AllAtoms(a) ==> atom in AllAtoms(b)
  {
    AtomIn(a, atom);
    AtomIn(b, atom);
    if atom in AllAtoms(a) {
      var c :| c in a && atom in Atoms(c);
      var i :| 0 <= i < |a| && a[i] == c;
      assert Map(a, render)[i] in Elems(Map(a, render));
      var k :| 0 <= k < |b| && Map(b, render)[k] == render(c);
      assert b[k] in b;
    }
  }

  /** Equal filter keys name the same atoms. */
  lemma {:induction false} EqualKeysSameAtoms(a: seq<Cond>, b: seq<Cond>, render: Render)
    requires NamesAtoms(render) && Key(a, render) == Key(b, render)
    ensures AllAtoms(a) == AllAtoms(b)
  {
    SplitKeepsAtoms(a);
    SplitKeepsAtoms(b);
    OnceKeepsTexts(AllConjuncts(a), render);
    OnceKeepsTexts(AllConjuncts(b), render);
    forall atom
      ensures atom in AllAtoms(a) <==> atom in AllAtoms(b)
    {
      AtomsByText(AllConjuncts(a), AllConjuncts(b), render, atom);
      AtomsByText(AllConjuncts(b), AllConjuncts(a), render, atom);
    }
  }

  // ---------------------------------------------------------------- re-qualification

  /** Every atom replaced, as when column references move to another source. */
  function Requalified(c: Cond, f: string -> string): Cond {
    match c
    case Atom(t) => Atom(f(t))
    case Not(b) => Not(Requalified(b, f))
    case Paren(b) => Paren(Requalified(b, f))
    case And(l, r) => And(Requalified(l, f), Requalified(r, f))
    case Or(l, r) => Or(Requalified(l, f), Requalified(r, f))
  }

  function AllRequalified(conditions: seq<Cond>, f: string -> string): seq<Cond> {
    Map(conditions, (c: Cond) => Requalified(c, f))
  }

  /** What the re-qualified atoms evaluate to. */
  function Moved(row: Row, f: string -> string): Row {
    (t: string) => row(f(t))
  }

  lemma {:induction false} RequalifiedHolds(c: Cond, f: string -> string, row: Row)
    ensures Holds(Requalified(c, f), row) == Holds(c, Moved(row, f))
  {
    match c
    case Atom(_) =>
    case Not(b) => RequalifiedHolds(b, f, row);
    case Paren(b) => RequalifiedHolds(b, f, row);
    case And(l, r) =>
      RequalifiedHolds(l, f, row);
      RequalifiedHolds(r, f, row);
    case Or(l, r) =>
      RequalifiedHolds(l, f, row);
      RequalifiedHolds(r, f, row);
  }

  /** A re-qualified WHERE is the original one on the re-qualified row. */
  lemma {:induction false} RequalifiedWhere(conditions: seq<Cond>, f: string -> string, row: Row)
    ensures Where(AllRequalified(conditions, f), row) == Where(conditions, Moved(row, f))
  {
    if conditions != [] {
      assert AllRequalified(conditions, f)[1..] == AllRequalified(conditions[1..], f);
      RequalifiedHolds(conditions[0], f, row);
      RequalifiedWhere(conditions[1..], f, row);
    }
  }
}
