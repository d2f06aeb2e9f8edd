/** Strings in code point order, and sorted listings of them. */
module Texts {
  predicate TextBefore(a: string, b: string) {
    if b == "" then false
    else if a == "" then true
    else if a[0] == b[0] then TextBefore(a[1..], b[1..])
    else a[0] < b[0]
  }

  lemma {:induction false} TextTrichotomy(a: string, b: string)
    ensures a == b || TextBefore(a, b) || TextBefore(b, a)
    ensures !(TextBefore(a, b) && TextBefore(b, a)) && !TextBefore(a, a)
  {
    if a != "" && b != "" && a[0] == b[0] {
      TextTrichotomy(a[1..], b[1..]);
      assert a == [a[0]] + a[1..] && b == [b[0]] + b[1..];
    }
    TextIrreflexive(a);
  }

  lemma {:induction false} TextIrreflexive(a: string)
    ensures !TextBefore(a, a)
  {
    if a != "" {
      TextIrreflexive(a[1..]);
    }
  }

  lemma {:induction false} TextTransitive(a: string, b: string, c: string)
    ensures TextBefore(a, b) && TextBefore(b, c) ==> TextBefore(a, c)
  {
    if a != "" && b != "" && c != "" {
      TextTransitive(a[1..], b[1..], c[1..]);
    }
  }

  predicate TextLe(a: string, b: string) {
    a == b || TextBefore(a, b)
  }

  // ---------------------------------------------------------------- sorting

  function InsertText(s: seq<string>, x: string): seq<string> {
    if s == [] then [x]
    else if TextBefore(s[0], x) then [s[0]] + InsertText(s[1..], x)
    else [x] + s
  }

  /** `sorted(s)`, repetitions kept. */
  function SortTexts(s: seq<string>): seq<string> {
    if s == [] then [] else InsertText(SortTexts(s[..|s| - 1]), s[|s| - 1])
  }

  ghost predicate Ascending(s: seq<string>) {
    forall i, j :: 0 <= i < j < |s| ==> TextLe(s[i], s[j])
  }

  lemma {:induction false} InsertKeepsBag(s: seq<string>, x: string)
    ensures multiset(InsertText(s, x)) == multiset(s) + multiset{x}
  {
    if s != [] {
      assert s == [s[0]] + s[1..];
      if TextBefore(s[0], x) {
        InsertKeepsBag(s[1..], x);
      }
    }
  }

  lemma {:induction false} SortKeepsBag(s: seq<string>)
    ensures multiset(SortTexts(s)) == multiset(s)
  {
    if s != [] {
      var n := |s| - 1;
      SortKeepsBag(s[..n]);
      InsertKeepsBag(SortTexts(s[..n]), s[n]);
      assert s == s[..n] + [s[n]];
    }
  }

  lemma {:induction false} InsertAscends(s: seq<string>, x: string)
    requires Ascending(s)
    ensures Ascending(InsertText(s, x))
  {
    if s != [] {
      TextTrichotomy(s[0], x);
      if TextBefore(s[0], x) {
        InsertAscends(s[1..], x);
        InsertKeepsBag(s[1..], x);
        forall y | y in InsertText(s[1..], x)
          ensures TextLe(s[0], y)
        {
          assert y in multiset(InsertText(s[1..], x));
        }
      } else {
        forall y | y in s
          ensures TextLe(x, y)
        {
          TextTransitive(x, s[0], y);
        }
      }
    }
  }

  lemma {:induction false} SortAscends(s: seq<string>)
    ensures Ascending(SortTexts(s))
  {
    if s != [] {
      SortAscends(s[..|s| - 1]);
      InsertAscends(SortTexts(s[..|s| - 1]), s[|s| - 1]);
    }
  }

  lemma {:induction false} AscendingIsUnique(a: seq<string>, b: seq<string>)
    requires Ascending(a) && Ascending(b) && multiset(a) == multiset(b)
    ensures a == b
  {
    if a == [] || b == [] {
      EmptyBag(a);
      EmptyBag(b);
    } else {
      assert a[0] in multiset(b) && b[0] in multiset(a);
      TextTrichotomy(a[0], b[0]);
      assert a[0] == b[0];
      assert a == [a[0]] + a[1..] && b == [b[0]] + b[1..];
      assert multiset(a[1..]) == multiset(a) - multiset{a[0]};
      assert multiset(b[1..]) == multiset(b) - multiset{b[0]};
      AscendingIsUnique(a[1..], b[1..]);
    }
  }

  lemma {:induction false} EmptyBag(s: seq<string>)
    ensures s == [] <==> multiset(s) == multiset{}
  {
    if s != [] {
      assert s[0] in multiset(s);
    }
  }

  /** Sorting forgets exactly the order. */
  lemma {:induction false} SortsAlikeIff(a: seq<string>, b: seq<string>)
    ensures SortTexts(a) == SortTexts(b) <==> multiset(a) == multiset(b)
  {
    SortKeepsBag(a);
    SortKeepsBag(b);
    SortAscends(a);
    SortAscends(b);
    if multiset(a) == multiset(b) {
      AscendingIsUnique(SortTexts(a), SortTexts(b));
    }
  }
}
