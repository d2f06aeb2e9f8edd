/** The finality part of a leaf key, and which rules it cannot tell apart. */
module FinalityKeys {
  import opened Relational
  import opened Plans
  import opened Bags
  import opened Texts
  import opened Watermarks
  import opened Finality
  import opened FinalityUnion

  // ---------------------------------------------------------------- the key

  function SourcesOf(rule: Rule): seq<string> {
    Map(rule.realizations, (x: Realization) => x.source)
  }

  /** The watermark as text, the sorted sources, and the result flag. Roles do not appear. */
  function FinalityKey(rule: Rule, watermark: string, flag: string): seq<string> {
    [watermark] + SortTexts(SourcesOf(rule)) + [flag]
  }

  lemma {:induction false} EqualKeysEqualSources(a: Rule, b: Rule, w: string, w': string, flag: string, flag': string)
    ensures FinalityKey(a, w, flag) == FinalityKey(b, w', flag') <==>
      w == w' && flag == flag' && multiset(SourcesOf(a)) == multiset(SourcesOf(b))
  {
    var ka, kb := FinalityKey(a, w, flag), FinalityKey(b, w', flag');
    SortsAlikeIff(SourcesOf(a), SourcesOf(b));
    if ka == kb {
      assert ka[0] == w && kb[0] == w';
      assert ka[|ka| - 1] == flag && kb[|kb| - 1] == flag';
      assert ka[1..|ka| - 1] == SortTexts(SourcesOf(a)) && kb[1..|kb| - 1] == SortTexts(SourcesOf(b));
    }
  }

  // ---------------------------------------------------------------- the rows

  /** The branches of the rule's union, in declaration order. */
  function RuleUnion(rule: Rule, data: Data, watermark: int, pick: Pick): seq<Branch> {
    Map(Roles(rule), RoleBranch(data, watermark, pick))
  }

  /** Each realization's source and role, which is all a branch depends on. */
  function Roles(rule: Rule): seq<(string, string)> {
    Map(rule.realizations, (x: Realization) => (x.source, x.role))
  }

  function LoadedAt(data: Data, source: string): Loaded {
    if source in data then data[source] else Loaded(map[], {}, false, [])
  }

  function RoleBranch(data: Data, watermark: int, pick: Pick): ((string, string)) -> Branch {
    (x: (string, string)) => BranchOf(x.1, LoadedAt(data, x.0), watermark, pick)
  }

  /** This is what the building loop returns. */
  lemma {:induction false} RuleUnionIsBuilt(rule: Rule, data: Data, watermark: int, pick: Pick, branches: seq<Branch>)
    requires AllBuilt(branches, rule.realizations, data, watermark, pick)
    ensures branches == RuleUnion(rule, data, watermark, pick)
  {
    forall i | 0 <= i < |branches|
      ensures branches[i] == RuleUnion(rule, data, watermark, pick)[i]
    {
      assert Built(branches[i], rule.realizations[i], data, watermark, pick);
    }
  }

  /** The union returns row `r` under the marker. */
  ghost predicate Returns(branches: seq<Branch>, isFinal: bool, r: BaseRow) {
    exists b :: b in branches && b.isFinal == isFinal && r in b.rows
  }

  /** On every data set the two rules return the same rows under the same markers. */
  ghost predicate SameRowsAlways(a: Rule, b: Rule, watermark: int, pick: Pick) {
    forall data, isFinal, r ::
      Returns(RuleUnion(a, data, watermark, pick), isFinal, r)
      <==> Returns(RuleUnion(b, data, watermark, pick), isFinal, r)
  }

  /** A valid rule, its final realization at `f`. */
  ghost predicate Valid(rule: Rule, f: nat) {
    && f < |rule.realizations| && rule.realizations[f].role == "final"
    && forall i :: 0 <= i < |rule.realizations| && i != f ==> rule.realizations[i].role == "provisional"
  }

  function AsProvisional(): string -> (string, string) {
    (source: string) => (source, "provisional")
  }

  /** Which pairs of source and role occur follows from the sources and the final one among them. */
  lemma {:induction false} RolesFromSources(rule: Rule, f: nat)
    requires Valid(rule, f)
    ensures multiset(Roles(rule))
         == multiset(Map(Without(SourcesOf(rule), f), AsProvisional()))
             + multiset{(rule.realizations[f].source, "final")}
    ensures multiset(SourcesOf(rule)) == multiset(Without(SourcesOf(rule), f)) + multiset{rule.realizations[f].source}
  {
    var others, sources := Without(rule.realizations, f), SourcesOf(rule);
    MapDrop(rule.realizations, f, (x: Realization) => (x.source, x.role));
    MapDrop(rule.realizations, f, (x: Realization) => x.source);
    var roles := Map(others, (x: Realization) => (x.source, x.role));
    assert Without(sources, f) == Map(others, (x: Realization) => x.source);
    forall i | 0 <= i < |others|
      ensures roles[i] == Map(Without(sources, f), AsProvisional())[i]
    {
      assert others[i] == rule.realizations[if i < f then i else i + 1];
    }
    assert roles == Map(Without(sources, f), AsProvisional());
  }

  /** Equal keys and the same final source mean the same branches, up to their order. */
  lemma {:induction false} SameFinalSameBranches(a: Rule, fa: nat, b: Rule, fb: nat, data: Data, watermark: int,
      pick: Pick)
    requires Valid(a, fa) && Valid(b, fb) && multiset(SourcesOf(a)) == multiset(SourcesOf(b))
    requires a.realizations[fa].source == b.realizations[fb].source
    ensures multiset(RuleUnion(a, data, watermark, pick)) == multiset(RuleUnion(b, data, watermark, pick))
  {
    var source := a.realizations[fa].source;
    RolesFromSources(a, fa);
    RolesFromSources(b, fb);
    var ra, rb := Without(SourcesOf(a), fa), Without(SourcesOf(b), fb);
    assert multiset(ra) == multiset(SourcesOf(a)) - multiset{source};
    assert multiset(rb) == multiset(SourcesOf(b)) - multiset{source};
    MapBag(ra, rb, AsProvisional());
    MapBag(Roles(a), Roles(b), RoleBranch(data, watermark, pick));
  }

  lemma {:induction false} SameBranchesReturn(a: seq<Branch>, b: seq<Branch>, isFinal: bool, r: BaseRow)
    requires multiset(a) == multiset(b)
    ensures Returns(a, isFinal, r) ==> Returns(b, isFinal, r)
  {
    if Returns(a, isFinal, r) {
      var x :| x in a && x.isFinal == isFinal && r in x.rows;
      assert x in multiset(a);
      assert x in b;
    }
  }

  const WITNESS := BaseRow([D(1)], [Num(5.0)])

  /** One row, at the watermark, in one source. */
  function OnlyIn(source: string, watermark: int): Data {
    map[source := Loaded(map[], {}, false, [Stored(Some(watermark), [], WITNESS)])]
  }

  lemma {:induction false} OwnFinalReturns(rule: Rule, f: nat, watermark: int, pick: Pick)
    requires Valid(rule, f)
    ensures Returns(RuleUnion(rule, OnlyIn(rule.realizations[f].source, watermark), watermark, pick), true, WITNESS)
  {
    var source := rule.realizations[f].source;
    var data := OnlyIn(source, watermark);
    var b := RuleUnion(rule, data, watermark, pick)[f];
    assert b == BranchOf("final", data[source], watermark, pick);
    assert Filter(data[source].rows, Passing("final", watermark)) == data[source].rows;
    assert b.rows[0] == WITNESS;
    assert b in RuleUnion(rule, data, watermark, pick);
  }

  lemma {:induction false} OtherFinalBranch(rule: Rule, f: nat, source: string, watermark: int, pick: Pick, i: nat)
    requires Valid(rule, f) && rule.realizations[f].source != source && i < |rule.realizations|
    ensures var b := RuleUnion(rule, OnlyIn(source, watermark), watermark, pick)[i];
      !(b.isFinal && WITNESS in b.rows)
  {
    var x := rule.realizations[i];
    assert RuleUnion(rule, OnlyIn(source, watermark), watermark, pick)[i]
        == BranchOf(x.role, LoadedAt(OnlyIn(source, watermark), x.source), watermark, pick);
  }

  lemma {:induction false} OtherFinalReturnsNothing(rule: Rule, f: nat, source: string, watermark: int, pick: Pick)
    requires Valid(rule, f) && rule.realizations[f].source != source
    ensures !Returns(RuleUnion(rule, OnlyIn(source, watermark), watermark, pick), true, WITNESS)
  {
    var union := RuleUnion(rule, OnlyIn(source, watermark), watermark, pick);
    forall b | b in union
      ensures !(b.isFinal && WITNESS in b.rows)
    {
      var i :| 0 <= i < |union| && union[i] == b;
      OtherFinalBranch(rule, f, source, watermark, pick, i);
    }
  }

  /** Two valid rules with equal keys return the same rows on every data set if and only if their final
      realizations name the same source. */
  lemma {:induction false} EqualKeysSameRowsIff(a: Rule, fa: nat, b: Rule, fb: nat, iso: string, flag: string,
      watermark: int, pick: Pick)
    requires Valid(a, fa) && Valid(b, fb) && FinalityKey(a, iso, flag) == FinalityKey(b, iso, flag)
    ensures SameRowsAlways(a, b, watermark, pick) <==> a.realizations[fa].source == b.realizations[fb].source
  {
    var source := a.realizations[fa].source;
    EqualKeysEqualSources(a, b, iso, iso, flag, flag);
    if source == b.realizations[fb].source {
      forall data, isFinal, r
        ensures Returns(RuleUnion(a, data, watermark, pick), isFinal, r)
            <==> Returns(RuleUnion(b, data, watermark, pick), isFinal, r)
      {
        SameFinalSameBranches(a, fa, b, fb, data, watermark, pick);
        SameBranchesReturn(RuleUnion(a, data, watermark, pick), RuleUnion(b, data, watermark, pick), isFinal, r);
        SameBranchesReturn(RuleUnion(b, data, watermark, pick), RuleUnion(a, data, watermark, pick), isFinal, r);
      }
    } else {
      OwnFinalReturns(a, fa, watermark, pick);
      OtherFinalReturnsNothing(b, fb, source, watermark, pick);
    }
  }

  // ---------------------------------------------------------------- swapped roles

  /** Two sources, one final and one provisional. */
  function TwoSources(final: string, provisional: string): Rule {
    Rule([Realization(final, "final", "business_day", "UTC"), Realization(provisional, "provisional", "", "")], None)
  }

  lemma {:induction false} TwoSourcesAreValid(final: string, provisional: string, grammar: string -> Watermark)
    requires grammar("business_day") == BusinessDay
    ensures WellFormedRule(TwoSources(final, provisional), None, grammar, {"UTC"}, 0)
    ensures Valid(TwoSources(final, provisional), 0)
  {
  }

  /** Swapping the roles of two sources changes the rows but not the key. */
  lemma {:induction false} SwappedRolesShareAKey(a: string, b: string, grammar: string -> Watermark, iso: string,
      flag: string, watermark: int, pick: Pick)
    requires a != b && grammar("business_day") == BusinessDay
    ensures WellFormedRule(TwoSources(a, b), None, grammar, {"UTC"}, 0)
    ensures WellFormedRule(TwoSources(b, a), None, grammar, {"UTC"}, 0)
    ensures FinalityKey(TwoSources(a, b), iso, flag) == FinalityKey(TwoSources(b, a), iso, flag)
    ensures !SameRowsAlways(TwoSources(a, b), TwoSources(b, a), watermark, pick)
  {
    TwoSourcesAreValid(a, b, grammar);
    TwoSourcesAreValid(b, a, grammar);
    assert SourcesOf(TwoSources(a, b)) == [a, b] && SourcesOf(TwoSources(b, a)) == [b, a];
    assert multiset([a, b]) == multiset([b, a]);
    EqualKeysEqualSources(TwoSources(a, b), TwoSources(b, a), iso, iso, flag, flag);
    EqualKeysSameRowsIff(TwoSources(a, b), 0, TwoSources(b, a), 0, iso, flag, watermark, pick);
  }
}
