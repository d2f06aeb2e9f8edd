/** The structure of a finality rule. */
module Finality {
  import opened Relational
  import opened Watermarks

  datatype Realization = Realization(source: string, role: string, watermark: string, tz: string)

  /** An empty string stands for a field left out. */
  datatype Rule = Rule(realizations: seq<Realization>, coalescing: Option<string>)

  predicate OccursAt(text: string, word: string, i: int) {
    0 <= i <= |text| - |word| && text[i..i + |word|] == word
  }

  predicate Mentions(text: string, word: string) {
    exists i :: 0 <= i <= |text| && OccursAt(text, word, i)
  }

  predicate KnownRole(role: string) {
    role == "final" || role == "provisional"
  }

  predicate HasRole(rule: Rule, role: string) {
    exists i :: 0 <= i < |rule.realizations| && rule.realizations[i].role == role
  }

  /** Every source a rule may use, if that is known. */
  type Sources = Option<set<string>>

  /** What a rule has to satisfy, with `f` its one final realization. */
  ghost predicate WellFormedRule(rule: Rule, sources: Sources, grammar: string -> Watermark, zones: set<string>,
      f: nat)
  {
    && f < |rule.realizations| && rule.realizations[f].role == "final"
    && (forall i :: 0 <= i < |rule.realizations| && i != f ==> rule.realizations[i].role == "provisional")
    && (sources.Some? ==> forall i :: 0 <= i < |rule.realizations| ==> rule.realizations[i].source in sources.value)
    && rule.realizations[f].watermark != "" && rule.realizations[f].tz != "" && rule.realizations[f].tz in zones
    && !grammar(rule.realizations[f].watermark).Unreadable?
    && (rule.coalescing.Some? && Mentions(rule.coalescing.value, "provisional") ==> |rule.realizations| > 1)
  }

  // ---------------------------------------------------------------- validation

  function RealizationFault(x: Realization, sources: Sources): Option<Failure> {
    if !KnownRole(x.role) then Some(UnknownRole)
    else if sources.Some? && x.source !in sources.value then Some(UndeclaredSource)
    else None
  }

  function FirstFault(xs: seq<Realization>, sources: Sources): Option<Failure> {
    if xs == [] then None
    else if RealizationFault(xs[0], sources).Some? then RealizationFault(xs[0], sources)
    else FirstFault(xs[1..], sources)
  }

  /** Positions of the final realizations. */
  function Finals(xs: seq<Realization>): seq<nat> {
    if xs == [] then []
    else if xs[|xs| - 1].role == "final" then Finals(xs[..|xs| - 1]) + [|xs| - 1]
    else Finals(xs[..|xs| - 1])
  }

  /** What is wrong with the final realization or the coalescing text, checked in this order. */
  function FinalFault(rule: Rule, final: Realization, grammar: string -> Watermark,
      zones: set<string>): Option<Failure>
  {
    if final.watermark == "" then Some(MissingWatermark)
    else if final.tz == "" then Some(MissingZone)
    else if final.tz !in zones then Some(UnknownZone)
    else if grammar(final.watermark).Unreadable? then Some(UnsupportedWatermark)
    else if CoalescesUndeclared(rule, "final") || CoalescesUndeclared(rule, "provisional") then Some(CoalescingRole)
    else None
  }

  predicate CoalescesUndeclared(rule: Rule, role: string) {
    rule.coalescing.Some? && Mentions(rule.coalescing.value, role) && !HasRole(rule, role)
  }

  /** The fault a rule is refused for, if any. */
  function RuleFault(rule: Rule, sources: Sources, grammar: string -> Watermark, zones: set<string>): Option<Failure> {
    var finals := Finals(rule.realizations);
    if FirstFault(rule.realizations, sources).Some? then FirstFault(rule.realizations, sources)
    else if |finals| != 1 || finals[0] >= |rule.realizations| then Some(NotOneFinal)
    else FinalFault(rule, rule.realizations[finals[0]], grammar, zones)
  }

  lemma {:induction false} FinalsExact(xs: seq<Realization>)
    ensures NoDup(Finals(xs)) && forall k: nat :: k in Finals(xs) <==> k < |xs| && xs[k].role == "final"
  {
    if xs != [] {
      var n := |xs| - 1;
      var init := Finals(xs[..n]);
      FinalsExact(xs[..n]);
      NoDupAppend(init, [n]);
      forall k: nat
        ensures k in Finals(xs) <==> k < |xs| && xs[k].role == "final"
      {
        assert k < n ==> xs[..n][k] == xs[k];
        assert k in init + [n] <==> k in init || k == n;
      }
    }
  }

  lemma {:induction false} NoFirstFault(xs: seq<Realization>, sources: Sources)
    ensures FirstFault(xs, sources).None? <==> forall k :: 0 <= k < |xs| ==> RealizationFault(xs[k], sources).None?
  {
    if xs != [] {
      NoFirstFault(xs[1..], sources);
      assert forall k :: 0 < k < |xs| ==> xs[k] == xs[1..][k - 1];
    }
  }

  lemma {:induction false} FirstFaultAt(xs: seq<Realization>, sources: Sources, i: nat)
    requires i < |xs| && RealizationFault(xs[i], sources).Some?
    requires forall k :: 0 <= k < i ==> RealizationFault(xs[k], sources).None?
    ensures FirstFault(xs, sources) == RealizationFault(xs[i], sources)
  {
    if i > 0 {
      FirstFaultAt(xs[1..], sources, i - 1);
    }
  }

  /** A rule has no fault exactly when it is well formed. */
  lemma {:induction false} FaultlessIffWellFormed(rule: Rule, sources: Sources, grammar: string -> Watermark,
      zones: set<string>)
    ensures RuleFault(rule, sources, grammar, zones).None?
        <==> exists f :: WellFormedRule(rule, sources, grammar, zones, f)
  {
    var xs, finals := rule.realizations, Finals(rule.realizations);
    FinalsExact(xs);
    NoFirstFault(xs, sources);
    if RuleFault(rule, sources, grammar, zones).None? {
      var f := finals[0];
      assert f in finals && forall k :: k in finals ==> k == f;
      assert forall k :: 0 <= k < |xs| ==> RealizationFault(xs[k], sources).None?;
      OthersProvisional(rule, f);
      assert WellFormedRule(rule, sources, grammar, zones, f);
    }
    if f :| WellFormedRule(rule, sources, grammar, zones, f) {
      assert f in finals && forall k :: k in finals ==> k == f;
      HeadsDiffer(finals);
      HeadIn(finals);
      OthersProvisional(rule, f);
    }
  }

  /** The positions of the final realizations, or the first fault of a realization. */
  method FindFinals(xs: seq<Realization>, sources: Sources) returns (r: Result<seq<nat>>)
    ensures r.Ok? ==> FirstFault(xs, sources).None? && r.value == Finals(xs)
    ensures r.Err? ==> FirstFault(xs, sources) == Some(r.failure)
  {
    var finals: seq<nat> := [];
    for i := 0 to |xs|
      invariant forall k :: 0 <= k < i ==> RealizationFault(xs[k], sources).None?
      invariant finals == Finals(xs[..i])
    {
      assert xs[..i + 1][..i] == xs[..i];
      if !KnownRole(xs[i].role) {
        FirstFaultAt(xs, sources, i);
        return Err(UnknownRole);
      }
      if xs[i].role == "final" {
        finals := finals + [i];
      }
      if sources.Some? && xs[i].source !in sources.value {
        FirstFaultAt(xs, sources, i);
        return Err(UndeclaredSource);
      }
    }
    assert xs[..|xs|] == xs;
    NoFirstFault(xs, sources);
    return Ok(finals);
  }

  lemma {:induction false} OnlyFinal(rule: Rule, sources: Sources, f: nat)
    requires FirstFault(rule.realizations, sources).None? && Finals(rule.realizations) == [f]
    ensures f < |rule.realizations| && rule.realizations[f].role == "final"
    ensures forall i :: 0 <= i < |rule.realizations| && i != f ==> rule.realizations[i].role == "provisional"
    ensures sources.Some? ==> forall i :: 0 <= i < |rule.realizations| ==> rule.realizations[i].source in sources.value
    ensures HasRole(rule, "final")
    ensures HasRole(rule, "provisional") <==> |rule.realizations| > 1
  {
    var xs := rule.realizations;
    FinalsExact(xs);
    NoFirstFault(xs, sources);
    assert f in Finals(xs);
    forall k | 0 <= k < |xs|
      ensures KnownRole(xs[k].role) && (xs[k].role == "final" <==> k == f)
    {
      assert RealizationFault(xs[k], sources).None?;
      assert k in Finals(xs) <==> k == f;
    }
    OthersProvisional(rule, f);
  }

  /** Returns the position of the final realization, or the first fault. */
  method ValidateRule(rule: Rule, sources: Sources, grammar: string -> Watermark, zones: set<string>)
      returns (r: Result<nat>)
    ensures r.Ok? ==> WellFormedRule(rule, sources, grammar, zones, r.value)
    ensures r.Err? ==> forall f :: !WellFormedRule(rule, sources, grammar, zones, f)
    ensures r.Err? ==> RuleFault(rule, sources, grammar, zones) == Some(r.failure)
  {
    FaultlessIffWellFormed(rule, sources, grammar, zones);
    var finals := FindFinals(rule.realizations, sources);
    if finals.Err? {
      return Err(finals.failure);
    }
    if |finals.value| != 1 {
      return Err(NotOneFinal);
    }
    var f := finals.value[0];
    OnlyFinal(rule, sources, f);
    var final := rule.realizations[f];
    if final.watermark == "" {
      return Err(MissingWatermark);
    }
    if final.tz == "" {
      return Err(MissingZone);
    }
    if final.tz !in zones {
      return Err(UnknownZone);
    }
    if grammar(final.watermark).Unreadable? {
      return Err(UnsupportedWatermark);
    }
    if CoalescesUndeclared(rule, "final") {
      return Err(CoalescingRole);
    }
    if CoalescesUndeclared(rule, "provisional") {
      return Err(CoalescingRole);
    }
    return Ok(f);
  }

  lemma {:induction false} OthersProvisional(rule: Rule, f: nat)
    requires f < |rule.realizations|
    requires forall k :: 0 <= k < |rule.realizations| ==> KnownRole(rule.realizations[k].role)
    requires forall k :: 0 <= k < |rule.realizations| ==> (rule.realizations[k].role == "final" <==> k == f)
    ensures HasRole(rule, "final")
    ensures HasRole(rule, "provisional") <==> |rule.realizations| > 1
  {
    assert rule.realizations[f].role == "final";
    if |rule.realizations| > 1 {
      var i := if f == 0 then 1 else 0;
      assert rule.realizations[i].role == "provisional";
    }
  }
}
