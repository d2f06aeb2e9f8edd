/** The metadata of a composed result, merged over its CTEs. */
module Results {
  import opened Relational
  import opened Texts
  import opened Plans
  import opened Fusion

  /** Guardrails by id, warnings, sources, and the conservative finality of the whole result. */
  datatype Merged = Merged(
    fired: seq<string>, warnings: seq<string>, used: set<string>, scoped: set<string>, shared: set<string>,
    finality: Option<FinalityMeta>)

  // ---------------------------------------------------------------- merging

  function FiredOf(metas: seq<Meta>): seq<string> {
    if metas == [] then [] else AppendNew(FiredOf(metas[..|metas| - 1]), metas[|metas| - 1].fired)
  }

  function WarningsOf(metas: seq<Meta>): seq<string> {
    if metas == [] then [] else AppendNew(WarningsOf(metas[..|metas| - 1]), metas[|metas| - 1].warnings)
  }

  function UsedOf(metas: seq<Meta>): set<string> {
    if metas == [] then {} else UsedOf(metas[..|metas| - 1]) + metas[|metas| - 1].used
  }

  function ScopedOf(metas: seq<Meta>): set<string> {
    if metas == [] then {} else ScopedOf(metas[..|metas| - 1]) + metas[|metas| - 1].scoped
  }

  function SharedOf(metas: seq<Meta>): set<string> {
    if metas == [] then {} else SharedOf(metas[..|metas| - 1]) + metas[|metas| - 1].shared
  }

  function EarlierText(a: string, b: string): string {
    if TextBefore(b, a) then b else a
  }

  /** The earliest watermark so far, and the sources so far. */
  function Earliest(so: Option<FinalityMeta>, next: Option<FinalityMeta>): Option<FinalityMeta> {
    match (so, next)
    case (_, None) => so
    case (None, Some(f)) => Some(FinalityMeta(f.watermark, AppendNew([], f.sources), "per_row"))
    case (Some(g), Some(f)) =>
      Some(FinalityMeta(EarlierText(g.watermark, f.watermark), AppendNew(g.sources, f.sources), "per_row"))
  }

  function EarliestOf(metas: seq<Meta>): Option<FinalityMeta> {
    if metas == [] then None else Earliest(EarliestOf(metas[..|metas| - 1]), metas[|metas| - 1].finality)
  }

  function SortSources(f: Option<FinalityMeta>): Option<FinalityMeta> {
    if f.None? then None else Some(f.value.(sources := SortTexts(f.value.sources)))
  }

  function MergedOf(metas: seq<Meta>): Merged {
    Merged(SortTexts(FiredOf(metas)), WarningsOf(metas), UsedOf(metas), ScopedOf(metas), SharedOf(metas),
           SortSources(EarliestOf(metas)))
  }

  function MetasOf(physical: seq<Phys>, order: seq<nat>): (r: seq<Meta>)
    requires forall k :: 0 <= k < |order| ==> order[k] < |physical|
    ensures |r| == |order| && forall k :: 0 <= k < |order| ==> r[k] == physical[order[k]].meta
  {
    seq(|order|, k requires 0 <= k < |order| => physical[order[k]].meta)
  }

  method MergeResult(physical: seq<Physical>, order: seq<nat>, ghost spec: seq<Phys>) returns (m: Merged)
    requires Holds(physical, spec) && forall k :: 0 <= k < |order| ==> order[k] < |physical|
    ensures m == MergedOf(MetasOf(spec, order))
  {
    var fired: seq<string>, warnings: seq<string>, used: set<string>, scoped: set<string>, shared: set<string> :=
        [], [], {}, {}, {};
    var finality: Option<FinalityMeta> := None;
    ghost var metas := MetasOf(spec, order);
    for k := 0 to |order|
      invariant fired == FiredOf(metas[..k]) && warnings == WarningsOf(metas[..k])
      invariant used == UsedOf(metas[..k]) && scoped == ScopedOf(metas[..k]) && shared == SharedOf(metas[..k])
      invariant finality == EarliestOf(metas[..k])
    {
      var meta := physical[order[k]].meta;
      assert physical[order[k]].View() == spec[order[k]];
      assert metas[..k + 1][..k] == metas[..k] && metas[k] == meta;
      fired := AppendNew(fired, meta.fired);
      warnings := AppendNew(warnings, meta.warnings);
      used, scoped, shared := used + meta.used, scoped + meta.scoped, shared + meta.shared;
      finality := Earliest(finality, meta.finality);
    }
    assert metas[..|order|] == metas;
    return Merged(SortTexts(fired), warnings, used, scoped, shared, SortSources(finality));
  }

  // ---------------------------------------------------------------- what the merge holds

  ghost predicate MetaTagged(metas: seq<Meta>, t: Tag) {
    exists k :: 0 <= k < |metas| && Tagged(metas[k], t)
  }

  predicate MergedTagged(m: Merged, t: Tag) {
    match t
    case FiredGuardrail(id) => id in m.fired
    case Warned(text) => text in m.warnings
    case UsedSource(name) => name in m.used
    case ScopedSource(name) => name in m.scoped
    case SharedSource(name) => name in m.shared
  }

  lemma {:induction false} MetaTaggedSnoc(metas: seq<Meta>, t: Tag)
    requires metas != []
    ensures MetaTagged(metas, t) <==> MetaTagged(metas[..|metas| - 1], t) || Tagged(metas[|metas| - 1], t)
  {
    var n := |metas| - 1;
    if MetaTagged(metas[..n], t) {
      var k :| 0 <= k < n && Tagged(metas[..n][k], t);
      assert Tagged(metas[k], t);
    }
    if MetaTagged(metas, t) {
      var k :| 0 <= k < |metas| && Tagged(metas[k], t);
      assert k < n ==> Tagged(metas[..n][k], t);
    }
  }

  lemma {:induction false} CollectedTags(metas: seq<Meta>, t: Tag)
    ensures MetaTagged(metas, t) <==>
      match t
      case FiredGuardrail(id) => id in FiredOf(metas)
      case Warned(text) => text in WarningsOf(metas)
      case UsedSource(name) => name in UsedOf(metas)
      case ScopedSource(name) => name in ScopedOf(metas)
      case SharedSource(name) => name in SharedOf(metas)
  {
    if metas != [] {
      var n := |metas| - 1;
      MetaTaggedSnoc(metas, t);
      CollectedTags(metas[..n], t);
      InAppendNew(FiredOf(metas[..n]), metas[n].fired);
      InAppendNew(WarningsOf(metas[..n]), metas[n].warnings);
    }
  }

  lemma {:induction false} InAppendNew(a: seq<string>, b: seq<string>)
    ensures forall x :: x in AppendNew(a, b) <==> x in a || x in b
  {
    assert forall x :: x in AppendNew(a, b) <==> x in Elems(AppendNew(a, b));
  }

  lemma {:induction false} AppendNewOnce(a: seq<string>, b: seq<string>)
    requires NoDup(a)
    ensures NoDup(AppendNew(a, b))
    decreases |b|
  {
    if b != [] {
      AppendNewOnce(if b[0] in a then a else a + [b[0]], b[1..]);
    }
  }

  lemma {:induction false} FiredOnce(metas: seq<Meta>)
    ensures NoDup(FiredOf(metas)) && NoDup(WarningsOf(metas))
  {
    if metas != [] {
      FiredOnce(metas[..|metas| - 1]);
      AppendNewOnce(FiredOf(metas[..|metas| - 1]), metas[|metas| - 1].fired);
      AppendNewOnce(WarningsOf(metas[..|metas| - 1]), metas[|metas| - 1].warnings);
    }
  }

  lemma {:induction false} InSorted(s: seq<string>)
    ensures forall x :: x in SortTexts(s) <==> x in s
  {
    SortKeepsBag(s);
    assert forall x :: x in s <==> x in multiset(s);
    assert forall x :: x in SortTexts(s) <==> x in multiset(SortTexts(s));
  }

  lemma {:induction false} MergedTags(metas: seq<Meta>, t: Tag)
    ensures MergedTagged(MergedOf(metas), t) <==> MetaTagged(metas, t)
  {
    CollectedTags(metas, t);
    InSorted(FiredOf(metas));
  }

  lemma {:induction false} CteMetasTagged(physical: seq<Phys>, order: seq<nat>, t: Tag)
    requires forall k :: 0 <= k < |order| ==> order[k] < |physical|
    requires forall c :: 0 <= c < |physical| ==> c in order
    ensures MetaTagged(MetasOf(physical, order), t) <==> CteTagged(physical, t)
  {
    var metas := MetasOf(physical, order);
    if c :| 0 <= c < |physical| && Tagged(physical[c].meta, t) {
      assert c in order;
      var k :| 0 <= k < |order| && order[k] == c;
      assert Tagged(metas[k], t);
    }
    if k :| 0 <= k < |metas| && Tagged(metas[k], t) {
      assert Tagged(physical[order[k]].meta, t);
    }
  }

  ghost predicate Lists(order: seq<nat>, n: nat) {
    (forall k :: 0 <= k < |order| ==> order[k] < n) && forall c :: 0 <= c < n ==> c in order
  }

  /** The result reports exactly the guardrails, warnings and sources of its leaves, fused or not. */
  lemma {:induction false} ResultReportsLeaves(leaves: seq<LeafPlan>, dedup: bool, order: seq<nat>, t: Tag)
    requires Lists(order, |Fused(leaves, dedup).physical|)
    ensures MergedTagged(MergedOf(MetasOf(Fused(leaves, dedup).physical, order)), t) <==> LeafTagged(leaves, t)
  {
    var physical := Fused(leaves, dedup).physical;
    MergedTags(MetasOf(physical, order), t);
    CteMetasTagged(physical, order, t);
    MetadataConserved(leaves, dedup, t);
  }

  // ---------------------------------------------------------------- finality

  /** `r` is the finality of a result over these: the earliest watermark, every source once in order. */
  ghost predicate IsMergedFinality(metas: seq<Meta>, r: Option<FinalityMeta>) {
    && (r.None? <==> forall k :: 0 <= k < |metas| ==> metas[k].finality.None?)
    && (r.Some? ==> HasWatermark(metas, r.value.watermark) && r.value.flag == "per_row")
    && (r.Some? ==> forall k ::
      0 <= k < |metas| && metas[k].finality.Some? ==> TextLe(r.value.watermark, metas[k].finality.value.watermark))
    && (r.Some? ==> NoDup(r.value.sources) && forall x :: x in r.value.sources <==> HasSource(metas, x))
  }

  ghost predicate HasWatermark(metas: seq<Meta>, w: string) {
    exists k :: 0 <= k < |metas| && metas[k].finality.Some? && metas[k].finality.value.watermark == w
  }

  ghost predicate HasSource(metas: seq<Meta>, x: string) {
    exists k :: 0 <= k < |metas| && metas[k].finality.Some? && x in metas[k].finality.value.sources
  }

  lemma {:induction false} HasSnoc(metas: seq<Meta>, m: Meta, x: string)
    ensures HasWatermark(metas + [m], x)
        <==> HasWatermark(metas, x) || (m.finality.Some? && m.finality.value.watermark == x)
    ensures HasSource(metas + [m], x) <==> HasSource(metas, x) || (m.finality.Some? && x in m.finality.value.sources)
  {
    var all := metas + [m];
    assert all[|metas|] == m && forall k :: 0 <= k < |metas| ==> all[k] == metas[k];
  }

  lemma {:induction false} EarliestSnoc(metas: seq<Meta>, m: Meta, so: Option<FinalityMeta>)
    requires IsMergedFinality(metas, so)
    ensures IsMergedFinality(metas + [m], Earliest(so, m.finality))
  {
    var all, r := metas + [m], Earliest(so, m.finality);
    assert all[|metas|] == m && forall k :: 0 <= k < |metas| ==> all[k] == metas[k];
    forall x { HasSnoc(metas, m, x); }
    if m.finality.Some? {
      var f := m.finality.value;
      var before := if so.Some? then so.value.sources else [];
      InAppendNew(before, f.sources);
      AppendNewOnce(before, f.sources);
      if so.Some? {
        TextTrichotomy(so.value.watermark, f.watermark);
        forall k | 0 <= k < |metas| && metas[k].finality.Some?
          ensures TextLe(r.value.watermark, metas[k].finality.value.watermark)
        {
          TextTransitive(f.watermark, so.value.watermark, metas[k].finality.value.watermark);
        }
      } else {
        assert forall x :: !HasSource(metas, x);
      }
    }
  }

  lemma {:induction false} EarliestIsMerged(metas: seq<Meta>)
    ensures IsMergedFinality(metas, EarliestOf(metas))
  {
    if metas != [] {
      var n := |metas| - 1;
      EarliestIsMerged(metas[..n]);
      EarliestSnoc(metas[..n], metas[n], EarliestOf(metas[..n]));
      assert metas == metas[..n] + [metas[n]];
    }
  }

  lemma {:induction false} SortedOnce(s: seq<string>)
    requires NoDup(s)
    ensures NoDup(SortTexts(s)) && Ascending(SortTexts(s))
  {
    SortKeepsBag(s);
    SortAscends(s);
    forall x
      ensures multiset(SortTexts(s))[x] <= 1
    {
      NoDupCount(s, x);
    }
    CountedOnce(SortTexts(s));
  }

  lemma {:induction false} CountedOnce(s: seq<string>)
    requires forall x :: multiset(s)[x] <= 1
    ensures NoDup(s)
  {
    if s != [] {
      var n := |s| - 1;
      assert s == s[..n] + [s[n]];
      assert forall x :: multiset(s[..n])[x] <= multiset(s)[x];
      CountedOnce(s[..n]);
      assert multiset(s)[s[n]] == multiset(s[..n])[s[n]] + 1;
      assert forall i :: 0 <= i < n ==> s[i] in multiset(s[..n]);
    }
  }

  /** Two merges of the same watermarks and sources are equal. */
  lemma {:induction false} MergedFinalityIsUnique(a: seq<Meta>, b: seq<Meta>, r: FinalityMeta, s: FinalityMeta)
    requires IsMergedFinality(a, Some(r)) && IsMergedFinality(b, Some(s))
    requires Ascending(r.sources) && Ascending(s.sources)
    requires forall x :: HasWatermark(a, x) <==> HasWatermark(b, x)
    requires forall x :: HasSource(a, x) <==> HasSource(b, x)
    ensures r == s
  {
    assert HasWatermark(b, r.watermark) && HasWatermark(a, s.watermark);
    assert TextLe(r.watermark, s.watermark) && TextLe(s.watermark, r.watermark);
    TextTrichotomy(r.watermark, s.watermark);
    assert Elems(r.sources) == Elems(s.sources);
    SameBag(r.sources, s.sources);
    AscendingIsUnique(r.sources, s.sources);
  }

  // ---------------------------------------------------------------- finality of fused leaves

  /** The finality part of the key is the finality the leaf reports: watermark, sorted sources, flag. */
  ghost predicate KeyedFinality(l: LeafPlan) {
    l.key.finality == (if l.meta.finality.None? then []
      else [l.meta.finality.value.watermark] + SortTexts(l.meta.finality.value.sources) + [l.meta.finality.value.flag])
  }

  /** The reported finalities have one watermark and the same sources, or are both absent. */
  ghost predicate SameReport(a: Option<FinalityMeta>, b: Option<FinalityMeta>) {
    && (a.None? <==> b.None?)
    && (a.Some? && b.Some?
        ==> a.value.watermark == b.value.watermark && multiset(a.value.sources) == multiset(b.value.sources))
  }

  lemma {:induction false} SameKeySameReport(a: LeafPlan, b: LeafPlan)
    requires KeyedFinality(a) && KeyedFinality(b) && a.key.finality == b.key.finality
    ensures SameReport(a.meta.finality, b.meta.finality)
  {
    var k := a.key.finality;
    assert a.meta.finality.Some? ==> |k| > 0;
    assert b.meta.finality.Some? ==> |k| > 0;
    if a.meta.finality.Some? && b.meta.finality.Some? {
      var f, g := a.meta.finality.value, b.meta.finality.value;
      assert k[0] == f.watermark && k[0] == g.watermark;
      assert k[1..|k| - 1] == SortTexts(f.sources) && k[1..|k| - 1] == SortTexts(g.sources);
      SortsAlikeIff(f.sources, g.sources);
    }
  }

  ghost predicate ReportsAt(st: FuseState, leaves: seq<LeafPlan>, i: nat)
    requires i < |leaves| && |st.owner| == |leaves|
  {
    st.owner[i] < |st.physical| && SameReport(st.physical[st.owner[i]].meta.finality, leaves[i].meta.finality)
  }

  lemma {:induction false} StepReports(st: FuseState, leaves: seq<LeafPlan>, l: LeafPlan, dedup: bool)
    requires Assigned(st, leaves, dedup) && Assigned(Step(st, l, dedup), leaves + [l], dedup)
    requires forall i :: 0 <= i < |leaves| ==> ReportsAt(st, leaves, i) && KeyedFinality(leaves[i])
    requires KeyedFinality(l)
    ensures forall i :: 0 <= i < |leaves| + 1 ==> ReportsAt(Step(st, l, dedup), leaves + [l], i)
  {
    var st', all := Step(st, l, dedup), leaves + [l];
    ServingReports(st, leaves, l, dedup);
    forall i | 0 <= i < |leaves|
      ensures ReportsAt(st', all, i)
    {
      assert ReportsAt(st, leaves, i);
      assert st'.owner[i] == st.owner[i] && all[i] == leaves[i];
    }
  }

  lemma {:induction false} ServingReports(st: FuseState, leaves: seq<LeafPlan>, l: LeafPlan, dedup: bool)
    requires Assigned(st, leaves, dedup) && KeyedFinality(l)
    requires forall i :: 0 <= i < |leaves| ==> ReportsAt(st, leaves, i) && KeyedFinality(leaves[i])
    ensures var st' := Step(st, l, dedup);
      var n := st'.owner[|leaves|];
      && SameReport(st'.physical[n].meta.finality, l.meta.finality)
      && (n < |st.physical| ==> SameReport(st'.physical[n].meta.finality, st.physical[n].meta.finality))
  {
    var n := Step(st, l, dedup).owner[|leaves|];
    if n < |st.physical| {
      assert Founded(st, leaves, n);
      var f :| 0 <= f < |leaves| && st.owner[f] == n && st.physical[n].keyLeaf == leaves[f];
      assert ReportsAt(st, leaves, f);
      assert KeyOf(leaves[f]) == KeyOf(l);
      SameKeySameReport(leaves[f], l);
    }
  }

  ghost predicate AllKeyed(leaves: seq<LeafPlan>) {
    forall i :: 0 <= i < |leaves| ==> KeyedFinality(leaves[i])
  }

  /** Each CTE reports what every leaf it serves reports, provided the leaves' keys say what they report. */
  ghost predicate Reports(st: FuseState, leaves: seq<LeafPlan>, dedup: bool) {
    Assigned(st, leaves, dedup) && (AllKeyed(leaves) ==> forall i :: 0 <= i < |leaves| ==> ReportsAt(st, leaves, i))
  }

  lemma {:induction false} StepKeepsReports(st: FuseState, leaves: seq<LeafPlan>, l: LeafPlan, dedup: bool)
    requires Reports(st, leaves, dedup)
    ensures Reports(Step(st, l, dedup), leaves + [l], dedup)
  {
    StepAssigned(st, leaves, l, dedup);
    if AllKeyed(leaves + [l]) {
      assert (leaves + [l])[|leaves|] == l && forall i :: 0 <= i < |leaves| ==> (leaves + [l])[i] == leaves[i];
      StepReports(st, leaves, l, dedup);
    }
  }

  lemma {:induction false} FusedReports(leaves: seq<LeafPlan>, dedup: bool)
    ensures Reports(Fused(leaves, dedup), leaves, dedup)
  {
    var P := (st: FuseState, ls: seq<LeafPlan>) => Reports(st, ls, dedup);
    forall st, ls, l | P(st, ls)
      ensures P(Step(st, l, dedup), ls + [l])
    {
      StepKeepsReports(st, ls, l, dedup);
    }
    FusedInduction(P, leaves, dedup);
  }

  ghost function LeafMetas(leaves: seq<LeafPlan>): seq<Meta> {
    Map(leaves, (l: LeafPlan) => l.meta)
  }

  /** The CTEs report the watermarks and sources of the leaves. */
  lemma {:induction false} CtesReportLeaves(leaves: seq<LeafPlan>, dedup: bool, order: seq<nat>, x: string)
    requires AllKeyed(leaves) && Lists(order, |Fused(leaves, dedup).physical|)
    ensures var metas := MetasOf(Fused(leaves, dedup).physical, order);
      && (HasWatermark(metas, x) <==> HasWatermark(LeafMetas(leaves), x))
      && (HasSource(metas, x) <==> HasSource(LeafMetas(leaves), x))
  {
    var metas := MetasOf(Fused(leaves, dedup).physical, order);
    forall k | 0 <= k < |metas|
      ensures Matched(metas[k], LeafMetas(leaves))
    {
      var i := CteReportsLeaf(leaves, dedup, order, k);
    }
    forall i | 0 <= i < |leaves|
      ensures Matched(LeafMetas(leaves)[i], metas)
    {
      var k := LeafReportedByCte(leaves, dedup, order, i);
      assert SameReport(LeafMetas(leaves)[i].finality, metas[k].finality);
    }
    ReportsCarryOver(metas, LeafMetas(leaves), x);
    ReportsCarryOver(LeafMetas(leaves), metas, x);
  }

  /** Some of these report the same. */
  ghost predicate Matched(m: Meta, metas: seq<Meta>) {
    exists i :: 0 <= i < |metas| && SameReport(m.finality, metas[i].finality)
  }

  lemma {:induction false} CteReportsLeaf(leaves: seq<LeafPlan>, dedup: bool, order: seq<nat>, k: nat) returns (i: nat)
    requires AllKeyed(leaves) && Lists(order, |Fused(leaves, dedup).physical|) && k < |order|
    ensures i < |leaves|
    ensures SameReport(MetasOf(Fused(leaves, dedup).physical, order)[k].finality, LeafMetas(leaves)[i].finality)
  {
    var st := Fused(leaves, dedup);
    FusedReports(leaves, dedup);
    FusedAssigned(leaves, dedup);
    assert Founded(st, leaves, order[k]);
    i :| 0 <= i < |leaves| && st.owner[i] == order[k];
    assert ReportsAt(st, leaves, i);
  }

  lemma {:induction false} LeafReportedByCte(leaves: seq<LeafPlan>, dedup: bool, order: seq<nat>, i: nat)
      returns (k: nat)
    requires AllKeyed(leaves) && Lists(order, |Fused(leaves, dedup).physical|) && i < |leaves|
    ensures k < |order|
    ensures SameReport(MetasOf(Fused(leaves, dedup).physical, order)[k].finality, LeafMetas(leaves)[i].finality)
  {
    var st := Fused(leaves, dedup);
    FusedReports(leaves, dedup);
    assert ReportsAt(st, leaves, i);
    var c := st.owner[i];
    assert c in order;
    k :| 0 <= k < |order| && order[k] == c;
  }

  lemma {:induction false} SameReportSameSources(a: Option<FinalityMeta>, b: Option<FinalityMeta>, x: string)
    requires SameReport(a, b)
    ensures a.Some? && b.Some? ==> (x in a.value.sources <==> x in b.value.sources)
  {
    if a.Some? && b.Some? {
      assert x in a.value.sources <==> x in multiset(a.value.sources);
      assert x in b.value.sources <==> x in multiset(b.value.sources);
    }
  }

  lemma {:induction false} ReportsCarryOver(a: seq<Meta>, b: seq<Meta>, x: string)
    requires forall k :: 0 <= k < |a| ==> Matched(a[k], b)
    ensures HasWatermark(a, x) ==> HasWatermark(b, x)
    ensures HasSource(a, x) ==> HasSource(b, x)
  {
    if HasWatermark(a, x) {
      var k :| 0 <= k < |a| && a[k].finality.Some? && a[k].finality.value.watermark == x;
      assert Matched(a[k], b);
      var i :| 0 <= i < |b| && SameReport(a[k].finality, b[i].finality);
    }
    if HasSource(a, x) {
      var k :| 0 <= k < |a| && a[k].finality.Some? && x in a[k].finality.value.sources;
      assert Matched(a[k], b);
      var i :| 0 <= i < |b| && SameReport(a[k].finality, b[i].finality);
      SameReportSameSources(a[k].finality, b[i].finality, x);
    }
  }

  // ---------------------------------------------------------------- fusion keeps the metadata

  lemma {:induction false} NoneWithoutWatermark(metas: seq<Meta>)
    ensures SortSources(EarliestOf(metas)).None? <==> forall x :: !HasWatermark(metas, x)
  {
    EarliestIsMerged(metas);
    if w :| HasWatermark(metas, w) {
      var k :| 0 <= k < |metas| && metas[k].finality.Some? && metas[k].finality.value.watermark == w;
    }
    if k :| 0 <= k < |metas| && metas[k].finality.Some? {
      assert HasWatermark(metas, metas[k].finality.value.watermark);
    }
  }

  lemma {:induction false} SortedFinalityIsMerged(metas: seq<Meta>)
    ensures var f := SortSources(EarliestOf(metas));
      IsMergedFinality(metas, f) && (f.Some? ==> Ascending(f.value.sources))
  {
    EarliestIsMerged(metas);
    if EarliestOf(metas).Some? {
      SortedOnce(EarliestOf(metas).value.sources);
      InSorted(EarliestOf(metas).value.sources);
    }
  }

  lemma {:induction false} SameFinality(a: seq<Meta>, b: seq<Meta>)
    requires forall x :: HasWatermark(a, x) <==> HasWatermark(b, x)
    requires forall x :: HasSource(a, x) <==> HasSource(b, x)
    ensures SortSources(EarliestOf(a)) == SortSources(EarliestOf(b))
  {
    NoneWithoutWatermark(a);
    NoneWithoutWatermark(b);
    if EarliestOf(a).Some? && EarliestOf(b).Some? {
      SortedFinalityIsMerged(a);
      SortedFinalityIsMerged(b);
      MergedFinalityIsUnique(a, b, SortSources(EarliestOf(a)).value, SortSources(EarliestOf(b)).value);
    }
  }

  /** Deduplication and the order of the CTEs change nothing a result reports, but for the order of its
      warnings. */
  lemma {:induction false} FusionPreservesMetadata(leaves: seq<LeafPlan>, dedup: bool, order: seq<nat>, dedup': bool,
      order': seq<nat>)
    requires AllKeyed(leaves) && Lists(order, |Fused(leaves, dedup).physical|)
        && Lists(order', |Fused(leaves, dedup').physical|)
    ensures var a, b :=
        MergedOf(MetasOf(Fused(leaves, dedup).physical, order)),
        MergedOf(MetasOf(Fused(leaves, dedup').physical, order'));
      b == a.(warnings := b.warnings) && multiset(a.warnings) == multiset(b.warnings)
  {
    var ma, mb := MetasOf(Fused(leaves, dedup).physical, order), MetasOf(Fused(leaves, dedup').physical, order');
    var a, b := MergedOf(ma), MergedOf(mb);
    forall t: Tag
      ensures MergedTagged(a, t) <==> MergedTagged(b, t)
    {
      ResultReportsLeaves(leaves, dedup, order, t);
      ResultReportsLeaves(leaves, dedup', order', t);
    }
    SameTagsSameParts(ma, mb, a, b);
    forall x
      ensures (HasWatermark(ma, x) <==> HasWatermark(mb, x)) && (HasSource(ma, x) <==> HasSource(mb, x))
    {
      CtesReportLeaves(leaves, dedup, order, x);
      CtesReportLeaves(leaves, dedup', order', x);
    }
    SameFinality(ma, mb);
  }

  lemma {:induction false} SameTagsSameParts(ma: seq<Meta>, mb: seq<Meta>, a: Merged, b: Merged)
    requires a == MergedOf(ma) && b == MergedOf(mb) && forall t :: MergedTagged(a, t) <==> MergedTagged(b, t)
    ensures a.fired == b.fired && multiset(a.warnings) == multiset(b.warnings)
    ensures a.used == b.used && a.scoped == b.scoped && a.shared == b.shared
  {
    FiredOnce(ma);
    FiredOnce(mb);
    SortedOnce(FiredOf(ma));
    SortedOnce(FiredOf(mb));
    forall x
      ensures (x in a.fired <==> x in b.fired) && (x in a.warnings <==> x in b.warnings)
      ensures (x in a.used <==> x in b.used) && (x in a.scoped <==> x in b.scoped) && (x in a.shared <==> x in b.shared)
    {
      assert MergedTagged(a, FiredGuardrail(x)) <==> MergedTagged(b, FiredGuardrail(x));
      assert MergedTagged(a, Warned(x)) <==> MergedTagged(b, Warned(x));
      assert MergedTagged(a, UsedSource(x)) <==> MergedTagged(b, UsedSource(x));
      assert MergedTagged(a, ScopedSource(x)) <==> MergedTagged(b, ScopedSource(x));
      assert MergedTagged(a, SharedSource(x)) <==> MergedTagged(b, SharedSource(x));
    }
    assert Elems(a.fired) == Elems(b.fired) && Elems(a.warnings) == Elems(b.warnings);
    SameBag(a.fired, b.fired);
    SameBag(a.warnings, b.warnings);
    AscendingIsUnique(a.fired, b.fired);
  }
}
