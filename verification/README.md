# A verified model of Canonic's deterministic query compiler

Canonic compiles requested metrics into one SQL statement. Each metric is planned into *leaves*:
one source, joined, filtered and aggregated to the requested dimensions. Identical leaves are fused
into one CTE, the CTEs are left-joined onto a spine of dimension tuples, and ratios, derived
arithmetic and running totals are computed on top. The compiler's promise is that none of this
changes a number.

This project gives the emitted SQL a small denotational semantics (NULLs and three-valued logic,
UNION, LEFT JOIN, GROUP BY, DISTINCT ON, DENSE_RANK, ROWS windows over an engine's own arrangement of
the rows) and proves that the plans denote what they should. Around that core it models the parts of
the compiler and its contracts whose correctness the result depends on.

| part | modules |
|---|---|
| SQL fragment, rows, plans | `Relational`, `Texts`, `Plans`, `Semantics`, `Bags` |
| fusion, merged metadata | `Fusion`, `Results` |
| spine, joins onto it, windows, densification | `Spine`, `Ordering`, `Engines`, `Windows`, `Fill`, `Leaves` |
| the whole statement against an independent reference | `Compose`, `Assembly`, `Reference`, `ComposeLaws`, `ComposeCorrect` |
| several metrics in one query, meaning of single cells | `Together`, `Readings` |
| zero denominators | `ZeroDenominators` |
| leaf keys: what a leaf is planned from, its key, its rows | `LeafSpecs`, `LeafKeys`, `LooseKeys`, `PlannedQueries` |
| parts of a leaf | `FilterKey`, `JoinKeys`, `FinalityKeys`, `FanOut`, `Unfanned` |
| join planning | `Joins`, `JoinPlan`, `JoinUniqueness`, `AliasTree` |
| finality | `Watermarks`, `Finality`, `FinalityUnion` |
| calendar arithmetic | `Calendar`, `DaySpine` |
| tenancy | `Tenants`, `Tenancy` |
| credential cache | `Credentials` |

Code that works step by step in the source is a method or a class here (`Assembly.ComposeQuery`,
`Fusion.Physical`, `Results.MergeResult`, `Joins.Search`, `JoinPlan.PlanJoins`,
`AliasTree.BuildAliasTree`, `FilterKey.FilterKeyOf`, `Tenancy.TenantConditions`,
`Finality.ValidateRule`, `FinalityUnion.BuildFinalityUnion`, `Credentials.CachingProvider`), proved
equal to a function or against an outright statement; the theorems are about those functions.

How to read the main result: `Reference.IsAnswer` says what rows a query must return, without CTEs,
fusion, joins or windows. `Compose.Statement` is what the emitted statement returns.
`Assembly.ComposeQuery` computes `Statement` by the source's own steps, `ComposeCorrect.ComposeIsReference`
proves that `Statement` is an answer, and `Reference.AnswerIsUnique` that there is only one answer.
`LeafSpecs` says what a leaf is planned from, the key it gets and the rows it returns;
`LeafKeys.PlannedKeysAreSound` derives from it the premise that fusion makes on keys, and
`PlannedQueries.PlannedFusionPreservesResult` is the fusion theorem for planned leaves.

## Premises

These hold wherever a theorem names the predicate, and are what the code itself relies on.

- `Fusion.KeysSound`: leaves with equal fusion keys have equal rows, and under one key an output
  column names one measure. It is proved for planned leaves. What remains to ask of them is
  `LeafKeys.GroupsAgree`: under one key a column name means one measure (`_fuse` compares names only),
  and two rules name the same final source.
- `JoinKeys.Consistent`: no join was planned from another source than the one its alias stands for.
  Every plan is, where aliases determine their sources (`JoinKeys.FunctionalPlansAreConsistent`), and
  without `via` wherever planning is exact (`JoinKeys.ExactPlansAreConsistent`).
- `LeafKeys.Faithful`: equal text means equal meaning, for conditions, expressions and watermarks.
- `Semantics.IsEngine`: the engine arranges the rows of a window by the emitted sort keys, peers in any
  order, NULLs first or last. `Engines.EnginesExist` gives one for either side.
- `Leaves.LeafOk`: a leaf is one SELECT, or under a finality rule at most one per marker, and a
  visibility CTE has no repeated order tuple. A rule with several provisional sources breaks the
  second: `FinalityUnion.UnionConservesIff` says when it still adds up.
- `Reference.PlansFit`: a running total orders by its leaf's order dimensions, partitions by all
  other requested ones, and hides rows exactly when the leaf hoists a visibility CTE.
- A declared grain is unique (`FanOut.UniqueGrain`), and a join declared to-one finds at most one
  partner (`FanOut.Honest`). `FanOut.DedupKeepsAllIffGrainUnique` shows the first is needed. DISTINCT
  ON has no ORDER BY, so every theorem holds for whichever row it keeps.
- Loading a source refuses two joins with one alias (`Joins.Declared`).

Where the code does not meet a property on all inputs, there is an input and the exact condition:

| property | input | exact condition |
|---|---|---|
| equal finality keys mean equal rows | `FinalityKeys.SwappedRolesShareAKey` | `FinalityKeys.EqualKeysSameRowsIff` |
| equal join paths mean equal rows | `JoinKeys.JoinPathHidesTarget` | `LooseKeys.EqualPathsSameRowsIff` |
| planning is exact: an alias joined on the way is never checked for ambiguity of its own | `JoinUniqueness.TwoFacedIsNotExact` | `JoinUniqueness.PlansExactlyIff` |
| the alias tree knows what the path search finds | `AliasTree.TwoFacedTreeMisses` | `AliasTree.TreeIsExactIff` |
| the finality union adds up to one source | `FinalityUnion.TwoProvisionalsCountTwice` | `FinalityUnion.UnionConservesIff` |
| `business_day - n days` is T-n: it counts calendar days | `Watermarks.MondayMinusThree` | `Watermarks.OffsetIsBusinessDaysIff` |
| every row of the watermark day is final | `Watermarks.LastSecondIsLater` | `Watermarks.FinalRowsByDay` |
| fewer tenants read less: no tenant at all is served unscoped | `Tenancy.NoTenantReadsMore` | `Tenancy.FewerTenantsReadLessIff` |
| SQLite's month modifier clamps | `Calendar.BareMonthStepOverflows` | `Calendar.BareMonthStepIffDayExists` |

Code and comments disagree twice. The comment at compose.py:478-480 says that a leaf without a
finality marker is not paired with both the final and the provisional row of a tuple. The join
(compose.py:613-630) matches such a leaf on the dimensions alone, so it is: the model follows the
code, and `Readings.UnmarkedReadsBothMarkers` and `Readings.ProvisionalRows` say which rows show it.
The docstring at leaf.py:205-208 says that every input that can change a leaf's rows appears in its
key. Two do not: the roles of a rule's sources (leaf.py:611-615), and the source a join leads to
(leaf.py:659). The first two lines of the table say when that shows.

## Model

| member | source | states |
|---|---|---|
| Assembly.ComposeQuery | canonic/compiler/compose.py:522-699 | The compose step, run in the source's order over mutable CTE objects, returns exactly what the specified statement returns, refusals included, with the merged guardrails, warnings, sources and finality of its CTEs |
| ComposeCorrect.ComposeIsReference | canonic/compiler/compose.py:522-699 | Compose refuses exactly a cumulative metric with a finality rule; otherwise, on every engine, the statement with its ROWS windows returns each shown row of the reference result once and nothing else, through the bare, single, joined, crossed and visibility-filtered shapes |
| ComposeCorrect.FusionPreservesResult | canonic/compiler/pipeline.py:327-333 | Deduplicating leaves changes no number: on or off, in any CTE order, on any engine, the statement is refused alike or returns the same bag of rows, provided equal keys mean equal rows |
| PlannedQueries.PlannedFusionPreservesResult | canonic/compiler/pipeline.py:327-333 | The same for planned leaves without that premise: asked is only that joins were planned consistently, and that leaves under one key give a column one measure and their rules one final source |
| PlannedQueries.PlannedFusionPreservesMetadata | canonic/compiler/compose.py:911-930 | Nor does fusion change what a planned query reports, its finality included, but for the order of its warnings |
| LeafKeys.EqualKeysEqualRows | canonic/compiler/leaf.py:198-243 | Planned leaves that group together return the same rows on every database: owner, strategy, dimensions, normalised filters, join path, finality and parameters determine them, given consistent joins and one final source |
| LeafKeys.PlannedKeysAreSound | canonic/compiler/leaf.py:653-666 | What fusion assumes of keys holds for planned leaves |
| LooseKeys.FusedRulesServeOwnRowsIff | canonic/compiler/leaf.py:611-615 | Two finality leaves whose rules have equal keys share a CTE, and on every data set each is served its own rows if and only if both rules name the same final source |
| LooseKeys.EqualPathsSameRowsIff | canonic/compiler/leaf.py:659 | Equal join paths give the same joined rows on every database if and only if the joins lead to the same sources |
| JoinKeys.SamePathSameEdges | canonic/compiler/leaf.py:659 | Consistent plans of one owner with equal join paths are the same plan, targets and relationships included |
| JoinKeys.FunctionalPlansAreConsistent | canonic/compiler/joins.py:234-289 | Where aliases determine their sources, every plan is consistent, with `via` or without |
| JoinKeys.ExactPlansAreConsistent | canonic/compiler/joins.py:234-289 | Without `via`, plans are consistent wherever planning is exact |
| JoinKeys.JoinPathHidesTarget | canonic/compiler/leaf.py:659 | Under `via`, two plans of one owner have equal join paths and join different sources under one alias |
| FinalityKeys.EqualKeysSameRowsIff | canonic/compiler/leaf.py:611-615 | Two valid rules with equal keys give the same rows under the same markers on every data set if and only if their final realizations name the same source |
| FinalityKeys.SwappedRolesShareAKey | canonic/compiler/leaf.py:611-615 | For any two sources, the two valid rules that swap their roles have equal keys and not always equal rows |
| FinalityKeys.RuleUnionIsBuilt | canonic/compiler/_helpers.py:1328-1485 | The branches the key is compared against are those the union loop returns |
| Reference.AnswerIsUnique | canonic/compiler/compose.py:522-538 | The reference fixes the result: any two answers are the same bag of rows |
| Fusion.Fuse | canonic/compiler/compose.py:231-263 | The fusion loop over fresh, distinct CTE objects yields the specified CTEs and owner list |
| Fusion.Physical.MergeInto | canonic/compiler/compose.py:266-277 | Merging unions guardrails, warnings and source sets, takes over a finality where there was none, and leaves the projection alone |
| Fusion.SharingIsKeyEquality | canonic/compiler/compose.py:238-253 | Two leaves share a CTE exactly when their keys agree, and never with deduplication off |
| Fusion.FusedColumns | canonic/compiler/compose.py:254-259 | Each CTE projects every column of the leaves it serves, each name once, and nothing else |
| Fusion.ServesLeaf | canonic/compiler/leaf.py:226-242 | The CTE that serves a leaf has that leaf's rows and the same measure under each of its columns, given sound keys (proved for planned leaves) |
| Fusion.MetadataConserved | canonic/compiler/compose.py:266-277 | No guardrail, warning or source of any leaf is lost by fusing, and none appears from nowhere |
| Results.MergeResult | canonic/compiler/compose.py:911-930 | The merging loops over the CTEs compute the specified result metadata |
| Results.ResultReportsLeaves | canonic/compiler/compose.py:911-966 | The result reports exactly the guardrails, warnings and sources of the query's leaves, fused or not |
| Results.SortedFinalityIsMerged | canonic/compiler/compose.py:506-519 | The merged finality is absent exactly when every CTE's is; its watermark is the least of the CTEs', and its sources are theirs, each once and in order |
| Spine.NullSafeIsEquality | canonic/compiler/compose.py:429-465 | The emitted join condition is true exactly for equal tuples, NULL counting as a value |
| Spine.LeftJoinExact | canonic/compiler/compose.py:613-630 | Left-joining a leaf with one row per tuple neither drops nor repeats a spine row and attaches that leaf's own row |
| Spine.JoinAllExact | canonic/compiler/compose.py:608-635 | After joining every leaf the spine is unchanged row by row, each paired with every leaf's own row or nothing |
| Spine.InnerJoinKeeps | canonic/compiler/compose.py:651-669 | The final inner join on a duplicate-free list keeps exactly the rows whose tuple is listed |
| ComposeLaws.SpineIsReference | canonic/compiler/compose.py:468-503 | The spine holds exactly the tuples of every leaf, filled ones included, whatever was fused |
| ComposeCorrect.FromIsExact | canonic/compiler/compose.py:608-635 | Every shape of FROM lists each spine row once with every leaf's own row beside it |
| ComposeCorrect.VisibleSpineMembers | canonic/compiler/compose.py:855-886 | The visible spine holds exactly the tuples some leaf contributes and keeps |
| ComposeCorrect.FilteredIsAnswer | canonic/compiler/compose.py:637-697 | Visibility commutes with accumulation: the shown rows are the accumulated rows with a visible tuple, each once with unchanged totals |
| Leaves.LeafRowsDistinct | canonic/compiler/compose.py:615-617 | A leaf has one row per dimension tuple, or per tuple and marker under a finality rule |
| Leaves.OneRowWithoutDimensions | canonic/compiler/compose.py:631-635 | Without dimensions a leaf is exactly one row, even over no input |
| Semantics.MetricValueCorrect | canonic/compiler/compose.py:390-400 | On every joined row the emitted expression of a nested metric plan evaluates to the plan's meaning |
| Semantics.SubstituteCorrect | canonic/compiler/compose.py:373-387 | Replacing a template's placeholders by its inputs' expressions evaluates to the template on the inputs' values |
| Semantics.AccumulateCorrect | canonic/compiler/compose.py:746-781 | The emitted window, summed over the ROWS prefix of whatever arrangement the engine scans, is the running total over the set of result rows |
| Ordering.OrderKeysSortNullsLast | canonic/compiler/compose.py:711-743 | The emitted sort keys order NULLs last on every dialect, whichever side it sorts them by default |
| Semantics.RowsFrameIsDeterministic | canonic/compiler/compose.py:746-758 | Whatever arrangement an engine scans, the ROWS frame is the partition's rows at or before the current one, where order and partition tell rows apart |
| ComposeCorrect.WindowsAreDetermined | canonic/compiler/compose.py:746-758 | In every statement that is not refused they do: the partitions cover all dimensions the order does not |
| Engines.EnginesExist | canonic/compiler/compose.py:711-743 | One arrangement sorts every window for engines that put NULLs first and for those that put them last |
| Windows.RunningTotalIgnoresCompany | canonic/compiler/compose.py:761-781 | A running total does not change when other leaves or a fill add spine rows |
| Windows.RunningTotalStep | canonic/compiler/compose.py:761-781 | Between two rows of a partition the total grows by exactly the newly measured rows |
| Readings.RunningTotalOfLeaf | canonic/compiler/compose.py:711-781 | At any result row, on any engine, a running total is the sum of its own leaf's values in the partition at or before that row, and NULL before the first |
| Readings.DirectCell | canonic/compiler/compose.py:608-630 | A direct metric's cell is its measure over exactly its own leaf's rows of that tuple, NULL where there are none, under its own marker for a finality leaf |
| Readings.UnmarkedReadsBothMarkers | canonic/compiler/compose.py:613-630 | A leaf without finality reads the same on the final and the provisional row of a tuple |
| Readings.ProvisionalRows | canonic/compiler/compose.py:490-496 | A tuple is in the result as provisional exactly when some finality leaf has a provisional row of it |
| Fill.RankComparesTuples | canonic/compiler/compose.py:784-848 | Comparing DENSE_RANKs is comparing whole order tuples, NULLs last |
| Fill.FillExact | canonic/compiler/compose.py:784-848 | The fill returns exactly the observed order tuples crossed with the observed partitions from each partition's first tuple on, each once |
| Fill.LeafRowsAreFilled | canonic/compiler/compose.py:784-848 | Every leaf row is among the filled ones |
| Together.Concatenate | canonic/compiler/pipeline.py:405-409 | The loop concatenates every metric's leaves and moves its plan by the running length |
| Together.ConcatenationKeeps | canonic/compiler/compose.py:148-154 | Each metric's leaves sit at its offset and its plan refers to exactly them |
| Together.ValueInCompany | canonic/compiler/pipeline.py:405-438 | At every row of its own result a metric has the same value alone and in company |
| Together.AloneIsTogether | canonic/compiler/pipeline.py:405-438 | Every row a metric returns on its own is found once in the multi-metric result, with the same value |
| ZeroDenominators.FlagMeansZero | canonic/compiler/compose.py:334-340 | The flag is 1 exactly when some counted denominator is zero, NULL denominators notwithstanding |
| ZeroDenominators.CountedCorrect | canonic/compiler/compose.py:343-370 | The emitted denominators evaluate to what the metric and its nulling inputs divide by |
| ZeroDenominators.NullHasACause | canonic/compiler/compose.py:403-418 | A NULL in guarded arithmetic comes from a NULL input or a denominator that is exactly zero under the NULL policy |
| ZeroDenominators.NoUncountedNull | canonic/compiler/compose.py:302-370 | In any nested tree without accumulation or raw division, a NULL value over non-NULL leaf columns has its zero-denominator flag set |
| ZeroDenominators.NeverDividesByZero | canonic/compiler/compose.py:390-426 | Evaluating such a metric never divides by zero, whatever the data |
| FilterKey.FilterKeyOf | canonic/compiler/leaf.py:168-194 | Stripping, splitting and collecting in first-seen order computes the key |
| FilterKey.NormalFormKeepsMeaning | canonic/compiler/leaf.py:184-194 | The normal form has the three-valued value of the original conditions on every row |
| FilterKey.EqualKeysSelectTheSameRows | canonic/compiler/leaf.py:184-194 | Leaves with equal filter keys select the same rows |
| FilterKey.NormalFormIsIdempotent | canonic/compiler/leaf.py:168-194 | Normalising twice changes nothing |
| FilterKey.RepeatsDoNotChangeTheKey | canonic/compiler/leaf.py:187-190 | A condition whose conjuncts are all present already does not change the key |
| FilterKey.ShapeDoesNotChangeTheKey | canonic/compiler/leaf.py:168-181 | Parentheses and the nesting of AND do not change the key |
| FanOut.DedupKeepsEachOwnerOnce | canonic/compiler/_helpers.py:924-960 | Whatever DISTINCT ON picks, its rows belong to the surviving owner rows, each exactly once |
| FanOut.DedupConserves | canonic/compiler/_helpers.py:963-1008 | Over all output groups an additive measure adds up to the surviving owner rows, each counted once |
| FanOut.AdditiveLeafConserves | canonic/compiler/leaf.py:419-448 | The additive builder never inflates, with and without a fanning join |
| FanOut.DedupIsTheUnjoinedAggregate | canonic/compiler/_helpers.py:963-1008 | When dimensions are constant per owner row, every group equals the aggregate of the surviving owner rows, for every aggregate |
| Unfanned.DedupIsTheQueryWithoutTheFan | canonic/compiler/_helpers.py:963-1008 | When WHERE and dimensions do not read the fanning joins, the deduplicated query returns, group by group and for every aggregate, what the plain query without those joins returns |
| PlannedQueries.PlannedLeafConserves | canonic/compiler/leaf.py:419-448 | The groups of a planned additive leaf add up to the owner rows that survive its joins and WHERE, each counted once |
| FanOut.OwnerConditionSurvives | canonic/compiler/_helpers.py:862-878 | A WHERE on owner columns keeps exactly the owner rows it holds for, whatever is joined |
| FanOut.NaiveSumInflates | canonic/compiler/_helpers.py:881-918 | Aggregating the joined rows directly counts each owner row once per joined row |
| FanOut.NaiveIsRightIff | canonic/compiler/_helpers.py:974-978 | For values of one sign, skipping the deduplication is right exactly when no owner row with a value repeats |
| FanOut.DedupKeepsAllIffGrainUnique | canonic/compiler/_helpers.py:938-957 | DISTINCT ON keeps a row per surviving owner row exactly when their grain tuples are distinct |
| FanOut.EnforceSafetyFloor | canonic/compiler/leaf.py:379-416 | The first measure the joins would corrupt is refused with its reason; what passes under a fan-out is additive |
| Bags.GroupsAddUp | canonic/compiler/_helpers.py:881-918 | The groups of a SELECT add up to all of its rows for an additive measure |
| Joins.FindSimplePaths | canonic/compiler/joins.py:173-216 | The search over the shared trail and path lists returns the specified listing |
| Joins.SimplePathsExact | canonic/compiler/joins.py:173-216 | It lists every simple path from owner to target, each exactly once |
| JoinPlan.PlanJoins | canonic/compiler/joins.py:234-289 | The planning loop returns the specified plan or refusal |
| JoinPlan.PlansAreJoinable | canonic/compiler/joins.py:242-247 | For any targets and `via`, every edge starts at an alias joined earlier, no alias is joined twice, and every target is joined |
| JoinUniqueness.FunctionalKeepsUnique | canonic/compiler/joins.py:251-289 | Graph theorem: where aliases determine their sources, every alias on a unique path has itself a unique path |
| JoinUniqueness.PlansExactlyIff | canonic/compiler/joins.py:251-289 | Planning without `via` accepts exactly the target lists with one path each, in every order, if and only if unique paths run through uniquely reachable aliases |
| JoinUniqueness.FunctionalPlansExactly | canonic/compiler/joins.py:251-289 | Where aliases determine their sources, planning is exact |
| JoinUniqueness.PlanIsUnionOfPaths | canonic/compiler/joins.py:285-289 | A plan holds exactly the edges of its targets' only paths, never an edge from another parent |
| JoinUniqueness.RefusalsAreRight | canonic/compiler/joins.py:257-284 | Unreachable means no simple path, ambiguous means several, and the candidates are all of them |
| JoinUniqueness.TwoFacedIsNotExact | canonic/compiler/joins.py:255-256 | A graph whose alias names two sources is planned although one target is ambiguous |
| AliasTree.BuildAliasTree | canonic/compiler/joins.py:68-91 | The queue loop returns the first-found tree of the specified breadth-first search |
| AliasTree.AliasTreeIsClosed | canonic/compiler/joins.py:68-91 | In that tree every alias has a simple path to the source it names, and every join of a named source leads into it |
| AliasTree.TreeIsExactIff | canonic/compiler/joins.py:68-91 | The tree knows exactly the aliases simple paths reach if and only if, whichever path is taken, the joins of the source it ends at lead into the tree |
| AliasTree.TreeIffReachable | canonic/compiler/joins.py:68-91 | Where aliases determine their sources, moreover, the tree names the source at which every path to an alias ends |
| AliasTree.TwoFacedTreeMisses | canonic/compiler/joins.py:80-91 | On a graph that loads, whose alias names two sources, the tree the search returns misses an alias that a simple path reaches |
| Calendar.SqliteMonthStepClamps | canonic/compiler/dialect.py:402-465 | SQLite's emitted month step is calendar month addition clamped to the target month's last day, for every date and step |
| Calendar.SqliteDateAddIsAddToDate | canonic/compiler/dialect.py:198-213 | For days, weeks, months, quarters and years the SQLite step equals the semantic layer's own date addition |
| Calendar.AddToDateIsMonotone | canonic/semantic/duration.py:124-139 | Moving dates by a fixed duration never reorders them |
| Calendar.MonthStartIsOrdinal | canonic/semantic/duration.py:124-139 | Counting month by month with each month's own length gives the closed Gregorian day number, for every month |
| Calendar.MonthStepsComposeIff | canonic/semantic/duration.py:124-139 | Two month steps are one combined step exactly when the first loses no day the last month has |
| Calendar.BareMonthStepIffDayExists | canonic/compiler/dialect.py:410-416 | SQLite's own month modifier is the clamped step exactly when the target month has the day |
| Calendar.BareMonthStepOverflows | canonic/compiler/dialect.py:410-416 | One month after January 31 SQLite's modifier gives March 3 in a common year, the emitted step February 28 |
| Calendar.SqliteTruncates | canonic/compiler/dialect.py:312-351 | SQLite's DATE_TRUNC rewrite gives the latest bucket start not after the date, weeks starting Monday |
| Calendar.MysqlTruncates | canonic/compiler/dialect.py:508-531 | So does MySQL's rewrite |
| Calendar.TruncationsAgree | canonic/compiler/dialect.py:508-531 | Both rewrites put every date into the same bucket |
| Calendar.TruncationIsIdempotent | canonic/compiler/dialect.py:312-351 | Truncating twice is truncating once, on both dialects |
| Calendar.TruncationsNest | canonic/compiler/dialect.py:312-351 | Where every coarse bucket start is a fine one, truncating to the fine unit first changes nothing |
| Calendar.WeeksNestInMonthsIff | canonic/compiler/dialect.py:324-328 | Bucketing by week and then by month equals bucketing by month exactly on dates whose week begins in their month |
| DaySpine.SpineSelect | canonic/compiler/spine.py:71-111 | The five-digit cross join yields each day from the first, or 99,999 days before the last, to the last exactly once, and none for NULL bounds |
| DaySpine.DaysOf | canonic/compiler/spine.py:44-111 | Over the data at hand the spine is exactly the days from its first to its last day in reach or the cap, at most 100,000 |
| DaySpine.NumbersExact | canonic/compiler/spine.py:74-83 | The numbered digit rows are a bijection with 0 up to the power of ten |
| DaySpine.DaysWithDataAreShown | canonic/compiler/spine.py:49-56 | A day with data is shown exactly when it is not after the cap and within the spine's 100,000 days |
| Watermarks.WatermarkIsEndOfBusinessDay | canonic/contracts/finality.py:52-89 | A watermark exists exactly for a readable expression and a known zone, and is 23:59:59 of a business day |
| Watermarks.WatermarkIsMonotone | canonic/contracts/finality.py:52-89 | A later reference day never moves the watermark back |
| Watermarks.WatermarkDayBounds | canonic/contracts/finality.py:74-88 | The watermark day is at most two days before the offset day and at most four before the ideal one, with the exact conditions for either extreme |
| Watermarks.PrevBusinessDayIsLatest | canonic/contracts/finality.py:39-49 | It is the latest weekday not after the given day |
| Watermarks.OffsetIsBusinessDaysIff | canonic/contracts/finality.py:22-28 | `business_day - n days` is the n-th business day back exactly while at most one weekend day is crossed, so always for one day |
| Watermarks.MondayMinusThree | canonic/contracts/finality.py:22-28 | Three days before a Monday the watermark is on the Friday; the third business day back is the Wednesday |
| Finality.ValidateRule | canonic/contracts/finality.py:92-152 | A rule is accepted exactly when it has one final realization, otherwise provisional ones, known sources, a readable watermark and zone, and a coalescing that names declared roles; otherwise the first fault in the order of the checks is reported |
| FinalityUnion.GatesPartition | canonic/compiler/_helpers.py:1401-1409 | Every row with a time passes exactly one of the two gates, a row without one neither |
| Watermarks.FinalRowsByDay | canonic/contracts/finality.py:52-57 | A row is final exactly when it lies before the watermark day, or on it and not past 23:59:59.000000 |
| Watermarks.LastSecondIsLater | canonic/contracts/finality.py:52-57 | A row a microsecond into the last second of the watermark day is provisional |
| FinalityUnion.BuildFinalityUnion | canonic/compiler/_helpers.py:1328-1485 | One gated, marked branch per realization in declaration order, deduplicated where its joins fan out, or the refusal of the first realization that is unknown, lacks a measure, does not reach a dimension or would inflate a measure |
| FinalityUnion.UnionConservesIff | canonic/compiler/_helpers.py:1482-1485 | With the same rows in every source of a valid rule, fanned out or not, the union adds up to the single source exactly when there is one provisional source or the rows later than the watermark add up to nothing |
| FinalityUnion.TwoProvisionalsCountTwice | canonic/compiler/_helpers.py:1482-1485 | A valid rule with two provisional sources counts a late row of 5 as 10 |
| FinalityUnion.FinalitySplitConservesEachTuple | canonic/compiler/_helpers.py:1401-1409 | For each output tuple the final and the provisional part make up the single-source total over rows with a time |
| Tenants.NormalizeTenants | canonic/contracts/principal.py:75-91 | A claim list resolves to its distinct values in sorted order, or to the refusal of a bad element, then of too many values |
| Tenants.OrderAndRepetitionDoNotMatter | canonic/contracts/principal.py:78-83 | Claim lists with the same elements normalise alike |
| Tenants.NormalizingTwice | canonic/contracts/principal.py:75-91 | A normalised list normalises to itself |
| Tenants.ListingIsUnique | canonic/contracts/principal.py:49-51 | The sort key leaves one sorted listing of any set of tenants |
| Tenancy.TenantLiterals | canonic/compiler/_helpers.py:451-476 | Literals are the tenants matched to the column's type, deduplicated after matching and sorted; one unmatchable tenant refuses |
| Tenancy.NumberAndTextCollapse | canonic/compiler/_helpers.py:456-462 | A number and its text become one literal exactly on a typed column |
| Tenancy.TenantConditions | canonic/compiler/_helpers.py:502-576 | Every joined alias of a scoped source gets its predicate and no other alias does; the first faulty alias decides the refusal; an exempt principal gets none |
| Tenancy.HoldsMeans | canonic/compiler/_helpers.py:479-492 | The emitted `=` or `IN` is true exactly for a non-NULL value among the listed ones |
| Tenancy.ScopedLeafReads | canonic/compiler/leaf.py:533-550 | A leaf reads exactly the rows with an allowed tenant in every joined scoped alias that pass all other conditions |
| Tenancy.FiltersOnlyNarrow | canonic/compiler/leaf.py:502-550 | What is read with the caller's filters is permitted, and is read by the query without them and without the joins they pulled in |
| Tenancy.FewerTenantsReadLessIff | canonic/compiler/_helpers.py:540-550 | Fewer tenants permit no more rows, on all rows, if and only if the smaller list is not empty, or the larger is empty too, or nothing joined is scoped |
| Tenancy.NoTenantReadsMore | canonic/compiler/_helpers.py:543-546 | Without a tenant a row of NULLs is read through a scoped alias; with one it is not |
| Tenancy.MoreJoinsReadLess | canonic/compiler/_helpers.py:513-519 | More joined aliases never permit more rows |
| PlannedQueries.PlannedLeafReadsPermitted | canonic/compiler/leaf.py:533-550 | Every row a planned leaf reads carries an allowed tenant in every joined scoped alias, whatever else its WHERE says |
| Credentials.CachingProvider.FetchIfStale | canonic/credentials.py:188-200 | One call returns the held credential while fresh, else stores a non-blank fetch; a failed or blank fetch leaves the cache as it was |
| Credentials.CachingProvider.CachedValue | canonic/credentials.py:174-186 | The held credential, or an error before the first fetch |
| Credentials.RunKeeps | canonic/credentials.py:188-200 | Under every interleaving one thread at a time is past the lock, the cache is the last stored fetch, and each returned credential was fresh at its check or fetched in that call |
| Credentials.InterleavedIsAtomic | canonic/credentials.py:188-200 | However calls interleave, each acts as one whole call made at its check, and nothing else touches the cache |
| Credentials.CacheNeverLost | canonic/credentials.py:150-154 | Nothing ever empties the cache, and only a store after a stale check changes it |
| Credentials.FetchesAreBounded | canonic/credentials.py:85-89 | If each stored credential lives at least the skew plus L, a run of length T makes at most T / L + 1 successful fetches |
| Credentials.StaticIsFetchedOnce | canonic/credentials.py:85-89 | A credential without expiry is fetched once |

## Left out

- A tenant claim that is a single value: it is the list of that value.
- Parsing, rendering and quoting of SQL: expressions and conditions are datatypes, their meaning is given here.
- The name order of CTEs: any order is covered, so is any order of join targets, where the source sorts by text.
- How ON clauses are rewritten to aliases and WHERE conditions to a finality branch's source: text functions, parameters of `LeafSpecs.Text` and `LeafSpecs.Schema`; the joins a branch plans for itself are modelled.
- The builders of non-additive strategies: a parameter (`LeafSpecs.World`) that sees the strategy, its parameters, the selected rows and, where the leaf wraps one measure, that measure.
- The hidden zero-denominator columns on the visibility path: the statement reads back dimensions and metrics only (compose.py:653-669) and drops them; the model does the same.
- RATIO_RAW under division by zero: the engine raises; `ZeroDenominators.Faults` says when, and no value is claimed.
- Measures other than SUM, COUNT, COUNT(*), MIN and MAX, percentile rewrites, column masking and JSON access.
- Dialects other than SQLite and MySQL in date steps and truncation: they use the engine's own functions.
- Rounding and decimal precision: measures are reals.
- The strategies that plan semi-additive, conversion and cumulative metrics: planned leaves and metric plans are inputs, under the premises above.
- Watermark texts as instants: the merge compares texts (compose.py:516), as the model does, which is the order of instants only under equal UTC offsets.
- Time zones, the clock and UTC offsets: a watermark is wall-clock time in the rule's zone, seen from a reference day.
- The grammar of watermark expressions and the reading of integers from text: parameters.
- Years outside 0 to 9999, where text no longer compares as dates; minute and hour steps and timestamps that keep a time of day.
- Guardrail enforcement, population-filter binding and role policy: they are opaque conditions in `Tenancy`.
- What a provider does inside its fetch, and retries: an answer is an input of a call; failed fetches are not bounded.
- `via` in the exactness theorems: with `via` only the shape of the plan is proved (`JoinPlan.PlansAreJoinable`).
- Latest-period probes, related queries, warning texts, trust scoring, connectors, configuration and the command line.
