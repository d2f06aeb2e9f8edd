/** Gregorian dates, and the date steps and truncations the dialects emit. */
module Calendar {

  // ---------------------------------------------------------------- the calendar

  datatype Civil = Civil(year: int, month: int, day: int)

  predicate Leap(y: int) {
    y % 4 == 0 && (y % 100 != 0 || y % 400 == 0)
  }

  function MonthLength(y: int, m: int): int {
    if m == 2 then (if Leap(y) then 29 else 28)
    else if m == 4 || m == 6 || m == 9 || m == 11 then 30
    else 31
  }

  predicate ValidDate(c: Civil) {
    1 <= c.month <= 12 && 1 <= c.day <= MonthLength(c.year, c.month)
  }

  type Date = c: Civil | ValidDate(c) witness Civil(1, 1, 1)

  /** The months in order, month 0 being January of year 0. */
  function MonthIndex(c: Civil): int {
    12 * c.year + c.month - 1
  }

  function OfMonth(k: int, day: int): Civil {
    Civil(k / 12, k % 12 + 1, day)
  }

  function Length(k: int): (r: int)
    ensures 28 <= r <= 31
  {
    MonthLength(k / 12, k % 12 + 1)
  }

  /** `f` numbers the first days of the months through: day 1 is January 1 of year 1. */
  ghost predicate NumbersMonths(f: int -> int) {
    f(12) == 1 && forall k :: Follows(f, k)
  }

  ghost predicate Follows(f: int -> int, k: int) {
    f(k + 1) == f(k) + Length(k)
  }

  function Counted(k: int): int
    decreases if k < 12 then 12 - k else k - 12
  {
    if k == 12 then 1
    else if k > 12 then Counted(k - 1) + Length(k - 1)
    else Counted(k + 1) - Length(k)
  }

  lemma {:induction false} NumberingExists()
    ensures exists f :: NumbersMonths(f)
  {
    var f := (k: int) => Counted(k);
    forall k
      ensures Follows(f, k)
    {
    }
    assert NumbersMonths(f);
  }

  /** Number of the first day of a month. */
  ghost function MonthStart(k: int): int {
    NumberingExists();
    var f :| NumbersMonths(f);
    f(k)
  }

  /** Months follow each other without gap or overlap. */
  lemma {:induction false} MonthStep(k: int)
    ensures MonthStart(k + 1) == MonthStart(k) + Length(k)
  {
    NumberingExists();
    var f :| NumbersMonths(f) && MonthStart(k) == f(k) && MonthStart(k + 1) == f(k + 1);
    assert Follows(f, k);
  }

  lemma {:induction false} FirstMonth()
    ensures MonthStart(12) == 1
  {
  }

  ghost function DayNumber(c: Civil): int {
    MonthStart(MonthIndex(c)) + c.day - 1
  }

  /** Monday is 0. */
  function Weekday(n: int): int {
    (n - 1) % 7
  }

  predicate DateLe(a: Civil, b: Civil) {
    a.year < b.year || (a.year == b.year && (a.month < b.month || (a.month == b.month && a.day <= b.day)))
  }

  lemma {:induction false} MonthsAscend(a: int, b: int)
    requires a <= b
    ensures MonthStart(a) + 28 * (b - a) <= MonthStart(b)
    decreases b - a
  {
    if a < b {
      MonthsAscend(a, b - 1);
      MonthStep(b - 1);
    }
  }

  ghost function Distance(n: int, k: int): nat {
    if n < MonthStart(k) then MonthStart(k) - n
    else if n >= MonthStart(k + 1) then n - MonthStart(k + 1) + 1
    else 0
  }

  /** The month holding day `n`, looked for from month `k` on. */
  ghost function MonthOf(n: int, k: int): (r: int)
    ensures MonthStart(r) <= n < MonthStart(r) + Length(r)
    decreases Distance(n, k)
  {
    MonthStep(k);
    MonthStep(k - 1);
    MonthStep(k + 1);
    if n < MonthStart(k) then MonthOf(n, k - 1)
    else if n >= MonthStart(k + 1) then MonthOf(n, k + 1)
    else k
  }

  lemma {:induction false} DateExists(n: int)
    ensures exists c: Date :: DayNumber(c) == n
  {
    var k := MonthOf(n, 12);
    var c := OfMonth(k, n - MonthStart(k) + 1);
    IndexOfMonth(k, c.day);
    assert ValidDate(c) && DayNumber(c) == n;
  }

  /** The date with a given day number. */
  ghost function ToDate(n: int): (r: Date)
    ensures DayNumber(r) == n
  {
    DateExists(n);
    var c: Date :| DayNumber(c) == n;
    c
  }

  lemma {:induction false} IndexOrder(a: Date, b: Date)
    ensures DateLe(a, b) <==> MonthIndex(a) < MonthIndex(b) || (MonthIndex(a) == MonthIndex(b) && a.day <= b.day)
  {
  }

  lemma {:induction false} EarlierMonth(i: int, d: int, j: int, e: int)
    requires i < j && d <= Length(i) && 1 <= e
    ensures MonthStart(i) + d - 1 < MonthStart(j) + e - 1
  {
    MonthStep(i);
    MonthsAscend(i + 1, j);
  }

  /** Comparing year, month and day in turn is comparing day numbers. */
  lemma {:induction false} DateOrderIsDayOrder(a: Date, b: Date)
    ensures DateLe(a, b) <==> DayNumber(a) <= DayNumber(b)
  {
    IndexOrder(a, b);
    LengthOfOwnMonth(a);
    LengthOfOwnMonth(b);
    var i, j := MonthIndex(a), MonthIndex(b);
    if i < j {
      EarlierMonth(i, a.day, j, b.day);
    } else if j < i {
      EarlierMonth(j, b.day, i, a.day);
    }
  }

  /** Day numbers and dates are in bijection. */
  lemma {:induction false} DateRoundTrip(c: Date)
    ensures ToDate(DayNumber(c)) == c
  {
    var r := ToDate(DayNumber(c));
    DateOrderIsDayOrder(c, r);
    DateOrderIsDayOrder(r, c);
  }

  lemma {:induction false} LengthOfOwnMonth(c: Date)
    ensures c.day <= Length(MonthIndex(c))
    ensures OfMonth(MonthIndex(c), c.day) == c
  {
  }

  // ---------------------------------------------------------------- reference arithmetic

  function Lesser(a: int, b: int): int {
    if a <= b then a else b
  }

  /** Calendar month addition, clamped to the last day of the target month. */
  function AddMonths(c: Date, n: int): Date {
    var k := MonthIndex(c) + n;
    OfMonth(k, Lesser(c.day, Length(k)))
  }

  ghost function AddDays(c: Date, n: int): Date {
    ToDate(DayNumber(c) + n)
  }

  datatype DateUnit = Day | Week | Month | Quarter | Year

  function MonthsIn(u: DateUnit): int {
    match u
    case Month => 1
    case Quarter => 3
    case Year => 12
    case _ => 0
  }

  /** A date moved by `n` units, as the semantic layer moves it. */
  ghost function AddToDate(c: Date, n: int, u: DateUnit): Date {
    match u
    case Day => AddDays(c, n)
    case Week => AddDays(c, 7 * n)
    case _ => AddMonths(c, MonthsIn(u) * n)
  }

  // ---------------------------------------------------------------- SQLite

  /** The modifiers of SQLite's DATE(). */
  datatype Modifier = StartOfDay | StartOfMonth | StartOfYear | Months(n: int) | Days(n: int) | NextSunday

  /** What one modifier does. A month step keeps the day of the month even where the month is
      shorter, and the surplus days run over into the next month. */
  ghost function Modified(c: Date, f: Modifier): Date {
    match f
    case StartOfDay => c
    case StartOfMonth => c.(day := 1)
    case StartOfYear => Civil(c.year, 1, 1)
    case Months(n) => ToDate(MonthStart(MonthIndex(c) + n) + c.day - 1)
    case Days(n) => ToDate(DayNumber(c) + n)
    case NextSunday => ToDate(DayNumber(c) + 6 - Weekday(DayNumber(c)))
  }

  ghost function DateOf(c: Date, modifiers: seq<Modifier>): Date
    decreases |modifiers|
  {
    if modifiers == [] then c else DateOf(Modified(c, modifiers[0]), modifiers[1..])
  }

  /** MIN over two dates in their text form. */
  function MinDate(a: Date, b: Date): Date {
    if DateLe(a, b) then a else b
  }

  datatype Step = DayStep(n: int) | MonthStepBy(n: int)

  function NormalizeStep(n: int, u: DateUnit): Step {
    match u
    case Day => DayStep(n)
    case Week => DayStep(7 * n)
    case _ => MonthStepBy(MonthsIn(u) * n)
  }

  /** The SQLite expression for a date moved by `n` units. */
  ghost function SqliteDateAdd(c: Date, n: int, u: DateUnit): Date {
    match NormalizeStep(n, u)
    case DayStep(k) => DateOf(c, [Days(k)])
    case MonthStepBy(k) =>
      var shifted := DateOf(c, [StartOfMonth, Months(k), Days(c.day - 1)]);
      var monthEnd := DateOf(c, [StartOfMonth, Months(k + 1), Days(-1)]);
      MinDate(shifted, monthEnd)
  }

  lemma {:induction false} DayOfMonth(k: int, d: int)
    requires 1 <= d <= Length(k)
    ensures ValidDate(OfMonth(k, d)) && DayNumber(OfMonth(k, d)) == MonthStart(k) + d - 1
    ensures ToDate(MonthStart(k) + d - 1) == OfMonth(k, d)
  {
    IndexOfMonth(k, d);
    DateRoundTrip(OfMonth(k, d));
  }

  lemma {:induction false} IndexOfMonth(k: int, d: int)
    ensures MonthIndex(OfMonth(k, d)) == k
  {
  }

  lemma {:induction false} Unfold1(c: Date, f: Modifier)
    ensures DateOf(c, [f]) == Modified(c, f)
  {
    assert DateOf(c, [f]) == DateOf(Modified(c, f), []);
  }

  lemma {:induction false} Unfold2(c: Date, f: Modifier, g: Modifier)
    ensures DateOf(c, [f, g]) == Modified(Modified(c, f), g)
  {
    assert [f, g][1..] == [g];
    Unfold1(Modified(c, f), g);
  }

  lemma {:induction false} Unfold3(c: Date, f: Modifier, g: Modifier, h: Modifier)
    ensures DateOf(c, [f, g, h]) == Modified(Modified(Modified(c, f), g), h)
  {
    assert [f, g, h][1..] == [g, h];
    Unfold2(Modified(c, f), g, h);
  }

  lemma {:induction false} StartPlusMonths(c: Date, n: int, days: int)
    ensures DateOf(c, [StartOfMonth, Months(n), Days(days)]) == ToDate(MonthStart(MonthIndex(c) + n) + days)
  {
    Unfold3(c, StartOfMonth, Months(n), Days(days));
  }

  lemma {:induction false} MinByNumber(a: Date, b: Date)
    ensures MinDate(a, b) == if DayNumber(a) <= DayNumber(b) then a else b
  {
    DateOrderIsDayOrder(a, b);
  }

  lemma {:induction false} EarlierDay(start: int, length: int, d: int, a: Date, b: Date)
    requires DayNumber(a) == start + d - 1 && DayNumber(b) == start + length - 1
    ensures MinDate(a, b) == if d <= length then a else b
  {
    MinByNumber(a, b);
  }

  lemma {:induction false} ClampedDay(k: int, d: int)
    requires d >= 1
    ensures MinDate(ToDate(MonthStart(k) + d - 1), ToDate(MonthStart(k + 1) - 1)) == OfMonth(k, Lesser(d, Length(k)))
  {
    LastDay(k);
    EarlierDay(MonthStart(k), Length(k), d, ToDate(MonthStart(k) + d - 1), OfMonth(k, Length(k)));
    if d <= Length(k) {
      DayOfMonth(k, d);
    }
  }

  lemma {:induction false} LastDay(k: int)
    ensures ToDate(MonthStart(k + 1) - 1) == OfMonth(k, Length(k)) && ValidDate(OfMonth(k, Length(k)))
    ensures DayNumber(OfMonth(k, Length(k))) == MonthStart(k) + Length(k) - 1
  {
    MonthStep(k);
    DayOfMonth(k, Length(k));
  }

  /** The emitted month step is calendar month addition clamped to the month's last day. */
  lemma {:induction false} SqliteMonthStepClamps(c: Date, n: int)
    ensures MinDate(DateOf(c, [StartOfMonth, Months(n), Days(c.day - 1)]),
                    DateOf(c, [StartOfMonth, Months(n + 1), Days(-1)])) == AddMonths(c, n)
  {
    StartPlusMonths(c, n, c.day - 1);
    StartPlusMonths(c, n + 1, -1);
    ClampedDay(MonthIndex(c) + n, c.day);
  }

  /** On every date and for every step the SQLite rendering moves a date as the semantic layer does. */
  lemma {:induction false} SqliteDateAddIsAddToDate(c: Date, n: int, u: DateUnit)
    ensures SqliteDateAdd(c, n, u) == AddToDate(c, n, u)
  {
    match NormalizeStep(n, u)
    case DayStep(k) => assert DateOf(c, [Days(k)]) == DateOf(Modified(c, Days(k)), []);
    case MonthStepBy(k) => SqliteMonthStepClamps(c, k);
  }

  /** Shifted periods never reorder. */
  lemma {:induction false} AddToDateIsMonotone(a: Date, b: Date, n: int, u: DateUnit)
    requires DateLe(a, b)
    ensures DateLe(AddToDate(a, n, u), AddToDate(b, n, u))
  {
    DateOrderIsDayOrder(a, b);
    DateOrderIsDayOrder(AddToDate(a, n, u), AddToDate(b, n, u));
    if u != Day && u != Week {
      var k := MonthsIn(u) * n;
      IndexOrder(a, b);
      IndexOrder(AddMonths(a, k), AddMonths(b, k));
    }
  }

  /** SQLite's own month step is the clamped one exactly when the target month has the day. */
  lemma {:induction false} BareMonthStepIffDayExists(c: Date, n: int)
    ensures DateOf(c, [Months(n)]) == AddMonths(c, n) <==> c.day <= Length(MonthIndex(c) + n)
  {
    var k := MonthIndex(c) + n;
    assert DateOf(c, [Months(n)]) == DateOf(Modified(c, Months(n)), []);
    DayOfMonth(k, Lesser(c.day, Length(k)));
  }

  lemma {:induction false} Overflow(k: int, d: int)
    requires Length(k) < d <= Length(k) + Length(k + 1)
    ensures ToDate(MonthStart(k) + d - 1) == OfMonth(k + 1, d - Length(k))
  {
    MonthStep(k);
    DayOfMonth(k + 1, d - Length(k));
  }

  lemma {:induction false} FebruaryAndMarch(y: int)
    requires !Leap(y)
    ensures Length(12 * y + 1) == 28 && Length(12 * y + 2) == 31
    ensures OfMonth(12 * y + 1, 28) == Civil(y, 2, 28) && OfMonth(12 * y + 2, 3) == Civil(y, 3, 3)
  {
  }

  /** January 31 and one month: SQLite's own step runs into March, the emitted one does not. */
  lemma {:induction false} BareMonthStepOverflows(y: int)
    requires !Leap(y)
    ensures DateOf(Civil(y, 1, 31), [Months(1)]) == Civil(y, 3, 3)
    ensures SqliteDateAdd(Civil(y, 1, 31), 1, Month) == Civil(y, 2, 28)
  {
    var c: Date := Civil(y, 1, 31);
    FebruaryAndMarch(y);
    SqliteDateAddIsAddToDate(c, 1, Month);
    Unfold1(c, Months(1));
    Overflow(12 * y + 1, 31);
  }

  /** Two month steps in turn are one step exactly when the first loses no day that the second
      month would have had. */
  lemma {:induction false} MonthStepsComposeIff(c: Date, a: int, b: int)
    ensures AddMonths(AddMonths(c, a), b) == AddMonths(c, a + b) <==>
      var k := MonthIndex(c);
      c.day <= Length(k + a) || Length(k + a + b) <= Length(k + a)
  {
    assert MonthIndex(AddMonths(c, a)) == MonthIndex(c) + a;
  }

  // ---------------------------------------------------------------- DATE_TRUNC

  ghost predicate IsBucketStart(u: DateUnit, c: Date) {
    match u
    case Day => true
    case Week => Weekday(DayNumber(c)) == 0
    case Month => c.day == 1
    case Quarter => c.day == 1 && (c.month - 1) % 3 == 0
    case Year => c.day == 1 && c.month == 1
  }

  /** `r` is the latest bucket start that is not after `c`. */
  ghost predicate Truncates(u: DateUnit, c: Date, r: Date) {
    && IsBucketStart(u, r) && DateLe(r, c)
    && forall s: Date :: IsBucketStart(u, s) && DateLe(s, c) ==> DateLe(s, r)
  }

  ghost function SqliteTrunc(u: DateUnit, c: Date): Date {
    match u
    case Day => DateOf(c, [StartOfDay])
    case Week => DateOf(c, [NextSunday, Days(-6)])
    case Month => DateOf(c, [StartOfMonth])
    case Quarter => DateOf(c, [StartOfMonth, Months(-((c.month - 1) % 3))])
    case Year => DateOf(c, [StartOfYear])
  }

  function QuarterOf(c: Date): int {
    (c.month - 1) / 3 + 1
  }

  /** MAKEDATE(year, 1). */
  function NewYear(y: int): Date {
    Civil(y, 1, 1)
  }

  /** MySQL's DATE_SUB and DATE_ADD; a quarter step there is three clamped months. */
  ghost function MysqlTrunc(u: DateUnit, c: Date): Date {
    match u
    case Day => c
    case Week => AddDays(c, -Weekday(DayNumber(c)))
    case Month => AddDays(c, -(c.day - 1))
    case Quarter => AddMonths(NewYear(c.year), 3 * (QuarterOf(c) - 1))
    case Year => NewYear(c.year)
  }

  lemma {:induction false} LatestMonday(x: int, n: int)
    requires Weekday(x) == 0 && x <= n
    ensures x <= n - Weekday(n)
  {
  }

  lemma {:induction false} MondayOf(n: int)
    ensures Weekday(n - Weekday(n)) == 0 && n - Weekday(n) <= n
  {
  }

  lemma {:induction false} WeekTruncates(c: Date)
    ensures Truncates(Week, c, ToDate(DayNumber(c) - Weekday(DayNumber(c))))
  {
    var n := DayNumber(c);
    var r := ToDate(n - Weekday(n));
    MondayOf(n);
    DateOrderIsDayOrder(r, c);
    forall s: Date | IsBucketStart(Week, s) && DateLe(s, c)
      ensures DateLe(s, r)
    {
      DateOrderIsDayOrder(s, c);
      LatestMonday(DayNumber(s), n);
      DateOrderIsDayOrder(s, r);
    }
  }

  /** The first month of the quarter. */
  function QuarterStart(c: Date): Date {
    Civil(c.year, 3 * ((c.month - 1) / 3) + 1, 1)
  }

  lemma {:induction false} QuarterTruncates(c: Date)
    ensures Truncates(Quarter, c, QuarterStart(c))
  {
  }

  lemma {:induction false} StartThenMonths(c: Date, n: int)
    ensures DateOf(c, [StartOfMonth, Months(n)]) == OfMonth(MonthIndex(c) + n, 1)
  {
    Unfold2(c, StartOfMonth, Months(n));
    DayOfMonth(MonthIndex(c) + n, 1);
  }

  lemma {:induction false} SqliteQuarter(c: Date)
    ensures SqliteTrunc(Quarter, c) == QuarterStart(c)
  {
    StartThenMonths(c, -((c.month - 1) % 3));
    BackToQuarter(c);
  }

  lemma {:induction false} BackToQuarter(c: Date)
    ensures OfMonth(MonthIndex(c) - (c.month - 1) % 3, 1) == QuarterStart(c)
  {
  }

  /** The SQLite rewrite finds the latest bucket start that is not after the date. */
  lemma {:induction false} SqliteTruncates(u: DateUnit, c: Date)
    ensures Truncates(u, c, SqliteTrunc(u, c))
  {
    match u
    case Day => Unfold1(c, StartOfDay);
    case Week =>
      Unfold2(c, NextSunday, Days(-6));
      WeekTruncates(c);
    case Month => Unfold1(c, StartOfMonth);
    case Quarter =>
      SqliteQuarter(c);
      QuarterTruncates(c);
    case Year => Unfold1(c, StartOfYear);
  }

  /** So does the MySQL rewrite. */
  lemma {:induction false} MysqlTruncates(u: DateUnit, c: Date)
    ensures Truncates(u, c, MysqlTrunc(u, c))
  {
    match u
    case Day =>
    case Week => WeekTruncates(c);
    case Month => DayOfMonth(MonthIndex(c), 1);
    case Quarter =>
      assert MysqlTrunc(Quarter, c) == QuarterStart(c);
      QuarterTruncates(c);
    case Year =>
  }

  lemma {:induction false} BucketIsUnique(u: DateUnit, c: Date, r: Date, s: Date)
    requires Truncates(u, c, r) && Truncates(u, c, s)
    ensures r == s
  {
    assert DateLe(r, s) && DateLe(s, r);
  }

  /** Both rewrites put every date into the same bucket. */
  lemma {:induction false} TruncationsAgree(u: DateUnit, c: Date)
    ensures SqliteTrunc(u, c) == MysqlTrunc(u, c)
  {
    SqliteTruncates(u, c);
    MysqlTruncates(u, c);
    BucketIsUnique(u, c, SqliteTrunc(u, c), MysqlTrunc(u, c));
  }

  /** Truncating to a finer unit first changes nothing, and neither does truncating twice. */
  lemma {:induction false} TruncationsNest(fine: DateUnit, coarse: DateUnit, c: Date)
    requires forall s: Date :: IsBucketStart(coarse, s) ==> IsBucketStart(fine, s)
    ensures SqliteTrunc(coarse, SqliteTrunc(fine, c)) == SqliteTrunc(coarse, c)
  {
    var f := SqliteTrunc(fine, c);
    SqliteTruncates(fine, c);
    SqliteTruncates(coarse, f);
    SqliteTruncates(coarse, c);
    assert Truncates(coarse, c, SqliteTrunc(coarse, f)) by {
      forall s: Date | IsBucketStart(coarse, s) && DateLe(s, c)
        ensures DateLe(s, SqliteTrunc(coarse, f))
      {
        assert DateLe(s, f);
      }
    }
    BucketIsUnique(coarse, c, SqliteTrunc(coarse, f), SqliteTrunc(coarse, c));
  }

  lemma {:induction false} TruncationIsIdempotent(u: DateUnit, c: Date)
    ensures SqliteTrunc(u, SqliteTrunc(u, c)) == SqliteTrunc(u, c)
    ensures MysqlTrunc(u, MysqlTrunc(u, c)) == MysqlTrunc(u, c)
  {
    TruncationsNest(u, u, c);
    TruncationsAgree(u, c);
    TruncationsAgree(u, SqliteTrunc(u, c));
  }

  lemma {:induction false} MonthTruncIff(a: Date, b: Date)
    ensures SqliteTrunc(Month, a) == SqliteTrunc(Month, b) <==> MonthIndex(a) == MonthIndex(b)
  {
    Unfold1(a, StartOfMonth);
    Unfold1(b, StartOfMonth);
  }

  /** Weeks do not nest in months: bucketing by week and then by month agrees with bucketing by
      month exactly on the dates whose week begins in their own month. */
  lemma {:induction false} WeeksNestInMonthsIff(c: Date)
    ensures SqliteTrunc(Month, SqliteTrunc(Week, c)) == SqliteTrunc(Month, c) <==> Weekday(DayNumber(c)) < c.day
  {
    var k, w := MonthIndex(c), SqliteTrunc(Week, c);
    Unfold2(c, NextSunday, Days(-6));
    assert DayNumber(w) == DayNumber(c) - Weekday(DayNumber(c));
    MonthTruncIff(w, c);
    LengthOfOwnMonth(w);
    LengthOfOwnMonth(c);
    if MonthIndex(w) < k {
      EarlierMonth(MonthIndex(w), w.day, k, 1);
    } else if MonthIndex(w) > k {
      EarlierMonth(k, c.day, MonthIndex(w), 1);
    }
  }

  // ---------------------------------------------------------------- ordinals

  function DaysBeforeYear(y: int): int {
    365 * (y - 1) + (y - 1) / 4 - (y - 1) / 100 + (y - 1) / 400
  }

  function DaysBeforeMonth(y: int, m: int): int {
    (if m == 1 then 0 else if m == 2 then 31 else if m == 3 then 59 else if m == 4 then 90
     else if m == 5 then 120 else if m == 6 then 151 else if m == 7 then 181 else if m == 8 then 212
     else if m == 9 then 243 else if m == 10 then 273 else if m == 11 then 304 else 334)
    + (if m > 2 && Leap(y) then 1 else 0)
  }

  lemma {:induction false} QuotientStep(y: int, n: int)
    requires n == 4 || n == 100 || n == 400
    ensures y / n == (y - 1) / n + (if y % n == 0 then 1 else 0)
  {
  }

  lemma {:induction false} Divisors(y: int)
    ensures y % 400 == 0 ==> y % 100 == 0
    ensures y % 100 == 0 ==> y % 4 == 0
  {
  }

  lemma {:induction false} YearStep(y: int)
    ensures DaysBeforeYear(y + 1) == DaysBeforeYear(y) + (if Leap(y) then 366 else 365)
  {
    QuotientStep(y, 4);
    QuotientStep(y, 100);
    QuotientStep(y, 400);
    Divisors(y);
  }

  function Ordinal(k: int): int {
    DaysBeforeYear(k / 12) + DaysBeforeMonth(k / 12, k % 12 + 1) + 1
  }

  lemma {:induction false} OrdinalStep(k: int)
    ensures Ordinal(k + 1) == Ordinal(k) + Length(k)
  {
    var y, m := k / 12, k % 12 + 1;
    if m == 12 {
      assert (k + 1) / 12 == y + 1 && (k + 1) % 12 == 0;
      YearStep(y);
    } else {
      assert (k + 1) / 12 == y && (k + 1) % 12 == m;
    }
  }

  /** Counting month by month gives the closed Gregorian formula. */
  lemma {:induction false} MonthStartIsOrdinal(k: int)
    ensures MonthStart(k) == Ordinal(k)
    decreases if k < 12 then 12 - k else k - 12
  {
    if k > 12 {
      MonthStartIsOrdinal(k - 1);
      OrdinalStep(k - 1);
      MonthStep(k - 1);
    } else if k < 12 {
      MonthStartIsOrdinal(k + 1);
      OrdinalStep(k);
      MonthStep(k);
    } else {
      FirstMonth();
    }
  }
}
