/** The finality watermark: the end of a business day. */
module Watermarks {
  import Calendar

  // ---------------------------------------------------------------- business days

  predicate IsBusinessDay(n: int) {
    Calendar.Weekday(n) < 5
  }

  /** The day itself, or the Friday before a weekend. */
  function PrevBusinessDay(n: int): int {
    if Calendar.Weekday(n) == 5 then n - 1
    else if Calendar.Weekday(n) == 6 then n - 2
    else n
  }

  lemma {:induction false} PrevBusinessDayIsLatest(n: int)
    ensures IsBusinessDay(PrevBusinessDay(n)) && PrevBusinessDay(n) <= n
    ensures forall d :: IsBusinessDay(d) && d <= n ==> d <= PrevBusinessDay(n)
  {
    forall d | IsBusinessDay(d) && d <= n
      ensures d <= PrevBusinessDay(n)
    {
    }
  }

  lemma {:induction false} PrevBusinessDayMonotone(a: int, b: int)
    requires a <= b
    ensures PrevBusinessDay(a) <= PrevBusinessDay(b)
  {
    PrevBusinessDayIsLatest(a);
    PrevBusinessDayIsLatest(b);
  }

  // ---------------------------------------------------------------- the watermark

  const SECOND: int := 1000000
  const DAY_LENGTH: int := 86400 * SECOND

  /** A point of wall-clock time in the rule's zone, in microseconds. */
  function At(day: int, micros: int): int {
    DAY_LENGTH * day + micros
  }

  function DayOf(t: int): int {
    t / DAY_LENGTH
  }

  /** A watermark expression: `business_day`, alone or with a number of days added or taken away. */
  datatype Watermark = Unreadable | BusinessDay | Offset(plus: bool, days: nat)

  /** Why a watermark or a finality rule is refused. */
  datatype Failure =
    | UnknownZone | UnsupportedWatermark | UnknownRole | UndeclaredSource | NotOneFinal
    | MissingWatermark | MissingZone | CoalescingRole

  datatype Result<+T> = Ok(value: T) | Err(failure: Failure)

  function OffsetOf(w: Watermark): int {
    match w
    case Offset(plus, days) => if plus then days as int else -(days as int)
    case _ => 0
  }

  /** The day the watermark lies on, seen from a reference day. */
  function WatermarkDay(w: Watermark, today: int): int {
    PrevBusinessDay(PrevBusinessDay(today) + OffsetOf(w))
  }

  /** 23:59:59 on the watermark day. */
  function EvaluateWatermark(w: Watermark, zoneKnown: bool, today: int): Result<int> {
    if !zoneKnown then Err(UnknownZone)
    else if w.Unreadable? then Err(UnsupportedWatermark)
    else Ok(At(WatermarkDay(w, today), 86399 * SECOND))
  }

  lemma {:induction false} AtRoundTrip(day: int, micros: int)
    requires 0 <= micros < DAY_LENGTH
    ensures DayOf(At(day, micros)) == day
  {
  }

  /** A watermark is 23:59:59 of a business day. */
  lemma {:induction false} WatermarkIsEndOfBusinessDay(w: Watermark, zoneKnown: bool, today: int)
    ensures EvaluateWatermark(w, zoneKnown, today).Ok? <==> zoneKnown && !w.Unreadable?
    ensures EvaluateWatermark(w, zoneKnown, today).Ok? ==>
      var t := EvaluateWatermark(w, zoneKnown, today).value;
      IsBusinessDay(DayOf(t)) && t == At(DayOf(t), 86399 * SECOND)
  {
    AtRoundTrip(WatermarkDay(w, today), 86399 * SECOND);
    PrevBusinessDayIsLatest(PrevBusinessDay(today) + OffsetOf(w));
  }

  /** A later reference day never moves the watermark back. */
  lemma {:induction false} WatermarkIsMonotone(w: Watermark, zoneKnown: bool, a: int, b: int)
    requires a <= b && EvaluateWatermark(w, zoneKnown, a).Ok?
    ensures EvaluateWatermark(w, zoneKnown, b).Ok?
    ensures EvaluateWatermark(w, zoneKnown, a).value <= EvaluateWatermark(w, zoneKnown, b).value
  {
    PrevBusinessDayMonotone(a, b);
    PrevBusinessDayMonotone(PrevBusinessDay(a) + OffsetOf(w), PrevBusinessDay(b) + OffsetOf(w));
  }

  /** The watermark day is the offset from the business day, or up to two days before it; counted
      from the reference day it is at most four days off, and not off exactly between weekdays. */
  lemma {:induction false} WatermarkDayBounds(w: Watermark, today: int)
    ensures var base := PrevBusinessDay(today) + OffsetOf(w);
      base - 2 <= WatermarkDay(w, today) <= base
    ensures var ideal := today + OffsetOf(w);
      && ideal - 4 <= WatermarkDay(w, today) <= ideal
      && (WatermarkDay(w, today) == ideal <==> IsBusinessDay(today) && IsBusinessDay(ideal))
      && (WatermarkDay(w, today) == ideal - 4 <==>
          Calendar.Weekday(today) == 6 && Calendar.Weekday(ideal - 2) == 6)
  {
  }

  /** The `n`-th business day before a business day. */
  function BusinessDaysBack(day: int, n: nat): int
    decreases n
  {
    if n == 0 then day else BusinessDaysBack(PrevBusinessDay(day - 1), n - 1)
  }

  lemma {:induction false} BackAtMost(day: int, n: nat)
    requires IsBusinessDay(day)
    ensures IsBusinessDay(BusinessDaysBack(day, n))
    ensures BusinessDaysBack(day, n) <= day - n
    ensures n <= Calendar.Weekday(day) ==> BusinessDaysBack(day, n) == day - n
    ensures n > Calendar.Weekday(day) ==> BusinessDaysBack(day, n) <= day - n - 2
    decreases n
  {
    if n > 0 {
      BusinessDayBefore(day);
      BackAtMost(PrevBusinessDay(day - 1), n - 1);
    }
  }

  lemma {:induction false} BusinessDayBefore(day: int)
    requires IsBusinessDay(day)
    ensures IsBusinessDay(PrevBusinessDay(day - 1))
    ensures var w, before := Calendar.Weekday(day), PrevBusinessDay(day - 1);
      if w > 0 then before == day - 1 && Calendar.Weekday(before) == w - 1
      else before == day - 3 && Calendar.Weekday(before) == 4
  {
  }

  /** `business_day - n days` counts calendar days. It is the n-th business day back, T-n, exactly
      as long as at most one day of the weekend is crossed; always so for `- 1 day`. */
  lemma {:induction false} OffsetIsBusinessDaysIff(today: int, n: nat)
    ensures var base := PrevBusinessDay(today);
      WatermarkDay(Offset(false, n), today) == BusinessDaysBack(base, n) <==> n <= Calendar.Weekday(base) + 1
  {
    var base := PrevBusinessDay(today);
    PrevBusinessDayIsLatest(today);
    BackAtMost(base, n);
    if n == Calendar.Weekday(base) + 1 {
      FridayBefore(base, n);
    } else if n > Calendar.Weekday(base) + 1 {
      FurtherBack(base, n);
    }
  }

  lemma {:induction false} FridayBefore(base: int, n: nat)
    requires IsBusinessDay(base) && n == Calendar.Weekday(base) + 1
    ensures BusinessDaysBack(base, n) == PrevBusinessDay(base - n)
  {
    var k := Calendar.Weekday(base);
    BackSplit(base, k, 1);
    BackAtMost(base, k);
    assert BusinessDaysBack(base - k, 1) == BusinessDaysBack(PrevBusinessDay(base - k - 1), 0);
  }

  lemma {:induction false} BackSplit(day: int, a: nat, b: nat)
    ensures BusinessDaysBack(day, a + b) == BusinessDaysBack(BusinessDaysBack(day, a), b)
    decreases a
  {
    if a > 0 {
      BackSplit(PrevBusinessDay(day - 1), a - 1, b);
    }
  }

  lemma {:induction false} FridayGap(friday: int, j: nat, x: int)
    requires Calendar.Weekday(friday) == 4 && j > 0
    requires x <= (if j <= 4 then friday - j else friday - j - 2)
    ensures x < PrevBusinessDay(friday + 2 - j)
  {
  }

  lemma {:induction false} FromFriday(friday: int, j: nat)
    requires Calendar.Weekday(friday) == 4 && j > 0
    ensures BusinessDaysBack(friday, j) < PrevBusinessDay(friday + 2 - j)
  {
    BackAtMost(friday, j);
    FridayGap(friday, j, BusinessDaysBack(friday, j));
  }

  lemma {:induction false} FridayOfLastWeek(base: int)
    requires IsBusinessDay(base)
    ensures var k := Calendar.Weekday(base);
      Calendar.Weekday(base - k - 3) == 4 && PrevBusinessDay(base - k - 1) == base - k - 3
  {
  }

  lemma {:induction false} FurtherBack(base: int, n: nat)
    requires IsBusinessDay(base) && n > Calendar.Weekday(base) + 1
    ensures BusinessDaysBack(base, n) < PrevBusinessDay(base - n)
  {
    var k := Calendar.Weekday(base);
    BackSplit(base, k + 1, n - k - 1);
    FridayBefore(base, k + 1);
    FridayOfLastWeek(base);
    FromFriday(base - k - 3, n - k - 1);
  }

  /** Three days before a Monday: the watermark is on the Friday, the third business day back is the
      Wednesday. */
  lemma {:induction false} MondayMinusThree(monday: int)
    requires Calendar.Weekday(monday) == 0
    ensures WatermarkDay(Offset(false, 3), monday) == monday - 3
    ensures BusinessDaysBack(PrevBusinessDay(monday), 3) == monday - 5
  {
    var friday := PrevBusinessDay(monday - 1);
    BusinessDayBefore(monday);
    BusinessDayBefore(friday);
    BusinessDayBefore(friday - 1);
    assert BusinessDaysBack(monday, 3) == BusinessDaysBack(friday, 2);
    assert BusinessDaysBack(friday, 2) == BusinessDaysBack(friday - 1, 1);
    assert BusinessDaysBack(friday - 1, 1) == BusinessDaysBack(friday - 2, 0);
  }

  // ---------------------------------------------------------------- times of day

  /** A final row lies on or before the watermark day. Conversely such a row is final unless it
      falls after the first microsecond of the day's last second. */
  lemma {:induction false} FinalRowsByDay(w: Watermark, today: int, t: int)
    requires !w.Unreadable?
    ensures var cut := EvaluateWatermark(w, true, today).value;
      t <= cut <==> DayOf(t) <= DayOf(cut) && (DayOf(t) == DayOf(cut) ==> t % DAY_LENGTH <= 86399 * SECOND)
  {
    var day := WatermarkDay(w, today);
    AtRoundTrip(day, 86399 * SECOND);
    assert t == At(DayOf(t), t % DAY_LENGTH);
    DaysApart(DayOf(t), day, t % DAY_LENGTH);
  }

  lemma {:induction false} DaysApart(a: int, b: int, micros: int)
    requires 0 <= micros < DAY_LENGTH
    ensures a < b ==> At(a, micros) < At(b, 86399 * SECOND)
    ensures a > b ==> At(a, micros) > At(b, 86399 * SECOND)
  {
  }

  /** A row in the last second of the watermark day is later than the watermark. */
  lemma {:induction false} LastSecondIsLater(w: Watermark, today: int)
    requires !w.Unreadable?
    ensures var t := At(WatermarkDay(w, today), 86399 * SECOND + 1);
      && DayOf(t) == WatermarkDay(w, today)
      && t > EvaluateWatermark(w, true, today).value
  {
    AtRoundTrip(WatermarkDay(w, today), 86399 * SECOND + 1);
  }
}
