/** The day spine: one row per calendar day, numbered by a cross join of digit rows. */
module DaySpine {
  import opened Relational

  const MAX_SPINE_DAYS: int := 100000
  const DIGITS: nat := 5

  function Pow10(n: nat): (r: nat)
    ensures r > 0
  {
    if n == 0 then 1 else 10 * Pow10(n - 1)
  }

  // ---------------------------------------------------------------- digits

  /** The rows 0 to 9, as a chain of UNION ALL. */
  method DigitsSelect() returns (rows: seq<nat>)
    ensures |rows| == 10 && forall d :: 0 <= d < 10 ==> rows[d] == d
  {
    rows := [0];
    for d := 1 to 10
      invariant |rows| == d && forall k :: 0 <= k < d ==> rows[k] == k
    {
      rows := rows + [d];
    }
  }

  /** One joined row: the digit taken from each table, the units first. */
  type Row = seq<nat>

  /** `d0.n + 10 * d1.n + 100 * d2.n + ...` */
  function Number(row: Row): nat {
    if row == [] then 0
    else Number(row[..|row| - 1]) + Pow10(|row| - 1) * row[|row| - 1]
  }

  function WithDigit(row: Row): nat -> Row {
    (d: nat) => row + [d]
  }

  function Beside(digits: seq<nat>): Row -> seq<Row> {
    (row: Row) => Map(digits, WithDigit(row))
  }

  function Cross(rows: seq<Row>, digits: seq<nat>): seq<Row> {
    Flatten(Map(rows, Beside(digits)))
  }

  ghost predicate IsDigits(digits: seq<nat>) {
    |digits| == 10 && forall d :: 0 <= d < 10 ==> digits[d] == d
  }

  ghost predicate DigitRow(row: Row, width: nat) {
    |row| == width && forall k :: 0 <= k < width ==> row[k] < 10
  }

  /** Every row of `width` digits, once. */
  ghost predicate AllRows(rows: seq<Row>, width: nat) {
    NoDup(rows) && forall row: Row :: row in rows <==> DigitRow(row, width)
  }

  lemma {:induction false} CrossMembers(rows: seq<Row>, digits: seq<nat>, row: Row)
    requires IsDigits(digits)
    ensures row in Cross(rows, digits) <==> row != [] && row[..|row| - 1] in rows && row[|row| - 1] < 10
  {
    var parts := Map(rows, Beside(digits));
    if row in Cross(rows, digits) {
      assert InSome(row, parts);
      var i :| 0 <= i < |parts| && row in parts[i];
      var d :| 0 <= d < 10 && parts[i][d] == row;
      assert row == rows[i] + [d] && row[..|row| - 1] == rows[i];
    }
    if row != [] && row[..|row| - 1] in rows && row[|row| - 1] < 10 {
      var i :| 0 <= i < |rows| && rows[i] == row[..|row| - 1];
      assert parts[i][row[|row| - 1]] == row;
      assert row in parts[i];
      assert InSome(row, parts);
    }
  }

  lemma {:induction false} CrossNoDup(rows: seq<Row>, digits: seq<nat>)
    requires NoDup(rows) && IsDigits(digits)
    ensures NoDup(Cross(rows, digits))
  {
    if rows != [] {
      var n := |rows| - 1;
      CrossNoDup(rows[..n], digits);
      assert Map(rows, Beside(digits))[..n] == Map(rows[..n], Beside(digits));
      assert Cross(rows, digits) == Cross(rows[..n], digits) + Beside(digits)(rows[n]);
      var last := Beside(digits)(rows[n]);
      forall i, j | 0 <= i < j < |last|
        ensures last[i] != last[j]
      {
        assert last[i][|rows[n]|] == i && last[j][|rows[n]|] == j;
      }
      forall x | x in last
        ensures x !in Cross(rows[..n], digits)
      {
        CrossMembers(rows[..n], digits, x);
        var d :| 0 <= d < 10 && last[d] == x;
        assert x[..|x| - 1] == rows[n];
      }
      NoDupAppend(Cross(rows[..n], digits), last);
    }
  }

  lemma {:induction false} CrossAllRows(rows: seq<Row>, digits: seq<nat>, width: nat)
    requires AllRows(rows, width) && IsDigits(digits)
    ensures AllRows(Cross(rows, digits), width + 1)
  {
    CrossNoDup(rows, digits);
    forall row: Row
      ensures row in Cross(rows, digits) <==> DigitRow(row, width + 1)
    {
      CrossMembers(rows, digits, row);
      if row != [] && |row| == width + 1 {
        assert row == row[..width] + [row[width]];
      }
    }
  }

  // ---------------------------------------------------------------- numbers

  lemma {:induction false} NumberBound(row: Row, width: nat)
    requires DigitRow(row, width)
    ensures Number(row) < Pow10(width)
  {
    if width > 0 {
      NumberBound(row[..width - 1], width - 1);
      Scale(Pow10(width - 1), row[width - 1], 9);
    }
  }

  lemma {:induction false} Scale(p: nat, a: nat, b: nat)
    requires a <= b
    ensures p * a <= p * b
  {
    assert p * b - p * a == p * (b - a);
  }

  lemma {:induction false} DigitsOf(n: nat, width: nat) returns (row: Row)
    requires n < Pow10(width)
    ensures DigitRow(row, width) && Number(row) == n
  {
    if width == 0 {
      row := [];
    } else {
      var p := Pow10(width - 1);
      Quotient(n, p);
      var rest := DigitsOf(n % p, width - 1);
      row := rest + [n / p];
      assert row[..width - 1] == rest;
    }
  }

  lemma {:induction false} Quotient(n: nat, p: nat)
    requires p > 0 && n < 10 * p
    ensures n / p < 10 && n % p < p && n == n % p + p * (n / p)
  {
  }

  lemma {:induction false} Gap(p: nat, a: nat, x: nat, b: nat, y: nat)
    requires a < p
    ensures x < y ==> a + p * x < b + p * y
  {
    if x < y {
      Scale(p, x + 1, y);
      assert p * (x + 1) == p * x + p;
    }
  }

  lemma {:induction false} LastDigit(row: Row, k: nat)
    requires DigitRow(row, k + 1)
    ensures DigitRow(row[..k], k) && Number(row[..k]) < Pow10(k)
    ensures Number(row) == Number(row[..k]) + Pow10(k) * row[k]
  {
    NumberBound(row[..k], k);
  }

  lemma {:induction false} NumberInjective(a: Row, b: Row, width: nat)
    requires DigitRow(a, width) && DigitRow(b, width) && Number(a) == Number(b)
    ensures a == b
  {
    if width > 0 {
      var k := width - 1;
      LastDigit(a, k);
      LastDigit(b, k);
      SplitUnique(Pow10(k), Number(a[..k]), a[k], Number(b[..k]), b[k]);
      NumberInjective(a[..k], b[..k], k);
      assert a == a[..k] + [a[k]] && b == b[..k] + [b[k]];
    }
  }

  lemma {:induction false} SplitUnique(p: nat, a: nat, x: nat, b: nat, y: nat)
    requires a < p && b < p
    ensures a + p * x == b + p * y ==> a == b && x == y
  {
    Gap(p, a, x, b, y);
    Gap(p, b, y, a, x);
  }

  /** The numbered rows are a bijection with 0 up to the power of ten. */
  lemma {:induction false} NumbersExact(rows: seq<Row>, width: nat, numbers: seq<nat>)
    requires AllRows(rows, width) && |numbers| == |rows|
    requires forall i :: 0 <= i < |rows| ==> numbers[i] == Number(rows[i])
    ensures NoDup(numbers) && forall n: nat :: n in numbers <==> n < Pow10(width)
  {
    forall i, j | 0 <= i < j < |numbers|
      ensures numbers[i] != numbers[j]
    {
      assert rows[i] in rows && rows[j] in rows;
      if numbers[i] == numbers[j] {
        NumberInjective(rows[i], rows[j], width);
      }
    }
    forall n: nat
      ensures n in numbers <==> n < Pow10(width)
    {
      if n in numbers {
        var i :| 0 <= i < |numbers| && numbers[i] == n;
        assert rows[i] in rows;
        NumberBound(rows[i], width);
      }
      if n < Pow10(width) {
        var row := DigitsOf(n, width);
        assert row in rows;
        var i :| 0 <= i < |rows| && rows[i] == row;
        assert numbers[i] == n;
      }
    }
  }

  // ---------------------------------------------------------------- bounds

  /** A DATE value, as its day number, or NULL. */
  type DayValue = Option<int>

  function Least(s: seq<DayValue>): DayValue {
    if s == [] then None
    else
      var rest := Least(s[1..]);
      if s[0].None? || (rest.Some? && rest.value <= s[0].value) then rest else s[0]
  }

  function Greatest(s: seq<DayValue>): DayValue {
    if s == [] then None
    else
      var rest := Greatest(s[1..]);
      if s[0].None? || (rest.Some? && rest.value >= s[0].value) then rest else s[0]
  }

  datatype Bounds = Bounds(lo: DayValue, hi: DayValue)

  /** MIN(day), and CASE WHEN last > cap THEN cap ELSE last END for the last day in reach. */
  function BoundsSelect(daily: seq<DayValue>, cap: int, reach: int -> int): Bounds {
    var last := Greatest(daily);
    Bounds(Least(daily),
           if last.None? then None
           else if reach(last.value) > cap then Some(cap)
           else Some(reach(last.value)))
  }

  ghost predicate IsLeast(daily: seq<DayValue>, day: int) {
    Some(day) in daily && forall x: int :: Some(x) in daily ==> day <= x
  }

  ghost predicate IsGreatest(daily: seq<DayValue>, day: int) {
    Some(day) in daily && forall x: int :: Some(x) in daily ==> x <= day
  }

  lemma {:induction false} BoundsAreExtremes(daily: seq<DayValue>)
    ensures Least(daily).None? <==> forall x: int :: Some(x) !in daily
    ensures Greatest(daily).None? <==> forall x: int :: Some(x) !in daily
    ensures Least(daily).Some? ==> IsLeast(daily, Least(daily).value)
    ensures Greatest(daily).Some? ==> IsGreatest(daily, Greatest(daily).value)
  {
    if daily != [] {
      BoundsAreExtremes(daily[1..]);
      assert daily[0] in daily && forall v :: v in daily <==> v == daily[0] || v in daily[1..];
    }
  }

  // ---------------------------------------------------------------- the spine

  /** CASE WHEN lo < hi - 99999 THEN hi - 99999 ELSE lo END. */
  function Start(lo: int, hi: int): int {
    if lo < hi - (MAX_SPINE_DAYS - 1) then hi - (MAX_SPINE_DAYS - 1) else lo
  }

  /** The days the query keeps for one bounds row. A NULL bound keeps none. */
  function Kept(b: Bounds, numbers: seq<nat>): seq<int> {
    if b.lo.None? || b.hi.None? then []
    else
      var start := Start(b.lo.value, b.hi.value);
      Filter(Map(numbers, (n: nat) => start + n), (day: int) => day <= b.hi.value)
  }

  /** Cross join the digit tables, number the rows, and move the first day by each number. */
  method SpineSelect(b: Bounds) returns (days: seq<int>)
    ensures NoDup(days)
    ensures forall day :: day in days <==>
      b.lo.Some? && b.hi.Some? && b.lo.value <= day <= b.hi.value && b.hi.value - MAX_SPINE_DAYS < day
  {
    var digits := DigitsSelect();
    var rows: seq<Row> := [[]];
    for width := 0 to DIGITS
      invariant AllRows(rows, width)
    {
      CrossAllRows(rows, digits, width);
      rows := Cross(rows, digits);
    }
    var numbers := Map(rows, (row: Row) => Number(row));
    NumbersExact(rows, DIGITS, numbers);
    Hundred();
    days := Kept(b, numbers);
    KeptExact(b, numbers);
  }

  lemma {:induction false} Hundred()
    ensures Pow10(DIGITS) == MAX_SPINE_DAYS
  {
    assert Pow10(1) == 10 && Pow10(2) == 100 && Pow10(3) == 1000;
    assert Pow10(4) == 10000;
  }

  lemma {:induction false} KeptExact(b: Bounds, numbers: seq<nat>)
    requires NoDup(numbers) && forall n: nat :: n in numbers <==> n < MAX_SPINE_DAYS
    ensures NoDup(Kept(b, numbers))
    ensures forall day :: day in Kept(b, numbers) <==>
      b.lo.Some? && b.hi.Some? && b.lo.value <= day <= b.hi.value && b.hi.value - MAX_SPINE_DAYS < day
  {
    if b.lo.Some? && b.hi.Some? {
      var start := Start(b.lo.value, b.hi.value);
      var all := Map(numbers, (n: nat) => start + n);
      FilterNoDup(all, (day: int) => day <= b.hi.value);
      forall day | start <= day <= b.hi.value
        ensures day in all
      {
        assert day - start in numbers;
        var i :| 0 <= i < |numbers| && numbers[i] == day - start;
        assert all[i] == day;
      }
    }
  }

  /** The days shown for the data at hand: from the first day with data, or 99,999 days before the
      end if that is later, to the last day in reach or the cap. */
  ghost predicate InSpine(daily: seq<DayValue>, cap: int, reach: int -> int, day: int) {
    exists first: int, last: int :: IsLeast(daily, first) && IsGreatest(daily, last)
      && first <= day && Spans(reach(last), cap, day)
  }

  ghost predicate Spans(last: int, cap: int, day: int) {
    day <= last && day <= cap && (last - MAX_SPINE_DAYS < day || cap - MAX_SPINE_DAYS < day)
  }

  /** The whole construction: exactly the days of the data's range, each once, none without data. */
  method DaysOf(daily: seq<DayValue>, cap: int, reach: int -> int) returns (days: seq<int>)
    ensures NoDup(days)
    ensures forall day :: day in days <==> InSpine(daily, cap, reach, day)
  {
    BoundsAreExtremes(daily);
    var b := BoundsSelect(daily, cap, reach);
    days := SpineSelect(b);
    forall day
      ensures day in days <==> InSpine(daily, cap, reach, day)
    {
      if day in days {
        assert IsLeast(daily, b.lo.value) && IsGreatest(daily, Greatest(daily).value);
        assert Spans(reach(Greatest(daily).value), cap, day);
      }
      if InSpine(daily, cap, reach, day) {
        var first: int, last: int :| IsLeast(daily, first) && IsGreatest(daily, last)
          && first <= day && Spans(reach(last), cap, day);
        assert b.lo == Some(first) && Greatest(daily) == Some(last);
      }
    }
  }

  /** No day with data is missing unless it lies after the cap or before the spine's 100,000 days. */
  lemma {:induction false} DaysWithDataAreShown(daily: seq<DayValue>, cap: int, reach: int -> int, last: int, day: int)
    requires IsGreatest(daily, last) && last <= reach(last) && Some(day) in daily
    ensures InSpine(daily, cap, reach, day)
        <==> day <= cap && (reach(last) - MAX_SPINE_DAYS < day || cap - MAX_SPINE_DAYS < day)
  {
    BoundsAreExtremes(daily);
    assert IsLeast(daily, Least(daily).value);
    assert Spans(reach(last), cap, day)
        <==> day <= cap && (reach(last) - MAX_SPINE_DAYS < day || cap - MAX_SPINE_DAYS < day);
  }
}
