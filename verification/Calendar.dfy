// usageMetrics, days and weeks: UTC day and ISO week starts of an instant in milliseconds, with the calendar
// arithmetic of ECMA-262 (Date: Day, YearFromTime, MonthFromTime, DateFromTime, WeekDay, MakeDay, Date.UTC).
module Calendar {
  const DAY_MS := 86400000

  function Day(t: int): int {
    t / DAY_MS
  }

  function Floor(a: int, b: int): int
    requires b > 0
  {
    a / b
  }

  function DayFromYear(y: int): int {
    365 * (y - 1970) + Floor(y - 1969, 4) - Floor(y - 1901, 100) + Floor(y - 1601, 400)
  }

  predicate Leap(y: int) {
    y % 4 == 0 && (y % 100 != 0 || y % 400 == 0)
  }

  lemma YearLength(y: int)
    ensures DayFromYear(y + 1) - DayFromYear(y) == if Leap(y) then 366 else 365
  {
    hide Floor;
    StepOfFloor(y - 1969, 4);
    StepOfFloor(y - 1901, 100);
    StepOfFloor(y - 1601, 400);
    ShiftedRemainder(y, 4, 492);
    ShiftedRemainder(y, 100, 19);
    ShiftedRemainder(y, 400, 4);
    FourHundredDivides(y);
  }

  lemma ShiftedRemainder(y: int, b: int, c: int)
    requires b > 0
    ensures (y - b * c) % b == y % b
  {
    var q, r := y / b, y % b;
    assert y - b * c == b * (q - c) + r;
    Euclid(y - b * c, b, q - c, r);
  }

  lemma FourHundredDivides(y: int)
    ensures y % 400 == 0 ==> y % 100 == 0
    ensures y % 100 == 0 ==> y % 4 == 0
  {
    if y % 400 == 0 {
      Euclid(y, 100, 4 * (y / 400), 0);
    }
    if y % 100 == 0 {
      Euclid(y, 4, 25 * (y / 100), 0);
    }
  }

  lemma StepOfFloor(a: int, b: int)
    requires b > 0
    ensures Floor(a + 1, b) == Floor(a, b) + if (a + 1) % b == 0 then 1 else 0
  {
    var q, r := a / b, a % b;
    assert a == b * q + r;
    if r == b - 1 {
      assert a + 1 == b * (q + 1);
      Euclid(a + 1, b, q + 1, 0);
    } else {
      Euclid(a + 1, b, q, r + 1);
    }
  }

  lemma Multiples(b: int, d: int)
    requires b > 0
    ensures d >= 1 ==> b * d >= b
    ensures d <= -1 ==> b * d <= -b
  {
    if d >= 1 {
      assert b * d == b + b * (d - 1);
      assert b * (d - 1) >= 0;
    } else if d <= -1 {
      assert b * d == -b + b * (d + 1);
      assert b * (d + 1) <= 0;
    }
  }

  lemma Euclid(a: int, b: int, q: int, r: int)
    requires b > 0 && a == b * q + r && 0 <= r < b
    ensures a / b == q && a % b == r
  {
    var q', r' := a / b, a % b;
    assert a == b * q' + r';
    assert b * (q - q') == b * q - b * q';
    Multiples(b, q - q');
  }

  lemma {:induction false} YearsGrow(x: int, y: int)
    requires x <= y
    ensures DayFromYear(x) + 365 * (y - x) <= DayFromYear(y) <= DayFromYear(x) + 366 * (y - x)
    decreases y - x
  {
    if x < y {
      YearsGrow(x, y - 1);
      YearLength(y - 1);
    }
  }

  // The year that contains a day, found from a first guess.
  function YearFrom(day: int, y: int): (r: int)
    ensures DayFromYear(r) <= day < DayFromYear(r + 1)
    decreases if day < DayFromYear(y) then 1 else 0, if day < DayFromYear(y) then DayFromYear(y) - day else day - DayFromYear(y)
  {
    YearLength(y);
    YearLength(y - 1);
    if day < DayFromYear(y) then YearFrom(day, y - 1)
    else if day >= DayFromYear(y + 1) then YearFrom(day, y + 1)
    else y
  }

  function YearOf(day: int): (r: int)
    ensures DayFromYear(r) <= day < DayFromYear(r + 1)
  {
    YearFrom(day, 1970)
  }

  lemma YearIsUnique(day: int, y: int)
    requires DayFromYear(y) <= day < DayFromYear(y + 1)
    ensures YearOf(day) == y
  {
    var r := YearOf(day);
    if r < y {
      YearsGrow(r + 1, y);
    } else if y < r {
      YearsGrow(y + 1, r);
    }
  }

  // Days before month m (0..12) of a year.
  function MonthStart(m: nat, leap: bool): int
    requires m <= 12
  {
    [0, 31, 59, 90, 120, 151, 181, 212, 243, 273, 304, 334, 365][m] + if leap && m >= 2 then 1 else 0
  }

  function MonthFrom(d: nat, leap: bool, m: nat): (r: nat)
    requires m <= 11 && MonthStart(m, leap) <= d < MonthStart(12, leap)
    ensures r <= 11 && MonthStart(r, leap) <= d < MonthStart(r + 1, leap)
    decreases 11 - m
  {
    if d < MonthStart(m + 1, leap) then m else MonthFrom(d, leap, m + 1)
  }

  // getUTCFullYear, getUTCMonth, getUTCDate of a day
  datatype Fields = Fields(year: int, month: nat, date: int)

  function FieldsOf(day: int): (f: Fields)
    ensures f.month <= 11
    ensures DayFromYear(f.year) + MonthStart(f.month, Leap(f.year)) + f.date - 1 == day
  {
    var y := YearOf(day);
    YearLength(y);
    var m := MonthFrom(day - DayFromYear(y), Leap(y), 0);
    Fields(y, m, day - DayFromYear(y) - MonthStart(m, Leap(y)) + 1)
  }

  // April, June, September and November have thirty days, February 28 or 29, the others 31.
  lemma MonthLengths(m: nat, leap: bool)
    requires m <= 11
    ensures MonthStart(0, leap) == 0
    ensures MonthStart(m + 1, leap) - MonthStart(m, leap)
         == if m in {3, 5, 8, 10} then 30 else if m != 1 then 31 else if leap then 29 else 28
  {
  }

  // Every day has a date within its month.
  lemma DatesAreInTheirMonths(day: int)
    ensures var f := FieldsOf(day);
            1 <= f.date <= MonthStart(f.month + 1, Leap(f.year)) - MonthStart(f.month, Leap(f.year))
  {
    hide MonthStart;
    hide YearOf;
    hide DayFromYear;
    hide Leap;
    hide MonthFrom;
  }

  // Date.UTC reads the years 0 to 99 as 1900 to 1999.
  function FullYear(y: int): int {
    if 0 <= y <= 99 then 1900 + y else y
  }

  function DateUtc(f: Fields): int
    requires f.month <= 11
  {
    (DayFromYear(FullYear(f.year)) + MonthStart(f.month, Leap(FullYear(f.year))) + f.date - 1) * DAY_MS
  }

  predicate TwoDigitYear(t: int) {
    0 <= FieldsOf(Day(t)).year <= 99
  }

  // ----- the source's functions -----

  function UtcDayStart(t: int): int {
    DateUtc(FieldsOf(Day(t)))
  }

  // getUTCDay: 0 is Sunday
  function WeekDay(t: int): int {
    (Day(t) + 4) % 7
  }

  function IsoWeekStart(t: int): int {
    var day := UtcDayStart(t);
    var dow := WeekDay(day);
    var offset := if dow == 0 then 6 else dow - 1;
    day - offset * DAY_MS
  }

  function WeekOffset(cohortWeekStart: int, at: int): int {
    Floor(UtcDayStart(at) - cohortWeekStart, 7 * DAY_MS)
  }

  // ----- what they compute -----

  lemma DayOfMidnight(n: int)
    ensures Day(n * DAY_MS) == n
  {
    Euclid(n * DAY_MS, DAY_MS, n, 0);
  }

  ghost predicate IsMonday(t: int) {
    t == Day(t) * DAY_MS && WeekDay(t) == 1
  }

  // A day before year 100 read as one of the 1900s lands far later.
  lemma TwoDigitYearsMove(t: int)
    requires TwoDigitYear(t)
    ensures Day(UtcDayStart(t)) >= DayFromYear(1900) && UtcDayStart(t) >= t + 7 * DAY_MS
    ensures UtcDayStart(t) == Day(UtcDayStart(t)) * DAY_MS
  {
    hide DayFromYear;
    hide YearOf;
    hide MonthFrom;
    var f := FieldsOf(Day(t));
    YearsGrow(f.year + 1, f.year + 1900);
    YearsGrow(1900, f.year + 1900);
    DateIsPositive(Day(t));
    var d := DayFromYear(f.year + 1900) + MonthStart(f.month, Leap(f.year + 1900)) + f.date - 1;
    assert UtcDayStart(t) == d * DAY_MS;
    hide FieldsOf;
    hide UtcDayStart;
    assert MonthStart(f.month, Leap(f.year + 1900)) >= 0;
    assert d >= DayFromYear(f.year + 1900) && d >= Day(t) + 365 * 1000;
    DayOfMidnight(d);
  }

  lemma DateIsPositive(day: int)
    ensures FieldsOf(day).date >= 1 && day < DayFromYear(FieldsOf(day).year + 1)
  {
  }

  // utcDayStart truncates to midnight exactly outside the years 0 to 99; it always returns a midnight.
  lemma DayStartTruncatesIff(t: int)
    ensures (UtcDayStart(t) <= t < UtcDayStart(t) + DAY_MS) <==> !TwoDigitYear(t)
    ensures UtcDayStart(t) == Day(UtcDayStart(t)) * DAY_MS
  {
    if TwoDigitYear(t) {
      TwoDigitYearsMove(t);
    } else {
      DayOfMidnight(Day(t));
    }
  }

  lemma MondayArithmetic(n: int)
    ensures var dow := (n + 4) % 7;
            var offset := if dow == 0 then 6 else dow - 1;
            0 <= offset <= 6 && (n - offset + 4) % 7 == 1
  {
  }

  lemma WeekStartIsMonday(t: int)
    ensures IsMonday(IsoWeekStart(t))
    ensures IsoWeekStart(t) <= UtcDayStart(t) < IsoWeekStart(t) + 7 * DAY_MS
  {
    DayStartTruncatesIff(t);
    hide UtcDayStart;
    hide TwoDigitYear;
    var n := Day(UtcDayStart(t));
    var dow := (n + 4) % 7;
    var offset := if dow == 0 then 6 else dow - 1;
    MondayArithmetic(n);
    assert WeekDay(UtcDayStart(t)) == dow;
    assert IsoWeekStart(t) == (n - offset) * DAY_MS;
    hide IsoWeekStart;
    DayOfMidnight(n - offset);
  }

  lemma MondayIsUnique(a: int, b: int, t: int)
    requires IsMonday(a) && IsMonday(b) && a <= t < a + 7 * DAY_MS && b <= t < b + 7 * DAY_MS
    ensures a == b
  {
    assert (Day(a) + 4) % 7 == 1 && (Day(b) + 4) % 7 == 1;
  }

  // isoWeekStart is the Monday midnight at or before the instant, exactly outside the years 0 to 99.
  lemma WeekStartFloorsIff(t: int)
    ensures IsMonday(IsoWeekStart(t))
    ensures (IsoWeekStart(t) <= t < IsoWeekStart(t) + 7 * DAY_MS) <==> !TwoDigitYear(t)
  {
    WeekStartIsMonday(t);
    DayStartTruncatesIff(t);
    if TwoDigitYear(t) {
      TwoDigitYearsMove(t);
    } else {
      LastInstantOfWeek(IsoWeekStart(t), UtcDayStart(t), t);
    }
  }

  // A midnight inside a week that starts at midnight leaves its whole day inside.
  lemma LastInstantOfWeek(monday: int, midnight: int, t: int)
    requires monday == Day(monday) * DAY_MS && midnight == Day(midnight) * DAY_MS
    requires monday <= midnight < monday + 7 * DAY_MS && midnight <= t < midnight + DAY_MS
    ensures monday <= t < monday + 7 * DAY_MS
  {
    assert Day(midnight) <= Day(monday) + 6;
  }

  // The offset counts whole weeks between week starts, forwards and backwards, for all instants.
  lemma WeekOffsetCounts(a: int, b: int, k: int)
    ensures WeekOffset(IsoWeekStart(a), b) == k <==> IsoWeekStart(b) == IsoWeekStart(a) + 7 * k * DAY_MS
  {
    WeekStartIsMonday(a);
    WeekStartIsMonday(b);
    var wa, wb, day := IsoWeekStart(a), IsoWeekStart(b), UtcDayStart(b);
    hide UtcDayStart;
    hide IsoWeekStart;
    MondaysApart(wa, wb);
    var j := (Day(wb) - Day(wa)) / 7;
    assert wb - wa == 7 * DAY_MS * j;
    Euclid(day - wa, 7 * DAY_MS, j, day - wb);
    if IsoWeekStart(b) == IsoWeekStart(a) + 7 * k * DAY_MS {
      assert 7 * DAY_MS * j == 7 * DAY_MS * k;
    }
  }

  lemma MondaysApart(a: int, b: int)
    requires IsMonday(a) && IsMonday(b)
    ensures b - a == 7 * DAY_MS * ((Day(b) - Day(a)) / 7)
  {
    assert (Day(b) - Day(a)) % 7 == 0;
  }

  // An event's offset is k exactly when it falls in the k-th week after the cohort's, outside the years 0 to 99.
  lemma WeekOffsetPlaces(a: int, b: int, k: int)
    requires !TwoDigitYear(b)
    ensures var monday := IsoWeekStart(a) + 7 * k * DAY_MS;
            WeekOffset(IsoWeekStart(a), b) == k <==> monday <= b < monday + 7 * DAY_MS
  {
    WeekOffsetCounts(a, b, k);
    WeekStartFloorsIff(a);
    WeekStartFloorsIff(b);
    var monday := IsoWeekStart(a) + 7 * k * DAY_MS;
    hide IsoWeekStart;
    hide WeekOffset;
    hide TwoDigitYear;
    if monday <= b < monday + 7 * DAY_MS {
      ShiftedMonday(IsoWeekStart(a), k);
      MondayIsUnique(monday, IsoWeekStart(b), b);
    }
  }

  lemma ShiftedMonday(a: int, k: int)
    requires IsMonday(a)
    ensures IsMonday(a + 7 * k * DAY_MS)
  {
    assert a + 7 * k * DAY_MS == (Day(a) + 7 * k) * DAY_MS;
    DayOfMidnight(Day(a) + 7 * k);
  }

  // Taking the week start twice changes nothing, except on the first three days of the year 100: its first Monday
  // is the fourth, and the Monday before them lies in the year 99.
  lemma WeekStartIdempotentIff(t: int)
    ensures IsoWeekStart(IsoWeekStart(t)) == IsoWeekStart(t) <==>
      !(DayFromYear(100) <= Day(t) < DayFromYear(100) + 3)
  {
    hide IsoWeekStart;
    hide UtcDayStart;
    hide TwoDigitYear;
    hide WeekDay;
    WeekStartFloorsIff(t);
    WeekStartIsMonday(t);
    var w := IsoWeekStart(t);
    WeekStartFloorsIff(w);
    if !TwoDigitYear(w) {
      MondayIsUnique(IsoWeekStart(w), w, w);
    }
    YearBounds(t);
    YearBounds(w);
    if TwoDigitYear(t) {
      TwoDigitYearsMove(t);
      YearsGrow(100, 1900);
      assert Day(w) >= Day(UtcDayStart(t)) - 6;
    } else {
      MondayBefore(w, t);
      EarlyHundred(Day(t));
    }
  }

  lemma EarlyHundred(n: int)
    requires n < DayFromYear(0) || n >= DayFromYear(100)
    ensures (DayFromYear(0) <= n - (n + 3) % 7 < DayFromYear(100)) <==> DayFromYear(100) <= n < DayFromYear(100) + 3
  {
    assert DayFromYear(100) == -683003 && DayFromYear(0) == -719528;
  }

  lemma MondayBefore(w: int, t: int)
    requires IsMonday(w) && w <= t < w + 7 * DAY_MS
    ensures Day(w) == Day(t) - (Day(t) + 3) % 7
  {
  }

  lemma YearBounds(t: int)
    ensures TwoDigitYear(t) <==> DayFromYear(0) <= Day(t) < DayFromYear(100)
  {
    var y := FieldsOf(Day(t)).year;
    if y < 0 {
      YearsGrow(y + 1, 0);
    } else if y <= 99 {
      YearsGrow(0, y);
      YearsGrow(y + 1, 100);
    } else {
      YearsGrow(100, y);
    }
  }
}
