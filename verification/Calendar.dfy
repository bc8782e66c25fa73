/** splitTime of internal/types/binary.go: Unix seconds to a civil date and time of day, proved
    against the proleptic Gregorian calendar counted from month lengths and the leap rule. */
module Calendar {

  // ---- The calendar itself ----

  predicate Leap(y: int) { y % 4 == 0 && (y % 100 != 0 || y % 400 == 0) }

  function DaysInMonth(y: int, m: int): int
  {
    if m == 2 then (if Leap(y) then 29 else 28)
    else if m == 4 || m == 6 || m == 9 || m == 11 then 30
    else 31
  }

  datatype Date = Date(year: int, month: int, day: int)

  predicate ValidDate(c: Date)
  {
    1 <= c.month <= 12 && 1 <= c.day <= DaysInMonth(c.year, c.month)
  }

  function DaysBeforeMonth(y: int, m: int): int
    requires 1 <= m <= 12
    decreases m
  {
    if m == 1 then 0 else DaysBeforeMonth(y, m - 1) + DaysInMonth(y, m - 1)
  }

  // Days from 0001-01-01 to the first day of year y; negative for earlier years.
  function DaysBeforeYear(y: int): int { 365 * (y - 1) + (y - 1) / 4 - (y - 1) / 100 + (y - 1) / 400 }

  lemma YearLength(y: int)
    ensures DaysBeforeYear(y + 1) - DaysBeforeYear(y) == if Leap(y) then 366 else 365
  {
    CenturySteps(y, 4);
    CenturySteps(y, 100);
    CenturySteps(y, 400);
    Multiples(y);
    var a, b, c := y / 4 - (y - 1) / 4, y / 100 - (y - 1) / 100, y / 400 - (y - 1) / 400;
    assert DaysBeforeYear(y + 1) - DaysBeforeYear(y) == 365 + a - b + c;
    assert Leap(y) <==> a == 1 && (b == 0 || c == 1);
  }

  lemma Multiples(y: int)
    ensures y % 400 == 0 ==> y % 100 == 0
    ensures y % 100 == 0 ==> y % 4 == 0
  {
    if y % 400 == 0 { MultipleOf(y, 100, 4 * (y / 400)); }
    if y % 100 == 0 { MultipleOf(y, 4, 25 * (y / 100)); }
  }

  lemma MultipleOf(y: int, k: int, q: int)
    requires (k == 4 || k == 100) && y == k * q
    ensures y % k == 0
  {
    assert y / k == q;
  }

  lemma CenturySteps(y: int, k: int)
    requires k == 4 || k == 100 || k == 400
    ensures y / k - (y - 1) / k == if y % k == 0 then 1 else 0
  {
  }

  // Days since 1970-01-01.
  function DayNumber(c: Date): int
    requires ValidDate(c)
  {
    DaysBeforeYear(c.year) + DaysBeforeMonth(c.year, c.month) + c.day - 1 - 719162
  }

  lemma MonthStarts(y: int)
    ensures var f := if Leap(y) then 1 else 0;
            && DaysBeforeMonth(y, 1) == 0 && DaysBeforeMonth(y, 2) == 31 && DaysBeforeMonth(y, 3) == 59 + f
            && DaysBeforeMonth(y, 4) == 90 + f && DaysBeforeMonth(y, 5) == 120 + f && DaysBeforeMonth(y, 6) == 151 + f
            && DaysBeforeMonth(y, 7) == 181 + f && DaysBeforeMonth(y, 8) == 212 + f && DaysBeforeMonth(y, 9) == 243 + f
            && DaysBeforeMonth(y, 10) == 273 + f && DaysBeforeMonth(y, 11) == 304 + f && DaysBeforeMonth(y, 12) == 334 + f
  {
    hide Leap;
    assert DaysBeforeMonth(y, 3) == DaysBeforeMonth(y, 2) + DaysInMonth(y, 2);
    assert DaysBeforeMonth(y, 5) == DaysBeforeMonth(y, 4) + 30;
    assert DaysBeforeMonth(y, 7) == DaysBeforeMonth(y, 6) + 30;
    assert DaysBeforeMonth(y, 9) == DaysBeforeMonth(y, 8) + 31;
    assert DaysBeforeMonth(y, 11) == DaysBeforeMonth(y, 10) + 31;
  }

  // ---- The code ----

  // Go's integer division, which truncates toward zero.
  function Quo(a: int, b: int): int
    requires b > 0
  {
    if a >= 0 then a / b else -((-a) / b)
  }

  function YearOfEra(doe: int): int { (doe - doe / 1460 + doe / 36524 - doe / 146096) / 365 }

  // First day, within an era counted from March, of year y of that era.
  function YearStart(y: int): int { 365 * y + y / 4 - y / 100 }

  // Day doy, counted from the first of March of year y.
  function DateInYear(y: int, doy: int): Date
  {
    var mp := (5 * doy + 2) / 153;
    var d := doy - (153 * mp + 2) / 5 + 1;
    var m := if mp < 10 then mp + 3 else mp - 9;
    Date(if m <= 2 then y + 1 else y, m, d)
  }

  function DateOfDays(days: int): Date
  {
    var z := days + 719468;
    var era := Quo(if z < 0 then z - 146096 else z, 146097);
    var doe := z - era * 146097;
    var yoe := YearOfEra(doe);
    DateInYear(yoe + era * 400, doe - YearStart(yoe))
  }

  datatype Moment = Moment(date: Date, hour: int, minute: int, second: int)

  function SplitTime(sec: int): Moment
  {
    var days0 := Quo(sec, 86400);
    var rem0 := sec - days0 * 86400;
    var rem := if rem0 < 0 then rem0 + 86400 else rem0;
    var days := if rem0 < 0 then days0 - 1 else days0;
    var hour := Quo(rem, 3600);
    var rem' := rem - hour * 3600;
    var minute := Quo(rem', 60);
    Moment(DateOfDays(days), hour, minute, rem' - minute * 60)
  }

  // ---- Year of the 400-year era ----

  // Year 100c + 4q + s of an era, and the day of that year.
  predicate EraDay(c: int, q: int, s: int, doy: int)
  {
    && 0 <= c <= 3 && 0 <= q <= 24 && 0 <= s <= 3
    && 0 <= doy <= 365 && (doy == 365 ==> s == 3 && (q < 24 || c == 3))
  }

  lemma YearStartIs(c: int, q: int, s: int)
    requires 0 <= c <= 3 && 0 <= q <= 24 && 0 <= s <= 3
    ensures YearStart(100 * c + 4 * q + s) == 36524 * c + 1461 * q + 365 * s
  {
    var y := 100 * c + 4 * q + s;
    assert y / 4 == 25 * c + q;
    assert y / 100 == c;
  }

  lemma CenturyQuotients(c: int, q: int, s: int, doy: int)
    requires EraDay(c, q, s, doy)
    ensures var doe := 36524 * c + 1461 * q + 365 * s + doy; doe / 36524 - doe / 146096 == c
  {
    var r := 1461 * q + 365 * s + doy;
    if r == 36524 {
      assert q == 24 && s == 3 && doy == 365;
    } else {
      assert 0 <= r < 36524 by {
        assert q == 24 && s == 3 ==> r <= 36524;
      }
    }
  }

  lemma LeapQuotient(c: int, q: int, s: int, doy: int)
    requires EraDay(c, q, s, doy)
    ensures var doe, w := 36524 * c + 1461 * q + 365 * s + doy, 24 * c + q + 365 * s + doy;
            doe / 1460 == 25 * c + q + (if w >= 1460 then 1 else 0)
  {
    var doe, w := 36524 * c + 1461 * q + 365 * s + doy, 24 * c + q + 365 * s + doy;
    assert doe == 1460 * (25 * c + q) + w && 0 <= w < 2920;
  }

  lemma YearOfEraIs(c: int, q: int, s: int, doy: int)
    requires EraDay(c, q, s, doy)
    ensures YearOfEra(36524 * c + 1461 * q + 365 * s + doy) == 100 * c + 4 * q + s
  {
    CenturyQuotients(c, q, s, doy);
    LeapQuotient(c, q, s, doy);
    var doe, w := 36524 * c + 1461 * q + 365 * s + doy, 24 * c + q + 365 * s + doy;
    var n := doe - doe / 1460 + doe / 36524 - doe / 146096;
    assert n == 365 * (100 * c + 4 * q + s) + doy - (if w >= 1460 then 1 else 0);
  }

  lemma EraDayOf(doe: int) returns (c: int, q: int, s: int, doy: int)
    requires 0 <= doe < 146097
    ensures EraDay(c, q, s, doy) && doe == 36524 * c + 1461 * q + 365 * s + doy
  {
    c := if doe / 36524 > 3 then 3 else doe / 36524;
    var r := doe - 36524 * c;
    q := if r / 1461 > 24 then 24 else r / 1461;
    var t := r - 1461 * q;
    s := if t / 365 > 3 then 3 else t / 365;
    doy := t - 365 * s;
  }

  // ---- Month and day ----

  lemma MonthOfYear(doy: int)
    requires 0 <= doy <= 365
    ensures var mp := (5 * doy + 2) / 153;
            0 <= mp <= 11 && (153 * mp + 2) / 5 <= doy && (mp < 11 ==> doy < (153 * mp + 155) / 5)
  {
  }

  // March-based month mp starts (153mp + 2)/5 days into the March-based year.
  lemma MarchMonths(y: int, mp: int)
    requires 0 <= mp <= 11
    ensures var m, start := if mp < 10 then mp + 3 else mp - 9, (153 * mp + 2) / 5;
            && (mp < 10 ==> DaysBeforeMonth(y, m) == start + 59 + (if Leap(y) then 1 else 0))
            && (mp >= 10 ==> DaysBeforeMonth(y, m) == start - 306)
            && (mp < 11 ==> (153 * mp + 155) / 5 - start == DaysInMonth(y, m))
  {
    MonthStarts(y);
  }

  lemma LeapEnd(c: int, q: int, s: int, doy: int, era: int)
    requires EraDay(c, q, s, doy) && doy == 365
    ensures Leap(100 * c + 4 * q + s + era * 400 + 1)
  {
    var y := 100 * c + 4 * q + s + era * 400 + 1;
    assert y == 4 * (25 * c + q + 1 + 100 * era);
    if q == 24 {
      assert y == 400 * (1 + era);
    } else {
      assert y == 100 * (c + 4 * era) + 4 * (q + 1);
    }
  }

  lemma EraYears(c: int, q: int, s: int, era: int)
    requires 0 <= c <= 3 && 0 <= q <= 24 && 0 <= s <= 3
    ensures DaysBeforeYear(100 * c + 4 * q + s + era * 400 + 1)
         == 146097 * era + 36524 * c + 1461 * q + 365 * s
  {
    var y := 100 * c + 4 * q + s + era * 400;
    assert y / 4 == 25 * c + q + 100 * era;
    assert y / 100 == c + 4 * era;
    assert y / 400 == era;
  }

  lemma DateInYearCorrect(y: int, doy: int)
    requires 0 <= doy <= 365 && (doy == 365 ==> Leap(y + 1))
    ensures ValidDate(DateInYear(y, doy))
    ensures DayNumber(DateInYear(y, doy)) == DaysBeforeYear(y + 1) + doy - 719468
  {
    hide Leap, DaysBeforeMonth, DaysBeforeYear;
    MonthOfYear(doy);
    YearLength(y);
    MarchMonths(DateInYear(y, doy).year, (5 * doy + 2) / 153);
  }

  lemma EraOf(z: int) returns (era: int, doe: int)
    ensures era == Quo(if z < 0 then z - 146096 else z, 146097) && doe == z - era * 146097
    ensures 0 <= doe < 146097
  {
    era := Quo(if z < 0 then z - 146096 else z, 146097);
    doe := z - era * 146097;
  }

  /** Every day number gives a real date, and counting that date's days returns the number. */
  lemma DateOfDaysCorrect(days: int)
    ensures ValidDate(DateOfDays(days))
    ensures DayNumber(DateOfDays(days)) == days
  {
    hide Leap, YearOfEra, DaysBeforeYear, DateInYear, DayNumber, ValidDate, YearStart, Quo;
    var era, doe := EraOf(days + 719468);
    var c, q, s, doy := EraDayOf(doe);
    YearOfEraIs(c, q, s, doy);
    YearStartIs(c, q, s);
    EraYears(c, q, s, era);
    if doy == 365 {
      LeapEnd(c, q, s, doy, era);
    }
    DateInYearCorrect(100 * c + 4 * q + s + era * 400, doy);
  }

  // ---- Order ----

  predicate DateLess(a: Date, b: Date)
  {
    a.year < b.year || (a.year == b.year && (a.month < b.month || (a.month == b.month && a.day < b.day)))
  }

  lemma {:induction false} MonthsAscend(y: int, m: int, n: int)
    requires 1 <= m < n <= 12
    ensures DaysBeforeMonth(y, m) + DaysInMonth(y, m) <= DaysBeforeMonth(y, n)
  {
    if m + 1 < n {
      MonthsAscend(y, m, n - 1);
    }
  }

  lemma {:induction false} YearsAscend(y: int, w: int)
    requires y < w
    ensures DaysBeforeYear(y) + (if Leap(y) then 366 else 365) <= DaysBeforeYear(w)
    decreases w - y
  {
    YearLength(y);
    if y + 1 < w {
      YearsAscend(y + 1, w);
    }
  }

  lemma DayWithinYear(c: Date)
    requires ValidDate(c)
    ensures 0 <= DaysBeforeMonth(c.year, c.month)
    ensures DaysBeforeMonth(c.year, c.month) + c.day <= if Leap(c.year) then 366 else 365
  {
    MonthStarts(c.year);
  }

  /** Later dates have larger day numbers. */
  lemma DayNumberMonotone(a: Date, b: Date)
    requires ValidDate(a) && ValidDate(b) && DateLess(a, b)
    ensures DayNumber(a) < DayNumber(b)
  {
    hide Leap, DaysInMonth, DaysBeforeMonth, DaysBeforeYear;
    DayWithinYear(a);
    DayWithinYear(b);
    if a.year < b.year {
      YearsAscend(a.year, b.year);
    } else if a.month < b.month {
      MonthsAscend(a.year, a.month, b.month);
      assert a.day <= DaysInMonth(a.year, a.month);
    }
  }

  /** DateOfDays is the only inverse: it also undoes DayNumber on every real date. */
  lemma DateOfDayNumber(c: Date)
    requires ValidDate(c)
    ensures DateOfDays(DayNumber(c)) == c
  {
    hide DayNumber, DateOfDays;
    var e := DateOfDays(DayNumber(c));
    DateOfDaysCorrect(DayNumber(c));
    if DateLess(c, e) {
      DayNumberMonotone(c, e);
    } else if DateLess(e, c) {
      DayNumberMonotone(e, c);
    }
  }

  predicate InRangeTime(t: Moment) { 0 <= t.hour < 24 && 0 <= t.minute < 60 && 0 <= t.second < 60 }

  // Seconds since 1970-01-01T00:00:00.
  function SecondsOf(t: Moment): int
    requires ValidDate(t.date)
  {
    DayNumber(t.date) * 86400 + t.hour * 3600 + t.minute * 60 + t.second
  }

  /** For every second count, negative ones included: a valid date, a time of day in range, and
      counting them back gives the seconds. */
  lemma SplitTimeCorrect(sec: int)
    ensures var t := SplitTime(sec); ValidDate(t.date) && InRangeTime(t) && SecondsOf(t) == sec
    ensures SplitTime(sec).date == DateOfDays(sec / 86400)
  {
    hide DateOfDays, DayNumber, ValidDate;
    DateOfDaysCorrect(sec / 86400);
    FloorSplit(sec);
  }

  lemma FloorSplit(sec: int)
    ensures var days0 := Quo(sec, 86400);
            var rem0 := sec - days0 * 86400;
            && (rem0 < 0 ==> days0 - 1 == sec / 86400 && rem0 + 86400 == sec % 86400)
            && (rem0 >= 0 ==> days0 == sec / 86400 && rem0 == sec % 86400)
  {
  }

  predicate MomentLess(a: Moment, b: Moment)
  {
    DateLess(a.date, b.date) ||
    (a.date == b.date && (a.hour < b.hour || (a.hour == b.hour && (a.minute < b.minute || (a.minute == b.minute && a.second < b.second)))))
  }

  /** splitTime is strictly increasing. */
  lemma SplitTimeMonotone(a: int, b: int)
    requires a < b
    ensures MomentLess(SplitTime(a), SplitTime(b))
  {
    hide DayNumber, SplitTime, ValidDate, DateLess;
    SplitTimeCorrect(a);
    SplitTimeCorrect(b);
    var s, t := SplitTime(a), SplitTime(b);
    if DateLess(t.date, s.date) {
      DayNumberMonotone(t.date, s.date);
    } else if s.date == t.date {
      ClockOrder(s.hour, s.minute, s.second, t.hour, t.minute, t.second);
    } else {
      DatesCompare(s.date, t.date);
    }
  }

  lemma DatesCompare(a: Date, b: Date)
    ensures DateLess(a, b) || DateLess(b, a) || a == b
  {
  }

  lemma ClockOrder(h: int, m: int, s: int, h': int, m': int, s': int)
    requires 0 <= m < 60 && 0 <= s < 60 && 0 <= m' < 60 && 0 <= s' < 60
    requires h * 3600 + m * 60 + s < h' * 3600 + m' * 60 + s'
    ensures h < h' || (h == h' && (m < m' || (m == m' && s < s')))
  {
  }
}
