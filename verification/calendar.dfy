/**
The civil calendar at a fixed offset: proleptic Gregorian dates, day numbers
counted from 1 January of year 1, weekdays counted from Sunday, and minutes
counted from the first midnight.
*/
module Calendar {

  datatype Date = Date(year: int, month: int, day: int)

  predicate Leap(y: int) {
    y % 4 == 0 && (y % 100 != 0 || y % 400 == 0)
  }

  function YearLength(y: int): int {
    if Leap(y) then 366 else 365
  }

  function MonthLength(leap: bool, m: int): int {
    if m == 2 then if leap then 29 else 28
    else if m == 4 || m == 6 || m == 9 || m == 11 then 30
    else 31
  }

  function DaysInMonth(y: int, m: int): int {
    MonthLength(Leap(y), m)
  }

  /** Days of a year before month m; month 13 gives the whole year. */
  function MonthStart(leap: bool, m: int): int {
    var extra := if leap && m > 2 then 1 else 0;
    extra + if m <= 1 then 0 else if m == 2 then 31 else if m == 3 then 59 else if m == 4 then 90
           else if m == 5 then 120 else if m == 6 then 151 else if m == 7 then 181 else if m == 8 then 212
           else if m == 9 then 243 else if m == 10 then 273 else if m == 11 then 304
           else if m == 12 then 334 else 365
  }

  function DaysBeforeMonth(y: int, m: int): int {
    MonthStart(Leap(y), m)
  }

  function DaysBeforeYear(y: int): int {
    365 * (y - 1) + (y - 1) / 4 - (y - 1) / 100 + (y - 1) / 400
  }

  ghost predicate ValidDate(d: Date) {
    1 <= d.month <= 12 && 1 <= d.day <= DaysInMonth(d.year, d.month)
  }

  /** time.Date for the date part; the day may lie outside its month. */
  function DayNumber(y: int, m: int, d: int): int {
    DaysBeforeYear(y) + DaysBeforeMonth(y, m) + d - 1
  }

  // --- reading a day number back ---

  function Least(a: int, b: int): int { if a <= b then a else b }

  /** Split off whole cycles of 400, 100, 4 and 1 years. */
  function YearOf(n: int): int {
    var r400 := n % 146097;
    var c100 := Least(r400 / 36524, 3);
    var r100 := r400 - 36524 * c100;
    var r4 := r100 % 1461;
    400 * (n / 146097) + 100 * c100 + 4 * (r100 / 1461) + Least(r4 / 365, 3) + 1
  }

  function MonthFrom(y: int, k: int, m: int): int
    requires 1 <= m <= 12
    decreases 12 - m
  {
    if m == 12 || k < DaysBeforeMonth(y, m + 1) then m else MonthFrom(y, k, m + 1)
  }

  function DateOf(n: int): Date {
    var y := YearOf(n);
    var k := n - DaysBeforeYear(y);
    var m := MonthFrom(y, k, 1);
    Date(y, m, k - DaysBeforeMonth(y, m) + 1)
  }

  function Weekday(n: int): int { (n + 1) % 7 }

  // --- minutes of the clock ---

  function DayOf(t: int): int { t / 1440 }

  function HourOf(t: int): int { t % 1440 / 60 }

  function MinuteOf(t: int): int { t % 60 }

  /** time.Date of a day number, an hour and a minute. */
  function ClockTime(day: int, hour: int, minute: int): int {
    day * 1440 + hour * 60 + minute
  }

  function Midnight(day: int): int { ClockTime(day, 0, 0) }

  lemma DivRebuild(q: int, r: int)
    ensures 0 <= r < 1440 ==> (1440 * q + r) / 1440 == q && (1440 * q + r) % 1440 == r
    ensures 0 <= r < 60 ==> (60 * q + r) / 60 == q && (60 * q + r) % 60 == r
  {
  }

  lemma ClockTimeParts(day: int, hour: int, minute: int)
    requires 0 <= hour < 24 && 0 <= minute < 60
    ensures DayOf(ClockTime(day, hour, minute)) == day
    ensures HourOf(ClockTime(day, hour, minute)) == hour
    ensures MinuteOf(ClockTime(day, hour, minute)) == minute
  {
    DivRebuild(day, 60 * hour + minute);
    DivRebuild(hour, minute);
    DivRebuild(24 * day + hour, minute);
  }

  lemma PartsOfTime(t: int)
    ensures 0 <= HourOf(t) < 24 && 0 <= MinuteOf(t) < 60
    ensures t == ClockTime(DayOf(t), HourOf(t), MinuteOf(t))
  {
    var q, r := t / 1440, t % 1440;
    assert t == 1440 * q + r;
    var h, m := r / 60, r % 60;
    assert r == 60 * h + m;
    DivRebuild(24 * q + h, m);
  }

  lemma DayOrder(t: int, day: int)
    ensures DayOf(t) < day <==> t < Midnight(day)
  {
  }

  // --- the calendar is a bijection ---

  lemma DivisionSteps(y: int)
    ensures y / 4 == (y - 1) / 4 + if y % 4 == 0 then 1 else 0
    ensures y / 100 == (y - 1) / 100 + if y % 100 == 0 then 1 else 0
    ensures y / 400 == (y - 1) / 400 + if y % 400 == 0 then 1 else 0
    ensures (y % 100 == 0 ==> y % 4 == 0) && (y % 400 == 0 ==> y % 100 == 0)
  {
  }

  /** Consecutive years are a year length apart. */
  lemma NextYear(y: int)
    ensures DaysBeforeYear(y + 1) == DaysBeforeYear(y) + YearLength(y)
  {
    DivisionSteps(y);
  }

  /** A count of years written in whole cycles gives the same count of days. */
  lemma CycleDays(a: int, b: int, c: int, d: int)
    requires 0 <= b <= 3 && 0 <= c <= 24 && 0 <= d <= 3
    ensures DaysBeforeYear(400 * a + 100 * b + 4 * c + d + 1) == 146097 * a + 36524 * b + 1461 * c + 365 * d
  {
    var y := 400 * a + 100 * b + 4 * c + d;
    assert y / 4 == 100 * a + 25 * b + c;
    assert y / 100 == 4 * a + b;
    assert y / 400 == a;
  }

  lemma YearHolds(n: int)
    ensures DaysBeforeYear(YearOf(n)) <= n < DaysBeforeYear(YearOf(n) + 1)
  {
    var a := n / 146097;
    var r400 := n % 146097;
    var b := Least(r400 / 36524, 3);
    var r100 := r400 - 36524 * b;
    var c := r100 / 1461;
    var r4 := r100 % 1461;
    var d := Least(r4 / 365, 3);
    assert 0 <= r100 <= 36524;
    CycleDays(a, b, c, d);
    NextYear(YearOf(n));
    YearEnds(a, b, c, d, r4);
  }

  /** The last year of a cycle is long exactly when the cycle needs its extra day. */
  lemma YearEnds(a: int, b: int, c: int, d: int, r4: int)
    requires 0 <= b <= 3 && 0 <= c <= 24 && 0 <= d <= 3 && 0 <= r4 < 1461
    requires d == Least(r4 / 365, 3)
    requires c == 24 && b < 3 ==> r4 < 1460
    ensures r4 < 365 * d + YearLength(400 * a + 100 * b + 4 * c + d + 1)
  {
    var y := 400 * a + 100 * b + 4 * c + d + 1;
    if d == 3 {
      assert y == 4 * (100 * a + 25 * b + c + 1);
      if c == 24 {
        assert y == 100 * (4 * a + b + 1);
        if b == 3 { assert y == 400 * (a + 1); }
      } else {
        assert y / 100 == 4 * a + b && y % 100 == 4 * c + 4;
      }
    }
  }

  lemma {:induction false} YearsOrdered(y: int, z: int)
    requires y <= z
    ensures DaysBeforeYear(y) + 365 * (z - y) <= DaysBeforeYear(z)
    decreases z - y
  {
    if y < z {
      YearsOrdered(y, z - 1);
      NextYear(z - 1);
    }
  }

  lemma YearUnique(n: int, y: int)
    requires DaysBeforeYear(y) <= n < DaysBeforeYear(y + 1)
    ensures YearOf(n) == y
  {
    YearHolds(n);
    if YearOf(n) < y { YearsOrdered(YearOf(n) + 1, y); }
    if y < YearOf(n) { YearsOrdered(y + 1, YearOf(n)); }
  }

  lemma {:induction false} MonthHolds(y: int, k: int, m: int)
    requires 1 <= m <= 12 && DaysBeforeMonth(y, m) <= k < YearLength(y)
    ensures var r := MonthFrom(y, k, m);
            m <= r <= 12 && DaysBeforeMonth(y, r) <= k < DaysBeforeMonth(y, r) + DaysInMonth(y, r)
    decreases 12 - m
  {
    if m < 12 && k >= DaysBeforeMonth(y, m + 1) {
      MonthHolds(y, k, m + 1);
    }
  }

  /** Every day number is a date, and its date counts back to it. */
  lemma DateOfDay(n: int)
    ensures ValidDate(DateOf(n))
    ensures DayNumber(DateOf(n).year, DateOf(n).month, DateOf(n).day) == n
  {
    YearHolds(n);
    NextYear(YearOf(n));
    MonthHolds(YearOf(n), n - DaysBeforeYear(YearOf(n)), 1);
  }

  /** Every date is read back from its day number. */
  lemma DayOfDate(d: Date)
    requires ValidDate(d)
    ensures DateOf(DayNumber(d.year, d.month, d.day)) == d
  {
    var n := DayNumber(d.year, d.month, d.day);
    NextYear(d.year);
    YearUnique(n, d.year);
    DateOfDay(n);
    MonthUnique(d.year, d, DateOf(n));
  }

  lemma MonthUnique(y: int, a: Date, b: Date)
    requires ValidDate(a) && ValidDate(b) && a.year == b.year == y
    requires DaysBeforeMonth(y, a.month) + a.day == DaysBeforeMonth(y, b.month) + b.day
    ensures a == b
  {
  }

  predicate IsLeapDay(n: int) {
    DateOf(n).month == 2 && DateOf(n).day == 29
  }

  /** time.Date of the civil fields of a minute is that minute. */
  lemma RebuildTime(t: int)
    ensures var d := DateOf(DayOf(t));
            ClockTime(DayNumber(d.year, d.month, d.day), HourOf(t), MinuteOf(t)) == t
  {
    DateOfDay(DayOf(t));
    PartsOfTime(t);
  }

  /** AddDate(0, 0, 1): stepping the day of the month and normalising. */
  lemma StepDay(n: int)
    ensures var d := DateOf(n); DayNumber(d.year, d.month, d.day + 1) == n + 1
  {
    DateOfDay(n);
  }

  /** From a date other than 29 February to the same date a year on is 365 or 366 days. */
  lemma SameDateNextYear(y: int, m: int, d: int)
    requires 1 <= m <= 12
    ensures DayNumber(y, m, d) + 365 <= DayNumber(y + 1, m, d) <= DayNumber(y, m, d) + 366
  {
    NextYear(y);
  }

  /** A date every year has, in one year. */
  lemma DateInYear(y: int, m: int, d: int)
    requires 1 <= m <= 12 && 1 <= d <= DaysInMonth(1, m)
    ensures DaysBeforeYear(y) <= DayNumber(y, m, d) < DaysBeforeYear(y + 1)
    ensures DateOf(DayNumber(y, m, d)) == Date(y, m, d)
  {
    NextYear(y);
    assert DaysInMonth(1, m) <= DaysInMonth(y, m);
    DayOfDate(Date(y, m, d));
  }

  lemma YearOfDay(from: int) returns (y: int)
    ensures DaysBeforeYear(y) <= from < DaysBeforeYear(y + 1) <= DaysBeforeYear(y) + 366
  {
    y := YearOf(from);
    YearHolds(from);
    NextYear(y);
  }

  /** A date that every year has comes up in any 366 days. */
  lemma DateRecurs(from: int, m: int, d: int) returns (n: int)
    requires 1 <= m <= 12 && 1 <= d <= DaysInMonth(1, m)
    ensures from <= n < from + 366
    ensures DateOf(n).month == m && DateOf(n).day == d
  {
    var y := YearOfDay(from);
    SameDateNextYear(y, m, d);
    DateInYear(y, m, d);
    DateInYear(y + 1, m, d);
    n := if DayNumber(y, m, d) < from then DayNumber(y + 1, m, d) else DayNumber(y, m, d);
  }

  const CYCLE_DAYS: int := 146097

  lemma CycleOffset(y: int)
    ensures DaysBeforeYear(y + 400) == DaysBeforeYear(y) + CYCLE_DAYS
  {
    assert (y + 399) / 4 == (y - 1) / 4 + 100;
    assert (y + 399) / 100 == (y - 1) / 100 + 4;
    assert (y + 399) / 400 == (y - 1) / 400 + 1;
  }

  lemma SameRemainders(y: int)
    ensures (y + 400) % 4 == y % 4
    ensures (y + 400) % 400 == y % 400
  {
  }

  lemma SameCentury(y: int)
    ensures (y + 400) % 100 == y % 100
  {
  }

  lemma LaterDayNumber(d: Date)
    requires ValidDate(d)
    ensures ValidDate(d.(year := d.year + 400))
    ensures DayNumber(d.year + 400, d.month, d.day) == DayNumber(d.year, d.month, d.day) + CYCLE_DAYS
  {
    SameRemainders(d.year);
    SameCentury(d.year);
    CycleOffset(d.year);
  }

  lemma LaterDate(n: int, d: Date)
    requires ValidDate(d) && DayNumber(d.year, d.month, d.day) == n
    ensures DateOf(n + CYCLE_DAYS) == d.(year := d.year + 400)
  {
    LaterDayNumber(d);
    DayOfDate(d.(year := d.year + 400));
  }

  lemma SameWeekday(n: int)
    ensures Weekday(n + 146097) == Weekday(n)
  {
    assert (n + 1 + 7 * 20871) % 7 == (n + 1) % 7;
  }

  /** Four hundred years on, every date and weekday repeats. */
  lemma CycleRepeats(n: int)
    ensures DateOf(n + CYCLE_DAYS) == DateOf(n).(year := DateOf(n).year + 400)
    ensures Weekday(n + CYCLE_DAYS) == Weekday(n)
  {
    SameWeekday(n);
    DateOfDay(n);
    LaterDate(n, DateOf(n));
  }

  /** Seven days running hold every weekday. */
  lemma WeekHolds(first: int, w: int) returns (n: int)
    requires 0 <= w <= 6
    ensures first <= n < first + 7 && Weekday(n) == w
  {
    n := first + (w - Weekday(first)) % 7;
  }

  /** Seven days running inside one month. */
  lemma WeekInMonth(y: int, m: int, d: int, w: int) returns (n: int)
    requires 1 <= m <= 12 && 0 <= w <= 6 && 1 <= d && d + 6 <= DaysInMonth(y, m)
    ensures DayNumber(y, m, d) <= n < DayNumber(y, m, d) + 7
    ensures DateOf(n).month == m && Weekday(n) == w
  {
    n := WeekHolds(DayNumber(y, m, d), w);
    DayOfDate(Date(y, m, d + n - DayNumber(y, m, d)));
  }

  lemma MonthInYear(y: int, m: int)
    requires 1 <= m <= 12
    ensures DaysBeforeYear(y) <= DayNumber(y, m, 1) && DayNumber(y, m, 1) + DaysInMonth(y, m) <= DaysBeforeYear(y + 1)
    ensures DaysInMonth(y, m) >= 28
  {
    NextYear(y);
  }

  /**
  A weekday in a given month comes up in any 366 days, also when the days start
  and end inside that month: one of the two pieces is at least a week long.
  */
  lemma WeekdayInMonthRecurs(from: int, m: int, w: int) returns (n: int)
    requires 1 <= m <= 12 && 0 <= w <= 6
    ensures from <= n < from + 366
    ensures DateOf(n).month == m && Weekday(n) == w
  {
    var y := YearOfDay(from);
    MonthInYear(y, m);
    MonthInYear(y + 1, m);
    SameDateNextYear(y, m, 1);
    var first := DayNumber(y, m, 1);
    var length := DaysInMonth(y, m);
    if from <= first {
      n := WeekInMonth(y, m, 1, w);
    } else if from + 6 < first + length {
      n := WeekInMonth(y, m, from - first + 1, w);
    } else {
      n := WeekInMonth(y + 1, m, 1, w);
    }
  }

  /** 366 days and more after 1 March there is no 29 February when neither this year nor the next is long. */
  lemma NoLeapDayFrom(y: int, n: int)
    requires !Leap(y) && !Leap(y + 1) && DayNumber(y, 3, 1) <= n <= DayNumber(y, 3, 1) + 366
    ensures !IsLeapDay(n)
  {
    NextYear(y);
    NextYear(y + 1);
    if n < DaysBeforeYear(y + 1) { YearUnique(n, y); } else { YearUnique(n, y + 1); }
    DateOfDay(n);
  }

  lemma LeapYearsApart(z: int, y: int)
    requires Leap(z) && Leap(y) && z < y
    ensures z + 4 <= y
  {
  }

  lemma LeapDayIs(n: int)
    requires IsLeapDay(n)
    ensures Leap(DateOf(n).year) && n == DaysBeforeYear(DateOf(n).year) + 59
  {
    DateOfDay(n);
  }

  /** 1 January 2024, a Monday. */
  const MONDAY: int := 738885

  /** Monday is 1, and the weekdays come round from 0 for Sunday to 6 in turn. */
  lemma WeekdaysInTurn(n: int)
    ensures DayNumber(2024, 1, 1) == MONDAY && Weekday(MONDAY) == 1
    ensures 0 <= Weekday(n) <= 6
    ensures Weekday(n + 1) == if Weekday(n) == 6 then 0 else Weekday(n) + 1
  {
  }

  /** A day is a weekday exactly when it is whole weeks from that weekday after the known Monday. */
  lemma WeekdayIff(n: int, w: int)
    requires 0 <= w <= 6
    ensures Weekday(n) == w <==> (n - (MONDAY + w - 1)) % 7 == 0
  {
  }

  /** A year and a day before 29 February there is no other. */
  lemma NoLeapDayBefore(n: int, u: int)
    requires IsLeapDay(n) && n - 367 <= u < n
    ensures !IsLeapDay(u)
  {
    if IsLeapDay(u) {
      LeapDayIs(n);
      LeapDayIs(u);
      var z, y := DateOf(u).year, DateOf(n).year;
      if y <= z {
        YearsOrdered(y, z);
      } else {
        LeapYearsApart(z, y);
        YearsOrdered(z, y);
      }
      assert false;
    }
  }
}
