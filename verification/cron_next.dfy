/**
The next firing of a cron expression: the search agrees with the membership
test and finds its least match, and a window of 366 days finds a firing of
every expression that fires on any date but 29 February.
*/
module CronNext {
  import opened Common
  import opened Text
  import opened Calendar
  import opened CronExpr
  import opened Search

  function PatternOf(e: Expr): Pattern
    requires FiveFields(e)
  {
    Pattern(e.sets[MINUTE], e.sets[HOUR], n => DateMatches(e, n))
  }

  /** The pattern fires exactly when the membership test says so. */
  lemma FiresIsMatches(e: Expr, t: int)
    requires FiveFields(e)
    ensures Fires(PatternOf(e), t) <==> Matches(e, t)
  {
  }

  /** Texts whose minute and hour steps do not overflow give clock values, and only those. */
  lemma ClockValuesIff(text: string)
    ensures Parse(text).Ok? ==>
              && |Fields(text)| == 5
              && (ClockValues(PatternOf(Parse(text).value))
                  <==> AllStay(Fields(text)[MINUTE], BoundsOf(MINUTE)) && AllStay(Fields(text)[HOUR], BoundsOf(HOUR)))
  {
    ParseIff(text);
    if Parse(text).Err? { return; }
    var e, fields := Parse(text).value, Fields(text);
    assert FieldDescribes(e, fields[MINUTE], MINUTE) && FieldDescribes(e, fields[HOUR], HOUR);
    FieldInBoundsIff(fields[MINUTE], BoundsOf(MINUTE));
    FieldInBoundsIff(fields[HOUR], BoundsOf(HOUR));
  }

  lemma ParsedIsBounded(text: string)
    requires Parse(text).Ok?
    ensures Bounded(PatternOf(Parse(text).value))
  {
    ParseIff(text);
    var e, fields := Parse(text).value, Fields(text);
    assert FieldDescribes(e, fields[MINUTE], MINUTE) && FieldDescribes(e, fields[HOUR], HOUR);
    FieldTop(fields[MINUTE], BoundsOf(MINUTE));
    FieldTop(fields[HOUR], BoundsOf(HOUR));
  }

  lemma DatesOfPattern(e: Expr)
    requires FiveFields(e)
    ensures (forall n :: !PatternOf(e).dates(n)) <==> forall n :: !DateMatches(e, n)
  {
    assert forall n :: PatternOf(e).dates(n) == DateMatches(e, n);
  }

  /**
  The search is the minute-by-minute scan, from every moment and on any wall
  clock, exactly for texts whose minute and hour steps do not overflow, or if no
  date matches at all.
  */
  lemma SearchIsScanIff(text: string)
    ensures Parse(text).Ok? ==>
              && |Fields(text)| == 5
              && (AlwaysScans(PatternOf(Parse(text).value)) <==>
                    || (AllStay(Fields(text)[MINUTE], BoundsOf(MINUTE)) && AllStay(Fields(text)[HOUR], BoundsOf(HOUR)))
                    || forall n :: !DateMatches(Parse(text).value, n))
  {
    ClockValuesIff(text);
    if Parse(text).Err? { return; }
    ParsedIsBounded(text);
    AlwaysScansIff(PatternOf(Parse(text).value));
    DatesOfPattern(Parse(text).value);
  }

  function ScanDays(maxDays: int): nat {
    if maxDays <= 0 then DEFAULT_SCAN_DAYS else maxDays
  }

  function NextRun(e: Expr, from: int, maxDays: int): Option<int>
    requires FiveFields(e)
  {
    Scan(PatternOf(e), from, WindowEnd(from, ScanDays(maxDays)))
  }

  /**
  The result is the least minute after from that the membership test accepts,
  and there is none exactly when no minute up to the end of the last scanned
  calendar day is accepted.
  */
  lemma NextRunIsLeast(e: Expr, from: int, maxDays: int)
    requires FiveFields(e)
    ensures var r := NextRun(e, from, maxDays);
            match r
            case Some(t) =>
              && from < t < WindowEnd(from, ScanDays(maxDays))
              && Matches(e, t)
              && forall u :: from < u < t ==> !Matches(e, u)
            case None => forall u :: from < u < WindowEnd(from, ScanDays(maxDays)) ==> !Matches(e, u)
  {
    var p := PatternOf(e);
    var r := NextRun(e, from, maxDays);
    var until := if r.Some? then r.value else WindowEnd(from, ScanDays(maxDays));
    assert Quiet(p, from, until);
    forall u | from < u < until ensures !Matches(e, u) {
      FiresIsMatches(e, u);
      assert !Fires(p, u);
    }
    if r.Some? { FiresIsMatches(e, r.value); }
  }

  /** The last minute of the maxDays-th day after the one the search starts on; 366 days for zero or less. */
  function LastScanned(from: int, maxDays: int): int {
    1440 * ((from + 1) / 1440 + (if maxDays <= 0 then 366 else maxDays) + 1) - 1
  }

  /**
  So whatever the search by day, hour and minute returns for clock values is the
  least match after from, or there is none in its window.
  */
  lemma FoundIsLeast(e: Expr, date: WallClock, from: int, maxDays: int, r: Option<int>)
    requires FiveFields(e) && Civil(date) && ClockValues(PatternOf(e))
    requires Finds(PatternOf(e), date, from, ScanDays(maxDays), r)
    ensures match r
            case Some(t) =>
              && from < t <= LastScanned(from, maxDays)
              && Matches(e, t)
              && forall u :: from < u < t ==> !Matches(e, u)
            case None => forall u :: from < u <= LastScanned(from, maxDays) ==> !Matches(e, u)
  {
    FindsTheNext(PatternOf(e), date, from, ScanDays(maxDays), r);
    NextRunIsLeast(e, from, maxDays);
  }

  /**
  The search by day, hour and minute, which gives what the minute-by-minute scan
  gives unless a step of the minute or hour field overflowed.
  */
  method FindNextRun(e: Expr, date: WallClock, from: int, maxDays: int) returns (r: Option<int>)
    requires FiveFields(e) && Civil(date)
    ensures Finds(PatternOf(e), date, from, ScanDays(maxDays), r)
    ensures ClockValues(PatternOf(e)) ==> r == NextRun(e, from, maxDays)
  {
    var days := if maxDays <= 0 then DEFAULT_SCAN_DAYS else maxDays;
    r := FindNext(PatternOf(e), date, from, days);
  }

  // --- the default window ---

  /** Some match lies on a date other than 29 February. */
  ghost predicate FiresOffLeapDay(e: Expr)
    requires FiveFields(e)
  {
    exists t :: Matches(e, t) && !IsLeapDay(DayOf(t))
  }

  /** The day part of any match off 29 February comes up again in any 366 days. */
  lemma DateMatchRecurs(e: Expr, n0: int, from: int) returns (n: int)
    requires FiveFields(e) && DateMatches(e, n0) && !IsLeapDay(n0)
    ensures from <= n < from + 366 && DateMatches(e, n)
  {
    var d := DateOf(n0);
    DateOfDay(n0);
    assert ValidDate(d);
    if Weekday(n0) in e.sets[DAY_OF_WEEK] && !e.star[DAY_OF_WEEK] {
      n := WeekdayInMonthRecurs(from, d.month, Weekday(n0));
    } else {
      n := DateRecurs(from, d.month, d.day);
    }
  }

  /** Every starting moment finds a firing of such an expression. */
  lemma WindowFinds(e: Expr, from: int)
    requires FiveFields(e)
    ensures FiresOffLeapDay(e) ==> NextRun(e, from, DEFAULT_SCAN_DAYS).Some?
  {
    if !FiresOffLeapDay(e) { return; }
    var t :| Matches(e, t) && !IsLeapDay(DayOf(t));
    var first := DayOf(from + 1) + 1;
    var n := DateMatchRecurs(e, DayOf(t), first);
    PartsOfTime(t);
    var u := ClockTime(n, HourOf(t), MinuteOf(t));
    ClockTimeParts(n, HourOf(t), MinuteOf(t));
    NextRunIsLeast(e, from, DEFAULT_SCAN_DAYS);
    assert Matches(e, u);
  }

  /** The last minute before 1 March. */
  function BeforeMarch(y: int): int {
    Midnight(DayNumber(y, 3, 1)) - 1
  }

  /** From there the window finds no firing on 29 February if the year and the next are short. */
  lemma NoLeapDayFound(e: Expr, y: int)
    requires FiveFields(e) && !Leap(y) && !Leap(y + 1)
    ensures var r := NextRun(e, BeforeMarch(y), DEFAULT_SCAN_DAYS);
            r.Some? ==> Matches(e, r.value) && !IsLeapDay(DayOf(r.value))
  {
    var r := NextRun(e, BeforeMarch(y), DEFAULT_SCAN_DAYS);
    NextRunIsLeast(e, BeforeMarch(y), DEFAULT_SCAN_DAYS);
    if r.Some? { NoLeapDayFrom(y, DayOf(r.value)); }
  }

  /** The scan of 366 days finds a firing from every moment exactly for such expressions. */
  lemma ScanCompleteIff(e: Expr)
    requires FiveFields(e)
    ensures (forall from :: NextRun(e, from, DEFAULT_SCAN_DAYS).Some?) <==> FiresOffLeapDay(e)
  {
    if FiresOffLeapDay(e) {
      forall from ensures NextRun(e, from, DEFAULT_SCAN_DAYS).Some? {
        WindowFinds(e, from);
      }
    }
    if forall from :: NextRun(e, from, DEFAULT_SCAN_DAYS).Some? {
      NoLeapDayFound(e, 2021);
      assert NextRun(e, BeforeMarch(2021), DEFAULT_SCAN_DAYS).Some?;
    }
  }

  lemma SearchGivesNextRun(e: Expr, date: WallClock, from: int)
    requires FiveFields(e) && Civil(date) && ClockValues(PatternOf(e))
    ensures Finds(PatternOf(e), date, from, DEFAULT_SCAN_DAYS, NextRun(e, from, DEFAULT_SCAN_DAYS))
  {
    if NextRun(e, from, DEFAULT_SCAN_DAYS).None? {
      FindsNothing(PatternOf(e), date, from, DEFAULT_SCAN_DAYS);
    } else {
      FindsScanned(PatternOf(e), date, from, DEFAULT_SCAN_DAYS);
    }
  }

  /**
  With clock values the search's default window of 366 days is complete exactly
  for the expressions that fire on some date other than 29 February.
  */
  lemma WindowCompleteIff(e: Expr, date: WallClock)
    requires FiveFields(e) && Civil(date) && ClockValues(PatternOf(e))
    ensures (forall from, r :: Finds(PatternOf(e), date, from, DEFAULT_SCAN_DAYS, r) ==> r.Some?)
            <==> FiresOffLeapDay(e)
  {
    ScanCompleteIff(e);
    forall from, r | Finds(PatternOf(e), date, from, DEFAULT_SCAN_DAYS, r)
      ensures r == NextRun(e, from, DEFAULT_SCAN_DAYS)
    {
      FindsTheNext(PatternOf(e), date, from, DEFAULT_SCAN_DAYS, r);
    }
    forall from ensures Finds(PatternOf(e), date, from, DEFAULT_SCAN_DAYS, NextRun(e, from, DEFAULT_SCAN_DAYS)) {
      SearchGivesNextRun(e, date, from);
    }
  }
}
