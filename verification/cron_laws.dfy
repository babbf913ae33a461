/**
What an expression text means, in dates and times: when it falls on a minute,
field by field, and what yearly and weekly texts come to.
*/
module CronLaws {
  import opened Common
  import opened Text
  import opened Calendar
  import opened CronExpr
  import opened CronTexts

  /** The bounds of the five fields. */
  lemma FieldBounds()
    ensures BoundsOf(MINUTE) == Bounds(0, 59) && BoundsOf(HOUR) == Bounds(0, 23)
    ensures BoundsOf(DAY_OF_MONTH) == Bounds(1, 31) && BoundsOf(MONTH) == Bounds(1, 12)
    ensures BoundsOf(DAY_OF_WEEK) == Bounds(0, 7)
  {
  }

  /** The day rule over the two day fields: both restricted means either. */
  ghost predicate OnDay(fields: seq<string>, dayOfMonth: bool, dayOfWeek: bool)
    requires |fields| == 5
  {
    && (fields[2] != "*" && fields[4] == "*" ==> dayOfMonth)
    && (fields[2] == "*" && fields[4] != "*" ==> dayOfWeek)
    && (fields[2] != "*" && fields[4] != "*" ==> dayOfMonth || dayOfWeek)
  }

  /** The weekday of a date, 0 for Sunday: whole days from a Monday. */
  function WeekdayOf(d: Date): int {
    (DayNumber(d.year, d.month, d.day) - MONDAY + 1) % 7
  }

  lemma WeekdayOfDay(n: int)
    ensures Weekday(n) == (n - MONDAY + 1) % 7
  {
    WeekdaysInTurn(n);
    assert n + 1 == n - MONDAY + 1 + 7 * 105555;
  }

  /** What the five fields say of a date, an hour and a minute; Sunday is 0 and 7. */
  ghost predicate Says(fields: seq<string>, d: Date, hour: int, minute: int)
    requires |fields| == 5
  {
    && Denoted(fields[0], Bounds(0, 59), minute) && Denoted(fields[1], Bounds(0, 23), hour)
    && Denoted(fields[3], Bounds(1, 12), d.month)
    && OnDay(fields, Denoted(fields[2], Bounds(1, 31), d.day),
             || Denoted(fields[4], Bounds(0, 7), WeekdayOf(d))
             || (WeekdayOf(d) == 0 && Denoted(fields[4], Bounds(0, 7), 7)))
  }

  lemma SetIsDenoted(e: Expr, field: string, k: nat, x: int)
    requires k < 4 && FiveFields(e) && FieldDescribes(e, field, k) && AllStay(field, BoundsOf(k))
    ensures x in e.sets[k] <==> Denoted(field, BoundsOf(k), x)
  {
    FieldExactIff(field, BoundsOf(k));
  }

  lemma WeekdaySetIsDenoted(e: Expr, field: string, w: int)
    requires FiveFields(e) && FieldDescribes(e, field, 4) && AllStay(field, BoundsOf(4)) && 0 <= w <= 6
    ensures w in e.sets[4] <==> Denoted(field, BoundsOf(4), w) || (w == 0 && Denoted(field, BoundsOf(4), 7))
  {
    FieldExactIff(field, BoundsOf(4));
  }

  lemma PartsOfDay(n: int, hour: int, minute: int)
    requires 0 <= hour < 24 && 0 <= minute < 60
    ensures var t := 1440 * n + 60 * hour + minute;
            MinuteOf(t) == minute && HourOf(t) == hour && DayOf(t) == n
  {
    ClockTimeParts(n, hour, minute);
    assert ClockTime(n, hour, minute) == 1440 * n + 60 * hour + minute;
  }

  lemma MatchesAt(e: Expr, n: int, hour: int, minute: int)
    requires FiveFields(e) && 0 <= hour < 24 && 0 <= minute < 60
    ensures Matches(e, 1440 * n + 60 * hour + minute)
            <==> minute in e.sets[MINUTE] && hour in e.sets[HOUR] && DateMatches(e, n)
  {
    PartsOfDay(n, hour, minute);
  }

  lemma DateMatchesAt(e: Expr, d: Date)
    requires FiveFields(e) && ValidDate(d)
    ensures DateMatches(e, DayNumber(d.year, d.month, d.day))
            <==> d.month in e.sets[MONTH] && DayMatches(e, d.day, WeekdayOf(d))
  {
    DayOfDate(d);
    WeekdayOfDay(DayNumber(d.year, d.month, d.day));
  }

  lemma MatchesOnDate(e: Expr, d: Date, hour: int, minute: int)
    requires FiveFields(e) && ValidDate(d) && 0 <= hour < 24 && 0 <= minute < 60
    ensures Matches(e, 1440 * DayNumber(d.year, d.month, d.day) + 60 * hour + minute)
            <==> && minute in e.sets[MINUTE] && hour in e.sets[HOUR] && d.month in e.sets[MONTH]
                 && DayMatches(e, d.day, WeekdayOf(d))
  {
    MatchesAt(e, DayNumber(d.year, d.month, d.day), hour, minute);
    DateMatchesAt(e, d);
  }

  ghost predicate NoOverflow(fields: seq<string>)
    requires |fields| == 5
  {
    forall k: nat :: k < 5 ==> AllStay(fields[k], BoundsOf(k))
  }

  lemma SetsSay(e: Expr, fields: seq<string>, d: Date, hour: int, minute: int)
    requires FiveFields(e) && |fields| == 5 && NoOverflow(fields)
    requires forall k: nat :: k < 5 ==> FieldDescribes(e, fields[k], k)
    ensures Says(fields, d, hour, minute)
            <==> && minute in e.sets[MINUTE] && hour in e.sets[HOUR] && d.month in e.sets[MONTH]
                 && DayMatches(e, d.day, WeekdayOf(d))
  {
    FieldBounds();
    assert FieldDescribes(e, fields[DAY_OF_MONTH], DAY_OF_MONTH) && FieldDescribes(e, fields[DAY_OF_WEEK], DAY_OF_WEEK);
    SetIsDenoted(e, fields[MINUTE], MINUTE, minute);
    SetIsDenoted(e, fields[HOUR], HOUR, hour);
    SetIsDenoted(e, fields[DAY_OF_MONTH], DAY_OF_MONTH, d.day);
    SetIsDenoted(e, fields[MONTH], MONTH, d.month);
    WeekdaySetIsDenoted(e, fields[DAY_OF_WEEK], WeekdayOf(d));
  }

  /**
  An accepted text falls on a minute of a date exactly when its fields say so.
  A step that overflows is what `FieldExactIff` is about.
  */
  lemma MatchesIff(text: string, d: Date, hour: int, minute: int)
    requires Parse(text).Ok? && |Fields(text)| == 5 && NoOverflow(Fields(text))
    requires ValidDate(d) && 0 <= hour < 24 && 0 <= minute < 60
    ensures Matches(Parse(text).value, 1440 * DayNumber(d.year, d.month, d.day) + 60 * hour + minute)
            <==> Says(Fields(text), d, hour, minute)
  {
    ParseIff(text);
    SetsSay(Parse(text).value, Fields(text), d, hour, minute);
    MatchesOnDate(Parse(text).value, d, hour, minute);
  }

  // --- once a year ---

  /** A text of a minute, an hour, a day and a month falls on that minute of that date, in every year that has it. */
  lemma YearlyIff(e: Expr, minute: int, hour: int, day: int, month: int, t: int)
    requires Yearly(e, minute, hour, day, month) && 0 <= minute < 60 && 0 <= hour < 24
    ensures Matches(e, t)
            <==> exists y :: ValidDate(Date(y, month, day)) && t == 1440 * DayNumber(y, month, day) + 60 * hour + minute
  {
    if Matches(e, t) {
      YearOfMatch(e, minute, hour, day, month, t);
    }
    if y :| ValidDate(Date(y, month, day)) && t == 1440 * DayNumber(y, month, day) + 60 * hour + minute {
      FiresInYear(e, minute, hour, day, month, y);
    }
  }

  lemma FiresInYear(e: Expr, minute: int, hour: int, day: int, month: int, y: int)
    requires Yearly(e, minute, hour, day, month) && 0 <= minute < 60 && 0 <= hour < 24
    requires ValidDate(Date(y, month, day))
    ensures Matches(e, 1440 * DayNumber(y, month, day) + 60 * hour + minute)
  {
    MatchesOnDate(e, Date(y, month, day), hour, minute);
  }

  lemma YearOfMatch(e: Expr, minute: int, hour: int, day: int, month: int, t: int)
    requires Yearly(e, minute, hour, day, month) && Matches(e, t)
    ensures var y := DateOf(DayOf(t)).year;
            ValidDate(Date(y, month, day)) && t == 1440 * DayNumber(y, month, day) + 60 * hour + minute
  {
    PartsOfTime(t);
    DateOfDay(DayOf(t));
    assert DateOf(DayOf(t)) == Date(DateOf(DayOf(t)).year, month, day);
  }

  // --- once a week ---

  lemma StarSet(field: string, b: Bounds, x: int)
    requires field == "*" && SaneBounds(b)
    ensures FieldSet(field, b).Ok? && (x in FieldSet(field, b).value <==> b.min <= x <= b.max)
  {
    StarField(field, b);
    StarSpan(field, b);
    VisitedExactly(b.min, b.max, 1, x);
    assert x >= b.min ==> x == Term(b.min, 1, x - b.min);
  }

  lemma StarSpan(field: string, b: Bounds)
    requires field == "*" && SaneBounds(b)
    ensures FieldSet(field, b) == Ok(Expand(Span(b.min, b.max, 1)))
  {
    assert field[..IndexOf(field, '/')] == field;
    assert b.min in Expand(Span(b.min, b.max, 1));
    OnePart(field, b);
  }

  /** e falls on one minute of one weekday. */
  ghost predicate Weekly(e: Expr, minute: int, hour: int, weekday: int) {
    && FiveFields(e)
    && e.sets[MINUTE] == {minute} && e.sets[HOUR] == {hour} && e.sets[DAY_OF_WEEK] == {weekday}
    && (forall m :: 1 <= m <= 12 ==> m in e.sets[MONTH]) && e.star[DAY_OF_MONTH] && !e.star[DAY_OF_WEEK]
  }

  lemma WeeklyMatches(e: Expr, minute: int, hour: int, weekday: int, t: int)
    requires Weekly(e, minute, hour, weekday)
    ensures Matches(e, t) <==> MinuteOf(t) == minute && HourOf(t) == hour && Weekday(DayOf(t)) == weekday
  {
    DateOfDay(DayOf(t));
  }

  /** Such a text falls on the minutes whole weeks from its one in the week of Monday 1 January 2024. */
  lemma WeeklyIff(e: Expr, minute: int, hour: int, weekday: int, t: int)
    requires Weekly(e, minute, hour, weekday) && 0 <= minute < 60 && 0 <= hour < 24 && 0 <= weekday <= 6
    ensures Matches(e, t) <==> (t - FirstTime(minute, hour, weekday)) % 10080 == 0
  {
    WeeklyMatches(e, minute, hour, weekday, t);
    WeeklyParts(minute, hour, weekday, t);
  }

  /** The minute of the weekday on or after Sunday 31 December 2023. */
  function FirstTime(minute: int, hour: int, weekday: int): int {
    1440 * (DayNumber(2024, 1, 1) + weekday - 1) + 60 * hour + minute
  }

  lemma WeeklyParts(minute: int, hour: int, weekday: int, t: int)
    requires 0 <= minute < 60 && 0 <= hour < 24 && 0 <= weekday <= 6
    ensures (t - FirstTime(minute, hour, weekday)) % 10080 == 0
            <==> MinuteOf(t) == minute && HourOf(t) == hour && Weekday(DayOf(t)) == weekday
  {
    var day := MONDAY + weekday - 1;
    WeekdaysInTurn(0);
    assert FirstTime(minute, hour, weekday) == 1440 * day + 60 * hour + minute;
    WeekOfTime(t, day, hour, minute);
    WeekdayIff(DayOf(t), weekday);
  }

  lemma WeekOfTime(t: int, day: int, hour: int, minute: int)
    requires 0 <= minute < 60 && 0 <= hour < 24
    ensures (t - (1440 * day + 60 * hour + minute)) % 10080 == 0
            <==> MinuteOf(t) == minute && HourOf(t) == hour && (DayOf(t) - day) % 7 == 0
  {
    PartsOfTime(t);
    var days, rest := DayOf(t) - day, 60 * (HourOf(t) - hour) + MinuteOf(t) - minute;
    assert t - (1440 * day + 60 * hour + minute) == 1440 * days + rest;
    WeekRemainder(days, rest);
  }

  lemma WeekRemainder(days: int, rest: int)
    requires -1440 < rest < 1440
    ensures (1440 * days + rest) % 10080 == 0 <==> rest == 0 && days % 7 == 0
  {
    if (1440 * days + rest) % 10080 == 0 {
      var weeks := (1440 * days + rest) / 10080;
      assert 1440 * days + rest == 10080 * weeks;
    }
    if rest == 0 && days % 7 == 0 {
      var weeks := days / 7;
      assert days == 7 * weeks && 1440 * days == 10080 * weeks;
    }
  }

  /** Each field is a number within its bounds or a star. */
  ghost predicate Plain(fields: seq<string>, ns: seq<Option<nat>>) {
    && |fields| == 5 && |ns| == 5
    && forall k: nat :: k < 5 ==>
         if ns[k].Some? then fields[k] == Itoa(ns[k].value) && BoundsOf(k).min <= ns[k].value <= BoundsOf(k).max
         else fields[k] == "*"
  }

  /** What such a field leaves in its set. */
  ghost predicate Holds(e: Expr, k: nat, n: Option<nat>)
    requires FiveFields(e) && k < 5
  {
    && (e.star[k] <==> n.None?)
    && (n.Some? ==> e.sets[k] == {if k == DAY_OF_WEEK && n.value == 7 then 0 else n.value})
    && (n.None? && k < 4 ==> forall x :: x in e.sets[k] <==> BoundsOf(k).min <= x <= BoundsOf(k).max)
  }

  lemma PlainField(e: Expr, field: string, k: nat, n: Option<nat>)
    requires FiveFields(e) && k < 5 && FieldDescribes(e, field, k)
    requires if n.Some? then IsNumber(field, k, n.value) else field == "*"
    ensures Holds(e, k, n)
  {
    if n.None? {
      forall x ensures x in FieldSet(field, BoundsOf(k)).value <==> BoundsOf(k).min <= x <= BoundsOf(k).max {
        StarSet(field, BoundsOf(k), x);
      }
    } else {
      assert FoldSunday({n.value}) == {if n.value == 7 then 0 else n.value};
    }
  }

  lemma PlainParses(fields: seq<string>, ns: seq<Option<nat>>)
    requires Plain(fields, ns)
    ensures var r := Parse(Join(fields)); r.Ok? && forall k: nat :: k < 5 ==> Holds(r.value, k, ns[k])
  {
    forall k: nat | k < 5 ensures IsToken(fields[k]) && FieldSet(fields[k], BoundsOf(k)).Ok? {
      if ns[k].Some? { NumberIs(fields[k], k, ns[k].value); } else { StarField(fields[k], BoundsOf(k)); }
    }
    JoinedParses(fields);
    var e := Parse(Join(fields)).value;
    forall k: nat | k < 5 ensures Holds(e, k, ns[k]) {
      if ns[k].Some? { NumberIs(fields[k], k, ns[k].value); }
      PlainField(e, fields[k], k, ns[k]);
    }
  }

  lemma HoldsWeekly(e: Expr, ns: seq<Option<nat>>)
    requires FiveFields(e) && |ns| == 5 && forall k: nat :: k < 5 ==> Holds(e, k, ns[k])
    requires ns[0].Some? && ns[1].Some? && ns[2].None? && ns[3].None? && ns[4].Some?
    ensures Weekly(e, ns[0].value, ns[1].value, if ns[4].value == 7 then 0 else ns[4].value)
  {
    assert Holds(e, MINUTE, ns[0]) && Holds(e, HOUR, ns[1]) && Holds(e, DAY_OF_MONTH, ns[2]);
    assert Holds(e, MONTH, ns[3]) && Holds(e, DAY_OF_WEEK, ns[4]);
  }

  /** A minute, an hour, two stars and a weekday, 7 for Sunday too. */
  lemma WeeklyParses(fields: seq<string>, ns: seq<Option<nat>>)
    requires Plain(fields, ns) && ns[0].Some? && ns[1].Some? && ns[2].None? && ns[3].None? && ns[4].Some?
    ensures var r := Parse(Join(fields));
            r.Ok? && Weekly(r.value, ns[0].value, ns[1].value, if ns[4].value == 7 then 0 else ns[4].value)
  {
    PlainParses(fields, ns);
    HoldsWeekly(Parse(Join(fields)).value, ns);
  }

  lemma MondayFields() returns (fields: seq<string>, ns: seq<Option<nat>>)
    ensures Plain(fields, ns) && ns == [Some(0), Some(0), None, None, Some(1)]
    ensures Join(fields) == "0 0 * * 1"
  {
    ns := [Some(0), Some(0), None, None, Some(1)];
    fields := [Itoa(ns[0].value), Itoa(ns[1].value), "*", "*", Itoa(ns[4].value)];
    JoinFive(fields[0], fields[1], fields[2], fields[3], fields[4]);
  }

  lemma MondayParses(text: string)
    requires text == "0 0 * * 1"
    ensures Parse(text).Ok? && Weekly(Parse(text).value, 0, 0, 1)
  {
    var fields, ns := MondayFields();
    WeeklyParses(fields, ns);
  }

  lemma WeeklyMonday(e: Expr, t: int)
    requires Weekly(e, 0, 0, 1)
    ensures Matches(e, t) <==> (t - 1440 * DayNumber(2024, 1, 1)) % 10080 == 0
  {
    WeeklyIff(e, 0, 0, 1, t);
  }

  /** "0 0 * * 1" falls exactly on the midnights whole weeks from that of 1 January 2024, a Monday. */
  lemma MondayText(text: string, t: int)
    requires text == "0 0 * * 1"
    ensures Parse(text).Ok?
    ensures Matches(Parse(text).value, t) <==> (t - 1440 * DayNumber(2024, 1, 1)) % 10080 == 0
  {
    MondayParses(text);
    WeeklyMonday(Parse(text).value, t);
  }

  /** "0 0 29 2 *" falls exactly on the midnights of 29 February in leap years. */
  lemma LeapDayTextIff(text: string, t: int)
    requires text == "0 0 29 2 *"
    ensures Parse(text).Ok?
    ensures Matches(Parse(text).value, t)
            <==> exists y :: (y % 4 == 0 && (y % 100 != 0 || y % 400 == 0)) && t == 1440 * DayNumber(y, 2, 29)
  {
    LeapDayText(text);
    YearlyIff(Parse(text).value, 0, 0, 29, 2, t);
    if y :| ValidDate(Date(y, 2, 29)) && t == 1440 * DayNumber(y, 2, 29) + 60 * 0 + 0 {
      assert y % 4 == 0 && (y % 100 != 0 || y % 400 == 0) && t == 1440 * DayNumber(y, 2, 29);
    }
    if y :| (y % 4 == 0 && (y % 100 != 0 || y % 400 == 0)) && t == 1440 * DayNumber(y, 2, 29) {
      assert ValidDate(Date(y, 2, 29)) && t == 1440 * DayNumber(y, 2, 29) + 60 * 0 + 0;
    }
  }
}
