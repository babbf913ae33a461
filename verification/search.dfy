/**
The forward search by day, hour and minute, and the minute-by-minute scan it
stands for, over any pattern of days and clock values.
*/
module Search {
  import opened Common
  import opened Calendar

  /** dates says which day numbers count. */
  datatype Pattern = Pattern(minutes: set<int>, hours: set<int>, dates: int -> bool)

  predicate Fires(p: Pattern, t: int) {
    MinuteOf(t) in p.minutes && HourOf(t) in p.hours && p.dates(DayOf(t))
  }

  /** The clock sets hold clock values. */
  ghost predicate ClockValues(p: Pattern) {
    (forall m :: m in p.minutes ==> 0 <= m < 60) && (forall h :: h in p.hours ==> 0 <= h < 24)
  }

  ghost predicate Quiet(p: Pattern, from: int, until: int) {
    forall u :: from < u < until ==> !Fires(p, u)
  }

  /** t is the first firing after from. */
  ghost predicate IsNext(p: Pattern, from: int, t: int) {
    from < t && Fires(p, t) && Quiet(p, from, t)
  }

  /** The minute-by-minute scan. */
  function Scan(p: Pattern, from: int, until: int): (r: Option<int>)
    ensures r.None? <==> Quiet(p, from, until)
    ensures r.Some? ==> r.value < until && IsNext(p, from, r.value)
    decreases until - from
  {
    if from + 1 >= until then None
    else if Fires(p, from + 1) then Some(from + 1)
    else Scan(p, from + 1, until)
  }

  lemma ScanFinds(p: Pattern, from: int, until: int, t: int)
    requires IsNext(p, from, t) && t < until
    ensures Scan(p, from, until) == Some(t)
  {
  }

  // --- the search ---

  predicate Increasing(s: seq<int>) {
    forall i, j :: 0 <= i < j < |s| ==> s[i] < s[j]
  }

  lemma {:induction false} LeastExists(s: set<int>) returns (x: int)
    requires s != {}
    ensures x in s && forall y :: y in s ==> x <= y
    decreases s
  {
    var first := Pick(s);
    x := first;
    if |s| > 1 {
      assert |s - {first}| == |s| - 1;
      var rest := LeastExists(s - {first});
      x := if rest < first then rest else first;
      assert forall y :: y in s ==> y == first || y in s - {first};
    } else {
      assert |s - {first}| == 0;
      assert forall y :: y in s ==> y == first || y in s - {first};
    }
  }

  method SortedKeys(keys: set<int>) returns (out: seq<int>)
    ensures Increasing(out)
    ensures forall x :: x in out <==> x in keys
  {
    out := [];
    var rest := keys;
    while rest != {}
      invariant Increasing(out)
      invariant forall x :: x in keys <==> x in out || x in rest
      invariant forall i, y :: 0 <= i < |out| && y in rest ==> out[i] < y
      decreases rest
    {
      ghost var least := LeastExists(rest);
      var x :| x in rest && forall y :: y in rest ==> x <= y;
      out := out + [x];
      rest := rest - {x};
    }
  }

  /** hours and minutes list the clock sets in order. */
  ghost predicate Lists(p: Pattern, hours: seq<int>, minutes: seq<int>) {
    && Increasing(hours) && (forall x :: x in hours <==> x in p.hours)
    && Increasing(minutes) && (forall x :: x in minutes <==> x in p.minutes)
  }

  /**
  What the standard library makes of a day, an hour and a minute: the moment
  they name when they are values of a clock, and anything when they are not.
  */
  type WallClock = (int, int, int) -> int

  ghost predicate Civil(date: WallClock) {
    forall day, h, m {:trigger date(day, h, m)} ::
      0 <= h < 24 && 0 <= m < 60 ==> date(day, h, m) == ClockTime(day, h, m)
  }

  /** The day counts and the pattern names the hour and the minute, and together they are not before start. */
  ghost predicate Offers(p: Pattern, date: WallClock, start: int, day: int, h: int, m: int) {
    p.dates(day) && h in p.hours && m in p.minutes && date(day, h, m) >= start
  }

  /** Day by day, hour by hour, minute by minute. */
  ghost predicate Sooner(day: int, h: int, m: int, day': int, h': int, m': int) {
    day < day' || (day == day' && (h < h' || (h == h' && m < m')))
  }

  ghost predicate NoneSooner(p: Pattern, date: WallClock, start: int, first: int, day: int, h: int, m: int) {
    forall day', h', m' :: first <= day' && Sooner(day', h', m', day, h, m) ==> !Offers(p, date, start, day', h', m')
  }

  ghost predicate OfferedFirst(p: Pattern, date: WallClock, start: int, first: int, last: int,
                               day: int, h: int, m: int)
  {
    first <= day <= last && Offers(p, date, start, day, h, m) && NoneSooner(p, date, start, first, day, h, m)
  }

  ghost predicate NoneOffered(p: Pattern, date: WallClock, start: int, first: int, last: int) {
    forall day, h, m :: first <= day <= last ==> !Offers(p, date, start, day, h, m)
  }

  /** The first of these days, hours and minutes, in their own order, that is not before start. */
  ghost predicate FirstOffer(p: Pattern, date: WallClock, start: int, first: int, last: int, r: Option<int>) {
    match r
    case Some(t) =>
      exists day, h, m :: OfferedFirst(p, date, start, first, last, day, h, m) && t == date(day, h, m)
    case None => NoneOffered(p, date, start, first, last)
  }

  lemma PlaceOf(keys: seq<int>, x: int) returns (i: nat)
    requires x in keys
    ensures i < |keys| && keys[i] == x
  {
    i :| 0 <= i < |keys| && keys[i] == x;
  }

  /** The hour and minute loops of one matching day. */
  method SearchDay(p: Pattern, date: WallClock, day: int, start: int, hours: seq<int>, minutes: seq<int>)
    returns (r: Option<int>)
    requires p.dates(day) && Lists(p, hours, minutes)
    ensures FirstOffer(p, date, start, day, day, r)
  {
    for i := 0 to |hours|
      invariant forall a, b :: 0 <= a < i && 0 <= b < |minutes| ==> date(day, hours[a], minutes[b]) < start
    {
      for j := 0 to |minutes|
        invariant forall b :: 0 <= b < j ==> date(day, hours[i], minutes[b]) < start
      {
        var candidate := date(day, hours[i], minutes[j]);
        if candidate >= start {
          assert hours[i] in hours && minutes[j] in minutes;
          forall h, m | Sooner(day, h, m, day, hours[i], minutes[j]) ensures !Offers(p, date, start, day, h, m) {
            if h in hours && m in minutes {
              var a := PlaceOf(hours, h);
              var b := PlaceOf(minutes, m);
            }
          }
          assert OfferedFirst(p, date, start, day, day, day, hours[i], minutes[j]);
          return Some(candidate);
        }
      }
    }
    forall h, m ensures !Offers(p, date, start, day, h, m) {
      if h in hours && m in minutes {
        var a := PlaceOf(hours, h);
        var b := PlaceOf(minutes, m);
      }
    }
    r := None;
  }

  /** time.Date of the fields of a minute, its seconds dropped. */
  method Truncate(date: WallClock, t: int) returns (r: int)
    requires Civil(date)
    ensures r == t
  {
    var d := DateOf(DayOf(t));
    r := date(DayNumber(d.year, d.month, d.day), HourOf(t), MinuteOf(t));
    PartsOfTime(t);
    RebuildTime(t);
  }

  method NextDay(day: int) returns (next: int)
    ensures next == day + 1
  {
    var d := DateOf(day);
    next := DayNumber(d.year, d.month, d.day + 1);
    StepDay(day);
  }

  const DEFAULT_SCAN_DAYS: nat := 366

  /** The first midnight the search does not reach. */
  function WindowEnd(from: int, days: int): int {
    Midnight(DayOf(from + 1) + days + 1)
  }

  /** What the search finds from the minute after from on. */
  ghost predicate Finds(p: Pattern, date: WallClock, from: int, days: nat, r: Option<int>) {
    FirstOffer(p, date, from + 1, DayOf(from + 1), DayOf(from + 1) + days, r)
  }

  lemma DayAfterDay(p: Pattern, date: WallClock, start: int, first: int, day: int, last: int, r: Option<int>)
    requires first <= day <= last && FirstOffer(p, date, start, first, day - 1, None)
    requires r.Some? && FirstOffer(p, date, start, day, day, r)
    ensures FirstOffer(p, date, start, first, last, r)
  {
    var d, h, m :| OfferedFirst(p, date, start, day, day, d, h, m) && r.value == date(d, h, m);
    assert OfferedFirst(p, date, start, first, last, d, h, m);
  }

  /** The days, then the hours and minutes of each. With clock values that is the minute-by-minute scan. */
  method FindNext(p: Pattern, date: WallClock, from: int, days: nat) returns (r: Option<int>)
    requires Civil(date)
    ensures Finds(p, date, from, days, r)
    ensures ClockValues(p) ==> r == Scan(p, from, WindowEnd(from, days))
  {
    var start := Truncate(date, from);
    start := start + 1;
    var hours := SortedKeys(p.hours);
    var minutes := SortedKeys(p.minutes);
    var day := DayOf(start);
    var i := 0;
    r := None;
    while i <= days
      invariant 0 <= i <= days + 1
      invariant day == DayOf(start) + i
      invariant r.None? && FirstOffer(p, date, start, DayOf(start), day - 1, None)
    {
      if p.dates(day) {
        r := SearchDay(p, date, day, start, hours, minutes);
        if r.Some? {
          DayAfterDay(p, date, start, DayOf(start), day, DayOf(start) + days, r);
          break;
        }
      }
      day := NextDay(day);
      i := i + 1;
    }
    if ClockValues(p) { FindsTheNext(p, date, from, days, r); }
  }

  /** A firing is an offer of its own day, hour and minute. */
  lemma FiringIsOffer(p: Pattern, date: WallClock, start: int, u: int)
    requires Civil(date) && start <= u
    ensures Fires(p, u) ==> Offers(p, date, start, DayOf(u), HourOf(u), MinuteOf(u))
  {
    PartsOfTime(u);
  }

  lemma OfferIsFiring(p: Pattern, date: WallClock, start: int, day: int, h: int, m: int)
    requires Civil(date) && ClockValues(p) && Offers(p, date, start, day, h, m)
    ensures var t := date(day, h, m);
            start <= t && Fires(p, t) && DayOf(t) == day && HourOf(t) == h && MinuteOf(t) == m
  {
    ClockTimeParts(day, h, m);
  }

  lemma TimeIsSooner(u: int, t: int)
    requires u < t
    ensures Sooner(DayOf(u), HourOf(u), MinuteOf(u), DayOf(t), HourOf(t), MinuteOf(t))
  {
    PartsOfTime(u);
    PartsOfTime(t);
  }

  lemma QuietBefore(p: Pattern, date: WallClock, start: int, first: int, t: int, u: int)
    requires Civil(date) && NoneSooner(p, date, start, first, DayOf(t), HourOf(t), MinuteOf(t))
    requires start <= u < t && first <= DayOf(u)
    ensures !Fires(p, u)
  {
    FiringIsOffer(p, date, start, u);
    TimeIsSooner(u, t);
  }

  lemma FindsTheNext(p: Pattern, date: WallClock, from: int, days: nat, r: Option<int>)
    requires Civil(date) && ClockValues(p) && Finds(p, date, from, days, r)
    ensures r == Scan(p, from, WindowEnd(from, days))
  {
    match r
    case None => ScanIsEmpty(p, date, from, days);
    case Some(t) =>
      var day, h, m := TakeOffer(p, date, from + 1, DayOf(from + 1), DayOf(from + 1) + days, t);
      OfferIsScanned(p, date, from, days, day, h, m);
  }

  lemma TakeOffer(p: Pattern, date: WallClock, start: int, first: int, last: int, t: int)
    returns (day: int, h: int, m: int)
    requires FirstOffer(p, date, start, first, last, Some(t))
    ensures OfferedFirst(p, date, start, first, last, day, h, m) && t == date(day, h, m)
  {
    day, h, m :| OfferedFirst(p, date, start, first, last, day, h, m) && t == date(day, h, m);
  }

  lemma ScanIsEmpty(p: Pattern, date: WallClock, from: int, days: nat)
    requires Civil(date) && Finds(p, date, from, days, None)
    ensures Scan(p, from, WindowEnd(from, days)) == None
  {
    var start, first := from + 1, DayOf(from + 1);
    forall u | from < u < WindowEnd(from, days) ensures !Fires(p, u) {
      DayOrder(u, first + days + 1);
      DayOrder(u, first);
      DayOrder(start, first);
      FiringIsOffer(p, date, start, u);
    }
  }

  lemma OfferIsScanned(p: Pattern, date: WallClock, from: int, days: nat, day: int, h: int, m: int)
    requires Civil(date) && ClockValues(p)
    requires OfferedFirst(p, date, from + 1, DayOf(from + 1), DayOf(from + 1) + days, day, h, m)
    ensures Scan(p, from, WindowEnd(from, days)) == Some(date(day, h, m))
  {
    var first, t := DayOf(from + 1), date(day, h, m);
    OfferIsFiring(p, date, from + 1, day, h, m);
    FoundIsNext(p, date, from, first, t);
    DayOrder(t, first + days + 1);
    ScanFinds(p, from, WindowEnd(from, days), t);
  }

  lemma FoundIsNext(p: Pattern, date: WallClock, from: int, first: int, t: int)
    requires Civil(date) && from < t && Fires(p, t) && first == DayOf(from + 1)
    requires NoneSooner(p, date, from + 1, first, DayOf(t), HourOf(t), MinuteOf(t))
    ensures IsNext(p, from, t)
  {
    forall u | from < u < t ensures !Fires(p, u) {
      DayOrder(u, first);
      DayOrder(from + 1, first);
      QuietBefore(p, date, from + 1, first, t, u);
    }
  }

  /** When the scan finds nothing the search does not either. */
  lemma FindsNothing(p: Pattern, date: WallClock, from: int, days: nat)
    requires Civil(date) && ClockValues(p) && Scan(p, from, WindowEnd(from, days)).None?
    ensures Finds(p, date, from, days, None)
  {
    var start, first := from + 1, DayOf(from + 1);
    forall day, h, m | first <= day <= first + days ensures !Offers(p, date, start, day, h, m) {
      if Offers(p, date, start, day, h, m) {
        OfferIsFiring(p, date, start, day, h, m);
        DayOrder(date(day, h, m), first + days + 1);
      }
    }
  }

  /** And it finds what the scan finds. */
  lemma FindsScanned(p: Pattern, date: WallClock, from: int, days: nat)
    requires Civil(date) && ClockValues(p) && Scan(p, from, WindowEnd(from, days)).Some?
    ensures Finds(p, date, from, days, Scan(p, from, WindowEnd(from, days)))
  {
    var start, first, t := from + 1, DayOf(from + 1), Scan(p, from, WindowEnd(from, days)).value;
    DayOrder(t, first + days + 1);
    DayOrder(t, first);
    DayOrder(start, first);
    FiringIsOffer(p, date, start, t);
    PartsOfTime(t);
    forall day, h, m | first <= day && Sooner(day, h, m, DayOf(t), HourOf(t), MinuteOf(t))
      ensures !Offers(p, date, start, day, h, m)
    {
      if Offers(p, date, start, day, h, m) {
        OfferIsFiring(p, date, start, day, h, m);
        SoonerIsTime(date(day, h, m), t);
      }
    }
    assert OfferedFirst(p, date, start, first, first + days, DayOf(t), HourOf(t), MinuteOf(t));
  }

  lemma SoonerIsTime(u: int, t: int)
    requires Sooner(DayOf(u), HourOf(u), MinuteOf(u), DayOf(t), HourOf(t), MinuteOf(t))
    ensures u < t
  {
    PartsOfTime(u);
    PartsOfTime(t);
  }

  // --- values no clock has ---

  /** What parsing gives: something in both sets, and nothing past the end of the hour or the day. */
  ghost predicate Bounded(p: Pattern) {
    && p.minutes != {} && (forall m :: m in p.minutes ==> m < 60)
    && p.hours != {} && (forall h :: h in p.hours ==> h < 24)
  }

  /** From every moment, in a window of any length and on any wall clock, the search gives what the scan gives. */
  ghost predicate AlwaysScans(p: Pattern) {
    forall date, from, days: nat, r ::
      Civil(date) && Finds(p, date, from, days, r) ==> r == Scan(p, from, WindowEnd(from, days))
  }

  lemma NoDateNoOffer(p: Pattern, date: WallClock, from: int, days: nat, r: Option<int>)
    requires (forall n :: !p.dates(n)) && Finds(p, date, from, days, r)
    ensures r == Scan(p, from, WindowEnd(from, days))
  {
    assert Quiet(p, from, WindowEnd(from, days));
  }

  /** The wall clock that puts every hour and minute no clock has at one moment. */
  function AllAt(t: int): (date: WallClock)
    ensures Civil(date)
  {
    (day, h, m) => if 0 <= h < 24 && 0 <= m < 60 then ClockTime(day, h, m) else t
  }

  /** The least hour and minute of a day come first in it, and are not a clock's if any of them is not. */
  lemma WildOfferIsFirst(p: Pattern, n: int, days: nat, t: int)
    requires Bounded(p) && !ClockValues(p) && p.dates(n) && Midnight(n) <= t
    ensures Finds(p, AllAt(t), Midnight(n) - 1, days, Some(t))
  {
    var h := LeastExists(p.hours);
    var m := LeastExists(p.minutes);
    assert DayOf(Midnight(n)) == n by { ClockTimeParts(n, 0, 0); }
    assert AllAt(t)(n, h, m) == t;
    assert OfferedFirst(p, AllAt(t), Midnight(n), n, n + days, n, h, m);
  }

  /** The search is the scan exactly for clock values, or if no date counts at all. */
  lemma AlwaysScansIff(p: Pattern)
    requires Bounded(p)
    ensures AlwaysScans(p) <==> ClockValues(p) || forall n :: !p.dates(n)
  {
    forall date, from, days: nat, r |
      (ClockValues(p) || forall n :: !p.dates(n)) && Civil(date) && Finds(p, date, from, days, r)
      ensures r == Scan(p, from, WindowEnd(from, days))
    {
      if ClockValues(p) { FindsTheNext(p, date, from, days, r); } else { NoDateNoOffer(p, date, from, days, r); }
    }
    if !ClockValues(p) && exists n :: p.dates(n) {
      var n :| p.dates(n);
      var from := Midnight(n) - 1;
      var end := WindowEnd(from, 0);
      assert DayOf(Midnight(n)) == n by { ClockTimeParts(n, 0, 0); }
      WildOfferIsFirst(p, n, 0, end);
      assert Scan(p, from, end) != Some(end);
    }
  }

  /** The hour before midnight carried into the day before: the search returns a moment that does not fire. */
  lemma CarriedHourIsWrong(p: Pattern, date: WallClock, n: int)
    requires p.minutes == {0} && p.hours == {-1, 1} && p.dates(n)
    requires Civil(date) && forall day :: date(day, -1, 0) == ClockTime(day, -1, 0)
    ensures var t := Midnight(n) - 60; Finds(p, date, t - 1, DEFAULT_SCAN_DAYS, Some(t)) && !Fires(p, t)
  {
    var t := Midnight(n) - 60;
    ClockTimeParts(n - 1, 23, 0);
    assert date(n, -1, 0) == t;
    forall day, h, m | n - 1 <= day && Sooner(day, h, m, n, -1, 0) ensures !Offers(p, date, t, day, h, m) {
      assert h in p.hours && day == n - 1 && m == 0 ==> date(day, h, m) < t;
    }
    assert OfferedFirst(p, date, t, n - 1, n - 1 + DEFAULT_SCAN_DAYS, n, -1, 0);
  }
}
