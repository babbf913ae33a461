/**
A job's upcoming runs: every active valid expression lists its next firings,
and the merge is the first n firings of their union exactly when no firing is
one of expressions for 29 February alone.
*/
module JobNextRuns {
  import opened Common
  import opened Calendar
  import opened CronExpr
  import opened Search
  import opened CronNext
  import opened CronTexts
  import opened Upcoming

  /** It fires, and on 29 February only. */
  ghost predicate OnlyLeapDay(e: Expr)
    requires FiveFields(e)
  {
    (exists t :: Matches(e, t)) && !FiresOffLeapDay(e)
  }

  /** dates is periodic over the calendar's cycle of 400 years. */
  ghost predicate Repeats(dates: int -> bool) {
    forall n :: dates(n) ==> dates(n + 146097)
  }

  lemma DatesRepeat(e: Expr, dates: int -> bool)
    requires FiveFields(e) && forall n :: dates(n) == DateMatches(e, n)
    ensures Repeats(dates)
  {
    forall n | dates(n) ensures dates(n + 146097) {
      CycleRepeats(n);
    }
  }

  lemma {:induction false} RepeatsLater(dates: int -> bool, day: int, after: int) returns (later: int)
    requires Repeats(dates) && dates(day)
    ensures after < later && dates(later)
    decreases after - day
  {
    if after < day { return day; }
    later := RepeatsLater(dates, day + 146097, after);
  }

  /** An expression that ever fires fires again after any moment. */
  lemma FiresAgain(e: Expr, t: int, from: int) returns (u: int)
    requires FiveFields(e)
    ensures Matches(e, t) ==> from < u && Matches(e, u)
  {
    if !Matches(e, t) { return t; }
    var dates := n => DateMatches(e, n);
    DatesRepeat(e, dates);
    var day := RepeatsLater(dates, DayOf(t), DayOf(from));
    PartsOfTime(t);
    u := ClockTime(day, HourOf(t), MinuteOf(t));
    ClockTimeParts(day, HourOf(t), MinuteOf(t));
  }

  /** The window always finds what is still to come exactly when this is not the leap-day case. */
  lemma WindowCompleteUnlessLeap(e: Expr)
    requires FiveFields(e)
    ensures WindowComplete(PatternOf(e)) <==> !OnlyLeapDay(e)
  {
    var p := PatternOf(e);
    if OnlyLeapDay(e) {
      var from := BeforeMarch(2021);
      NoLeapDayFound(e, 2021);
      var t :| Matches(e, t);
      var u := FiresAgain(e, t, from);
      FiresIsMatches(e, u);
      assert NextOf(p, from).None?;
    } else {
      forall from, t | from < t && Fires(p, t) ensures NextOf(p, from).Some? {
        FiresIsMatches(e, t);
        WindowFinds(e, from);
      }
    }
  }

  /** The scans give the first n firings from every moment exactly when it is not the leap-day case. */
  lemma ScansCompleteIff(e: Expr, n: nat)
    requires FiveFields(e) && n >= 1
    ensures (forall from :: IsFirst(FiringsOf(PatternOf(e)), from, n, NextRuns(PatternOf(e), from, n)))
            <==> !OnlyLeapDay(e)
  {
    var p := PatternOf(e);
    WindowCompleteUnlessLeap(e);
    if WindowComplete(p) {
      forall from ensures IsFirst(FiringsOf(p), from, n, NextRuns(p, from, n)) {
        NextRunsAreFirst(p, from, n);
      }
    } else {
      var from, t :| from < t && Fires(p, t) && NextOf(p, from).None?;
      assert NextRuns(p, from, n) == [];
      assert FiringsOf(p)(t);
      assert !IsFirst(FiringsOf(p), from, n, NextRuns(p, from, n));
    }
  }

  /**
  One expression with clock values: what searching again and again lists is the
  first n firings from every moment exactly when it is not the leap-day case.
  */
  lemma NextRunsCompleteIff(e: Expr, date: WallClock, n: nat)
    requires FiveFields(e) && n >= 1 && Civil(date) && ClockValues(PatternOf(e))
    ensures (forall from, out :: Chained(PatternOf(e), date, from, n, out)
                                 ==> IsFirst(FiringsOf(PatternOf(e)), from, n, out))
            <==> !OnlyLeapDay(e)
  {
    ScansCompleteIff(e, n);
    ChainsFirstIff(PatternOf(e), date, n);
  }

  // --- a job's schedules ---

  datatype Schedule = Schedule(expression: string, active: bool)

  predicate Counts(s: Schedule) {
    s.active && Parse(s.expression).Ok?
  }

  /** The active valid expressions, in order. */
  function Expressions(schedules: seq<Schedule>): (es: seq<Expr>)
    ensures forall k :: 0 <= k < |es| ==> FiveFields(es[k])
  {
    if schedules == [] then []
    else
      var last := schedules[|schedules| - 1];
      var before := Expressions(schedules[..|schedules| - 1]);
      if Counts(last) then before + [Parse(last.expression).value] else before
  }

  ghost function Patterns(es: seq<Expr>): (ps: seq<Pattern>)
    requires forall k :: 0 <= k < |es| ==> FiveFields(es[k])
    ensures |ps| == |es| && forall k :: 0 <= k < |es| ==> ps[k] == PatternOf(es[k])
  {
    if es == [] then [] else Patterns(es[..|es| - 1]) + [PatternOf(es[|es| - 1])]
  }

  /** Some active valid expression falls on t. */
  ghost predicate JobFires(schedules: seq<Schedule>, t: int) {
    var es := Expressions(schedules);
    exists k :: 0 <= k < |es| && Matches(es[k], t)
  }

  /** The schedule is active and reads as this expression. */
  ghost predicate Gives(s: Schedule, e: Expr) {
    s.active && Parse(s.expression) == Ok(e)
  }

  lemma {:induction false} ExpressionsHave(schedules: seq<Schedule>, e: Expr)
    ensures e in Expressions(schedules) <==> Any(schedules, s => Gives(s, e))
  {
    if schedules != [] {
      ExpressionsHave(schedules[..|schedules| - 1], e);
      LastGives(schedules, e);
      AnyOneMore(schedules, s => Gives(s, e));
    }
  }

  lemma LastGives(schedules: seq<Schedule>, e: Expr)
    requires schedules != []
    ensures var n := |schedules| - 1;
            e in Expressions(schedules) <==> e in Expressions(schedules[..n]) || Gives(schedules[n], e)
  {
  }

  /** A job fires exactly when an active schedule of it is well formed and falls on the minute. */
  lemma JobFiresIff(schedules: seq<Schedule>, t: int)
    ensures JobFires(schedules, t)
            <==> exists i :: 0 <= i < |schedules| && schedules[i].active && Parse(schedules[i].expression).Ok?
                             && Matches(Parse(schedules[i].expression).value, t)
  {
    if JobFires(schedules, t) {
      var k :| 0 <= k < |Expressions(schedules)| && Matches(Expressions(schedules)[k], t);
      ExpressionsHave(schedules, Expressions(schedules)[k]);
      var i :| 0 <= i < |schedules| && Gives(schedules[i], Expressions(schedules)[k]);
    }
    if i :| 0 <= i < |schedules| && schedules[i].active && Parse(schedules[i].expression).Ok?
            && Matches(Parse(schedules[i].expression).value, t) {
      ListedFires(schedules, i, t);
    }
  }

  lemma ListedFires(schedules: seq<Schedule>, i: nat, t: int)
    requires i < |schedules| && schedules[i].active && Parse(schedules[i].expression).Ok?
    requires Matches(Parse(schedules[i].expression).value, t)
    ensures JobFires(schedules, t)
  {
    var e := Parse(schedules[i].expression).value;
    assert Gives(schedules[i], e);
    ExpressionsHave(schedules, e);
    var k :| 0 <= k < |Expressions(schedules)| && Expressions(schedules)[k] == e;
  }

  ghost predicate AllClockValues(schedules: seq<Schedule>) {
    var es := Expressions(schedules);
    forall k :: 0 <= k < |es| ==> ClockValues(PatternOf(es[k]))
  }

  /** What every expression lists, each for itself. */
  ghost predicate ListsOf(es: seq<Expr>, date: WallClock, now: int, n: nat, lists: seq<seq<int>>)
    requires forall k :: 0 <= k < |es| ==> FiveFields(es[k])
  {
    |lists| == |es| && forall k :: 0 <= k < |es| ==> Chained(PatternOf(es[k]), date, now, n, lists[k])
  }

  /** out is the n least distinct of what the active valid expressions list. */
  ghost predicate IsMerge(schedules: seq<Schedule>, date: WallClock, now: int, n: nat, out: seq<int>) {
    exists lists, all :: ListsOf(Expressions(schedules), date, now, n, lists) && Gathers(lists, all)
                         && LeastDistinct(all, n, out)
  }

  /** out is the job's first n runs. */
  ghost predicate IsRight(schedules: seq<Schedule>, now: int, n: nat, out: seq<int>) {
    IsFirst(t => JobFires(schedules, t), now, n, out)
  }

  /** An expression of the job that does not fire on 29 February only falls on t. */
  ghost predicate FiresSteadily(schedules: seq<Schedule>, t: int) {
    var es := Expressions(schedules);
    exists k :: 0 <= k < |es| && Matches(es[k], t) && !OnlyLeapDay(es[k])
  }

  /** The last moment whose window ends before the day of t. */
  function LastMiss(t: int): int {
    Midnight(DayOf(t) - DEFAULT_SCAN_DAYS) - 2
  }

  lemma LastMissIs(now: int, t: int)
    ensures t < WindowEnd(now, DEFAULT_SCAN_DAYS) <==> LastMiss(t) < now
  {
    DayOrder(t, DayOf(now + 1) + DEFAULT_SCAN_DAYS + 1);
    DayOrder(now + 1, DayOf(t) - DEFAULT_SCAN_DAYS);
  }

  ghost function SteadyFirings(schedules: seq<Schedule>, from: int, t: int): set<int> {
    Between(u => FiresSteadily(schedules, u), from, t)
  }

  /**
  Whenever the job is to run, such an expression is one reason, or such
  expressions fire n times before, after the last moment whose window ends
  before that day.
  */
  ghost predicate LeapDaysCovered(schedules: seq<Schedule>, n: nat) {
    forall t :: JobFires(schedules, t) && !FiresSteadily(schedules, t)
                ==> |SteadyFirings(schedules, LastMiss(t), t)| >= n
  }

  lemma SteadyIsSteadily(schedules: seq<Schedule>, t: int)
    ensures Steady(Patterns(Expressions(schedules)), t) <==> FiresSteadily(schedules, t)
  {
    var es := Expressions(schedules);
    var ps := Patterns(es);
    forall k | 0 <= k < |es|
      ensures Fires(ps[k], t) && WindowComplete(ps[k]) <==> Matches(es[k], t) && !OnlyLeapDay(es[k])
    {
      FiresIsMatches(es[k], t);
      WindowCompleteUnlessLeap(es[k]);
    }
  }

  lemma UnionIsJob(schedules: seq<Schedule>)
    ensures forall t :: UnionOf(Patterns(Expressions(schedules)))(t) <==> JobFires(schedules, t)
  {
  }

  /** Every firing after now is steady, near, or has n steady ones before it. */
  lemma CoveredFrom(schedules: seq<Schedule>, now: int, n: nat, t: int)
    requires LeapDaysCovered(schedules, n) && now < t && JobFires(schedules, t)
    ensures var ps := Patterns(Expressions(schedules));
            Steady(ps, t) || t < WindowEnd(now, DEFAULT_SCAN_DAYS) || |SteadyBetween(ps, now, t)| >= n
  {
    var ps := Patterns(Expressions(schedules));
    SteadyIsSteadily(schedules, t);
    LastMissIs(now, t);
    if !Steady(ps, t) && now <= LastMiss(t) {
      var s := SteadyFirings(schedules, LastMiss(t), t);
      forall u | u in s ensures u in SteadyBetween(ps, now, t) { SteadyIsSteadily(schedules, u); }
      SubsetSize(s, SteadyBetween(ps, now, t));
    }
  }

  /** A merge is one of next firings. */
  lemma MergeIsMerges(schedules: seq<Schedule>, date: WallClock, now: int, n: nat, out: seq<int>)
    returns (all: seq<int>)
    requires Civil(date) && AllClockValues(schedules) && IsMerge(schedules, date, now, n, out)
    ensures Merges(Patterns(Expressions(schedules)), now, n, all, out)
  {
    var es := Expressions(schedules);
    var ps := Patterns(es);
    var lists, found :| ListsOf(es, date, now, n, lists) && Gathers(lists, found) && LeastDistinct(found, n, out);
    forall k | 0 <= k < |ps| ensures lists[k] == NextRuns(ps[k], now, n) {
      ChainedIff(ps[k], date, now, n, lists[k]);
    }
    assert lists == NextLists(ps, now, n);
    all := found;
  }

  lemma MergesIsMerge(schedules: seq<Schedule>, date: WallClock, now: int, n: nat, all: seq<int>, out: seq<int>)
    requires Civil(date) && AllClockValues(schedules)
    requires Merges(Patterns(Expressions(schedules)), now, n, all, out)
    ensures IsMerge(schedules, date, now, n, out)
  {
    var es := Expressions(schedules);
    var ps := Patterns(es);
    var lists := NextLists(ps, now, n);
    forall k | 0 <= k < |es| ensures Chained(PatternOf(es[k]), date, now, n, lists[k]) {
      ChainedIff(ps[k], date, now, n, lists[k]);
    }
    assert ListsOf(es, date, now, n, lists);
  }

  lemma CoveredIsRight(schedules: seq<Schedule>, date: WallClock, now: int, n: nat, out: seq<int>)
    requires n >= 1 && Civil(date) && AllClockValues(schedules) && LeapDaysCovered(schedules, n)
    requires IsMerge(schedules, date, now, n, out)
    ensures IsRight(schedules, now, n, out)
  {
    var ps := Patterns(Expressions(schedules));
    var all := MergeIsMerges(schedules, date, now, n, out);
    UnionIsJob(schedules);
    forall t | now < t && FiresAny(ps, t)
      ensures Steady(ps, t) || t < WindowEnd(now, DEFAULT_SCAN_DAYS) || |SteadyBetween(ps, now, t)| >= n
    {
      assert UnionOf(ps)(t);
      CoveredFrom(schedules, now, n, t);
    }
    MergeIsFirst(ps, now, n, all, out);
    SameFirst(UnionOf(ps), t => JobFires(schedules, t), now, n, out);
  }

  lemma MergeExists(schedules: seq<Schedule>, date: WallClock, now: int, n: nat) returns (out: seq<int>)
    requires Civil(date) && AllClockValues(schedules)
    ensures IsMerge(schedules, date, now, n, out)
    ensures forall u :: u in out ==> InSome(NextLists(Patterns(Expressions(schedules)), now, n), u)
  {
    var lists := NextLists(Patterns(Expressions(schedules)), now, n);
    var all := GatherAll(lists);
    out := LeastExist(all, n);
    MergesIsMerge(schedules, date, now, n, all, out);
  }

  lemma LeapDayAlone(schedules: seq<Schedule>, t: int)
    requires JobFires(schedules, t) && !FiresSteadily(schedules, t)
    ensures IsLeapDay(DayOf(t))
  {
    var es := Expressions(schedules);
    var j :| 0 <= j < |es| && Matches(es[j], t);
    assert OnlyLeapDay(es[j]);
  }

  lemma DaysMissed(t: int, u: int)
    requires LastMiss(t) < u < WindowEnd(LastMiss(t), DEFAULT_SCAN_DAYS)
    ensures DayOf(t) - 367 <= DayOf(u) < DayOf(t)
  {
    DayOrder(LastMiss(t) + 1, DayOf(t) - 366);
    DayOrder(u, DayOf(LastMiss(t) + 1) + 367);
    DayOrder(u, DayOf(t) - 367);
  }

  /** From the last moment whose window misses a 29 February only the other expressions list anything. */
  lemma OnlySteadyListed(e: Expr, t: int, n: nat)
    requires FiveFields(e) && IsLeapDay(DayOf(t)) && OnlyLeapDay(e)
    ensures NextRuns(PatternOf(e), LastMiss(t), n) == []
  {
    var r := NextOf(PatternOf(e), LastMiss(t));
    if r.Some? {
      FiresIsMatches(e, r.value);
      DaysMissed(t, r.value);
      NoLeapDayBefore(DayOf(t), DayOf(r.value));
    }
  }

  lemma ListedThere(schedules: seq<Schedule>, t: int, n: nat, u: int)
    requires IsLeapDay(DayOf(t))
    requires InSome(NextLists(Patterns(Expressions(schedules)), LastMiss(t), n), u)
    ensures LastMiss(t) < u && FiresSteadily(schedules, u)
  {
    var es := Expressions(schedules);
    var lists := NextLists(Patterns(es), LastMiss(t), n);
    var k :| 0 <= k < |lists| && u in lists[k];
    if OnlyLeapDay(es[k]) { OnlySteadyListed(es[k], t, n); }
    NextRunsFire(PatternOf(es[k]), LastMiss(t), n);
    FiresIsMatches(es[k], u);
  }

  /** From there a merge lacks t, and is right only if n others come before it. */
  lemma UncoveredIsWrong(schedules: seq<Schedule>, date: WallClock, n: nat, t: int) returns (out: seq<int>)
    requires n >= 1 && Civil(date) && AllClockValues(schedules)
    requires JobFires(schedules, t) && !FiresSteadily(schedules, t)
    ensures LastMiss(t) < t && IsMerge(schedules, date, LastMiss(t), n, out) && t !in out
    ensures IsRight(schedules, LastMiss(t), n, out) ==> |SteadyFirings(schedules, LastMiss(t), t)| >= n
  {
    DayOrder(t, DayOf(t));
    LeapDayAlone(schedules, t);
    out := MergeExists(schedules, date, LastMiss(t), n);
    forall u | u in out ensures LastMiss(t) < u && FiresSteadily(schedules, u) {
      ListedThere(schedules, t, n, u);
    }
    if IsRight(schedules, LastMiss(t), n, out) {
      FullWithout(u => JobFires(schedules, u), u => FiresSteadily(schedules, u), LastMiss(t), n, out, t);
    }
  }

  /**
  Exactly when a job's first n runs are right from every moment: each of its
  firings is one of an expression that does not fire on 29 February only, or has
  n of those before it, counted from the last moment whose window misses it.
  */
  lemma MergeRightIff(schedules: seq<Schedule>, date: WallClock, n: nat)
    requires n >= 1 && Civil(date) && AllClockValues(schedules)
    ensures (forall now, out :: IsMerge(schedules, date, now, n, out) ==> IsRight(schedules, now, n, out))
            <==> LeapDaysCovered(schedules, n)
  {
    if LeapDaysCovered(schedules, n) {
      forall now, out | IsMerge(schedules, date, now, n, out) ensures IsRight(schedules, now, n, out) {
        CoveredIsRight(schedules, date, now, n, out);
      }
    } else {
      var t :| JobFires(schedules, t) && !FiresSteadily(schedules, t)
               && |SteadyFirings(schedules, LastMiss(t), t)| < n;
      var out := UncoveredIsWrong(schedules, date, n, t);
    }
  }

  /** For every n at once: each firing is one of such an expression. */
  lemma CoveredForAllIff(schedules: seq<Schedule>)
    ensures (forall n: nat :: n >= 1 ==> LeapDaysCovered(schedules, n))
            <==> forall t :: JobFires(schedules, t) ==> FiresSteadily(schedules, t)
  {
    if t :| JobFires(schedules, t) && !FiresSteadily(schedules, t) {
      assert !LeapDaysCovered(schedules, |SteadyFirings(schedules, LastMiss(t), t)| + 1);
    }
  }

  /**
  A job's next n runs, the n least distinct of what its active valid expressions
  list: the first n firings of their union unless one of them fires where only
  expressions for 29 February alone do and fewer than n others come before it.
  */
  method MergedRuns(schedules: seq<Schedule>, date: WallClock, now: int, n: nat) returns (out: seq<int>)
    requires n >= 1 && Civil(date)
    ensures IsMerge(schedules, date, now, n, out)
    ensures AllClockValues(schedules) && LeapDaysCovered(schedules, n) ==> IsRight(schedules, now, n, out)
  {
    var all: seq<int> := [];
    ghost var lists: seq<seq<int>> := [];
    for i := 0 to |schedules|
      invariant ListsOf(Expressions(schedules[..i]), date, now, n, lists) && Gathers(lists, all)
    {
      assert schedules[..i + 1][..i] == schedules[..i];
      if !schedules[i].active { continue; }
      var parsed := ParseText(schedules[i].expression);
      if parsed.Err? { continue; }
      var runs := FindNextRuns(PatternOf(parsed.value), date, now, n);
      GatherOne(lists, all, runs);
      all, lists := all + runs, lists + [runs];
    }
    assert schedules[..|schedules|] == schedules;
    out := SortAndDedupe(all, n);
    assert IsMerge(schedules, date, now, n, out);
    if AllClockValues(schedules) && LeapDaysCovered(schedules, n) {
      CoveredIsRight(schedules, date, now, n, out);
    }
  }

  // --- a job that shows it ---

  lemma FiresOnLeapDays(e: Expr, n: int)
    requires Yearly(e, 0, 0, 29, 2)
    ensures IsLeapDay(n) ==> Matches(e, Midnight(n))
    ensures !FiresOffLeapDay(e)
  {
    ClockTimeParts(n, 0, 0);
  }

  lemma OnlyLeapJob(schedules: seq<Schedule>, e: Expr, n: int)
    requires Expressions(schedules) == [e] && Yearly(e, 0, 0, 29, 2) && IsLeapDay(n)
    ensures JobFires(schedules, Midnight(n)) && AllClockValues(schedules)
    ensures forall t :: !FiresSteadily(schedules, t)
  {
    FiresOnLeapDays(e, n);
    assert Matches(Expressions(schedules)[0], Midnight(n));
  }

  lemma OneExpression(schedules: seq<Schedule>, text: string)
    requires schedules == [Schedule(text, true)] && Parse(text).Ok?
    ensures Expressions(schedules) == [Parse(text).value]
  {
    assert schedules[..0] == [];
  }

  lemma LeapJob(schedules: seq<Schedule>, n: int)
    requires schedules == [Schedule("0 0 29 2 *", true)] && IsLeapDay(n)
    ensures JobFires(schedules, Midnight(n)) && AllClockValues(schedules)
    ensures forall t :: !FiresSteadily(schedules, t)
  {
    var text := schedules[0].expression;
    LeapDayText(text);
    OneExpression(schedules, text);
    OnlyLeapJob(schedules, Parse(text).value, n);
  }

  /**
  A job with the one expression "0 0 29 2 *": however many runs are asked for,
  there is a moment before each of its firings from which the merge is wrong.
  */
  lemma LeapJobIsWrong(schedules: seq<Schedule>, date: WallClock, n: int, count: nat) returns (out: seq<int>)
    requires Civil(date) && schedules == [Schedule("0 0 29 2 *", true)] && IsLeapDay(n) && count >= 1
    ensures var t := Midnight(n);
            && LastMiss(t) < t && JobFires(schedules, t)
            && IsMerge(schedules, date, LastMiss(t), count, out) && t !in out
            && !IsRight(schedules, LastMiss(t), count, out)
  {
    LeapJob(schedules, n);
    out := UncoveredIsWrong(schedules, date, count, Midnight(n));
    assert SteadyFirings(schedules, LastMiss(Midnight(n)), Midnight(n)) == {};
  }
}
