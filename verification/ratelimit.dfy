/**
The fixed-window limiter: collecting expired windows never changes an answer,
and what any stretch of time as long as the period can let through.
*/
module RateLimit {
  import opened Common

  datatype Window = Window(count: int, expiresAt: int)

  type Hits = map<string, Window>

  /** The moment belongs to the call: a reset reads no clock. */
  datatype Op = Allow(key: string, now: int) | Reset(key: string)

  predicate Expired(w: Window, now: int) {
    now > w.expiresAt
  }

  /** The key's window after one more attempt. */
  function Counted(hits: Hits, period: int, key: string, now: int): Window {
    if key !in hits || Expired(hits[key], now) then Window(1, now + period)
    else Window(hits[key].count + 1, hits[key].expiresAt)
  }

  function Unexpired(hits: Hits, now: int): Hits {
    hits - set key | key in hits && Expired(hits[key], now)
  }

  // --- a limiter that never collects ---

  function Step(hits: Hits, period: int, op: Op): Hits {
    match op
    case Allow(key, now) => hits[key := Counted(hits, period, key, now)]
    case Reset(key) => hits - {key}
  }

  function HitsAfter(period: int, ops: seq<Op>): Hits {
    if ops == [] then map[] else Step(HitsAfter(period, ops[..|ops| - 1]), period, ops[|ops| - 1])
  }

  /** Whether the last of these operations is an attempt that passes. */
  predicate LastPasses(limit: int, period: int, ops: seq<Op>)
    requires ops != []
  {
    var op := ops[|ops| - 1];
    op.Allow? && Counted(HitsAfter(period, ops[..|ops| - 1]), period, op.key, op.now).count <= limit
  }

  // --- the limiter itself ---

  datatype State = State(hits: Hits, lastGC: int)

  function Collected(s: State, gcEvery: int, now: int): State {
    if now - s.lastGC < gcEvery then s else State(Unexpired(s.hits, now), now)
  }

  function GcStep(s: State, period: int, op: Op): State {
    match op
    case Allow(key, now) =>
      var c := Collected(s, period, now);
      c.(hits := c.hits[key := Counted(c.hits, period, key, now)])
    case Reset(key) => s.(hits := s.hits - {key})
  }

  function StateAfter(period: int, started: int, ops: seq<Op>): State {
    if ops == [] then State(map[], started)
    else GcStep(StateAfter(period, started, ops[..|ops| - 1]), period, ops[|ops| - 1])
  }

  predicate LastPassesGc(limit: int, period: int, started: int, ops: seq<Op>)
    requires ops != []
  {
    var op := ops[|ops| - 1];
    var before := StateAfter(period, started, ops[..|ops| - 1]);
    op.Allow? && Counted(Collected(before, period, op.now).hits, period, op.key, op.now).count <= limit
  }

  class Limiter {
    var hits: Hits
    var lastGC: int
    const limit: int
    const period: int
    const gcEvery: int

    ghost function Contents(): State
      reads this
    {
      State(hits, lastGC)
    }

    ghost predicate Valid() {
      gcEvery == period
    }

    /** zero is the zero time. */
    constructor (limit: int, period: int, zero: int)
      ensures Valid() && this.limit == limit && this.period == period
      ensures Contents() == StateAfter(period, zero, [])
    {
      this.limit, this.period, gcEvery := limit, period, period;
      hits, lastGC := map[], zero;
    }

    method Collect(now: int)
      modifies this
      ensures Contents() == Collected(old(Contents()), gcEvery, now)
    {
      if now - lastGC < gcEvery { return; }
      lastGC := now;
      ghost var before := hits;
      var keys := hits.Keys;
      while keys != {}
        invariant lastGC == now
        invariant forall key :: key in hits ==> key in before && hits[key] == before[key]
        invariant forall key :: key in before ==> key in hits || Expired(before[key], now)
        invariant forall key :: key in hits && Expired(hits[key], now) ==> key in keys
        decreases keys
      {
        var key :| key in keys;
        keys := keys - {key};
        if key in hits && now > hits[key].expiresAt { hits := hits - {key}; }
      }
    }

    /** One attempt. */
    method DoAllow(key: string, now: int) returns (passes: bool)
      requires Valid()
      modifies this
      ensures Contents() == GcStep(old(Contents()), period, Allow(key, now))
      ensures passes <==> Counted(Collected(old(Contents()), period, now).hits, period, key, now).count <= limit
    {
      Collect(now);
      if key !in hits || now > hits[key].expiresAt {
        hits := hits[key := Window(1, now + period)];
        return 1 <= limit;
      }
      hits := hits[key := hits[key].(count := hits[key].count + 1)];
      passes := hits[key].count <= limit;
    }

    method DoReset(key: string)
      modifies this
      ensures Contents() == GcStep(old(Contents()), period, Reset(key))
    {
      hits := hits - {key};
    }
  }

  // --- when collecting shows ---

  /** The windows of a limiter that never collects, before operation i. */
  function Before(period: int, ops: seq<Op>, i: nat): Hits
    requires i <= |ops|
  {
    HitsAfter(period, ops[..i])
  }

  ghost predicate Collects(period: int, started: int, ops: seq<Op>, i: nat)
    requires i < |ops|
  {
    ops[i].Allow? && ops[i].now - StateAfter(period, started, ops[..i]).lastGC >= period
  }

  /** The operation collects and finds the key's window expired. */
  ghost predicate SeenExpired(period: int, started: int, ops: seq<Op>, i: nat, key: string)
    requires i < |ops|
  {
    && Collects(period, started, ops, i)
    && key in Before(period, ops, i) && Expired(Before(period, ops, i)[key], ops[i].now)
  }

  /** The operation drops the key's window or starts a new one. */
  ghost predicate Renews(hits: Hits, op: Op, key: string) {
    || op == Reset(key)
    || (op.Allow? && op.key == key && (key !in hits || Expired(hits[key], op.now)))
  }

  ghost predicate SameWindow(period: int, ops: seq<Op>, i: nat, j: nat, key: string)
    requires i <= j <= |ops|
  {
    forall m: nat :: i <= m < j ==> !Renews(Before(period, ops, m), ops[m], key)
  }

  /** A collection before operation j has seen the key's window expired. */
  ghost predicate Condemned(period: int, started: int, ops: seq<Op>, j: nat, key: string)
    requires j <= |ops|
  {
    exists i: nat :: i < j && SeenExpired(period, started, ops, i, key) && SameWindow(period, ops, i, j, key)
  }

  /** The attempt falls in a window that has not expired at its moment, and that an earlier collection saw expired. */
  ghost predicate Late(period: int, started: int, ops: seq<Op>, j: nat)
    requires j < |ops|
  {
    && ops[j].Allow?
    && ops[j].key in Before(period, ops, j) && !Expired(Before(period, ops, j)[ops[j].key], ops[j].now)
    && Condemned(period, started, ops, j, ops[j].key)
  }

  /** The limiter holds exactly the windows no collection has seen expired. */
  ghost predicate HoldsTheRest(period: int, started: int, ops: seq<Op>, j: nat)
    requires j <= |ops|
  {
    var hits, all := StateAfter(period, started, ops[..j]).hits, Before(period, ops, j);
    forall key :: (key in hits <==> key in all && !Condemned(period, started, ops, j, key))
                  && (key in hits ==> hits[key] == all[key])
  }

  /** The last of these operations gets the same answer, whatever the limit is. */
  ghost predicate Agree(period: int, started: int, ops: seq<Op>)
    requires ops != []
  {
    forall limit :: LastPassesGc(limit, period, started, ops) <==> LastPasses(limit, period, ops)
  }

  lemma OneMore(period: int, started: int, ops: seq<Op>, j: nat)
    requires j < |ops|
    ensures Before(period, ops, j + 1) == Step(Before(period, ops, j), period, ops[j])
    ensures StateAfter(period, started, ops[..j + 1]) == GcStep(StateAfter(period, started, ops[..j]), period, ops[j])
  {
    assert ops[..j + 1][..j] == ops[..j];
  }

  lemma SameWindowOn(period: int, ops: seq<Op>, i: nat, j: nat, key: string)
    requires i <= j < |ops| && SameWindow(period, ops, i, j, key) && !Renews(Before(period, ops, j), ops[j], key)
    ensures SameWindow(period, ops, i, j + 1, key)
  {
  }

  lemma StaysCondemned(period: int, started: int, ops: seq<Op>, j: nat, key: string)
    requires j < |ops| && !Renews(Before(period, ops, j), ops[j], key)
    requires Condemned(period, started, ops, j, key) || SeenExpired(period, started, ops, j, key)
    ensures Condemned(period, started, ops, j + 1, key)
  {
    if Condemned(period, started, ops, j, key) {
      var i: nat :| i < j && SeenExpired(period, started, ops, i, key) && SameWindow(period, ops, i, j, key);
      SameWindowOn(period, ops, i, j, key);
    } else {
      SameWindowOn(period, ops, j, j, key);
    }
  }

  lemma CondemnedStep(period: int, started: int, ops: seq<Op>, j: nat, key: string)
    requires j < |ops|
    ensures Condemned(period, started, ops, j + 1, key)
            <==> (Condemned(period, started, ops, j, key) || SeenExpired(period, started, ops, j, key))
                 && !Renews(Before(period, ops, j), ops[j], key)
  {
    if Condemned(period, started, ops, j + 1, key) {
      var i: nat :| i < j + 1 && SeenExpired(period, started, ops, i, key) && SameWindow(period, ops, i, j + 1, key);
      assert i < j ==> SameWindow(period, ops, i, j, key);
    } else if !Renews(Before(period, ops, j), ops[j], key) {
      if Condemned(period, started, ops, j, key) || SeenExpired(period, started, ops, j, key) {
        StaysCondemned(period, started, ops, j, key);
      }
    }
  }

  /** What one attempt finds of a key: the same window as without collecting, if it was not condemned before. */
  lemma Finds(period: int, started: int, ops: seq<Op>, j: nat, key: string)
    requires j < |ops| && HoldsTheRest(period, started, ops, j) && ops[j].Allow?
    ensures var all := Before(period, ops, j);
            var hits := Collected(StateAfter(period, started, ops[..j]), period, ops[j].now).hits;
            && (key in hits <==> key in all && !Condemned(period, started, ops, j, key)
                                 && !SeenExpired(period, started, ops, j, key))
            && (key in hits ==> hits[key] == all[key])
  {
  }

  lemma AnswersOf(limit: int, period: int, started: int, ops: seq<Op>, j: nat)
    requires j < |ops| && ops[j].Allow?
    ensures LastPasses(limit, period, ops[..j + 1])
            <==> Counted(Before(period, ops, j), period, ops[j].key, ops[j].now).count <= limit
    ensures LastPassesGc(limit, period, started, ops[..j + 1])
            <==> Counted(Collected(StateAfter(period, started, ops[..j]), period, ops[j].now).hits, period, ops[j].key,
                         ops[j].now).count <= limit
  {
    assert ops[..j + 1][..j] == ops[..j];
  }

  /** An attempt that is not late counts as it would without collecting. */
  lemma SameCount(period: int, started: int, ops: seq<Op>, j: nat)
    requires j < |ops| && HoldsTheRest(period, started, ops, j) && ops[j].Allow? && !Late(period, started, ops, j)
    ensures Counted(Before(period, ops, j), period, ops[j].key, ops[j].now)
            == Counted(Collected(StateAfter(period, started, ops[..j]), period, ops[j].now).hits, period, ops[j].key,
                       ops[j].now)
  {
    Finds(period, started, ops, j, ops[j].key);
  }

  lemma HoldsOn(period: int, started: int, ops: seq<Op>, j: nat)
    requires j < |ops| && HoldsTheRest(period, started, ops, j) && !Late(period, started, ops, j)
    ensures HoldsTheRest(period, started, ops, j + 1) && Agree(period, started, ops[..j + 1])
  {
    OneMore(period, started, ops, j);
    if ops[j].Allow? { SameCount(period, started, ops, j); }
    var hits, all := StateAfter(period, started, ops[..j + 1]).hits, Before(period, ops, j + 1);
    forall key
      ensures (key in hits <==> key in all && !Condemned(period, started, ops, j + 1, key))
              && (key in hits ==> hits[key] == all[key])
    {
      CondemnedStep(period, started, ops, j, key);
      if ops[j].Allow? { Finds(period, started, ops, j, key); }
    }
    var done := ops[..j + 1];
    forall limit ensures LastPassesGc(limit, period, started, done) <==> LastPasses(limit, period, done) {
      if ops[j].Allow? { AnswersOf(limit, period, started, ops, j); }
    }
  }

  lemma {:induction false} HoldsUntil(period: int, started: int, ops: seq<Op>, j: nat)
    requires j <= |ops| && forall i: nat :: i < j ==> !Late(period, started, ops, i)
    ensures HoldsTheRest(period, started, ops, j)
  {
    if j > 0 {
      HoldsUntil(period, started, ops, j - 1);
      HoldsOn(period, started, ops, j - 1);
    }
  }

  lemma {:induction false} CountsPositive(period: int, ops: seq<Op>)
    ensures forall key :: key in HitsAfter(period, ops) ==> HitsAfter(period, ops)[key].count >= 1
  {
    if ops != [] { CountsPositive(period, ops[..|ops| - 1]); }
  }

  /** The first late attempt passes a limit of one, and would not without collecting. */
  lemma LateShows(period: int, started: int, ops: seq<Op>, j: nat)
    requires j < |ops| && HoldsTheRest(period, started, ops, j) && Late(period, started, ops, j)
    ensures LastPassesGc(1, period, started, ops[..j + 1]) && !LastPasses(1, period, ops[..j + 1])
  {
    CountsPositive(period, ops[..j]);
    Finds(period, started, ops, j, ops[j].key);
    AnswersOf(1, period, started, ops, j);
  }

  /**
  Exactly when collecting is invisible: every operation gets the same answer
  under every limit if and only if no attempt is late.
  */
  lemma SameAnswersIff(period: int, started: int, ops: seq<Op>)
    ensures (forall j: nat :: 0 < j <= |ops| ==> Agree(period, started, ops[..j]))
            <==> (forall j: nat :: j < |ops| ==> !Late(period, started, ops, j))
  {
    if forall j: nat :: j < |ops| ==> !Late(period, started, ops, j) {
      forall j: nat | 0 < j <= |ops| ensures Agree(period, started, ops[..j]) {
        HoldsUntil(period, started, ops, j - 1);
        HoldsOn(period, started, ops, j - 1);
      }
    } else {
      var j := FirstLate(period, started, ops, |ops|);
      HoldsUntil(period, started, ops, j);
      LateShows(period, started, ops, j);
      assert !Agree(period, started, ops[..j + 1]);
    }
  }

  lemma {:induction false} FirstLate(period: int, started: int, ops: seq<Op>, n: nat) returns (j: nat)
    requires n <= |ops| && exists i: nat :: i < n && Late(period, started, ops, i)
    ensures j < n && Late(period, started, ops, j) && forall i: nat :: i < j ==> !Late(period, started, ops, i)
  {
    if exists i: nat :: i < n - 1 && Late(period, started, ops, i) {
      j := FirstLate(period, started, ops, n - 1);
    } else {
      j := n - 1;
    }
  }

  /** The clock never goes back. */
  ghost predicate Nondecreasing(ops: seq<Op>) {
    forall i, j :: 0 <= i < j < |ops| && ops[i].Allow? && ops[j].Allow? ==> ops[i].now <= ops[j].now
  }

  lemma {:induction false} SameEnd(period: int, ops: seq<Op>, i: nat, j: nat, key: string)
    requires i <= j <= |ops| && key in Before(period, ops, i) && SameWindow(period, ops, i, j, key)
    ensures key in Before(period, ops, j)
    ensures Before(period, ops, j)[key].expiresAt == Before(period, ops, i)[key].expiresAt
  {
    if i < j {
      SameEnd(period, ops, i, j - 1, key);
      assert !Renews(Before(period, ops, j - 1), ops[j - 1], key);
      OneMore(period, 0, ops, j - 1);
    }
  }

  /** With such a clock every attempt gets the answer a limiter that never collects would give. */
  lemma SameAnswers(period: int, started: int, ops: seq<Op>)
    requires Nondecreasing(ops)
    ensures forall j: nat :: 0 < j <= |ops| ==> Agree(period, started, ops[..j])
  {
    forall j: nat | j < |ops| ensures !Late(period, started, ops, j) {
      if ops[j].Allow? && Condemned(period, started, ops, j, ops[j].key) {
        var key := ops[j].key;
        var i: nat :| i < j && SeenExpired(period, started, ops, i, key) && SameWindow(period, ops, i, j, key);
        SameEnd(period, ops, i, j, key);
      }
    }
    SameAnswersIff(period, started, ops);
  }

  /**
  The clock is read before the lock is taken, so two attempts can be counted in
  the other order, and one be late: it passes after the collection, and would
  have been refused without.
  */
  lemma ClockBackShows(period: int, key: string, other: string) returns (ops: seq<Op>)
    requires period >= 1 && key != other
    ensures |ops| == 3 && Late(period, 0, ops, 2)
    ensures LastPassesGc(1, period, 0, ops) && !LastPasses(1, period, ops)
  {
    ops := [Allow(key, 0), Allow(other, period + 1), Allow(key, period)];
    assert ops[..0] == [] && ops[..3] == ops;
    OneMore(period, 0, ops, 0);
    OneMore(period, 0, ops, 1);
    assert Before(period, ops, 1)[key] == Window(1, period);
    assert SeenExpired(period, 0, ops, 1, key) && SameWindow(period, ops, 1, 2, key);
    forall i: nat | i < 2 ensures !Late(period, 0, ops, i) {}
    HoldsUntil(period, 0, ops, 2);
    LateShows(period, 0, ops, 2);
  }

  // --- how much passes ---

  /** The attempts for key that the limiter lets through with moments within lo and hi, both included. */
  function Passed(limit: int, period: int, started: int, ops: seq<Op>, key: string, lo: int, hi: int): nat {
    if ops == [] then 0
    else
      var op := ops[|ops| - 1];
      Passed(limit, period, started, ops[..|ops| - 1], key, lo, hi)
      + if IsInside(op, key, lo, hi) && LastPassesGc(limit, period, started, ops) then 1 else 0
  }

  predicate IsInside(op: Op, key: string, lo: int, hi: int) {
    op.Allow? && op.key == key && lo <= op.now <= hi
  }

  /** The attempt begins a new window for its key. */
  predicate Begins(s: State, period: int, op: Op) {
    op.Allow? && var hits := Collected(s, period, op.now).hits; op.key !in hits || Expired(hits[op.key], op.now)
  }

  /**
  The key's windows: how many begin with a moment inside, how many have an
  attempt inside, and of the latest one when it began, whether that was inside,
  and whether it has an attempt inside.
  */
  datatype Tally = Tally(begun: nat, touched: nat, start: Option<int>, newest: bool, inside: bool)

  function TallyStep(s: State, period: int, op: Op, key: string, lo: int, hi: int, y: Tally): Tally {
    if !op.Allow? || op.key != key then y
    else
      var inside := lo <= op.now <= hi;
      if Begins(s, period, op)
      then Tally(y.begun + if inside then 1 else 0, y.touched + if inside then 1 else 0, Some(op.now), inside, inside)
      else y.(touched := y.touched + if inside && !y.inside then 1 else 0, inside := y.inside || inside)
  }

  function TallyOf(period: int, started: int, ops: seq<Op>, key: string, lo: int, hi: int): Tally {
    if ops == [] then Tally(0, 0, None, false, false)
    else
      var before := ops[..|ops| - 1];
      TallyStep(StateAfter(period, started, before), period, ops[|ops| - 1], key, lo, hi,
                TallyOf(period, started, before, key, lo, hi))
  }

  function Most(limit: int): int {
    if limit <= 0 then 0 else 2 * limit - 1
  }

  /** One operation more. */
  lemma After(limit: int, period: int, started: int, ops: seq<Op>, op: Op, key: string, lo: int, hi: int)
    ensures var s := StateAfter(period, started, ops);
            && StateAfter(period, started, ops + [op]) == GcStep(s, period, op)
            && TallyOf(period, started, ops + [op], key, lo, hi)
               == TallyStep(s, period, op, key, lo, hi, TallyOf(period, started, ops, key, lo, hi))
            && Passed(limit, period, started, ops + [op], key, lo, hi)
               == Passed(limit, period, started, ops, key, lo, hi)
                  + if IsInside(op, key, lo, hi) && CountedGc(s, period, op).count <= limit then 1 else 0
  {
    assert (ops + [op])[..|ops|] == ops;
  }

  /** The window of the attempt's key after it. */
  function CountedGc(s: State, period: int, op: Op): Window
    requires op.Allow?
  {
    Counted(Collected(s, period, op.now).hits, period, op.key, op.now)
  }

  ghost predicate Positive(s: State) {
    forall key :: key in s.hits ==> s.hits[key].count >= 1
  }

  lemma {:induction false} StatesPositive(period: int, started: int, ops: seq<Op>)
    ensures Positive(StateAfter(period, started, ops))
  {
    if ops != [] { StatesPositive(period, started, ops[..|ops| - 1]); }
  }

  lemma Split(ops: seq<Op>)
    requires ops != []
    ensures ops == ops[..|ops| - 1] + [ops[|ops| - 1]]
  {
  }

  // --- a bound for every order of moments ---

  function Room(limit: int, touched: nat, begun: nat): int {
    (limit - 1) * touched + begun
  }

  lemma RoomGrows(limit: int, touched: nat, begun: nat)
    ensures Room(limit, touched + 1, begun) == Room(limit, touched, begun) + limit - 1
    ensures Room(limit, touched, begun + 1) == Room(limit, touched, begun) + 1
  {
  }

  /** What has passed, with what the latest window has room for left. */
  ghost predicate Fits(limit: int, s: State, key: string, y: Tally, passed: nat) {
    && (y.newest ==> y.inside && y.begun >= 1) && (y.inside ==> y.touched >= 1)
    && passed <= Room(limit, y.touched, y.begun)
    && (key in s.hits && y.inside && s.hits[key].count < limit ==>
          passed <= Room(limit, y.touched, y.begun) - (limit - s.hits[key].count))
  }

  lemma FitsStep(limit: int, period: int, s: State, op: Op, key: string, lo: int, hi: int, y: Tally, passed: nat)
    requires limit >= 1 && Positive(s) && Fits(limit, s, key, y, passed)
    ensures var more := if IsInside(op, key, lo, hi) && CountedGc(s, period, op).count <= limit then 1 else 0;
            Fits(limit, GcStep(s, period, op), key, TallyStep(s, period, op, key, lo, hi, y), passed + more)
  {
    RoomGrows(limit, y.touched, y.begun);
    RoomGrows(limit, y.touched + 1, y.begun);
  }

  /**
  Whatever the order of the moments, and with resets: of the windows with an
  attempt inside, each lets limit - 1 through, and one more if it begins inside.
  */
  lemma {:induction false} AtMostByWindows(limit: int, period: int, started: int, ops: seq<Op>, key: string,
                                           lo: int, hi: int)
    requires limit >= 1
    ensures var y := TallyOf(period, started, ops, key, lo, hi);
            Fits(limit, StateAfter(period, started, ops), key, y, Passed(limit, period, started, ops, key, lo, hi))
  {
    if ops != [] {
      var before, op := ops[..|ops| - 1], ops[|ops| - 1];
      AtMostByWindows(limit, period, started, before, key, lo, hi);
      StatesPositive(period, started, before);
      FitsStep(limit, period, StateAfter(period, started, before), op, key, lo, hi,
               TallyOf(period, started, before, key, lo, hi),
               Passed(limit, period, started, before, key, lo, hi));
      Split(ops);
      After(limit, period, started, before, op, key, lo, hi);
    }
  }

  // --- attempts made more than once ---

  /** What is counted: the key's attempts with moments within lo and hi, under a limit. */
  datatype Watch = Watch(limit: int, period: int, key: string, lo: int, hi: int)

  /** The limiter, the tally and what has passed, after some operations. */
  datatype Standing = Standing(s: State, y: Tally, passed: nat)

  function StandingOf(w: Watch, started: int, ops: seq<Op>): Standing {
    Standing(StateAfter(w.period, started, ops), TallyOf(w.period, started, ops, w.key, w.lo, w.hi),
             Passed(w.limit, w.period, started, ops, w.key, w.lo, w.hi))
  }

  function Next(w: Watch, r: Standing, op: Op): Standing {
    Standing(GcStep(r.s, w.period, op), TallyStep(r.s, w.period, op, w.key, w.lo, w.hi, r.y),
             r.passed
             + if IsInside(op, w.key, w.lo, w.hi) && CountedGc(r.s, w.period, op).count <= w.limit then 1 else 0)
  }

  /** The operation made n times. */
  function NextTimes(w: Watch, r: Standing, op: Op, n: nat): Standing {
    if n == 0 then r else Next(w, NextTimes(w, r, op, n - 1), op)
  }

  function Copies(op: Op, n: nat): seq<Op> {
    if n == 0 then [] else Copies(op, n - 1) + [op]
  }

  /** The same operations in the same order, each made again so many times right after. */
  function Again(ops: seq<Op>, more: seq<nat>): seq<Op>
    requires |more| == |ops|
  {
    if ops == [] then []
    else
      var n := |ops| - 1;
      Again(ops[..n], more[..n]) + Copies(ops[n], more[n] + 1)
  }

  lemma {:induction false} CopiesNext(w: Watch, started: int, base: seq<Op>, op: Op, n: nat)
    ensures StandingOf(w, started, base + Copies(op, n)) == NextTimes(w, StandingOf(w, started, base), op, n)
  {
    if n == 0 {
      assert base + Copies(op, 0) == base;
    } else {
      CopiesNext(w, started, base, op, n - 1);
      assert base + Copies(op, n) == (base + Copies(op, n - 1)) + [op];
      After(w.limit, w.period, started, base + Copies(op, n - 1), op, w.key, w.lo, w.hi);
    }
  }

  /** The same but for the counts. */
  ghost predicate SameShape(s: State, u: State) {
    && s.lastGC == u.lastGC && s.hits.Keys == u.hits.Keys
    && forall key :: key in s.hits ==> s.hits[key].expiresAt == u.hits[key].expiresAt
  }

  lemma ShapeStep(s: State, u: State, period: int, op: Op)
    requires SameShape(s, u)
    ensures SameShape(GcStep(s, period, op), GcStep(u, period, op))
    ensures Begins(s, period, op) <==> Begins(u, period, op)
  {
  }

  lemma ShapeAgain(s: State, period: int, op: Op)
    requires period >= 0
    ensures SameShape(GcStep(GcStep(s, period, op), period, op), GcStep(s, period, op))
    ensures !Begins(GcStep(s, period, op), period, op)
  {
  }

  /** Made several times an operation leaves the shape and the tally it leaves made once. */
  lemma {:induction false} TimesShape(w: Watch, r: Standing, s: State, op: Op, n: nat)
    requires w.period >= 0 && SameShape(r.s, s) && n >= 1
    ensures SameShape(NextTimes(w, r, op, n).s, GcStep(s, w.period, op))
    ensures NextTimes(w, r, op, n).y == TallyStep(s, w.period, op, w.key, w.lo, w.hi, r.y)
  {
    var before := NextTimes(w, r, op, n - 1);
    if n == 1 {
      ShapeStep(r.s, s, w.period, op);
    } else {
      TimesShape(w, r, s, op, n - 1);
      ShapeStep(before.s, GcStep(s, w.period, op), w.period, op);
      ShapeAgain(s, w.period, op);
    }
  }

  lemma {:induction false} AgainShape(w: Watch, started: int, ops: seq<Op>, more: seq<nat>)
    requires w.period >= 0 && |more| == |ops|
    ensures SameShape(StandingOf(w, started, Again(ops, more)).s, StateAfter(w.period, started, ops))
    ensures StandingOf(w, started, Again(ops, more)).y == TallyOf(w.period, started, ops, w.key, w.lo, w.hi)
  {
    if ops != [] {
      var n := |ops| - 1;
      var base := Again(ops[..n], more[..n]);
      AgainShape(w, started, ops[..n], more[..n]);
      CopiesNext(w, started, base, ops[n], more[n] + 1);
      TimesShape(w, StandingOf(w, started, base), StateAfter(w.period, started, ops[..n]), ops[n], more[n] + 1);
    }
  }

  /** The count of the key's window, zero without one. */
  function CountOf(s: State, key: string): int {
    if key in s.hits then s.hits[key].count else 0
  }

  /** While the limit leaves room every repeated attempt passes. */
  lemma {:induction false} TimesPass(w: Watch, r: Standing, op: Op, n: nat)
    requires IsInside(op, w.key, w.lo, w.hi) && Positive(r.s) && CountOf(r.s, w.key) + n <= w.limit
    ensures var after := NextTimes(w, r, op, n);
            after.passed == r.passed + n && Positive(after.s) && CountOf(after.s, w.key) <= CountOf(r.s, w.key) + n
  {
    if n > 0 { TimesPass(w, r, op, n - 1); }
  }

  lemma {:induction false} TimesKeep(w: Watch, r: Standing, op: Op, n: nat)
    requires Positive(r.s)
    ensures NextTimes(w, r, op, n).passed >= r.passed && Positive(NextTimes(w, r, op, n).s)
  {
    if n > 0 { TimesKeep(w, r, op, n - 1); }
  }

  lemma {:induction false} TimesFirst(w: Watch, r: Standing, op: Op, n: nat)
    ensures NextTimes(w, r, op, n + 1) == NextTimes(w, Next(w, r, op), op, n)
  {
    if n > 0 { TimesFirst(w, r, op, n - 1); }
  }

  /** r has made s's operations, the key's attempts inside n times more: each window touched let them all through. */
  ghost predicate Crowds(w: Watch, r: Standing, s: State, y: Tally, length: nat, n: nat) {
    && SameShape(r.s, s) && r.y == y && Positive(r.s)
    && r.passed >= (n + 1) * y.touched && (!y.inside ==> CountOf(r.s, w.key) <= length)
  }

  lemma Grows(n: nat, touched: nat)
    ensures (n + 1) * (touched + 1) == (n + 1) * touched + n + 1
  {
  }

  /** Repetitions that begin a window, or are the first of it inside, all pass. */
  lemma CrowdPasses(w: Watch, r: Standing, s: State, length: nat, n: nat, op: Op, inside: bool)
    requires w.limit >= length + n + 2 && SameShape(r.s, s) && Positive(r.s) && IsInside(op, w.key, w.lo, w.hi)
    requires !inside ==> CountOf(r.s, w.key) <= length
    ensures var more := if !inside || Begins(s, w.period, op) then n + 1 else 0;
            NextTimes(w, r, op, n + 1).passed >= r.passed + more && Positive(NextTimes(w, r, op, n + 1).s)
  {
    ShapeStep(r.s, s, w.period, op);
    TimesKeep(w, r, op, n + 1);
    if !inside {
      TimesPass(w, r, op, n + 1);
    } else if Begins(s, w.period, op) {
      TimesFirst(w, r, op, n);
      TimesPass(w, Next(w, r, op), op, n);
    }
  }

  lemma CrowdsInside(w: Watch, r: Standing, s: State, y: Tally, length: nat, n: nat, op: Op)
    requires w.period >= 0 && w.limit >= length + n + 2 && Crowds(w, r, s, y, length, n)
    requires IsInside(op, w.key, w.lo, w.hi)
    ensures Crowds(w, NextTimes(w, r, op, n + 1), GcStep(s, w.period, op),
                   TallyStep(s, w.period, op, w.key, w.lo, w.hi, y), length + 1, n)
  {
    Grows(n, y.touched);
    TimesShape(w, r, s, op, n + 1);
    CrowdPasses(w, r, s, length, n, op, y.inside);
    assert TallyStep(s, w.period, op, w.key, w.lo, w.hi, y).touched
           == y.touched + if !y.inside || Begins(s, w.period, op) then 1 else 0;
  }

  lemma CrowdsOutside(w: Watch, r: Standing, s: State, y: Tally, length: nat, n: nat, op: Op)
    requires Crowds(w, r, s, y, length, n) && !IsInside(op, w.key, w.lo, w.hi)
    ensures Crowds(w, Next(w, r, op), GcStep(s, w.period, op),
                   TallyStep(s, w.period, op, w.key, w.lo, w.hi, y), length + 1, n)
  {
    ShapeStep(r.s, s, w.period, op);
  }

  /** The key's attempts inside made again n times, the others not. */
  function Repeated(w: Watch, ops: seq<Op>, n: nat): (more: seq<nat>)
    ensures |more| == |ops|
  {
    if ops == [] then []
    else
      var last := |ops| - 1;
      Repeated(w, ops[..last], n) + [if IsInside(ops[last], w.key, w.lo, w.hi) then n else 0]
  }

  lemma CrowdsNext(w: Watch, r: Standing, s: State, y: Tally, length: nat, n: nat, op: Op)
    requires w.period >= 0 && w.limit >= length + n + 2 && Crowds(w, r, s, y, length, n)
    ensures Crowds(w, NextTimes(w, r, op, if IsInside(op, w.key, w.lo, w.hi) then n + 1 else 1),
                   GcStep(s, w.period, op), TallyStep(s, w.period, op, w.key, w.lo, w.hi, y), length + 1, n)
  {
    if IsInside(op, w.key, w.lo, w.hi) {
      CrowdsInside(w, r, s, y, length, n, op);
    } else {
      CrowdsOutside(w, r, s, y, length, n, op);
      assert NextTimes(w, r, op, 1) == Next(w, NextTimes(w, r, op, 0), op);
    }
  }

  /** The repeated operations lead to r, and the operations themselves to s and y. */
  lemma {:induction false} CrowdsAfter(w: Watch, started: int, ops: seq<Op>, n: nat)
    returns (r: Standing, s: State, y: Tally)
    requires w.period >= 0 && w.limit >= |ops| + n + 1
    ensures r == StandingOf(w, started, Again(ops, Repeated(w, ops, n)))
    ensures s == StateAfter(w.period, started, ops) && y == TallyOf(w.period, started, ops, w.key, w.lo, w.hi)
    ensures Crowds(w, r, s, y, |ops|, n)
  {
    if ops == [] {
      r, s, y := StandingOf(w, started, []), State(map[], started), Tally(0, 0, None, false, false);
    } else {
      var last := |ops| - 1;
      var before, op := ops[..last], ops[last];
      var times := if IsInside(op, w.key, w.lo, w.hi) then n + 1 else 1;
      var r0, s0, y0 := CrowdsAfter(w, started, before, n);
      CrowdsNext(w, r0, s0, y0, last, n, op);
      r, s, y := NextTimes(w, r0, op, times), GcStep(s0, w.period, op),
        TallyStep(s0, w.period, op, w.key, w.lo, w.hi, y0);
      RepeatedLast(w, ops, n);
      CopiesNext(w, started, Again(before, Repeated(w, before, n)), op, times);
    }
  }

  lemma RepeatedLast(w: Watch, ops: seq<Op>, n: nat)
    requires ops != []
    ensures var last := |ops| - 1;
            Again(ops, Repeated(w, ops, n))
            == Again(ops[..last], Repeated(w, ops[..last], n))
               + Copies(ops[last], if IsInside(ops[last], w.key, w.lo, w.hi) then n + 1 else 1)
  {
    var last := |ops| - 1;
    assert Repeated(w, ops, n)[..last] == Repeated(w, ops[..last], n);
  }

  // --- exactly when the bound holds ---

  lemma {:induction false} AgainOnce(ops: seq<Op>) returns (more: seq<nat>)
    ensures |more| == |ops| && Again(ops, more) == ops
  {
    if ops == [] { return []; }
    var n := |ops| - 1;
    var before := AgainOnce(ops[..n]);
    more := before + [0];
    assert more[..n] == before;
    assert Copies(ops[n], 1) == [ops[n]];
  }

  /** With a limit of one exactly the attempts that begin a window pass. */
  lemma {:induction false} OnePasses(period: int, started: int, ops: seq<Op>, key: string, lo: int, hi: int)
    ensures Passed(1, period, started, ops, key, lo, hi) == TallyOf(period, started, ops, key, lo, hi).begun
  {
    if ops != [] {
      var n := |ops| - 1;
      OnePasses(period, started, ops[..n], key, lo, hi);
      StatesPositive(period, started, ops[..n]);
      After(1, period, started, ops[..n], ops[n], key, lo, hi);
      Split(ops);
    }
  }

  lemma {:induction false} NothingPasses(limit: int, period: int, started: int, ops: seq<Op>, key: string, lo: int,
                                         hi: int)
    requires limit <= 0
    ensures Passed(limit, period, started, ops, key, lo, hi) == 0
  {
    if ops != [] {
      var n := |ops| - 1;
      NothingPasses(limit, period, started, ops[..n], key, lo, hi);
      StatesPositive(period, started, ops[..n]);
      After(limit, period, started, ops[..n], ops[n], key, lo, hi);
      Split(ops);
    }
  }

  /** In every closed interval as long as the period at most one window of the key begins, and two have attempts. */
  ghost predicate Apart(period: int, started: int, ops: seq<Op>, key: string) {
    forall lo :: ApartIn(period, started, ops, key, lo)
  }

  ghost predicate ApartIn(period: int, started: int, ops: seq<Op>, key: string, lo: int) {
    var y := TallyOf(period, started, ops, key, lo, lo + period);
    y.begun <= 1 && y.touched <= 2
  }

  /** However often each attempt is made, and whatever the limit, no such interval lets more than the bound through. */
  ghost predicate AlwaysBounded(period: int, started: int, ops: seq<Op>, key: string) {
    forall limit, lo, more: seq<nat> :: |more| == |ops| ==> BoundedIn(limit, period, started, Again(ops, more), key, lo)
  }

  ghost predicate BoundedIn(limit: int, period: int, started: int, ops: seq<Op>, key: string, lo: int) {
    Passed(limit, period, started, ops, key, lo, lo + period) <= Most(limit)
  }

  lemma RoomIsMost(limit: int, touched: nat, begun: nat)
    requires limit >= 1 && touched <= 2 && begun <= 1
    ensures Room(limit, touched, begun) <= Most(limit)
  {
    RoomGrows(limit, 0, 0);
    RoomGrows(limit, 1, 0);
    RoomGrows(limit, touched, 0);
  }

  lemma ApartIsBounded(limit: int, period: int, started: int, ops: seq<Op>, key: string, lo: int, y: Tally)
    requires y == TallyOf(period, started, ops, key, lo, lo + period) && y.begun <= 1 && y.touched <= 2
    ensures BoundedIn(limit, period, started, ops, key, lo)
  {
    if limit <= 0 {
      NothingPasses(limit, period, started, ops, key, lo, lo + period);
    } else {
      AtMostByWindows(limit, period, started, ops, key, lo, lo + period);
      RoomIsMost(limit, y.touched, y.begun);
    }
  }

  /** Two windows beginning close together pass a limit of one, three with attempts close together a larger one. */
  lemma NotApartBreaks(period: int, started: int, ops: seq<Op>, key: string, lo: int)
    returns (limit: int, more: seq<nat>)
    requires period >= 0 && !ApartIn(period, started, ops, key, lo)
    ensures |more| == |ops| && !BoundedIn(limit, period, started, Again(ops, more), key, lo)
  {
    var y := TallyOf(period, started, ops, key, lo, lo + period);
    if y.begun >= 2 {
      limit := 1;
      more := AgainOnce(ops);
      OnePasses(period, started, ops, key, lo, lo + period);
    } else {
      var n := 2 * |ops|;
      limit := |ops| + n + 1;
      var w := Watch(limit, period, key, lo, lo + period);
      more := Repeated(w, ops, n);
      var r, s, tally := CrowdsAfter(w, started, ops, n);
      ThreeTooMany(n, y.touched);
    }
  }

  lemma ThreeTooMany(n: nat, touched: nat)
    requires touched >= 3
    ensures (n + 1) * touched >= 3 * n + 3
  {
    Grows(n, touched - 1);
    if touched > 3 { ThreeTooMany(n, touched - 1); }
  }

  /**
  Exactly when the bound holds, whatever the order of the moments and however
  operations and resets mix: no interval as long as the period sees two windows
  of the key begin, or has attempts of three.
  */
  lemma AlwaysBoundedIff(period: int, started: int, ops: seq<Op>, key: string)
    requires period >= 0
    ensures AlwaysBounded(period, started, ops, key) <==> Apart(period, started, ops, key)
  {
    if Apart(period, started, ops, key) {
      forall limit, lo, more: seq<nat> | |more| == |ops|
        ensures BoundedIn(limit, period, started, Again(ops, more), key, lo)
      {
        assert ApartIn(period, started, ops, key, lo);
        AgainShape(Watch(0, period, key, lo, lo + period), started, ops, more);
        ApartIsBounded(limit, period, started, Again(ops, more), key, lo,
                       TallyOf(period, started, ops, key, lo, lo + period));
      }
    } else {
      var lo :| !ApartIn(period, started, ops, key, lo);
      var limit, more := NotApartBreaks(period, started, ops, key, lo);
    }
  }

  // --- a clock that never goes back ---

  predicate NoReset(ops: seq<Op>) {
    forall i :: 0 <= i < |ops| ==> ops[i].Allow?
  }

  /** Every attempt so far was made by now. */
  ghost predicate By(ops: seq<Op>, now: int) {
    forall i :: 0 <= i < |ops| && ops[i].Allow? ==> ops[i].now <= now
  }

  /** Where the latest window of the key began, and so how many there can be in [lo, lo + period]. */
  ghost predicate InTime(s: State, key: string, period: int, lo: int, y: Tally, now: int) {
    match y.start
    case None => key !in s.hits && y.begun == 0 && y.touched == 0 && !y.inside
    case Some(b) =>
      && b <= now
      && (if key in s.hits then s.hits[key].expiresAt == b + period else b + period < now)
      && (now < lo ==> y.touched == 0)
      && (b < lo ==> y.begun == 0 && y.touched == if y.inside then 1 else 0)
      && (lo <= b <= lo + period ==> y.begun == 1 && y.touched <= 2 && y.inside)
      && (lo + period < b ==> y.begun <= 1 && y.touched <= 2)
  }

  lemma InTimeStep(s: State, period: int, op: Op, key: string, lo: int, y: Tally, now: int)
    requires period >= 0 && op.Allow? && op.now <= now && InTime(s, key, period, lo, y, op.now)
    ensures InTime(GcStep(s, period, op), key, period, lo, TallyStep(s, period, op, key, lo, lo + period, y), now)
  {
  }

  lemma {:induction false} InTimeAlways(period: int, started: int, ops: seq<Op>, key: string, lo: int, now: int)
    requires period >= 0 && NoReset(ops) && Nondecreasing(ops) && By(ops, now)
    ensures InTime(StateAfter(period, started, ops), key, period, lo,
                   TallyOf(period, started, ops, key, lo, lo + period), now)
  {
    if ops != [] {
      var before, op := ops[..|ops| - 1], ops[|ops| - 1];
      InTimeAlways(period, started, before, key, lo, op.now);
      InTimeStep(StateAfter(period, started, before), period, op, key, lo,
                 TallyOf(period, started, before, key, lo, lo + period), now);
    }
  }

  /**
  With a clock that never goes back and no reset, the limiter lets no more than
  2 * limit - 1 attempts for a key through in a closed interval as long as the
  period.
  */
  lemma AtMostInPeriod(limit: int, period: int, started: int, ops: seq<Op>, key: string, lo: int)
    requires NoReset(ops) && Nondecreasing(ops)
    ensures Passed(limit, period, started, ops, key, lo, lo + period) <= Most(limit)
  {
    if period < 0 {
      NonePass(limit, period, started, ops, key, lo, lo + period);
    } else {
      var now := if ops == [] then 0 else ops[|ops| - 1].now;
      InTimeAlways(period, started, ops, key, lo, now);
      ApartIsBounded(limit, period, started, ops, key, lo, TallyOf(period, started, ops, key, lo, lo + period));
    }
  }

  lemma {:induction false} NonePass(limit: int, period: int, started: int, ops: seq<Op>, key: string, lo: int, hi: int)
    requires hi < lo
    ensures Passed(limit, period, started, ops, key, lo, hi) == 0
  {
    if ops != [] { NonePass(limit, period, started, ops[..|ops| - 1], key, lo, hi); }
  }

  // --- and when it goes back ---

  /** The late attempt of ClockBackShows is one too many. */
  lemma ClockBackBreaks(period: int, key: string, other: string) returns (ops: seq<Op>)
    requires period >= 1 && key != other
    ensures NoReset(ops) && ops == [Allow(key, 0), Allow(other, period + 1), Allow(key, period)]
    ensures Passed(1, period, 0, ops, key, 0, period) == 2 > Most(1)
  {
    ops := [Allow(key, 0), Allow(other, period + 1), Allow(key, period)];
    assert ops[..1] == [] + [ops[0]] && ops[..2] == ops[..1] + [ops[1]] && ops == ops[..2] + [ops[2]];
    After(1, period, 0, [], ops[0], key, 0, period);
    After(1, period, 0, ops[..1], ops[1], key, 0, period);
    After(1, period, 0, ops[..2], ops[2], key, 0, period);
  }

  /** Attempts for one key are never late. */
  lemma OneKeyNeverLate(period: int, started: int, ops: seq<Op>, key: string, j: nat)
    requires j < |ops| && forall op :: op in ops ==> op.Allow? && op.key == key
    ensures !Late(period, started, ops, j)
  {
    forall i: nat | i < j && SeenExpired(period, started, ops, i, key) ensures !SameWindow(period, ops, i, j, key) {
      assert ops[i] in ops && Renews(Before(period, ops, i), ops[i], key);
    }
    assert ops[j] in ops;
  }

  lemma SwingOut(period: int, key: string, before: seq<Op>, w: Window, lastGC: int, now: int) returns (ops: seq<Op>)
    requires period >= 1 && now > w.expiresAt && now > period && now - lastGC >= period
    requires StateAfter(period, 0, before) == State(map[key := w], lastGC)
    ensures ops == before + [Allow(key, now)]
    ensures StateAfter(period, 0, ops) == State(map[key := Window(1, now + period)], now)
    ensures Passed(2, period, 0, ops, key, 0, period) == Passed(2, period, 0, before, key, 0, period)
  {
    After(2, period, 0, before, Allow(key, now), key, 0, period);
    ops := before + [Allow(key, now)];
  }

  /** An attempt that begins a window, and one back at the start that counts in it. */
  lemma SwingBack(period: int, key: string, before: seq<Op>, w: Window, lastGC: int, now: int) returns (ops: seq<Op>)
    requires period >= 1 && now > w.expiresAt && now > period && now - lastGC >= period
    requires StateAfter(period, 0, before) == State(map[key := w], lastGC)
    ensures ops == before + [Allow(key, now), Allow(key, 0)]
    ensures StateAfter(period, 0, ops) == State(map[key := Window(2, now + period)], now)
    ensures Passed(2, period, 0, ops, key, 0, period) == Passed(2, period, 0, before, key, 0, period) + 1
  {
    var out := SwingOut(period, key, before, w, lastGC, now);
    After(2, period, 0, out, Allow(key, 0), key, 0, period);
    ops := out + [Allow(key, 0)];
  }

  lemma TwoAtStart(period: int, key: string) returns (ops: seq<Op>)
    requires period >= 1
    ensures ops == [Allow(key, 0), Allow(key, 0)]
    ensures StateAfter(period, 0, ops) == State(map[key := Window(2, period)], 0)
    ensures Passed(2, period, 0, ops, key, 0, period) == 2
  {
    var one := [] + [Allow(key, 0)];
    After(2, period, 0, [], Allow(key, 0), key, 0, period);
    assert StateAfter(period, 0, one) == State(map[key := Window(1, period)], 0);
    After(2, period, 0, one, Allow(key, 0), key, 0, period);
    ops := one + [Allow(key, 0)];
  }

  /**
  Lateness is not the whole story: moments that swing back let four attempts
  pass a limit of two, none of them late.
  */
  lemma SwingsBreak(period: int, key: string) returns (ops: seq<Op>)
    requires period >= 1
    ensures ops == [Allow(key, 0), Allow(key, 0), Allow(key, period + 1), Allow(key, 0), Allow(key, 2 * period + 2),
                    Allow(key, 0)]
    ensures forall j: nat :: j < |ops| ==> !Late(period, 0, ops, j)
    ensures Passed(2, period, 0, ops, key, 0, period) == 4 > Most(2)
  {
    var a := TwoAtStart(period, key);
    var b := SwingBack(period, key, a, Window(2, period), 0, period + 1);
    ops := SwingBack(period, key, b, Window(2, 2 * period + 1), period + 1, 2 * period + 2);
    forall j: nat | j < |ops| ensures !Late(period, 0, ops, j) { OneKeyNeverLate(period, 0, ops, key, j); }
  }

  // --- and that much can pass ---

  /** The same for a limiter that never collects. */
  function PassedPlain(limit: int, period: int, ops: seq<Op>, key: string, lo: int, hi: int): nat {
    if ops == [] then 0
    else
      var op := ops[|ops| - 1];
      PassedPlain(limit, period, ops[..|ops| - 1], key, lo, hi)
      + if IsInside(op, key, lo, hi) && LastPasses(limit, period, ops) then 1 else 0
  }

  lemma {:induction false} SamePassed(limit: int, period: int, started: int, ops: seq<Op>, key: string,
                                      lo: int, hi: int)
    requires forall j: nat :: 0 < j <= |ops| ==> Agree(period, started, ops[..j])
    ensures Passed(limit, period, started, ops, key, lo, hi) == PassedPlain(limit, period, ops, key, lo, hi)
  {
    if ops != [] {
      var before := ops[..|ops| - 1];
      forall j: nat | 0 < j <= |before| ensures Agree(period, started, before[..j]) { assert before[..j] == ops[..j]; }
      SamePassed(limit, period, started, before, key, lo, hi);
      assert ops[..|ops|] == ops;
    }
  }

  /** One attempt at 0, the rest of the first window at its end, a second window right after it. */
  function BurstTime(limit: int, period: int, n: nat): int {
    if n == 1 then 0 else if n <= limit then period else period + 1
  }

  function BurstWindow(limit: int, period: int, n: nat): Window {
    if n <= limit then Window(n, period) else Window(n - limit, 2 * period + 1)
  }

  lemma BurstStep(limit: int, period: int, hits: Hits, key: string, n: nat)
    requires limit >= 1 && period >= 1 && n > 0
    requires if n == 1 then key !in hits else key in hits && hits[key] == BurstWindow(limit, period, n - 1)
    ensures Counted(hits, period, key, BurstTime(limit, period, n)) == BurstWindow(limit, period, n)
  {
  }

  lemma PlainOneMore(limit: int, period: int, ops: seq<Op>, op: Op, key: string, lo: int, hi: int)
    ensures HitsAfter(period, ops + [op]) == Step(HitsAfter(period, ops), period, op)
    ensures var passes := op.Allow? && Counted(HitsAfter(period, ops), period, op.key, op.now).count <= limit;
            PassedPlain(limit, period, ops + [op], key, lo, hi)
            == PassedPlain(limit, period, ops, key, lo, hi)
               + if passes && op.key == key && lo <= op.now <= hi then 1 else 0
  {
    assert (ops + [op])[..|ops|] == ops;
  }

  /** The first n attempts of the burst. */
  lemma {:induction false} Burst(limit: int, period: int, key: string, n: nat) returns (ops: seq<Op>)
    requires limit >= 1 && period >= 1 && n <= 2 * limit
    ensures |ops| == n && forall i :: 0 <= i < n ==> ops[i] == Allow(key, BurstTime(limit, period, i + 1))
    ensures var hits := HitsAfter(period, ops);
            if n == 0 then key !in hits else key in hits && hits[key] == BurstWindow(limit, period, n)
    ensures PassedPlain(limit, period, ops, key, 1, 1 + period) == if n == 0 then 0 else n - 1
  {
    if n == 0 { return []; }
    var before := Burst(limit, period, key, n - 1);
    var op := Allow(key, BurstTime(limit, period, n));
    BurstStep(limit, period, HitsAfter(period, before), key, n);
    PlainOneMore(limit, period, before, op, key, 1, 1 + period);
    ops := before + [op];
  }

  /** The bound is reached for every limit of at least one. */
  lemma BoundIsTight(limit: int, period: int, started: int, key: string) returns (ops: seq<Op>)
    requires limit >= 1 && period >= 1
    ensures NoReset(ops) && Nondecreasing(ops)
    ensures Passed(limit, period, started, ops, key, 1, 1 + period) == Most(limit)
  {
    ops := Burst(limit, period, key, 2 * limit);
    SameAnswers(period, started, ops);
    SamePassed(limit, period, started, ops, key, 1, 1 + period);
  }
}
