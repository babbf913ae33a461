/**
Catching up after an outage: any number of replicas read the pulse, write it
and open rows, their statements interleaved and any of them failing, while
everything else changes rows but opens none for a minute of this job.
*/
module CatchUp {
  import opened Common
  import opened ExecRepo
  import opened Dispatch
  import RunProtocol
  import RunSafety

  /** What stays fixed: the job, the replicas' scan limit, and the minutes its expressions fall on. */
  datatype Setting = Setting(job: ScheduledJob, missScanMin: int, falls: int -> bool)

  /** todo holds the minutes whose rows are still to be opened. */
  datatype Tick =
    | Started(minute: int)
    | Read(minute: int, last: Option<int>)
    | Queuing(minute: int, todo: seq<int>)

  /** touched has the minutes the ticks have written to the pulse, in order; no step reads it. */
  datatype State = State(table: Table, pulse: Option<int>, ticks: map<nat, Tick>, touched: seq<int>)

  datatype Event =
    | Start(tick: nat, minute: int)
    | ReadPulse(tick: nat)
    | Touch(tick: nat)
    | QueueNext(tick: nat)
    | QueueFails(tick: nat)   // every statement for the minute fails; the tick goes on
    | Finish(tick: nat)
    | Fail(tick: nat)         // the tick ends here, with what it has not done left undone
    | Other(table: Table)

  function Falling(minutes: seq<int>, falls: int -> bool): (r: seq<int>)
    ensures forall t :: t in r <==> t in minutes && falls(t)
  {
    if minutes == [] then []
    else
      var last := minutes[|minutes| - 1];
      Falling(minutes[..|minutes| - 1], falls) + if falls(last) then [last] else []
  }

  function Todo(c: Setting, minute: int, last: Option<int>): seq<int> {
    Falling(Candidates(c.job, minute, Missed(minute, last, c.missScanMin)), c.falls)
  }

  /** The change leaves this job's minutes alone. */
  ghost predicate KeepsMinutes(t: Table, after: Table, job: int) {
    && WellFormed(after) && OneRowPerMinute(after)
    && forall m {:trigger HasRow(after, job, m)} :: HasRow(after, job, m) <==> HasRow(t, job, m)
  }

  ghost predicate Enabled(c: Setting, s: State, e: Event) {
    match e
    case Start(k, _) => k !in s.ticks
    case ReadPulse(k) => k in s.ticks && s.ticks[k].Started?
    case Touch(k) => k in s.ticks && s.ticks[k].Read?
    case QueueNext(k) => k in s.ticks && s.ticks[k].Queuing? && s.ticks[k].todo != []
    case QueueFails(k) => k in s.ticks && s.ticks[k].Queuing? && s.ticks[k].todo != []
    case Finish(k) => k in s.ticks && s.ticks[k].Queuing? && s.ticks[k].todo == []
    case Fail(k) => k in s.ticks
    case Other(t) => KeepsMinutes(s.table, t, c.job.id)
  }

  ghost function Apply(c: Setting, s: State, e: Event): State
    requires Enabled(c, s, e)
  {
    match e
    case Start(k, minute) => s.(ticks := s.ticks[k := Started(minute)])
    case ReadPulse(k) => s.(ticks := s.ticks[k := Read(s.ticks[k].minute, s.pulse)])
    case Touch(k) =>
      var m := s.ticks[k].minute;
      s.(pulse := Some(m), touched := s.touched + [m], ticks := s.ticks[k := Queuing(m, Todo(c, m, s.ticks[k].last))])
    case QueueNext(k) =>
      s.(table := QueueRun(s.table, c.job.id, s.ticks[k].todo[0]),
         ticks := s.ticks[k := s.ticks[k].(todo := s.ticks[k].todo[1..])])
    case QueueFails(k) => s.(ticks := s.ticks[k := s.ticks[k].(todo := s.ticks[k].todo[1..])])
    case Finish(k) => s.(ticks := s.ticks - {k})
    case Fail(k) => s.(ticks := s.ticks - {k})
    case Other(t) => s.(table := t)
  }

  /** Any rows and any pulse, or none: the moment the job starts to be watched, no tick under way. */
  ghost predicate Initial(s: State) {
    WellFormed(s.table) && OneRowPerMinute(s.table) && s.ticks == map[] && s.touched == []
  }

  ghost predicate StepAt(c: Setting, tr: seq<State>, ev: seq<Event>, i: nat)
    requires i < |ev| && |tr| == |ev| + 1
  {
    Enabled(c, tr[i], ev[i]) && tr[i + 1] == Apply(c, tr[i], ev[i])
  }

  ghost predicate Behaviour(c: Setting, tr: seq<State>, ev: seq<Event>) {
    && |tr| == |ev| + 1 && Initial(tr[0])
    && forall i {:trigger StepAt(c, tr, ev, i)} :: 0 <= i < |ev| ==> StepAt(c, tr, ev, i)
  }

  // --- what every step keeps ---

  /** What a tick can have read: the pulse at the start, or a minute written since. */
  ghost predicate Known(first: Option<int>, touched: seq<int>, pulse: Option<int>) {
    if pulse.None? then first.None? else pulse == first || pulse.value in touched
  }

  /** A tick knows a pulse that was there, and has each of its minutes to open once. */
  ghost predicate TickOk(first: Option<int>, s: State, k: nat)
    requires k in s.ticks
  {
    match s.ticks[k]
    case Started(_) => true
    case Read(_, last) => Known(first, s.touched, last)
    case Queuing(_, todo) => Once(todo)
  }

  ghost predicate Once(minutes: seq<int>) {
    forall i, j :: 0 <= i < j < |minutes| ==> minutes[i] != minutes[j]
  }

  ghost predicate Inv(first: Option<int>, s: State) {
    && WellFormed(s.table) && OneRowPerMinute(s.table) && Known(first, s.touched, s.pulse)
    && (forall k {:trigger TickOk(first, s, k)} :: k in s.ticks ==> TickOk(first, s, k))
  }

  lemma {:induction false} SpanOnce(lo: int, hi: int)
    ensures Once(Span(lo, hi))
    decreases hi - lo
  {
    if lo < hi {
      SpanOnce(lo, hi - 1);
      assert hi - 1 !in Span(lo, hi - 1);
    }
  }

  lemma {:induction false} WithinOnce(past: seq<int>, minute: int, limit: int)
    requires Once(past)
    ensures Once(Within(past, minute, limit))
  {
    if past != [] {
      var before, t := past[..|past| - 1], past[|past| - 1];
      WithinOnce(before, minute, limit);
      WithinIff(before, minute, limit, t);
    }
  }

  lemma {:induction false} FallingOnce(minutes: seq<int>, falls: int -> bool)
    requires Once(minutes)
    ensures Once(Falling(minutes, falls))
  {
    if minutes != [] {
      var before, t := minutes[..|minutes| - 1], minutes[|minutes| - 1];
      FallingOnce(before, falls);
      assert t !in Falling(before, falls);
    }
  }

  lemma TodoOnce(c: Setting, minute: int, last: Option<int>)
    ensures Once(Todo(c, minute, last))
  {
    var past := Missed(minute, last, c.missScanMin);
    if last.Some? { SpanOnce(Later(last.value + 1, minute - c.missScanMin), minute); }
    WithinOnce(past, minute, c.job.maxDelayMin);
    WithinIff(past, minute, c.job.maxDelayMin, minute);
    FallingOnce(Candidates(c.job, minute, past), c.falls);
  }

  lemma InvKeeps(c: Setting, first: Option<int>, s: State, e: Event)
    requires Inv(first, s) && Enabled(c, s, e)
    ensures Inv(first, Apply(c, s, e))
  {
    var t := Apply(c, s, e);
    if e.Touch? { TodoOnce(c, s.ticks[e.tick].minute, s.ticks[e.tick].last); }
    if e.QueueNext? { QueueOne(s.table, c.job.id, s.ticks[e.tick].todo[0], 0, 0); }
    forall k | k in t.ticks ensures TickOk(first, t, k) {
      if k in s.ticks { assert TickOk(first, s, k); }
    }
  }

  lemma {:induction false} InvAlways(c: Setting, tr: seq<State>, ev: seq<Event>, i: nat)
    requires Behaviour(c, tr, ev) && i < |tr|
    ensures Inv(tr[0].pulse, tr[i])
  {
    if i > 0 {
      InvAlways(c, tr, ev, i - 1);
      assert StepAt(c, tr, ev, i - 1);
      InvKeeps(c, tr[0].pulse, tr[i - 1], ev[i - 1]);
    }
  }

  // --- a minute from the tick that takes it up to its row ---

  /** A tick has the minute's row still to open. */
  ghost predicate Holds(s: State, k: nat, x: int) {
    k in s.ticks && s.ticks[k].Queuing? && x in s.ticks[k].todo
  }

  /** With this event a tick writes the pulse and takes the minute up. */
  ghost predicate TakesUp(c: Setting, s: State, e: Event, x: int) {
    e.Touch? && e.tick in s.ticks && s.ticks[e.tick].Read?
    && x in Todo(c, s.ticks[e.tick].minute, s.ticks[e.tick].last)
  }

  ghost predicate Opens(s: State, e: Event, k: nat, x: int) {
    e == QueueNext(k) && Holds(s, k, x) && s.ticks[k].todo[0] == x
  }

  ghost predicate Drops(s: State, e: Event, k: nat, x: int) {
    Holds(s, k, x) && (e == Fail(k) || (e == QueueFails(k) && s.ticks[k].todo[0] == x))
  }

  /** From just after step j to state h the tick holds the minute. */
  ghost predicate Carries(tr: seq<State>, k: nat, x: int, j: nat, h: nat)
    requires h < |tr|
  {
    forall g {:trigger tr[g]} :: j < g <= h ==> Holds(tr[g], k, x)
  }

  /** The tick that took the minute up at step j has failed it before state i. */
  ghost predicate Loses(tr: seq<State>, ev: seq<Event>, i: nat, j: nat, x: int)
    requires |tr| == |ev| + 1 && i <= |ev| && j < |ev| && ev[j].Touch?
  {
    exists h: nat :: j < h < i && Carries(tr, ev[j].tick, x, j, h) && Drops(tr[h], ev[h], ev[j].tick, x)
  }

  /** Some tick took the minute up before state i and did not fail it. */
  ghost predicate Served(c: Setting, tr: seq<State>, ev: seq<Event>, i: nat, x: int)
    requires |tr| == |ev| + 1 && i <= |ev|
  {
    exists j: nat :: j < i && TakesUp(c, tr[j], ev[j], x) && !Loses(tr, ev, i, j, x)
  }

  /** What one step does to a minute some tick holds, and to its row. */
  lemma HoldStep(c: Setting, first: Option<int>, s: State, e: Event, k: nat, x: int)
    requires Inv(first, s) && Enabled(c, s, e)
    ensures Holds(s, k, x) ==>
              (Holds(Apply(c, s, e), k, x) <==> !Opens(s, e, k, x) && !Drops(s, e, k, x))
    ensures Holds(Apply(c, s, e), k, x) && !Holds(s, k, x) ==> e == Touch(k) && TakesUp(c, s, e, x)
    ensures TakesUp(c, s, e, x) && e == Touch(k) ==> Holds(Apply(c, s, e), k, x)
  {
    if k in s.ticks { assert TickOk(first, s, k); }
  }

  lemma RowStep(c: Setting, first: Option<int>, s: State, e: Event, x: int)
    requires Inv(first, s) && Enabled(c, s, e)
    ensures HasRow(Apply(c, s, e).table, c.job.id, x)
            <==> HasRow(s.table, c.job.id, x) || exists k: nat :: Opens(s, e, k, x)
  {
    if e.QueueNext? {
      QueueOne(s.table, c.job.id, s.ticks[e.tick].todo[0], c.job.id, x);
      assert Opens(s, e, e.tick, s.ticks[e.tick].todo[0]);
    }
  }

  lemma {:induction false} RowsStay(c: Setting, tr: seq<State>, ev: seq<Event>, i: nat, j: nat, x: int)
    requires Behaviour(c, tr, ev) && i <= j < |tr| && HasRow(tr[i].table, c.job.id, x)
    ensures HasRow(tr[j].table, c.job.id, x)
  {
    if i < j {
      RowsStay(c, tr, ev, i, j - 1, x);
      InvAlways(c, tr, ev, j - 1);
      assert StepAt(c, tr, ev, j - 1);
      RowStep(c, tr[0].pulse, tr[j - 1], ev[j - 1], x);
    }
  }

  /** A minute taken up is still held, has been failed, or has its row. */
  lemma {:induction false} Fate(c: Setting, tr: seq<State>, ev: seq<Event>, i: nat, j: nat, x: int)
    requires Behaviour(c, tr, ev) && j < i < |tr| && TakesUp(c, tr[j], ev[j], x)
    ensures Carries(tr, ev[j].tick, x, j, i) || Loses(tr, ev, i, j, x) || HasRow(tr[i].table, c.job.id, x)
  {
    var k := ev[j].tick;
    InvAlways(c, tr, ev, i - 1);
    assert StepAt(c, tr, ev, i - 1);
    HoldStep(c, tr[0].pulse, tr[i - 1], ev[i - 1], k, x);
    RowStep(c, tr[0].pulse, tr[i - 1], ev[i - 1], x);
    if j < i - 1 {
      Fate(c, tr, ev, i - 1, j, x);
      if Carries(tr, k, x, j, i - 1) {
        assert Holds(tr[i - 1], k, x);
        if Drops(tr[i - 1], ev[i - 1], k, x) { assert Loses(tr, ev, i, j, x); }
      } else if Loses(tr, ev, i - 1, j, x) {
        assert Loses(tr, ev, i, j, x);
      }
    }
  }

  /** A minute held was taken up by that tick, and held since. */
  lemma {:induction false} TakenAt(c: Setting, tr: seq<State>, ev: seq<Event>, i: nat, k: nat, x: int) returns (j: nat)
    requires Behaviour(c, tr, ev) && i < |tr| && Holds(tr[i], k, x)
    ensures j < i && ev[j] == Touch(k) && TakesUp(c, tr[j], ev[j], x) && Carries(tr, k, x, j, i)
  {
    assert i > 0;
    InvAlways(c, tr, ev, i - 1);
    assert StepAt(c, tr, ev, i - 1);
    HoldStep(c, tr[0].pulse, tr[i - 1], ev[i - 1], k, x);
    if Holds(tr[i - 1], k, x) {
      j := TakenAt(c, tr, ev, i - 1, k, x);
    } else {
      j := i - 1;
    }
  }

  /** A row that was not there at the start was opened by some tick's statement. */
  lemma {:induction false} OpenedAt(c: Setting, tr: seq<State>, ev: seq<Event>, i: nat, x: int) returns (h: nat, k: nat)
    requires Behaviour(c, tr, ev) && i < |tr|
    requires HasRow(tr[i].table, c.job.id, x) && !HasRow(tr[0].table, c.job.id, x)
    ensures h < i && Opens(tr[h], ev[h], k, x)
  {
    InvAlways(c, tr, ev, i - 1);
    assert StepAt(c, tr, ev, i - 1);
    RowStep(c, tr[0].pulse, tr[i - 1], ev[i - 1], x);
    if HasRow(tr[i - 1].table, c.job.id, x) {
      h, k := OpenedAt(c, tr, ev, i - 1, x);
    } else {
      h := i - 1;
      k :| Opens(tr[h], ev[h], k, x);
    }
  }

  /** A tick that opened the minute's row has not failed it. */
  lemma OpenerServes(c: Setting, tr: seq<State>, ev: seq<Event>, i: nat, h: nat, k: nat, x: int)
    requires Behaviour(c, tr, ev) && h < i < |tr| && Opens(tr[h], ev[h], k, x)
    ensures Served(c, tr, ev, i, x)
  {
    var j := TakenAt(c, tr, ev, h, k, x);
    HoldAt(c, tr, ev, h, k, x);
    forall g: nat | j < g < i && Carries(tr, k, x, j, g) ensures !Drops(tr[g], ev[g], k, x) {
      if g < h { HoldAt(c, tr, ev, g, k, x); }
    }
  }

  lemma HoldAt(c: Setting, tr: seq<State>, ev: seq<Event>, g: nat, k: nat, x: int)
    requires Behaviour(c, tr, ev) && g < |ev| && Holds(tr[g], k, x)
    ensures Holds(tr[g + 1], k, x) <==> !Opens(tr[g], ev[g], k, x) && !Drops(tr[g], ev[g], k, x)
  {
    InvAlways(c, tr, ev, g);
    assert StepAt(c, tr, ev, g);
    HoldStep(c, tr[0].pulse, tr[g], ev[g], k, x);
  }

  /** No tick has rows left to open. */
  ghost predicate Settled(s: State) {
    forall k :: k in s.ticks && s.ticks[k].Queuing? ==> s.ticks[k].todo == []
  }

  /** In the end a minute has a row if and only if it had one, or some tick took it up and did not fail it. */
  lemma RowIff(c: Setting, tr: seq<State>, ev: seq<Event>, i: nat, x: int)
    requires Behaviour(c, tr, ev) && i < |tr| && Settled(tr[i])
    ensures HasRow(tr[i].table, c.job.id, x) <==> HasRow(tr[0].table, c.job.id, x) || Served(c, tr, ev, i, x)
  {
    if HasRow(tr[0].table, c.job.id, x) {
      RowsStay(c, tr, ev, 0, i, x);
    } else if HasRow(tr[i].table, c.job.id, x) {
      var h, k := OpenedAt(c, tr, ev, i, x);
      OpenerServes(c, tr, ev, i, h, k, x);
    } else if Served(c, tr, ev, i, x) {
      var j: nat :| j < i && TakesUp(c, tr[j], ev[j], x) && !Loses(tr, ev, i, j, x);
      assert !Holds(tr[i], ev[j].tick, x);
      Fate(c, tr, ev, i, j, x);
    }
  }

  // --- which minutes are taken up ---

  /**
  A tick that writes the pulse skipped no more minutes than either limit; one
  that found no pulse is the first to write it, or skips no minute.
  */
  ghost predicate ShortGap(c: Setting, s: State, e: Event) {
    e.Touch? && e.tick in s.ticks && s.ticks[e.tick].Read? ==>
      var minute := s.ticks[e.tick].minute;
      match s.ticks[e.tick].last
      case Some(last) => minute - last - 1 <= Reach(c.job, c.missScanMin)
      case None => s.touched == [] || exists y :: y in s.touched && minute <= y + 1
  }

  ghost predicate ShortGaps(c: Setting, tr: seq<State>, ev: seq<Event>)
    requires |tr| == |ev| + 1
  {
    forall i {:trigger StepAt(c, tr, ev, i)} :: 0 <= i < |ev| ==> ShortGap(c, tr[i], ev[i])
  }

  /**
  A minute the replicas are to serve: at most the latest tick's, and after the
  pulse there was at the start or, without one, from the first tick's on. The
  minute of the pulse at the start counts only if a tick ran in it.
  */
  ghost predicate Serving(first: Option<int>, touched: seq<int>, x: int) {
    && (exists y :: y in touched && x <= y)
    && (x in touched || if first.Some? then first.value < x else touched[0] <= x)
  }

  ghost predicate Taken(c: Setting, tr: seq<State>, ev: seq<Event>, i: nat, x: int)
    requires |tr| == |ev| + 1 && i <= |ev|
  {
    exists j: nat :: j < i && TakesUp(c, tr[j], ev[j], x)
  }

  lemma TakesUpIff(c: Setting, s: State, e: Event, x: int)
    requires Enabled(c, s, e) && e.Touch?
    ensures TakesUp(c, s, e, x)
            <==> c.falls(x) && (x == s.ticks[e.tick].minute
                 || var last := s.ticks[e.tick].last;
                    last.Some? && last.value < x < s.ticks[e.tick].minute
                    && s.ticks[e.tick].minute - x <= Reach(c.job, c.missScanMin))
  {
    CandidateIff(c.job, s.ticks[e.tick].minute, s.ticks[e.tick].last, c.missScanMin, x);
  }

  lemma {:induction false} TouchedGrows(c: Setting, tr: seq<State>, ev: seq<Event>, i: nat, j: nat)
    requires Behaviour(c, tr, ev) && i <= j < |tr|
    ensures tr[i].touched <= tr[j].touched
  {
    if i < j {
      TouchedGrows(c, tr, ev, i, j - 1);
      assert StepAt(c, tr, ev, j - 1);
    }
  }

  /** After short gaps every due minute to serve has been taken up by some tick. */
  lemma {:induction false} ServingIsTaken(c: Setting, tr: seq<State>, ev: seq<Event>, i: nat, x: int)
    requires Behaviour(c, tr, ev) && ShortGaps(c, tr, ev) && i < |tr|
    requires c.falls(x) && Serving(tr[0].pulse, tr[i].touched, x)
    ensures Taken(c, tr, ev, i, x)
  {
    assert i > 0 && StepAt(c, tr, ev, i - 1);
    var s, e := tr[i - 1], ev[i - 1];
    if Serving(tr[0].pulse, s.touched, x) {
      ServingIsTaken(c, tr, ev, i - 1, x);
    } else {
      InvAlways(c, tr, ev, i - 1);
      assert e.Touch? && TickOk(tr[0].pulse, s, e.tick) && ShortGap(c, s, e);
      TakesUpIff(c, s, e, x);
    }
  }

  /** The pulse never goes back, counting from the one at the start. */
  ghost predicate InOrder(first: Option<int>, touched: seq<int>) {
    Nondecreasing(touched) && (first.Some? ==> forall m :: m in touched ==> first.value <= m)
  }

  lemma TakingIsServing(c: Setting, first: Option<int>, s: State, e: Event, x: int)
    requires Inv(first, s) && Enabled(c, s, e) && TakesUp(c, s, e, x)
    requires InOrder(first, s.touched)
    ensures c.falls(x) && Serving(first, Apply(c, s, e).touched, x)
  {
    TakesUpIff(c, s, e, x);
    assert TickOk(first, s, e.tick);
    assert s.ticks[e.tick].minute in Apply(c, s, e).touched;
  }

  lemma ServingGrows(first: Option<int>, touched: seq<int>, more: seq<int>, x: int)
    requires touched <= more && Serving(first, touched, x)
    ensures Serving(first, more, x)
  {
    var y :| y in touched && x <= y;
    assert y in more;
  }

  lemma InOrderBefore(first: Option<int>, touched: seq<int>, more: seq<int>)
    requires touched <= more && InOrder(first, more)
    ensures InOrder(first, touched)
  {
    assert forall m :: m in touched ==> m in more;
  }

  /** With the pulse in order no other minute is. */
  lemma TakenIsServing(c: Setting, tr: seq<State>, ev: seq<Event>, i: nat, x: int)
    requires Behaviour(c, tr, ev) && i < |tr| && InOrder(tr[0].pulse, tr[i].touched) && Taken(c, tr, ev, i, x)
    ensures c.falls(x) && Serving(tr[0].pulse, tr[i].touched, x)
  {
    var j: nat :| j < i && TakesUp(c, tr[j], ev[j], x);
    InvAlways(c, tr, ev, j);
    assert StepAt(c, tr, ev, j);
    TouchedGrows(c, tr, ev, j, i);
    TouchedGrows(c, tr, ev, j + 1, i);
    InOrderBefore(tr[0].pulse, tr[j].touched, tr[i].touched);
    TakingIsServing(c, tr[0].pulse, tr[j], ev[j], x);
    ServingGrows(tr[0].pulse, tr[j + 1].touched, tr[i].touched, x);
  }

  /** Every tick that took the minute up failed it. */
  ghost predicate FailedByAll(c: Setting, tr: seq<State>, ev: seq<Event>, i: nat, x: int)
    requires |tr| == |ev| + 1 && i <= |ev|
  {
    forall j: nat :: j < i && TakesUp(c, tr[j], ev[j], x) ==> Loses(tr, ev, i, j, x)
  }

  /**
  Every minute once, in whatever order the pulse was written. After short gaps,
  once no tick has rows left to open: some tick took each due minute to serve
  up; its row is there unless every one that did failed it; and it is there once.
  */
  lemma EveryMinuteOnce(c: Setting, tr: seq<State>, ev: seq<Event>, i: nat, x: int)
    requires Behaviour(c, tr, ev) && ShortGaps(c, tr, ev) && i < |tr| && Settled(tr[i])
    requires c.falls(x) && Serving(tr[0].pulse, tr[i].touched, x)
    ensures Taken(c, tr, ev, i, x)
    ensures !HasRow(tr[i].table, c.job.id, x)
            <==> !HasRow(tr[0].table, c.job.id, x) && FailedByAll(c, tr, ev, i, x)
    ensures OneRowPerMinute(tr[i].table)
  {
    ServingIsTaken(c, tr, ev, i, x);
    RowIff(c, tr, ev, i, x);
    InvAlways(c, tr, ev, i);
  }

  /** After the pulse at the start, or from the first tick on if there was none, to the latest tick. */
  ghost predicate UpToLatest(first: Option<int>, touched: seq<int>, x: int) {
    && touched != [] && x <= touched[|touched| - 1]
    && match first
       case Some(p) => p < x || (x == p && touched[0] == p)
       case None => touched[0] <= x
  }

  lemma ServingIsRange(first: Option<int>, touched: seq<int>, x: int)
    requires InOrder(first, touched)
    ensures Serving(first, touched, x) <==> UpToLatest(first, touched, x)
  {
    if touched != [] {
      assert touched[0] in touched && touched[|touched| - 1] in touched;
    }
  }

  /**
  Exact catch-up, with the pulse written in minute order: the rows are those of
  the start and of the due minutes since, but for those that every tick failed.
  */
  lemma ExactCatchUp(c: Setting, tr: seq<State>, ev: seq<Event>, i: nat, x: int)
    requires Behaviour(c, tr, ev) && ShortGaps(c, tr, ev) && i < |tr| && Settled(tr[i])
    requires InOrder(tr[0].pulse, tr[i].touched)
    ensures c.falls(x) && UpToLatest(tr[0].pulse, tr[i].touched, x) ==> Taken(c, tr, ev, i, x)
    ensures HasRow(tr[i].table, c.job.id, x)
            <==> || HasRow(tr[0].table, c.job.id, x)
                 || (c.falls(x) && UpToLatest(tr[0].pulse, tr[i].touched, x) && !FailedByAll(c, tr, ev, i, x))
  {
    ServingIsRange(tr[0].pulse, tr[i].touched, x);
    if c.falls(x) && UpToLatest(tr[0].pulse, tr[i].touched, x) { ServingIsTaken(c, tr, ev, i, x); }
    RowIff(c, tr, ev, i, x);
    if Served(c, tr, ev, i, x) {
      var j: nat :| j < i && TakesUp(c, tr[j], ev[j], x) && !Loses(tr, ev, i, j, x);
      TakenIsServing(c, tr, ev, i, x);
    }
  }

  // --- a tick that fails after its pulse ---

  /** The minutes of the two ticks below: the first fails once it has written the pulse. */
  const FAILED := 10
  const SERVED := 11

  function EveryMinute(): Setting {
    Setting(ScheduledJob(7, true, 60), 60, (m: int) => true)
  }

  function FailingEvent(n: nat): Event {
    if n == 0 then Start(0, FAILED)
    else if n == 3 then Fail(0)
    else if n == 4 then Start(0, SERVED)
    else if n == 7 then QueueNext(0)
    else if n == 1 || n == 5 then ReadPulse(0)
    else Touch(0)
  }

  function FailingState(n: nat): State {
    var none := Table(map[], 0);
    if n == 0 then State(none, Some(9), map[], [])
    else if n == 1 then State(none, Some(9), map[0 := Started(FAILED)], [])
    else if n == 2 then State(none, Some(9), map[0 := Read(FAILED, Some(9))], [])
    else if n == 3 then State(none, Some(FAILED), map[0 := Queuing(FAILED, [FAILED])], [FAILED])
    else if n == 4 then State(none, Some(FAILED), map[], [FAILED])
    else if n == 5 then State(none, Some(FAILED), map[0 := Started(SERVED)], [FAILED])
    else if n == 6 then State(none, Some(FAILED), map[0 := Read(SERVED, Some(FAILED))], [FAILED])
    else if n == 7 then State(none, Some(SERVED), map[0 := Queuing(SERVED, [SERVED])], [FAILED, SERVED])
    else State(QueueRun(none, 7, SERVED), Some(SERVED), map[0 := Queuing(SERVED, [])], [FAILED, SERVED])
  }

  lemma NextMinuteOnly(minute: int)
    ensures Todo(EveryMinute(), minute, Some(minute - 1)) == [minute]
  {
    var c := EveryMinute();
    assert Candidates(c.job, minute, Missed(minute, Some(minute - 1), 60)) == [minute];
    assert Falling([minute], c.falls) == Falling([minute][..0], c.falls) + [minute];
  }

  ghost predicate FailingLeads(n: nat) {
    && Enabled(EveryMinute(), FailingState(n), FailingEvent(n))
    && FailingState(n + 1) == Apply(EveryMinute(), FailingState(n), FailingEvent(n))
    && ShortGap(EveryMinute(), FailingState(n), FailingEvent(n))
  }

  /** The pulse write of the only tick, when it finds the pulse one minute back. */
  lemma OnlyTouches(s: State, minute: int)
    requires s.ticks == map[0 := Read(minute, Some(minute - 1))]
    ensures Enabled(EveryMinute(), s, Touch(0)) && ShortGap(EveryMinute(), s, Touch(0))
    ensures Apply(EveryMinute(), s, Touch(0))
            == State(s.table, Some(minute), map[0 := Queuing(minute, [minute])], s.touched + [minute])
  {
    NextMinuteOnly(minute);
  }

  lemma FailingQueue()
    ensures FailingLeads(7)
  {
    assert [SERVED][1..] == [];
  }

  lemma FailingStep(n: nat)
    requires n < 8
    ensures FailingLeads(n)
  {
    if n == 2 {
      OnlyTouches(FailingState(n), FAILED);
    } else if n == 6 {
      OnlyTouches(FailingState(n), SERVED);
    } else if n == 7 {
      FailingQueue();
    }
  }

  lemma FailingEnd()
    ensures Settled(FailingState(8)) && Initial(FailingState(0))
    ensures InOrder(Some(9), [FAILED, SERVED]) && UpToLatest(Some(9), [FAILED, SERVED], FAILED)
    ensures !HasRow(FailingState(8).table, 7, FAILED) && HasRow(FailingState(8).table, 7, SERVED)
  {
    QueueOne(Table(map[], 0), 7, SERVED, 7, SERVED);
    QueueOne(Table(map[], 0), 7, SERVED, 7, FAILED);
  }

  lemma FailingRun() returns (tr: seq<State>, ev: seq<Event>)
    ensures |ev| == 8 && Behaviour(EveryMinute(), tr, ev) && ShortGaps(EveryMinute(), tr, ev)
    ensures tr[0] == FailingState(0) && tr[8] == FailingState(8)
  {
    FailingEnd();
    tr := seq(9, (n: nat) => FailingState(n));
    ev := seq(8, (n: nat) => FailingEvent(n));
    forall i: nat | i < |ev| ensures StepAt(EveryMinute(), tr, ev, i) && ShortGap(EveryMinute(), tr[i], ev[i]) {
      FailingStep(i);
    }
  }

  /** A tick that fails after its pulse write loses its minute although no minute was skipped. */
  lemma FailedTickLoses() returns (tr: seq<State>, ev: seq<Event>)
    ensures Behaviour(EveryMinute(), tr, ev) && ShortGaps(EveryMinute(), tr, ev) && Settled(tr[|ev|])
    ensures InOrder(tr[0].pulse, tr[|ev|].touched) && UpToLatest(tr[0].pulse, tr[|ev|].touched, FAILED)
    ensures EveryMinute().falls(FAILED) && !HasRow(tr[|ev|].table, 7, FAILED) && HasRow(tr[|ev|].table, 7, SERVED)
  {
    FailingEnd();
    tr, ev := FailingRun();
  }

  // --- ticks one after another ---

  /**
  How one tick ends: before it writes the pulse, or after it and before it has
  listed the jobs, or with the listing gone through; refused then holds the
  minutes for which every statement of the job failed.
  */
  datatype Outcome = NoPulse | NoListing | Listed(refused: set<int>)

  datatype Run = Run(minute: int, outcome: Outcome)

  /** The pulse after these ticks. */
  function PulseAfter(pulse: Option<int>, runs: seq<Run>): Option<int> {
    if runs == [] then pulse
    else
      var last := runs[|runs| - 1];
      if last.outcome.NoPulse? then PulseAfter(pulse, runs[..|runs| - 1]) else Some(last.minute)
  }

  /** The minutes these ticks open, each reading what those before left in the pulse. */
  function OpenedBy(c: Setting, pulse: Option<int>, runs: seq<Run>): set<int> {
    if runs == [] then {}
    else
      var before, last := runs[..|runs| - 1], runs[|runs| - 1];
      OpenedBy(c, pulse, before)
      + if last.outcome.Listed?
        then set x | x in Todo(c, last.minute, PulseAfter(pulse, before)) && x !in last.outcome.refused
        else {}
  }

  /** The tick opens the minute, if it is due: its own, or one skipped before it within reach. */
  ghost predicate Catches(c: Setting, pulse: Option<int>, runs: seq<Run>, i: nat, x: int)
    requires i < |runs|
  {
    var run, last := runs[i], PulseAfter(pulse, runs[..i]);
    && run.outcome.Listed? && x !in run.outcome.refused
    && (x == run.minute
        || (last.Some? && last.value < x < run.minute && run.minute - x <= Reach(c.job, c.missScanMin)))
  }

  lemma {:induction false} OpenedByIff(c: Setting, pulse: Option<int>, runs: seq<Run>, x: int)
    ensures x in OpenedBy(c, pulse, runs)
            <==> c.falls(x) && exists i: nat :: i < |runs| && Catches(c, pulse, runs, i, x)
  {
    if runs != [] {
      var n := |runs| - 1;
      var before := runs[..n];
      OpenedByIff(c, pulse, before, x);
      CandidateIff(c.job, runs[n].minute, PulseAfter(pulse, before), c.missScanMin, x);
      forall i: nat | i < n ensures Catches(c, pulse, before, i, x) <==> Catches(c, pulse, runs, i, x) {
        assert before[..i] == runs[..i];
      }
      assert Catches(c, pulse, runs, n, x) && c.falls(x)
             <==> x in OpenedBy(c, pulse, runs) && runs[n].outcome.Listed? && x !in runs[n].outcome.refused
                  && x in Todo(c, runs[n].minute, PulseAfter(pulse, before));
    }
  }

  /** The database minutes never go back, counting from the pulse at the start. */
  ghost predicate Forward(pulse: Option<int>, runs: seq<Run>) {
    && (forall i, j :: 0 <= i < j < |runs| ==> runs[i].minute <= runs[j].minute)
    && (forall i :: pulse.Some? && 0 <= i < |runs| ==> pulse.value <= runs[i].minute)
  }

  lemma {:induction false} PulseCatchesUp(pulse: Option<int>, runs: seq<Run>, j: nat)
    requires Forward(pulse, runs) && j < |runs| && !runs[j].outcome.NoPulse?
    ensures PulseAfter(pulse, runs).Some? && runs[j].minute <= PulseAfter(pulse, runs).value
  {
    var last := |runs| - 1;
    if j < last && runs[last].outcome.NoPulse? {
      PulseCatchesUp(pulse, runs[..last], j);
    }
  }

  /** No other tick but those of a later minute's pulse can catch what tick i finds between its pulse and itself. */
  lemma OnlyThatTick(c: Setting, pulse: Option<int>, runs: seq<Run>, i: nat, k: nat, x: int)
    requires Forward(pulse, runs) && i < |runs| && !runs[i].outcome.NoPulse? && k < |runs| && k != i
    requires PulseAfter(pulse, runs[..i]).Some? && PulseAfter(pulse, runs[..i]).value < x < runs[i].minute
    ensures !Catches(c, pulse, runs, k, x)
  {
    if k > i {
      assert runs[..k][i] == runs[i];
      PulseCatchesUp(pulse, runs[..k], i);
    } else if !runs[k].outcome.NoPulse? {
      assert runs[..i][k] == runs[k];
      PulseCatchesUp(pulse, runs[..i], k);
    }
  }

  /**
  A due minute that a tick finds between the pulse it reads and its own minute,
  and puts behind the pulse: lost if and only if the tick fails before listing
  the jobs, or every statement for the minute fails, or it is out of reach.
  */
  lemma SkippedLostIff(c: Setting, pulse: Option<int>, runs: seq<Run>, i: nat, x: int)
    requires Forward(pulse, runs) && i < |runs| && !runs[i].outcome.NoPulse? && c.falls(x)
    requires PulseAfter(pulse, runs[..i]).Some? && PulseAfter(pulse, runs[..i]).value < x < runs[i].minute
    ensures x !in OpenedBy(c, pulse, runs)
            <==> || runs[i].outcome.NoListing? || x in runs[i].outcome.refused
                 || runs[i].minute - x > Reach(c.job, c.missScanMin)
  {
    OpenedByIff(c, pulse, runs, x);
    forall k: nat | k < |runs| && k != i ensures !Catches(c, pulse, runs, k, x) {
      OnlyThatTick(c, pulse, runs, i, k, x);
    }
    assert Catches(c, pulse, runs, i, x)
           <==> runs[i].outcome.Listed? && x !in runs[i].outcome.refused
                && runs[i].minute - x <= Reach(c.job, c.missScanMin);
  }

  /** A due minute in which a tick wrote the pulse is lost if and only if every tick of that minute fails it. */
  lemma OwnMinuteLostIff(c: Setting, pulse: Option<int>, runs: seq<Run>, i: nat)
    requires Forward(pulse, runs) && i < |runs| && !runs[i].outcome.NoPulse? && c.falls(runs[i].minute)
    ensures var x := runs[i].minute;
            x !in OpenedBy(c, pulse, runs)
            <==> forall k: nat :: k < |runs| && runs[k].minute == x ==>
                   !runs[k].outcome.Listed? || x in runs[k].outcome.refused
  {
    var x := runs[i].minute;
    OpenedByIff(c, pulse, runs, x);
    forall k: nat | k < |runs|
      ensures Catches(c, pulse, runs, k, x)
              <==> runs[k].minute == x && runs[k].outcome.Listed? && x !in runs[k].outcome.refused
    {
      if k > i && runs[k].minute > x {
        assert runs[..k][i] == runs[i];
        PulseCatchesUp(pulse, runs[..k], i);
      }
    }
  }

  // --- the same ticks and rows as elsewhere ---

  /** The setting of one of the dispatcher's jobs. */
  function SettingOf(falls: Falls, schedules: map<int, seq<string>>, job: ScheduledJob, missScanMin: int): Setting {
    Setting(job, missScanMin, (m: int) => exists text :: text in TextsOf(schedules, job.id) && falls(text, m))
  }

  /** The minutes a tick opens for a job here are those the dispatcher tries for it. */
  lemma TodoIsAttempted(falls: Falls, jobs: seq<ScheduledJob>, schedules: map<int, seq<string>>, minute: int,
                        last: Option<int>, missScanMin: int, job: ScheduledJob, t: int)
    requires job in jobs && forall other :: other in jobs && other.id == job.id ==> other == job
    ensures t in Todo(SettingOf(falls, schedules, job, missScanMin), minute, last)
            <==> (job.id, t) in Attempts(falls, jobs, schedules, minute, Missed(minute, last, missScanMin))
  {
    AttemptsIff(falls, jobs, schedules, minute, Missed(minute, last, missScanMin), job.id, t);
  }

  /** The rows the dispatcher's inserts leave are those of one run; it is refused the minutes no insert succeeds for. */
  lemma TickIsRun(falls: Falls, t: Table, jobs: seq<ScheduledJob>, schedules: map<int, seq<string>>, minute: int,
                  last: Option<int>, missScanMin: int, fails: set<nat>, job: ScheduledJob, refused: set<int>, x: int)
    requires WellFormed(t) && OneRowPerMinute(t)
    requires job in jobs && forall other :: other in jobs && other.id == job.id ==> other == job
    requires var attempts := Attempts(falls, jobs, schedules, minute, Missed(minute, last, missScanMin));
             x in refused <==> !Succeeds(attempts, fails, job.id, x)
    ensures var attempts := Attempts(falls, jobs, schedules, minute, Missed(minute, last, missScanMin));
            var c := SettingOf(falls, schedules, job, missScanMin);
            HasRow(QueueAll(t, attempts, fails), job.id, x)
            <==> HasRow(t, job.id, x) || x in OpenedBy(c, last, [Run(minute, Listed(refused))])
  {
    var attempts := Attempts(falls, jobs, schedules, minute, Missed(minute, last, missScanMin));
    var c := SettingOf(falls, schedules, job, missScanMin);
    var runs := [Run(minute, Listed(refused))];
    assert runs[..0] == [];
    QueueAllOpens(t, attempts, fails, job.id, x);
    TodoIsAttempted(falls, jobs, schedules, minute, last, missScanMin, job, x);
    assert OpenedBy(c, last, runs)
           == OpenedBy(c, last, runs[..0]) + set m | m in Todo(c, minute, last) && m !in refused;
  }

  /** Every step of the run protocol but queueing leaves the rows' minutes alone. */
  lemma OtherStepsKeepMinutes(s: RunProtocol.State, e: RunProtocol.Event, job: int)
    requires RunProtocol.Inv(s) && RunProtocol.Enabled(s, e) && (e.Queue? ==> e.jobId != job)
    ensures KeepsMinutes(s.table, RunProtocol.Apply(s, e).table, job)
  {
    RunProtocol.InvStep(s, e);
    MinutesKept(s, e, RunProtocol.Apply(s, e).table, job);
  }

  lemma MinutesKept(s: RunProtocol.State, e: RunProtocol.Event, t: Table, job: int)
    requires RunProtocol.Inv(s) && RunProtocol.Enabled(s, e) && (e.Queue? ==> e.jobId != job)
    requires t == RunProtocol.Apply(s, e).table
    ensures forall m {:trigger HasRow(t, job, m)} :: HasRow(t, job, m) <==> HasRow(s.table, job, m)
  {
    forall m ensures HasRow(t, job, m) <==> HasRow(s.table, job, m) {
      if HasRow(s.table, job, m) {
        var id :| id in s.table.rows && s.table.rows[id].jobId == job && s.table.rows[id].planned == Some(m);
        RunSafety.StepOnRow(s, e, id);
      }
      if HasRow(t, job, m) {
        var id :| id in t.rows && t.rows[id].jobId == job && t.rows[id].planned == Some(m);
        if id in s.table.rows { RunSafety.StepOnRow(s, e, id); }
      }
    }
  }
}
