/**
The tick: which minutes it looks at, which rows it opens, and which pending
rows it hands over.
*/
module Dispatch {
  import opened Common
  import opened ExecRepo

  /** In the order the listing returns them. */
  datatype ScheduledJob = ScheduledJob(id: int, runMissed: bool, maxDelayMin: int)

  /** Whether an expression is well formed and falls on a minute. */
  type Falls = (string, int) -> bool

  // --- the minutes to look at ---

  function Span(lo: int, hi: int): (s: seq<int>)
    ensures forall t :: t in s <==> lo <= t < hi
    decreases hi - lo
  {
    if lo >= hi then [] else Span(lo, hi - 1) + [hi - 1]
  }

  function Later(a: int, b: int): int {
    if a < b then b else a
  }

  /** lastRun is the minute of the last pulse. */
  function Missed(minute: int, lastRun: Option<int>, missScanMin: int): seq<int> {
    match lastRun
    case None => []
    case Some(last) => Span(Later(last + 1, minute - missScanMin), minute)
  }

  method MissedMinutes(minute: int, lastRun: Option<int>, missScanMin: int) returns (out: seq<int>)
    ensures out == Missed(minute, lastRun, missScanMin)
  {
    if lastRun.None? { return []; }
    var oldest := minute - missScanMin;
    var start := lastRun.value + 1;
    if start < oldest { start := oldest; }
    out := [];
    var t := start;
    while t < minute
      invariant out == Span(start, t)
      invariant t <= minute || out == Span(start, minute)
    {
      out := out + [t];
      t := t + 1;
    }
  }

  function Within(past: seq<int>, minute: int, limit: int): seq<int> {
    if past == [] then []
    else
      var t := past[|past| - 1];
      Within(past[..|past| - 1], minute, limit) + if minute - t <= limit then [t] else []
  }

  function Candidates(job: ScheduledJob, minute: int, past: seq<int>): seq<int> {
    if !job.runMissed || past == [] then [minute] else [minute] + Within(past, minute, job.maxDelayMin)
  }

  method CandidateMinutes(job: ScheduledJob, minute: int, past: seq<int>) returns (out: seq<int>)
    ensures out == Candidates(job, minute, past)
  {
    out := [minute];
    if !job.runMissed || |past| == 0 { return; }
    for i := 0 to |past|
      invariant out == [minute] + Within(past[..i], minute, job.maxDelayMin)
    {
      assert past[..i + 1][..i] == past[..i];
      if minute - past[i] <= job.maxDelayMin { out := out + [past[i]]; }
    }
    assert past[..|past|] == past;
  }

  lemma {:induction false} WithinIff(past: seq<int>, minute: int, limit: int, t: int)
    ensures t in Within(past, minute, limit) <==> t in past && minute - t <= limit
  {
    if past != [] { WithinIff(past[..|past| - 1], minute, limit, t); }
  }

  /** How far back one tick reaches for a job. */
  function Reach(job: ScheduledJob, missScanMin: int): int {
    if !job.runMissed then 0 else if job.maxDelayMin < missScanMin then job.maxDelayMin else missScanMin
  }

  /** A tick looks at its own minute, and back to the last pulse as far as both limits allow. */
  lemma CandidateIff(job: ScheduledJob, minute: int, lastRun: Option<int>, missScanMin: int, t: int)
    ensures t in Candidates(job, minute, Missed(minute, lastRun, missScanMin))
            <==> t == minute
                 || (lastRun.Some? && lastRun.value < t < minute && minute - t <= Reach(job, missScanMin))
  {
    WithinIff(Missed(minute, lastRun, missScanMin), minute, job.maxDelayMin, t);
  }

  /** However long the outage, that is at most the reach and the minute itself. */
  lemma CandidatesFew(job: ScheduledJob, minute: int, lastRun: Option<int>, missScanMin: int, minutes: set<int>)
    requires forall t :: t in minutes ==> t in Candidates(job, minute, Missed(minute, lastRun, missScanMin))
    ensures |minutes| <= 1 + Later(0, Reach(job, missScanMin))
  {
    var reach := Later(0, Reach(job, missScanMin));
    var range := Range(minute - reach, minute + 1);
    forall t | t in minutes ensures t in range {
      CandidateIff(job, minute, lastRun, missScanMin, t);
    }
    SubsetSize(minutes, range);
    RangeSize(minute - reach, minute + 1);
  }

  // --- the rows to open ---

  /** The minutes an expression falls on, tagged with the job. */
  function OfExpression(falls: Falls, job: int, text: string, minutes: seq<int>): seq<(int, int)> {
    if minutes == [] then []
    else
      var t := minutes[|minutes| - 1];
      OfExpression(falls, job, text, minutes[..|minutes| - 1]) + if falls(text, t) then [(job, t)] else []
  }

  function OfJob(falls: Falls, job: int, texts: seq<string>, minutes: seq<int>): seq<(int, int)> {
    if texts == [] then []
    else OfJob(falls, job, texts[..|texts| - 1], minutes) + OfExpression(falls, job, texts[|texts| - 1], minutes)
  }

  function TextsOf(schedules: map<int, seq<string>>, job: int): seq<string> {
    if job in schedules then schedules[job] else []
  }

  /** Every row the tick tries to open, in order. */
  function Attempts(falls: Falls, jobs: seq<ScheduledJob>, schedules: map<int, seq<string>>, minute: int,
                    past: seq<int>):
    seq<(int, int)>
  {
    if jobs == [] then []
    else
      var job := jobs[|jobs| - 1];
      Attempts(falls, jobs[..|jobs| - 1], schedules, minute, past)
      + OfJob(falls, job.id, TextsOf(schedules, job.id), Candidates(job, minute, past))
  }

  /** One statement an attempt; fails has the positions of those that fail. */
  function QueueAll(t: Table, attempts: seq<(int, int)>, fails: set<nat>): Table {
    if attempts == [] then t
    else
      var n := |attempts| - 1;
      var before := QueueAll(t, attempts[..n], fails);
      if n in fails then before else QueueRun(before, attempts[n].0, attempts[n].1)
  }

  function Written(attempts: seq<(int, int)>, fails: set<nat>): nat {
    if attempts == [] then 0
    else
      var n := |attempts| - 1;
      Written(attempts[..n], fails) + if n in fails then 0 else 1
  }

  /** Some statement for the job and minute does not fail. */
  ghost predicate Succeeds(attempts: seq<(int, int)>, fails: set<nat>, j: int, m: int) {
    exists i :: 0 <= i < |attempts| && attempts[i] == (j, m) && i !in fails
  }

  lemma {:induction false} OfExpressionIff(falls: Falls, job: int, text: string, minutes: seq<int>, a: (int, int))
    ensures a in OfExpression(falls, job, text, minutes) <==> a.0 == job && a.1 in minutes && falls(text, a.1)
  {
    if minutes != [] { OfExpressionIff(falls, job, text, minutes[..|minutes| - 1], a); }
  }

  lemma {:induction false} OfJobIff(falls: Falls, job: int, texts: seq<string>, minutes: seq<int>, a: (int, int))
    ensures a in OfJob(falls, job, texts, minutes)
            <==> a.0 == job && a.1 in minutes && exists text :: text in texts && falls(text, a.1)
  {
    if texts != [] {
      OfJobIff(falls, job, texts[..|texts| - 1], minutes, a);
      OfExpressionIff(falls, job, texts[|texts| - 1], minutes, a);
      assert forall text :: text in texts <==> text in texts[..|texts| - 1] || text == texts[|texts| - 1];
    }
  }

  /** The job is listed, the minute is one of its candidates, and one of its expressions falls on it. */
  ghost predicate Due(falls: Falls, jobs: seq<ScheduledJob>, schedules: map<int, seq<string>>, minute: int,
                      past: seq<int>, id: int, t: int)
  {
    exists job :: job in jobs && job.id == id && t in Candidates(job, minute, past)
                  && exists text :: text in TextsOf(schedules, id) && falls(text, t)
  }

  lemma {:induction false} AttemptsIff(falls: Falls, jobs: seq<ScheduledJob>, schedules: map<int, seq<string>>,
                                       minute: int, past: seq<int>, id: int, t: int)
    ensures (id, t) in Attempts(falls, jobs, schedules, minute, past)
            <==> Due(falls, jobs, schedules, minute, past, id, t)
  {
    if jobs != [] {
      var before, last := jobs[..|jobs| - 1], jobs[|jobs| - 1];
      AttemptsIff(falls, before, schedules, minute, past, id, t);
      OfJobIff(falls, last.id, TextsOf(schedules, last.id), Candidates(last, minute, past), (id, t));
      assert forall job :: job in jobs <==> job in before || job == last;
    }
  }

  ghost predicate HasRow(t: Table, job: int, minute: int) {
    Conflicts(t, job, minute)
  }

  /** Existing rows stay as they are; every new one is a fresh pending row for its minute. */
  ghost predicate OnlyOpens(t: Table, after: Table) {
    && t.next <= after.next
    && (forall id :: id in t.rows ==> id in after.rows && after.rows[id] == t.rows[id])
    && (forall id :: id in after.rows && id !in t.rows ==>
          t.next <= id && after.rows[id].planned.Some?
          && after.rows[id] == Row(after.rows[id].jobId, after.rows[id].planned, None, Schedule, None, Pending, None))
  }

  lemma QueueOne(t: Table, job: int, minute: int, j: int, m: int)
    requires WellFormed(t) && OneRowPerMinute(t)
    ensures var after := QueueRun(t, job, minute);
            && WellFormed(after) && OneRowPerMinute(after) && OnlyOpens(t, after)
            && (HasRow(after, j, m) <==> HasRow(t, j, m) || (j, m) == (job, minute))
  {
    var after := QueueRun(t, job, minute);
    assert t.next in t.rows ==> Placed(t, t.next);
    forall id | id in after.rows ensures Placed(after, id) {
      if id in t.rows { assert Placed(t, id); }
    }
    if HasRow(t, j, m) {
      var id :| id in t.rows && t.rows[id].jobId == j && t.rows[id].planned == Some(m);
      assert after.rows[id] == t.rows[id];
    }
    if !Conflicts(t, job, minute) {
      assert after.rows[t.next].jobId == job && after.rows[t.next].planned == Some(minute);
    }
  }

  /** A tick's rows: afterwards a minute has a row exactly if it had one or a statement for it did not fail. */
  lemma {:induction false} QueueAllOpens(t: Table, attempts: seq<(int, int)>, fails: set<nat>, j: int, m: int)
    requires WellFormed(t) && OneRowPerMinute(t)
    ensures var after := QueueAll(t, attempts, fails);
            && WellFormed(after) && OneRowPerMinute(after) && OnlyOpens(t, after)
            && (HasRow(after, j, m) <==> HasRow(t, j, m) || Succeeds(attempts, fails, j, m))
  {
    if attempts != [] {
      var n := |attempts| - 1;
      var before := attempts[..n];
      QueueAllOpens(t, before, fails, j, m);
      QueueOne(QueueAll(t, before, fails), attempts[n].0, attempts[n].1, j, m);
      assert Succeeds(attempts, fails, j, m)
             <==> Succeeds(before, fails, j, m) || (attempts[n] == (j, m) && n !in fails);
    }
  }

  /** The rows of one job a tick added. */
  ghost function NewMinutes(t: Table, after: Table, job: int): set<int> {
    set id | id in after.rows && id !in t.rows && after.rows[id].jobId == job && after.rows[id].planned.Some?
      :: after.rows[id].planned.value
  }

  ghost function NewRows(t: Table, after: Table, job: int): set<nat> {
    set id | id in after.rows && id !in t.rows && after.rows[id].jobId == job
  }

  /** One tick opens at most one row per candidate minute of a job, however long the outage was. */
  lemma TickOpensFew(falls: Falls, t: Table, jobs: seq<ScheduledJob>, schedules: map<int, seq<string>>, minute: int,
                     lastRun: Option<int>, missScanMin: int, fails: set<nat>, job: ScheduledJob)
    requires WellFormed(t) && OneRowPerMinute(t)
    requires forall other :: other in jobs && other.id == job.id ==> other == job
    ensures var past := Missed(minute, lastRun, missScanMin);
            var after := QueueAll(t, Attempts(falls, jobs, schedules, minute, past), fails);
            |NewRows(t, after, job.id)| <= 1 + Later(0, Reach(job, missScanMin))
  {
    var past := Missed(minute, lastRun, missScanMin);
    var attempts := Attempts(falls, jobs, schedules, minute, past);
    var after := QueueAll(t, attempts, fails);
    QueueAllOpens(t, attempts, fails, 0, 0);
    var minutes := NewMinutes(t, after, job.id);
    forall m | m in minutes ensures m in Candidates(job, minute, past) {
      QueueAllOpens(t, attempts, fails, job.id, m);
      AttemptsIff(falls, jobs, schedules, minute, past, job.id, m);
    }
    CandidatesFew(job, minute, lastRun, missScanMin, minutes);
    var plannedOf := (id: nat) =>
      if id in after.rows && after.rows[id].planned.Some? then after.rows[id].planned.value else 0;
    InjectionSize(NewRows(t, after, job.id), plannedOf, minutes);
  }

  // --- the minute audit ---

  datatype Audit = Audit(gap: int, repeated: bool)

  function AuditOf(last: Option<int>, minute: int): Audit {
    if last.Some? && minute == last.value then Audit(0, true)
    else if last.Some? && minute > last.value then Audit(minute - last.value - 1, false)
    else Audit(0, false)
  }

  function LastOf(minutes: seq<int>): Option<int> {
    if minutes == [] then None else Some(minutes[|minutes| - 1])
  }

  function GapSum(minutes: seq<int>): int {
    if minutes == [] then 0
    else
      var before := minutes[..|minutes| - 1];
      GapSum(before) + AuditOf(LastOf(before), minutes[|minutes| - 1]).gap
  }

  function Repeats(minutes: seq<int>): nat {
    if minutes == [] then 0
    else
      var before := minutes[..|minutes| - 1];
      Repeats(before) + if AuditOf(LastOf(before), minutes[|minutes| - 1]).repeated then 1 else 0
  }

  function Distinct(minutes: seq<int>): set<int> {
    set i | 0 <= i < |minutes| :: minutes[i]
  }

  ghost predicate Nondecreasing(minutes: seq<int>) {
    forall i, j :: 0 <= i < j < |minutes| ==> minutes[i] <= minutes[j]
  }

  lemma DistinctGrows(minutes: seq<int>)
    requires |minutes| > 1 && Nondecreasing(minutes)
    ensures var before, last := minutes[..|minutes| - 1], minutes[|minutes| - 1];
            |Distinct(minutes)| == |Distinct(before)| + if last == before[|before| - 1] then 0 else 1
  {
    var before, last := minutes[..|minutes| - 1], minutes[|minutes| - 1];
    assert Distinct(minutes) == Distinct(before) + {last};
    if last == before[|before| - 1] {
      assert before[|before| - 1] in Distinct(before);
      assert Distinct(minutes) == Distinct(before);
    } else {
      assert last !in Distinct(before);
    }
  }

  /** Gaps are the minutes of the span that no tick processed; repeats are the ticks beyond one per minute. */
  lemma {:induction false} MinuteConservation(minutes: seq<int>)
    requires minutes != [] && Nondecreasing(minutes)
    ensures GapSum(minutes) == minutes[|minutes| - 1] - minutes[0] + 1 - |Distinct(minutes)|
    ensures Repeats(minutes) == |minutes| - |Distinct(minutes)|
  {
    var before, last := minutes[..|minutes| - 1], minutes[|minutes| - 1];
    if before == [] {
      assert Distinct(minutes) == {last};
    } else {
      MinuteConservation(before);
      DistinctGrows(minutes);
      assert before[0] == minutes[0];
      assert minutes[|minutes| - 2] <= minutes[|minutes| - 1];
    }
  }

  // --- handing over ---

  /** What the pending listing joins from the jobs table. */
  datatype PendingJob = PendingJob(priority: int, singleRun: bool)

  predicate Eligible(t: Table, jobs: map<int, PendingJob>, now: int, id: nat) {
    && IsPending(t, id) && t.rows[id].jobId in jobs
    && (t.rows[id].runAfter.None? || t.rows[id].runAfter.value <= now)
  }

  /** By priority, then by id. */
  predicate Before(t: Table, jobs: map<int, PendingJob>, a: nat, b: nat)
    requires a in t.rows && b in t.rows && t.rows[a].jobId in jobs && t.rows[b].jobId in jobs
  {
    var p, q := jobs[t.rows[a].jobId].priority, jobs[t.rows[b].jobId].priority;
    p < q || (p == q && a < b)
  }

  /** One row of the pending listing. */
  datatype PendingRun = PendingRun(id: nat, jobId: int, singleRun: bool)

  function ReadPending(t: Table, jobs: map<int, PendingJob>, id: nat): PendingRun
    requires id in t.rows && t.rows[id].jobId in jobs
  {
    PendingRun(id, t.rows[id].jobId, jobs[t.rows[id].jobId].singleRun)
  }

  /** The listing has the row. */
  predicate Names(listed: seq<PendingRun>, id: nat) {
    exists i :: 0 <= i < |listed| && listed[i].id == id
  }

  /** The first limit eligible rows in order, or all of them if fewer. */
  ghost predicate IsListing(t: Table, jobs: map<int, PendingJob>, now: int, limit: int, listed: seq<PendingRun>) {
    && |listed| <= limit
    && (forall i :: 0 <= i < |listed| ==>
          Eligible(t, jobs, now, listed[i].id) && listed[i] == ReadPending(t, jobs, listed[i].id))
    && (forall i, j :: 0 <= i < j < |listed| ==> Before(t, jobs, listed[i].id, listed[j].id))
    && (forall id :: Eligible(t, jobs, now, id) && !Names(listed, id) ==>
          |listed| == limit && forall i :: 0 <= i < |listed| ==> Before(t, jobs, listed[i].id, id))
  }

  datatype Handover = Dispatched | SkippedBusy | WriteError

  predicate Blocked(row: PendingRun, busy: set<int>) {
    row.singleRun && row.jobId in busy
  }

  /** What becomes of a row; fails has the rows whose skip statement fails. */
  function Decide(row: PendingRun, busy: set<int>, fails: set<nat>): Handover {
    if !Blocked(row, busy) then Dispatched else if row.id in fails then WriteError else SkippedBusy
  }

  /** The jobs running at the snapshot, and those of the rows already dispatched. */
  function Busy(running: set<int>, listed: seq<PendingRun>): set<int> {
    if listed == [] then running
    else
      var last, busy := listed[|listed| - 1], Busy(running, listed[..|listed| - 1]);
      if Blocked(last, busy) then busy else busy + {last.jobId}
  }

  function HandoverAt(running: set<int>, listed: seq<PendingRun>, fails: set<nat>, i: nat): Handover
    requires i < |listed|
  {
    Decide(listed[i], Busy(running, listed[..i]), fails)
  }

  lemma {:induction false} BusyIff(running: set<int>, listed: seq<PendingRun>, fails: set<nat>, job: int)
    ensures job in Busy(running, listed)
            <==> job in running
                 || exists i :: 0 <= i < |listed| && listed[i].jobId == job
                                && HandoverAt(running, listed, fails, i) == Dispatched
  {
    if listed != [] {
      var n := |listed| - 1;
      BusyIff(running, listed[..n], fails, job);
      forall i | 0 <= i < n
        ensures HandoverAt(running, listed[..n], fails, i) == HandoverAt(running, listed, fails, i)
      {
        assert listed[..n][..i] == listed[..i];
      }
      assert HandoverAt(running, listed, fails, n) == Dispatched <==> !Blocked(listed[n], Busy(running, listed[..n]));
    }
  }

  /** A single_run job is handed over at most once in a tick, and not while it was running at the snapshot. */
  lemma SingleRunOnce(running: set<int>, listed: seq<PendingRun>, fails: set<nat>, i: nat)
    requires i < |listed| && listed[i].singleRun
    ensures HandoverAt(running, listed, fails, i) == Dispatched
            <==> && listed[i].jobId !in running
                 && forall k :: 0 <= k < i && listed[k].jobId == listed[i].jobId
                                ==> HandoverAt(running, listed, fails, k) != Dispatched
  {
    var before := listed[..i];
    BusyIff(running, before, fails, listed[i].jobId);
    forall k | 0 <= k < i ensures HandoverAt(running, before, fails, k) == HandoverAt(running, listed, fails, k) {
      assert before[..k] == listed[..k];
    }
  }

  /** The rows handed to the runner, in order. */
  function DispatchedOf(listed: seq<PendingRun>, handed: seq<Handover>): seq<nat>
    requires |listed| == |handed|
  {
    if listed == [] then []
    else
      var last := |listed| - 1;
      DispatchedOf(listed[..last], handed[..last]) + if handed[last] == Dispatched then [listed[last].id] else []
  }

  /** The rows of the listing that were skipped are closed; every other row is as it was. */
  ghost predicate OnlySkips(t: Table, after: Table, listed: seq<PendingRun>, handed: seq<Handover>) {
    && after.next == t.next && after.rows.Keys == t.rows.Keys && |handed| == |listed|
    && (forall id :: id in t.rows && !Names(listed, id) ==> after.rows[id] == t.rows[id])
    && (forall i :: 0 <= i < |listed| ==>
          listed[i].id in t.rows
          && after.rows[listed[i].id] == if handed[i] == SkippedBusy then t.rows[listed[i].id].(status := Skipped)
                                         else t.rows[listed[i].id])
  }

  const MAX_PAGE: int := 500

  /** The listing's limit for a quota. */
  function Limit(quota: int): int {
    if quota < 1 then 1 else if quota > MAX_PAGE then MAX_PAGE else quota
  }

  function RunningRows(t: Table): set<nat> {
    set id | id in t.rows && t.rows[id].status == Running
  }

  function RunningJobs(t: Table): set<int> {
    set id | id in t.rows && t.rows[id].status == Running :: t.rows[id].jobId
  }
}
