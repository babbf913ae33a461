/**
What one tick does, in seconds and rows: which minutes get rows, which pending
rows it lists and in what order, and what becomes of each.
*/
module TickLaws {
  import opened Common
  import opened ExecRepo
  import opened Dispatch
  import opened Tick
  import CronExpr

  /** Some expression of the job is well formed and falls on the minute. */
  ghost predicate FallsDue(schedules: map<int, seq<string>>, job: int, m: int) {
    job in schedules && exists text :: text in schedules[job] && CronExpr.Parse(text).Ok?
                                       && CronExpr.Matches(CronExpr.Parse(text).value, m)
  }

  /**
  The minute the tick is in; and for a job that catches up the whole minutes after
  the pulse and before that one, as far back as both limits allow.
  */
  ghost predicate InReach(job: ScheduledJob, missScanMin: int, pulse: Option<int>, now: int, m: int) {
    || 60 * m <= now < 60 * (m + 1)
    || (job.runMissed && pulse.Some? && pulse.value < 60 * m && 60 * (m + 1) <= now
        && now < 60 * (m + job.maxDelayMin + 1) && now < 60 * (m + missScanMin + 1))
  }

  lemma ReachInSeconds(job: ScheduledJob, missScanMin: int, pulse: Option<int>, now: int, m: int)
    ensures m in Candidates(job, MinuteOf(now), Missed(MinuteOf(now), MinuteOfPulse(pulse), missScanMin))
            <==> InReach(job, missScanMin, pulse, now, m)
  {
    CandidateIff(job, MinuteOf(now), MinuteOfPulse(pulse), missScanMin, m);
  }

  lemma FallsIff(schedules: map<int, seq<string>>, j: int, m: int)
    ensures (exists text :: text in TextsOf(schedules, j) && FallsOn(text, m)) <==> FallsDue(schedules, j, m)
  {
    forall text
      ensures FallsOn(text, m) <==> CronExpr.Parse(text).Ok? && CronExpr.Matches(CronExpr.Parse(text).value, m) {}
  }

  lemma DueIff(falls: Falls, listings: Listings, missScanMin: int, pulse: Option<int>, now: int, j: int, m: int)
    ensures Due(falls, listings.jobs, listings.schedules, MinuteOf(now),
                Missed(MinuteOf(now), MinuteOfPulse(pulse), missScanMin), j, m)
            <==> (exists text :: text in TextsOf(listings.schedules, j) && falls(text, m))
                 && exists job :: job in listings.jobs && job.id == j && InReach(job, missScanMin, pulse, now, m)
  {
    var past := Missed(MinuteOf(now), MinuteOfPulse(pulse), missScanMin);
    forall job: ScheduledJob
      ensures m in Candidates(job, MinuteOf(now), past) <==> InReach(job, missScanMin, pulse, now, m)
    {
      ReachInSeconds(job, missScanMin, pulse, now, m);
    }
  }

  /** What a tick at a second tries to open, given the pulse it read, in seconds. */
  lemma WantedIff(d: Dispatcher, pulse: Option<int>, now: int, listings: Listings, j: int, m: int)
    ensures (j, m) in d.Wanted(pulse, now, listings)
            <==> FallsDue(listings.schedules, j, m)
                 && exists job :: job in listings.jobs && job.id == j && InReach(job, d.missScanMin, pulse, now, m)
  {
    AttemptsIff(FallsOn, listings.jobs, listings.schedules, MinuteOf(now),
                Missed(MinuteOf(now), MinuteOfPulse(pulse), d.missScanMin), j, m);
    DueIff(FallsOn, listings, d.missScanMin, pulse, now, j, m);
    FallsIff(listings.schedules, j, m);
  }

  ghost predicate HasMinute(t: Table, j: int, m: int) {
    exists id :: id in t.rows && t.rows[id].jobId == j && t.rows[id].planned == Some(m)
  }

  /**
  After a tick that gets as far as opening rows a minute of a job has a row exactly
  if it had one, or one of the statements for it did not fail; if none fails, if
  the job is listed, due on the minute, and the minute is in reach.
  */
  lemma OpenedIff(d: Dispatcher, t: Table, pulse: Option<int>, now: int, listings: Listings, faults: Faults,
                  after: Table, ok: bool, r: Result, j: int, m: int)
    requires WellFormed(t) && OneRowPerMinute(t) && !d.dryRun && d.Opens(faults, listings)
    requires d.Leaves(t, pulse, now, listings, faults, after, ok, r)
    ensures var wanted := d.Wanted(pulse, now, listings);
            HasMinute(after, j, m)
            <==> HasMinute(t, j, m)
                 || exists i :: 0 <= i < |wanted| && wanted[i] == (j, m) && i !in faults.queue
    ensures faults.queue == {} ==>
              (HasMinute(after, j, m)
               <==> HasMinute(t, j, m)
                    || (FallsDue(listings.schedules, j, m)
                        && exists job :: job in listings.jobs && job.id == j
                                         && InReach(job, d.missScanMin, pulse, now, m)))
  {
    var wanted := d.Wanted(pulse, now, listings);
    WantedIff(d, pulse, now, listings, j, m);
    QueueAllOpens(t, wanted, faults.queue, j, m);
    if faults.queue == {} { SucceedsIff(wanted, j, m); }
    var filled := QueueAll(t, wanted, faults.queue);
    if ok { HandingKeepsMinutes(filled, after, r.listed, r.handed, j, m); }
  }

  lemma SucceedsIff(attempts: seq<(int, int)>, j: int, m: int)
    ensures Succeeds(attempts, {}, j, m) <==> (j, m) in attempts
  {
    if (j, m) in attempts {
      var i :| 0 <= i < |attempts| && attempts[i] == (j, m);
    }
  }

  lemma HandingKeepsMinutes(t: Table, after: Table, listed: seq<PendingRun>, handed: seq<Handover>, j: int, m: int)
    requires OnlySkips(t, after, listed, handed)
    ensures HasMinute(after, j, m) <==> HasMinute(t, j, m)
  {
    forall id | id in t.rows
      ensures after.rows[id].jobId == t.rows[id].jobId && after.rows[id].planned == t.rows[id].planned
    {
      if i :| 0 <= i < |listed| && listed[i].id == id {
        assert listed[i].id in t.rows;
      }
    }
    assert forall id :: id in after.rows <==> id in t.rows;
  }

  // --- the listing ---

  /** A pending row that is due now, of a job that is listed. */
  ghost predicate IsDue(t: Table, jobs: map<int, PendingJob>, now: int, id: nat) {
    && id in t.rows && t.rows[id].status == Pending && t.rows[id].jobId in jobs
    && (t.rows[id].runAfter.Some? ==> t.rows[id].runAfter.value <= now)
  }

  /** The smaller priority goes first, then the older row. */
  ghost predicate GoesFirst(t: Table, jobs: map<int, PendingJob>, a: nat, b: nat) {
    && a in t.rows && b in t.rows && t.rows[a].jobId in jobs && t.rows[b].jobId in jobs
    && (jobs[t.rows[a].jobId].priority < jobs[t.rows[b].jobId].priority
        || (jobs[t.rows[a].jobId].priority == jobs[t.rows[b].jobId].priority && a < b))
  }

  ghost predicate IsListed(listed: seq<PendingRun>, id: nat) {
    exists i :: 0 <= i < |listed| && listed[i].id == id
  }

  /**
  The rows a tick deals with: due ones only, each once and in their order, no more
  than the quota or 500, and none left out that goes before a listed one or for
  which there is room.
  */
  lemma ListedRows(t: Table, after: Table, jobs: map<int, PendingJob>, now: int, quota: int, skip: set<nat>, r: Result)
    requires Handed(t, after, jobs, now, quota, skip, r)
    ensures |r.listed| <= 500 && (|r.listed| == 0 || |r.listed| <= quota)
    ensures forall i :: 0 <= i < |r.listed| ==>
              && IsDue(t, jobs, now, r.listed[i].id) && r.listed[i].jobId == t.rows[r.listed[i].id].jobId
              && r.listed[i].singleRun == jobs[r.listed[i].jobId].singleRun
    ensures forall i, j :: 0 <= i < j < |r.listed| ==> GoesFirst(t, jobs, r.listed[i].id, r.listed[j].id)
    ensures forall id :: IsDue(t, jobs, now, id) && !IsListed(r.listed, id) ==>
              && (|r.listed| == 500 || |r.listed| >= quota)
              && forall i :: 0 <= i < |r.listed| ==> GoesFirst(t, jobs, r.listed[i].id, id)
  {
    forall id ensures IsDue(t, jobs, now, id) <==> Eligible(t, jobs, now, id) {}
    forall id ensures IsListed(r.listed, id) <==> Names(r.listed, id) {}
    forall i | 0 <= i < |r.listed| ensures IsDue(t, jobs, now, r.listed[i].id) {
      assert Eligible(t, jobs, now, r.listed[i].id);
    }
  }

  /** The row's job had a running row, or an earlier row of it was dispatched in this tick. */
  ghost predicate JobIsBusy(t: Table, r: Result, i: nat)
    requires i < |r.listed| == |r.handed|
  {
    || (exists id :: id in t.rows && t.rows[id].status == Running && t.rows[id].jobId == r.listed[i].jobId)
    || (exists k :: 0 <= k < i && r.listed[k].jobId == r.listed[i].jobId && r.handed[k] == Dispatched)
  }

  /**
  What becomes of each listed row: a single_run row of a busy job is skipped, or
  stays as it is where its statement fails; every other row is dispatched and
  stays pending.
  */
  lemma Fates(t: Table, after: Table, jobs: map<int, PendingJob>, now: int, quota: int, skip: set<nat>, r: Result,
              i: nat)
    requires Handed(t, after, jobs, now, quota, skip, r) && i < |r.listed|
    ensures |r.handed| == |r.listed|
    ensures var row, busy := r.listed[i], r.listed[i].singleRun && JobIsBusy(t, r, i);
            && (r.handed[i] == Dispatched <==> !busy)
            && (r.handed[i] == SkippedBusy <==> busy && row.id !in skip)
            && (r.handed[i] == WriteError <==> busy && row.id in skip)
            && row.id in t.rows && row.id in after.rows
            && after.rows[row.id].status == if busy && row.id !in skip then Skipped else t.rows[row.id].status
  {
    BusyIsBusy(t, after, jobs, now, quota, skip, r, i);
    assert r.handed[i] == HandoverAt(RunningJobs(t), r.listed, skip, i);
  }

  lemma BusyIsBusy(t: Table, after: Table, jobs: map<int, PendingJob>, now: int, quota: int, skip: set<nat>, r: Result,
                   i: nat)
    requires Handed(t, after, jobs, now, quota, skip, r) && i < |r.listed|
    ensures |r.handed| == |r.listed|
    ensures r.listed[i].jobId in Busy(RunningJobs(t), r.listed[..i]) <==> JobIsBusy(t, r, i)
  {
    var running, before, job := RunningJobs(t), r.listed[..i], r.listed[i].jobId;
    BusyIff(running, before, skip, job);
    EarlierFates(running, r, skip, i);
    RunningJobIff(t, job);
  }

  lemma RunningJobIff(t: Table, job: int)
    ensures job in RunningJobs(t)
            <==> exists id :: id in t.rows && t.rows[id].status == Running && t.rows[id].jobId == job
  {
  }

  lemma EarlierFates(running: set<int>, r: Result, skip: set<nat>, i: nat)
    requires i < |r.listed| == |r.handed|
    requires forall k :: 0 <= k < |r.listed| ==> r.handed[k] == HandoverAt(running, r.listed, skip, k)
    ensures forall k :: 0 <= k < i ==> HandoverAt(running, r.listed[..i], skip, k) == r.handed[k]
  {
    forall k | 0 <= k < i ensures HandoverAt(running, r.listed[..i], skip, k) == r.handed[k] {
      assert r.listed[..i][..k] == r.listed[..k];
    }
  }

  /** The rows handed to the runner are the dispatched ones, in order. */
  lemma {:induction false} DispatchedAre(listed: seq<PendingRun>, handed: seq<Handover>, id: nat)
    requires |listed| == |handed|
    ensures id in DispatchedOf(listed, handed)
            <==> exists i :: 0 <= i < |listed| && handed[i] == Dispatched && listed[i].id == id
  {
    if listed != [] {
      var n := |listed| - 1;
      DispatchedAre(listed[..n], handed[..n], id);
      assert forall i :: 0 <= i < n ==> listed[..n][i] == listed[i] && handed[..n][i] == handed[i];
    }
  }

  /** No tick takes more than the running rows leave of the limit. */
  lemma WithinLimit(t: Table, after: Table, jobs: map<int, PendingJob>, now: int, maxConcurrent: int, skip: set<nat>,
                    r: Result)
    requires Handed(t, after, jobs, now, Quota(t, maxConcurrent), skip, r)
    ensures var running := set id | id in t.rows && t.rows[id].status == Running;
            && (r.quotaFull <==> |running| >= maxConcurrent)
            && (|running| >= maxConcurrent ==> r.listed == [])
            && (r.listed == [] || |running| + |r.listed| <= maxConcurrent)
  {
    var running := set id | id in t.rows && t.rows[id].status == Running;
    assert running == RunningRows(t);
    ListedRows(t, after, jobs, now, Quota(t, maxConcurrent), skip, r);
  }
}
