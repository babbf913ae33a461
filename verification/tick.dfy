/** The dispatcher: one tick over the repository, its statements in order. */
module Tick {
  import opened Common
  import opened CronExpr
  import opened ExecRepo
  import opened Dispatch

  /** The expression parses and falls on the minute. */
  predicate FallsOn(text: string, t: int) {
    Parse(text).Ok? && Matches(Parse(text).value, t)
  }

  /**
  The statements of one tick that fail: one flag a statement; queue has the
  positions of the inserts, skip the rows whose skip statement does.
  */
  datatype Faults = Faults(
    clock: bool, readPulse: bool, writePulse: bool, listJobs: bool, listSchedules: bool,
    countRunning: bool, runningJobs: bool, listPending: bool,
    queue: set<nat>, skip: set<nat>)

  /** handed says what became of each listed row, in order. */
  datatype Result = Result(
    skipped: bool, minute: int, audit: Audit, missed: nat,
    candidates: seq<(int, int)>, queued: nat, quotaFull: bool,
    listed: seq<PendingRun>, handed: seq<Handover>, dispatched: seq<nat>)

  const NOTHING := Result(false, 0, Audit(0, false), 0, [], 0, false, [], [], [])

  /** What a tick reads besides job_runs. */
  datatype Listings = Listings(jobs: seq<ScheduledJob>, schedules: map<int, seq<string>>, pending: map<int, PendingJob>)

  /** What trying these rows comes to: a dry run writes none, otherwise each is queued unless its statement fails. */
  ghost predicate Effect(dryRun: bool, t: Table, after: Table, attempts: seq<(int, int)>, written: nat,
                         fails: set<nat>)
  {
    if dryRun then written == |attempts| && after == t
    else written == Written(attempts, fails) && after == QueueAll(t, attempts, fails)
  }

  lemma EffectOneMore(dryRun: bool, t: Table, after: Table, attempts: seq<(int, int)>, written: nat, fails: set<nat>,
                      attempt: (int, int))
    requires Effect(dryRun, t, after, attempts, written, fails)
    ensures if dryRun then Effect(true, t, after, attempts + [attempt], written + 1, fails)
            else if |attempts| in fails then Effect(false, t, after, attempts + [attempt], written, fails)
            else Effect(false, t, QueueRun(after, attempt.0, attempt.1), attempts + [attempt], written + 1, fails)
  {
    assert (attempts + [attempt])[..|attempts|] == attempts;
  }

  /** One candidate minute of a parsed expression. t is the table the tick found; tried and wrote are so far. */
  method QueueMinute(repo: Repository, ghost t: Table, tried: seq<(int, int)>, wrote: nat, job: int,
                     parsed: CronExpr.Result<Expr>, minute: int, dryRun: bool, fails: set<nat>)
    returns (attempts: seq<(int, int)>, written: nat)
    requires parsed.Ok? ==> FiveFields(parsed.value)
    requires Effect(dryRun, t, repo.View(), tried, wrote, fails)
    modifies repo`rows, repo`nextId
    ensures attempts == tried + if parsed.Ok? && Matches(parsed.value, minute) then [(job, minute)] else []
    ensures Effect(dryRun, t, repo.View(), attempts, written, fails)
  {
    attempts, written := tried, wrote;
    if parsed.Err? || !Matches(parsed.value, minute) { return; }
    EffectOneMore(dryRun, t, repo.View(), tried, wrote, fails, (job, minute));
    attempts := tried + [(job, minute)];
    if dryRun {
      written := wrote + 1;
    } else if |tried| !in fails {
      repo.DoQueueRun(job, minute);
      written := wrote + 1;
    }
  }

  lemma OneMoreMinute(tried: seq<(int, int)>, job: int, text: string, minutes: seq<int>, i: nat)
    requires i < |minutes|
    ensures tried + OfExpression(FallsOn, job, text, minutes[..i])
            + (if FallsOn(text, minutes[i]) then [(job, minutes[i])] else [])
            == tried + OfExpression(FallsOn, job, text, minutes[..i + 1])
  {
    assert minutes[..i + 1][..i] == minutes[..i];
  }

  /** The rows of one expression. */
  method QueueExpression(repo: Repository, ghost t: Table, tried: seq<(int, int)>, wrote: nat, job: int, text: string,
                         minutes: seq<int>, dryRun: bool, fails: set<nat>)
    returns (attempts: seq<(int, int)>, written: nat)
    requires Effect(dryRun, t, repo.View(), tried, wrote, fails)
    modifies repo`rows, repo`nextId
    ensures attempts == tried + OfExpression(FallsOn, job, text, minutes)
    ensures Effect(dryRun, t, repo.View(), attempts, written, fails)
  {
    attempts, written := tried, wrote;
    var parsed := ParseText(text);
    for i := 0 to |minutes|
      invariant attempts == tried + OfExpression(FallsOn, job, text, minutes[..i])
      invariant Effect(dryRun, t, repo.View(), attempts, written, fails)
    {
      OneMoreMinute(tried, job, text, minutes, i);
      attempts, written := QueueMinute(repo, t, attempts, written, job, parsed, minutes[i], dryRun, fails);
    }
    assert minutes[..|minutes|] == minutes;
  }

  lemma OneMoreText(tried: seq<(int, int)>, job: int, texts: seq<string>, minutes: seq<int>, i: nat)
    requires i < |texts|
    ensures tried + OfJob(FallsOn, job, texts[..i], minutes) + OfExpression(FallsOn, job, texts[i], minutes)
            == tried + OfJob(FallsOn, job, texts[..i + 1], minutes)
  {
    assert texts[..i + 1][..i] == texts[..i];
  }

  method QueueJob(repo: Repository, ghost t: Table, tried: seq<(int, int)>, wrote: nat, job: int, texts: seq<string>,
                  minutes: seq<int>, dryRun: bool, fails: set<nat>)
    returns (attempts: seq<(int, int)>, written: nat)
    requires Effect(dryRun, t, repo.View(), tried, wrote, fails)
    modifies repo`rows, repo`nextId
    ensures attempts == tried + OfJob(FallsOn, job, texts, minutes)
    ensures Effect(dryRun, t, repo.View(), attempts, written, fails)
  {
    attempts, written := tried, wrote;
    for i := 0 to |texts|
      invariant attempts == tried + OfJob(FallsOn, job, texts[..i], minutes)
      invariant Effect(dryRun, t, repo.View(), attempts, written, fails)
    {
      OneMoreText(tried, job, texts, minutes, i);
      attempts, written := QueueExpression(repo, t, attempts, written, job, texts[i], minutes, dryRun, fails);
    }
    assert texts[..|texts|] == texts;
  }

  lemma OneMoreJob(jobs: seq<ScheduledJob>, schedules: map<int, seq<string>>, minute: int, past: seq<int>, i: nat)
    requires i < |jobs|
    ensures Attempts(FallsOn, jobs[..i], schedules, minute, past)
            + OfJob(FallsOn, jobs[i].id, TextsOf(schedules, jobs[i].id), Candidates(jobs[i], minute, past))
            == Attempts(FallsOn, jobs[..i + 1], schedules, minute, past)
  {
    assert jobs[..i + 1][..i] == jobs[..i];
  }

  /** Opens pending rows for the jobs that are due; a dry run only lists them. */
  method QueueDue(repo: Repository, jobs: seq<ScheduledJob>, schedules: map<int, seq<string>>, minute: int,
                  past: seq<int>, dryRun: bool, fails: set<nat>)
    returns (attempts: seq<(int, int)>, written: nat)
    modifies repo`rows, repo`nextId
    ensures attempts == Attempts(FallsOn, jobs, schedules, minute, past)
    ensures Effect(dryRun, old(repo.View()), repo.View(), attempts, written, fails)
  {
    attempts, written := [], 0;
    for i := 0 to |jobs|
      invariant attempts == Attempts(FallsOn, jobs[..i], schedules, minute, past)
      invariant Effect(dryRun, old(repo.View()), repo.View(), attempts, written, fails)
    {
      OneMoreJob(jobs, schedules, minute, past, i);
      var texts := if jobs[i].id in schedules then schedules[jobs[i].id] else [];
      if |texts| == 0 { continue; }
      var minutes := CandidateMinutes(jobs[i], minute, past);
      attempts, written :=
        QueueJob(repo, old(repo.View()), attempts, written, jobs[i].id, texts, minutes, dryRun, fails);
    }
    assert jobs[..|jobs|] == jobs;
  }

  /** The first of a set of eligible rows. */
  lemma {:induction false} FirstExists(t: Table, jobs: map<int, PendingJob>, rest: set<nat>) returns (id: nat)
    requires rest != {} && forall x :: x in rest ==> x in t.rows && t.rows[x].jobId in jobs
    ensures id in rest && forall x :: x in rest && x != id ==> Before(t, jobs, id, x)
    decreases rest
  {
    var some := Pick(rest);
    id := some;
    if rest - {some} != {} {
      var least := FirstExists(t, jobs, rest - {some});
      id := if Before(t, jobs, least, some) then least else some;
      assert forall x :: x in rest ==> x == some || x in rest - {some};
    } else {
      assert forall x :: x in rest ==> x == some || x in rest - {some};
    }
  }

  /** The rows listed so far come before all that remain. */
  ghost predicate ListedSoFar(t: Table, jobs: map<int, PendingJob>, now: int, listed: seq<PendingRun>, rest: set<nat>) {
    && (forall id :: id in rest ==> Eligible(t, jobs, now, id))
    && (forall i :: 0 <= i < |listed| ==>
          Eligible(t, jobs, now, listed[i].id) && listed[i] == ReadPending(t, jobs, listed[i].id))
    && (forall id :: Eligible(t, jobs, now, id) ==> id in rest || Names(listed, id))
    && (forall i, j :: 0 <= i < j < |listed| ==> Before(t, jobs, listed[i].id, listed[j].id))
    && (forall i, id :: 0 <= i < |listed| && id in rest ==> Before(t, jobs, listed[i].id, id))
  }

  lemma ListOneMore(t: Table, jobs: map<int, PendingJob>, now: int, listed: seq<PendingRun>, rest: set<nat>, id: nat)
    requires ListedSoFar(t, jobs, now, listed, rest) && id in rest
    requires forall x :: x in rest && x != id ==> x in t.rows && t.rows[x].jobId in jobs && Before(t, jobs, id, x)
    ensures Eligible(t, jobs, now, id)
    ensures ListedSoFar(t, jobs, now, listed + [ReadPending(t, jobs, id)], rest - {id})
  {
    NamesOneMore(listed, ReadPending(t, jobs, id));
  }

  method ListPending(repo: Repository, jobs: map<int, PendingJob>, now: int,
                     quota: int) returns (listed: seq<PendingRun>)
    ensures IsListing(repo.View(), jobs, now, Limit(quota), listed)
  {
    listed := [];
    ghost var t := repo.View();
    var rest := set id | id in repo.rows && repo.rows[id].status == Pending && repo.rows[id].jobId in jobs
                         && (repo.rows[id].runAfter.None? || repo.rows[id].runAfter.value <= now);
    var limit := if quota < 1 then 1 else if quota > MAX_PAGE then MAX_PAGE else quota;
    while rest != {} && |listed| < limit
      invariant |listed| <= limit && ListedSoFar(t, jobs, now, listed, rest)
      decreases rest
    {
      ghost var first := FirstExists(t, jobs, rest);
      var id :| id in rest && forall x :: x in rest && x != id ==>
                  Before(Table(repo.rows, repo.nextId), jobs, id, x);
      ListOneMore(t, jobs, now, listed, rest, id);
      listed := listed + [PendingRun(id, repo.rows[id].jobId, jobs[repo.rows[id].jobId].singleRun)];
      rest := rest - {id};
    }
  }

  lemma NamesOneMore(listed: seq<PendingRun>, row: PendingRun)
    ensures forall id :: Names(listed + [row], id) <==> Names(listed, id) || id == row.id
  {
    forall id ensures Names(listed + [row], id) <==> Names(listed, id) || id == row.id {
      if i :| 0 <= i < |listed| && listed[i].id == id {
        assert (listed + [row])[i].id == id;
      }
      assert (listed + [row])[|listed|] == row;
    }
  }

  /** One more row of the listing dealt with. */
  lemma OneMoreHandled(t: Table, before: Table, after: Table, listed: seq<PendingRun>, handed: seq<Handover>,
                       row: PendingRun, h: Handover)
    requires row.id in t.rows && !Names(listed, row.id) && t.rows[row.id].status == Pending
    requires OnlySkips(t, before, listed, handed)
    requires after == if h == SkippedBusy then SkipRun(before, row.id) else before
    ensures OnlySkips(t, after, listed + [row], handed + [h])
  {
    assert before.rows[row.id] == t.rows[row.id];
    NamesOneMore(listed, row);
  }

  /** The skip statement of one row that is not dispatched. */
  method HandOne(repo: Repository, row: PendingRun, busy: set<int>, skip: set<nat>) returns (h: Handover)
    modifies repo`rows, repo`nextId
    ensures h == Decide(row, busy, skip)
    ensures repo.View() == if h == SkippedBusy then SkipRun(old(repo.View()), row.id) else old(repo.View())
  {
    if row.singleRun && row.jobId in busy {
      if row.id in skip { return WriteError; }
      repo.DoSkipRun(row.id);
      return SkippedBusy;
    }
    h := Dispatched;
  }

  /** What has become of the rows dealt with so far. */
  ghost predicate HandedAll(t: Table, now: Table, running: set<int>, listed: seq<PendingRun>, skip: set<nat>,
                              handed: seq<Handover>, dispatched: seq<nat>)
  {
    && |handed| == |listed| && dispatched == DispatchedOf(listed, handed)
    && (forall i :: 0 <= i < |listed| ==> handed[i] == HandoverAt(running, listed, skip, i))
    && OnlySkips(t, now, listed, handed)
  }

  lemma HandedOneMore(t: Table, before: Table, after: Table, running: set<int>, listed: seq<PendingRun>, skip: set<nat>,
                      handed: seq<Handover>, dispatched: seq<nat>, row: PendingRun, h: Handover)
    requires HandedAll(t, before, running, listed, skip, handed, dispatched)
    requires row.id in t.rows && !Names(listed, row.id) && t.rows[row.id].status == Pending
    requires h == Decide(row, Busy(running, listed), skip)
    requires after == if h == SkippedBusy then SkipRun(before, row.id) else before
    ensures HandedAll(t, after, running, listed + [row], skip, handed + [h],
                        if h == Dispatched then dispatched + [row.id] else dispatched)
    ensures Busy(running, listed + [row])
            == if h == Dispatched then Busy(running, listed) + {row.jobId} else Busy(running, listed)
  {
    var more, done := listed + [row], handed + [h];
    assert more[..|listed|] == listed && done[..|listed|] == handed;
    OneMoreHandled(t, before, after, listed, handed, row, h);
    forall i | 0 <= i < |more| ensures done[i] == HandoverAt(running, more, skip, i) {
      if i < |listed| {
        assert more[..i] == listed[..i];
        assert handed[i] == HandoverAt(running, listed, skip, i);
      }
    }
  }

  /** The loop over the listed rows. running holds the jobs running at the snapshot. */
  method HandOver(repo: Repository, listed: seq<PendingRun>, running: set<int>, skip: set<nat>)
    returns (handed: seq<Handover>, dispatched: seq<nat>)
    requires forall i :: 0 <= i < |listed| ==> IsPending(repo.View(), listed[i].id)
    requires forall i, j :: 0 <= i < j < |listed| ==> listed[i].id != listed[j].id
    modifies repo`rows, repo`nextId
    ensures HandedAll(old(repo.View()), repo.View(), running, listed, skip, handed, dispatched)
  {
    handed, dispatched := [], [];
    ghost var t := repo.View();
    var busy := running;
    for i := 0 to |listed|
      invariant busy == Busy(running, listed[..i])
      invariant HandedAll(t, repo.View(), running, listed[..i], skip, handed, dispatched)
    {
      var row := listed[i];
      ghost var before := repo.View();
      assert IsPending(t, row.id) && !Names(listed[..i], row.id);
      var h := HandOne(repo, row, busy, skip);
      HandedOneMore(t, before, repo.View(), running, listed[..i], skip, handed, dispatched, row, h);
      assert listed[..i + 1] == listed[..i] + [row];
      handed := handed + [h];
      if h == Dispatched {
        dispatched := dispatched + [row.id];
        busy := busy + {row.jobId};
      }
    }
    assert listed[..|listed|] == listed;
  }

  /** What handing over leaves: at most the quota listed, each row dealt with once, and no other row touched. */
  ghost predicate Handed(t: Table, after: Table, jobs: map<int, PendingJob>, now: int, quota: int, skip: set<nat>,
                         r: Result) {
    && (r.quotaFull <==> quota <= 0)
    && (if quota <= 0 then r.listed == [] else IsListing(t, jobs, now, Limit(quota), r.listed))
    && HandedAll(t, after, RunningJobs(t), r.listed, skip, r.handed, r.dispatched)
  }

  function Quota(t: Table, maxConcurrent: int): int {
    maxConcurrent - |RunningRows(t)|
  }

  function Counted(handed: seq<Handover>, h: Handover): nat {
    if handed == [] then 0 else Counted(handed[..|handed| - 1], h) + if handed[|handed| - 1] == h then 1 else 0
  }

  lemma {:induction false} EachCountedOnce(listed: seq<PendingRun>, handed: seq<Handover>)
    requires |listed| == |handed|
    ensures Counted(handed, Dispatched) + Counted(handed, SkippedBusy) + Counted(handed, WriteError) == |listed|
    ensures |DispatchedOf(listed, handed)| == Counted(handed, Dispatched)
  {
    if listed != [] { EachCountedOnce(listed[..|listed| - 1], handed[..|handed| - 1]); }
  }

  /** No tick touches more rows than the quota leaves, and its counts add up to the rows listed. */
  lemma QuotaKept(t: Table, after: Table, jobs: map<int, PendingJob>, now: int, maxConcurrent: int, skip: set<nat>,
                  r: Result)
    ensures Handed(t, after, jobs, now, Quota(t, maxConcurrent), skip, r) ==>
              && |r.listed| <= Later(0, Quota(t, maxConcurrent))
              && |RunningRows(t)| + |r.dispatched| <= Later(|RunningRows(t)|, maxConcurrent)
              && |r.dispatched| + Counted(r.handed, SkippedBusy) + Counted(r.handed, WriteError) == |r.listed|
  {
    if Handed(t, after, jobs, now, Quota(t, maxConcurrent), skip, r) {
      EachCountedOnce(r.listed, r.handed);
    }
  }

  /** Whether handing over gets past its statements. */
  predicate HandsOver(t: Table, maxConcurrent: int, faults: Faults) {
    !faults.countRunning && (Quota(t, maxConcurrent) <= 0 || !(faults.runningJobs || faults.listPending))
  }

  method ListAndHand(repo: Repository, jobs: map<int, PendingJob>, now: int, quota: int, running: set<int>,
                     skip: set<nat>)
    returns (listed: seq<PendingRun>, handed: seq<Handover>, dispatched: seq<nat>)
    modifies repo`rows, repo`nextId
    ensures IsListing(old(repo.View()), jobs, now, Limit(quota), listed)
    ensures HandedAll(old(repo.View()), repo.View(), running, listed, skip, handed, dispatched)
  {
    listed := ListPending(repo, jobs, now, quota);
    assert forall i :: 0 <= i < |listed| ==> Eligible(repo.View(), jobs, now, listed[i].id);
    handed, dispatched := HandOver(repo, listed, running, skip);
  }

  method CountRunning(repo: Repository) returns (count: nat)
    ensures count == |RunningRows(repo.View())|
  {
    var running := set id | id in repo.rows && repo.rows[id].status == Running;
    assert running == RunningRows(repo.View());
    count := |running|;
  }

  method ReadRunningJobs(repo: Repository) returns (jobs: set<int>)
    ensures jobs == RunningJobs(repo.View())
  {
    jobs := set id | id in repo.rows && repo.rows[id].status == Running :: repo.rows[id].jobId;
  }

  /** Hands rows over within the quota; a busy single_run job's row is skipped. */
  method DispatchPending(repo: Repository, jobs: map<int, PendingJob>, now: int, maxConcurrent: int, faults: Faults,
                         r0: Result)
    returns (ok: bool, r: Result)
    requires r0.listed == [] && r0.handed == [] && r0.dispatched == [] && !r0.quotaFull
    modifies repo`rows, repo`nextId
    ensures ok <==> HandsOver(old(repo.View()), maxConcurrent, faults)
    ensures !ok ==> repo.View() == old(repo.View()) && r == r0
    ensures ok ==>
              Handed(old(repo.View()), repo.View(), jobs, now, Quota(old(repo.View()), maxConcurrent), faults.skip, r)
    ensures r == r0.(quotaFull := r.quotaFull, listed := r.listed, handed := r.handed, dispatched := r.dispatched)
  {
    ok, r := false, r0;
    if faults.countRunning { return; }
    var count := CountRunning(repo);
    var quota := maxConcurrent - count;
    if quota <= 0 { return true, r0.(quotaFull := true); }
    if faults.runningJobs || faults.listPending { return; }
    var busy := ReadRunningJobs(repo);
    var listed, handed, dispatched := ListAndHand(repo, jobs, now, quota, busy, faults.skip);
    ok, r := true, r0.(listed := listed, handed := handed, dispatched := dispatched);
  }

  /** The minute a second falls in. */
  function MinuteOf(seconds: int): (m: int)
    ensures 60 * m <= seconds < 60 * (m + 1)
  {
    seconds / 60
  }

  function MinuteOfPulse(pulse: Option<int>): (m: Option<int>)
    ensures m.Some? <==> pulse.Some?
    ensures m.Some? ==> 60 * m.value <= pulse.value < 60 * (m.value + 1)
  {
    if pulse.None? then None else Some(MinuteOf(pulse.value))
  }

  class Dispatcher {
    const missScanMin: nat
    const maxConcurrent: nat
    const dryRun: bool
    var running: bool
    var lastMinute: Option<int>

    constructor (missScanMin: int, maxConcurrent: int, dryRun: bool)
      ensures !running && lastMinute == None && this.dryRun == dryRun
      ensures this.missScanMin == Later(0, missScanMin) && this.maxConcurrent == Later(1, maxConcurrent)
    {
      this.missScanMin := if missScanMin < 0 then 0 else missScanMin;
      this.maxConcurrent := if maxConcurrent < 1 then 1 else maxConcurrent;
      this.dryRun := dryRun;
      running, lastMinute := false, None;
    }

    /** The chain of minutes, audited against the previous tick. */
    method AuditMinute(minute: int) returns (audit: Audit)
      modifies `lastMinute
      ensures audit == AuditOf(old(lastMinute), minute) && lastMinute == Some(minute)
    {
      audit := Audit(0, false);
      if lastMinute.Some? {
        if minute == lastMinute.value {
          audit := Audit(0, true);
        } else if minute > lastMinute.value {
          audit := Audit(minute - lastMinute.value - 1, false);
        }
      }
      lastMinute := Some(minute);
    }

    /** The rows a tick tries to open. */
    function Wanted(pulse: Option<int>, now: int, listings: Listings): seq<(int, int)> {
      Attempts(FallsOn, listings.jobs, listings.schedules, MinuteOf(now),
               Missed(MinuteOf(now), MinuteOfPulse(pulse), missScanMin))
    }

    /** Whether the tick gets as far as opening rows. */
    predicate Opens(faults: Faults, listings: Listings) {
      && !faults.clock && !faults.readPulse && (dryRun || !faults.writePulse)
      && !faults.listJobs && (listings.jobs == [] || !faults.listSchedules)
    }

    /** What a tick makes of the table t: after, its answer ok, and its result. */
    ghost predicate Leaves(t: Table, pulse: Option<int>, now: int, listings: Listings, faults: Faults,
                           after: Table, ok: bool, r: Result)
    {
      if !Opens(faults, listings) then !ok && after == t
      else if dryRun then
        ok && after == t && r.candidates == Wanted(pulse, now, listings) && r.listed == [] && r.dispatched == []
      else
        var filled := QueueAll(t, Wanted(pulse, now, listings), faults.queue);
        && r.queued == Written(Wanted(pulse, now, listings), faults.queue)
        && (ok <==> HandsOver(filled, maxConcurrent, faults))
        && (if ok then Handed(filled, after, listings.pending, now, Quota(filled, maxConcurrent), faults.skip, r)
            else after == filled)
    }

    /**
    The statements of one tick at a database time in seconds. The pulse is
    written before any row is filled, so a tick that fails in between has used
    up its minutes.
    */
    method Body(repo: Repository, now: int, listings: Listings, faults: Faults) returns (ok: bool, r: Result)
      modifies `lastMinute, repo
      ensures if faults.clock then lastMinute == old(lastMinute)
              else 60 * r.minute <= now < 60 * (r.minute + 1)
                   && lastMinute == Some(r.minute) && r.audit == AuditOf(old(lastMinute), r.minute)
      ensures repo.pulse == if faults.clock || faults.readPulse || dryRun || faults.writePulse then old(repo.pulse)
                            else Some(now)
      ensures !r.skipped
      ensures Opens(faults, listings) ==>
                r.missed == |Missed(MinuteOf(now), MinuteOfPulse(old(repo.pulse)), missScanMin)|
      ensures Leaves(old(repo.View()), old(repo.pulse), now, listings, faults, repo.View(), ok, r)
    {
      ok, r := false, NOTHING;
      if faults.clock { return; }
      var minute := MinuteOf(now);
      var audit := AuditMinute(minute);
      r := r.(minute := minute, audit := audit);
      if faults.readPulse { return; }
      var lastRun := MinuteOfPulse(repo.pulse);
      if !dryRun {
        if faults.writePulse { return; }
        repo.DoTouchHeartbeat(now);
      }
      var past := MissedMinutes(minute, lastRun, missScanMin);
      r := r.(missed := |past|);
      if faults.listJobs { return; }
      if |listings.jobs| > 0 {
        if faults.listSchedules { return; }
        var attempts, written := QueueDue(repo, listings.jobs, listings.schedules, minute, past, dryRun, faults.queue);
        r := r.(candidates := if dryRun then attempts else [], queued := written);
      }
      if dryRun { return true, r; }
      ok, r := DispatchPending(repo, listings.pending, now, maxConcurrent, faults, r);
    }

    /** One tick; a tick that finds the previous one still going does nothing. */
    method Run(repo: Repository, now: int, listings: Listings, faults: Faults) returns (ok: bool, r: Result)
      modifies this, repo
      ensures running == old(running) == r.skipped
      ensures old(running) ==> && ok && lastMinute == old(lastMinute)
                               && repo.View() == old(repo.View()) && repo.pulse == old(repo.pulse)
      ensures !old(running) && ok && !dryRun ==>
                && 60 * r.minute <= now < 60 * (r.minute + 1)
                && lastMinute == Some(r.minute) && r.audit == AuditOf(old(lastMinute), r.minute)
                && repo.pulse == Some(now)
      ensures !old(running) ==> Leaves(old(repo.View()), old(repo.pulse), now, listings, faults, repo.View(), ok, r)
      ensures !old(running) && dryRun ==> repo.pulse == old(repo.pulse)
    {
      if running { return true, NOTHING.(skipped := true); }
      running := true;
      ok, r := Body(repo, now, listings, faults);
      running := false;
    }
  }
}
