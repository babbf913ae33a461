/**
What a row's history says of it: when a running row was claimed, which rows a
sweep closes, and what a call had seen when it skipped its row or claimed it.
*/
module RunHistory {
  import opened Common
  import opened ExecRepo
  import opened RunProtocol
  import opened RunSafety

  lemma TakenNow(s: State, e: Event, id: nat)
    requires Enabled(s, e) && Takes(s, e, id)
    ensures id in Apply(s, e).table.rows && Apply(s, e).table.rows[id].startedAt == Some(s.now)
  {
  }

  /** Only a claim that takes a row sets its start. */
  lemma StartKept(s: State, e: Event, id: nat)
    requires Enabled(s, e) && id in s.table.rows && id < s.table.next && !Takes(s, e, id)
    ensures id in Apply(s, e).table.rows && Apply(s, e).table.rows[id].startedAt == s.table.rows[id].startedAt
  {
  }

  lemma RunningStep(s: State, e: Event, id: nat)
    requires Inv(s) && Enabled(s, e) && id in Apply(s, e).table.rows && Apply(s, e).table.rows[id].status == Running
    ensures id in s.table.rows
    ensures if Takes(s, e, id) then Apply(s, e).table.rows[id].startedAt == Some(s.now)
            else s.table.rows[id] == Apply(s, e).table.rows[id]
  {
    if id in s.table.rows {
      StepOnRow(s, e, id);
      assert Placed(s.table, id);
      if Takes(s, e, id) { TakenNow(s, e, id); } else { StartKept(s, e, id); }
    }
  }

  /** A running row has its start from the clock of the claim that took it. */
  lemma {:induction false} ClaimedWhen(tr: seq<State>, ev: seq<Event>, i: nat, id: nat) returns (k: nat)
    requires Behaviour(tr, ev) && i < |tr| && id in tr[i].table.rows && tr[i].table.rows[id].status == Running
    ensures k < i && Takes(tr[k], ev[k], id) && tr[i].table.rows[id].startedAt == Some(tr[k].now)
  {
    assert i > 0 && StepAt(tr, ev, i - 1);
    InvAlways(tr, ev, i - 1);
    RunningStep(tr[i - 1], ev[i - 1], id);
    if Takes(tr[i - 1], ev[i - 1], id) {
      k := i - 1;
    } else {
      k := ClaimedWhen(tr, ev, i - 1, id);
    }
  }

  /**
  Exactly what a sweep closes: the running rows whose claim lies more than their
  job's max_duration back. A younger one goes on, and no other row changes.
  */
  lemma SweepClosesIff(tr: seq<State>, ev: seq<Event>, i: nat, id: nat) returns (k: nat)
    requires Behaviour(tr, ev) && i < |ev| && ev[i] == Sweep && id in tr[i].table.rows
    ensures id in tr[i + 1].table.rows
    ensures var was, now := tr[i].table.rows[id], tr[i + 1].table.rows[id];
            if was.status == Running && was.jobId in tr[i].config.jobs then
              && k < i && Takes(tr[k], ev[k], id)
              && now == if tr[k].now + tr[i].config.jobs[was.jobId].maxDuration < tr[i].now
                        then was.(status := Timeout) else was
            else now == was
  {
    assert StepAt(tr, ev, i);
    k := 0;
    if tr[i].table.rows[id].status == Running { k := ClaimedWhen(tr, ev, i, id); }
  }

  /** Another row of the job is running. */
  ghost predicate AnotherRuns(t: Table, run: nat)
    requires run in t.rows
  {
    exists id :: id in t.rows && id != run && t.rows[id].jobId == t.rows[run].jobId && t.rows[id].status == Running
  }

  lemma AnotherRunsIff(t: Table, run: nat)
    requires run in t.rows
    ensures AnotherRuns(t, run) <==> RunningIds(t, t.rows[run].jobId, run) != {}
  {
    if id :| id in RunningIds(t, t.rows[run].jobId, run) {
      assert AnotherRuns(t, run);
    }
    if id :| id in t.rows && id != run && t.rows[id].jobId == t.rows[run].jobId && t.rows[id].status == Running {
      assert id in RunningIds(t, t.rows[run].jobId, run);
    }
  }

  lemma BlockedStep(s: State, e: Event, c: nat)
    requires Inv(s) && Enabled(s, e) && c in Apply(s, e).calls && Apply(s, e).calls[c].Blocked?
    ensures c in s.calls && s.calls[c].run == Apply(s, e).calls[c].run
    ensures s.calls[c] == Apply(s, e).calls[c] || (e == Check(c) && s.calls[c].Fetched?)
    ensures s.calls[c] != Apply(s, e).calls[c] ==>
              s.calls[c].run in s.table.rows && AnotherRuns(s.table, s.calls[c].run)
  {
    if e == Check(c) { AnotherRunsIff(s.table, s.calls[c].run); }
  }

  /** A call that is about to skip its row found another row of the job running when it looked. */
  lemma {:induction false} BlockedBecause(tr: seq<State>, ev: seq<Event>, i: nat, c: nat) returns (k: nat)
    requires Behaviour(tr, ev) && i < |tr| && c in tr[i].calls && tr[i].calls[c].Blocked?
    ensures k < i && ev[k] == Check(c) && c in tr[k].calls && tr[k].calls[c] == Fetched(tr[i].calls[c].run)
    ensures tr[i].calls[c].run in tr[k].table.rows && AnotherRuns(tr[k].table, tr[i].calls[c].run)
  {
    assert i > 0 && StepAt(tr, ev, i - 1);
    InvAlways(tr, ev, i - 1);
    BlockedStep(tr[i - 1], ev[i - 1], c);
    if tr[i - 1].calls[c] == tr[i].calls[c] {
      k := BlockedBecause(tr, ev, i - 1, c);
    } else {
      k := i - 1;
    }
  }

  lemma FetchedStep(s: State, e: Event, c: nat)
    requires Inv(s) && Enabled(s, e) && c in Apply(s, e).calls && Apply(s, e).calls[c].Fetched?
    ensures var run := Apply(s, e).calls[c].run;
            || (c in s.calls && s.calls[c] == Apply(s, e).calls[c])
            || (e == Begin(c, run) && run in s.table.rows && s.table.rows[run].jobId in s.config.jobs
                && s.config.jobs[s.table.rows[run].jobId].singleRun)
  {
  }

  /** Only a call for a job that was single_run when it began looks at all. */
  lemma {:induction false} FetchedBecause(tr: seq<State>, ev: seq<Event>, i: nat, c: nat) returns (k: nat)
    requires Behaviour(tr, ev) && i < |tr| && c in tr[i].calls && tr[i].calls[c].Fetched?
    ensures var run := tr[i].calls[c].run;
            && k < i && ev[k] == Begin(c, run) && run in tr[k].table.rows
            && tr[k].table.rows[run].jobId in tr[k].config.jobs
            && tr[k].config.jobs[tr[k].table.rows[run].jobId].singleRun
  {
    assert i > 0 && StepAt(tr, ev, i - 1);
    InvAlways(tr, ev, i - 1);
    FetchedStep(tr[i - 1], ev[i - 1], c);
    if c in tr[i - 1].calls && tr[i - 1].calls[c] == tr[i].calls[c] {
      k := FetchedBecause(tr, ev, i - 1, c);
    } else {
      k := i - 1;
    }
  }

  /**
  Why a call skips its row: the job was single_run when the call began, and another
  of its rows was running when the call looked, in that order.
  */
  lemma SkippedBecause(tr: seq<State>, ev: seq<Event>, i: nat, id: nat) returns (began: nat, looked: nat)
    requires Behaviour(tr, ev) && i < |ev| && ev[i].SkipSelf? && IsPending(tr[i].table, id)
    requires id in tr[i + 1].table.rows && tr[i + 1].table.rows[id].status == Skipped
    ensures began < looked < i && ev[began] == Begin(ev[i].call, id) && ev[looked] == Check(ev[i].call)
    ensures id in tr[began].table.rows && tr[began].table.rows[id].jobId in tr[began].config.jobs
    ensures tr[began].config.jobs[tr[began].table.rows[id].jobId].singleRun
    ensures id in tr[looked].table.rows && AnotherRuns(tr[looked].table, id)
  {
    assert StepAt(tr, ev, i);
    looked := BlockedBecause(tr, ev, i, ev[i].call);
    began := FetchedBecause(tr, ev, looked, ev[i].call);
  }

  /** A call whose look found no other row running goes on to its claim, which takes the row if it is pending. */
  lemma LookThenClaim(s: State, c: nat)
    requires c in s.calls && s.calls[c].Fetched? && s.calls[c].run in s.table.rows
    ensures var run := s.calls[c].run;
            && Enabled(s, Check(c))
            && (AnotherRuns(s.table, run) ==> Apply(s, Check(c)).calls[c] == Blocked(run))
            && (!AnotherRuns(s.table, run) ==>
                  && Apply(s, Check(c)).calls[c] == Checked(run) && Enabled(Apply(s, Check(c)), Claim(c))
                  && (s.table.rows[run].status == Pending ==>
                        var after := Apply(Apply(s, Check(c)), Claim(c));
                        after.table.rows[run] == s.table.rows[run].(status := Running, startedAt := Some(s.now))))
  {
    AnotherRunsIff(s.table, s.calls[c].run);
  }

  /** A run asked for by hand or through the interface is queued at once: pending, for no minute and under no run. */
  lemma AskedIsQueued(s: State, jobId: int, trigger: Trigger)
    requires Inv(s) && (trigger == Manual || trigger == Api)
    ensures Enabled(s, Ask(jobId, trigger))
    ensures var rows := Apply(s, Ask(jobId, trigger)).table.rows;
            && s.table.next !in s.table.rows && rows.Keys == s.table.rows.Keys + {s.table.next}
            && rows[s.table.next] == Row(jobId, None, None, trigger, None, Pending, None)
            && forall id :: id in s.table.rows ==> rows[id] == s.table.rows[id]
  {
    assert s.table.next in s.table.rows ==> Placed(s.table, s.table.next);
  }
}
