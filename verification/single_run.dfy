/**
The single_run rule and the watchdog. Counting the running rows and claiming
are two statements, so the rule alone does not keep two runs of a job apart:
it does exactly when no other row of the job is taken between a call's check
and its claim, which taking the two as one step guarantees.
*/
module SingleRun {
  import opened Common
  import opened ExecRepo
  import opened RunProtocol
  import opened RunSafety

  /** Two rows of one job are running at once. */
  ghost predicate Overlap(s: State, jobId: int) {
    exists a, b :: RunningFor(s.table, jobId, NO_RUN, a) && RunningFor(s.table, jobId, NO_RUN, b) && a != b
  }

  ghost predicate NeverOverlaps(tr: seq<State>, jobId: int) {
    forall i :: 0 <= i < |tr| ==> !Overlap(tr[i], jobId)
  }

  /** At every claim that takes a row of the job, no other row of it is running. */
  ghost predicate ClaimsFindRoom(tr: seq<State>, ev: seq<Event>, jobId: int)
    requires |tr| == |ev| + 1
  {
    forall i: nat, id: nat :: i < |ev| && Takes(tr[i], ev[i], id) && tr[i].table.rows[id].jobId == jobId
      ==> RunningIds(tr[i].table, jobId, id) == {}
  }

  lemma RoomKeepsApart(s: State, e: Event, jobId: int)
    requires Inv(s) && Enabled(s, e) && !Overlap(s, jobId)
    requires forall id: nat :: Takes(s, e, id) && s.table.rows[id].jobId == jobId ==>
               RunningIds(s.table, jobId, id) == {}
    ensures !Overlap(Apply(s, e), jobId)
  {
    var t' := Apply(s, e).table;
    forall a: nat, b: nat | RunningFor(t', jobId, NO_RUN, a) && RunningFor(t', jobId, NO_RUN, b) ensures a == b {
      RunningCameFrom(s, e, jobId, a);
      RunningCameFrom(s, e, jobId, b);
      assert RunningFor(s.table, jobId, NO_RUN, b) && a != b ==> b in RunningIds(s.table, jobId, a);
      assert RunningFor(s.table, jobId, NO_RUN, a) && a != b ==> a in RunningIds(s.table, jobId, b);
    }
  }

  /** A running row was running before the step, or the step is its claim. */
  lemma RunningCameFrom(s: State, e: Event, jobId: int, id: nat)
    requires Inv(s) && Enabled(s, e)
    requires RunningFor(Apply(s, e).table, jobId, NO_RUN, id)
    ensures id in s.table.rows && s.table.rows[id].jobId == jobId
    ensures Takes(s, e, id) || RunningFor(s.table, jobId, NO_RUN, id)
  {
    if id in s.table.rows {
      StepOnRow(s, e, id);
    }
  }

  lemma {:induction false} RoomImpliesApart(tr: seq<State>, ev: seq<Event>, jobId: int, i: nat)
    requires Behaviour(tr, ev) && ClaimsFindRoom(tr, ev, jobId)
    requires i < |tr|
    ensures !Overlap(tr[i], jobId)
  {
    if i > 0 {
      RoomImpliesApart(tr, ev, jobId, i - 1);
      InvAlways(tr, ev, i - 1);
      assert StepAt(tr, ev, i - 1);
      RoomKeepsApart(tr[i - 1], ev[i - 1], jobId);
    }
  }

  /** Runs of any job never overlap if and only if each finds room at its claim. */
  lemma ApartIffRoom(tr: seq<State>, ev: seq<Event>, jobId: int)
    requires Behaviour(tr, ev)
    ensures NeverOverlaps(tr, jobId) <==> ClaimsFindRoom(tr, ev, jobId)
  {
    if ClaimsFindRoom(tr, ev, jobId) {
      forall i | 0 <= i < |tr| ensures !Overlap(tr[i], jobId) {
        RoomImpliesApart(tr, ev, jobId, i);
      }
    }
    if NeverOverlaps(tr, jobId) {
      forall i: nat, id: nat, other | i < |ev| && Takes(tr[i], ev[i], id) && tr[i].table.rows[id].jobId == jobId
        ensures other !in RunningIds(tr[i].table, jobId, id)
      {
        if other in RunningIds(tr[i].table, jobId, id) {
          InvAlways(tr, ev, i);
          assert StepAt(tr, ev, i);
          StepOnRow(tr[i], ev[i], id);
          StepOnRow(tr[i], ev[i], other);
          assert !(RunningFor(tr[i + 1].table, jobId, NO_RUN, id) && RunningFor(tr[i + 1].table, jobId, NO_RUN, other))
            by { assert !Overlap(tr[i + 1], jobId); }
          assert false;
        }
      }
    }
  }

  /** Every claim of the job's rows directly follows that call's own check. */
  ghost predicate CheckThenClaim(tr: seq<State>, ev: seq<Event>, jobId: int)
    requires |tr| == |ev| + 1
  {
    forall i: nat, id: nat :: i < |ev| && Takes(tr[i], ev[i], id) && tr[i].table.rows[id].jobId == jobId
      ==> i > 0 && ev[i - 1] == Check(ev[i].call)
  }

  /** With the check and the claim as one step, a job's runs never overlap. */
  lemma AtomicCheckKeepsApart(tr: seq<State>, ev: seq<Event>, jobId: int)
    requires Behaviour(tr, ev) && CheckThenClaim(tr, ev, jobId)
    ensures NeverOverlaps(tr, jobId)
  {
    forall i: nat, id: nat | i < |ev| && Takes(tr[i], ev[i], id) && tr[i].table.rows[id].jobId == jobId
      ensures RunningIds(tr[i].table, jobId, id) == {}
    {
      assert StepAt(tr, ev, i - 1);
    }
    ApartIffRoom(tr, ev, jobId);
  }

  // --- from a call's check to its claim ---

  /** Whenever the job is configured it is a single_run job. */
  ghost predicate AlwaysSingleRun(tr: seq<State>, jobId: int) {
    forall i :: 0 <= i < |tr| && jobId in tr[i].config.jobs ==> tr[i].config.jobs[jobId].singleRun
  }

  /** Step k is the check that the call, about to claim in state i, has passed. */
  ghost predicate PassedAt(tr: seq<State>, ev: seq<Event>, k: nat, i: nat, c: nat)
    requires |tr| == |ev| + 1 && i < |tr|
  {
    && k < i && ev[k] == Check(c)
    && c in tr[i].calls && tr[i].calls[c].Checked?
    && forall g {:trigger tr[g]} :: k < g <= i ==> c in tr[g].calls && tr[g].calls[c] == tr[i].calls[c]
  }

  /** The row is running, and was taken after the check that the claim at step i relies on. */
  ghost predicate TakenSinceCheck(tr: seq<State>, ev: seq<Event>, jobId: int, i: nat, id: nat, other: nat)
    requires |tr| == |ev| + 1 && i < |ev| && ev[i].Claim?
  {
    && RunningFor(tr[i].table, jobId, id, other)
    && exists k: nat, h: nat :: PassedAt(tr, ev, k, i, ev[i].call) && k < h < i && Takes(tr[h], ev[h], other)
  }

  /** A call about to claim a row of such a job has passed its own check, which found nothing running. */
  lemma {:induction false} OwnCheck(tr: seq<State>, ev: seq<Event>, jobId: int, i: nat, c: nat) returns (k: nat)
    requires Behaviour(tr, ev) && AlwaysSingleRun(tr, jobId) && i < |tr|
    requires c in tr[i].calls && tr[i].calls[c].Checked?
    requires tr[i].calls[c].run in tr[i].table.rows && tr[i].table.rows[tr[i].calls[c].run].jobId == jobId
    ensures PassedAt(tr, ev, k, i, c) && RunningIds(tr[k].table, jobId, tr[i].calls[c].run) == {}
  {
    assert i > 0 && StepAt(tr, ev, i - 1);
    InvAlways(tr, ev, i - 1);
    var s, e, run := tr[i - 1], ev[i - 1], tr[i].calls[c].run;
    CheckedStep(s, e, c);
    StepOnRow(s, e, run);
    if e == Check(c) {
      k := i - 1;
    } else {
      k := OwnCheck(tr, ev, jobId, i - 1, c);
    }
  }

  /** A call stands before its claim because it stood there, or its check passed, or its job is not single_run. */
  lemma CheckedStep(s: State, e: Event, c: nat)
    requires Inv(s) && Enabled(s, e) && c in Apply(s, e).calls && Apply(s, e).calls[c].Checked?
    ensures var call := Apply(s, e).calls[c];
            && call.run in s.table.rows
            && match e
               case Begin(d, _) =>
                 if d == c then var job := s.table.rows[call.run].jobId;
                                job in s.config.jobs && !s.config.jobs[job].singleRun
                 else c in s.calls && s.calls[c] == call
               case Check(d) =>
                 if d == c then RunningIds(s.table, s.table.rows[call.run].jobId, call.run) == {}
                 else c in s.calls && s.calls[c] == call
               case _ => c in s.calls && s.calls[c] == call
  {
    if c in s.calls { assert CallFits(s.table, s.calls[c]); }
  }

  /** A row that runs now and did not before was taken in between. */
  lemma {:induction false} TakenIn(tr: seq<State>, ev: seq<Event>, jobId: int, k: nat, i: nat, id: nat) returns (h: nat)
    requires Behaviour(tr, ev) && k <= i < |tr|
    requires RunningFor(tr[i].table, jobId, NO_RUN, id) && !RunningFor(tr[k].table, jobId, NO_RUN, id)
    ensures k <= h < i && Takes(tr[h], ev[h], id)
  {
    assert StepAt(tr, ev, i - 1);
    InvAlways(tr, ev, i - 1);
    RunningCameFrom(tr[i - 1], ev[i - 1], jobId, id);
    if RunningFor(tr[i - 1].table, jobId, NO_RUN, id) {
      h := TakenIn(tr, ev, jobId, k, i - 1, id);
    } else {
      h := i - 1;
    }
  }

  /**
  Exactly when the runs of a single_run job never overlap: no claim takes a row
  of the job while another, taken since that call's own check, is running.
  */
  lemma NeverOverlapsIff(tr: seq<State>, ev: seq<Event>, jobId: int)
    requires Behaviour(tr, ev) && AlwaysSingleRun(tr, jobId)
    ensures NeverOverlaps(tr, jobId)
            <==> forall i: nat, id: nat, other: nat ::
                   i < |ev| && Takes(tr[i], ev[i], id) && tr[i].table.rows[id].jobId == jobId
                   ==> !TakenSinceCheck(tr, ev, jobId, i, id, other)
  {
    ApartIffRoom(tr, ev, jobId);
    forall i: nat, id: nat, other: nat
      | i < |ev| && Takes(tr[i], ev[i], id) && tr[i].table.rows[id].jobId == jobId
      ensures TakenSinceCheck(tr, ev, jobId, i, id, other) <==> other in RunningIds(tr[i].table, jobId, id)
    {
      if other in RunningIds(tr[i].table, jobId, id) {
        var k := OwnCheck(tr, ev, jobId, i, ev[i].call);
        assert other !in RunningIds(tr[k].table, jobId, id);
        var h := TakenIn(tr, ev, jobId, k, i, other);
      }
    }
  }

  // The race: two rows of job 7, two calls, both checks before either claim.

  function RaceRow(status: Status): Row {
    Row(7, None, None, Manual, None, status, if status == Running then Some(0) else None)
  }

  function RaceState(rows: map<nat, Row>, calls: map<nat, Call>): State {
    State(Table(rows, |rows|), calls, Config(map[7 := Job(true, 300, true, true)], map[]), 0)
  }

  function Race(n: nat): State {
    var two := map[0 := RaceRow(Pending), 1 := RaceRow(Pending)];
    if n == 0 then RaceState(map[], map[])
    else if n == 1 then RaceState(map[0 := RaceRow(Pending)], map[])
    else if n == 2 then RaceState(two, map[])
    else if n == 3 then RaceState(two, map[0 := Fetched(0)])
    else if n == 4 then RaceState(two, map[0 := Fetched(0), 1 := Fetched(1)])
    else if n == 5 then RaceState(two, map[0 := Checked(0), 1 := Fetched(1)])
    else if n == 6 then RaceState(two, map[0 := Checked(0), 1 := Checked(1)])
    else if n == 7 then RaceState(two[0 := RaceRow(Running)], map[0 := Executing(0), 1 := Checked(1)])
    else RaceState(map[0 := RaceRow(Running), 1 := RaceRow(Running)], map[0 := Executing(0), 1 := Executing(1)])
  }

  function RaceEvent(n: nat): Event {
    if n <= 1 then Ask(7, Manual)
    else if n == 2 then Begin(0, 0)
    else if n == 3 then Begin(1, 1)
    else if n == 4 then Check(0)
    else if n == 5 then Check(1)
    else if n == 6 then Claim(0)
    else Claim(1)
  }

  lemma RaceStep(n: nat)
    requires n < 8
    ensures Enabled(Race(n), RaceEvent(n)) && Race(n + 1) == Apply(Race(n), RaceEvent(n))
  {
    if n < 4 {
      RaceOpens(n);
    } else if n < 6 {
      RaceChecks(n);
    } else if n < 7 {
      RaceFirstClaim(n);
    } else {
      RaceSecondClaim(n);
    }
  }

  lemma RaceOpens(n: nat)
    requires n < 4
    ensures Enabled(Race(n), RaceEvent(n)) && Race(n + 1) == Apply(Race(n), RaceEvent(n))
  {
  }

  lemma RaceRoom(n: nat, run: nat)
    requires 4 <= n < 6
    ensures RunningIds(Race(n).table, 7, run) == {}
  {
  }

  lemma RaceChecks(n: nat)
    requires 4 <= n < 6
    ensures Enabled(Race(n), RaceEvent(n)) && Race(n + 1) == Apply(Race(n), RaceEvent(n))
  {
    var run := n - 4;
    RaceRoom(n, run);
    assert AfterCheck(Race(n), Fetched(run)) == Checked(run);
  }

  lemma RaceFirstClaim(n: nat)
    requires n == 6
    ensures Enabled(Race(n), RaceEvent(n)) && Race(n + 1) == Apply(Race(n), RaceEvent(n))
  {
    assert IsPending(Race(n).table, 0);
  }

  lemma RaceSecondClaim(n: nat)
    requires n == 7
    ensures Enabled(Race(n), RaceEvent(n)) && Race(n + 1) == Apply(Race(n), RaceEvent(n))
  {
    assert IsPending(Race(n).table, 1);
  }

  /**
  As two statements they race: two calls may both count nothing and then both
  claim, and two rows of a single_run job are running.
  */
  lemma CheckAndClaimRace() returns (tr: seq<State>, ev: seq<Event>)
    ensures Behaviour(tr, ev)
    ensures forall i :: 0 <= i < |tr| ==> 7 in tr[i].config.jobs && tr[i].config.jobs[7].singleRun
    ensures Overlap(tr[|ev|], 7)
  {
    tr := seq(9, (n: nat) => Race(n));
    ev := seq(8, (n: nat) => RaceEvent(n));
    forall i: nat | i < |ev| ensures StepAt(tr, ev, i) {
      RaceStep(i);
    }
    assert RunningFor(Race(8).table, 7, NO_RUN, 0) && RunningFor(Race(8).table, 7, NO_RUN, 1);
  }

  // --- the watchdog ---

  /** Right after a sweep no running row is older than its job allows. */
  lemma SweepLeavesNothingStuck(tr: seq<State>, ev: seq<Event>, i: nat, id: nat)
    requires Behaviour(tr, ev)
    requires i < |ev| && ev[i] == Sweep
    requires id in tr[i].table.rows && tr[i].table.rows[id].jobId in tr[i].config.jobs
    ensures id in tr[i + 1].table.rows
    ensures tr[i + 1].table.rows[id].status == Running ==>
              && tr[i + 1].table.rows[id].startedAt.Some?
              && tr[i + 1].table.rows[id].startedAt.value
                 >= tr[i + 1].now - tr[i].config.jobs[tr[i].table.rows[id].jobId].maxDuration
  {
    InvAlways(tr, ev, i);
    assert StepAt(tr, ev, i);
    StepOnRow(tr[i], ev[i], id);
  }

  /**
  A job all of whose runs have outlived max_duration, because their runners
  died, is free again after the next sweep: the check of a waiting call passes.
  */
  lemma SweepUnblocks(tr: seq<State>, ev: seq<Event>, i: nat, c: nat)
    requires Behaviour(tr, ev)
    requires i < |ev| && ev[i] == Sweep
    requires c in tr[i].calls && tr[i].calls[c].Fetched? && tr[i].calls[c].run in tr[i].table.rows
    requires var jobId := tr[i].table.rows[tr[i].calls[c].run].jobId;
             forall id :: RunningFor(tr[i].table, jobId, tr[i].calls[c].run, id) ==>
                            Stuck(tr[i].table.rows[id], MaxDurations(tr[i].config), tr[i].now)
    ensures c in tr[i + 1].calls && tr[i + 1].calls[c].Fetched? && tr[i + 1].calls[c].run in tr[i + 1].table.rows
    ensures AfterCheck(tr[i + 1], tr[i + 1].calls[c]) == Checked(tr[i].calls[c].run)
  {
    assert StepAt(tr, ev, i);
    var run := tr[i].calls[c].run;
    var jobId := tr[i].table.rows[run].jobId;
    forall id | id in tr[i].table.rows ensures !RunningFor(tr[i + 1].table, jobId, run, id) {
      if RunningFor(tr[i].table, jobId, run, id) {
        assert Stuck(tr[i].table.rows[id], MaxDurations(tr[i].config), tr[i].now);
      }
    }
  }
}
