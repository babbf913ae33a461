/**
The run protocol as a state machine. Any number of replicas tick, claim,
execute, finish, chain, sweep and die over one job_runs table; every database
statement is one step and steps of different processes interleave freely.

A call is one invocation of Runner.Run, with its program counter. Statements
the dispatcher, the interface and the watchdog issue have no state of their
own between steps, so they may happen at any moment.
*/
module RunProtocol {
  import opened Common
  import opened Domain
  import opened ExecRepo

  /** active already includes the project's flag; live means neither is deleted. */
  datatype Job = Job(singleRun: bool, maxDuration: int, active: bool, live: bool)

  datatype Config = Config(jobs: map<int, Job>, links: Links)

  /** One row of the chain listing: which link, and whether its target may run. */
  datatype Target = Target(linkId: int, jobId: int, active: bool, delaySec: int)

  /** Where a call to Run stands. run is the row it was started for. */
  datatype Call =
    | Fetched(run: nat)                    // single_run job, not counted yet
    | Checked(run: nat)                    // nothing in the way, about to claim
    | Blocked(run: nat)                    // counted another run, about to skip
    | Executing(run: nat)                  // claimed, the request is out
    | Finished(run: nat, outcome: Status)  // outcome written, chain not started
    | Counted(run: nat, outcome: Status, step: nat)
    | Listed(run: nat, outcome: Status, step: nat, todo: seq<Target>)

  datatype State = State(table: Table, calls: map<nat, Call>, config: Config, now: int)

  datatype Event =
    | Queue(jobId: int, minute: int)
    | Ask(jobId: int, trigger: Trigger)
    | DispatcherSkip(run: nat)
    | Sweep
    | Clock(at: int)
    | Configure(config: Config)
    | Begin(call: nat, run: nat)
    | Check(call: nat)
    | SkipSelf(call: nat)
    | Claim(call: nat)
    | Finish(call: nat, outcome: Status)
    | Count(call: nat)
    | List(call: nat, targets: seq<Target>)
    | Child(call: nat)
    | ChildLost(call: nat)   // the insert failed; the target is passed over
    | Die(call: nat)

  predicate Matches(condition: string, outcome: Status) {
    || condition == "always"
    || (condition == "success" && outcome == Success)
    || (condition == "failure" && outcome == Failed)
  }

  /** The links a finished run of this job fires under a configuration. */
  predicate Fires(config: Config, linkId: int, jobId: int, outcome: Status) {
    && linkId in config.links
    && config.links[linkId].source == jobId
    && config.links[linkId].active
    && config.links[linkId].target in config.jobs
    && config.jobs[config.links[linkId].target].live
    && Matches(config.links[linkId].condition, outcome)
  }

  function TargetOf(config: Config, linkId: int): Target
    requires linkId in config.links && config.links[linkId].target in config.jobs
  {
    var link := config.links[linkId];
    Target(linkId, link.target, config.jobs[link.target].active, link.delay)
  }

  /** The listing query: every firing link exactly once, in no stated order. */
  ghost predicate IsListing(config: Config, jobId: int, outcome: Status, targets: seq<Target>) {
    && (forall i :: 0 <= i < |targets| ==>
          Fires(config, targets[i].linkId, jobId, outcome) && targets[i] == TargetOf(config, targets[i].linkId))
    && (forall i, j :: 0 <= i < j < |targets| ==> targets[i].linkId != targets[j].linkId)
    && (forall linkId :: Fires(config, linkId, jobId, outcome) ==>
          exists i :: 0 <= i < |targets| && targets[i].linkId == linkId)
  }

  function Delay(sec: int): int {
    if sec < 0 then 0 else if sec > CHAIN_MAX_DELAY_SEC then CHAIN_MAX_DELAY_SEC else sec
  }

  function MaxDurations(config: Config): map<int, int> {
    map j | j in config.jobs :: config.jobs[j].maxDuration
  }

  /** The calls that own a row: they claimed it and still write on its behalf. */
  predicate Owns(c: Call) {
    c.Executing? || c.Finished? || c.Counted? || c.Listed?
  }

  ghost predicate Enabled(s: State, e: Event) {
    match e
    case Queue(_, _) => true
    case Ask(_, trigger) => trigger == Manual || trigger == Api
    case DispatcherSkip(_) => true
    case Sweep => true
    case Clock(at) => s.now <= at
    case Configure(_) => true
    case Begin(c, run) => c !in s.calls && run in s.table.rows && s.table.rows[run].jobId in s.config.jobs
    case Check(c) => c in s.calls && s.calls[c].Fetched? && s.calls[c].run in s.table.rows
    case SkipSelf(c) => c in s.calls && s.calls[c].Blocked?
    case Claim(c) => c in s.calls && s.calls[c].Checked?
    case Finish(c, outcome) =>
      c in s.calls && s.calls[c].Executing? && (outcome == Success || outcome == Failed || outcome == Timeout)
    case Count(c) => c in s.calls && s.calls[c].Finished?
    case List(c, targets) =>
      && c in s.calls && s.calls[c].Counted? && s.calls[c].run in s.table.rows
      && IsListing(s.config, s.table.rows[s.calls[c].run].jobId, s.calls[c].outcome, targets)
    case Child(c) => c in s.calls && s.calls[c].Listed? && s.calls[c].todo != []
    case ChildLost(c) => c in s.calls && s.calls[c].Listed? && s.calls[c].todo != []
    case Die(c) => c in s.calls
  }

  function Leave(s: State, c: nat): map<nat, Call> {
    s.calls - {c}
  }

  /** The count-then-decide of the single_run rule, as one statement. */
  function AfterCheck(s: State, call: Call): Call
    requires call.Fetched? && call.run in s.table.rows
  {
    if RunningIds(s.table, s.table.rows[call.run].jobId, call.run) != {} then Blocked(call.run)
    else Checked(call.run)
  }

  /** The chain step one listed target leads to. */
  function ChildTable(t: Table, now: int, run: nat, step: nat, target: Target): Table {
    if !target.active || step >= CHAIN_MAX_DEPTH then CreateChainSkipped(t, target.jobId, run)
    else CreateChainRun(t, target.jobId, now + Delay(target.delaySec), run)
  }

  ghost function Apply(s: State, e: Event): State
    requires Enabled(s, e)
  {
    match e
    case Queue(jobId, minute) => s.(table := QueueRun(s.table, jobId, minute))
    case Ask(jobId, trigger) => s.(table := Enqueue(s.table, jobId, trigger))
    case DispatcherSkip(run) => s.(table := SkipRun(s.table, run))
    case Sweep => s.(table := CloseStuckRuns(s.table, MaxDurations(s.config), s.now))
    case Clock(at) => s.(now := at)
    case Configure(config) => s.(config := config)
    case Begin(c, run) =>
      var call := if s.config.jobs[s.table.rows[run].jobId].singleRun then Fetched(run) else Checked(run);
      s.(calls := s.calls[c := call])
    case Check(c) => s.(calls := s.calls[c := AfterCheck(s, s.calls[c])])
    case SkipSelf(c) => s.(table := SkipRun(s.table, s.calls[c].run), calls := Leave(s, c))
    case Claim(c) =>
      var run := s.calls[c].run;
      if IsPending(s.table, run)
      then s.(table := ClaimRun(s.table, run, s.now), calls := s.calls[c := Executing(run)])
      else s.(calls := Leave(s, c))
    case Finish(c, outcome) =>
      var run := s.calls[c].run;
      s.(table := FinishRun(s.table, run, outcome),
         calls := if outcome == Timeout then Leave(s, c) else s.calls[c := Finished(run, outcome)])
    case Count(c) =>
      var call := s.calls[c];
      s.(calls := s.calls[c := Counted(call.run, call.outcome, ChainStepCount(s.table, call.run))])
    case List(c, targets) =>
      var call := s.calls[c];
      s.(calls := s.calls[c := Listed(call.run, call.outcome, call.step, targets)])
    case Child(c) =>
      var call := s.calls[c];
      s.(table := ChildTable(s.table, s.now, call.run, call.step, call.todo[0]),
         calls := s.calls[c := call.(todo := call.todo[1..])])
    case ChildLost(c) =>
      s.(calls := s.calls[c := s.calls[c].(todo := s.calls[c].todo[1..])])
    case Die(c) => s.(calls := Leave(s, c))
  }

  /** A fresh installation: no rows, nobody running, any configuration. */
  ghost predicate Initial(s: State) {
    s.table == Table(map[], 0) && s.calls == map[]
  }

  /** tr[i+1] follows from tr[i] by ev[i]. */
  ghost predicate StepAt(tr: seq<State>, ev: seq<Event>, i: nat)
    requires |tr| == |ev| + 1 && i < |ev|
  {
    Enabled(tr[i], ev[i]) && tr[i + 1] == Apply(tr[i], ev[i])
  }

  ghost predicate Behaviour(tr: seq<State>, ev: seq<Event>) {
    && |tr| == |ev| + 1
    && Initial(tr[0])
    && forall i: nat {:trigger StepAt(tr, ev, i)} :: i < |ev| ==> StepAt(tr, ev, i)
  }

  // --- the invariant ---

  predicate Ended(status: Status) {
    status == Success || status == Failed
  }

  /** A child hangs under a row whose own runner wrote success or failed. */
  ghost predicate ParentEnded(t: Table, id: nat)
    requires id in t.rows
  {
    t.rows[id].parent.Some? ==>
      t.rows[id].parent.value in t.rows && Ended(t.rows[t.rows[id].parent.value].status)
  }

  ghost predicate ParentsEnded(t: Table) {
    forall id {:trigger ParentEnded(t, id)} :: id in t.rows ==> ParentEnded(t, id)
  }

  ghost predicate RunningHasStart(t: Table) {
    forall id :: id in t.rows && t.rows[id].status == Running ==> t.rows[id].startedAt.Some?
  }

  ghost predicate TableInv(t: Table) {
    WellFormed(t) && OneRowPerMinute(t) && ParentsEnded(t) && RunningHasStart(t)
  }

  /** What a call may rely on about its own row, whatever the others do. */
  ghost predicate CallFits(t: Table, c: Call) {
    && c.run in t.rows
    && (c.Executing? ==> t.rows[c.run].status == Running || t.rows[c.run].status == Timeout)
    && (c.Finished? || c.Counted? || c.Listed? ==> t.rows[c.run].status == c.outcome && Ended(c.outcome))
  }

  ghost predicate CallsFit(t: Table, calls: map<nat, Call>) {
    forall c :: c in calls ==> CallFits(t, calls[c])
  }

  /** Nobody shares a row with its owner. */
  ghost predicate OneOwner(calls: map<nat, Call>) {
    forall c, d :: c in calls && d in calls && Owns(calls[c]) && Owns(calls[d]) && calls[c].run == calls[d].run
      ==> c == d
  }

  ghost predicate Inv(s: State) {
    TableInv(s.table) && CallsFit(s.table, s.calls) && OneOwner(s.calls)
  }

  // --- what each kind of statement keeps of the table ---

  lemma InsertKeeps(t: Table, row: Row)
    requires TableInv(t)
    requires row.parent.Some? ==> row.parent.value in t.rows && Ended(t.rows[row.parent.value].status)
    requires row.planned.Some? ==> !Conflicts(t, row.jobId, row.planned.value)
    requires row.status != Running
    ensures TableInv(Insert(t, row))
    ensures t.next !in t.rows
  {
    var t' := Insert(t, row);
    assert t.next in t.rows ==> Placed(t, t.next);
    if row.parent.Some? { assert Placed(t, row.parent.value); }
    forall id | id in t'.rows ensures Placed(t', id) && ParentEnded(t', id) {
      if id != t.next { assert Placed(t, id) && ParentEnded(t, id); }
    }
  }

  /** Rewriting the status of a row that has not ended, and so has no children. */
  lemma RestatusKeeps(t: Table, id: nat, row: Row)
    requires TableInv(t) && id in t.rows
    requires !Ended(t.rows[id].status)
    requires row == t.rows[id].(status := row.status, startedAt := row.startedAt)
    requires row.status == Running ==> row.startedAt.Some?
    ensures TableInv(t.(rows := t.rows[id := row]))
  {
    var t' := t.(rows := t.rows[id := row]);
    forall k | k in t'.rows ensures Placed(t', k) && ParentEnded(t', k) {
      assert Placed(t, k) && ParentEnded(t, k);
    }
  }

  lemma SweepKeeps(t: Table, maxDuration: map<int, int>, now: int)
    requires TableInv(t)
    ensures TableInv(CloseStuckRuns(t, maxDuration, now))
  {
    var t' := CloseStuckRuns(t, maxDuration, now);
    forall k | k in t'.rows ensures Placed(t', k) && ParentEnded(t', k) {
      assert Placed(t, k) && ParentEnded(t, k);
    }
  }

  // --- what each step keeps ---

  lemma InvIdle(s: State, e: Event)
    requires Inv(s) && Enabled(s, e)
    requires e.Die? || e.Clock? || e.Configure?
    ensures Inv(Apply(s, e))
  {
  }

  lemma InvStarting(s: State, e: Event)
    requires Inv(s) && Enabled(s, e)
    requires e.Begin? || e.Check?
    ensures Inv(Apply(s, e))
  {
  }

  lemma InvListing(s: State, e: Event)
    requires Inv(s) && Enabled(s, e)
    requires e.Count? || e.List? || e.ChildLost?
    ensures Inv(Apply(s, e))
  {
  }

  lemma InvOpen(s: State, e: Event)
    requires Inv(s) && Enabled(s, e)
    requires e.Queue? || e.Ask?
    ensures Inv(Apply(s, e))
  {
    if e.Queue? && !Conflicts(s.table, e.jobId, e.minute) {
      InsertKeeps(s.table, Row(e.jobId, Some(e.minute), None, Schedule, None, Pending, None));
    } else if e.Ask? {
      InsertKeeps(s.table, Row(e.jobId, None, None, e.trigger, None, Pending, None));
    }
  }

  lemma InvSkip(s: State, e: Event)
    requires Inv(s) && Enabled(s, e)
    requires e.DispatcherSkip? || e.SkipSelf?
    ensures Inv(Apply(s, e))
  {
    var run := if e.DispatcherSkip? then e.run else s.calls[e.call].run;
    if IsPending(s.table, run) {
      RestatusKeeps(s.table, run, s.table.rows[run].(status := Skipped));
    }
  }

  lemma InvSweep(s: State)
    requires Inv(s)
    ensures Inv(Apply(s, Sweep))
  {
    SweepKeeps(s.table, MaxDurations(s.config), s.now);
  }

  lemma InvClaim(s: State, e: Event)
    requires Inv(s) && Enabled(s, e) && e.Claim?
    ensures Inv(Apply(s, e))
  {
    var run := s.calls[e.call].run;
    if IsPending(s.table, run) {
      RestatusKeeps(s.table, run, s.table.rows[run].(status := Running, startedAt := Some(s.now)));
    }
  }

  lemma InvFinish(s: State, e: Event)
    requires Inv(s) && Enabled(s, e) && e.Finish?
    ensures Inv(Apply(s, e))
  {
    var run := s.calls[e.call].run;
    RestatusKeeps(s.table, run, s.table.rows[run].(status := e.outcome));
  }

  lemma InvChild(s: State, e: Event)
    requires Inv(s) && Enabled(s, e) && e.Child?
    ensures Inv(Apply(s, e))
  {
    var call := s.calls[e.call];
    var target := call.todo[0];
    if !target.active || call.step >= CHAIN_MAX_DEPTH {
      InsertKeeps(s.table, Row(target.jobId, None, None, Chain, Some(call.run), Skipped, None));
    } else {
      var runAfter := s.now + Delay(target.delaySec);
      InsertKeeps(s.table, Row(target.jobId, None, Some(runAfter), Chain, Some(call.run), Pending, None));
    }
  }

  lemma InvStep(s: State, e: Event)
    requires Inv(s) && Enabled(s, e)
    ensures Inv(Apply(s, e))
  {
    match e
    case Queue(_, _) => InvOpen(s, e);
    case Ask(_, _) => InvOpen(s, e);
    case DispatcherSkip(_) => InvSkip(s, e);
    case SkipSelf(_) => InvSkip(s, e);
    case Sweep => InvSweep(s);
    case Claim(_) => InvClaim(s, e);
    case Finish(_, _) => InvFinish(s, e);
    case Child(_) => InvChild(s, e);
    case Begin(_, _) => InvStarting(s, e);
    case Check(_) => InvStarting(s, e);
    case Count(_) => InvListing(s, e);
    case List(_, _) => InvListing(s, e);
    case ChildLost(_) => InvListing(s, e);
    case _ => InvIdle(s, e);
  }

  /** The invariant holds in every state of every behaviour. */
  lemma {:induction false} InvAlways(tr: seq<State>, ev: seq<Event>, i: nat)
    requires Behaviour(tr, ev)
    requires i < |tr|
    ensures Inv(tr[i])
  {
    if i > 0 {
      InvAlways(tr, ev, i - 1);
      assert StepAt(tr, ev, i - 1);
      InvStep(tr[i - 1], ev[i - 1]);
    }
  }
}
