/**
The runner: one call to Run from the single_run check to the last chain step,
the retry loop, and the proof that such a call, left alone, is one path of the
run protocol.
*/
module Runner {
  import opened Common
  import opened Domain
  import opened ExecRepo
  import RunProtocol

  /** What one request came to. */
  datatype Attempt = Ok | Bad | GaveUp

  /** What a run needs to know of its job. */
  datatype RunTarget = RunTarget(id: nat, jobId: int, singleRun: bool, retries: nat, resolves: bool)

  /** One linked job as the listing returns it. */
  datatype ChainTarget = ChainTarget(linkId: int, jobId: int, active: bool, delaySec: int, singleRun: bool)

  /** The statements of one call that fail; child has the links whose insert does. */
  datatype Faults = Faults(
    read: bool, count: bool, skip: bool, claim: bool, finish: bool, steps: bool, list: bool,
    child: set<int>, blocker: set<int>)

  // --- the retry loop ---

  /** The loop stops after this attempt: it settled the run, or the pause after it was cancelled. */
  predicate Stops(answers: seq<Attempt>, cancelled: set<nat>, k: nat)
    requires k < |answers|
  {
    answers[k] != Bad || k in cancelled
  }

  function StatusOf(a: Attempt): Status {
    match a case Ok => Success case Bad => Failed case GaveUp => Timeout
  }

  /**
  answers has what each request would come to, cancelled the pauses in which the
  caller's context ends. The last attempt made decides: none after a success, a
  timeout or a cancellation, and never more than the retries allow.
  */
  method Execute(row: RunTarget, answers: seq<Attempt>, cancelled: set<nat>) returns (status: Status, made: nat)
    requires |answers| == row.retries + 1
    ensures !row.resolves ==> status == Failed && made == 0
    ensures row.resolves ==>
              && 1 <= made <= row.retries + 1 && status == StatusOf(answers[made - 1])
              && (status == Success <==> answers[made - 1] == Ok)
              && (status == Timeout <==> answers[made - 1] == GaveUp)
              && (forall k: nat :: k < made - 1 ==> !Stops(answers, cancelled, k))
              && (made <= row.retries ==> Stops(answers, cancelled, made - 1))
  {
    if !row.resolves { return Failed, 0; }
    var attempts := row.retries + 1;
    made := 1;
    while made <= attempts
      invariant 1 <= made <= attempts + 1
      invariant forall k: nat :: k < made - 1 ==> answers[k] == Bad
      invariant forall k: nat :: k < made - 1 && k < row.retries ==> k !in cancelled
    {
      status := StatusOf(answers[made - 1]);
      if status == Success { return; }
      if status == Timeout { return; }
      if made < attempts && made - 1 in cancelled { return; }
      made := made + 1;
    }
    made := attempts;
    status := StatusOf(answers[made - 1]);
  }

  /** A run succeeds exactly when some request does after nothing but failures without a cancellation. */
  lemma SucceedsIff(row: RunTarget, answers: seq<Attempt>, cancelled: set<nat>, status: Status, made: nat)
    requires |answers| == row.retries + 1 && row.resolves
    requires 1 <= made <= row.retries + 1 && status == StatusOf(answers[made - 1])
    requires forall k: nat :: k < made - 1 ==> !Stops(answers, cancelled, k)
    requires made <= row.retries ==> Stops(answers, cancelled, made - 1)
    ensures status == Success
            <==> exists n: nat :: n <= row.retries && answers[n] == Ok
                                  && forall k: nat :: k < n ==> !Stops(answers, cancelled, k)
  {
    if n: nat :| n <= row.retries && answers[n] == Ok && forall k: nat :: k < n ==> !Stops(answers, cancelled, k) {
      assert n < made - 1 ==> !Stops(answers, cancelled, n);
    }
  }

  // --- the chain step ---

  function Row(t: ChainTarget): RunProtocol.Target {
    RunProtocol.Target(t.linkId, t.jobId, t.active, t.delaySec)
  }

  /** The rows of the chain steps, one for each target whose insert does not fail. */
  function Children(t: Table, now: int, run: nat, step: nat, targets: seq<ChainTarget>, fails: set<int>): Table {
    if targets == [] then t
    else
      var before := Children(t, now, run, step, targets[..|targets| - 1], fails);
      var last := targets[|targets| - 1];
      if last.linkId in fails then before else RunProtocol.ChildTable(before, now, run, step, Row(last))
  }

  /** Chain rows are pending or skipped, so no job gets a running row. */
  lemma {:induction false} ChildrenRunNothing(t: Table, now: int, run: nat, step: nat, targets: seq<ChainTarget>,
                                              fails: set<int>, job: int)
    requires WellFormed(t)
    ensures RunningIds(Children(t, now, run, step, targets, fails), job, NO_RUN) == RunningIds(t, job, NO_RUN)
    ensures t.next <= Children(t, now, run, step, targets, fails).next
    ensures forall id :: id in Children(t, now, run, step, targets, fails).rows ==>
              id < Children(t, now, run, step, targets, fails).next
  {
    if targets == [] {
      forall id | id in t.rows ensures id < t.next { assert Placed(t, id); }
    } else {
      ChildrenRunNothing(t, now, run, step, targets[..|targets| - 1], fails, job);
    }
  }

  lemma RunningNone(t: Table, job: int)
    ensures RunningIds(t, job, NO_RUN) == {}
            <==> forall id :: id in t.rows ==> !(t.rows[id].jobId == job && t.rows[id].status == Running)
  {
    if RunningIds(t, job, NO_RUN) == {} {
      forall id | id in t.rows ensures !(t.rows[id].jobId == job && t.rows[id].status == Running) {
        assert id !in RunningIds(t, job, NO_RUN);
      }
    }
  }

  /** The step is handed over by a timer of this process rather than left to the dispatcher. */
  predicate Direct(t: Table, step: nat, target: ChainTarget, f: Faults, open: bool) {
    && open && target.active && step < CHAIN_MAX_DEPTH && target.linkId !in f.child
    && RunProtocol.Delay(target.delaySec) <= CHAIN_DIRECT_MAX_SEC
    && (target.singleRun ==> target.linkId !in f.blocker && RunningIds(t, target.jobId, NO_RUN) == {})
  }

  function DirectLinks(t: Table, step: nat, targets: seq<ChainTarget>, f: Faults, open: bool): seq<int> {
    if targets == [] then []
    else
      var last := targets[|targets| - 1];
      DirectLinks(t, step, targets[..|targets| - 1], f, open)
      + if Direct(t, step, last, f, open) then [last.linkId] else []
  }

  /** One linked job: its row, and whether it gets a timer. */
  method ChainOne(repo: Repository, now: int, run: nat, step: nat, target: ChainTarget, f: Faults, open: bool)
    returns (direct: bool)
    requires forall id :: id in repo.rows ==> id < repo.nextId
    modifies repo`rows, repo`nextId
    ensures repo.View() == if target.linkId in f.child then old(repo.View())
                           else RunProtocol.ChildTable(old(repo.View()), now, run, step, Row(target))
    ensures direct <==> Direct(old(repo.View()), step, target, f, open)
    ensures direct <==>
              && open && target.active && step < 5 && target.delaySec <= 120 && target.linkId !in f.child
              && (target.singleRun ==>
                    && target.linkId !in f.blocker
                    && forall id :: id in old(repo.rows) ==>
                         !(old(repo.rows)[id].jobId == target.jobId && old(repo.rows)[id].status == Running))
  {
    RunningNone(repo.View(), target.jobId);
    if !target.active || step >= CHAIN_MAX_DEPTH {
      if target.linkId !in f.child { repo.DoCreateChainSkipped(target.jobId, run); }
      return false;
    }
    if target.linkId in f.child { return false; }
    ghost var t := repo.View();
    var delay := RunProtocol.Delay(target.delaySec);
    var _ := repo.DoCreateChainRun(target.jobId, now + delay, run);
    assert RunningIds(repo.View(), target.jobId, NO_RUN) == RunningIds(t, target.jobId, NO_RUN);
    if delay > CHAIN_DIRECT_MAX_SEC { return false; }
    if target.singleRun {
      if target.linkId in f.blocker { return false; }
      var n := repo.DoCountRunningForJob(target.jobId, NO_RUN);
      if n > 0 { return false; }
    }
    direct := open;
  }

  /** Queues the linked jobs. scheduled has the links whose step gets a timer; open says the timers are not closed. */
  method TriggerChain(repo: Repository, now: int, run: nat, targets: seq<ChainTarget>, f: Faults, open: bool)
    returns (scheduled: seq<int>)
    requires WellFormed(repo.View())
    modifies repo`rows, repo`nextId
    ensures if f.steps || f.list then repo.View() == old(repo.View()) && scheduled == []
            else
              var step := ChainStepCount(old(repo.View()), run);
              && repo.View() == Children(old(repo.View()), now, run, step, targets, f.child)
              && scheduled == DirectLinks(old(repo.View()), step, targets, f, open)
  {
    scheduled := [];
    ghost var t := repo.View();
    if f.steps { return; }
    var step := repo.DoChainStepCount(run);
    if f.list { return; }
    for i := 0 to |targets|
      invariant repo.View() == Children(t, now, run, step, targets[..i], f.child)
      invariant scheduled == DirectLinks(t, step, targets[..i], f, open)
    {
      assert targets[..i + 1][..i] == targets[..i];
      ChildrenRunNothing(t, now, run, step, targets[..i], f.child, targets[i].jobId);
      var direct := ChainOne(repo, now, run, step, targets[i], f, open);
      if direct { scheduled := scheduled + [targets[i].linkId]; }
    }
    assert targets[..|targets|] == targets;
  }

  // --- one call ---

  /** Which condition a finished run fires; a timeout fires none. */
  function Followed(outcome: Status, onSuccess: seq<ChainTarget>, onFailure: seq<ChainTarget>): seq<ChainTarget> {
    if outcome == Success then onSuccess else if outcome == Failed then onFailure else []
  }

  /** The row as a call alone leaves it once it has been claimed. */
  function Closed(t: Table, now: int, row: RunTarget, outcome: Status, targets: seq<ChainTarget>, f: Faults): Table {
    var claimed := ClaimRun(t, row.id, now);
    if f.finish then claimed
    else
      var finished := FinishRun(claimed, row.id, outcome);
      if outcome == Timeout || f.steps || f.list then finished
      else Children(finished, now, row.id, ChainStepCount(finished, row.id), targets, f.child)
  }

  predicate Held(t: Table, row: RunTarget) {
    row.singleRun && RunningIds(t, row.jobId, row.id) != {}
  }

  /** The table after one call with nobody else at work; found is what reading the row gives, if it is there. */
  function Alone(t: Table, now: int, found: Option<RunTarget>, outcome: Status, targets: seq<ChainTarget>,
                 f: Faults): Table
  {
    if f.read || found.None? then t
    else
      var row := found.value;
      if row.singleRun && f.count then t
      else if Held(t, row) then if f.skip then t else SkipRun(t, row.id)
      else if f.claim || !IsPending(t, row.id) then t
      else Closed(t, now, row, outcome, targets, f)
  }

  /** Whether the call gets as far as executing the row. */
  predicate Executes(t: Table, found: Option<RunTarget>, f: Faults) {
    && !f.read && found.Some? && !(found.value.singleRun && f.count) && !Held(t, found.value)
    && !f.claim && IsPending(t, found.value.id)
  }

  /** Rows that keep their parents stay in order. */
  lemma StaysWellFormed(t: Table, after: Table)
    requires WellFormed(t) && after.next == t.next && after.rows.Keys == t.rows.Keys
    requires forall id :: id in t.rows ==> after.rows[id].parent == t.rows[id].parent
    ensures WellFormed(after)
  {
    forall k | k in after.rows ensures Placed(after, k) { assert Placed(t, k); }
  }

  /** Writes the outcome, then triggers the chain; a row whose outcome cannot be written starts none. */
  method Finish(repo: Repository, now: int, row: RunTarget, outcome: Status,
                onSuccess: seq<ChainTarget>, onFailure: seq<ChainTarget>, f: Faults, open: bool)
    requires outcome == Success || outcome == Failed || outcome == Timeout
    requires WellFormed(repo.View())
    modifies repo`rows, repo`nextId
    ensures repo.View() ==
            if f.finish then old(repo.View())
            else
              var finished := FinishRun(old(repo.View()), row.id, outcome);
              if outcome == Timeout || f.steps || f.list then finished
              else Children(finished, now, row.id, ChainStepCount(finished, row.id),
                            Followed(outcome, onSuccess, onFailure), f.child)
  {
    if f.finish { return; }
    StaysWellFormed(repo.View(), FinishRun(repo.View(), row.id, outcome));
    repo.DoFinishRun(row.id, outcome);
    match outcome
    case Success => var _ := TriggerChain(repo, now, row.id, onSuccess, f, open);
    case Failed => var _ := TriggerChain(repo, now, row.id, onFailure, f, open);
    case _ =>
  }

  /** Read, check, claim, execute, close. ran says this call executed the row. */
  method Run(repo: Repository, now: int, found: Option<RunTarget>, answers: seq<Attempt>, cancelled: set<nat>,
             onSuccess: seq<ChainTarget>, onFailure: seq<ChainTarget>, f: Faults, open: bool)
    returns (ran: bool, outcome: Status)
    requires (found.Some? ==> |answers| == found.value.retries + 1) && WellFormed(repo.View())
    modifies repo`rows, repo`nextId
    ensures ran <==> Executes(old(repo.View()), found, f)
    ensures ran ==> outcome == Success || outcome == Failed || outcome == Timeout
    ensures repo.View() == Alone(old(repo.View()), now, found, outcome, Followed(outcome, onSuccess, onFailure), f)
  {
    ran, outcome := false, Failed;
    if f.read { return; }
    if found.None? { return; }
    var row := found.value;
    if row.singleRun {
      if f.count { return; }
      var running := repo.DoCountRunningForJob(row.jobId, row.id);
      if running > 0 {
        if !f.skip { repo.DoSkipRun(row.id); }
        return;
      }
    }
    if f.claim { return; }
    StaysWellFormed(repo.View(), ClaimRun(repo.View(), row.id, now));
    var claimed := repo.DoClaimRun(row.id, now);
    if !claimed { return; }
    var status, made := Execute(row, answers, cancelled);
    ran, outcome := true, status;
    Finish(repo, now, row, outcome, onSuccess, onFailure, f, open);
  }
}
