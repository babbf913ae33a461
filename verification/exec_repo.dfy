/**
The job_runs table and the statements that change it. Every statement is one
atomic step of the database; the functions give its effect on the rows and the
class performs it. Times are whole seconds on one clock, minutes are counted on
a fixed-offset civil clock.
*/
module ExecRepo {
  import opened Common

  datatype Status = Pending | Running | Success | Failed | Timeout | Skipped

  datatype Trigger = Schedule | Manual | Chain | Api

  datatype Row = Row(
    jobId: int,
    planned: Option<int>,
    runAfter: Option<int>,
    trigger: Trigger,
    parent: Option<nat>,
    status: Status,
    startedAt: Option<int>)

  /** next is the identity sequence: every id already handed out is below it. */
  datatype Table = Table(rows: map<nat, Row>, next: nat)

  const CHAIN_WALK_LIMIT: nat := 50

  /** No row has this id, as none has the 0 the code passes: here the sequence starts at 0, there at 1. */
  const NO_RUN := -1

  // --- the statements ---

  function Insert(t: Table, row: Row): Table {
    Table(t.rows[t.next := row], t.next + 1)
  }

  /** The partial unique index on (job_id, planned_minute). */
  predicate Conflicts(t: Table, jobId: int, minute: int) {
    exists id :: id in t.rows && t.rows[id].jobId == jobId && t.rows[id].planned == Some(minute)
  }

  function QueueRun(t: Table, jobId: int, minute: int): Table {
    if Conflicts(t, jobId, minute) then t
    else Insert(t, Row(jobId, Some(minute), None, Schedule, None, Pending, None))
  }

  function Enqueue(t: Table, jobId: int, trigger: Trigger): Table {
    Insert(t, Row(jobId, None, None, trigger, None, Pending, None))
  }

  predicate IsPending(t: Table, id: nat) {
    id in t.rows && t.rows[id].status == Pending
  }

  function SkipRun(t: Table, id: nat): Table {
    if IsPending(t, id) then t.(rows := t.rows[id := t.rows[id].(status := Skipped)]) else t
  }

  function ClaimRun(t: Table, id: nat, at: int): Table {
    if IsPending(t, id)
    then t.(rows := t.rows[id := t.rows[id].(status := Running, startedAt := Some(at))])
    else t
  }

  /** No status guard: the outcome is written over whatever the row holds. */
  function FinishRun(t: Table, id: nat, status: Status): Table {
    if id in t.rows then t.(rows := t.rows[id := t.rows[id].(status := status)]) else t
  }

  predicate Stuck(row: Row, maxDuration: map<int, int>, now: int) {
    && row.jobId in maxDuration
    && row.status == Running
    && row.startedAt.Some?
    && row.startedAt.value < now - maxDuration[row.jobId]
  }

  function CloseStuckRuns(t: Table, maxDuration: map<int, int>, now: int): Table {
    t.(rows := map id | id in t.rows ::
         if Stuck(t.rows[id], maxDuration, now) then t.rows[id].(status := Timeout) else t.rows[id])
  }

  function CreateChainRun(t: Table, jobId: int, runAfter: int, parent: nat): Table {
    Insert(t, Row(jobId, None, Some(runAfter), Chain, Some(parent), Pending, None))
  }

  function CreateChainSkipped(t: Table, jobId: int, parent: nat): Table {
    Insert(t, Row(jobId, None, None, Chain, Some(parent), Skipped, None))
  }

  predicate RunningFor(t: Table, jobId: int, exclude: int, id: nat) {
    id in t.rows && t.rows[id].jobId == jobId && t.rows[id].status == Running && id != exclude
  }

  function RunningIds(t: Table, jobId: int, exclude: int): set<nat> {
    set id | id in t.rows && RunningFor(t, jobId, exclude, id)
  }

  /**
  The recursive walk up parent_run_id, cut at fifty rows: the largest depth it
  reaches. Missing rows end the walk, so it also ends on a table whose parents
  form a cycle.
  */
  function Walk(t: Table, id: nat, depth: nat): (d: nat)
    ensures depth <= d
    ensures depth <= CHAIN_WALK_LIMIT ==> d <= CHAIN_WALK_LIMIT
    decreases CHAIN_WALK_LIMIT - depth
  {
    if depth < CHAIN_WALK_LIMIT && id in t.rows && t.rows[id].parent.Some? && t.rows[id].parent.value in t.rows
    then Walk(t, t.rows[id].parent.value, depth + 1)
    else depth
  }

  function ChainStepCount(t: Table, id: nat): nat {
    Walk(t, id, 0)
  }

  // --- what the identity sequence and the indexes keep ---

  /** A row's id came from the sequence, and its parent was inserted before it. */
  ghost predicate Placed(t: Table, id: nat)
    requires id in t.rows
  {
    && id < t.next
    && (t.rows[id].parent.Some? ==> t.rows[id].parent.value < id && t.rows[id].parent.value in t.rows)
  }

  ghost predicate WellFormed(t: Table) {
    forall id {:trigger Placed(t, id)} :: id in t.rows ==> Placed(t, id)
  }

  ghost predicate OneRowPerMinute(t: Table) {
    forall a, b :: a in t.rows && b in t.rows
      && t.rows[a].jobId == t.rows[b].jobId
      && t.rows[a].planned.Some? && t.rows[a].planned == t.rows[b].planned
      ==> a == b
  }

  /** The number of ancestors of a row. */
  ghost function Depth(t: Table, id: nat): nat
    requires WellFormed(t)
    requires id in t.rows
    decreases id
  {
    assert Placed(t, id);
    if t.rows[id].parent.None? then 0 else 1 + Depth(t, t.rows[id].parent.value)
  }

  /** The bounded walk measures the true depth, up to its own limit. */
  lemma {:induction false} WalkIsDepth(t: Table, id: nat, depth: nat)
    requires WellFormed(t)
    requires id in t.rows
    requires depth <= CHAIN_WALK_LIMIT
    ensures Walk(t, id, depth) == if depth + Depth(t, id) <= 50 then depth + Depth(t, id) else 50
    decreases CHAIN_WALK_LIMIT - depth
  {
    assert Placed(t, id);
    if depth < CHAIN_WALK_LIMIT && t.rows[id].parent.Some? {
      WalkIsDepth(t, t.rows[id].parent.value, depth + 1);
    }
  }

  /**
  Two claims of one row, in either order and by any two processes: the second
  finds nothing to take and leaves the table alone.
  */
  lemma SecondClaimLoses(t: Table, id: nat, at: int, at': int)
    requires IsPending(t, id)
    ensures !IsPending(ClaimRun(t, id, at), id)
    ensures ClaimRun(ClaimRun(t, id, at), id, at') == ClaimRun(t, id, at)
  {
  }

  /** Queueing the same minute any number of times leaves exactly one row for it. */
  lemma QueueRunTwice(t: Table, jobId: int, minute: int)
    requires WellFormed(t) && OneRowPerMinute(t)
    ensures QueueRun(QueueRun(t, jobId, minute), jobId, minute) == QueueRun(t, jobId, minute)
    ensures OneRowPerMinute(QueueRun(t, jobId, minute))
    ensures exists id :: id in QueueRun(t, jobId, minute).rows
                         && QueueRun(t, jobId, minute).rows[id].jobId == jobId
                         && QueueRun(t, jobId, minute).rows[id].planned == Some(minute)
  {
    var t' := QueueRun(t, jobId, minute);
    assert t.next in t.rows ==> Placed(t, t.next);
    if !Conflicts(t, jobId, minute) {
      assert t'.rows[t.next].jobId == jobId && t'.rows[t.next].planned == Some(minute);
    }
    assert Conflicts(t', jobId, minute);
  }

  /** The table as the repository holds it; every method is one statement. */
  class Repository {
    var rows: map<nat, Row>
    var nextId: nat

    /** When the heartbeat was last touched. */
    var pulse: Option<int>

    ghost function View(): Table
      reads this
    {
      Table(rows, nextId)
    }

    /** The schema stores a first pulse; the code also does without one. */
    constructor (pulse: Option<int>)
      ensures View() == Table(map[], 0) && this.pulse == pulse
    {
      rows, nextId, this.pulse := map[], 0, pulse;
    }

    /** The upsert of the one heartbeat row. */
    method DoTouchHeartbeat(at: int)
      modifies `pulse
      ensures pulse == Some(at)
    {
      pulse := Some(at);
    }

    method Append(row: Row) returns (id: nat)
      modifies `rows, `nextId
      ensures View() == Insert(old(View()), row) && id == old(nextId)
    {
      id := nextId;
      rows := rows[id := row];
      nextId := nextId + 1;
    }

    method DoQueueRun(jobId: int, minute: int)
      modifies `rows, `nextId
      ensures View() == QueueRun(old(View()), jobId, minute)
    {
      if !(exists id :: id in rows && rows[id].jobId == jobId && rows[id].planned == Some(minute)) {
        var _ := Append(Row(jobId, Some(minute), None, Schedule, None, Pending, None));
      }
    }

    method DoEnqueue(jobId: int, trigger: Trigger) returns (id: nat)
      modifies `rows, `nextId
      ensures View() == Enqueue(old(View()), jobId, trigger) && id == old(nextId)
    {
      id := Append(Row(jobId, None, None, trigger, None, Pending, None));
    }

    method DoSkipRun(id: nat)
      modifies `rows, `nextId
      ensures View() == SkipRun(old(View()), id)
    {
      if id in rows && rows[id].status == Pending {
        rows := rows[id := rows[id].(status := Skipped)];
      }
    }

    /** Reports whether this call is the one that took the row. */
    method DoClaimRun(id: nat, at: int) returns (claimed: bool)
      modifies `rows, `nextId
      ensures View() == ClaimRun(old(View()), id, at)
      ensures claimed <==> old(IsPending(View(), id))
    {
      claimed := id in rows && rows[id].status == Pending;
      if claimed {
        rows := rows[id := rows[id].(status := Running, startedAt := Some(at))];
      }
    }

    method DoFinishRun(id: nat, status: Status)
      modifies `rows, `nextId
      ensures View() == FinishRun(old(View()), id, status)
    {
      if id in rows {
        rows := rows[id := rows[id].(status := status)];
      }
    }

    method DoCloseStuckRuns(maxDuration: map<int, int>, now: int) returns (closed: nat)
      modifies `rows, `nextId
      ensures View() == CloseStuckRuns(old(View()), maxDuration, now)
      ensures closed == |set id | id in old(rows) && Stuck(old(rows)[id], maxDuration, now)|
      ensures forall id :: id in old(rows) ==>
                var row := old(rows)[id];
                id in rows
                && rows[id] == if && row.status == Running && row.jobId in maxDuration && row.startedAt.Some?
                                  && row.startedAt.value + maxDuration[row.jobId] < now
                               then row.(status := Timeout) else row
    {
      var stuck := set id | id in rows && Stuck(rows[id], maxDuration, now);
      closed := |stuck|;
      rows := map id | id in rows :: if id in stuck then rows[id].(status := Timeout) else rows[id];
    }

    method DoCreateChainRun(jobId: int, runAfter: int, parent: nat) returns (id: nat)
      modifies `rows, `nextId
      ensures View() == CreateChainRun(old(View()), jobId, runAfter, parent) && id == old(nextId)
    {
      id := Append(Row(jobId, None, Some(runAfter), Chain, Some(parent), Pending, None));
    }

    method DoCreateChainSkipped(jobId: int, parent: nat)
      modifies `rows, `nextId
      ensures View() == CreateChainSkipped(old(View()), jobId, parent)
    {
      var _ := Append(Row(jobId, None, None, Chain, Some(parent), Skipped, None));
    }

    /** The bounded upward walk as a loop over rows. */
    method DoChainStepCount(id: nat) returns (depth: nat)
      ensures depth == ChainStepCount(View(), id)
    {
      var at := id;
      depth := 0;
      while depth < CHAIN_WALK_LIMIT && at in rows && rows[at].parent.Some? && rows[at].parent.value in rows
        invariant depth <= CHAIN_WALK_LIMIT
        invariant Walk(View(), at, depth) == ChainStepCount(View(), id)
        decreases CHAIN_WALK_LIMIT - depth
      {
        at, depth := rows[at].parent.value, depth + 1;
      }
    }

    method DoCountRunningForJob(jobId: int, exclude: int) returns (n: nat)
      ensures n == |RunningIds(View(), jobId, exclude)|
    {
      var ids := set id | id in rows && rows[id].jobId == jobId && rows[id].status == Running && id != exclude;
      assert ids == RunningIds(View(), jobId, exclude);
      n := |ids|;
    }
  }
}
