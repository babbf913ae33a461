/**
Which links a finished run fires, what the rows of its chain steps hold, and
that none of the targets it listed is passed over.
*/
module ChainFires {
  import opened Common
  import opened ExecRepo
  import opened RunProtocol
  import ChainBounds

  /**
  The listing of a finished run, in every behaviour: a link is in it exactly when
  it is active, leads from the run's job to one that is not deleted, and its
  condition is always, or success after a success, or failure after a failure.
  */
  lemma ListsExactly(tr: seq<State>, ev: seq<Event>, k: nat, linkId: int)
    requires Behaviour(tr, ev) && k < |ev| && ev[k].List?
    ensures ev[k].call in tr[k].calls && tr[k].calls[ev[k].call].run in tr[k].table.rows
    ensures var run := tr[k].table.rows[tr[k].calls[ev[k].call].run];
            var config := tr[k].config;
            (exists i :: 0 <= i < |ev[k].targets| && ev[k].targets[i].linkId == linkId)
            <==> && linkId in config.links
                 && var link := config.links[linkId];
                    && link.active && link.source == run.jobId
                    && link.target in config.jobs && config.jobs[link.target].live
                    && (|| link.condition == "always"
                        || (link.condition == "success" && run.status == Success)
                        || (link.condition == "failure" && run.status == Failed))
  {
    InvAlways(tr, ev, k);
    assert StepAt(tr, ev, k);
    assert CallFits(tr[k].table, tr[k].calls[ev[k].call]);
    var config, call := tr[k].config, tr[k].calls[ev[k].call];
    var job := tr[k].table.rows[call.run].jobId;
    assert IsListing(config, job, call.outcome, ev[k].targets);
    if Fires(config, linkId, job, call.outcome) {
      var i :| 0 <= i < |ev[k].targets| && ev[k].targets[i].linkId == linkId;
    }
  }

  /** The row one chain step inserts. */
  ghost predicate IsChild(row: Row, parent: nat, step: nat, now: int, target: Target) {
    && row.jobId == target.jobId && row.planned == None && row.trigger == Chain
    && row.parent == Some(parent) && row.startedAt == None
    && (if target.active && step < 5 then
          row.status == Pending
          && row.runAfter == Some(now + if target.delaySec < 0 then 0
                                        else if target.delaySec > 3600 then 3600 else target.delaySec)
        else row.status == Skipped && row.runAfter == None)
  }

  /**
  A chain step inserts one new row for the next listed target: pending and due
  after the link's delay, cut to an hour, if the target is active and the run has
  fewer than five ancestors; otherwise skipped.
  */
  lemma ChildInserted(tr: seq<State>, ev: seq<Event>, b: nat)
    requires Behaviour(tr, ev) && b < |ev| && ev[b].Child?
    ensures ev[b].call in tr[b].calls && tr[b].calls[ev[b].call].Listed? && tr[b].calls[ev[b].call].todo != []
    ensures var call, id := tr[b].calls[ev[b].call], tr[b].table.next;
            && id !in tr[b].table.rows && call.run in tr[b].table.rows && WellFormed(tr[b].table)
            && tr[b + 1].table.rows.Keys == tr[b].table.rows.Keys + {id}
            && IsChild(tr[b + 1].table.rows[id], call.run, Depth(tr[b].table, call.run), tr[b].now, call.todo[0])
            && ev[b].call in tr[b + 1].calls && tr[b + 1].calls[ev[b].call] == call.(todo := call.todo[1..])
  {
    ChainBounds.DepthAlways(tr, ev, b);
    assert StepAt(tr, ev, b);
    var s, call := tr[b], tr[b].calls[ev[b].call];
    assert CallFits(s.table, call) && ChainBounds.CallDepth(s.table, call);
    assert s.table.next in s.table.rows ==> Placed(s.table, s.table.next);
  }

  /** What is left of a listing is a tail of it, as long as the call lives. */
  lemma {:induction false} TailLeft(tr: seq<State>, ev: seq<Event>, k: nat, i: nat, c: nat)
    requires Behaviour(tr, ev) && k < i < |tr| && ev[k].List? && ev[k].call == c
    requires forall j :: k < j < i ==> ev[j] != Die(c)
    ensures c in tr[i].calls && tr[i].calls[c].Listed? && c in tr[k].calls
    ensures tr[i].calls[c].run == tr[k].calls[c].run
    ensures |tr[i].calls[c].todo| <= |ev[k].targets|
    ensures tr[i].calls[c].todo == ev[k].targets[|ev[k].targets| - |tr[i].calls[c].todo|..]
    decreases i
  {
    assert StepAt(tr, ev, i - 1);
    if k + 1 < i { TailLeft(tr, ev, k, i - 1, c); }
  }

  /** The step that dealt with the m-th target. */
  lemma {:induction false} StepFor(tr: seq<State>, ev: seq<Event>, k: nat, i: nat, c: nat, m: nat) returns (b: nat)
    requires Behaviour(tr, ev) && k < i < |tr| && ev[k].List? && ev[k].call == c
    requires forall j :: k < j < i ==> ev[j] != Die(c)
    requires c in tr[i].calls && tr[i].calls[c].Listed? && m + |tr[i].calls[c].todo| < |ev[k].targets|
    ensures k < b < i && (ev[b] == Child(c) || ev[b] == ChildLost(c))
    ensures c in tr[b].calls && tr[b].calls[c].Listed? && tr[b].calls[c].todo != []
    ensures c in tr[k].calls && tr[b].calls[c].run == tr[k].calls[c].run
    ensures tr[b].calls[c].todo[0] == ev[k].targets[m]
    decreases i
  {
    assert StepAt(tr, ev, i - 1);
    TailLeft(tr, ev, k, i, c);
    if k + 1 < i {
      TailLeft(tr, ev, k, i - 1, c);
      if m + |tr[i - 1].calls[c].todo| < |ev[k].targets| {
        b := StepFor(tr, ev, k, i - 1, c, m);
      } else {
        b := i - 1;
      }
    }
  }

  /**
  No link that fires is passed over: a call that has listed its targets, has not
  died and has none left has taken a step for it, which inserted its row or lost
  it to a failing statement.
  */
  lemma EveryTargetHandled(tr: seq<State>, ev: seq<Event>, k: nat, i: nat, c: nat, linkId: int)
    returns (b: nat, target: Target)
    requires Behaviour(tr, ev) && k < i < |tr| && ev[k].List? && ev[k].call == c
    requires forall j :: k < j < i ==> ev[j] != Die(c)
    requires c in tr[i].calls && tr[i].calls[c].Listed? && tr[i].calls[c].todo == []
    requires c in tr[k].calls && tr[k].calls[c].run in tr[k].table.rows
    requires var config, run := tr[k].config, tr[k].table.rows[tr[k].calls[c].run];
             && linkId in config.links
             && var link := config.links[linkId];
                && link.active && link.source == run.jobId
                && link.target in config.jobs && config.jobs[link.target].live
                && (|| link.condition == "always"
                    || (link.condition == "success" && run.status == Success)
                    || (link.condition == "failure" && run.status == Failed))
    ensures var link := tr[k].config.links[linkId];
            target == Target(linkId, link.target, tr[k].config.jobs[link.target].active, link.delay)
    ensures k < b < i && (ev[b] == Child(c) || ev[b] == ChildLost(c))
    ensures ev[b] == Child(c) ==>
              var id, parent := tr[b].table.next, tr[k].calls[c].run;
              && id !in tr[b].table.rows && id in tr[b + 1].table.rows
              && parent in tr[b].table.rows && WellFormed(tr[b].table)
              && IsChild(tr[b + 1].table.rows[id], parent, Depth(tr[b].table, parent), tr[b].now, target)
  {
    ListsExactly(tr, ev, k, linkId);
    var m :| 0 <= m < |ev[k].targets| && ev[k].targets[m].linkId == linkId;
    target := ev[k].targets[m];
    assert StepAt(tr, ev, k);
    assert IsListing(tr[k].config, tr[k].table.rows[tr[k].calls[c].run].jobId, tr[k].calls[c].outcome, ev[k].targets);
    b := StepFor(tr, ev, k, i, c, m);
    if ev[b] == Child(c) { ChildInserted(tr, ev, b); }
  }
}
