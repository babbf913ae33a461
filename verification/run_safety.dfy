/**
Safety of the run protocol over whole behaviours: one execution per row, one
row per job and minute, which status changes can ever be seen, and where a
child row comes from.
*/
module RunSafety {
  import opened Common
  import opened ExecRepo
  import opened RunProtocol

  /** The statuses one row may show one after the other. */
  predicate MayBecome(a: Status, b: Status) {
    || a == b
    || (a == Pending && (b == Running || b == Skipped))
    || (a == Running && (b == Success || b == Failed || b == Timeout))
    || (a == Timeout && (b == Success || b == Failed))
  }

  /** Any number of such changes. */
  predicate MayFollow(a: Status, b: Status) {
    || a == b
    || a == Pending
    || (a == Running && b != Pending && b != Skipped)
    || (a == Timeout && (b == Success || b == Failed))
  }

  /** Everything but status and start time is written once, at insertion. */
  predicate SameRow(a: Row, b: Row) {
    b == a.(status := b.status, startedAt := b.startedAt)
  }

  /** The event is this row's own runner writing its outcome. */
  ghost predicate OwnFinish(s: State, e: Event, id: nat) {
    e.Finish? && e.call in s.calls && s.calls[e.call] == Executing(id)
  }

  /** The event is a claim that takes this row. */
  ghost predicate Takes(s: State, e: Event, id: nat) {
    e.Claim? && e.call in s.calls && s.calls[e.call] == Checked(id) && IsPending(s.table, id)
  }

  /** One step on one row: what may change, and which event can change it. */
  lemma StepOnRow(s: State, e: Event, id: nat)
    requires Inv(s) && Enabled(s, e) && id in s.table.rows
    ensures id in Apply(s, e).table.rows
    ensures SameRow(s.table.rows[id], Apply(s, e).table.rows[id])
    ensures MayBecome(s.table.rows[id].status, Apply(s, e).table.rows[id].status)
    ensures s.table.rows[id].status != Apply(s, e).table.rows[id].status ==>
              match Apply(s, e).table.rows[id].status
              case Pending => false
              case Running => Takes(s, e, id)
              case Skipped => e == DispatcherSkip(id) || (e.SkipSelf? && s.calls[e.call] == Blocked(id))
              case Timeout =>
                || OwnFinish(s, e, id)
                || (e == Sweep && Stuck(s.table.rows[id], MaxDurations(s.config), s.now))
              case _ => OwnFinish(s, e, id)
    ensures OwnFinish(s, e, id) ==> Apply(s, e).table.rows[id].status == e.outcome
    ensures Takes(s, e, id) ==> Apply(s, e).table.rows[id].status == Running
  {
    assert Placed(s.table, id);
  }

  /** Between any two moments a row keeps its identity and only moves forward. */
  lemma {:induction false} StatusOverTime(tr: seq<State>, ev: seq<Event>, i: nat, j: nat, id: nat)
    requires Behaviour(tr, ev)
    requires i <= j < |tr|
    requires id in tr[i].table.rows
    ensures id in tr[j].table.rows
    ensures SameRow(tr[i].table.rows[id], tr[j].table.rows[id])
    ensures MayFollow(tr[i].table.rows[id].status, tr[j].table.rows[id].status)
  {
    if i < j {
      StatusOverTime(tr, ev, i, j - 1, id);
      InvAlways(tr, ev, j - 1);
      assert StepAt(tr, ev, j - 1);
      StepOnRow(tr[j - 1], ev[j - 1], id);
    }
  }

  /** One execution per row: no behaviour takes the same row twice. */
  lemma ClaimedAtMostOnce(tr: seq<State>, ev: seq<Event>, i: nat, j: nat, id: nat)
    requires Behaviour(tr, ev)
    requires i < |ev| && j < |ev|
    requires Takes(tr[i], ev[i], id) && Takes(tr[j], ev[j], id)
    ensures i == j
  {
    if i != j {
      var a, b := if i < j then i else j, if i < j then j else i;
      InvAlways(tr, ev, a);
      assert StepAt(tr, ev, a);
      StepOnRow(tr[a], ev[a], id);
      StatusOverTime(tr, ev, a + 1, b, id);
      assert false;
    }
  }

  /** One row per job and minute, whatever raced to open it. */
  lemma OneRowPerJobAndMinute(tr: seq<State>, ev: seq<Event>, i: nat, a: nat, b: nat)
    requires Behaviour(tr, ev)
    requires i < |tr|
    requires a in tr[i].table.rows && b in tr[i].table.rows
    requires tr[i].table.rows[a].planned.Some?
    requires tr[i].table.rows[a].jobId == tr[i].table.rows[b].jobId
    requires tr[i].table.rows[a].planned == tr[i].table.rows[b].planned
    ensures a == b
  {
    InvAlways(tr, ev, i);
  }

  /** A row nobody is executing any more, closed one way or another. */
  ghost predicate Settled(s: State, id: nat) {
    && id in s.table.rows
    && s.table.rows[id].status != Pending && s.table.rows[id].status != Running
    && forall c :: c in s.calls ==> s.calls[c] != Executing(id)
  }

  lemma SettledStep(s: State, e: Event, id: nat)
    requires Inv(s) && Enabled(s, e) && Settled(s, id)
    ensures Settled(Apply(s, e), id)
    ensures Apply(s, e).table.rows[id] == s.table.rows[id]
  {
    StepOnRow(s, e, id);
    assert Placed(s.table, id);
  }

  lemma {:induction false} SettledForever(tr: seq<State>, ev: seq<Event>, i: nat, j: nat, id: nat)
    requires Behaviour(tr, ev)
    requires i <= j < |tr|
    requires Settled(tr[i], id)
    ensures Settled(tr[j], id)
    ensures tr[j].table.rows[id] == tr[i].table.rows[id]
  {
    if i < j {
      SettledForever(tr, ev, i, j - 1, id);
      InvAlways(tr, ev, j - 1);
      assert StepAt(tr, ev, j - 1);
      SettledStep(tr[j - 1], ev[j - 1], id);
    }
  }

  /** What a row's own runner wrote is what every later state shows. */
  lemma OwnOutcomeIsFinal(tr: seq<State>, ev: seq<Event>, i: nat, j: nat, id: nat)
    requires Behaviour(tr, ev)
    requires i < |ev| && i < j < |tr|
    requires OwnFinish(tr[i], ev[i], id)
    ensures id in tr[j].table.rows && tr[j].table.rows[id].status == ev[i].outcome
  {
    InvAlways(tr, ev, i);
    assert StepAt(tr, ev, i);
    assert CallFits(tr[i].table, tr[i].calls[ev[i].call]);
    StepOnRow(tr[i], ev[i], id);
    SettledForever(tr, ev, i + 1, j, id);
  }

  /** A skipped row stays skipped. */
  lemma SkippedIsFinal(tr: seq<State>, ev: seq<Event>, i: nat, j: nat, id: nat)
    requires Behaviour(tr, ev)
    requires i <= j < |tr|
    requires id in tr[i].table.rows && tr[i].table.rows[id].status == Skipped
    ensures id in tr[j].table.rows && tr[j].table.rows[id] == tr[i].table.rows[id]
  {
    InvAlways(tr, ev, i);
    forall c | c in tr[i].calls ensures tr[i].calls[c] != Executing(id) {
      assert CallFits(tr[i].table, tr[i].calls[c]);
    }
    SettledForever(tr, ev, i, j, id);
  }

  /** How one call that owns a row got to where a step leaves it. */
  lemma CallAfter(s: State, e: Event, c: nat)
    requires Enabled(s, e) && c in Apply(s, e).calls && Owns(Apply(s, e).calls[c])
    ensures c in s.calls && s.calls[c].run == Apply(s, e).calls[c].run
    ensures var call, call' := s.calls[c], Apply(s, e).calls[c];
            || call' == call
            || (e == Claim(c) && call.Checked? && call'.Executing?)
            || (e == Finish(c, call'.outcome) && call.Executing? && call'.Finished?)
            || (e == Count(c) && call.Finished? && call'.Counted? && call'.step == ChainStepCount(s.table, call.run))
            || (e.List? && e.call == c && call.Counted? && call'.Listed?
                && call'.step == call.step && call'.todo == e.targets)
            || ((e == Child(c) || e == ChildLost(c)) && call.Listed? && call.todo != []
                && call' == call.(todo := call.todo[1..]))
  {
  }

  /** A call that owns a row took it with its own earlier claim. */
  lemma {:induction false} OwnerClaimed(tr: seq<State>, ev: seq<Event>, i: nat, c: nat) returns (k: nat)
    requires Behaviour(tr, ev)
    requires i < |tr| && c in tr[i].calls && Owns(tr[i].calls[c])
    ensures k < i && ev[k] == Claim(c) && Takes(tr[k], ev[k], tr[i].calls[c].run)
  {
    assert i > 0 && StepAt(tr, ev, i - 1);
    CallAfter(tr[i - 1], ev[i - 1], c);
    if Owns(tr[i - 1].calls[c]) {
      k := OwnerClaimed(tr, ev, i - 1, c);
    } else {
      k := i - 1;
    }
  }

  lemma SweptStep(s: State, e: Event, c: nat)
    requires Inv(s) && Enabled(s, e)
    requires c in Apply(s, e).calls && Apply(s, e).calls[c].Executing?
    requires Apply(s, e).calls[c].run in Apply(s, e).table.rows
    requires Apply(s, e).table.rows[Apply(s, e).calls[c].run].status == Timeout
    ensures c in s.calls && s.calls[c] == Apply(s, e).calls[c] && s.calls[c].run in s.table.rows
    ensures s.table.rows[s.calls[c].run].status == Timeout ||
            (e == Sweep && Stuck(s.table.rows[s.calls[c].run], MaxDurations(s.config), s.now))
  {
    CallAfter(s, e, c);
    assert CallFits(s.table, s.calls[c]);
    StepOnRow(s, e, s.calls[c].run);
  }

  /** A row that reads timeout while its runner is alive was closed by a sweep. */
  lemma {:induction false} SweptWhileExecuting(tr: seq<State>, ev: seq<Event>, i: nat, c: nat) returns (k: nat)
    requires Behaviour(tr, ev)
    requires i < |tr| && c in tr[i].calls && tr[i].calls[c].Executing?
    requires tr[i].calls[c].run in tr[i].table.rows
    requires tr[i].table.rows[tr[i].calls[c].run].status == Timeout
    ensures k < i && ev[k] == Sweep
    ensures tr[i].calls[c].run in tr[k].table.rows
    ensures Stuck(tr[k].table.rows[tr[i].calls[c].run], MaxDurations(tr[k].config), tr[k].now)
  {
    assert i > 0 && StepAt(tr, ev, i - 1);
    InvAlways(tr, ev, i - 1);
    var s, e, id := tr[i - 1], ev[i - 1], tr[i].calls[c].run;
    SweptStep(s, e, c);
    if s.table.rows[id].status == Timeout {
      k := SweptWhileExecuting(tr, ev, i - 1, c);
    } else {
      k := i - 1;
    }
  }

  /**
  The only thing that ever happens to a closed row: its own runner, which had
  claimed it, writes the real outcome over the timeout of a sweep.
  */
  lemma OnlyTheRunnerReopens(tr: seq<State>, ev: seq<Event>, i: nat, id: nat) returns (claim: nat, sweep: nat)
    requires Behaviour(tr, ev)
    requires i < |ev| && id in tr[i].table.rows
    requires tr[i].table.rows[id].status != Pending && tr[i].table.rows[id].status != Running
    requires id in tr[i + 1].table.rows && tr[i + 1].table.rows[id] != tr[i].table.rows[id]
    ensures tr[i].table.rows[id].status == Timeout
    ensures OwnFinish(tr[i], ev[i], id)
    ensures tr[i + 1].table.rows[id].status == ev[i].outcome && Ended(ev[i].outcome)
    ensures claim < i && ev[claim] == Claim(ev[i].call) && Takes(tr[claim], ev[claim], id)
    ensures sweep < i && ev[sweep] == Sweep && id in tr[sweep].table.rows
    ensures Stuck(tr[sweep].table.rows[id], MaxDurations(tr[sweep].config), tr[sweep].now)
  {
    InvAlways(tr, ev, i);
    assert StepAt(tr, ev, i);
    if Settled(tr[i], id) {
      SettledStep(tr[i], ev[i], id);
      assert false;
    }
    StepOnRow(tr[i], ev[i], id);
    var c :| c in tr[i].calls && tr[i].calls[c] == Executing(id);
    assert CallFits(tr[i].table, tr[i].calls[c]);
    claim := OwnerClaimed(tr, ev, i, ev[i].call);
    sweep := SweptWhileExecuting(tr, ev, i, c);
  }

  // --- where a child comes from ---

  /** At step k a finished run of parent, ended with outcome, listed this target. */
  ghost predicate ListedAt(tr: seq<State>, ev: seq<Event>, k: nat, parent: nat, outcome: Status, target: Target)
    requires Behaviour(tr, ev)
  {
    && k < |ev|
    && ev[k].List? && ev[k].call in tr[k].calls
    && tr[k].calls[ev[k].call].Counted?
    && tr[k].calls[ev[k].call].run == parent && tr[k].calls[ev[k].call].outcome == outcome
    && parent in tr[k].table.rows && tr[k].table.rows[parent].status == outcome && Ended(outcome)
    && target in ev[k].targets
    && Fires(tr[k].config, target.linkId, tr[k].table.rows[parent].jobId, outcome)
    && target == TargetOf(tr[k].config, target.linkId)
  }

  /** Every target still to be handled was listed by this call earlier. */
  lemma {:induction false} ListingOf(tr: seq<State>, ev: seq<Event>, i: nat, c: nat, n: nat) returns (k: nat)
    requires Behaviour(tr, ev)
    requires i < |tr| && c in tr[i].calls && tr[i].calls[c].Listed? && n < |tr[i].calls[c].todo|
    ensures k < i && ListedAt(tr, ev, k, tr[i].calls[c].run, tr[i].calls[c].outcome, tr[i].calls[c].todo[n])
  {
    assert i > 0 && StepAt(tr, ev, i - 1);
    var s, e := tr[i - 1], ev[i - 1];
    InvAlways(tr, ev, i - 1);
    CallAfter(s, e, c);
    if e == Child(c) || e == ChildLost(c) {
      k := ListingOf(tr, ev, i - 1, c, n + 1);
    } else if e.List? && e.call == c {
      assert CallFits(s.table, s.calls[c]);
      k := i - 1;
    } else {
      k := ListingOf(tr, ev, i - 1, c, n);
    }
  }

  /** A call past its finish wrote that very outcome itself. */
  lemma {:induction false} FinishOf(tr: seq<State>, ev: seq<Event>, i: nat, c: nat) returns (f: nat)
    requires Behaviour(tr, ev)
    requires i < |tr| && c in tr[i].calls
    requires tr[i].calls[c].Finished? || tr[i].calls[c].Counted? || tr[i].calls[c].Listed?
    ensures f < i && ev[f] == Finish(c, tr[i].calls[c].outcome) && OwnFinish(tr[f], ev[f], tr[i].calls[c].run)
  {
    assert i > 0 && StepAt(tr, ev, i - 1);
    CallAfter(tr[i - 1], ev[i - 1], c);
    if tr[i - 1].calls[c].Executing? {
      f := i - 1;
    } else {
      f := FinishOf(tr, ev, i - 1, c);
    }
  }

  /** Only a chain step inserts a row with a parent: the run it continues. */
  lemma InsertsChild(s: State, e: Event, id: nat)
    requires Enabled(s, e)
    requires id !in s.table.rows && id in Apply(s, e).table.rows
    requires Apply(s, e).table.rows[id].parent.Some?
    ensures e.Child? && id == s.table.next
    ensures Apply(s, e).table.rows[id].parent == Some(s.calls[e.call].run)
    ensures Apply(s, e).table.rows[id].jobId == s.calls[e.call].todo[0].jobId
  {
  }

  /** The step that inserted a row which has a parent. */
  lemma {:induction false} BornAt(tr: seq<State>, ev: seq<Event>, i: nat, id: nat) returns (b: nat)
    requires Behaviour(tr, ev)
    requires i < |tr| && id in tr[i].table.rows && tr[i].table.rows[id].parent.Some?
    ensures b < i && id !in tr[b].table.rows && id in tr[b + 1].table.rows && ev[b].Child?
    ensures ev[b].call in tr[b].calls && tr[b].calls[ev[b].call].Listed? && tr[b].calls[ev[b].call].todo != []
    ensures tr[b].calls[ev[b].call].run == tr[i].table.rows[id].parent.value
    ensures tr[b].calls[ev[b].call].todo[0].jobId == tr[i].table.rows[id].jobId
  {
    assert i > 0 && StepAt(tr, ev, i - 1);
    var s, e := tr[i - 1], ev[i - 1];
    InvAlways(tr, ev, i - 1);
    if id in s.table.rows {
      StepOnRow(s, e, id);
      b := BornAt(tr, ev, i - 1, id);
    } else {
      InsertsChild(s, e, id);
      b := i - 1;
    }
  }

  /** What the link that fired says: its condition against the outcome, the jobs it joins, and its delay. */
  lemma ListedLink(tr: seq<State>, ev: seq<Event>, k: nat, parent: nat, outcome: Status, target: Target)
    requires Behaviour(tr, ev) && ListedAt(tr, ev, k, parent, outcome, target)
    ensures var config := tr[k].config;
            && target.linkId in config.links
            && var link := config.links[target.linkId];
               && link.active && link.source == tr[k].table.rows[parent].jobId
               && link.target == target.jobId && link.delay == target.delaySec
               && link.target in config.jobs && config.jobs[link.target].live
               && target.active == config.jobs[link.target].active
               && (|| link.condition == "always"
                   || (link.condition == "success" && outcome == Success)
                   || (link.condition == "failure" && outcome == Failed))
  {
  }

  /**
  Every child row, in every reachable state: its parent's own runner wrote
  success or failed (step finish), then listed its job's links (step listing),
  and only then was the child inserted (step born). The link it came from was
  active and led from the parent's job to the child's, which was not deleted;
  its condition was always, or success after a success, or failure after a
  failure. The parent still shows that outcome.
  */
  lemma ChildOrigin(tr: seq<State>, ev: seq<Event>, i: nat, id: nat)
    returns (finish: nat, listing: nat, born: nat, target: Target)
    requires Behaviour(tr, ev)
    requires i < |tr| && id in tr[i].table.rows && tr[i].table.rows[id].parent.Some?
    ensures finish < listing < born < i
    ensures var parent := tr[i].table.rows[id].parent.value;
            && parent in tr[i].table.rows
            && Ended(tr[i].table.rows[parent].status)
            && OwnFinish(tr[finish], ev[finish], parent)
            && ev[finish].outcome == tr[i].table.rows[parent].status
            && ListedAt(tr, ev, listing, parent, tr[i].table.rows[parent].status, target)
    ensures var row, parent := tr[i].table.rows[id], tr[i].table.rows[tr[i].table.rows[id].parent.value];
            var config := tr[listing].config;
            && target.linkId in config.links
            && var link := config.links[target.linkId];
               && link.active && link.source == parent.jobId && link.target == row.jobId
               && row.jobId in config.jobs && config.jobs[row.jobId].live
               && (|| link.condition == "always"
                   || (link.condition == "success" && parent.status == Success)
                   || (link.condition == "failure" && parent.status == Failed))
    ensures id !in tr[born].table.rows && id in tr[born + 1].table.rows
  {
    born := BornAt(tr, ev, i, id);
    var c := ev[born].call;
    target := tr[born].calls[c].todo[0];
    listing := ListingOf(tr, ev, born, c, 0);
    finish := FinishOf(tr, ev, listing, ev[listing].call);
    InvAlways(tr, ev, i);
    assert ParentEnded(tr[i].table, id);
    var parent := tr[i].table.rows[id].parent.value;
    OwnOutcomeIsFinal(tr, ev, finish, i, parent);
    ListedLink(tr, ev, listing, parent, tr[i].table.rows[parent].status, target);
    StatusOverTime(tr, ev, listing, i, parent);
  }

  /** Runs ending as timeout or skipped, and runs not ended, have no children. */
  lemma NoChildrenUnlessEnded(tr: seq<State>, ev: seq<Event>, i: nat, id: nat, parent: nat)
    requires Behaviour(tr, ev)
    requires i < |tr| && id in tr[i].table.rows && parent in tr[i].table.rows
    requires !Ended(tr[i].table.rows[parent].status)
    ensures tr[i].table.rows[id].parent != Some(parent)
  {
    InvAlways(tr, ev, i);
    assert ParentEnded(tr[i].table, id);
  }
}
