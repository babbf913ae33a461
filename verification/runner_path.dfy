/** A call of the runner that nobody interrupts is one path of the run protocol. */
module RunnerPath {
  import opened Common
  import opened ExecRepo
  import opened RunProtocol
  import Runner

  /** The state a sequence of events leads to, None when one of them cannot happen. */
  ghost function Follow(s: State, ev: seq<Event>): Option<State> {
    if ev == [] then Some(s)
    else
      match Follow(s, ev[..|ev| - 1])
      case None => None
      case Some(m) => if Enabled(m, ev[|ev| - 1]) then Some(Apply(m, ev[|ev| - 1])) else None
  }

  /** None of the events changes the configuration. */
  ghost predicate KeepsConfig(ev: seq<Event>) {
    forall e :: e in ev ==> !e.Configure?
  }

  function Rows(targets: seq<Runner.ChainTarget>): (r: seq<Target>)
    ensures |r| == |targets| && forall k :: 0 <= k < |targets| ==> r[k] == Runner.Row(targets[k])
  {
    if targets == [] then [] else Rows(targets[..|targets| - 1]) + [Runner.Row(targets[|targets| - 1])]
  }

  /** s with one more call standing somewhere, over a changed table. */
  function At(s: State, c: nat, table: Table, call: Call): State {
    s.(table := table, calls := s.calls[c := call])
  }

  function Gone(s: State, table: Table): State {
    s.(table := table)
  }

  /** One step of the call. */
  lemma Move(s: State, ev: seq<Event>, c: nat, table: Table, call: Call, e: Event, table2: Table, call2: Call)
    requires Follow(s, ev) == Some(At(s, c, table, call)) && Enabled(At(s, c, table, call), e)
    requires Apply(At(s, c, table, call), e)
             == At(s, c, table, call).(table := table2, calls := At(s, c, table, call).calls[c := call2])
    ensures Follow(s, ev + [e]) == Some(At(s, c, table2, call2))
  {
    assert s.calls[c := call][c := call2] == s.calls[c := call2];
  }

  /** A call that stops where it stands. */
  lemma Stop(s: State, ev: seq<Event>, c: nat, table: Table, call: Call)
    requires c !in s.calls && Follow(s, ev) == Some(At(s, c, table, call))
    ensures Follow(s, ev + [Die(c)]) == Some(Gone(s, table))
  {
    assert s.calls[c := call] - {c} == s.calls;
  }

  lemma {:induction false} ChildrenPath(s: State, before: seq<Event>, c: nat, t: Table, run: nat, outcome: Status,
                                        step: nat, targets: seq<Runner.ChainTarget>, fails: set<int>, k: nat)
    returns (ev: seq<Event>)
    requires c !in s.calls && k <= |targets| && KeepsConfig(before)
    requires Follow(s, before) == Some(At(s, c, t, Listed(run, outcome, step, Rows(targets))))
    ensures Follow(s, ev)
            == Some(At(s, c, Runner.Children(t, s.now, run, step, targets[..k], fails),
                       Listed(run, outcome, step, Rows(targets)[k..])))
    ensures KeepsConfig(ev)
  {
    if k == 0 {
      ev := before;
      assert Rows(targets)[0..] == Rows(targets);
    } else {
      var ev0 := ChildrenPath(s, before, c, t, run, outcome, step, targets, fails, k - 1);
      assert targets[..k][..k - 1] == targets[..k - 1];
      assert Rows(targets)[k - 1..][1..] == Rows(targets)[k..];
      assert Rows(targets)[k - 1..][0] == Runner.Row(targets[k - 1]);
      var table := Runner.Children(t, s.now, run, step, targets[..k - 1], fails);
      var e := if targets[k - 1].linkId in fails then ChildLost(c) else Child(c);
      ChildMove(s, ev0, c, table, run, outcome, step, Rows(targets)[k - 1..], e);
      ev := ev0 + [e];
    }
  }

  lemma ChildMove(s: State, ev: seq<Event>, c: nat, table: Table, run: nat, outcome: Status, step: nat,
                  todo: seq<Target>, e: Event)
    requires todo != [] && (e == Child(c) || e == ChildLost(c))
    requires Follow(s, ev) == Some(At(s, c, table, Listed(run, outcome, step, todo)))
    ensures Follow(s, ev + [e])
            == Some(At(s, c, if e.Child? then ChildTable(table, s.now, run, step, todo[0]) else table,
                       Listed(run, outcome, step, todo[1..])))
  {
    Move(s, ev, c, table, Listed(run, outcome, step, todo), e,
         if e.Child? then ChildTable(table, s.now, run, step, todo[0]) else table,
         Listed(run, outcome, step, todo[1..]));
  }

  /** From the written outcome to the last chain step. */
  lemma ChainPath(s: State, before: seq<Event>, c: nat, t: Table, row: Runner.RunTarget, outcome: Status,
                  targets: seq<Runner.ChainTarget>, f: Runner.Faults) returns (ev: seq<Event>)
    requires c !in s.calls && row.id in t.rows && t.rows[row.id].jobId == row.jobId && KeepsConfig(before)
    requires Follow(s, before) == Some(At(s, c, t, Finished(row.id, outcome)))
    requires IsListing(s.config, row.jobId, outcome, Rows(targets))
    ensures Follow(s, ev)
            == Some(Gone(s, if f.steps || f.list then t
                            else Runner.Children(t, s.now, row.id, ChainStepCount(t, row.id), targets, f.child)))
    ensures KeepsConfig(ev)
  {
    if f.steps {
      Stop(s, before, c, t, Finished(row.id, outcome));
      return before + [Die(c)];
    }
    var step := ChainStepCount(t, row.id);
    var counted := before + [Count(c)];
    Move(s, before, c, t, Finished(row.id, outcome), Count(c), t, Counted(row.id, outcome, step));
    if f.list {
      Stop(s, counted, c, t, Counted(row.id, outcome, step));
      return counted + [Die(c)];
    }
    var listed := counted + [List(c, Rows(targets))];
    Move(s, counted, c, t, Counted(row.id, outcome, step), List(c, Rows(targets)),
         t, Listed(row.id, outcome, step, Rows(targets)));
    var all := ChildrenPath(s, listed, c, t, row.id, outcome, step, targets, f.child, |targets|);
    assert targets[..|targets|] == targets;
    Stop(s, all, c, Runner.Children(t, s.now, row.id, step, targets, f.child),
         Listed(row.id, outcome, step, Rows(targets)[|targets|..]));
    ev := all + [Die(c)];
  }

  /** From the claim on. */
  lemma ClosePath(s: State, before: seq<Event>, c: nat, row: Runner.RunTarget, outcome: Status,
                  targets: seq<Runner.ChainTarget>, f: Runner.Faults) returns (ev: seq<Event>)
    requires c !in s.calls && IsPending(s.table, row.id) && s.table.rows[row.id].jobId == row.jobId
    requires outcome == Success || outcome == Failed || outcome == Timeout
    requires Follow(s, before) == Some(At(s, c, s.table, Checked(row.id))) && KeepsConfig(before)
    requires outcome != Timeout ==> IsListing(s.config, row.jobId, outcome, Rows(targets))
    ensures Follow(s, ev) == Some(Gone(s, Runner.Closed(s.table, s.now, row, outcome, targets, f))) && KeepsConfig(ev)
  {
    var t := ClaimRun(s.table, row.id, s.now);
    var claimed := before + [Claim(c)];
    Move(s, before, c, s.table, Checked(row.id), Claim(c), t, Executing(row.id));
    if f.finish {
      Stop(s, claimed, c, t, Executing(row.id));
      return claimed + [Die(c)];
    }
    var finished := claimed + [Finish(c, outcome)];
    var u := FinishRun(t, row.id, outcome);
    if outcome == Timeout {
      assert s.calls[c := Executing(row.id)] - {c} == s.calls;
      return finished;
    }
    Move(s, claimed, c, t, Executing(row.id), Finish(c, outcome), u, Finished(row.id, outcome));
    ev := ChainPath(s, finished, c, u, row, outcome, targets, f);
  }

  /** The start of a call, up to where it may claim. */
  lemma CheckPath(s: State, c: nat, row: Runner.RunTarget) returns (ev: seq<Event>)
    requires c !in s.calls && row.id in s.table.rows && s.table.rows[row.id].jobId == row.jobId
    requires row.jobId in s.config.jobs && s.config.jobs[row.jobId].singleRun == row.singleRun
    ensures Follow(s, ev)
            == Some(At(s, c, s.table, if Runner.Held(s.table, row) then Blocked(row.id) else Checked(row.id)))
    ensures KeepsConfig(ev)
  {
    ev := [] + [Begin(c, row.id)];
    if row.singleRun {
      Move(s, ev, c, s.table, Fetched(row.id), Check(c), s.table,
           if Runner.Held(s.table, row) then Blocked(row.id) else Checked(row.id));
      ev := ev + [Check(c)];
    }
  }

  /** What a call reads of its row and of its job. */
  ghost predicate Read(s: State, row: Runner.RunTarget) {
    && row.id in s.table.rows && s.table.rows[row.id].jobId == row.jobId
    && row.jobId in s.config.jobs && s.config.jobs[row.jobId].singleRun == row.singleRun
  }

  /** What one call does when nobody else is at work, some sequence of protocol steps does. */
  lemma CallIsAPath(s: State, c: nat, found: Option<Runner.RunTarget>, outcome: Status,
                    targets: seq<Runner.ChainTarget>, f: Runner.Faults)
    returns (ev: seq<Event>)
    requires c !in s.calls && (found.Some? ==> Read(s, found.value))
    requires outcome == Success || outcome == Failed || outcome == Timeout
    requires found.Some? && outcome != Timeout ==> IsListing(s.config, found.value.jobId, outcome, Rows(targets))
    ensures Follow(s, ev) == Some(s.(table := Runner.Alone(s.table, s.now, found, outcome, targets, f)))
    ensures KeepsConfig(ev)
  {
    if f.read || found.None? { return []; }
    var row := found.value;
    if row.singleRun && f.count { return []; }
    ev := CheckPath(s, c, row);
    if Runner.Held(s.table, row) {
      if f.skip {
        Stop(s, ev, c, s.table, Blocked(row.id));
        return ev + [Die(c)];
      }
      assert s.calls[c := Blocked(row.id)] - {c} == s.calls;
      return ev + [SkipSelf(c)];
    }
    if f.claim {
      Stop(s, ev, c, s.table, Checked(row.id));
      return ev + [Die(c)];
    }
    if !IsPending(s.table, row.id) {
      assert s.calls[c := Checked(row.id)] - {c} == s.calls;
      return ev + [Claim(c)];
    }
    ev := ClosePath(s, ev, c, row, outcome, targets, f);
  }
}
