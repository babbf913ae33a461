/**
Chains end. Whatever the link graph, cycles included, a chain step is opened
pending at depth five at most, the bounded upward walk measures the true depth
in every reachable state, and one run causes at most d + d^2 + ... + d^5
further executions when no job ever has more than d active links.
*/
module ChainBounds {
  import opened Common
  import opened Domain
  import opened ExecRepo
  import opened RunProtocol
  import opened RunSafety

  // --- depth ---

  ghost predicate KeepsParents(t: Table, t': Table) {
    forall id :: id in t.rows ==> id in t'.rows && t'.rows[id].parent == t.rows[id].parent
  }

  lemma {:induction false} DepthStable(t: Table, t': Table, id: nat)
    requires WellFormed(t) && WellFormed(t') && KeepsParents(t, t')
    requires id in t.rows
    ensures Depth(t', id) == Depth(t, id)
    decreases id
  {
    assert Placed(t, id);
    if t.rows[id].parent.Some? {
      DepthStable(t, t', t.rows[id].parent.value);
    }
  }

  ghost predicate RowDepth(t: Table, id: nat)
    requires WellFormed(t) && id in t.rows
  {
    && Depth(t, id) <= CHAIN_MAX_DEPTH + 1
    && (t.rows[id].status != Skipped ==> Depth(t, id) <= CHAIN_MAX_DEPTH)
  }

  ghost predicate CallDepth(t: Table, c: Call)
    requires WellFormed(t) && c.run in t.rows
  {
    c.Counted? || c.Listed? ==> c.step == Depth(t, c.run)
  }

  ghost predicate DepthInv(s: State)
    requires Inv(s)
  {
    && (forall id :: id in s.table.rows ==> RowDepth(s.table, id))
    && (forall c :: c in s.calls ==> CallFits(s.table, s.calls[c]) && CallDepth(s.table, s.calls[c]))
  }

  lemma StepKeepsParents(s: State, e: Event)
    requires Inv(s) && Enabled(s, e)
    ensures KeepsParents(s.table, Apply(s, e).table)
  {
    forall id | id in s.table.rows
      ensures id in Apply(s, e).table.rows && Apply(s, e).table.rows[id].parent == s.table.rows[id].parent
    {
      StepOnRow(s, e, id);
    }
  }

  /** A row a step inserts sits at most one below a run that was executed. */
  lemma NewRowDepth(s: State, e: Event, id: nat)
    requires Inv(s) && Enabled(s, e) && DepthInv(s) && Inv(Apply(s, e))
    requires id !in s.table.rows && id in Apply(s, e).table.rows
    ensures RowDepth(Apply(s, e).table, id)
  {
    var t' := Apply(s, e).table;
    if t'.rows[id].parent.Some? {
      InsertsChild(s, e, id);
      var call := s.calls[e.call];
      assert CallFits(s.table, call) && CallDepth(s.table, call) && RowDepth(s.table, call.run);
      StepKeepsParents(s, e);
      DepthStable(s.table, t', call.run);
    }
  }

  lemma DepthRows(s: State, e: Event)
    requires Inv(s) && Enabled(s, e) && DepthInv(s) && Inv(Apply(s, e))
    ensures forall id :: id in Apply(s, e).table.rows ==> RowDepth(Apply(s, e).table, id)
  {
    var t' := Apply(s, e).table;
    StepKeepsParents(s, e);
    forall id | id in t'.rows ensures RowDepth(t', id) {
      if id in s.table.rows {
        StepOnRow(s, e, id);
        DepthStable(s.table, t', id);
        assert RowDepth(s.table, id);
      } else {
        NewRowDepth(s, e, id);
      }
    }
  }

  lemma DepthCalls(s: State, e: Event, c: nat)
    requires Inv(s) && Enabled(s, e) && DepthInv(s) && Inv(Apply(s, e))
    requires c in Apply(s, e).calls
    ensures CallFits(Apply(s, e).table, Apply(s, e).calls[c]) && CallDepth(Apply(s, e).table, Apply(s, e).calls[c])
  {
    var s' := Apply(s, e);
    assert CallFits(s'.table, s'.calls[c]);
    if Owns(s'.calls[c]) {
      CallAfter(s, e, c);
      var call := s.calls[c];
      assert CallFits(s.table, call) && CallDepth(s.table, call) && RowDepth(s.table, call.run);
      StepKeepsParents(s, e);
      DepthStable(s.table, s'.table, call.run);
      WalkIsDepth(s.table, call.run, 0);
    }
  }

  lemma {:induction false} DepthAlways(tr: seq<State>, ev: seq<Event>, i: nat)
    requires Behaviour(tr, ev)
    requires i < |tr|
    ensures Inv(tr[i]) && DepthInv(tr[i])
  {
    InvAlways(tr, ev, i);
    if i > 0 {
      DepthAlways(tr, ev, i - 1);
      assert StepAt(tr, ev, i - 1);
      DepthRows(tr[i - 1], ev[i - 1]);
      forall c | c in tr[i].calls
        ensures CallFits(tr[i].table, tr[i].calls[c]) && CallDepth(tr[i].table, tr[i].calls[c])
      {
        DepthCalls(tr[i - 1], ev[i - 1], c);
      }
    }
  }

  /**
  In every reachable state: at most five ancestors unless skipped, at most six
  in any case, and the walk cut at fifty computes the true depth.
  */
  lemma DepthBounded(tr: seq<State>, ev: seq<Event>, i: nat, id: nat)
    requires Behaviour(tr, ev)
    requires i < |tr| && id in tr[i].table.rows
    ensures WellFormed(tr[i].table)
    ensures Depth(tr[i].table, id) <= CHAIN_MAX_DEPTH + 1
    ensures tr[i].table.rows[id].status != Skipped ==> Depth(tr[i].table, id) <= CHAIN_MAX_DEPTH
    ensures ChainStepCount(tr[i].table, id) == Depth(tr[i].table, id)
  {
    DepthAlways(tr, ev, i);
    assert RowDepth(tr[i].table, id);
    WalkIsDepth(tr[i].table, id, 0);
  }

  lemma {:induction false} DepthOverTime(tr: seq<State>, ev: seq<Event>, i: nat, j: nat, id: nat)
    requires Behaviour(tr, ev)
    requires i <= j < |tr| && id in tr[i].table.rows
    ensures WellFormed(tr[i].table) && WellFormed(tr[j].table) && id in tr[j].table.rows
    ensures Depth(tr[j].table, id) == Depth(tr[i].table, id)
  {
    InvAlways(tr, ev, i);
    InvAlways(tr, ev, j);
    forall k | k in tr[i].table.rows
      ensures k in tr[j].table.rows && tr[j].table.rows[k].parent == tr[i].table.rows[k].parent
    {
      StatusOverTime(tr, ev, i, j, k);
    }
    DepthStable(tr[i].table, tr[j].table, id);
  }

  /** A run once seen pending never has more than five ancestors, whatever becomes of it. */
  lemma OpenedPendingDepth(tr: seq<State>, ev: seq<Event>, i: nat, j: nat, id: nat)
    requires Behaviour(tr, ev)
    requires i <= j < |tr| && IsPending(tr[i].table, id)
    ensures WellFormed(tr[j].table) && id in tr[j].table.rows
    ensures Depth(tr[j].table, id) <= CHAIN_MAX_DEPTH
  {
    DepthBounded(tr, ev, i, id);
    DepthOverTime(tr, ev, i, j, id);
  }

  // --- how many children ---

  function ChildrenOf(t: Table, parent: nat): set<nat> {
    set id | id in t.rows && t.rows[id].parent == Some(parent)
  }

  function OutLinks(config: Config, jobId: int): set<int> {
    set l | l in config.links && config.links[l].source == jobId && config.links[l].active
  }

  /** No job has more than d active links leaving it, in any state. */
  ghost predicate OutDegree(tr: seq<State>, d: nat) {
    forall i, jobId :: 0 <= i < |tr| ==> |OutLinks(tr[i].config, jobId)| <= d
  }

  /** A listing names each link once, so it is no longer than the out-degree. */
  lemma {:induction false} ListingSize(config: Config, jobId: int, targets: seq<Target>, links: set<int>)
    requires forall i :: 0 <= i < |targets| ==> targets[i].linkId in links
    requires forall i, j :: 0 <= i < j < |targets| ==> targets[i].linkId != targets[j].linkId
    ensures |targets| <= |links|
    decreases |targets|
  {
    if targets != [] {
      var last := |targets| - 1;
      ListingSize(config, jobId, targets[..last], links - {targets[last].linkId});
    }
  }

  /** Children so far plus children still to come stay within d. */
  ghost predicate Budget(s: State, c: nat, d: nat)
    requires c in s.calls
  {
    var call := s.calls[c];
    && (call.Executing? || call.Finished? || call.Counted? ==> ChildrenOf(s.table, call.run) == {})
    && (call.Listed? ==> |ChildrenOf(s.table, call.run)| + |call.todo| <= d)
  }

  ghost predicate CountInv(s: State, d: nat) {
    && (forall c :: c in s.calls ==> Budget(s, c, d))
    && (forall p :: |ChildrenOf(s.table, p)| <= d)
  }

  /** Which children a step adds: none, or one under the call's own run. */
  lemma ChildrenAfter(s: State, e: Event, p: nat)
    requires Inv(s) && Enabled(s, e)
    ensures ChildrenOf(Apply(s, e).table, p) ==
            if e.Child? && s.calls[e.call].run == p then ChildrenOf(s.table, p) + {s.table.next}
            else ChildrenOf(s.table, p)
    ensures s.table.next !in ChildrenOf(s.table, p)
  {
    var t' := Apply(s, e).table;
    assert s.table.next in s.table.rows ==> Placed(s.table, s.table.next);
    forall id ensures id in ChildrenOf(t', p) <==>
                      id in ChildrenOf(s.table, p) || (e.Child? && s.calls[e.call].run == p && id == s.table.next) {
      if id in s.table.rows {
        StepOnRow(s, e, id);
      } else if id in t'.rows && t'.rows[id].parent.Some? {
        InsertsChild(s, e, id);
      }
    }
  }

  lemma NoChildrenYet(t: Table, p: nat)
    requires TableInv(t) && p in t.rows && !Ended(t.rows[p].status)
    ensures ChildrenOf(t, p) == {}
  {
    forall id | id in t.rows ensures id !in ChildrenOf(t, p) {
      assert ParentEnded(t, id);
    }
  }

  lemma BudgetStep(s: State, e: Event, c: nat, d: nat)
    requires Inv(s) && Enabled(s, e) && CountInv(s, d) && Inv(Apply(s, e))
    requires e.List? ==> |e.targets| <= d
    requires c in Apply(s, e).calls
    ensures Budget(Apply(s, e), c, d)
  {
    var s' := Apply(s, e);
    if Owns(s'.calls[c]) {
      CallAfter(s, e, c);
      var run := s.calls[c].run;
      ChildrenAfter(s, e, run);
      assert Budget(s, c, d);
      if s.calls[c].Checked? {
        NoChildrenYet(s.table, run);
      } else if e.Child? && s.calls[e.call].run == run {
        assert e.call == c;
      }
    }
  }

  lemma CountStep(s: State, e: Event, d: nat)
    requires Inv(s) && Enabled(s, e) && CountInv(s, d) && Inv(Apply(s, e))
    requires e.List? ==> |e.targets| <= d
    ensures CountInv(Apply(s, e), d)
  {
    forall c | c in Apply(s, e).calls ensures Budget(Apply(s, e), c, d) {
      BudgetStep(s, e, c, d);
    }
    forall p ensures |ChildrenOf(Apply(s, e).table, p)| <= d {
      ChildrenAfter(s, e, p);
      if e.Child? { assert Budget(s, e.call, d); }
    }
  }

  lemma {:induction false} CountAlways(tr: seq<State>, ev: seq<Event>, i: nat, d: nat)
    requires Behaviour(tr, ev) && OutDegree(tr, d)
    requires i < |tr|
    ensures CountInv(tr[i], d)
  {
    if i == 0 {
      forall p ensures ChildrenOf(tr[0].table, p) == {} {}
    } else {
      CountAlways(tr, ev, i - 1, d);
      assert StepAt(tr, ev, i - 1);
      InvAlways(tr, ev, i - 1);
      InvAlways(tr, ev, i);
      var s, e := tr[i - 1], ev[i - 1];
      if e.List? {
        var jobId := s.table.rows[s.calls[e.call].run].jobId;
        ListingSize(s.config, jobId, e.targets, OutLinks(s.config, jobId));
      }
      CountStep(s, e, d);
    }
  }

  // --- how many descendants ---

  /** The rows exactly k steps below root. */
  function Level(t: Table, root: nat, k: nat): set<nat> {
    if k == 0 then {root} else NextLevel(t, Level(t, root, k - 1))
  }

  function NextLevel(t: Table, above: set<nat>): set<nat> {
    set id | id in t.rows && t.rows[id].parent.Some? && t.rows[id].parent.value in above
  }

  function Power(d: nat, k: nat): nat {
    if k == 0 then 1 else d * Power(d, k - 1)
  }

  lemma {:induction false} NextLevelSize(t: Table, above: set<nat>, d: nat)
    requires forall p :: |ChildrenOf(t, p)| <= d
    ensures |NextLevel(t, above)| <= d * |above|
    decreases above
  {
    if above == {} {
      assert NextLevel(t, above) == {};
    } else {
      var p :| p in above;
      NextLevelSize(t, above - {p}, d);
      assert NextLevel(t, above) == NextLevel(t, above - {p}) + ChildrenOf(t, p);
      assert |above| == |above - {p}| + 1;
      assert d * |above| == d * |above - {p}| + d;
    }
  }

  lemma {:induction false} LevelSize(t: Table, root: nat, k: nat, d: nat)
    requires forall p :: |ChildrenOf(t, p)| <= d
    ensures |Level(t, root, k)| <= Power(d, k)
  {
    if k > 0 {
      LevelSize(t, root, k - 1, d);
      NextLevelSize(t, Level(t, root, k - 1), d);
      MulMonotone(d, |Level(t, root, k - 1)|, Power(d, k - 1));
    }
  }

  lemma MulMonotone(d: nat, a: nat, b: nat)
    requires a <= b
    ensures d * a <= d * b
  {
  }

  lemma {:induction false} LevelDepth(t: Table, root: nat, k: nat, id: nat)
    requires WellFormed(t) && root in t.rows && id in Level(t, root, k)
    ensures id in t.rows && Depth(t, id) == Depth(t, root) + k
  {
    if k > 0 {
      LevelDepth(t, root, k - 1, t.rows[id].parent.value);
    }
  }

  /** The rows one to five steps below root. */
  function Below(t: Table, root: nat): set<nat> {
    Level(t, root, 1) + Level(t, root, 2) + Level(t, root, 3) + Level(t, root, 4) + Level(t, root, 5)
  }

  lemma BelowSize(t: Table, root: nat, d: nat)
    requires forall p :: |ChildrenOf(t, p)| <= d
    ensures |Below(t, root)| <= Power(d, 1) + Power(d, 2) + Power(d, 3) + Power(d, 4) + Power(d, 5)
  {
    var a := Level(t, root, 1);
    var b := a + Level(t, root, 2);
    var c := b + Level(t, root, 3);
    var e := c + Level(t, root, 4);
    LevelSize(t, root, 1, d);
    LevelSize(t, root, 2, d);
    LevelSize(t, root, 3, d);
    LevelSize(t, root, 4, d);
    LevelSize(t, root, 5, d);
  }

  /** id descends from root through any number of parents. */
  ghost predicate Descends(t: Table, id: nat, root: nat)
    requires WellFormed(t) && id in t.rows
    decreases id
  {
    assert Placed(t, id);
    && t.rows[id].parent.Some?
    && (t.rows[id].parent.value == root || Descends(t, t.rows[id].parent.value, root))
  }

  lemma {:induction false} DescendsLevel(t: Table, id: nat, root: nat) returns (k: nat)
    requires WellFormed(t) && id in t.rows && Descends(t, id, root)
    ensures k >= 1 && id in Level(t, root, k)
    decreases id
  {
    assert Placed(t, id);
    var p := t.rows[id].parent.value;
    if p == root {
      k := 1;
      assert p in Level(t, root, 0);
    } else {
      var j := DescendsLevel(t, p, root);
      k := j + 1;
    }
  }

  /** The steps of a behaviour that start executing some descendant of root. */
  ghost function ExecutionsBelow(tr: seq<State>, ev: seq<Event>, root: nat): set<nat>
    requires Behaviour(tr, ev) && WellFormed(tr[|ev|].table)
  {
    set i: nat | i < |ev| && ExecutesBelow(tr, ev, root, i)
  }

  ghost predicate ExecutesBelow(tr: seq<State>, ev: seq<Event>, root: nat, i: nat)
    requires Behaviour(tr, ev) && WellFormed(tr[|ev|].table)
  {
    && i < |ev| && ev[i].Claim? && ev[i].call in tr[i].calls
    && Takes(tr[i], ev[i], tr[i].calls[ev[i].call].run)
    && tr[i].calls[ev[i].call].run in tr[|ev|].table.rows
    && Descends(tr[|ev|].table, tr[i].calls[ev[i].call].run, root)
  }

  /**
  Every chain ends: over a whole behaviour, however long and whatever the link
  graph did meanwhile, the executions caused by one run number at most
  d + d^2 + d^3 + d^4 + d^5.
  */
  lemma ChainsEnd(tr: seq<State>, ev: seq<Event>, root: nat, d: nat)
    requires Behaviour(tr, ev) && OutDegree(tr, d)
    requires root in tr[|ev|].table.rows
    ensures WellFormed(tr[|ev|].table)
    ensures |ExecutionsBelow(tr, ev, root)| <= Power(d, 1) + Power(d, 2) + Power(d, 3) + Power(d, 4) + Power(d, 5)
  {
    InvAlways(tr, ev, |ev|);
    var t := tr[|ev|].table;
    var runs := ExecutionsBelow(tr, ev, root);
    var runOf := (i: nat) =>
      if i < |ev| && i < |tr| && ev[i].Claim? && ev[i].call in tr[i].calls then tr[i].calls[ev[i].call].run else 0;
    forall i | i in runs ensures runOf(i) in Below(t, root) {
      ExecutedIsBelow(tr, ev, root, i);
    }
    forall i, j | i in runs && j in runs && runOf(i) == runOf(j) ensures i == j {
      ClaimedAtMostOnce(tr, ev, i, j, runOf(i));
    }
    InjectionSize(runs, runOf, Below(t, root));
    CountAlways(tr, ev, |ev|, d);
    BelowSize(t, root, d);
  }

  lemma ExecutedIsBelow(tr: seq<State>, ev: seq<Event>, root: nat, i: nat)
    requires Behaviour(tr, ev) && WellFormed(tr[|ev|].table)
    requires root in tr[|ev|].table.rows
    requires ExecutesBelow(tr, ev, root, i)
    ensures tr[i].calls[ev[i].call].run in Below(tr[|ev|].table, root)
  {
    var t, id := tr[|ev|].table, tr[i].calls[ev[i].call].run;
    var k := DescendsLevel(t, id, root);
    LevelDepth(t, root, k, id);
    OpenedPendingDepth(tr, ev, i, |ev|, id);
    assert k == 1 || k == 2 || k == 3 || k == 4 || k == 5;
  }
}
