/**
What the loop check of the links and the depth bound of the runs buy together:
while the links of all moments stay within one set without a closed walk of six
links or fewer, no chain comes back to a job it has run. Links that are free of
short cycles at every moment do not suffice when they are edited in between.
*/
module ChainLoops {
  import opened Common
  import opened Domain
  import opened ExecRepo
  import opened RunProtocol
  import opened RunSafety
  import ChainBounds
  import ChainGraph
  import ChainLinks
  import Runner
  import RunnerPath

  /** anc stands k rows above the row. */
  ghost predicate Above(t: Table, anc: nat, id: nat, k: nat)
    decreases k
  {
    if k == 0 then anc == id
    else id in t.rows && t.rows[id].parent.Some? && Above(t, anc, t.rows[id].parent.value, k - 1)
  }

  /** Whatever the configurations of the behaviour link, these links do. */
  ghost predicate LinkedWithin(tr: seq<State>, ls: Links) {
    forall i, a, b :: 0 <= i < |tr| && ChainGraph.Edge(tr[i].config.links, a, b) ==> ChainGraph.Edge(ls, a, b)
  }

  /** A row's job is linked from its parent's. */
  lemma ParentLinks(tr: seq<State>, ev: seq<Event>, i: nat, id: nat, ls: Links)
    requires Behaviour(tr, ev) && LinkedWithin(tr, ls) && i < |tr|
    requires id in tr[i].table.rows && tr[i].table.rows[id].parent.Some?
    ensures var parent := tr[i].table.rows[id].parent.value;
            parent in tr[i].table.rows
            && ChainGraph.Edge(ls, tr[i].table.rows[parent].jobId, tr[i].table.rows[id].jobId)
  {
    var finish, listing, born, target := ChildOrigin(tr, ev, i, id);
    var parent := tr[i].table.rows[id].parent.value;
    StatusOverTime(tr, ev, listing, i, parent);
    var link := tr[listing].config.links[target.linkId];
    assert ChainGraph.Edge(tr[listing].config.links, link.source, link.target);
  }

  /** The rows above a row are a walk of links down to its job. */
  lemma {:induction false} AboveIsWalk(tr: seq<State>, ev: seq<Event>, i: nat, anc: nat, id: nat, k: nat, ls: Links)
    requires Behaviour(tr, ev) && LinkedWithin(tr, ls) && i < |tr|
    requires id in tr[i].table.rows && Above(tr[i].table, anc, id, k)
    ensures anc in tr[i].table.rows
    ensures ChainGraph.Walks(ls, tr[i].table.rows[anc].jobId, tr[i].table.rows[id].jobId, k)
    decreases k
  {
    var rows := tr[i].table.rows;
    if k == 0 {
      assert ChainGraph.WalkOf(ls, [rows[id].jobId], rows[id].jobId, rows[id].jobId, 0);
    } else {
      var parent := rows[id].parent.value;
      ParentLinks(tr, ev, i, id, ls);
      AboveIsWalk(tr, ev, i, anc, parent, k - 1, ls);
      var p :| ChainGraph.WalkOf(ls, p, rows[anc].jobId, rows[parent].jobId, k - 1);
      assert ChainGraph.WalkOf(ls, p + [rows[id].jobId], rows[anc].jobId, rows[id].jobId, k);
    }
  }

  lemma {:induction false} AboveIsDepth(t: Table, anc: nat, id: nat, k: nat)
    requires WellFormed(t) && id in t.rows && Above(t, anc, id, k)
    ensures k <= Depth(t, id)
    decreases k
  {
    assert Placed(t, id);
    if k > 0 { AboveIsDepth(t, anc, t.rows[id].parent.value, k - 1); }
  }

  /** Some row has a row of its own job above it. */
  ghost predicate Returns(t: Table) {
    exists anc, id, k: nat :: k >= 1 && ReturnsAt(t, anc, id, k)
  }

  ghost predicate ReturnsAt(t: Table, anc: nat, id: nat, k: nat) {
    id in t.rows && Above(t, anc, id, k) && anc in t.rows && t.rows[anc].jobId == t.rows[id].jobId
  }

  /** In no state of the behaviour, whether the row was executed or skipped. */
  ghost predicate NeverReturns(tr: seq<State>) {
    forall i :: 0 <= i < |tr| ==> !Returns(tr[i].table)
  }

  /**
  While all links of all moments stay within a set with no closed walk of six
  links or fewer, longer cycles or not, no row, executed or skipped, has a row
  of its own job above it.
  */
  lemma NoJobComesBack(tr: seq<State>, ev: seq<Event>, ls: Links)
    requires Behaviour(tr, ev) && LinkedWithin(tr, ls) && !ChainLinks.ShortCycle(ls)
    ensures NeverReturns(tr)
  {
    forall i, anc, id, k: nat | 0 <= i < |tr| && k >= 1 ensures !ReturnsAt(tr[i].table, anc, id, k) {
      if ReturnsAt(tr[i].table, anc, id, k) {
        ChainBounds.DepthBounded(tr, ev, i, id);
        AboveIsDepth(tr[i].table, anc, id, k);
        AboveIsWalk(tr, ev, i, anc, id, k, ls);
        assert ChainLinks.ShortCycle(ls);
      }
    }
  }

  // --- events as a behaviour ---

  lemma {:induction false} FollowTwice(s: State, a: seq<Event>, b: seq<Event>)
    requires RunnerPath.Follow(s, a).Some?
    ensures RunnerPath.Follow(s, a + b) == RunnerPath.Follow(RunnerPath.Follow(s, a).value, b)
  {
    if b == [] {
      assert a + b == a;
    } else {
      assert (a + b)[..|a + b| - 1] == a + b[..|b| - 1];
      FollowTwice(s, a, b[..|b| - 1]);
    }
  }

  lemma {:induction false} FollowInv(s: State, ev: seq<Event>)
    requires Inv(s) && RunnerPath.Follow(s, ev).Some?
    ensures Inv(RunnerPath.Follow(s, ev).value)
  {
    if ev != [] {
      FollowInv(s, ev[..|ev| - 1]);
      InvStep(RunnerPath.Follow(s, ev[..|ev| - 1]).value, ev[|ev| - 1]);
    }
  }

  lemma {:induction false} Trace(s: State, ev: seq<Event>, good: Links -> bool) returns (tr: seq<State>)
    requires RunnerPath.Follow(s, ev).Some? && good(s.config.links)
    requires forall e :: e in ev && e.Configure? ==> good(e.config.links)
    ensures |tr| == |ev| + 1 && tr[0] == s && tr[|ev|] == RunnerPath.Follow(s, ev).value
    ensures forall i: nat {:trigger StepAt(tr, ev, i)} :: i < |ev| ==> StepAt(tr, ev, i)
    ensures forall i :: 0 <= i < |tr| ==> good(tr[i].config.links)
  {
    if ev == [] { return [s]; }
    var last := |ev| - 1;
    var before := Trace(s, ev[..last], good);
    tr := before + [RunnerPath.Follow(s, ev).value];
    assert ev[last] in ev;
    forall i: nat | i < |ev| ensures StepAt(tr, ev, i) {
      if i < last { assert StepAt(before, ev[..last], i); }
    }
  }

  // --- a chain that comes back ---

  /** One link, from a job to the next. */
  function OneLink(p: seq<int>, n: nat): Links
    requires n + 1 < |p|
  {
    map[0 := Link(p[n], p[n + 1], "always", 0, true)]
  }

  function Only(p: seq<int>, n: nat): Config
    requires n + 1 < |p|
  {
    var job := Job(false, 300, true, true);
    Config(map[p[n] := job, p[n + 1] := job], OneLink(p, n))
  }

  /** The links are none, or one of the walk. */
  ghost predicate OneOf(p: seq<int>, ls: Links) {
    ls == map[] || exists n: nat :: n + 1 < |p| && ls == OneLink(p, n)
  }

  ghost predicate SetsOneOf(p: seq<int>, ev: seq<Event>) {
    forall e :: e in ev && e.Configure? ==> OneOf(p, e.config.links)
  }

  function Start(): State {
    State(Table(map[], 0), map[], Config(map[], map[]), 0)
  }

  /** The chain has run down the walk to its n-th job: its last row, pending, is n below row 0. */
  ghost predicate RanTo(s: State, p: seq<int>, n: nat, id: nat)
    requires n < |p|
  {
    && s.calls == map[] && Inv(s) && 0 in s.table.rows && id in s.table.rows
    && s.table.rows[0].parent == None && s.table.rows[0].jobId == p[0]
    && Above(s.table, 0, id, n) && s.table.rows[id].jobId == p[n]
    && (n <= CHAIN_MAX_DEPTH ==> s.table.rows[id].status == Pending)
  }

  lemma {:induction false} DepthOfRoot(t: Table, id: nat, n: nat)
    requires WellFormed(t) && id in t.rows && 0 in t.rows && t.rows[0].parent == None && Above(t, 0, id, n)
    ensures Depth(t, id) == n
    decreases n
  {
    assert Placed(t, id);
    if n > 0 { DepthOfRoot(t, t.rows[id].parent.value, n - 1); }
  }

  /** Nothing that keeps the parents changes what stands above what. */
  lemma {:induction false} AboveStays(t: Table, after: Table, anc: nat, id: nat, k: nat)
    requires WellFormed(t) && id in t.rows && Above(t, anc, id, k)
    requires forall j :: j in t.rows ==> j in after.rows && after.rows[j].parent == t.rows[j].parent
    ensures Above(after, anc, id, k)
    decreases k
  {
    assert Placed(t, id);
    if k > 0 { AboveStays(t, after, anc, t.rows[id].parent.value, k - 1); }
  }

  function NoFaults(): Runner.Faults {
    Runner.Faults(false, false, false, false, false, false, false, {}, {})
  }

  /** The table once a row has run and its one linked job has its row. */
  function RanOnce(t: Table, now: int, id: nat, target: Target): Table {
    var finished := FinishRun(ClaimRun(t, id, now), id, Success);
    ChildTable(finished, now, id, ChainStepCount(finished, id), target)
  }

  lemma AloneIs(t: Table, now: int, row: Runner.RunTarget, target: Runner.ChainTarget)
    requires IsPending(t, row.id) && !row.singleRun
    ensures Runner.Alone(t, now, Some(row), Success, [target], NoFaults())
            == RanOnce(t, now, row.id, Runner.Row(target))
  {
    var finished := FinishRun(ClaimRun(t, row.id, now), row.id, Success);
    var step := ChainStepCount(finished, row.id);
    assert [target][..0] == [];
    assert Runner.Children(finished, now, row.id, step, [target], {})
           == ChildTable(finished, now, row.id, step, Runner.Row(target));
  }

  /** The listing of a job with the one link out of it. */
  lemma ListsOne(p: seq<int>, n: nat)
    requires n + 1 < |p|
    ensures IsListing(Only(p, n), p[n], Success, [Target(0, p[n + 1], true, 0)])
  {
    var targets := [Target(0, p[n + 1], true, 0)];
    assert Fires(Only(p, n), 0, p[n], Success);
    assert targets[0].linkId == 0;
  }

  /** The events of the run of the last row. */
  lemma RunLast(s: State, p: seq<int>, n: nat, id: nat) returns (ev: seq<Event>)
    requires n + 1 < |p| && n <= CHAIN_MAX_DEPTH && RanTo(s, p, n, id) && s.config == Only(p, n)
    ensures RunnerPath.KeepsConfig(ev)
    ensures RunnerPath.Follow(s, ev)
            == Some(s.(table := RanOnce(s.table, s.now, id, Target(0, p[n + 1], true, 0))))
  {
    var row := Runner.RunTarget(id, p[n], false, 0, true);
    var target := Runner.ChainTarget(0, p[n + 1], true, 0, false);
    ListsOne(p, n);
    assert RunnerPath.Rows([target]) == [Target(0, p[n + 1], true, 0)];
    ev := RunnerPath.CallIsAPath(s, 0, Some(row), Success, [target], NoFaults());
    AloneIs(s.table, s.now, row, target);
  }

  /** Its row is where it was, and ended. */
  lemma LastRan(s: State, p: seq<int>, n: nat, id: nat)
    requires n < |p| && n <= CHAIN_MAX_DEPTH && RanTo(s, p, n, id)
    ensures var finished := FinishRun(ClaimRun(s.table, id, s.now), id, Success);
            && WellFormed(finished) && finished.next == s.table.next && 0 in finished.rows && id in finished.rows
            && finished.rows[0].parent == None && finished.rows[0].jobId == p[0]
            && Above(finished, 0, id, n) && ChainStepCount(finished, id) == n
  {
    var finished := FinishRun(ClaimRun(s.table, id, s.now), id, Success);
    Runner.StaysWellFormed(s.table, finished);
    AboveStays(s.table, finished, 0, id, n);
    DepthOfRoot(finished, id, n);
    WalkIsDepth(finished, id, 0);
  }

  lemma NextRow(s: State, p: seq<int>, n: nat, id: nat)
    requires n + 1 < |p| && n <= CHAIN_MAX_DEPTH && RanTo(s, p, n, id)
    requires Inv(s.(table := RanOnce(s.table, s.now, id, Target(0, p[n + 1], true, 0))))
    ensures RanTo(s.(table := RanOnce(s.table, s.now, id, Target(0, p[n + 1], true, 0))), p, n + 1, s.table.next)
  {
    var finished := FinishRun(ClaimRun(s.table, id, s.now), id, Success);
    var t := RanOnce(s.table, s.now, id, Target(0, p[n + 1], true, 0));
    LastRan(s, p, n, id);
    forall j | j in finished.rows ensures t.rows[j] == finished.rows[j] { assert Placed(finished, j); }
    AboveStays(finished, t, 0, id, n);
  }

  /** The next link alone, and the run of the last row under it. */
  lemma RunOn(p: seq<int>, n: nat, s: State, id: nat) returns (ev: seq<Event>, after: State)
    requires n + 1 < |p| && n <= CHAIN_MAX_DEPTH && RanTo(s, p, n, id)
    ensures RunnerPath.Follow(s, ev) == Some(after) && RanTo(after, p, n + 1, s.table.next) && SetsOneOf(p, ev)
  {
    var linked := s.(config := Only(p, n));
    var first := [Configure(Only(p, n))];
    assert first[..0] == [];
    assert RunnerPath.Follow(s, first) == Some(linked);
    var more := RunLast(linked, p, n, id);
    FollowTwice(s, first, more);
    FollowInv(linked, more);
    NextRow(linked, p, n, id);
    ev, after := first + more, linked.(table := RanOnce(s.table, s.now, id, Target(0, p[n + 1], true, 0)));
    assert OneOf(p, OneLink(p, n));
  }

  /** Events that run a chain down any walk of at most six jobs more, one link at a time. */
  lemma {:induction false} RunDown(p: seq<int>, n: nat) returns (ev: seq<Event>, s: State, id: nat)
    requires n < |p| && n <= CHAIN_MAX_DEPTH + 1
    ensures RunnerPath.Follow(Start(), ev) == Some(s) && RanTo(s, p, n, id) && SetsOneOf(p, ev)
  {
    if n == 0 {
      ev, s, id := AskFirst(p);
    } else {
      var before, s0, id0 := RunDown(p, n - 1);
      var more, after := RunOn(p, n - 1, s0, id0);
      FollowTwice(Start(), before, more);
      ev, s, id := before + more, after, s0.table.next;
    }
  }

  lemma AskFirst(p: seq<int>) returns (ev: seq<Event>, s: State, id: nat)
    requires p != []
    ensures RunnerPath.Follow(Start(), ev) == Some(s) && RanTo(s, p, 0, id) && SetsOneOf(p, ev)
  {
    ev, id := [Ask(p[0], Manual)], 0;
    assert ev[..0] == [];
    s := Apply(Start(), ev[0]);
    InvStep(Start(), ev[0]);
  }

  /** Down any closed walk of at most six links a chain comes back, with no more than one link at any moment. */
  lemma ChainComesBack(p: seq<int>, k: nat) returns (tr: seq<State>, ev: seq<Event>)
    requires |p| == k + 1 && 1 <= k <= CHAIN_MAX_DEPTH + 1 && p[0] == p[k]
    ensures Behaviour(tr, ev) && !NeverReturns(tr)
    ensures forall i :: 0 <= i < |tr| ==> OneOf(p, tr[i].config.links)
  {
    var s: State, id: nat;
    ev, s, id := RunDown(p, k);
    tr := Trace(Start(), ev, (ls: Links) => OneOf(p, ls));
    assert ReturnsAt(tr[|ev|].table, 0, id, k);
  }

  /** Some behaviour with links within the set lets a chain come back if and only if the set has a short cycle. */
  lemma NoJobComesBackIff(ls: Links)
    ensures (forall tr, ev :: Behaviour(tr, ev) && LinkedWithin(tr, ls) ==> NeverReturns(tr))
            <==> !ChainLinks.ShortCycle(ls)
  {
    if ChainLinks.ShortCycle(ls) {
      var a: int, k: nat :| 1 <= k <= CHAIN_MAX_DEPTH + 1 && ChainGraph.Walks(ls, a, a, k);
      var p :| ChainGraph.WalkOf(ls, p, a, a, k);
      var tr, ev := ChainComesBack(p, k);
      WalkLinks(tr, p, a, k, ls);
    } else {
      forall tr, ev | Behaviour(tr, ev) && LinkedWithin(tr, ls) ensures NeverReturns(tr) {
        NoJobComesBack(tr, ev, ls);
      }
    }
  }

  lemma WalkLinks(tr: seq<State>, p: seq<int>, a: int, k: nat, ls: Links)
    requires ChainGraph.WalkOf(ls, p, a, a, k) && forall i :: 0 <= i < |tr| ==> OneOf(p, tr[i].config.links)
    ensures LinkedWithin(tr, ls)
  {
    forall i, x, y | 0 <= i < |tr| && ChainGraph.Edge(tr[i].config.links, x, y) ensures ChainGraph.Edge(ls, x, y) {
      assert OneOf(p, tr[i].config.links);
    }
  }

  /**
  The loop check alone does not buy that: two jobs linked one way, then the
  other. No moment's links have a closed walk of any length, and a row of job 1
  has a row of job 1 above it.
  */
  lemma EditedLinksComeBack() returns (tr: seq<State>, ev: seq<Event>)
    ensures Behaviour(tr, ev) && !NeverReturns(tr)
    ensures forall i, a, k: nat :: 0 <= i < |tr| && k >= 1 ==> !ChainGraph.Walks(tr[i].config.links, a, a, k)
  {
    tr, ev := ChainComesBack([1, 2, 1], 2);
    forall i, a, k: nat | 0 <= i < |tr| && k >= 1 ensures !ChainGraph.Walks(tr[i].config.links, a, a, k) {
      assert OneOf([1, 2, 1], tr[i].config.links);
      NoClosedWalk(tr[i].config.links, a, k);
    }
  }

  lemma FirstAndLast(ls: Links, p: seq<int>, a: int, k: nat)
    requires k >= 1 && ChainGraph.WalkOf(ls, p, a, a, k)
    ensures ChainGraph.Edge(ls, a, p[1]) && ChainGraph.Edge(ls, p[k - 1], a)
  {
    assert ChainGraph.Edge(ls, p[0], p[0 + 1]) && ChainGraph.Edge(ls, p[k - 1], p[k - 1 + 1]);
  }

  /** Links none of which begins where another ends. */
  lemma NoClosedWalk(ls: Links, a: int, k: nat)
    requires k >= 1 && forall x, y, u, v :: ChainGraph.Edge(ls, x, y) && ChainGraph.Edge(ls, u, v) ==> y != u
    ensures !ChainGraph.Walks(ls, a, a, k)
  {
    if p :| ChainGraph.WalkOf(ls, p, a, a, k) {
      FirstAndLast(ls, p, a, k);
    }
  }
}
