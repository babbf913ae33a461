/**
Adding and removing chain links, and what the depth-bounded loop check buys
over every sequence of such calls.
*/
module ChainLinks {
  import opened Common
  import opened Domain
  import opened ChainGraph
  import opened ProjectScope

  /** projects gives the project of every job that is not deleted; next is the next link id. */
  datatype Graph = Graph(projects: map<int, int>, links: Links, next: int)

  datatype Outcome = Done | SelfLink | NotFound | BadCondition | BadDelay | Loop | Duplicate

  predicate Owned(g: Graph, scope: Scope, job: int) {
    job in g.projects && Allows(scope, g.projects[job])
  }

  predicate Same(l: Link, job: int, target: int, condition: string) {
    l.source == job && l.target == target && l.condition == condition
  }

  predicate SameKey(l: Link, m: Link) {
    Same(l, m.source, m.target, m.condition)
  }

  predicate IsStored(ls: Links, job: int, target: int, condition: string) {
    exists id :: id in ls && Same(ls[id], job, target, condition)
  }

  predicate ValidCondition(condition: string) {
    condition == "success" || condition == "failure" || condition == "always"
  }

  /** What adding a link answers, in the order of the checks. */
  function AddOutcome(g: Graph, scope: Scope, job: int, target: int, condition: string, delay: int): Outcome {
    if job == target then SelfLink
    else if !Owned(g, scope, job) || !Owned(g, scope, target) then NotFound
    else if !ValidCondition(condition) then BadCondition
    else if delay < 0 || delay > CHAIN_MAX_DELAY_SEC then BadDelay
    else if ReachesQuery(g.links, target, job, CHAIN_MAX_DEPTH) then Loop
    else if IsStored(g.links, job, target, condition) then Duplicate
    else Done
  }

  function Insert(g: Graph, job: int, target: int, condition: string, delay: int): Graph {
    g.(links := g.links[g.next := Link(job, target, condition, delay, true)], next := g.next + 1)
  }

  function Add(g: Graph, scope: Scope, job: int, target: int, condition: string, delay: int): Graph {
    if AddOutcome(g, scope, job, target, condition, delay) == Done then Insert(g, job, target, condition, delay) else g
  }

  function RemoveOutcome(g: Graph, scope: Scope, job: int, id: int): Outcome {
    if !Owned(g, scope, job) || id !in g.links || g.links[id].source != job then NotFound else Done
  }

  function Remove(g: Graph, scope: Scope, job: int, id: int): Graph {
    if RemoveOutcome(g, scope, job, id) == Done then g.(links := g.links - {id}) else g
  }

  // --- the stored graph ---

  ghost predicate ShortCycle(ls: Links) {
    exists a: int, k: nat :: 1 <= k <= CHAIN_MAX_DEPTH + 1 && Walks(ls, a, a, k)
  }

  ghost predicate Valid(g: Graph) {
    && (forall id :: id in g.links ==> id < g.next)
    && (forall id :: id in g.links ==>
          && g.links[id].source != g.links[id].target && ValidCondition(g.links[id].condition)
          && 0 <= g.links[id].delay <= CHAIN_MAX_DELAY_SEC)
    && (forall i, j :: i in g.links && j in g.links && SameKey(g.links[i], g.links[j]) ==> i == j)
    && !ShortCycle(g.links)
  }

  /** The new link is the only new edge. */
  lemma InsertEdges(g: Graph, job: int, target: int, condition: string, delay: int, a: int, b: int)
    requires forall id :: id in g.links ==> id < g.next
    ensures Edge(Insert(g, job, target, condition, delay).links, a, b)
            <==> Edge(g.links, a, b) || (a == job && b == target)
  {
    var ls, ms := g.links, Insert(g, job, target, condition, delay).links;
    if Edge(ls, a, b) {
      var id :| id in ls && ls[id].active && ls[id].source == a && ls[id].target == b;
      assert ms[id] == ls[id];
    }
    assert ms[g.next] == Link(job, target, condition, delay, true);
  }

  /** A closed walk can be started one link after any of its jobs. */
  lemma Rotate(ls: Links, p: seq<int>, a: int, k: nat, i: nat) returns (q: seq<int>)
    requires k >= 1 && i < k && WalkOf(ls, p, a, a, k)
    ensures WalkOf(ls, q, p[i + 1], p[i], k - 1)
  {
    q := p[i + 1..] + p[1..i + 1];
    forall j | 0 <= j < k - 1 ensures Edge(ls, q[j], q[j + 1]) {
      var at := if j < k - i - 1 then i + 1 + j else j - (k - i - 1);
      assert q[j] == p[at] && q[j + 1] == p[at + 1];
    }
  }

  /** Up to its first visit of job, a walk of the new graph uses old links only. */
  lemma {:induction false} FirstVisit(g: Graph, job: int, target: int, condition: string, delay: int,
                                      q: seq<int>, k: nat)
    requires (forall id :: id in g.links ==> id < g.next) && job != target
    requires WalkOf(Insert(g, job, target, condition, delay).links, q, target, job, k)
    ensures exists m: nat :: 1 <= m <= k && Walks(g.links, target, job, m)
    decreases k
  {
    var ms := Insert(g, job, target, condition, delay).links;
    if i: nat :| i < k && q[i] == job {
      assert WalkOf(ms, q[..i + 1], target, job, i);
      FirstVisit(g, job, target, condition, delay, q[..i + 1], i);
    } else {
      forall i | 0 <= i < k ensures Edge(g.links, q[i], q[i + 1]) {
        assert Edge(ms, q[i], q[i + 1]);
        InsertEdges(g, job, target, condition, delay, q[i], q[i + 1]);
      }
      assert WalkOf(g.links, q, target, job, k);
      assert Walks(g.links, target, job, k);
    }
  }

  /** A short cycle after the insertion goes through the new link. */
  lemma CycleUsesNewLink(g: Graph, job: int, target: int, condition: string, delay: int)
    requires (forall id :: id in g.links ==> id < g.next) && job != target
    requires !ShortCycle(g.links) && ShortCycle(Insert(g, job, target, condition, delay).links)
    ensures Within(g.links, target, job, CHAIN_MAX_DEPTH)
  {
    var ms := Insert(g, job, target, condition, delay).links;
    var a, k: nat :| 1 <= k <= CHAIN_MAX_DEPTH + 1 && Walks(ms, a, a, k);
    var p :| WalkOf(ms, p, a, a, k);
    if i: nat :| i < k && p[i] == job && p[i + 1] == target {
      var q := Rotate(ms, p, a, k, i);
      FirstVisit(g, job, target, condition, delay, q, k - 1);
    } else {
      forall i | 0 <= i < k ensures Edge(g.links, p[i], p[i + 1]) {
        assert Edge(ms, p[i], p[i + 1]);
        InsertEdges(g, job, target, condition, delay, p[i], p[i + 1]);
      }
      assert WalkOf(g.links, p, a, a, k);
      assert Walks(g.links, a, a, k);
    }
  }

  lemma NewLinkCloses(g: Graph, job: int, target: int, condition: string, delay: int)
    requires (forall id :: id in g.links ==> id < g.next) && job != target
    requires Within(g.links, target, job, CHAIN_MAX_DEPTH)
    ensures ShortCycle(Insert(g, job, target, condition, delay).links)
  {
    var ms := Insert(g, job, target, condition, delay).links;
    var k: nat :| 1 <= k <= CHAIN_MAX_DEPTH && Walks(g.links, target, job, k);
    var p :| WalkOf(g.links, p, target, job, k);
    var q := p + [target];
    forall i | 0 <= i < k + 1 ensures Edge(ms, q[i], q[i + 1]) {
      if i < k {
        assert Edge(g.links, p[i], p[i + 1]);
      }
      InsertEdges(g, job, target, condition, delay, q[i], q[i + 1]);
    }
    assert WalkOf(ms, q, target, target, k + 1);
    assert Walks(ms, target, target, k + 1);
  }

  /** The loop check refuses a link exactly when it would close a cycle of at most six links. */
  lemma LoopRefusedIff(g: Graph, scope: Scope, job: int, target: int, condition: string, delay: int)
    requires Valid(g) && job != target && Owned(g, scope, job) && Owned(g, scope, target)
    requires ValidCondition(condition) && 0 <= delay <= CHAIN_MAX_DELAY_SEC
    ensures AddOutcome(g, scope, job, target, condition, delay) == Loop
            <==> ShortCycle(Insert(g, job, target, condition, delay).links)
  {
    ReachesQueryIff(g.links, target, job, CHAIN_MAX_DEPTH);
    if Within(g.links, target, job, CHAIN_MAX_DEPTH) {
      NewLinkCloses(g, job, target, condition, delay);
    } else if ShortCycle(Insert(g, job, target, condition, delay).links) {
      CycleUsesNewLink(g, job, target, condition, delay);
    }
  }

  lemma AddKeeps(g: Graph, scope: Scope, job: int, target: int, condition: string, delay: int)
    requires Valid(g)
    ensures Valid(Add(g, scope, job, target, condition, delay))
  {
    if AddOutcome(g, scope, job, target, condition, delay) == Done {
      LoopRefusedIff(g, scope, job, target, condition, delay);
    }
  }

  lemma FewerLinksKeep(ls: Links, ms: Links)
    requires !ShortCycle(ls) && forall id :: id in ms ==> id in ls && ms[id] == ls[id]
    ensures !ShortCycle(ms)
  {
    if a: int, k: nat :| 1 <= k <= CHAIN_MAX_DEPTH + 1 && Walks(ms, a, a, k) {
      var p :| WalkOf(ms, p, a, a, k);
      forall i | 0 <= i < k ensures Edge(ls, p[i], p[i + 1]) {
        assert Edge(ms, p[i], p[i + 1]);
      }
      assert WalkOf(ls, p, a, a, k);
      assert Walks(ls, a, a, k);
    }
  }

  lemma RemoveKeeps(g: Graph, scope: Scope, job: int, id: int)
    requires Valid(g)
    ensures Valid(Remove(g, scope, job, id))
  {
    FewerLinksKeep(g.links, Remove(g, scope, job, id).links);
  }

  lemma MoreLinksReach(ls: Links, ms: Links, from: int, target: int, maxDepth: int)
    requires forall l :: l in ls ==> l in ms && ms[l] == ls[l]
    requires ReachesQuery(ls, from, target, maxDepth)
    ensures ReachesQuery(ms, from, target, maxDepth)
  {
    ReachesQueryIff(ls, from, target, maxDepth);
    ReachesQueryIff(ms, from, target, maxDepth);
    if from != target {
      var k: nat :| 1 <= k <= maxDepth && Walks(ls, from, target, k);
      var p :| WalkOf(ls, p, from, target, k);
      forall i | 0 <= i < k ensures Edge(ms, p[i], p[i + 1]) {
        assert Edge(ls, p[i], p[i + 1]);
        var l :| l in ls && ls[l].active && ls[l].source == p[i] && ls[l].target == p[i + 1];
        assert ms[l] == ls[l];
      }
      assert WalkOf(ms, p, from, target, k);
      assert Walks(ms, from, target, k);
    }
  }

  /** Refused links stay refused as links only grow. */
  lemma RefusedStaysRefused(g: Graph, h: Graph, scope: Scope, job: int, target: int, condition: string, delay: int)
    requires h.projects == g.projects && forall l :: l in g.links ==> l in h.links && h.links[l] == g.links[l]
    requires AddOutcome(g, scope, job, target, condition, delay) != Done
    ensures AddOutcome(h, scope, job, target, condition, delay) != Done
  {
    if ReachesQuery(g.links, target, job, CHAIN_MAX_DEPTH) {
      MoreLinksReach(g.links, h.links, target, job, CHAIN_MAX_DEPTH);
    }
    if IsStored(g.links, job, target, condition) {
      var id :| id in g.links && Same(g.links[id], job, target, condition);
      assert h.links[id] == g.links[id];
    }
  }

  // --- the answers, written out ---

  /** The scope has the job's project; a job that is not there is in no scope. */
  ghost predicate InScope(g: Graph, scope: Scope, job: int) {
    && job in g.projects
    && match scope
       case Everything => true
       case Projects(ids) => g.projects[job] in ids
  }

  /**
  Exactly which links are added: between two different jobs in the caller's scope,
  with one of the three conditions, a delay of at most an hour, no way back of
  five links or fewer, and not there already.
  */
  lemma LinkAddedIff(g: Graph, scope: Scope, job: int, target: int, condition: string, delay: int)
    ensures AddOutcome(g, scope, job, target, condition, delay) == Done
            <==> && job != target && InScope(g, scope, job) && InScope(g, scope, target)
                 && condition in {"success", "failure", "always"} && 0 <= delay <= 3600
                 && (forall k: nat :: k <= 5 ==> !Walks(g.links, target, job, k))
                 && (forall id :: id in g.links ==>
                       !(g.links[id].source == job && g.links[id].target == target
                         && g.links[id].condition == condition))
  {
    ReachesQueryIff(g.links, target, job, CHAIN_MAX_DEPTH);
    if Walks(g.links, target, job, 0) {
      var p :| WalkOf(g.links, p, target, job, 0);
    }
  }

  /** An added link is active and as asked for, every other stays; a refused one changes nothing. */
  lemma LinkAddedIs(g: Graph, scope: Scope, job: int, target: int, condition: string, delay: int)
    requires forall id :: id in g.links ==> id < g.next
    ensures var after := Add(g, scope, job, target, condition, delay);
            && after.projects == g.projects
            && (if AddOutcome(g, scope, job, target, condition, delay) == Done then
                  && after.links.Keys == g.links.Keys + {g.next}
                  && after.links[g.next] == Link(job, target, condition, delay, true)
                  && forall id :: id in g.links ==> after.links[id] == g.links[id]
                else after == g)
  {
  }

  /** Exactly which links are removed: those that leave a job in the caller's scope, asked for by that job. */
  lemma LinkRemovedIff(g: Graph, scope: Scope, job: int, id: int, other: int)
    ensures other in Remove(g, scope, job, id).links
            <==> other in g.links
                 && !(other == id && InScope(g, scope, job) && g.links[id].source == job)
    ensures other in Remove(g, scope, job, id).links ==> Remove(g, scope, job, id).links[other] == g.links[other]
  {
    if RemoveOutcome(g, scope, job, id) == Done && other in g.links && other != id {
      assert other in g.links - {id};
    }
  }

  // --- every sequence of calls ---

  /** Jobs is any creation, deletion or move of jobs; it leaves links alone. */
  datatype Op =
    | AddLink(scope: Scope, job: int, target: int, condition: string, delay: int)
    | RemoveLink(scope: Scope, job: int, id: int)
    | Jobs(projects: map<int, int>)

  function Step(g: Graph, op: Op): Graph {
    match op
    case AddLink(scope, job, target, condition, delay) => Add(g, scope, job, target, condition, delay)
    case RemoveLink(scope, job, id) => Remove(g, scope, job, id)
    case Jobs(projects) => g.(projects := projects)
  }

  function Run(ops: seq<Op>): Graph {
    if ops == [] then Graph(map[], map[], 0) else Step(Run(ops[..|ops| - 1]), ops[|ops| - 1])
  }

  lemma NoLinks()
    ensures !ShortCycle(map[])
  {
    if a: int, k: nat :| 1 <= k <= CHAIN_MAX_DEPTH + 1 && Walks(map[], a, a, k) {
      var p :| WalkOf(map[], p, a, a, k);
      assert Edge(map[], p[0], p[0 + 1]);
    }
  }

  lemma {:induction false} RunsStayValid(ops: seq<Op>)
    ensures Valid(Run(ops))
  {
    if ops == [] {
      NoLinks();
    } else {
      var g := Run(ops[..|ops| - 1]);
      RunsStayValid(ops[..|ops| - 1]);
      match ops[|ops| - 1]
      case AddLink(scope, job, target, condition, delay) => AddKeeps(g, scope, job, target, condition, delay);
      case RemoveLink(scope, job, id) => RemoveKeeps(g, scope, job, id);
      case Jobs(_) =>
    }
  }

  /** A closed walk of n links through n different jobs. */
  ghost predicate Cycle(ls: Links, p: seq<int>, n: nat) {
    && |p| > 0 && WalkOf(ls, p, p[0], p[0], n)
    && forall i, j :: 0 <= i < j < n ==> p[i] != p[j]
  }

  // --- a long cycle ---

  function Ring(k: nat): (ls: Links)
    ensures forall i :: i in ls <==> 0 <= i < k
    ensures forall i :: 0 <= i < k ==> ls[i] == Link(i, i + 1, "success", 15, true)
  {
    if k == 0 then map[] else Ring(k - 1)[k - 1 := Link(k - 1, k, "success", 15, true)]
  }

  function Numbered(n: nat): (projects: map<int, int>)
    ensures forall i :: i in projects <==> 0 <= i < n
  {
    if n == 0 then map[] else Numbered(n - 1)[n - 1 := 1]
  }

  function LinkOp(job: int, target: int): Op {
    AddLink(Everything, job, target, "success", 15)
  }

  lemma {:induction false} RingLevel(k: nat, from: int, d: nat, b: int)
    requires b in Level(Ring(k), from, d)
    ensures b == from + d && (d > 0 ==> b <= k)
  {
    if d > 0 {
      var id :| id in Ring(k) && Ring(k)[id].source in Level(Ring(k), from, d - 1) && Ring(k)[id].target == b;
      RingLevel(k, from, d - 1, id);
    }
  }

  /** No walk of the open ring leads back, and none of up to depth links leads further than depth. */
  lemma RingOpen(k: nat, from: int, target: int, depth: int)
    requires target != from && (target < from || from + depth < target)
    ensures !ReachesQuery(Ring(k), from, target, depth)
  {
    forall d | 0 <= d <= depth ensures target !in Level(Ring(k), from, d) {
      if target in Level(Ring(k), from, d) { RingLevel(k, from, d, target); }
    }
  }

  lemma RingAdds(n: nat, k: nat, job: int, target: int)
    requires 0 <= job < n && 0 <= target < n && job >= k && job != target
    requires job < target || target + CHAIN_MAX_DEPTH < job
    ensures Step(Graph(Numbered(n), Ring(k), k), LinkOp(job, target))
            == Insert(Graph(Numbered(n), Ring(k), k), job, target, "success", 15)
  {
    RingOpen(k, target, job, CHAIN_MAX_DEPTH);
    var g := Graph(Numbered(n), Ring(k), k);
    assert !IsStored(g.links, job, target, "success");
    assert AddOutcome(g, Everything, job, target, "success", 15) == Done;
  }

  lemma RunOneMore(ops: seq<Op>, op: Op)
    ensures Run(ops + [op]) == Step(Run(ops), op)
  {
    assert (ops + [op])[..|ops|] == ops;
  }

  lemma RingNext(n: nat, k: nat)
    requires 0 < k < n
    ensures Step(Graph(Numbered(n), Ring(k - 1), k - 1), LinkOp(k - 1, k)) == Graph(Numbered(n), Ring(k), k)
  {
    RingAdds(n, k - 1, k - 1, k);
  }

  lemma RingStart(n: nat) returns (ops: seq<Op>)
    ensures Run(ops) == Graph(Numbered(n), Ring(0), 0)
  {
    ops := [] + [Jobs(Numbered(n))];
    RunOneMore([], Jobs(Numbered(n)));
  }

  /** Calls that link jobs 0, 1, ..., k of n. */
  lemma {:induction false} RingRuns(n: nat, k: nat) returns (ops: seq<Op>)
    requires k < n
    ensures Run(ops) == Graph(Numbered(n), Ring(k), k)
  {
    if k == 0 {
      ops := RingStart(n);
    } else {
      var before := RingRuns(n, k - 1);
      RingNext(n, k);
      RunOneMore(before, LinkOp(k - 1, k));
      ops := before + [LinkOp(k - 1, k)];
    }
  }

  function ClosedRing(n: nat): Links
    requires n >= 1
  {
    Ring(n - 1)[n - 1 := Link(n - 1, 0, "success", 15, true)]
  }

  lemma RingLast(n: nat)
    requires n >= CHAIN_MAX_DEPTH + 2
    ensures Step(Graph(Numbered(n), Ring(n - 1), n - 1), LinkOp(n - 1, 0)) == Graph(Numbered(n), ClosedRing(n), n)
  {
    RingAdds(n, n - 1, n - 1, 0);
  }

  /** Closing a ring of seven jobs or more passes the check. */
  lemma RingCloses(n: nat) returns (ops: seq<Op>)
    requires n >= CHAIN_MAX_DEPTH + 2
    ensures Run(ops) == Graph(Numbered(n), ClosedRing(n), n)
  {
    var before := RingRuns(n, n - 1);
    RingLast(n);
    RunOneMore(before, LinkOp(n - 1, 0));
    ops := before + [LinkOp(n - 1, 0)];
  }

  lemma RingWalk(n: nat) returns (p: seq<int>)
    requires n >= 1
    ensures Cycle(ClosedRing(n), p, n)
  {
    var ls := ClosedRing(n);
    p := seq(n + 1, i => if i < n then i else 0);
    forall i | 0 <= i < n ensures Edge(ls, p[i], p[i + 1]) {
      assert ls[i].source == p[i] && ls[i].target == p[i + 1];
    }
  }

  ghost predicate StoresCycle(ops: seq<Op>, p: seq<int>, n: nat) {
    Cycle(Run(ops).links, p, n)
  }

  /** Some sequence of calls stores a cycle of n links exactly when n is at least seven. */
  lemma CycleStorableIff(n: nat)
    requires n >= 1
    ensures (exists ops, p :: StoresCycle(ops, p, n)) <==> n >= CHAIN_MAX_DEPTH + 2
  {
    if n >= CHAIN_MAX_DEPTH + 2 {
      var ops := RingCloses(n);
      var p := RingWalk(n);
      assert StoresCycle(ops, p, n);
    } else if ops, p :| StoresCycle(ops, p, n) {
      RunsStayValid(ops);
      assert Walks(Run(ops).links, p[0], p[0], n);
    }
  }

  // --- the store ---

  /** The job service over its store of links. */
  class LinkStore {
    var projects: map<int, int>
    var links: Links
    var next: int

    ghost function Contents(): Graph
      reads this
    {
      Graph(projects, links, next)
    }

    constructor ()
      ensures Contents() == Run([])
    {
      projects, links, next := map[], map[], 0;
    }

    method CreateLink(job: int, target: int, condition: string, delay: int) returns (created: bool)
      modifies this
      ensures created <==> !IsStored(old(links), job, target, condition)
      ensures Contents() == if created then Insert(old(Contents()), job, target, condition, delay) else old(Contents())
    {
      var rest: set<int> := links.Keys;
      while rest != {}
        invariant Contents() == old(Contents()) && rest <= links.Keys
        invariant forall id :: id in links && id !in rest ==> !Same(links[id], job, target, condition)
        decreases rest
      {
        ghost var some := Pick(rest);
        var id :| id in rest;
        rest := rest - {id};
        var existing := links[id];
        if existing.source == job && existing.target == target && existing.condition == condition {
          return false;
        }
      }
      links := links[next := Link(job, target, condition, delay, true)];
      next := next + 1;
      created := true;
    }

    method DeleteLink(id: int, job: int) returns (deleted: bool)
      modifies this
      ensures deleted <==> id in old(links) && old(links)[id].source == job
      ensures Contents() == if deleted then old(Contents()).(links := old(links) - {id}) else old(Contents())
    {
      if id !in links || links[id].source != job { return false; }
      links := links - {id};
      deleted := true;
    }

    method GetOwned(scope: Scope, job: int) returns (found: bool)
      ensures found == Owned(Contents(), scope, job)
    {
      found := job in projects && Allows(scope, projects[job]);
    }

    method DoAddLink(scope: Scope, job: int, target: int, condition: string, delay: int) returns (outcome: Outcome)
      modifies this
      ensures outcome == AddOutcome(old(Contents()), scope, job, target, condition, delay)
      ensures Contents() == Add(old(Contents()), scope, job, target, condition, delay)
    {
      if job == target { return SelfLink; }
      var found := GetOwned(scope, job);
      if !found { return NotFound; }
      found := GetOwned(scope, target);
      if !found { return NotFound; }
      if condition != "success" && condition != "failure" && condition != "always" { return BadCondition; }
      if delay < 0 || delay > CHAIN_MAX_DELAY_SEC { return BadDelay; }
      var loops := SearchJobs(links, target, job, CHAIN_MAX_DEPTH);
      ReachesQueryIff(links, target, job, CHAIN_MAX_DEPTH);
      if loops { return Loop; }
      var created := CreateLink(job, target, condition, delay);
      outcome := if created then Done else Duplicate;
    }

    method DoRemoveLink(scope: Scope, job: int, id: int) returns (outcome: Outcome)
      modifies this
      ensures outcome == RemoveOutcome(old(Contents()), scope, job, id)
      ensures Contents() == Remove(old(Contents()), scope, job, id)
    {
      var found := GetOwned(scope, job);
      if !found { return NotFound; }
      var deleted := DeleteLink(id, job);
      outcome := if deleted then Done else NotFound;
    }
  }
}
