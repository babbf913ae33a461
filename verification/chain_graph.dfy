/**
The chain graph: links between jobs, the two depth-bounded reachability checks,
and the guarded insertion that keeps short cycles out.
*/
module ChainGraph {
  import opened Common
  import opened Domain

  predicate Edge(ls: Links, a: int, b: int) {
    exists id :: id in ls && ls[id].active && ls[id].source == a && ls[id].target == b
  }

  /** p follows k active links from a to b. */
  ghost predicate WalkOf(ls: Links, p: seq<int>, a: int, b: int, k: nat) {
    |p| == k + 1 && p[0] == a && p[k] == b && forall i :: 0 <= i < k ==> Edge(ls, p[i], p[i + 1])
  }

  ghost predicate Walks(ls: Links, a: int, b: int, k: nat) {
    exists p :: WalkOf(ls, p, a, b, k)
  }

  /** Some walk of 1 to n active links. */
  ghost predicate Within(ls: Links, a: int, b: int, n: int) {
    exists k: nat :: 1 <= k <= n && Walks(ls, a, b, k)
  }

  // --- the recursive query ---

  /** The jobs the query's rows of depth d name. */
  function Level(ls: Links, from: int, d: nat): set<int> {
    if d == 0 then {from}
    else
      var before := Level(ls, from, d - 1);
      set id | id in ls && ls[id].active && ls[id].source in before :: ls[id].target
  }

  /** The recursive query: depth 0 is the starting job itself. */
  predicate ReachesQuery(ls: Links, from: int, target: int, maxDepth: int) {
    from == target || exists d :: 0 <= d <= maxDepth && target in Level(ls, from, d)
  }

  lemma {:induction false} LevelIsWalk(ls: Links, from: int, d: nat, b: int)
    ensures b in Level(ls, from, d) <==> Walks(ls, from, b, d)
  {
    if d == 0 {
      assert b == from ==> WalkOf(ls, [from], from, b, 0);
    } else {
      if b in Level(ls, from, d) {
        var id :| id in ls && ls[id].active && ls[id].source in Level(ls, from, d - 1) && ls[id].target == b;
        var a := ls[id].source;
        LevelIsWalk(ls, from, d - 1, a);
        var p :| WalkOf(ls, p, from, a, d - 1);
        assert WalkOf(ls, p + [b], from, b, d);
      }
      if Walks(ls, from, b, d) {
        var p :| WalkOf(ls, p, from, b, d);
        assert WalkOf(ls, p[..d], from, p[d - 1], d - 1);
        LevelIsWalk(ls, from, d - 1, p[d - 1]);
        assert Edge(ls, p[d - 1], p[d - 1 + 1]);
      }
    }
  }

  /** The query finds a walk of 1 to maxDepth active links, or the job itself. */
  lemma ReachesQueryIff(ls: Links, from: int, target: int, maxDepth: int)
    ensures ReachesQuery(ls, from, target, maxDepth) <==> from == target || Within(ls, from, target, maxDepth)
  {
    forall d: nat ensures target in Level(ls, from, d) <==> Walks(ls, from, target, d) {
      LevelIsWalk(ls, from, d, target);
    }
    if from != target {
      assert target !in Level(ls, from, 0);
    }
  }

  // --- the breadth-first search ---

  /** The jobs at most n links away. */
  ghost function Near(ls: Links, from: int, n: nat): set<int> {
    if n == 0 then {from} else Near(ls, from, n - 1) + Level(ls, from, n)
  }

  lemma {:induction false} NearIff(ls: Links, from: int, n: nat, b: int)
    ensures b in Near(ls, from, n) <==> exists k: nat :: k <= n && Walks(ls, from, b, k)
  {
    LevelIsWalk(ls, from, n, b);
    if n > 0 {
      NearIff(ls, from, n - 1, b);
      if b in Near(ls, from, n - 1) {
        var k: nat :| k <= n - 1 && Walks(ls, from, b, k);
      }
    }
  }

  /** One link further. */
  lemma {:induction false} NearStep(ls: Links, from: int, n: nat, b: int)
    ensures b in Near(ls, from, n + 1)
            <==> b in Near(ls, from, n) || exists a :: a in Near(ls, from, n) && Edge(ls, a, b)
  {
    if n > 0 { NearStep(ls, from, n - 1, b); }
    assert b in Level(ls, from, n + 1) <==> exists a :: a in Level(ls, from, n) && Edge(ls, a, b);
  }

  /** The target is within n links of the start when a job one link nearer leads to it. */
  lemma WithinIff(ls: Links, from: int, target: int, n: nat)
    ensures Within(ls, from, target, n + 1) <==> exists a :: a in Near(ls, from, n) && Edge(ls, a, target)
  {
    if a :| a in Near(ls, from, n) && Edge(ls, a, target) {
      NearIff(ls, from, n, a);
      var k: nat :| k <= n && Walks(ls, from, a, k);
      var p :| WalkOf(ls, p, from, a, k);
      assert WalkOf(ls, p + [target], from, target, k + 1);
      assert Walks(ls, from, target, k + 1);
    }
    if Within(ls, from, target, n + 1) {
      var k: nat :| 1 <= k <= n + 1 && Walks(ls, from, target, k);
      var p :| WalkOf(ls, p, from, target, k);
      assert WalkOf(ls, p[..k], from, p[k - 1], k - 1);
      assert Walks(ls, from, p[k - 1], k - 1);
      NearIff(ls, from, n, p[k - 1]);
      assert Edge(ls, p[k - 1], p[k - 1 + 1]);
    }
  }

  /** Every active link out of a leads into seen, and none to target. */
  ghost predicate Settled(ls: Links, a: int, seen: set<int>, target: int) {
    forall b :: Edge(ls, a, b) ==> b in seen && b != target
  }

  /** Where the search stands before a round: everything off the frontier is settled. */
  ghost predicate RoundStart(ls: Links, from: int, target: int, depth: nat, seen: set<int>, frontier: seq<int>) {
    && seen == Near(ls, from, depth)
    && (forall a :: a in frontier ==> a in seen)
    && (forall a :: a in seen && a !in frontier ==> Settled(ls, a, seen, target))
    && (depth > 0 ==> forall a :: a in Near(ls, from, depth - 1) ==> a !in frontier)
  }

  /** Inside a round with the jobs rest of the frontier still to expand. */
  ghost predicate InRound(
    ls: Links, from: int, target: int, depth: nat, seen: set<int>, next: seq<int>, rest: seq<int>)
  {
    && Near(ls, from, depth) <= seen
    && (forall b :: b in seen ==>
          b in Near(ls, from, depth) || exists a :: a in Near(ls, from, depth) && Edge(ls, a, b))
    && (forall b :: b in next <==> b in seen && b !in Near(ls, from, depth))
    && (forall a :: a in Near(ls, from, depth) && a !in rest ==> Settled(ls, a, seen, target))
  }

  lemma RoundEnds(ls: Links, from: int, target: int, depth: nat, seen: set<int>, next: seq<int>)
    requires InRound(ls, from, target, depth, seen, next, [])
    ensures RoundStart(ls, from, target, depth + 1, seen, next)
  {
    forall b ensures b in seen <==> b in Near(ls, from, depth + 1) {
      NearStep(ls, from, depth, b);
      if a :| a in Near(ls, from, depth) && Edge(ls, a, b) {
        assert Settled(ls, a, seen, target);
      }
    }
  }

  /** The search gives up rightly: no walk of up to maxDepth links is left. */
  lemma SearchFails(ls: Links, from: int, target: int, depth: nat, maxDepth: int, seen: set<int>, frontier: seq<int>)
    requires RoundStart(ls, from, target, depth, seen, frontier)
    requires depth >= maxDepth || frontier == []
    ensures !Within(ls, from, target, maxDepth)
  {
    if maxDepth > 0 {
      WithinIff(ls, from, target, maxDepth - 1);
      forall a | a in Near(ls, from, maxDepth - 1) ensures !Edge(ls, a, target) {
        NearerSettled(ls, from, target, depth, maxDepth - 1, seen, frontier, a);
      }
    }
  }

  lemma NearerSettled(ls: Links, from: int, target: int, depth: nat, n: nat, seen: set<int>, frontier: seq<int>, a: int)
    requires RoundStart(ls, from, target, depth, seen, frontier)
    requires depth > n || frontier == []
    requires a in Near(ls, from, n)
    ensures Settled(ls, a, seen, target)
  {
    if frontier == [] {
      ClosedHolds(ls, from, target, depth, seen, n);
    } else {
      NearGrows(ls, from, n, depth - 1);
      NearGrows(ls, from, depth - 1, depth);
    }
  }

  lemma {:induction false} NearGrows(ls: Links, from: int, m: nat, n: nat)
    requires m <= n
    ensures Near(ls, from, m) <= Near(ls, from, n)
  {
    if m < n { NearGrows(ls, from, m, n - 1); }
  }

  lemma {:induction false} ClosedHolds(ls: Links, from: int, target: int, depth: nat, seen: set<int>, n: nat)
    requires RoundStart(ls, from, target, depth, seen, [])
    ensures Near(ls, from, n) <= seen
  {
    if n == 0 {
      NearGrows(ls, from, 0, depth);
    } else {
      ClosedHolds(ls, from, target, depth, seen, n - 1);
      forall b | b in Near(ls, from, n) ensures b in seen {
        NearStep(ls, from, n - 1, b);
        if a :| a in Near(ls, from, n - 1) && Edge(ls, a, b) {
          assert Settled(ls, a, seen, target);
        }
      }
    }
  }

  /** Finding the target from a job of the round is a walk short enough. */
  lemma SearchSucceeds(ls: Links, from: int, target: int, depth: nat, maxDepth: int, a: int)
    requires depth < maxDepth && a in Near(ls, from, depth) && Edge(ls, a, target)
    ensures Within(ls, from, target, maxDepth)
  {
    WithinIff(ls, from, target, depth);
  }

  /** One job of the frontier: every job it links to is seen, and those not seen before come next. */
  method Expand(ls: Links, id: int, target: int, seen0: set<int>, next0: seq<int>, ghost near: set<int>)
    returns (hit: bool, seen: set<int>, next: seq<int>)
    requires near <= seen0 && forall b :: b in next0 <==> b in seen0 && b !in near
    ensures hit ==> Edge(ls, id, target)
    ensures !hit ==> seen0 <= seen && Settled(ls, id, seen, target)
    ensures forall b :: b in seen ==> b in seen0 || Edge(ls, id, b)
    ensures forall b :: b in next <==> b in seen && b !in near
  {
    hit, seen, next := false, seen0, next0;
    var rest: set<int> := ls.Keys;
    while rest != {}
      invariant rest <= ls.Keys && seen0 <= seen
      invariant forall b :: b in seen ==> b in seen0 || Edge(ls, id, b)
      invariant forall b :: b in next <==> b in seen && b !in near
      invariant forall l :: l in ls && l !in rest && ls[l].active && ls[l].source == id
                            ==> ls[l].target in seen && ls[l].target != target
      decreases rest
    {
      ghost var some := Pick(rest);
      var l :| l in rest;
      rest := rest - {l};
      if ls[l].source != id || !ls[l].active { continue; }
      if ls[l].target == target { return true, seen, next; }
      if ls[l].target !in seen {
        seen := seen + {ls[l].target};
        next := next + [ls[l].target];
      }
    }
  }

  lemma RoundGoesOn(ls: Links, from: int, target: int, depth: nat, seen0: set<int>, seen: set<int>, next0: seq<int>,
                    next: seq<int>, rest: seq<int>)
    requires rest != [] && InRound(ls, from, target, depth, seen0, next0, rest) && rest[0] in Near(ls, from, depth)
    requires seen0 <= seen && Settled(ls, rest[0], seen, target)
    requires forall b :: b in seen ==> b in seen0 || Edge(ls, rest[0], b)
    requires forall b :: b in next <==> b in seen && b !in Near(ls, from, depth)
    ensures InRound(ls, from, target, depth, seen, next, rest[1..])
  {
    forall a | a in Near(ls, from, depth) && a !in rest[1..] ensures Settled(ls, a, seen, target) {
      assert a != rest[0] ==> a !in rest && Settled(ls, a, seen0, target);
    }
  }

  /** The breadth-first search with a seen set. */
  method SearchJobs(ls: Links, from: int, target: int, maxDepth: int) returns (found: bool)
    ensures found <==> Within(ls, from, target, maxDepth)
  {
    var seen := {from};
    var frontier := [from];
    var depth := 0;
    while depth < maxDepth && |frontier| > 0
      invariant depth >= 0 && RoundStart(ls, from, target, depth, seen, frontier)
      decreases maxDepth - depth
    {
      var next: seq<int> := [];
      for i := 0 to |frontier|
        invariant InRound(ls, from, target, depth, seen, next, frontier[i..])
      {
        assert frontier[i..][0] == frontier[i] && frontier[i..][1..] == frontier[i + 1..];
        var hit, seen', next' := Expand(ls, frontier[i], target, seen, next, Near(ls, from, depth));
        if hit {
          SearchSucceeds(ls, from, target, depth, maxDepth, frontier[i]);
          return true;
        }
        RoundGoesOn(ls, from, target, depth, seen, seen', next, next', frontier[i..]);
        seen, next := seen', next';
      }
      RoundEnds(ls, from, target, depth, seen, next);
      frontier := next;
      depth := depth + 1;
    }
    SearchFails(ls, from, target, depth, maxDepth, seen, frontier);
    found := false;
  }

  /**
  The two checks agree for distinct jobs; they part exactly at a job asked
  about itself that no short enough walk returns to.
  */
  lemma ChecksAgreeIff(ls: Links, from: int, target: int, maxDepth: int)
    ensures (ReachesQuery(ls, from, target, maxDepth) <==> Within(ls, from, target, maxDepth))
            <==> from != target || Within(ls, from, from, maxDepth)
  {
    ReachesQueryIff(ls, from, target, maxDepth);
  }
}
