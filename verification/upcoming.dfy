/**
Upcoming firings of patterns: the first n of one, and the merge of several by
sorting and dropping repeats, which gives the first n firings of their union.
*/
module Upcoming {
  import opened Common
  import opened Search

  /** out lists the first n moments after from at which f holds, or all of them if fewer. */
  ghost predicate IsFirst(f: int -> bool, from: int, n: nat, out: seq<int>) {
    && Increasing(out) && |out| <= n
    && (forall t :: t in out ==> from < t && f(t))
    && (forall t :: from < t && f(t) ==> t in out || (|out| == n && (n == 0 || out[n - 1] < t)))
  }

  lemma SameFirst(f: int -> bool, g: int -> bool, from: int, n: nat, out: seq<int>)
    requires (forall t :: f(t) <==> g(t)) && IsFirst(f, from, n, out)
    ensures IsFirst(g, from, n, out)
  {
  }

  function FiringsOf(p: Pattern): int -> bool {
    t => Fires(p, t)
  }

  /** The next firing inside the default window. */
  function NextOf(p: Pattern, from: int): (r: Option<int>)
    ensures r.Some? ==> IsNext(p, from, r.value)
  {
    Scan(p, from, WindowEnd(from, DEFAULT_SCAN_DAYS))
  }

  function NextRuns(p: Pattern, from: int, n: nat): seq<int>
    decreases n
  {
    if n == 0 then []
    else
      match NextOf(p, from)
      case None => []
      case Some(t) => [t] + NextRuns(p, t, n - 1)
  }

  /** Whenever a firing is still to come, the window finds one. */
  ghost predicate WindowComplete(p: Pattern) {
    forall from, t :: from < t && Fires(p, t) ==> NextOf(p, from).Some?
  }

  /** What is listed fires, also when the window is not complete. */
  lemma {:induction false} NextRunsFire(p: Pattern, from: int, n: nat)
    ensures forall t :: t in NextRuns(p, from, n) ==> from < t && Fires(p, t)
    decreases n
  {
    if n > 0 && NextOf(p, from).Some? { NextRunsFire(p, NextOf(p, from).value, n - 1); }
  }

  lemma {:induction false} NextRunsAreFirst(p: Pattern, from: int, n: nat)
    requires WindowComplete(p)
    ensures IsFirst(FiringsOf(p), from, n, NextRuns(p, from, n))
    decreases n
  {
    if n > 0 && NextOf(p, from).Some? {
      var t := NextOf(p, from).value;
      NextRunsAreFirst(p, t, n - 1);
      assert forall u :: from < u < t ==> !Fires(p, u);
      PrependFirst(FiringsOf(p), from, n, t, NextRuns(p, t, n - 1));
    }
  }

  lemma PrependFirst(f: int -> bool, from: int, n: nat, t: int, rest: seq<int>)
    requires n > 0 && from < t && f(t) && (forall u :: from < u < t ==> !f(u))
    requires IsFirst(f, t, n - 1, rest)
    ensures IsFirst(f, from, n, [t] + rest)
  {
    var out := [t] + rest;
    assert forall i :: 0 < i < |out| ==> out[i] == rest[i - 1] && out[i] in rest;
    forall u | from < u && f(u) ensures u in out || (|out| == n && out[n - 1] < u) {
      if u > t && u !in rest {
        assert |rest| == n - 1 && (n == 1 || rest[n - 2] < u);
      }
    }
  }

  /** Where the search for the i-th starts. */
  function Cursor(from: int, out: seq<int>, i: nat): int
    requires i <= |out|
  {
    if i == 0 then from else out[i - 1]
  }

  /** Each of out comes next after the one before; if there are fewer than n then none comes after the last. */
  ghost predicate ChainOf(next: (int, Option<int>) -> bool, from: int, n: nat, out: seq<int>) {
    && |out| <= n
    && (forall i {:trigger Cursor(from, out, i)} ::
          0 <= i < |out| ==> next(Cursor(from, out, i), Some(out[i])))
    && (|out| < n ==> next(Cursor(from, out, |out|), None))
  }

  ghost function SearchOf(p: Pattern, date: WallClock): (int, Option<int>) -> bool {
    (from, r) => Finds(p, date, from, DEFAULT_SCAN_DAYS, r)
  }

  /** What searching again and again finds, whatever the pattern's values are. */
  ghost predicate Chained(p: Pattern, date: WallClock, from: int, n: nat, out: seq<int>) {
    ChainOf(SearchOf(p, date), from, n, out)
  }

  lemma ChainTail(next: (int, Option<int>) -> bool, from: int, n: nat, out: seq<int>)
    requires n > 0 && out != [] && next(from, Some(out[0]))
    ensures ChainOf(next, from, n, out) <==> ChainOf(next, out[0], n - 1, out[1..])
  {
    forall i | 0 <= i < |out| ensures Cursor(from, out, i + 1) == Cursor(out[0], out[1..], i) {}
    if ChainOf(next, out[0], n - 1, out[1..]) {
      forall i | 0 <= i < |out| ensures next(Cursor(from, out, i), Some(out[i])) {
        if i > 0 { assert next(Cursor(out[0], out[1..], i - 1), Some(out[1..][i - 1])); }
      }
    }
    if ChainOf(next, from, n, out) {
      forall i | 0 <= i < |out[1..]| ensures next(Cursor(out[0], out[1..], i), Some(out[1..][i])) {
        assert next(Cursor(from, out, i + 1), Some(out[i + 1]));
      }
    }
  }

  lemma ChainEnds(next: (int, Option<int>) -> bool, from: int, n: nat)
    requires n > 0
    ensures ChainOf(next, from, n, []) <==> next(from, None)
  {
    var none: seq<int> := [];
    assert Cursor(from, none, 0) == from;
  }

  lemma ChainStarts(next: (int, Option<int>) -> bool, from: int, n: nat, out: seq<int>)
    requires out != [] && ChainOf(next, from, n, out)
    ensures next(from, Some(out[0]))
  {
    assert Cursor(from, out, 0) == from;
  }

  /** The list is right exactly when its head is next and its tail is right. */
  lemma NextRunsIff(p: Pattern, from: int, n: nat, out: seq<int>)
    requires n > 0
    ensures out == NextRuns(p, from, n)
            <==> if out == [] then NextOf(p, from).None?
                 else NextOf(p, from) == Some(out[0]) && out[1..] == NextRuns(p, out[0], n - 1)
  {
    assert out != [] ==> out == [out[0]] + out[1..];
  }

  lemma {:induction false} ChainIff(p: Pattern, next: (int, Option<int>) -> bool, from: int, n: nat, out: seq<int>)
    requires forall f, r :: next(f, r) <==> r == NextOf(p, f)
    ensures ChainOf(next, from, n, out) <==> out == NextRuns(p, from, n)
    decreases n
  {
    if n > 0 {
      NextRunsIff(p, from, n, out);
      if out == [] {
        ChainEnds(next, from, n);
      } else if next(from, Some(out[0])) {
        ChainTail(next, from, n, out);
        ChainIff(p, next, out[0], n - 1, out[1..]);
      } else if ChainOf(next, from, n, out) {
        ChainStarts(next, from, n, out);
      }
    }
  }

  lemma FindsIff(p: Pattern, date: WallClock, from: int, r: Option<int>)
    requires Civil(date) && ClockValues(p)
    ensures Finds(p, date, from, DEFAULT_SCAN_DAYS, r) <==> r == NextOf(p, from)
  {
    if NextOf(p, from).None? {
      FindsNothing(p, date, from, DEFAULT_SCAN_DAYS);
    } else {
      FindsScanned(p, date, from, DEFAULT_SCAN_DAYS);
    }
    if Finds(p, date, from, DEFAULT_SCAN_DAYS, r) { FindsTheNext(p, date, from, DEFAULT_SCAN_DAYS, r); }
  }

  /** With clock values that is the list of next firings, and nothing else is. */
  lemma ChainedIff(p: Pattern, date: WallClock, from: int, n: nat, out: seq<int>)
    requires Civil(date) && ClockValues(p)
    ensures Chained(p, date, from, n, out) <==> out == NextRuns(p, from, n)
  {
    forall f, r ensures SearchOf(p, date)(f, r) <==> r == NextOf(p, f) { FindsIff(p, date, f, r); }
    ChainIff(p, SearchOf(p, date), from, n, out);
  }

  /** So the chains are right exactly when the next firings are. */
  lemma ChainsFirstIff(p: Pattern, date: WallClock, n: nat)
    requires Civil(date) && ClockValues(p)
    ensures (forall from, out :: Chained(p, date, from, n, out) ==> IsFirst(FiringsOf(p), from, n, out))
            <==> forall from :: IsFirst(FiringsOf(p), from, n, NextRuns(p, from, n))
  {
    if forall from, out :: Chained(p, date, from, n, out) ==> IsFirst(FiringsOf(p), from, n, out) {
      forall from ensures IsFirst(FiringsOf(p), from, n, NextRuns(p, from, n)) {
        ChainedIff(p, date, from, n, NextRuns(p, from, n));
        assert Chained(p, date, from, n, NextRuns(p, from, n));
      }
    } else {
      var from, out :| Chained(p, date, from, n, out) && !IsFirst(FiringsOf(p), from, n, out);
      ChainedIff(p, date, from, n, out);
    }
  }

  method FindNextOf(p: Pattern, date: WallClock, ghost next: (int, Option<int>) -> bool,
                    from: int) returns (r: Option<int>)
    requires Civil(date) && forall f, q :: Finds(p, date, f, DEFAULT_SCAN_DAYS, q) ==> next(f, q)
    ensures next(from, r)
  {
    r := FindNext(p, date, from, DEFAULT_SCAN_DAYS);
  }

  /** The loop of NextRuns; next holds of whatever the search finds. */
  method FindChain(p: Pattern, date: WallClock, ghost next: (int, Option<int>) -> bool, from: int,
                   n: nat) returns (out: seq<int>)
    requires Civil(date) && forall f, q :: Finds(p, date, f, DEFAULT_SCAN_DAYS, q) ==> next(f, q)
    ensures ChainOf(next, from, n, out)
  {
    out := [];
    var cursor := from;
    for i := 0 to n
      invariant |out| == i && cursor == Cursor(from, out, i)
      invariant forall k {:trigger Cursor(from, out, k)} ::
                  0 <= k < i ==> next(Cursor(from, out, k), Some(out[k]))
    {
      var found := FindNextOf(p, date, next, cursor);
      if found.None? { return; }
      assert forall k {:trigger Cursor(from, out + [found.value], k)} ::
          0 <= k <= i ==> Cursor(from, out + [found.value], k) == Cursor(from, out, k);
      out := out + [found.value];
      cursor := found.value;
    }
  }

  method FindNextRuns(p: Pattern, date: WallClock, from: int, n: nat) returns (out: seq<int>)
    requires Civil(date)
    ensures Chained(p, date, from, n, out)
    ensures ClockValues(p) ==> out == NextRuns(p, from, n)
  {
    out := FindChain(p, date, SearchOf(p, date), from, n);
    if ClockValues(p) { ChainedIff(p, date, from, n, out); }
  }

  // --- merging ---

  predicate Ordered(s: seq<int>) {
    forall i, j :: 0 <= i < j < |s| ==> s[i] <= s[j]
  }

  /** Insertion sort in place. */
  method SortTimes(times: array<int>)
    modifies times
    ensures Ordered(times[..])
    ensures multiset(times[..]) == multiset(old(times[..]))
  {
    var i := 1;
    while i < times.Length
      invariant i >= 1
      invariant forall p, q :: 0 <= p < q < i && q < times.Length ==> times[p] <= times[q]
      invariant multiset(times[..]) == multiset(old(times[..]))
    {
      var j := i;
      while j > 0 && times[j] < times[j - 1]
        invariant 0 <= j <= i < times.Length
        invariant forall p, q :: 0 <= p < q <= i && q != j ==> times[p] <= times[q]
        invariant multiset(times[..]) == multiset(old(times[..]))
      {
        times[j], times[j - 1] := times[j - 1], times[j];
        j := j - 1;
      }
      i := i + 1;
    }
  }

  /** out lists the n least distinct members, or all of them if fewer. */
  ghost predicate LeastDistinct(all: seq<int>, n: nat, out: seq<int>) {
    && Increasing(out) && |out| <= n
    && (forall t :: t in out ==> t in all)
    && (forall t :: t in all ==> t in out || (|out| == n && (n == 0 || out[n - 1] < t)))
  }

  method DedupeTimes(times: seq<int>, n: nat) returns (out: seq<int>)
    requires Ordered(times) && n >= 1
    ensures LeastDistinct(times, n, out)
  {
    out := [];
    for i := 0 to |times|
      invariant Increasing(out) && |out| < n
      invariant forall t :: t in out ==> t in times
      invariant forall k :: 0 <= k < i ==> times[k] in out && times[k] <= out[|out| - 1]
      invariant out != [] ==> i > 0 && out[|out| - 1] == times[i - 1]
    {
      if |out| > 0 && out[|out| - 1] == times[i] { continue; }
      out := out + [times[i]];
      if |out| == n {
        forall t | t in times ensures t in out || out[n - 1] < t {
          var k :| 0 <= k < |times| && times[k] == t;
          assert k <= i ==> times[k] in out;
        }
        break;
      }
    }
  }

  lemma {:induction false} MembersFit(s: set<int>, out: seq<int>)
    requires forall u :: u in s ==> u in out
    ensures |s| <= |out|
  {
    if out == [] {
      if s != {} { var u := Pick(s); }
    } else {
      var n := |out| - 1;
      assert out == out[..n] + [out[n]];
      forall u | u in s - {out[n]} ensures u in out[..n] {}
      MembersFit(s - {out[n]}, out[..n]);
    }
  }

  lemma {:induction false} MembersCount(out: seq<int>) returns (s: set<int>)
    requires Increasing(out)
    ensures |s| == |out|
    ensures forall u :: u in s <==> u in out
  {
    if out == [] { return {}; }
    var n := |out| - 1;
    var before := MembersCount(out[..n]);
    assert out == out[..n] + [out[n]];
    var x := out[n];
    assert x !in out[..n];
    assert x in before <==> x in out[..n];
    s := before + {x};
  }

  lemma DistinctFit(l: seq<int>, s: seq<int>)
    requires Increasing(l)
    requires forall t :: t in l ==> t in s
    ensures |l| <= |s|
  {
    var members := MembersCount(l);
    MembersFit(members, s);
  }

  ghost function Between(g: int -> bool, from: int, t: int): set<int> {
    set u | from < u < t && g(u)
  }

  /** A first n without t is full of earlier ones. */
  lemma FullWithout(f: int -> bool, g: int -> bool, from: int, n: nat, out: seq<int>, t: int)
    requires n >= 1 && IsFirst(f, from, n, out) && from < t && f(t) && t !in out
    requires forall u :: u in out ==> g(u)
    ensures |Between(g, from, t)| >= n
  {
    var members := MembersCount(out);
    forall u | u in members ensures u in Between(g, from, t) {
      assert u in out && u <= out[n - 1];
    }
    assert members <= Between(g, from, t);
    SubsetSize(members, Between(g, from, t));
  }

  /** n distinct members before t leave t out of the n least. */
  lemma Crowded(all: seq<int>, n: nat, out: seq<int>, l: seq<int>, t: int)
    requires LeastDistinct(all, n, out) && n >= 1
    requires Increasing(l) && |l| == n && l[n - 1] < t
    requires forall x :: x in l ==> x in all
    ensures |out| == n && out[n - 1] < t
  {
    assert forall x :: x in l ==> x < t;
    if |out| < n {
      DistinctFit(l, out);
    } else if out[n - 1] >= t {
      forall x | x in l ensures x in out[..n - 1] {
        var k :| 0 <= k < |out| && out[k] == x;
        assert k < n - 1;
        assert out[..n - 1][k] == x;
      }
      DistinctFit(l, out[..n - 1]);
    }
  }

  /** Some pattern fires. */
  ghost predicate FiresAny(ps: seq<Pattern>, t: int) {
    exists k :: 0 <= k < |ps| && Fires(ps[k], t)
  }

  ghost function UnionOf(ps: seq<Pattern>): int -> bool {
    t => FiresAny(ps, t)
  }

  /** Some list has it. */
  ghost predicate InSome(lists: seq<seq<int>>, t: int) {
    exists k :: 0 <= k < |lists| && t in lists[k]
  }

  /** all holds exactly what the lists hold. */
  ghost predicate Gathers(lists: seq<seq<int>>, all: seq<int>) {
    forall x :: x in all <==> InSome(lists, x)
  }

  /** Each pattern's next firings, in order. */
  ghost function NextLists(ps: seq<Pattern>, from: int, n: nat): (lists: seq<seq<int>>)
    ensures |lists| == |ps| && forall k :: 0 <= k < |ps| ==> lists[k] == NextRuns(ps[k], from, n)
  {
    if ps == [] then [] else NextLists(ps[..|ps| - 1], from, n) + [NextRuns(ps[|ps| - 1], from, n)]
  }

  /** Appending one more list. */
  lemma GatherOne(lists: seq<seq<int>>, all: seq<int>, runs: seq<int>)
    requires Gathers(lists, all)
    ensures Gathers(lists + [runs], all + runs)
  {
    var more := lists + [runs];
    forall x ensures x in all + runs <==> InSome(more, x) {
      if InSome(lists, x) {
        var k :| 0 <= k < |lists| && x in lists[k];
        assert more[k] == lists[k];
      }
      assert more[|lists|] == runs;
      if k :| 0 <= k < |more| && x in more[k] {
        assert k < |lists| ==> more[k] == lists[k];
      }
    }
  }

  lemma {:induction false} GatherAll(lists: seq<seq<int>>) returns (all: seq<int>)
    ensures Gathers(lists, all)
  {
    if lists == [] { return []; }
    var n := |lists| - 1;
    var before := GatherAll(lists[..n]);
    GatherOne(lists[..n], before, lists[n]);
    assert lists[..n] + [lists[n]] == lists;
    all := before + lists[n];
  }

  lemma {:induction false} SortSet(s: set<int>) returns (out: seq<int>)
    ensures Increasing(out) && forall x :: x in out <==> x in s
    decreases s
  {
    if s == {} { return []; }
    var least := LeastExists(s);
    var rest := SortSet(s - {least});
    out := [least] + rest;
    assert forall i :: 0 <= i < |rest| ==> rest[i] in rest;
  }

  lemma LeastExist(all: seq<int>, n: nat) returns (out: seq<int>)
    ensures LeastDistinct(all, n, out)
  {
    var sorted := SortSet(set x | x in all);
    out := if |sorted| <= n then sorted else sorted[..n];
    assert forall t :: t in out ==> t in sorted;
    forall t | t in all && t !in out ensures |out| == n && (n == 0 || out[n - 1] < t) {
      assert t in sorted;
      var k :| 0 <= k < |sorted| && sorted[k] == t;
    }
  }

  /** Some pattern for which the window is complete fires. */
  ghost predicate Steady(ps: seq<Pattern>, t: int) {
    exists k :: 0 <= k < |ps| && Fires(ps[k], t) && WindowComplete(ps[k])
  }

  /** all gathers the first n of every pattern, and out is the n least distinct of them. */
  ghost predicate Merges(ps: seq<Pattern>, from: int, n: nat, all: seq<int>, out: seq<int>) {
    Gathers(NextLists(ps, from, n), all) && LeastDistinct(all, n, out)
  }

  /** t is listed, or there is no room for it. */
  ghost predicate Placed(out: seq<int>, n: nat, t: int) {
    t in out || (|out| == n && (n == 0 || out[n - 1] < t))
  }

  lemma MergeFires(ps: seq<Pattern>, from: int, n: nat, all: seq<int>, out: seq<int>, t: int)
    requires Merges(ps, from, n, all, out) && t in out
    ensures from < t && FiresAny(ps, t)
  {
    var lists := NextLists(ps, from, n);
    var k :| 0 <= k < |lists| && t in lists[k];
    NextRunsFire(ps[k], from, n);
  }

  /** What one list places the merge places. */
  lemma MergePlaces(ps: seq<Pattern>, from: int, n: nat, all: seq<int>, out: seq<int>, k: nat, t: int)
    requires n >= 1 && Merges(ps, from, n, all, out) && k < |ps|
    requires Increasing(NextRuns(ps[k], from, n)) && Placed(NextRuns(ps[k], from, n), n, t)
    ensures Placed(out, n, t)
  {
    var lists := NextLists(ps, from, n);
    assert forall x :: x in lists[k] ==> InSome(lists, x);
    if t !in lists[k] { Crowded(all, n, out, lists[k], t); }
  }

  lemma SteadyPlaced(ps: seq<Pattern>, from: int, n: nat, all: seq<int>, out: seq<int>, t: int)
    requires n >= 1 && Merges(ps, from, n, all, out) && from < t && Steady(ps, t)
    ensures Placed(out, n, t)
  {
    var k :| 0 <= k < |ps| && Fires(ps[k], t) && WindowComplete(ps[k]);
    NextRunsAreFirst(ps[k], from, n);
    assert FiringsOf(ps[k])(t);
    MergePlaces(ps, from, n, all, out, k, t);
  }

  lemma {:induction false} NextRunsIncrease(p: Pattern, from: int, n: nat)
    ensures Increasing(NextRuns(p, from, n))
    decreases n
  {
    if n > 0 && NextOf(p, from).Some? {
      var t := NextOf(p, from).value;
      NextRunsIncrease(p, t, n - 1);
      NextRunsFire(p, t, n - 1);
      assert forall i :: 0 < i < |NextRuns(p, from, n)| ==> NextRuns(p, from, n)[i] in NextRuns(p, t, n - 1);
    }
  }

  lemma PlacedBehind(first: int, rest: seq<int>, n: nat, t: int)
    requires n > 0 && first < t && Placed(rest, n - 1, t)
    ensures Placed([first] + rest, n, t)
  {
    var out := [first] + rest;
    if t in rest {
      assert t in out;
    } else if n > 1 {
      assert out[n - 1] == rest[n - 2];
    }
  }

  /** The search finds a firing inside its window, or an earlier one. */
  lemma NearFound(p: Pattern, from: int, t: int)
    requires Fires(p, t) && from < t < WindowEnd(from, DEFAULT_SCAN_DAYS)
    ensures NextOf(p, from).Some? && from < NextOf(p, from).value <= t
  {
    assert !Quiet(p, from, WindowEnd(from, DEFAULT_SCAN_DAYS));
  }

  lemma WindowMoves(from: int, later: int)
    requires from <= later
    ensures WindowEnd(from, DEFAULT_SCAN_DAYS) <= WindowEnd(later, DEFAULT_SCAN_DAYS)
  {
  }

  /** A firing inside the window of the start is inside that of every later search. */
  lemma {:induction false} NearPlaced(p: Pattern, from: int, n: nat, t: int)
    requires Fires(p, t) && from < t < WindowEnd(from, DEFAULT_SCAN_DAYS)
    ensures Placed(NextRuns(p, from, n), n, t)
    decreases n
  {
    if n > 0 {
      NearFound(p, from, t);
      var first := NextOf(p, from).value;
      var rest := NextRuns(p, first, n - 1);
      if first < t {
        WindowMoves(from, first);
        NearPlaced(p, first, n - 1, t);
        PlacedBehind(first, rest, n, t);
      } else {
        assert ([first] + rest)[0] == t;
      }
    }
  }

  /** n steady firings after from leave no room for a later one. */
  lemma CrowdedBySteady(ps: seq<Pattern>, from: int, n: nat, all: seq<int>, out: seq<int>, s: set<int>, t: int)
    requires n >= 1 && Merges(ps, from, n, all, out)
    requires |s| >= n && forall u :: u in s ==> from < u < t && Steady(ps, u)
    ensures |out| == n && out[n - 1] < t
  {
    forall u | u in s ensures Placed(out, n, u) { SteadyPlaced(ps, from, n, all, out, u); }
    if forall u :: u in s ==> u in out { FullBefore(n, out, s, t); }
  }

  lemma FullBefore(n: nat, out: seq<int>, s: set<int>, t: int)
    requires Increasing(out) && 1 <= n <= |s| && |out| <= n
    requires forall u :: u in s ==> u in out && u < t
    ensures |out| == n && out[n - 1] < t
  {
    MembersFit(s, out);
    if out[n - 1] >= t {
      assert out == out[..n - 1] + [out[n - 1]];
      forall u | u in s ensures u in out[..n - 1] {}
      MembersFit(s, out[..n - 1]);
    }
  }

  ghost function SteadyBetween(ps: seq<Pattern>, from: int, t: int): set<int> {
    set u | from < u < t && Steady(ps, u)
  }

  /**
  Merging the first n of several patterns, taking the n least distinct of all
  they listed, gives the first n firings of their union if each is steady, or in
  the window of the start, or has n steady ones before it.
  */
  lemma MergeIsFirst(ps: seq<Pattern>, from: int, n: nat, all: seq<int>, out: seq<int>)
    requires n >= 1 && Merges(ps, from, n, all, out)
    requires forall t :: from < t && FiresAny(ps, t) ==> || Steady(ps, t) || t < WindowEnd(from, DEFAULT_SCAN_DAYS)
                                                         || |SteadyBetween(ps, from, t)| >= n
    ensures IsFirst(UnionOf(ps), from, n, out)
  {
    forall t | t in out ensures from < t && UnionOf(ps)(t) { MergeFires(ps, from, n, all, out, t); }
    forall t | from < t && UnionOf(ps)(t) ensures Placed(out, n, t) {
      if Steady(ps, t) {
        SteadyPlaced(ps, from, n, all, out, t);
      } else if t < WindowEnd(from, DEFAULT_SCAN_DAYS) {
        var k :| 0 <= k < |ps| && Fires(ps[k], t);
        NearPlaced(ps[k], from, n, t);
        NextRunsIncrease(ps[k], from, n);
        MergePlaces(ps, from, n, all, out, k, t);
      } else {
        CrowdedBySteady(ps, from, n, all, out, SteadyBetween(ps, from, t), t);
      }
    }
  }

  /** Sorting a gathered list and dropping its repeats past n. */
  method SortAndDedupe(all: seq<int>, n: nat) returns (out: seq<int>)
    requires n >= 1
    ensures LeastDistinct(all, n, out)
  {
    var times := new int[|all|](k requires 0 <= k < |all| => all[k]);
    assert times[..] == all;
    SortTimes(times);
    SameMembers(times[..], all);
    out := DedupeTimes(times[..], n);
  }

  lemma SameMembers(a: seq<int>, b: seq<int>)
    requires multiset(a) == multiset(b)
    ensures forall x :: x in a <==> x in b
  {
    assert forall x :: x in a <==> x in multiset(a);
    assert forall x :: x in b <==> x in multiset(b);
  }
}
