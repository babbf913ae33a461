/**
Declarative sync: a project posts all its jobs; the same payload posted twice
changes nothing the second time.
*/
module Sync {
  import opened Common
  import opened Text
  import opened JobInput
  import opened Registry

  datatype Declaration = Declaration(prune: bool, jobs: seq<Decl>)

  /** deactivated has the ids pruning switched off. */
  datatype Result = Result(outcomes: seq<Answer>, deactivated: set<int>)

  function WantOf(l: LinkIn): Want {
    Want(NormalCode(l.target), if l.condition == "" then "success" else l.condition,
         if l.delay == 0 then 15 else l.delay)
  }

  function WantsOf(ls: seq<LinkIn>): (ws: seq<Want>)
    ensures |ws| == |ls| && forall k :: 0 <= k < |ls| ==> ws[k] == WantOf(ls[k])
  {
    if ls == [] then [] else WantsOf(ls[..|ls| - 1]) + [WantOf(ls[|ls| - 1])]
  }

  function ItemOf(rules: Rules, d: Decl): Item {
    Item(NormalCode(d.code), e => Declare(rules, d, e), WantsOf(d.links))
  }

  function Items(rules: Rules, ds: seq<Decl>): seq<Item> {
    seq(|ds|, k requires 0 <= k < |ds| => ItemOf(rules, ds[k]))
  }

  lemma ItemsProper(rules: Rules, ds: seq<Decl>)
    ensures Proper(Items(rules, ds))
  {
    forall k | 0 <= k < |ds|
      ensures ToLower(ItemOf(rules, ds[k]).code) == ItemOf(rules, ds[k]).code && Settles(ItemOf(rules, ds[k]))
    {
      CodeTrimmed(ds[k].code);
      ItemSettles(rules, ds[k]);
    }
  }

  lemma ItemSettles(rules: Rules, d: Decl)
    ensures Settles(ItemOf(rules, d))
  {
    var item := ItemOf(rules, d);
    forall e | item.declare(e).Some? ensures item.declare(item.declare(e)) == item.declare(e) {
      DeclareTwice(rules, d, e);
    }
  }

  /** Failed jobs count as declared too. */
  function DeclaredCodes(items: seq<Item>): set<string> {
    set k | 0 <= k < |items| && items[k].code != "" :: items[k].code
  }

  /** None when pruning against an empty declaration is refused. */
  ghost function SyncItems(before: (string, string) -> bool, s: Database, project: int, prune: bool, items: seq<Item>):
    (Database, Option<Result>)
  {
    if prune && items == [] then (s, None)
    else
      var (first, outcomes) := FirstPass(s, project, items);
      PassLengths(s, project, items);
      var second := SecondPass(first, project, items, outcomes);
      if prune then
        (Prune(before, second, project, DeclaredCodes(items)),
         Some(Result(outcomes, Undeclared(before, second, project, DeclaredCodes(items)))))
      else (second, Some(Result(outcomes, {})))
  }

  lemma {:induction false} PassLengths(s: Database, project: int, items: seq<Item>)
    ensures |FirstPass(s, project, items).1| == |items|
  {
    if items != [] { PassLengths(s, project, items[..|items| - 1]); }
  }

  /** The store a sync leaves, before it is pruned, is left alone by both passes. */
  lemma PassesSettle(s: Database, project: int, items: seq<Item>)
    requires Sound(s) && Proper(items) && DistinctCodes(items)
    ensures var (first, outcomes) := FirstPass(s, project, items);
            && |outcomes| == |items|
            && Sound(SecondPass(first, project, items, outcomes))
            && AllApplied(SecondPass(first, project, items, outcomes), project, items, outcomes)
            && AllLinksSettled(SecondPass(first, project, items, outcomes), project, items, outcomes)
  {
    FirstPassApplies(s, project, items);
    var (first, outcomes) := FirstPass(s, project, items);
    SecondPassSettles(first, project, items, outcomes);
    var second := SecondPass(first, project, items, outcomes);
    forall k | 0 <= k < |items| ensures Applied(second, project, items[k], outcomes[k]) {
      GrowsFinds(first, second, project, items[k].code);
    }
  }

  lemma {:induction false} AgainFails(outcomes: seq<Answer>)
    ensures |AllAgain(outcomes)| == |outcomes|
    ensures forall k :: 0 <= k < |outcomes| ==> AllAgain(outcomes)[k] == Again(outcomes[k])
  {
    if outcomes != [] { AgainFails(outcomes[..|outcomes| - 1]); }
  }

  /** A settled store: both passes return it. */
  lemma PassesAgain(s: Database, project: int, items: seq<Item>, outcomes: seq<Answer>)
    requires Sound(s) && AllApplied(s, project, items, outcomes) && AllLinksSettled(s, project, items, outcomes)
    ensures FirstPass(s, project, items) == (s, AllAgain(outcomes))
    ensures |AllAgain(outcomes)| == |items| && SecondPass(s, project, items, AllAgain(outcomes)) == s
  {
    FirstPassAgain(s, project, items, outcomes);
    AgainFails(outcomes);
    var again := AllAgain(outcomes);
    forall k | 0 <= k < |items| && again[k].action != Failed
      ensures LinksSettled(s, project, again[k].id, items[k].links)
    {
      assert again[k] == Again(outcomes[k]);
    }
    SecondPassAgain(s, project, items, again);
  }

  lemma PruneKeepsSettled(before: (string, string) -> bool, s: Database, project: int, items: seq<Item>,
                          outcomes: seq<Answer>)
    requires Sound(s) && AllApplied(s, project, items, outcomes) && AllLinksSettled(s, project, items, outcomes)
    ensures var after := Prune(before, s, project, DeclaredCodes(items));
            && Sound(after) && AllApplied(after, project, items, outcomes)
            && AllLinksSettled(after, project, items, outcomes)
  {
    var after := Prune(before, s, project, DeclaredCodes(items));
    PruneKeeps(before, s, project, DeclaredCodes(items));
    AllLinksStaySettled(s, after, project, items, outcomes);
    forall k | 0 <= k < |items| ensures Applied(after, project, items[k], outcomes[k]) {
      PruneKeepsApplied(before, s, project, DeclaredCodes(items), items[k], outcomes[k]);
    }
  }

  lemma SyncItemsTwice(before: (string, string) -> bool, s: Database, project: int, prune: bool, items: seq<Item>)
    requires Sound(s) && Proper(items) && DistinctCodes(items)
    ensures var (once, r) := SyncItems(before, s, project, prune, items);
            && Sound(once)
            && SyncItems(before, once, project, prune, items)
               == (once, if r.None? then None else Some(Result(AllAgain(r.value.outcomes), {})))
  {
    if !(prune && items == []) {
      PassesSettle(s, project, items);
      var (first, outcomes) := FirstPass(s, project, items);
      var second := SecondPass(first, project, items, outcomes);
      if prune {
        PruneKeepsSettled(before, second, project, items, outcomes);
        PruneAgain(before, second, project, DeclaredCodes(items));
        PassesAgain(Prune(before, second, project, DeclaredCodes(items)), project, items, outcomes);
      } else {
        PassesAgain(second, project, items, outcomes);
      }
    }
  }

  ghost function SyncAll(rules: Rules, s: Database, project: int, req: Declaration): (Database, Option<Result>) {
    SyncItems(rules.codeBefore, s, project, req.prune, Items(rules, req.jobs))
  }

  /** Codes that are not empty are declared once. */
  ghost predicate DistinctJobs(ds: seq<Decl>) {
    forall i, k :: 0 <= i < k < |ds| ==>
      NormalCode(ds[i].code) != NormalCode(ds[k].code) || NormalCode(ds[i].code) == ""
  }

  /** The second answer: the same jobs by the same ids fail or are updated, none is created, none switched off. */
  ghost predicate NothingNew(r: Option<Result>, r2: Option<Result>) {
    && (r.Some? <==> r2.Some?)
    && (r2.Some? ==>
          && r2.value.deactivated == {}
          && |r2.value.outcomes| == |r.value.outcomes|
          && forall k :: 0 <= k < |r2.value.outcomes| ==>
               && r2.value.outcomes[k].action != Created
               && r2.value.outcomes[k].id == r.value.outcomes[k].id
               && (r2.value.outcomes[k].action == Failed <==> r.value.outcomes[k].action == Failed))
  }

  lemma AgainIsNothingNew(r: Result)
    ensures NothingNew(Some(r), Some(Result(AllAgain(r.outcomes), {})))
  {
    AgainFails(r.outcomes);
  }

  /**
  The same declaration a second time leaves every job, schedule, header and link
  as the first call left them, creates and deactivates nothing, and fails the
  same jobs.
  */
  lemma SyncTwice(rules: Rules, s: Database, project: int, req: Declaration)
    requires Sound(s) && DistinctJobs(req.jobs)
    ensures var once := SyncAll(rules, s, project, req);
            var twice := SyncAll(rules, once.0, project, req);
            twice.0 == once.0 && NothingNew(once.1, twice.1)
  {
    ItemsProper(rules, req.jobs);
    SyncItemsNothingNew(rules.codeBefore, s, project, req.prune, Items(rules, req.jobs));
  }

  lemma SyncItemsNothingNew(before: (string, string) -> bool, s: Database, project: int, prune: bool, items: seq<Item>)
    requires Sound(s) && Proper(items) && DistinctCodes(items)
    ensures var once := SyncItems(before, s, project, prune, items);
            var twice := SyncItems(before, once.0, project, prune, items);
            twice.0 == once.0 && NothingNew(once.1, twice.1)
  {
    SyncItemsTwice(before, s, project, prune, items);
    var r := SyncItems(before, s, project, prune, items).1;
    if r.Some? { AgainIsNothingNew(r.value); }
  }

  // --- one job does not touch another ---

  /** What the first pass makes of the record under a code: its own item's doing, and nobody else's. */
  lemma {:induction false} RecordAfterFirstPass(s: Database, project: int, items: seq<Item>, k: nat)
    requires Sound(s) && Proper(items) && DistinctCodes(items) && k < |items| && items[k].code != ""
    ensures var after := FirstPass(s, project, items).0;
            var was := StoredAt(s, Find(s, project, items[k].code));
            StoredAt(after, Find(after, project, items[k].code))
            == if items[k].declare(was).Some? then items[k].declare(was) else was
    decreases items
  {
    var n := |items| - 1;
    FirstPassApplies(s, project, items[..n]);
    var before := FirstPass(s, project, items[..n]).0;
    var code := items[k].code;
    if k < n {
      assert items[..n][k] == items[k];
      RecordAfterFirstPass(s, project, items[..n], k);
    } else {
      assert forall j :: 0 <= j < n ==> items[..n][j].code != code || items[..n][j].code == "";
      RecordUntouched(s, project, items[..n], code);
    }
    OneItemsRecord(before, project, items[n], code);
  }

  lemma OneItemsRecord(s: Database, project: int, item: Item, code: string)
    requires Sound(s) && ToLower(item.code) == item.code && Settles(item) && code != ""
    ensures var after := Apply(s, project, item).0;
            var was := StoredAt(s, Find(s, project, code));
            StoredAt(after, Find(after, project, code))
            == if item.code == code && item.declare(was).Some? then item.declare(was) else was
  {
    var result := item.declare(StoredAt(s, Find(s, project, item.code)));
    if item.code != "" && result.Some? {
      ApplyApplies(s, project, item);
      PutSound(s, project, item.code, result.value);
      var after := Apply(s, project, item).0;
      if item.code == code {
        FindIs(after, project, code, Apply(s, project, item).1.id);
      } else {
        forall id | Owns(s, project, code, id) ensures after.jobs[id] == s.jobs[id] {
          assert !Owns(s, project, item.code, id);
        }
      }
    }
  }

  lemma {:induction false} RecordUntouched(s: Database, project: int, items: seq<Item>, code: string)
    requires Sound(s) && Proper(items) && DistinctCodes(items) && code != ""
    requires forall j :: 0 <= j < |items| ==> items[j].code != code
    ensures var after := FirstPass(s, project, items).0;
            StoredAt(after, Find(after, project, code)) == StoredAt(s, Find(s, project, code))
  {
    if items != [] {
      var n := |items| - 1;
      RecordUntouched(s, project, items[..n], code);
      FirstPassApplies(s, project, items[..n]);
      OneItemsRecord(FirstPass(s, project, items[..n]).0, project, items[n], code);
    }
  }
}
