/**
The project's jobs as the sync sees them: found by code, created or updated by
what each declaration makes of the record there is, and switched off when no
longer declared.
*/
module Registry {
  import opened Common
  import opened Text
  import opened ProjectScope
  import opened Domain
  import opened ChainLinks
  import opened JobInput

  datatype Job = Job(project: int, code: string, stored: Stored)

  /** Jobs that are not deleted, and every link. */
  datatype Database = Database(jobs: map<int, Job>, nextJob: int, links: Links, nextLink: int)

  /** A declared link with its defaults; code is normalised. */
  datatype Want = Want(code: string, condition: string, delay: int)

  /** A normalised code, what its declaration makes of the stored record, None when it is refused, and its links. */
  datatype Item = Item(code: string, declare: Option<Stored> -> Option<Stored>, links: seq<Want>)

  datatype Action = Created | Updated | Failed

  datatype Answer = Answer(code: string, action: Action, id: int)

  /** code is in lower case already. */
  predicate Owns(s: Database, project: int, code: string, id: int) {
    id in s.jobs && s.jobs[id].project == project && ToLower(s.jobs[id].code) == code
  }

  predicate SameCode(a: Job, b: Job) {
    a.project == b.project && ToLower(a.code) == ToLower(b.code)
  }

  /** The unique index over project and code, and the identity sequences. */
  ghost predicate Sound(s: Database) {
    && (forall i, j :: i in s.jobs && j in s.jobs && SameCode(s.jobs[i], s.jobs[j]) ==> i == j)
    && (forall i :: i in s.jobs ==> i < s.nextJob)
    && (forall l :: l in s.links ==> l < s.nextLink)
  }

  ghost function Find(s: Database, project: int, code: string): (r: Option<int>)
    ensures r.Some? ==> Owns(s, project, code, r.value)
    ensures r.None? ==> forall id :: !Owns(s, project, code, id)
  {
    if exists id :: Owns(s, project, code, id) then
      var id :| Owns(s, project, code, id);
      Some(id)
    else None
  }

  lemma FindIs(s: Database, project: int, code: string, id: int)
    requires Sound(s) && Owns(s, project, code, id)
    ensures Find(s, project, code) == Some(id)
  {
    var other := Find(s, project, code).value;
    assert SameCode(s.jobs[id], s.jobs[other]);
  }

  ghost function StoredAt(s: Database, id: Option<int>): Option<Stored> {
    if id.Some? && id.value in s.jobs then Some(s.jobs[id.value].stored) else None
  }

  // --- the first pass ---

  function Put(s: Database, project: int, code: string, found: Option<int>, stored: Stored): Database {
    if found.Some? && found.value in s.jobs then
      s.(jobs := s.jobs[found.value := s.jobs[found.value].(stored := stored)])
    else s.(jobs := s.jobs[s.nextJob := Job(project, code, stored)], nextJob := s.nextJob + 1)
  }

  ghost function Apply(s: Database, project: int, item: Item): (Database, Answer) {
    var found := Find(s, project, item.code);
    var result := item.declare(StoredAt(s, found));
    if item.code == "" || result.None? then (s, Answer(item.code, Failed, 0))
    else
      (Put(s, project, item.code, found, result.value),
       Answer(item.code, if found.Some? then Updated else Created, if found.Some? then found.value else s.nextJob))
  }

  ghost function FirstPass(s: Database, project: int, items: seq<Item>): (Database, seq<Answer>) {
    if items == [] then (s, [])
    else
      var (before, outcomes) := FirstPass(s, project, items[..|items| - 1]);
      var (after, outcome) := Apply(before, project, items[|items| - 1]);
      (after, outcomes + [outcome])
  }

  /** Declaring over what a declaration left leaves it. */
  ghost predicate Settles(item: Item) {
    forall e :: item.declare(e).Some? ==> item.declare(item.declare(e)) == item.declare(e)
  }

  /** Applying the item again would leave the store alone and answer the same, but for created. */
  ghost predicate Applied(s: Database, project: int, item: Item, o: Answer) {
    && o.code == item.code
    && (if o.action == Failed then
          o.id == 0 && (item.code == "" || item.declare(StoredAt(s, Find(s, project, item.code))).None?)
        else
          item.code != "" && Owns(s, project, item.code, o.id)
          && item.declare(Some(s.jobs[o.id].stored)) == Some(s.jobs[o.id].stored))
  }

  /** What a second application answers. */
  function Again(o: Answer): Answer {
    if o.action == Created then o.(action := Updated) else o
  }

  lemma AppliedAgain(s: Database, project: int, item: Item, o: Answer)
    requires Sound(s) && Applied(s, project, item, o)
    ensures Apply(s, project, item) == (s, Again(o))
  {
    if o.action != Failed {
      FindIs(s, project, item.code, o.id);
      assert s.jobs[o.id := s.jobs[o.id]] == s.jobs;
    }
  }

  lemma PutSound(s: Database, project: int, code: string, stored: Stored)
    requires Sound(s) && ToLower(code) == code
    ensures var found := Find(s, project, code);
            var after := Put(s, project, code, found, stored);
            && Sound(after)
            && Owns(after, project, code, if found.Some? then found.value else s.nextJob)
            && after.jobs[if found.Some? then found.value else s.nextJob].stored == stored
            && (forall other, id :: other != code ==>
                  (Owns(after, project, other, id) <==> Owns(s, project, other, id)))
            && (forall id :: id in s.jobs && !Owns(s, project, code, id) ==>
                  id in after.jobs && after.jobs[id] == s.jobs[id])
  {
    var found := Find(s, project, code);
    var after := Put(s, project, code, found, stored);
    forall i, j | i in after.jobs && j in after.jobs && SameCode(after.jobs[i], after.jobs[j]) ensures i == j {
      if i in s.jobs && j in s.jobs { assert SameCode(s.jobs[i], s.jobs[j]); }
      assert i !in s.jobs && j in s.jobs ==> Owns(s, project, code, j);
      assert j !in s.jobs && i in s.jobs ==> Owns(s, project, code, i);
    }
  }

  lemma ApplyApplies(s: Database, project: int, item: Item)
    requires Sound(s) && ToLower(item.code) == item.code && Settles(item)
    ensures Sound(Apply(s, project, item).0)
    ensures Applied(Apply(s, project, item).0, project, item, Apply(s, project, item).1)
  {
    var result := item.declare(StoredAt(s, Find(s, project, item.code)));
    if result.Some? { PutSound(s, project, item.code, result.value); }
  }

  /** Items of other codes are left as they were. */
  lemma ApplyOthers(s: Database, project: int, item: Item, other: Item, o: Answer)
    requires Sound(s) && ToLower(item.code) == item.code && Settles(item) && Applied(s, project, other, o)
    requires other.code != item.code || item.code == ""
    ensures Applied(Apply(s, project, item).0, project, other, o)
  {
    var after := Apply(s, project, item).0;
    var result := item.declare(StoredAt(s, Find(s, project, item.code)));
    if item.code != "" && result.Some? {
      PutSound(s, project, item.code, result.value);
      forall id | Owns(s, project, other.code, id) ensures after.jobs[id] == s.jobs[id] {
        assert !Owns(s, project, item.code, id);
      }
    }
  }

  /** Codes are in lower case and declaring settles. */
  ghost predicate Proper(items: seq<Item>) {
    forall k :: 0 <= k < |items| ==> ToLower(items[k].code) == items[k].code && Settles(items[k])
  }

  ghost predicate DistinctCodes(items: seq<Item>) {
    forall i, k :: 0 <= i < k < |items| ==> items[i].code != items[k].code || items[i].code == ""
  }

  ghost predicate AllApplied(s: Database, project: int, items: seq<Item>, outcomes: seq<Answer>) {
    |outcomes| == |items| && forall k :: 0 <= k < |items| ==> Applied(s, project, items[k], outcomes[k])
  }

  lemma {:induction false} FirstPassApplies(s: Database, project: int, items: seq<Item>)
    requires Sound(s) && Proper(items) && DistinctCodes(items)
    ensures var (after, outcomes) := FirstPass(s, project, items);
            Sound(after) && AllApplied(after, project, items, outcomes)
  {
    if items != [] {
      var n := |items| - 1;
      var (before, outcomes) := FirstPass(s, project, items[..n]);
      FirstPassApplies(s, project, items[..n]);
      ApplyApplies(before, project, items[n]);
      var after := Apply(before, project, items[n]).0;
      forall k | 0 <= k < n ensures Applied(after, project, items[k], outcomes[k]) {
        assert items[..n][k] == items[k];
        ApplyOthers(before, project, items[n], items[k], outcomes[k]);
      }
    }
  }

  function AllAgain(outcomes: seq<Answer>): seq<Answer> {
    if outcomes == [] then [] else AllAgain(outcomes[..|outcomes| - 1]) + [Again(outcomes[|outcomes| - 1])]
  }

  lemma {:induction false} FirstPassAgain(s: Database, project: int, items: seq<Item>, outcomes: seq<Answer>)
    requires Sound(s) && AllApplied(s, project, items, outcomes)
    ensures FirstPass(s, project, items) == (s, AllAgain(outcomes))
  {
    if items != [] {
      var n := |items| - 1;
      FirstPassAgain(s, project, items[..n], outcomes[..n]);
      AppliedAgain(s, project, items[n], outcomes[n]);
    }
  }

  // --- the second pass ---

  function ProjectsOf(jobs: map<int, Job>): map<int, int> {
    map id | id in jobs :: jobs[id].project
  }

  function GraphOf(s: Database): Graph {
    Graph(ProjectsOf(s.jobs), s.links, s.nextLink)
  }

  function WithGraph(s: Database, g: Graph): Database {
    s.(links := g.links, nextLink := g.next)
  }

  function KeyOf(code: string, condition: string): string {
    code + "/" + condition
  }

  predicate HasLink(s: Database, job: int, key: string, id: int) {
    && id in s.links && s.links[id].source == job && s.links[id].target in s.jobs
    && KeyOf(ToLower(s.jobs[s.links[id].target].code), s.links[id].condition) == key
  }

  predicate Have(s: Database, job: int, key: string) {
    exists id :: id in s.links && HasLink(s, job, key, id)
  }

  /** s is read afresh for every link; listed is the store when the job's links were listed. */
  ghost function ApplyLink(listed: Database, s: Database, project: int, job: int, w: Want): Database {
    if w.code == "" || Have(listed, job, KeyOf(w.code, w.condition)) then s
    else
      match Find(s, project, w.code)
      case None => s
      case Some(target) =>
        WithGraph(s, Add(GraphOf(s), Projects({project}), job, target, w.condition, w.delay))
  }

  ghost function ApplyLinks(listed: Database, s: Database, project: int, job: int, ws: seq<Want>): Database {
    if ws == [] then s
    else ApplyLink(listed, ApplyLinks(listed, s, project, job, ws[..|ws| - 1]), project, job, ws[|ws| - 1])
  }

  ghost function SecondPass(s: Database, project: int, items: seq<Item>, outcomes: seq<Answer>): Database
    requires |items| == |outcomes|
  {
    if items == [] then s
    else
      var n := |items| - 1;
      var before := SecondPass(s, project, items[..n], outcomes[..n]);
      if outcomes[n].action == Failed then before
      else ApplyLinks(before, before, project, outcomes[n].id, items[n].links)
  }

  /** The link is there, or is refused, now and for any longer list of links. */
  ghost predicate LinkSettled(s: Database, project: int, job: int, w: Want) {
    || w.code == ""
    || Have(s, job, KeyOf(w.code, w.condition))
    || Find(s, project, w.code).None?
    || AddOutcome(GraphOf(s), Projects({project}), job, Find(s, project, w.code).value, w.condition, w.delay) != Done
  }

  /** The same jobs under the same codes, and at least the same links. */
  ghost predicate Grows(s: Database, after: Database) {
    && after.jobs.Keys == s.jobs.Keys
    && (forall id :: id in s.jobs ==>
          after.jobs[id].project == s.jobs[id].project && after.jobs[id].code == s.jobs[id].code)
    && (forall l :: l in s.links ==> l in after.links && after.links[l] == s.links[l])
  }

  lemma GrowsFinds(s: Database, after: Database, project: int, code: string)
    requires Sound(s) && Sound(after) && Grows(s, after)
    ensures Find(after, project, code) == Find(s, project, code)
  {
    forall id ensures Owns(after, project, code, id) <==> Owns(s, project, code, id) {}
  }

  lemma SameProjects(s: Database, after: Database)
    requires Grows(s, after)
    ensures GraphOf(after).projects == GraphOf(s).projects
  {
    var p, q := ProjectsOf(s.jobs), ProjectsOf(after.jobs);
    assert forall id :: id in s.jobs <==> id in s.jobs.Keys;
    assert forall id :: id in after.jobs <==> id in after.jobs.Keys;
    assert q.Keys == p.Keys;
    assert forall id :: id in p ==> q[id] == p[id];
  }

  lemma LinkStaysSettled(s: Database, after: Database, project: int, job: int, w: Want)
    requires Sound(s) && Sound(after) && Grows(s, after) && LinkSettled(s, project, job, w)
    ensures LinkSettled(after, project, job, w)
  {
    GrowsFinds(s, after, project, w.code);
    if Have(s, job, KeyOf(w.code, w.condition)) {
      var id :| id in s.links && HasLink(s, job, KeyOf(w.code, w.condition), id);
      assert HasLink(after, job, KeyOf(w.code, w.condition), id);
    } else if Find(s, project, w.code).Some?
         && AddOutcome(GraphOf(s), Projects({project}), job, Find(s, project, w.code).value, w.condition, w.delay)
            != Done {
      SameProjects(s, after);
      RefusedStaysRefused(GraphOf(s), GraphOf(after), Projects({project}), job, Find(s, project, w.code).value,
                          w.condition, w.delay);
    }
  }

  /** listed lists no link that is not in s. */
  ghost predicate ListedBefore(listed: Database, s: Database) {
    Sound(s) && Sound(listed) && Grows(listed, s)
  }

  lemma ApplyLinkSettles(listed: Database, s: Database, project: int, job: int, w: Want)
    requires ListedBefore(listed, s)
    ensures var after := ApplyLink(listed, s, project, job, w);
            && Sound(after) && Grows(s, after) && after.jobs == s.jobs && after.nextJob == s.nextJob
            && LinkSettled(after, project, job, w)
  {
    var key := KeyOf(w.code, w.condition);
    if w.code != "" && Have(listed, job, key) {
      var id :| id in listed.links && HasLink(listed, job, key, id);
      assert HasLink(s, job, key, id);
    } else if w.code != "" && Find(s, project, w.code).Some? {
      var target := Find(s, project, w.code).value;
      var after := ApplyLink(listed, s, project, job, w);
      if AddOutcome(GraphOf(s), Projects({project}), job, target, w.condition, w.delay) == Done {
        assert HasLink(after, job, key, s.nextLink);
      } else {
        assert after == s;
      }
    }
  }

  ghost predicate LinksSettled(s: Database, project: int, job: int, ws: seq<Want>) {
    forall k :: 0 <= k < |ws| ==> LinkSettled(s, project, job, ws[k])
  }

  /** The second pass leaves the jobs as they are. */
  ghost predicate SameJobs(s: Database, after: Database) {
    Sound(after) && Grows(s, after) && after.jobs == s.jobs && after.nextJob == s.nextJob
  }

  lemma {:induction false} ApplyLinksSettles(listed: Database, s: Database, project: int, job: int, ws: seq<Want>)
    requires ListedBefore(listed, s)
    ensures var after := ApplyLinks(listed, s, project, job, ws);
            SameJobs(s, after) && LinksSettled(after, project, job, ws)
  {
    if ws != [] {
      var n := |ws| - 1;
      ApplyLinksSettles(listed, s, project, job, ws[..n]);
      var before := ApplyLinks(listed, s, project, job, ws[..n]);
      ApplyLinkSettles(listed, before, project, job, ws[n]);
      var after := ApplyLink(listed, before, project, job, ws[n]);
      forall k | 0 <= k < n ensures LinkSettled(after, project, job, ws[k]) {
        assert ws[..n][k] == ws[k];
        LinkStaysSettled(before, after, project, job, ws[k]);
      }
    }
  }

  lemma {:induction false} ApplyLinksAgain(s: Database, project: int, job: int, ws: seq<Want>)
    requires LinksSettled(s, project, job, ws)
    ensures ApplyLinks(s, s, project, job, ws) == s
  {
    if ws != [] {
      var n := |ws| - 1;
      assert forall k :: 0 <= k < n ==> ws[..n][k] == ws[k];
      ApplyLinksAgain(s, project, job, ws[..n]);
      assert LinkSettled(s, project, job, ws[n]);
    }
  }

  ghost predicate AllLinksSettled(s: Database, project: int, items: seq<Item>, outcomes: seq<Answer>)
    requires |items| == |outcomes|
  {
    forall k :: 0 <= k < |items| && outcomes[k].action != Failed ==>
      LinksSettled(s, project, outcomes[k].id, items[k].links)
  }

  lemma LinksStaySettled(s: Database, after: Database, project: int, job: int, ws: seq<Want>)
    requires Sound(s) && Sound(after) && Grows(s, after) && LinksSettled(s, project, job, ws)
    ensures LinksSettled(after, project, job, ws)
  {
    forall k | 0 <= k < |ws| ensures LinkSettled(after, project, job, ws[k]) {
      LinkStaysSettled(s, after, project, job, ws[k]);
    }
  }

  lemma AllLinksStaySettled(s: Database, after: Database, project: int, items: seq<Item>, outcomes: seq<Answer>)
    requires |items| == |outcomes| && Sound(s) && Sound(after) && Grows(s, after)
    requires AllLinksSettled(s, project, items, outcomes)
    ensures AllLinksSettled(after, project, items, outcomes)
  {
    forall k | 0 <= k < |items| && outcomes[k].action != Failed
      ensures LinksSettled(after, project, outcomes[k].id, items[k].links)
    {
      LinksStaySettled(s, after, project, outcomes[k].id, items[k].links);
    }
  }

  lemma OneMoreSettled(s: Database, project: int, items: seq<Item>, outcomes: seq<Answer>, n: nat)
    requires |items| == |outcomes| == n + 1 && AllLinksSettled(s, project, items[..n], outcomes[..n])
    requires outcomes[n].action != Failed ==> LinksSettled(s, project, outcomes[n].id, items[n].links)
    ensures AllLinksSettled(s, project, items, outcomes)
  {
    assert forall k :: 0 <= k < n ==> items[..n][k] == items[k] && outcomes[..n][k] == outcomes[k];
  }

  lemma {:induction false} SecondPassSettles(s: Database, project: int, items: seq<Item>, outcomes: seq<Answer>)
    requires Sound(s) && |items| == |outcomes|
    ensures SameJobs(s, SecondPass(s, project, items, outcomes))
    ensures AllLinksSettled(SecondPass(s, project, items, outcomes), project, items, outcomes)
  {
    if items != [] {
      var n := |items| - 1;
      SecondPassSettles(s, project, items[..n], outcomes[..n]);
      var before := SecondPass(s, project, items[..n], outcomes[..n]);
      if outcomes[n].action == Failed {
        OneMoreSettled(before, project, items, outcomes, n);
      } else {
        var after := ApplyLinks(before, before, project, outcomes[n].id, items[n].links);
        ApplyLinksSettles(before, before, project, outcomes[n].id, items[n].links);
        AllLinksStaySettled(before, after, project, items[..n], outcomes[..n]);
        OneMoreSettled(after, project, items, outcomes, n);
      }
    }
  }

  lemma {:induction false} SecondPassAgain(s: Database, project: int, items: seq<Item>, outcomes: seq<Answer>)
    requires |items| == |outcomes| && AllLinksSettled(s, project, items, outcomes)
    ensures SecondPass(s, project, items, outcomes) == s
  {
    if items != [] {
      var n := |items| - 1;
      assert forall k :: 0 <= k < n ==> items[..n][k] == items[k] && outcomes[..n][k] == outcomes[k];
      SecondPassAgain(s, project, items[..n], outcomes[..n]);
      if outcomes[n].action != Failed {
        assert LinksSettled(s, project, outcomes[n].id, items[n].links);
        ApplyLinksAgain(s, project, outcomes[n].id, items[n].links);
      }
    }
  }

  // --- pruning ---

  const PAGE := 500

  /** The list's order inside one project. */
  predicate Earlier(before: (string, string) -> bool, a: Job, b: Job) {
    var p, q := a.stored.limits.priority, b.stored.limits.priority;
    p < q || (p == q && before(a.code, b.code))
  }

  function EarlierIds(before: (string, string) -> bool, jobs: map<int, Job>, project: int, id: int): set<int>
    requires id in jobs
  {
    set other | other in jobs && jobs[other].project == project && Earlier(before, jobs[other], jobs[id])
  }

  /** The first page of the project's jobs. */
  predicate Listed(before: (string, string) -> bool, jobs: map<int, Job>, project: int, id: int) {
    id in jobs && jobs[id].project == project && |EarlierIds(before, jobs, project, id)| < PAGE
  }

  predicate Stale(jobs: map<int, Job>, declared: set<string>, id: int) {
    id in jobs && jobs[id].stored.flags.active && ToLower(jobs[id].code) !in declared
  }

  /** The active jobs of the page that are not declared. */
  function Undeclared(before: (string, string) -> bool, s: Database, project: int, declared: set<string>): set<int> {
    set id | id in s.jobs && Listed(before, s.jobs, project, id) && Stale(s.jobs, declared, id)
  }

  function Off(j: Job): Job {
    j.(stored := j.stored.(flags := j.stored.flags.(active := false)))
  }

  function TurnedOff(jobs: map<int, Job>, ids: set<int>): map<int, Job> {
    map id | id in jobs :: if id in ids then Off(jobs[id]) else jobs[id]
  }

  function SwitchOff(s: Database, ids: set<int>): Database {
    s.(jobs := TurnedOff(s.jobs, ids))
  }

  function Prune(before: (string, string) -> bool, s: Database, project: int, declared: set<string>): Database {
    SwitchOff(s, Undeclared(before, s, project, declared))
  }

  /** Switching off leaves codes, links and declared jobs alone, and the page as it was. */
  lemma PruneKeeps(before: (string, string) -> bool, s: Database, project: int, declared: set<string>)
    requires Sound(s)
    ensures var after := Prune(before, s, project, declared);
            && Sound(after) && Grows(s, after)
            && (forall id :: id in s.jobs && ToLower(s.jobs[id].code) in declared ==> after.jobs[id] == s.jobs[id])
            && (forall id :: id in s.jobs ==>
                  (Listed(before, after.jobs, project, id) <==> Listed(before, s.jobs, project, id)))
  {
    var after := Prune(before, s, project, declared);
    assert after.jobs.Keys == s.jobs.Keys;
    forall i, j | i in after.jobs && j in after.jobs && SameCode(after.jobs[i], after.jobs[j]) ensures i == j {
      assert SameCode(s.jobs[i], s.jobs[j]);
    }
    forall id | id in s.jobs
      ensures EarlierIds(before, after.jobs, project, id) == EarlierIds(before, s.jobs, project, id)
    {
      forall other | other in s.jobs
        ensures Earlier(before, after.jobs[other], after.jobs[id]) == Earlier(before, s.jobs[other], s.jobs[id]) {}
    }
  }

  /** A second prune finds nothing left to switch off. */
  lemma PruneAgain(before: (string, string) -> bool, s: Database, project: int, declared: set<string>)
    requires Sound(s)
    ensures var after := Prune(before, s, project, declared);
            Undeclared(before, after, project, declared) == {} && Prune(before, after, project, declared) == after
  {
    var after := Prune(before, s, project, declared);
    PruneKeeps(before, s, project, declared);
    forall id | id in after.jobs ensures id !in Undeclared(before, after, project, declared) {
      assert id in s.jobs;
    }
    assert Undeclared(before, after, project, declared) == {};
    assert SwitchOff(after, {}).jobs == after.jobs;
  }

  lemma PruneKeepsApplied(before: (string, string) -> bool, s: Database, project: int, declared: set<string>,
                          item: Item, o: Answer)
    requires Sound(s) && Applied(s, project, item, o) && (item.code == "" || item.code in declared)
    ensures Applied(Prune(before, s, project, declared), project, item, o)
  {
    var after := Prune(before, s, project, declared);
    PruneKeeps(before, s, project, declared);
    GrowsFinds(s, after, project, item.code);
  }
}
