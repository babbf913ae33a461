/**
What a sync leaves in the store, in terms of the declaration: every declared
job's record, no link that was not declared, and exactly which jobs are switched
off.
*/
module SyncLaws {
  import opened Common
  import opened Text
  import opened Domain
  import opened ProjectScope
  import opened ChainLinks
  import opened JobInput
  import opened Declared
  import opened Registry
  import opened Sync

  // --- the records ---

  /** What the stored record r is to the declaration d over what was there. */
  ghost predicate Follows(d: Decl, was: Option<Stored>, r: Stored) {
    && HasFlags(d, was, r.flags) && HasLimits(d, was, r.limits) && HasLabels(d, was, r.labels)
    && HasRequest(d, r.request) && HasSchedules(d, r.schedules) && HasHeaders(d, was, r.headers)
    && r.notification == if was.Some? then was.value.notification else None
  }

  /** The record of a code, if there is one. */
  ghost function RecordOf(s: Database, project: int, code: string): Option<Stored> {
    StoredAt(s, Find(s, project, code))
  }

  lemma DeclaredInFirstPass(rules: Rules, s: Database, project: int, ds: seq<Decl>, k: nat)
    requires Sound(s) && DistinctJobs(ds) && k < |ds| && NormalCode(ds[k].code) != ""
    ensures var code := NormalCode(ds[k].code);
            var was, now := RecordOf(s, project, code),
                            RecordOf(FirstPass(s, project, Items(rules, ds)).0, project, code);
            if Declare(rules, ds[k], was).None? then now == was else now.Some? && Follows(ds[k], was, now.value)
  {
    ItemsProper(rules, ds);
    var items := Items(rules, ds);
    assert DistinctCodes(items);
    RecordAfterFirstPass(s, project, items, k);
    DeclaredRecord(rules, ds[k], RecordOf(s, project, items[k].code));
  }

  /** The jobs and links of a sync's store before it is pruned. */
  ghost function BeforePrune(rules: Rules, s: Database, project: int, ds: seq<Decl>): Database {
    var items := Items(rules, ds);
    PassLengths(s, project, items);
    SecondPass(FirstPass(s, project, items).0, project, items, FirstPass(s, project, items).1)
  }

  lemma BeforePruneIs(rules: Rules, s: Database, project: int, req: Declaration)
    requires Sound(s) && DistinctJobs(req.jobs)
    ensures var second := BeforePrune(rules, s, project, req.jobs);
            var after := SyncAll(rules, s, project, req).0;
            && SameJobs(FirstPass(s, project, Items(rules, req.jobs)).0, second)
            && (after == s || after == second
                || after == Prune(rules.codeBefore, second, project, DeclaredCodes(Items(rules, req.jobs))))
            && (!req.prune ==> after == second)
            && (req.prune && req.jobs != [] ==>
                  after == Prune(rules.codeBefore, second, project, DeclaredCodes(Items(rules, req.jobs))))
            && (req.prune && req.jobs == [] ==> after == s && SyncAll(rules, s, project, req).1 == None)
  {
    var items := Items(rules, req.jobs);
    ItemsProper(rules, req.jobs);
    assert DistinctCodes(items);
    FirstPassApplies(s, project, items);
    var (first, outcomes) := FirstPass(s, project, items);
    SecondPassSettles(first, project, items, outcomes);
  }

  lemma SameRecord(s: Database, after: Database, project: int, code: string)
    requires Sound(s) && Sound(after) && Grows(s, after)
    requires forall id :: Owns(s, project, code, id) ==> after.jobs[id].stored == s.jobs[id].stored
    ensures RecordOf(after, project, code) == RecordOf(s, project, code)
  {
    GrowsFinds(s, after, project, code);
  }

  lemma PruneKeepsRecord(before: (string, string) -> bool, s: Database, project: int, declared: set<string>,
                         code: string)
    requires Sound(s) && code in declared
    ensures RecordOf(Prune(before, s, project, declared), project, code) == RecordOf(s, project, code)
  {
    PruneKeeps(before, s, project, declared);
    SameRecord(s, Prune(before, s, project, declared), project, code);
  }

  /** Links and the prune leave the records of the declared jobs alone. */
  lemma RecordStays(rules: Rules, s: Database, project: int, req: Declaration, k: nat)
    requires Sound(s) && DistinctJobs(req.jobs) && k < |req.jobs| && NormalCode(req.jobs[k].code) != ""
    ensures var code := NormalCode(req.jobs[k].code);
            RecordOf(SyncAll(rules, s, project, req).0, project, code)
            == RecordOf(FirstPass(s, project, Items(rules, req.jobs)).0, project, code)
  {
    var items := Items(rules, req.jobs);
    BeforePruneIs(rules, s, project, req);
    ItemsProper(rules, req.jobs);
    FirstPassApplies(s, project, items);
    var second := BeforePrune(rules, s, project, req.jobs);
    SameRecord(FirstPass(s, project, items).0, second, project, items[k].code);
    if req.prune {
      assert items[k].code in DeclaredCodes(items);
      PruneKeepsRecord(rules.codeBefore, second, project, DeclaredCodes(items), items[k].code);
    }
  }

  /**
  Every declared job after the whole sync: a refused declaration leaves its record
  as it was; an accepted one leaves what it declares over what was stored.
  */
  lemma DeclaredJobs(rules: Rules, s: Database, project: int, req: Declaration, k: nat)
    requires Sound(s) && DistinctJobs(req.jobs) && k < |req.jobs| && NormalCode(req.jobs[k].code) != ""
    ensures var code := NormalCode(req.jobs[k].code);
            var was, now := RecordOf(s, project, code), RecordOf(SyncAll(rules, s, project, req).0, project, code);
            if Declare(rules, req.jobs[k], was).None? then now == was
            else now.Some? && Follows(req.jobs[k], was, now.value)
  {
    DeclaredInFirstPass(rules, s, project, req.jobs, k);
    RecordStays(rules, s, project, req, k);
  }

  // --- the prune ---

  /** The project's jobs before this one, by priority and then by code. */
  ghost function AheadOf(before: (string, string) -> bool, jobs: map<int, Job>, project: int, id: int): set<int>
    requires id in jobs
  {
    set other | other in jobs && jobs[other].project == project
                && (jobs[other].stored.limits.priority < jobs[id].stored.limits.priority
                    || (jobs[other].stored.limits.priority == jobs[id].stored.limits.priority
                        && before(jobs[other].code, jobs[id].code)))
  }

  /**
  A prune switches a job off exactly if it is of the project, active, among its
  first 500 jobs and not declared; it changes nothing else about any job, and no
  link.
  */
  lemma PruneIff(before: (string, string) -> bool, s: Database, project: int, declared: set<string>, id: int)
    requires id in s.jobs
    ensures var after := Prune(before, s, project, declared);
            && after.links == s.links && after.jobs.Keys == s.jobs.Keys
            && var was, now := s.jobs[id], after.jobs[id];
               && now == was.(stored := was.stored.(flags := was.stored.flags.(active := now.stored.flags.active)))
               && (now.stored.flags.active
                   <==> && was.stored.flags.active
                        && !(was.project == project && |AheadOf(before, s.jobs, project, id)| < 500
                             && ToLower(was.code) !in declared))
  {
    forall other
      ensures other in AheadOf(before, s.jobs, project, id) <==> other in EarlierIds(before, s.jobs, project, id) {}
    assert AheadOf(before, s.jobs, project, id) == EarlierIds(before, s.jobs, project, id);
    assert Prune(before, s, project, declared).jobs.Keys == s.jobs.Keys;
  }

  /** A sync that prunes: an undeclared active job of the first page is off afterwards, and reported. */
  lemma UndeclaredAreOff(rules: Rules, s: Database, project: int, req: Declaration, id: int)
    requires Sound(s) && DistinctJobs(req.jobs) && req.prune && req.jobs != []
    requires var second := BeforePrune(rules, s, project, req.jobs);
             && id in second.jobs && second.jobs[id].project == project && second.jobs[id].stored.flags.active
             && |AheadOf(rules.codeBefore, second.jobs, project, id)| < 500
    requires var second := BeforePrune(rules, s, project, req.jobs);
             forall k :: 0 <= k < |req.jobs| ==>
               NormalCode(req.jobs[k].code) == "" || NormalCode(req.jobs[k].code) != ToLower(second.jobs[id].code)
    ensures var (after, r) := SyncAll(rules, s, project, req);
            id in after.jobs && !after.jobs[id].stored.flags.active && r.Some? && id in r.value.deactivated
  {
    var second := BeforePrune(rules, s, project, req.jobs);
    var items := Items(rules, req.jobs);
    BeforePruneIs(rules, s, project, req);
    assert forall k :: 0 <= k < |items| ==> items[k].code == NormalCode(req.jobs[k].code);
    assert ToLower(second.jobs[id].code) !in DeclaredCodes(items);
    PruneIff(rules.codeBefore, second, project, DeclaredCodes(items), id);
  }

  // --- the links ---

  /** The stored link is the declared one: success and 15 seconds when not mentioned, always active. */
  ghost predicate IsDeclared(s: Database, project: int, job: int, l: LinkIn, link: Link) {
    && link.source == job && link.active
    && link.target in s.jobs && s.jobs[link.target].project == project
    && ToLower(s.jobs[link.target].code) == ToLower(TrimSpace(l.target))
    && (if l.condition == "" then link.condition == "success" else link.condition == l.condition)
    && (if l.delay == 0 then link.delay == 15 else link.delay == l.delay)
  }

  ghost predicate IsWanted(s: Database, project: int, job: int, w: Want, link: Link) {
    && link.source == job && link.active && link.condition == w.condition && link.delay == w.delay
    && link.target in s.jobs && s.jobs[link.target].project == project && ToLower(s.jobs[link.target].code) == w.code
  }

  lemma {:induction false} NewLinkWanted(listed: Database, s: Database, project: int, job: int, ws: seq<Want>, lid: int)
    returns (n: nat)
    requires ListedBefore(listed, s)
    requires var after := ApplyLinks(listed, s, project, job, ws); lid in after.links && lid !in s.links
    ensures n < |ws| && IsWanted(s, project, job, ws[n], ApplyLinks(listed, s, project, job, ws).links[lid])
  {
    var last := |ws| - 1;
    var before := ApplyLinks(listed, s, project, job, ws[..last]);
    ApplyLinksSettles(listed, s, project, job, ws[..last]);
    ApplyLinkSettles(listed, before, project, job, ws[last]);
    if lid in before.links {
      n := NewLinkWanted(listed, s, project, job, ws[..last], lid);
    } else {
      n := last;
    }
  }

  lemma {:induction false} NewLinkInPass(s: Database, project: int, items: seq<Item>, outcomes: seq<Answer>, lid: int)
    returns (k: nat, n: nat)
    requires Sound(s) && |items| == |outcomes|
    requires var after := SecondPass(s, project, items, outcomes); lid in after.links && lid !in s.links
    ensures k < |items| && n < |items[k].links| && outcomes[k].action != Failed
    ensures IsWanted(s, project, outcomes[k].id, items[k].links[n], SecondPass(s, project, items, outcomes).links[lid])
  {
    var last := |items| - 1;
    var before := SecondPass(s, project, items[..last], outcomes[..last]);
    SecondPassSettles(s, project, items[..last], outcomes[..last]);
    if lid in before.links {
      k, n := NewLinkInPass(s, project, items[..last], outcomes[..last], lid);
      SecondPassSettles(s, project, items, outcomes);
      if outcomes[last].action != Failed {
        ApplyLinksSettles(before, before, project, outcomes[last].id, items[last].links);
      }
    } else {
      k := last;
      n := NewLinkWanted(before, before, project, outcomes[last].id, items[last].links, lid);
    }
  }

  /** No link is invented: whatever a sync adds is a declared link of a job it did not fail. */
  lemma NewLinksAreDeclared(rules: Rules, s: Database, project: int, req: Declaration, lid: int)
    returns (k: nat, n: nat)
    requires Sound(s) && DistinctJobs(req.jobs)
    requires lid in SyncAll(rules, s, project, req).0.links && lid !in s.links
    ensures k < |req.jobs| && n < |req.jobs[k].links|
    ensures var (after, r) := SyncAll(rules, s, project, req);
            && r.Some? && k < |r.value.outcomes| && r.value.outcomes[k].action != Failed
            && IsDeclared(after, project, r.value.outcomes[k].id, req.jobs[k].links[n], after.links[lid])
  {
    var items := Items(rules, req.jobs);
    BeforePruneIs(rules, s, project, req);
    ItemsProper(rules, req.jobs);
    FirstPassApplies(s, project, items);
    FirstPassLinks(s, project, items);
    var (first, outcomes) := FirstPass(s, project, items);
    k, n := NewLinkInPass(first, project, items, outcomes, lid);
    assert items[k].links[n] == WantOf(req.jobs[k].links[n]);
    var second := BeforePrune(rules, s, project, req.jobs);
    if req.prune { PruneKeeps(rules.codeBefore, second, project, DeclaredCodes(items)); }
  }

  lemma {:induction false} FirstPassLinks(s: Database, project: int, items: seq<Item>)
    ensures FirstPass(s, project, items).0.links == s.links
  {
    if items != [] { FirstPassLinks(s, project, items[..|items| - 1]); }
  }

  /** A code without a slash and the condition after it can be read back from the key. */
  lemma KeyReadsBack(a: string, x: string, b: string, y: string)
    requires '/' !in a && '/' !in b && a + "/" + x == b + "/" + y
    ensures a == b && x == y
  {
    IndexAfter(a, '/', x);
    IndexAfter(b, '/', y);
    assert a + ['/'] + x == b + ['/'] + y;
  }

  /** A link of the job stands for the declared target and condition, as target/condition in lower case. */
  ghost predicate Stands(s: Database, job: int, l: LinkIn, lid: int) {
    && lid in s.links && s.links[lid].source == job && s.links[lid].target in s.jobs
    && ToLower(s.jobs[s.links[lid].target].code) + "/" + s.links[lid].condition
       == ToLower(TrimSpace(l.target)) + "/" + (if l.condition == "" then "success" else l.condition)
  }

  /**
  Every declared link of a job that did not fail is there after the sync, unless
  it names no target, none of the project's jobs, or one the link check refuses.
  */
  lemma DeclaredLinks(rules: Rules, s: Database, project: int, req: Declaration, k: nat, n: nat)
    requires Sound(s) && DistinctJobs(req.jobs) && k < |req.jobs| && n < |req.jobs[k].links|
    requires var r := SyncAll(rules, s, project, req).1;
             r.Some? && k < |r.value.outcomes| && r.value.outcomes[k].action != Failed
    ensures var (after, r) := SyncAll(rules, s, project, req);
            var l, job := req.jobs[k].links[n], r.value.outcomes[k].id;
            var target := Find(after, project, ToLower(TrimSpace(l.target)));
            || (exists lid :: Stands(after, job, l, lid))
            || ToLower(TrimSpace(l.target)) == "" || target.None?
            || AddOutcome(GraphOf(after), Projects({project}), job, target.value,
                          if l.condition == "" then "success" else l.condition,
                          if l.delay == 0 then 15 else l.delay) != Done
  {
    var items := Items(rules, req.jobs);
    ItemsProper(rules, req.jobs);
    assert DistinctCodes(items);
    PassesSettle(s, project, items);
    var outcomes := FirstPass(s, project, items).1;
    var second := BeforePrune(rules, s, project, req.jobs);
    BeforePruneIs(rules, s, project, req);
    if req.prune { PruneKeepsSettled(rules.codeBefore, second, project, items, outcomes); }
    var after := SyncAll(rules, s, project, req).0;
    assert LinksSettled(after, project, outcomes[k].id, items[k].links);
    SettledStands(after, project, outcomes[k].id, req.jobs[k].links[n], items[k].links[n]);
  }

  lemma SettledStands(s: Database, project: int, job: int, l: LinkIn, w: Want)
    requires w == WantOf(l) && LinkSettled(s, project, job, w)
    ensures var target := Find(s, project, ToLower(TrimSpace(l.target)));
            || (exists lid :: Stands(s, job, l, lid))
            || ToLower(TrimSpace(l.target)) == "" || target.None?
            || AddOutcome(GraphOf(s), Projects({project}), job, target.value,
                          if l.condition == "" then "success" else l.condition,
                          if l.delay == 0 then 15 else l.delay) != Done
  {
    if Have(s, job, KeyOf(w.code, w.condition)) {
      var lid :| lid in s.links && HasLink(s, job, KeyOf(w.code, w.condition), lid);
      assert Stands(s, job, l, lid);
    }
  }
}
