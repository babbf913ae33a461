/** The sync service: its two passes and the prune, over the store of jobs and links. */
module SyncStore {
  import opened Common
  import opened Text
  import opened ProjectScope
  import opened JobInput
  import opened Registry
  import opened Sync

  class SyncService {
    const rules: Rules
    const chain: ChainLinks.LinkStore
    var jobs: map<int, Job>
    var nextJob: int

    ghost function Contents(): Database
      reads this, chain
    {
      Database(jobs, nextJob, chain.links, chain.next)
    }

    /** The link store sees the projects of the jobs there are. */
    ghost predicate Valid()
      reads this, chain
    {
      Sound(Contents()) && chain.projects == ProjectsOf(jobs)
    }

    constructor (rules: Rules)
      ensures Valid() && fresh(chain) && this.rules == rules
      ensures Contents() == Database(map[], 0, map[], 0)
    {
      this.rules := rules;
      chain := new ChainLinks.LinkStore();
      jobs, nextJob := map[], 0;
    }

    method GetByCode(project: int, code: string) returns (r: Option<int>)
      requires Valid()
      ensures r == Find(Contents(), project, code)
    {
      var rest: set<int> := jobs.Keys;
      while rest != {}
        invariant rest <= jobs.Keys
        invariant forall id :: id in jobs && id !in rest ==> !Owns(Contents(), project, code, id)
        decreases rest
      {
        ghost var some := Pick(rest);
        var id :| id in rest;
        if jobs[id].project == project && ToLower(jobs[id].code) == code {
          FindIs(Contents(), project, code, id);
          return Some(id);
        }
        rest := rest - {id};
      }
      r := None;
    }

    /** Create and Update up to the write: defaults, validation, and the record to store. */
    method DeclareJob(d: Decl, existing: Option<Stored>) returns (result: Option<Stored>)
      ensures result == ItemOf(rules, d).declare(existing)
    {
      var filled, errors := Validate(rules, ToInput(d, existing), existing.None?);
      if errors != [] || !SchemaOk(filled.request, filled.limits) { return None; }
      result := Some(Store(filled, existing));
    }

    /** The insert or update of one job's row, schedules and headers. */
    method PutJob(project: int, code: string, found: Option<int>, stored: Stored)
      requires Valid() && found == Find(Contents(), project, code) && ToLower(code) == code
      modifies this, chain`projects
      ensures Valid()
      ensures Contents() == Put(old(Contents()), project, code, found, stored)
    {
      PutSound(Contents(), project, code, stored);
      if found.None? {
        jobs := jobs[nextJob := Job(project, code, stored)];
        nextJob := nextJob + 1;
      } else {
        jobs := jobs[found.value := jobs[found.value].(stored := stored)];
      }
      chain.projects := ProjectsOf(jobs);
    }

    /** One declared job created or updated; nothing is written when it is refused. */
    method ApplyJob(project: int, d: Decl) returns (answer: Answer)
      requires Valid()
      modifies this, chain`projects
      ensures Valid()
      ensures (Contents(), answer) == Apply(old(Contents()), project, ItemOf(rules, d))
    {
      var code := NormalCode(d.code);
      CodeTrimmed(d.code);
      if code == "" { return Answer(code, Failed, 0); }
      var found := GetByCode(project, code);
      var existing := if found.Some? then Some(jobs[found.value].stored) else None;
      assert existing == StoredAt(Contents(), found);
      var result := DeclareJob(d, existing);
      if result.None? { return Answer(code, Failed, 0); }
      answer := if found.None? then Answer(code, Created, nextJob) else Answer(code, Updated, found.value);
      PutJob(project, code, found, result.value);
    }

    /** The links of one declared job; those already there are passed over. */
    method ApplyLinks(project: int, job: int, ws: seq<Want>)
      requires Valid()
      modifies chain
      ensures Valid()
      ensures Contents() == Registry.ApplyLinks(old(Contents()), old(Contents()), project, job, ws)
    {
      ghost var listed := Contents();
      var have := set id | id in chain.links && chain.links[id].source == job && chain.links[id].target in jobs
                    :: KeyOf(ToLower(jobs[chain.links[id].target].code), chain.links[id].condition);
      assert forall key :: key in have <==> Have(listed, job, key);
      for k := 0 to |ws|
        invariant Valid()
        invariant Contents() == Registry.ApplyLinks(listed, listed, project, job, ws[..k])
      {
        assert ws[..k + 1][..k] == ws[..k];
        var w := ws[k];
        if w.code == "" || KeyOf(w.code, w.condition) in have { continue; }
        var target := GetByCode(project, w.code);
        if target.None? { continue; }
        ghost var before := Contents();
        var _ := chain.DoAddLink(Projects({project}), job, target.value, w.condition, w.delay);
      }
      assert ws[..|ws|] == ws;
    }

    /** The loop over the listed rows. */
    method Deactivate(rows: set<int>, declared: set<string>) returns (deactivated: set<int>)
      requires rows <= jobs.Keys
      modifies `jobs
      ensures deactivated == set id | id in rows && Stale(old(jobs), declared, id)
      ensures jobs == TurnedOff(old(jobs), deactivated)
    {
      ghost var was := jobs;
      deactivated := {};
      var rest := rows;
      while rest != {}
        invariant rest <= rows && deactivated !! rest
        invariant forall id :: id in deactivated <==> id in rows && id !in rest && Stale(was, declared, id)
        invariant jobs == TurnedOff(was, deactivated)
        decreases rest
      {
        ghost var some := Pick(rest);
        var id :| id in rest;
        rest := rest - {id};
        assert jobs[id] == was[id];
        if ToLower(jobs[id].code) in declared || !jobs[id].stored.flags.active { continue; }
        jobs := jobs[id := Off(jobs[id])];
        deactivated := deactivated + {id};
      }
      ghost var stale := set id | id in rows && Stale(was, declared, id);
      assert forall id :: id in deactivated <==> id in stale;
    }

    /** Switches off the listed active jobs that are not declared. */
    method PruneJobs(project: int, declared: set<string>) returns (deactivated: set<int>)
      requires Valid()
      modifies `jobs
      ensures Valid()
      ensures Contents() == Prune(rules.codeBefore, old(Contents()), project, declared)
      ensures deactivated == Undeclared(rules.codeBefore, old(Contents()), project, declared)
    {
      ghost var s := Contents();
      PruneKeeps(rules.codeBefore, s, project, declared);
      SameProjects(s, Prune(rules.codeBefore, s, project, declared));
      var rows: set<int> := set id | id in jobs && Listed(rules.codeBefore, jobs, project, id);
      deactivated := Deactivate(rows, declared);
      assert deactivated == Undeclared(rules.codeBefore, s, project, declared);
    }

    /** One job after the other; their answers in order. */
    method FirstPass(project: int, ds: seq<Decl>, ghost items: seq<Item>) returns (answers: seq<Answer>)
      requires Valid() && Represents(rules, ds, items)
      modifies this, chain`projects
      ensures Valid() && |answers| == |ds|
      ensures (Contents(), answers) == Registry.FirstPass(old(Contents()), project, items)
    {
      answers := [];
      for k := 0 to |ds|
        invariant Valid() && |answers| == k
        invariant (Contents(), answers) == Registry.FirstPass(old(Contents()), project, items[..k])
      {
        assert items[..k + 1][..k] == items[..k];
        var answer := ApplyNext(project, ds, items, k);
        answers := answers + [answer];
      }
      assert items[..|ds|] == items;
    }

    method ApplyNext(project: int, ds: seq<Decl>, ghost items: seq<Item>, k: nat) returns (answer: Answer)
      requires Valid() && Represents(rules, ds, items) && k < |ds|
      modifies this, chain`projects
      ensures Valid()
      ensures (Contents(), answer) == Apply(old(Contents()), project, items[k])
    {
      assert StandsFor(rules, ds, items, k);
      answer := ApplyJob(project, ds[k]);
    }

    /** The links of every job that did not fail. */
    method SecondPass(project: int, ds: seq<Decl>, ghost items: seq<Item>, answers: seq<Answer>)
      requires Valid() && Represents(rules, ds, items) && |answers| == |ds|
      modifies chain
      ensures Valid()
      ensures Contents() == Registry.SecondPass(old(Contents()), project, items, answers)
    {
      for k := 0 to |ds|
        invariant Valid()
        invariant Contents() == Registry.SecondPass(old(Contents()), project, items[..k], answers[..k])
      {
        assert items[..k + 1][..k] == items[..k] && answers[..k + 1][..k] == answers[..k];
        if answers[k].action == Failed { continue; }
        LinkNext(project, ds, items, k, answers[k].id);
      }
      assert items[..|ds|] == items && answers[..|ds|] == answers;
    }

    method LinkNext(project: int, ds: seq<Decl>, ghost items: seq<Item>, k: nat, job: int)
      requires Valid() && Represents(rules, ds, items) && k < |ds|
      modifies chain
      ensures Valid()
      ensures Contents() == Registry.ApplyLinks(old(Contents()), old(Contents()), project, job, items[k].links)
    {
      assert StandsFor(rules, ds, items, k);
      if |ds[k].links| == 0 { return; }
      ApplyLinks(project, job, WantsOf(ds[k].links));
    }

    /** Jobs, then links, then the prune; pruning against an empty declaration is refused. */
    method SyncProject(project: int, req: Declaration, ghost items: seq<Item>) returns (result: Option<Result>)
      requires Valid() && Represents(rules, req.jobs, items)
      modifies this, chain
      ensures Valid()
      ensures (Contents(), result) == SyncItems(rules.codeBefore, old(Contents()), project, req.prune, items)
    {
      if req.prune && |req.jobs| == 0 { return None; }
      var answers := FirstPass(project, req.jobs, items);
      SecondPass(project, req.jobs, items, answers);
      var deactivated := {};
      if req.prune {
        var declared := set k | 0 <= k < |answers| && answers[k].code != "" :: answers[k].code;
        DeclaredByAnswers(old(Contents()), project, items);
        deactivated := PruneJobs(project, declared);
      }
      result := Some(Result(answers, deactivated));
    }

    /** A project's declaration. */
    method DoSync(project: int, req: Declaration) returns (result: Option<Result>)
      requires Valid()
      modifies this, chain
      ensures Valid()
      ensures (Contents(), result) == SyncAll(rules, old(Contents()), project, req)
    {
      result := SyncProject(project, req, Items(rules, req.jobs));
    }
  }

  ghost predicate StandsFor(rules: Rules, ds: seq<Decl>, items: seq<Item>, k: nat)
    requires k < |ds| == |items|
  {
    items[k] == ItemOf(rules, ds[k])
  }

  /** Each item is its declaration's. */
  ghost predicate Represents(rules: Rules, ds: seq<Decl>, items: seq<Item>) {
    && |items| == |ds|
    && forall k {:trigger StandsFor(rules, ds, items, k)} :: 0 <= k < |ds| ==> StandsFor(rules, ds, items, k)
  }

  /** Every answer carries its declaration's code. */
  lemma {:induction false} AnswerCodes(s: Database, project: int, items: seq<Item>)
    ensures var answers := Registry.FirstPass(s, project, items).1;
            |answers| == |items| && forall k :: 0 <= k < |items| ==> answers[k].code == items[k].code
  {
    if items != [] { AnswerCodes(s, project, items[..|items| - 1]); }
  }

  lemma DeclaredByAnswers(s: Database, project: int, items: seq<Item>)
    ensures var answers := Registry.FirstPass(s, project, items).1;
            (set k | 0 <= k < |answers| && answers[k].code != "" :: answers[k].code) == DeclaredCodes(items)
  {
    AnswerCodes(s, project, items);
  }
}
