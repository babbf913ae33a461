/**
Project membership: who may grant and revoke what, the store of assignments,
and what no sequence of calls by people who are not platform administrators
can change.
*/
module Members {
  import opened Common
  import opened ProjectScope
  import opened Text

  const MEMBERS_READ := "members.read"
  const MEMBERS_MANAGE := "members.manage"

  datatype User = User(isAdmin: bool, deleted: bool)

  datatype Role = Role(key: string, active: bool, permissions: set<string>)

  /** keys gives the role of a key, emails the account of a lower-case address. */
  datatype Directory = Directory(
    users: map<int, User>, emails: map<string, int>, roles: map<int, Role>, keys: map<string, int>)

  /** One scope for each user and role. */
  type Assignments = map<(int, int), Scope>

  datatype Caller = Caller(id: int, isAdmin: bool)

  datatype Outcome =
    | Done | NoUser | Denied | SelfMembership | NotFound | TargetIsAdmin | RoleTooHigh | Invalid | Unscoped

  /** Zero for every role that is not built in. */
  function RoleRank(key: string): nat {
    if key == "project_reader" then 1
    else if key == "project_writer" then 2
    else if key == "project_admin" then 3
    else 0
  }

  predicate IsBuiltin(key: string) {
    key == "project_reader" || key == "project_writer" || key == "project_admin"
  }

  /** Role keys are unique and assignments name existing roles. */
  ghost predicate Consistent(d: Directory, held: Assignments) {
    && (forall id :: id in d.roles ==> d.roles[id].key in d.keys && d.keys[d.roles[id].key] == id)
    && (forall key :: key in d.keys ==> d.keys[key] in d.roles && d.roles[d.keys[key]].key == key)
    && (forall a :: a in held ==> a.1 in d.roles)
    && (forall a :: a in held ==> held[a] != Projects({}))
  }

  predicate Reaches(held: Assignments, user: int, role: int, project: int) {
    (user, role) in held && Allows(held[(user, role)], project)
  }

  /** A held role grants the permission on the project; a platform administrator needs none. */
  predicate MayOn(d: Directory, held: Assignments, caller: Caller, permission: string, project: int) {
    || caller.isAdmin
    || exists role :: role in d.roles && Reaches(held, caller.id, role, project)
                      && d.roles[role].active && permission in d.roles[role].permissions
  }

  /** Some role of this rank reaches the project. */
  predicate HoldsRank(d: Directory, held: Assignments, user: int, project: int, rank: nat) {
    exists role :: role in d.roles && Reaches(held, user, role, project) && RoleRank(d.roles[role].key) == rank
  }

  /** The highest built-in rank that reaches the project, zero for none. */
  function HighestRank(d: Directory, held: Assignments, user: int, project: int): nat {
    if HoldsRank(d, held, user, project, 3) then 3
    else if HoldsRank(d, held, user, project, 2) then 2
    else if HoldsRank(d, held, user, project, 1) then 1
    else 0
  }

  function CallerRank(d: Directory, held: Assignments, caller: Caller, project: int): nat {
    if caller.isAdmin then RoleRank("project_admin") + 1 else HighestRank(d, held, caller.id, project)
  }

  // --- the store ---

  function GrantProject(held: Assignments, user: int, role: int, project: int): Assignments {
    if (user, role) !in held then held[(user, role) := Projects({project})]
    else if held[(user, role)].Everything? then held
    else held[(user, role) := Projects(held[(user, role)].ids + {project})]
  }

  function RevokeProject(held: Assignments, user: int, role: int, project: int): Assignments {
    if (user, role) !in held || held[(user, role)].Everything? then held
    else
      var left := held[(user, role)].ids - {project};
      if left == {} then held - {(user, role)} else held[(user, role) := Projects(left)]
  }

  // --- the service ---

  function GrantOutcome(d: Directory, held: Assignments, caller: Option<Caller>, project: int, user: int,
                        key: string): Outcome {
    if caller.None? then NoUser
    else if !MayOn(d, held, caller.value, MEMBERS_MANAGE, project) then Denied
    else if caller.value.id == user then SelfMembership
    else if user !in d.users || d.users[user].deleted then NotFound
    else if d.users[user].isAdmin then TargetIsAdmin
    else if (RoleRank(key) == 0 || RoleRank(key) > CallerRank(d, held, caller.value, project))
            && !caller.value.isAdmin then
      RoleTooHigh
    else if key !in d.keys then Invalid
    else Done
  }

  function Grant(d: Directory, held: Assignments, caller: Option<Caller>, project: int, user: int,
                 key: string): Assignments {
    if GrantOutcome(d, held, caller, project, user, key) == Done then GrantProject(held, user, d.keys[key], project)
    else held
  }

  function Address(email: string): string {
    ToLower(TrimSpace(email))
  }

  function GrantByEmailOutcome(
    d: Directory, held: Assignments, caller: Option<Caller>, project: int, email: string, key: string): Outcome
  {
    if caller.None? then NoUser
    else if !MayOn(d, held, caller.value, MEMBERS_MANAGE, project) then Denied
    else if Address(email) == "" then Invalid
    else if !Registered(d, Address(email)) then NotFound
    else GrantOutcome(d, held, caller, project, d.emails[Address(email)], key)
  }

  predicate Registered(d: Directory, address: string) {
    address in d.emails && d.emails[address] in d.users && !d.users[d.emails[address]].deleted
  }

  function GrantByEmail(
    d: Directory, held: Assignments, caller: Option<Caller>, project: int, email: string, key: string): Assignments
  {
    if GrantByEmailOutcome(d, held, caller, project, email, key) == Done then
      Grant(d, held, caller, project, d.emails[Address(email)], key)
    else held
  }

  /** The membership list has the user with the role. */
  predicate Listed(d: Directory, held: Assignments, user: int, role: int, project: int) {
    && Reaches(held, user, role, project)
    && user in d.users && !d.users[user].deleted
    && role in d.roles && d.roles[role].active
  }

  function MayChange(caller: Caller, callerRank: nat, user: int, isAdmin: bool, key: string): Outcome {
    if caller.id == user then SelfMembership
    else if caller.isAdmin then Done
    else if isAdmin then TargetIsAdmin
    else if RoleRank(key) > callerRank then RoleTooHigh
    else Done
  }

  /** The flag the membership list shows. */
  predicate Removable(d: Directory, held: Assignments, caller: Caller, user: int, role: int, project: int)
    requires Listed(d, held, user, role, project)
  {
    MayChange(caller, CallerRank(d, held, caller, project), user, d.users[user].isAdmin, d.roles[role].key) == Done
  }

  function RevokeOutcome(d: Directory, held: Assignments, caller: Option<Caller>, project: int, user: int,
                         role: int): Outcome {
    if caller.None? then NoUser
    else if !MayOn(d, held, caller.value, MEMBERS_MANAGE, project) then Denied
    else if caller.value.id == user then SelfMembership
    else if !Listed(d, held, user, role, project) then NotFound
    else
      var rank := CallerRank(d, held, caller.value, project);
      var may := MayChange(caller.value, rank, user, d.users[user].isAdmin, d.roles[role].key);
      if may != Done then may
      else if held[(user, role)].Everything? then Unscoped
      else Done
  }

  function Revoke(d: Directory, held: Assignments, caller: Option<Caller>, project: int, user: int,
                  role: int): Assignments {
    if RevokeOutcome(d, held, caller, project, user, role) == Done then RevokeProject(held, user, role, project)
    else held
  }

  /** The roles screen offers the role. */
  predicate Offered(d: Directory, held: Assignments, caller: Caller, project: int, role: int)
    requires role in d.roles
  {
    && MayOn(d, held, caller, MEMBERS_MANAGE, project)
    && d.roles[role].active
    && RoleRank(d.roles[role].key) <= CallerRank(d, held, caller, project)
    && (IsBuiltin(d.roles[role].key) || caller.isAdmin)
  }

  // --- what the store's statements do ---

  /** Granting adds this user, role and project, and nothing else. */
  lemma GrantAdds(held: Assignments, user: int, role: int, project: int, u: int, r: int, p: int)
    ensures Reaches(GrantProject(held, user, role, project), u, r, p)
            <==> Reaches(held, u, r, p) || (u, r, p) == (user, role, project)
  {
  }

  /** Revoking takes this user, role and project away unless the role covers every project, and nothing else. */
  lemma RevokeTakes(held: Assignments, user: int, role: int, project: int, u: int, r: int, p: int)
    ensures Reaches(RevokeProject(held, user, role, project), u, r, p)
            <==> Reaches(held, u, r, p)
                 && ((u, r, p) != (user, role, project) || held[(user, role)].Everything?)
  {
    if (user, role) in held && held[(user, role)].Projects? {
      var left := held[(user, role)].ids - {project};
      assert p in left <==> p in held[(user, role)].ids && p != project;
    }
  }

  // --- every run ---

  datatype Op =
    | GrantCall(caller: Option<Caller>, project: int, user: int, key: string)
    | EmailCall(caller: Option<Caller>, project: int, email: string, key: string)
    | RevokeCall(caller: Option<Caller>, project: int, user: int, role: int)

  function Step(d: Directory, held: Assignments, op: Op): Assignments {
    match op
    case GrantCall(caller, project, user, key) => Grant(d, held, caller, project, user, key)
    case EmailCall(caller, project, email, key) => GrantByEmail(d, held, caller, project, email, key)
    case RevokeCall(caller, project, user, role) => Revoke(d, held, caller, project, user, role)
  }

  function Run(d: Directory, held: Assignments, ops: seq<Op>): Assignments {
    if ops == [] then held else Step(d, Run(d, held, ops[..|ops| - 1]), ops[|ops| - 1])
  }

  /** Nobody's rank on the project is above the bound. */
  ghost predicate Ranked(d: Directory, held: Assignments, project: int, bound: nat) {
    forall user :: HighestRank(d, held, user, project) <= bound
  }

  ghost predicate ByOrdinary(op: Op) {
    op.caller.Some? ==> !op.caller.value.isAdmin
  }

  lemma RankOfHeld(d: Directory, held: Assignments, user: int, role: int, project: int)
    requires role in d.roles && Reaches(held, user, role, project)
    ensures RoleRank(d.roles[role].key) <= HighestRank(d, held, user, project)
  {
    assert HoldsRank(d, held, user, project, RoleRank(d.roles[role].key));
  }

  lemma RankIsHeld(d: Directory, held: Assignments, user: int, project: int) returns (role: int)
    requires HighestRank(d, held, user, project) > 0
    ensures role in d.roles && Reaches(held, user, role, project)
    ensures RoleRank(d.roles[role].key) == HighestRank(d, held, user, project)
  {
    var rank := HighestRank(d, held, user, project);
    assert HoldsRank(d, held, user, project, rank);
    role :| role in d.roles && Reaches(held, user, role, project) && RoleRank(d.roles[role].key) == rank;
  }

  /** Ranks do not rise when whatever a step newly reaches is no higher than the bound. */
  lemma NoHigher(d: Directory, held: Assignments, after: Assignments, project: int, bound: nat)
    requires Ranked(d, held, project, bound)
    requires forall u, r :: r in d.roles && Reaches(after, u, r, project)
                            ==> Reaches(held, u, r, project) || RoleRank(d.roles[r].key) <= bound
    ensures Ranked(d, after, project, bound)
  {
    forall u ensures HighestRank(d, after, u, project) <= bound {
      if HighestRank(d, after, u, project) > 0 {
        var r := RankIsHeld(d, after, u, project);
        if Reaches(held, u, r, project) { RankOfHeld(d, held, u, r, project); }
      }
    }
  }

  lemma GrantKeepsRanks(d: Directory, held: Assignments, caller: Option<Caller>, project: int, user: int, key: string,
                        p: int, bound: nat)
    requires Consistent(d, held) && Ranked(d, held, p, bound) && (caller.Some? ==> !caller.value.isAdmin)
    ensures Ranked(d, Grant(d, held, caller, project, user, key), p, bound)
  {
    var after := Grant(d, held, caller, project, user, key);
    forall u, r | r in d.roles && Reaches(after, u, r, p) && !Reaches(held, u, r, p)
      ensures RoleRank(d.roles[r].key) <= bound
    {
      GrantAdds(held, user, d.keys[key], project, u, r, p);
      assert HighestRank(d, held, caller.value.id, p) <= bound;
    }
    NoHigher(d, held, after, p, bound);
  }

  lemma RevokeKeepsRanks(d: Directory, held: Assignments, caller: Option<Caller>, project: int, user: int, role: int,
                         p: int, bound: nat)
    requires Ranked(d, held, p, bound)
    ensures Ranked(d, Revoke(d, held, caller, project, user, role), p, bound)
  {
    var after := Revoke(d, held, caller, project, user, role);
    forall u, r | r in d.roles && Reaches(after, u, r, p) ensures Reaches(held, u, r, p) {
      RevokeTakes(held, user, role, project, u, r, p);
    }
    NoHigher(d, held, after, p, bound);
  }

  lemma StepConsistent(d: Directory, held: Assignments, op: Op)
    requires Consistent(d, held)
    ensures Consistent(d, Step(d, held, op))
  {
  }

  /** No sequence of calls by ordinary callers raises the highest rank anyone holds on any project. */
  lemma {:induction false} RanksNeverRise(d: Directory, held: Assignments, ops: seq<Op>, project: int, bound: nat)
    requires Consistent(d, held) && Ranked(d, held, project, bound) && forall op :: op in ops ==> ByOrdinary(op)
    ensures Consistent(d, Run(d, held, ops)) && Ranked(d, Run(d, held, ops), project, bound)
  {
    if ops != [] {
      var before, op := ops[..|ops| - 1], ops[|ops| - 1];
      assert forall o :: o in before ==> o in ops;
      assert op in ops && ByOrdinary(op);
      RanksNeverRise(d, held, before, project, bound);
      var now := Run(d, held, before);
      StepConsistent(d, now, op);
      match op
      case GrantCall(caller, p, user, key) => GrantKeepsRanks(d, now, caller, p, user, key, project, bound);
      case EmailCall(caller, p, email, key) =>
        if GrantByEmailOutcome(d, now, caller, p, email, key) == Done {
          GrantKeepsRanks(d, now, caller, p, d.emails[Address(email)], key, project, bound);
        }
      case RevokeCall(caller, p, user, role) => RevokeKeepsRanks(d, now, caller, p, user, role, project, bound);
    }
  }

  predicate SameAssignment(held: Assignments, after: Assignments, user: int, role: int) {
    if (user, role) in held then (user, role) in after && after[(user, role)] == held[(user, role)]
    else (user, role) !in after
  }

  /** What one call leaves alone, whoever makes it. */
  ghost predicate Untouched(held: Assignments, after: Assignments, caller: Option<Caller>, project: int,
                            user: int, role: int, p: int)
  {
    && (caller.Some? && caller.value.id == user ==> SameAssignment(held, after, user, role))
    && ((user, role) in held && held[(user, role)].Everything? ==> SameAssignment(held, after, user, role))
    && ((user, role) in after && after[(user, role)].Everything? ==> SameAssignment(held, after, user, role))
    && (p != project ==> (Reaches(after, user, role, p) <==> Reaches(held, user, role, p)))
  }

  lemma RevokeTouchesOnly(d: Directory, held: Assignments, caller: Option<Caller>, project: int, target: int,
                          role0: int, user: int, role: int, p: int)
    ensures Untouched(held, Revoke(d, held, caller, project, target, role0), caller, project, user, role, p)
  {
    RevokeTakes(held, target, role0, project, user, role, p);
  }

  /**
  One call, whoever makes it, leaves alone the caller's own assignments, every
  role held over all projects, and the reach of every role on other projects.
  */
  lemma CallTouchesOnly(d: Directory, held: Assignments, op: Op, user: int, role: int, p: int)
    ensures Untouched(held, Step(d, held, op), op.caller, op.project, user, role, p)
  {
    if op.RevokeCall? {
      RevokeTouchesOnly(d, held, op.caller, op.project, op.user, op.role, user, role, p);
    }
  }

  /** Every call that anybody makes is this user's. */
  ghost predicate OnlyBy(ops: seq<Op>, user: int) {
    forall op :: op in ops ==> op.caller.Some? ==> op.caller.value.id == user
  }

  /**
  Over every sequence of calls: a role held over all projects stays, none
  becomes one, reach on a project no call names stays, and a user who makes
  every call keeps every assignment of their own.
  */
  lemma {:induction false} RunTouchesOnly(d: Directory, held: Assignments, ops: seq<Op>, user: int, role: int, p: int)
    ensures var after := Run(d, held, ops);
            && ((user, role) in held && held[(user, role)].Everything? ==> SameAssignment(held, after, user, role))
            && ((user, role) in after && after[(user, role)].Everything? ==> SameAssignment(held, after, user, role))
            && ((forall op :: op in ops ==> op.project != p)
                ==> (Reaches(after, user, role, p) <==> Reaches(held, user, role, p)))
            && (OnlyBy(ops, user) ==> SameAssignment(held, after, user, role))
  {
    if ops != [] {
      var before, op := ops[..|ops| - 1], ops[|ops| - 1];
      assert ops == before + [op];
      RunTouchesOnly(d, held, before, user, role, p);
      CallTouchesOnly(d, Run(d, held, before), op, user, role, p);
    }
  }

  /** An ordinary caller's call never changes what a platform administrator holds. */
  lemma AdministratorsUntouched(d: Directory, held: Assignments, op: Op, user: int, role: int)
    requires ByOrdinary(op) && user in d.users && d.users[user].isAdmin
    ensures SameAssignment(held, Step(d, held, op), user, role)
  {
  }

  // --- what the screens promise ---

  /** A role is offered exactly when it is active and granting it to an eligible account is accepted. */
  lemma OfferedIff(d: Directory, held: Assignments, caller: Caller, project: int, role: int, user: int)
    requires Consistent(d, held) && role in d.roles
    requires user != caller.id && user in d.users && !d.users[user].deleted && !d.users[user].isAdmin
    ensures Offered(d, held, caller, project, role)
            <==> d.roles[role].active
                 && GrantOutcome(d, held, Some(caller), project, user, d.roles[role].key) == Done
  {
  }

  /**
  A listed member can be removed exactly when shown as removable, by a caller
  who may manage members, and held on named projects only.
  */
  lemma RevokeIff(d: Directory, held: Assignments, caller: Caller, project: int, user: int, role: int)
    requires Listed(d, held, user, role, project)
    ensures RevokeOutcome(d, held, Some(caller), project, user, role) == Done
            <==> && Removable(d, held, caller, user, role, project)
                 && MayOn(d, held, caller, MEMBERS_MANAGE, project)
                 && !held[(user, role)].Everything?
  {
  }

  /** Some directory shows a member as removable to somebody whose attempt is refused. */
  lemma RemovableYetRefused() returns (d: Directory, held: Assignments, caller: Caller, user: int, role: int,
                            project: int)
    ensures Consistent(d, held) && !caller.isAdmin && Listed(d, held, user, role, project)
    ensures Removable(d, held, caller, user, role, project)
    ensures MayOn(d, held, caller, MEMBERS_MANAGE, project)
    ensures RevokeOutcome(d, held, Some(caller), project, user, role) == Unscoped
  {
    var admin, reader := Role("project_admin", true, {MEMBERS_READ, MEMBERS_MANAGE}), Role("project_reader", true, {});
    d := Directory(map[1 := User(false, false), 2 := User(false, false)], map[], map[7 := admin, 8 := reader],
                   map["project_admin" := 7, "project_reader" := 8]);
    held := map[(1, 7) := Projects({5}), (2, 8) := Everything];
    caller, user, role, project := Caller(1, false), 2, 8, 5;
    assert Reaches(held, 1, 7, 5);
    assert HoldsRank(d, held, 1, 5, 3);
  }

  /** After an accepted grant the same caller's revoke is accepted for an active role held on named projects. */
  lemma RevokeAfterGrant(d: Directory, held: Assignments, caller: Caller, project: int, user: int, key: string)
    requires Consistent(d, held) && GrantOutcome(d, held, Some(caller), project, user, key) == Done
    ensures var role := d.keys[key];
            var after := Grant(d, held, Some(caller), project, user, key);
            && (user, role) in after
            && RevokeOutcome(d, after, Some(caller), project, user, role)
               == if !d.roles[role].active then NotFound
                  else if after[(user, role)].Everything? then Unscoped
                  else Done
  {
    var role := d.keys[key];
    var after := Grant(d, held, Some(caller), project, user, key);
    OthersKeep(d, held, after, caller, project, user);
    GrantAdds(held, user, role, project, user, role, project);
  }

  lemma GrantAgain(held: Assignments, user: int, role: int, project: int)
    requires Reaches(held, user, role, project)
    ensures GrantProject(held, user, role, project) == held
  {
    if held[(user, role)].Projects? {
      assert held[(user, role)].ids + {project} == held[(user, role)].ids;
    }
  }

  lemma RevokeProjectUndoes(held: Assignments, user: int, role: int, project: int)
    requires (user, role) in held ==> held[(user, role)] != Projects({})
    ensures RevokeProject(GrantProject(held, user, role, project), user, role, project) == held
            <==> !Reaches(held, user, role, project) || held[(user, role)].Everything?
  {
    var after := GrantProject(held, user, role, project);
    if !Reaches(held, user, role, project) {
      if (user, role) in held {
        assert held[(user, role)].ids + {project} - {project} == held[(user, role)].ids;
      }
      assert RevokeProject(after, user, role, project) == held;
    } else if held[(user, role)].Projects? {
      RevokeTakes(after, user, role, project, user, role, project);
    }
  }

  /**
  Exactly when revoking what was just granted restores every assignment: for a
  role that did not reach the project before, when it is active; for one that
  did, when it covers every project or is inactive, as the revoke is refused.
  */
  lemma RevokeUndoesGrantIff(d: Directory, held: Assignments, caller: Caller, project: int, user: int, key: string)
    requires Consistent(d, held) && GrantOutcome(d, held, Some(caller), project, user, key) == Done
    ensures var role := d.keys[key];
            var after := Grant(d, held, Some(caller), project, user, key);
            Revoke(d, after, Some(caller), project, user, role) == held
            <==> if Reaches(held, user, role, project) then held[(user, role)].Everything? || !d.roles[role].active
                 else d.roles[role].active
  {
    var role := d.keys[key];
    RevokeAfterGrant(d, held, caller, project, user, key);
    RevokeProjectUndoes(held, user, role, project);
    if Reaches(held, user, role, project) {
      GrantAgain(held, user, role, project);
    } else {
      GrantAdds(held, user, role, project, user, role, project);
    }
  }

  /** A platform administrator grants an inactive role, and cannot take it back. */
  lemma InactiveGrantStays() returns (d: Directory, held: Assignments, caller: Caller, key: string)
    ensures Consistent(d, held) && GrantOutcome(d, held, Some(caller), 5, 2, key) == Done
    ensures !d.roles[d.keys[key]].active
    ensures var after := Grant(d, held, Some(caller), 5, 2, key);
            && RevokeOutcome(d, after, Some(caller), 5, 2, d.keys[key]) == NotFound
            && Revoke(d, after, Some(caller), 5, 2, d.keys[key]) == after != held
  {
    key := "auditor";
    d := Directory(map[1 := User(true, false), 2 := User(false, false)], map[], map[9 := Role(key, false, {})],
                   map[key := 9]);
    held, caller := map[], Caller(1, true);
  }

  /** Changing another account's assignments changes nothing about the caller. */
  lemma OthersKeep(d: Directory, held: Assignments, after: Assignments, caller: Caller, project: int, user: int)
    requires user != caller.id && forall u, r :: u != user ==> SameAssignment(held, after, u, r)
    ensures CallerRank(d, after, caller, project) == CallerRank(d, held, caller, project)
    ensures MayOn(d, after, caller, MEMBERS_MANAGE, project) == MayOn(d, held, caller, MEMBERS_MANAGE, project)
  {
    forall r ensures Reaches(after, caller.id, r, project) == Reaches(held, caller.id, r, project) {
      assert SameAssignment(held, after, caller.id, r);
    }
    forall rank: nat
      ensures HoldsRank(d, after, caller.id, project, rank) == HoldsRank(d, held, caller.id, project, rank)
    {
    }
  }

  // --- the service over its store ---

  class MemberService {
    const directory: Directory
    var assignments: Assignments

    constructor (directory: Directory, held: Assignments)
      ensures this.directory == directory && assignments == held
    {
      this.directory, assignments := directory, held;
    }

    /** The loop over a user's assignments, keeping the best rank that reaches the project. */
    method RankOf(caller: Caller, project: int) returns (rank: nat)
      requires Consistent(directory, assignments)
      ensures rank == CallerRank(directory, assignments, caller, project)
    {
      if caller.isAdmin { return RoleRank("project_admin") + 1; }
      var best := 0;
      var rest: set<(int, int)> := assignments.Keys;
      while rest != {}
        invariant rest <= assignments.Keys && best <= 3
        invariant best > 0 ==> HoldsRank(directory, assignments, caller.id, project, best)
        invariant forall a :: a in assignments && a !in rest && a.0 == caller.id && Allows(assignments[a], project)
                              ==> RoleRank(directory.roles[a.1].key) <= best
        decreases rest
      {
        ghost var some := Pick(rest);
        var a :| a in rest;
        rest := rest - {a};
        assert a == (a.0, a.1);
        if a.0 != caller.id || !Allows(assignments[a], project) { continue; }
        var held := RoleRank(directory.roles[a.1].key);
        if held > best {
          assert Reaches(assignments, caller.id, a.1, project);
          best := held;
        }
      }
      BestIsHighest(caller.id, project, best);
      rank := best;
    }

    lemma BestIsHighest(user: int, project: int, best: nat)
      requires Consistent(directory, assignments) && best <= 3
      requires best > 0 ==> HoldsRank(directory, assignments, user, project, best)
      requires forall a :: a in assignments && a.0 == user && Allows(assignments[a], project)
                           ==> RoleRank(directory.roles[a.1].key) <= best
      ensures best == HighestRank(directory, assignments, user, project)
    {
      var highest := HighestRank(directory, assignments, user, project);
      if highest > 0 {
        var role := RankIsHeld(directory, assignments, user, project);
        assert (user, role) in assignments;
      }
    }

    method DoGrant(caller: Option<Caller>, project: int, user: int, key: string) returns (outcome: Outcome)
      requires Consistent(directory, assignments)
      modifies this
      ensures outcome == GrantOutcome(directory, old(assignments), caller, project, user, key)
      ensures assignments == Grant(directory, old(assignments), caller, project, user, key)
    {
      if caller.None? { return NoUser; }
      if !MayOn(directory, assignments, caller.value, MEMBERS_MANAGE, project) { return Denied; }
      if caller.value.id == user { return SelfMembership; }
      if user !in directory.users || directory.users[user].deleted { return NotFound; }
      if directory.users[user].isAdmin { return TargetIsAdmin; }
      var callerRank := RankOf(caller.value, project);
      var rank := RoleRank(key);
      if rank == 0 || rank > callerRank {
        if !caller.value.isAdmin { return RoleTooHigh; }
      }
      if key !in directory.keys { return Invalid; }
      assignments := GrantProject(assignments, user, directory.keys[key], project);
      outcome := Done;
    }

    method DoGrantByEmail(caller: Option<Caller>, project: int, email: string, key: string) returns (outcome: Outcome)
      requires Consistent(directory, assignments)
      modifies this
      ensures outcome == GrantByEmailOutcome(directory, old(assignments), caller, project, email, key)
      ensures assignments == GrantByEmail(directory, old(assignments), caller, project, email, key)
    {
      if caller.None? { return NoUser; }
      if !MayOn(directory, assignments, caller.value, MEMBERS_MANAGE, project) { return Denied; }
      var address := ToLower(TrimSpace(email));
      if address == "" { return Invalid; }
      if !Registered(directory, address) { return NotFound; }
      outcome := DoGrant(caller, project, directory.emails[address], key);
    }

    method DoRevoke(caller: Option<Caller>, project: int, user: int, role: int) returns (outcome: Outcome)
      requires Consistent(directory, assignments)
      modifies this
      ensures outcome == RevokeOutcome(directory, old(assignments), caller, project, user, role)
      ensures assignments == Revoke(directory, old(assignments), caller, project, user, role)
    {
      if caller.None? { return NoUser; }
      if !MayOn(directory, assignments, caller.value, MEMBERS_MANAGE, project) { return Denied; }
      if caller.value.id == user { return SelfMembership; }
      var callerRank := RankOf(caller.value, project);
      if !Listed(directory, assignments, user, role, project) { return NotFound; }
      var may := MayChange(caller.value, callerRank, user, directory.users[user].isAdmin, directory.roles[role].key);
      if may != Done { return may; }
      if assignments[(user, role)].Everything? { return Unscoped; }
      assignments := RevokeProject(assignments, user, role, project);
      outcome := Done;
    }
  }
}
