/**
Who may change project memberships, said of the stored roles and assignments
themselves: the permission, the ladder of built-in roles, and who is out of
reach.
*/
module MemberLaws {
  import opened Common
  import opened ProjectScope
  import opened Text
  import opened Members

  /** The assignment covers the project. */
  ghost predicate Covers(held: Assignments, user: int, role: int, project: int) {
    && (user, role) in held
    && match held[(user, role)]
       case Everything => true
       case Projects(ids) => project in ids
  }

  /** A platform administrator, or a holder of an active role with members.manage on the project. */
  ghost predicate Manages(d: Directory, held: Assignments, caller: Caller, project: int) {
    || caller.isAdmin
    || exists role :: role in d.roles && Covers(held, caller.id, role, project)
                      && d.roles[role].active && "members.manage" in d.roles[role].permissions
  }

  lemma ManagesIff(d: Directory, held: Assignments, caller: Caller, project: int)
    ensures Manages(d, held, caller, project) <==> MayOn(d, held, caller, MEMBERS_MANAGE, project)
  {
    forall role ensures Covers(held, caller.id, role, project) <==> Reaches(held, caller.id, role, project) {}
  }

  /** A caller is denied exactly without that, whatever else the call says. */
  lemma DeniedIff(d: Directory, held: Assignments, caller: Caller, project: int, user: int, key: string, role: int,
                  email: string)
    ensures GrantOutcome(d, held, Some(caller), project, user, key) == Denied <==> !Manages(d, held, caller, project)
    ensures RevokeOutcome(d, held, Some(caller), project, user, role) == Denied <==> !Manages(d, held, caller, project)
    ensures GrantByEmailOutcome(d, held, Some(caller), project, email, key) == Denied
            <==> !Manages(d, held, caller, project)
  {
    ManagesIff(d, held, caller, project);
  }

  /** A call that changes an assignment is made by somebody who manages the project's members. */
  lemma ChangeIsByManager(d: Directory, held: Assignments, op: Op)
    requires Step(d, held, op) != held
    ensures op.caller.Some? && Manages(d, held, op.caller.value, op.project)
  {
    if op.caller.Some? { ManagesIff(d, held, op.caller.value, op.project); }
  }

  /** Over any sequence of calls: what is not as it was goes back to a call of such a caller. */
  lemma {:induction false} RunChangeIsByManager(d: Directory, held: Assignments, ops: seq<Op>) returns (i: nat)
    requires Run(d, held, ops) != held
    ensures i < |ops| && Run(d, held, ops[..i]) == held && ops[i].caller.Some?
    ensures Manages(d, held, ops[i].caller.value, ops[i].project)
  {
    var n := |ops| - 1;
    if Run(d, held, ops[..n]) != held {
      i := RunChangeIsByManager(d, held, ops[..n]);
      assert ops[..n][..i] == ops[..i];
    } else {
      ChangeIsByManager(d, held, ops[n]);
      i := n;
    }
  }

  // --- the ladder ---

  /** The user holds the role of this key on the project. */
  ghost predicate HoldsKey(d: Directory, held: Assignments, user: int, project: int, key: string) {
    exists role :: role in d.roles && d.roles[role].key == key && Covers(held, user, role, project)
  }

  /** The user holds a built-in role on the project that is no lower than the one of this key. */
  ghost predicate StandsAt(d: Directory, held: Assignments, user: int, project: int, key: string) {
    || HoldsKey(d, held, user, project, "project_admin")
    || (key != "project_admin" && HoldsKey(d, held, user, project, "project_writer"))
    || (key == "project_reader" && HoldsKey(d, held, user, project, "project_reader"))
  }

  lemma HoldsKeyIff(d: Directory, held: Assignments, user: int, project: int)
    ensures HoldsKey(d, held, user, project, "project_reader") <==> HoldsRank(d, held, user, project, 1)
    ensures HoldsKey(d, held, user, project, "project_writer") <==> HoldsRank(d, held, user, project, 2)
    ensures HoldsKey(d, held, user, project, "project_admin") <==> HoldsRank(d, held, user, project, 3)
  {
    forall role ensures Covers(held, user, role, project) <==> Reaches(held, user, role, project) {}
  }

  lemma StandsAtIff(d: Directory, held: Assignments, user: int, project: int, key: string)
    requires key == "project_reader" || key == "project_writer" || key == "project_admin"
    ensures StandsAt(d, held, user, project, key) <==> RoleRank(key) <= HighestRank(d, held, user, project)
  {
    HoldsKeyIff(d, held, user, project);
  }

  ghost predicate IsOrdinaryUser(d: Directory, user: int) {
    user in d.users && !d.users[user].deleted && !d.users[user].isAdmin
  }

  /**
  A grant is accepted exactly from a manager, of an existing role, to another
  account that is neither deleted nor a platform administrator's; an ordinary
  caller grants the three built-in roles only, up to the highest they hold there.
  */
  lemma GrantAcceptedIff(d: Directory, held: Assignments, caller: Caller, project: int, user: int, key: string)
    ensures GrantOutcome(d, held, Some(caller), project, user, key) == Done
            <==> && Manages(d, held, caller, project)
                 && caller.id != user && IsOrdinaryUser(d, user) && key in d.keys
                 && (|| caller.isAdmin
                     || ((key == "project_reader" || key == "project_writer" || key == "project_admin")
                         && StandsAt(d, held, caller.id, project, key)))
  {
    ManagesIff(d, held, caller, project);
    if key == "project_reader" || key == "project_writer" || key == "project_admin" {
      StandsAtIff(d, held, caller.id, project, key);
    }
  }

  /** An accepted grant adds this project to the role of the key, and touches nothing else. */
  lemma GrantEffect(d: Directory, held: Assignments, caller: Caller, project: int, user: int, key: string,
                    u: int, r: int, p: int)
    requires GrantOutcome(d, held, Some(caller), project, user, key) == Done
    ensures Covers(Grant(d, held, Some(caller), project, user, key), u, r, p)
            <==> Covers(held, u, r, p) || (u == user && r == d.keys[key] && p == project)
  {
    GrantAdds(held, user, d.keys[key], project, u, r, p);
  }

  /**
  A revoke is accepted exactly from a manager, for an active role another account
  that is not deleted holds on named projects, this one among them; an ordinary
  caller removes no platform administrator and no built-in role above their own.
  */
  lemma RevokeAcceptedIff(d: Directory, held: Assignments, caller: Caller, project: int, user: int, role: int)
    ensures RevokeOutcome(d, held, Some(caller), project, user, role) == Done
            <==> && Manages(d, held, caller, project)
                 && caller.id != user && user in d.users && !d.users[user].deleted
                 && role in d.roles && d.roles[role].active
                 && (user, role) in held && held[(user, role)].Projects? && project in held[(user, role)].ids
                 && (|| caller.isAdmin
                     || (!d.users[user].isAdmin
                         && (d.roles[role].key == "project_reader" || d.roles[role].key == "project_writer"
                             || d.roles[role].key == "project_admin"
                             ==> StandsAt(d, held, caller.id, project, d.roles[role].key))))
  {
    ManagesIff(d, held, caller, project);
    if role in d.roles {
      var key := d.roles[role].key;
      if key == "project_reader" || key == "project_writer" || key == "project_admin" {
        StandsAtIff(d, held, caller.id, project, key);
      }
    }
  }

  /** An accepted revoke takes this project from the role, and touches nothing else. */
  lemma RevokeEffect(d: Directory, held: Assignments, caller: Caller, project: int, user: int, role: int,
                     u: int, r: int, p: int)
    requires RevokeOutcome(d, held, Some(caller), project, user, role) == Done
    ensures Covers(Revoke(d, held, Some(caller), project, user, role), u, r, p)
            <==> Covers(held, u, r, p) && !(u == user && r == role && p == project)
  {
    RevokeTakes(held, user, role, project, u, r, p);
  }

  /** By address: a manager first; then the account of the trimmed address in lower case, as a grant to it. */
  lemma GrantByEmailAcceptedIff(d: Directory, held: Assignments, caller: Caller, project: int, email: string,
                                key: string)
    ensures var address := ToLower(TrimSpace(email));
            GrantByEmailOutcome(d, held, Some(caller), project, email, key) == Done
            <==> && Manages(d, held, caller, project) && address != ""
                 && address in d.emails && d.emails[address] in d.users && !d.users[d.emails[address]].deleted
                 && GrantOutcome(d, held, Some(caller), project, d.emails[address], key) == Done
  {
    ManagesIff(d, held, caller, project);
  }
}
