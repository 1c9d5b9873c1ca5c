/** Edits of users, groups and rules, and exactly what each takes from, or gives to, the granted pairs. */
module Revocation {
  import opened Options
  import opened Policy
  import opened Database
  import opened Compiler

  /** The edits as the handlers run them: statements on several tables, one after the other. */
  class Store {
    var db: Db

    constructor (db: Db)
      ensures this.db == db
    {
      this.db := db;
    }

    method DeleteUser(id: string)
      modifies this
      ensures db == WithoutUser(old(db), id)
    {
      db := db.(members := set m <- db.members | m.0 != id);
      db := db.(users := map u <- db.users | u != id :: db.users[u]);
    }

    method DeleteGroup(id: string)
      modifies this
      ensures db == WithoutGroup(old(db), id)
    {
      db := db.(members := set m <- db.members | m.1 != id);
      db := db.(ruleGroups := set rg <- db.ruleGroups | rg.1 != id);
      db := db.(groups := map g <- db.groups | g != id :: db.groups[g]);
    }

    /** Only the rule's own row goes; its rows in access_rule_groups stay. */
    method DeleteRule(id: string)
      modifies this
      ensures db == WithoutRule(old(db), id)
    {
      db := db.(rules := map r <- db.rules | r != id :: db.rules[r]);
    }

    /** A rule id already taken makes the insert fail; group rows already present are ignored one by one. */
    method CreateRule(id: string, rule: Rule, groupIds: seq<string>) returns (created: bool)
      modifies this
      ensures created <==> id !in old(db).rules
      ensures db == if created then WithRule(old(db), id, rule, set g <- groupIds) else old(db)
    {
      if id in db.rules {
        return false;
      }
      db := db.(rules := db.rules[id := rule]);
      for i := 0 to |groupIds|
        invariant db == WithRule(old(db), id, rule, set g <- groupIds[..i])
      {
        assert groupIds[..i + 1] == groupIds[..i] + [groupIds[i]];
        db := db.(ruleGroups := db.ruleGroups + {(id, groupIds[i])});
      }
      assert groupIds[..|groupIds|] == groupIds;
      created := true;
    }

    /** The membership is added whether or not the user and the group exist. */
    method AddUserToGroup(user: string, group: string)
      modifies this
      ensures db == old(db).(members := old(db).members + {(user, group)})
    {
      db := db.(members := db.members + {(user, group)});
    }

    method RemoveUserFromGroup(user: string, group: string)
      modifies this
      ensures db == old(db).(members := old(db).members - {(user, group)})
    {
      db := db.(members := set m <- db.members | m != (user, group));
    }
  }

  function WithoutUser(db: Db, id: string): Db {
    db.(members := (set m <- db.members | m.0 != id), users := db.users - {id})
  }

  function WithoutGroup(db: Db, id: string): Db {
    db.(members := (set m <- db.members | m.1 != id),
        ruleGroups := (set rg <- db.ruleGroups | rg.1 != id),
        groups := db.groups - {id})
  }

  function WithoutRule(db: Db, id: string): Db {
    db.(rules := db.rules - {id})
  }

  function WithRule(db: Db, id: string, rule: Rule, groupIds: set<string>): Db {
    db.(rules := db.rules[id := rule], ruleGroups := db.ruleGroups + set g <- groupIds :: (id, g))
  }

  // ---------- Deletion removes exactly the paths through what was deleted ----------

  /** A pair survives the deletion of a user exactly when some path to it does not use that user. */
  lemma DeleteUserExact(db: Db, id: string, resource: string, identity: string)
    ensures Reaches(WithoutUser(db, id), resource, identity)
       <==> exists path :: Grants(db, path, resource, identity) && path.user != id
  {
    forall path
      ensures Grants(WithoutUser(db, id), path, resource, identity)
         <==> Grants(db, path, resource, identity) && path.user != id
    {
    }
  }

  lemma DeleteGroupExact(db: Db, id: string, resource: string, identity: string)
    ensures Reaches(WithoutGroup(db, id), resource, identity)
       <==> exists path :: Grants(db, path, resource, identity) && path.group != id
  {
    forall path
      ensures Grants(WithoutGroup(db, id), path, resource, identity)
         <==> Grants(db, path, resource, identity) && path.group != id
    {
    }
  }

  /** The rows a deleted rule leaves in access_rule_groups grant nothing, whatever the other tables hold. */
  lemma DeleteRuleExact(db: Db, id: string, resource: string, identity: string)
    ensures Reaches(WithoutRule(db, id), resource, identity)
       <==> exists path :: Grants(db, path, resource, identity) && path.rule != id
  {
    forall path
      ensures Grants(WithoutRule(db, id), path, resource, identity)
         <==> Grants(db, path, resource, identity) && path.rule != id
    {
    }
  }

  /**
   The deleted user is gone at both ends: putting the id into any group afterwards, or creating a user under the
   id again, brings nothing back.
   */
  lemma DeletedUserStaysOut(db: Db, id: string, group: string, user: User, resource: string, identity: string)
    ensures var gone := WithoutUser(db, id);
            && (Reaches(gone.(members := gone.members + {(id, group)}), resource, identity)
                <==> exists path :: Grants(db, path, resource, identity) && path.user != id)
            && (Reaches(gone.(users := gone.users[id := user]), resource, identity)
                <==> exists path :: Grants(db, path, resource, identity) && path.user != id)
  {
    var gone := WithoutUser(db, id);
    forall path
      ensures Grants(gone.(members := gone.members + {(id, group)}), path, resource, identity)
         <==> Grants(db, path, resource, identity) && path.user != id
      ensures Grants(gone.(users := gone.users[id := user]), path, resource, identity)
         <==> Grants(db, path, resource, identity) && path.user != id
    {
    }
  }

  /** Neither a user put into the deleted group nor a rule that lists it gets anything from the group. */
  lemma DeletedGroupStaysOut(db: Db, id: string, user: string, rule: string, resource: string, identity: string)
    ensures var gone := WithoutGroup(db, id);
            && (Reaches(gone.(members := gone.members + {(user, id)}), resource, identity)
                <==> exists path :: Grants(db, path, resource, identity) && path.group != id)
            && (Reaches(gone.(ruleGroups := gone.ruleGroups + {(rule, id)}), resource, identity)
                <==> exists path :: Grants(db, path, resource, identity) && path.group != id)
  {
    var gone := WithoutGroup(db, id);
    forall path
      ensures Grants(gone.(members := gone.members + {(user, id)}), path, resource, identity)
         <==> Grants(db, path, resource, identity) && path.group != id
      ensures Grants(gone.(ruleGroups := gone.ruleGroups + {(rule, id)}), path, resource, identity)
         <==> Grants(db, path, resource, identity) && path.group != id
    {
    }
  }

  /** Row by row: a deletion takes the rows that name the id, in these tables, and no other row of any table. */
  lemma DeletionsByRow(db: Db, id: string)
    ensures var gone := WithoutUser(db, id);
            && gone == db.(users := gone.users, members := gone.members)
            && (forall u :: u in gone.users <==> u in db.users && u != id)
            && (forall u <- gone.users :: gone.users[u] == db.users[u])
            && (forall m :: m in gone.members <==> m in db.members && m.0 != id)
    ensures var gone := WithoutGroup(db, id);
            && gone == db.(groups := gone.groups, members := gone.members, ruleGroups := gone.ruleGroups)
            && (forall g :: g in gone.groups <==> g in db.groups && g != id)
            && (forall g <- gone.groups :: gone.groups[g] == db.groups[g])
            && (forall m :: m in gone.members <==> m in db.members && m.1 != id)
            && (forall rg :: rg in gone.ruleGroups <==> rg in db.ruleGroups && rg.1 != id)
    ensures var gone := WithoutRule(db, id);
            && gone == db.(rules := gone.rules)
            && (forall r :: r in gone.rules <==> r in db.rules && r != id)
            && (forall r <- gone.rules :: gone.rules[r] == db.rules[r])
  {
  }

  /** A new rule adds its own row and one row for each of its groups, and changes no other row of any table. */
  lemma CreationByRow(db: Db, id: string, rule: Rule, groupIds: set<string>)
    requires id !in db.rules
    ensures var more := WithRule(db, id, rule, groupIds);
            && more == db.(rules := more.rules, ruleGroups := more.ruleGroups)
            && (forall r :: r in more.rules <==> r in db.rules || r == id)
            && (forall r <- more.rules :: more.rules[r] == if r == id then rule else db.rules[r])
            && (forall rg :: rg in more.ruleGroups <==> rg in db.ruleGroups || (rg.0 == id && rg.1 in groupIds))
  {
  }

  /** The same in terms of the compiled identity lists, for a resource that stays as it is. */
  lemma DeletionsShrinkCompiledLists(p: Platform, db: Db, id: string, resource: string, identity: string)
    requires resource in db.resources && db.resources[resource].address.Some?
    ensures Granted(CompiledResource(p, WithoutUser(db, id), resource), identity)
       <==> exists path :: Grants(db, path, resource, identity) && path.user != id
    ensures Granted(CompiledResource(p, WithoutGroup(db, id), resource), identity)
       <==> exists path :: Grants(db, path, resource, identity) && path.group != id
    ensures Granted(CompiledResource(p, WithoutRule(db, id), resource), identity)
       <==> exists path :: Grants(db, path, resource, identity) && path.rule != id
  {
    hide CompiledResource, Grants;
    CompiledIdentities(p, WithoutUser(db, id), resource, identity);
    CompiledIdentities(p, WithoutGroup(db, id), resource, identity);
    CompiledIdentities(p, WithoutRule(db, id), resource, identity);
    DeleteUserExact(db, id, resource, identity);
    DeleteGroupExact(db, id, resource, identity);
    DeleteRuleExact(db, id, resource, identity);
  }

  lemma RemoveMemberExact(db: Db, user: string, group: string, resource: string, identity: string)
    ensures Reaches(db.(members := db.members - {(user, group)}), resource, identity)
       <==> exists path :: Grants(db, path, resource, identity) && !(path.user == user && path.group == group)
  {
    var db' := db.(members := db.members - {(user, group)});
    forall path
      ensures Grants(db', path, resource, identity)
         <==> Grants(db, path, resource, identity) && !(path.user == user && path.group == group)
    {
    }
  }

  /** A new membership adds the one identity of its user, on the resources with an enabled rule for the group. */
  lemma AddMemberExact(db: Db, user: string, group: string, resource: string, identity: string)
    ensures Reaches(db.(members := db.members + {(user, group)}), resource, identity)
       <==> Reaches(db, resource, identity) || (Carries(db, user, identity) && GroupMayReach(db, group, resource))
  {
    var db' := db.(members := db.members + {(user, group)});
    if path :| Grants(db', path, resource, identity) {
      if (path.user, path.group) in db.members {
        assert Grants(db, path, resource, identity);
      } else {
        assert RuleLists(db, path.rule, group, resource);
      }
    }
    if path :| Grants(db, path, resource, identity) {
      assert Grants(db', path, resource, identity);
    }
    if Carries(db, user, identity) && GroupMayReach(db, group, resource) {
      var rule :| RuleLists(db, rule, group, resource);
      assert Grants(db', Path(rule, group, user), resource, identity);
    }
  }

  predicate Carries(db: Db, user: string, identity: string) {
    user in db.users && db.users[user].certificate == Some(identity) && identity != ""
  }

  predicate RuleLists(db: Db, rule: string, group: string, resource: string) {
    && rule in db.rules && db.rules[rule].resource == resource && db.rules[rule].enabled == 1
    && (rule, group) in db.ruleGroups
  }

  ghost predicate GroupMayReach(db: Db, group: string, resource: string) {
    exists rule :: RuleLists(db, rule, group, resource)
  }

  /** A new rule adds the identities of its groups on its one resource, and touches no other pair. */
  lemma CreateRuleExact(db: Db, id: string, rule: Rule, groupIds: set<string>, resource: string, identity: string)
    requires id !in db.rules
    ensures Reaches(WithRule(db, id, rule, groupIds), resource, identity)
       <==> Reaches(db, resource, identity)
            || (resource == rule.resource && rule.enabled == 1
                && exists g <- groupIds + Leftovers(db, id) :: GroupHolds(db, g, identity))
  {
    var db' := WithRule(db, id, rule, groupIds);
    if path :| Grants(db', path, resource, identity) {
      if path.rule == id {
        assert path.group in groupIds + Leftovers(db, id);
        assert GroupHolds(db, path.group, identity) by {
          assert HoldsVia(db, path.group, path.user, identity);
        }
      } else {
        assert Grants(db, path, resource, identity);
      }
    }
    if path :| Grants(db, path, resource, identity) {
      assert Grants(db', path, resource, identity);
    }
    if resource == rule.resource && rule.enabled == 1
       && exists g <- groupIds + Leftovers(db, id) :: GroupHolds(db, g, identity) {
      var g :| g in groupIds + Leftovers(db, id) && GroupHolds(db, g, identity);
      var user :| HoldsVia(db, g, user, identity);
      assert Grants(db', Path(id, g, user), resource, identity);
    }
  }

  ghost predicate HoldsVia(db: Db, group: string, user: string, identity: string) {
    (user, group) in db.members && Carries(db, user, identity)
  }

  ghost predicate GroupHolds(db: Db, group: string, identity: string) {
    exists user :: HoldsVia(db, group, user, identity)
  }

  /** Groups still attached to a rule id by an earlier rule of that id. */
  function Leftovers(db: Db, id: string): set<string> {
    set rg <- db.ruleGroups | rg.0 == id :: rg.1
  }

  /**
   Deletion leaves those rows, so a rule created again under the same id grants the old groups at once. The
   handlers build ids from the clock in milliseconds, one of them adding the group's and the resource's id, so
   this takes two creations at the same clock reading.
   */
  lemma RecreatedRuleRevivesGroups(db: Db, id: string, rule: Rule, group: string, identity: string)
    requires (id, group) in db.ruleGroups && GroupHolds(db, group, identity) && rule.enabled == 1
    ensures Reaches(WithRule(WithoutRule(db, id), id, rule, {}), rule.resource, identity)
  {
    var gone := WithoutRule(db, id);
    CreateRuleExact(gone, id, rule, {}, rule.resource, identity);
    assert (id, group) in gone.ruleGroups && group in {} + Leftovers(gone, id);
    var user :| HoldsVia(db, group, user, identity);
    assert HoldsVia(gone, group, user, identity);
  }
}
