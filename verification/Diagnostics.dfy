/** The access decision of the diagnostics trace, and how far it agrees with the policy compiler. */
module Diagnostics {
  import opened Options
  import opened Text
  import opened Policy
  import opened Database
  import opened Compiler
  import opened Revocation

  datatype Trace = Trace(allowed: bool, matchedRules: seq<string>)

  /** The groups the trace finds for a user: memberships joined with the groups that exist. */
  function GroupsSeen(db: Db, user: string): set<string> {
    set m <- db.members | m.0 == user && m.1 in db.groups :: m.1
  }

  function GroupsOfRule(db: Db, rule: string): set<string> {
    set rg <- db.ruleGroups | rg.0 == rule :: rg.1
  }

  function RulesOn(db: Db, resource: string): set<string> {
    set r <- db.rules | db.rules[r].resource == resource
  }

  /** A rule matches when it is not disabled and shares a group with the user. */
  predicate Matches(db: Db, rule: string, user: string)
    requires rule in db.rules
  {
    db.rules[rule].enabled != 0 && GroupsOfRule(db, rule) * GroupsSeen(db, user) != {}
  }

  predicate TraceAllows(db: Db, user: string, resource: string) {
    exists r <- RulesOn(db, resource) :: Matches(db, r, user)
  }

  function Matching(db: Db, rows: seq<string>, user: string): seq<string>
    requires forall r <- rows :: r in db.rules
  {
    if rows == [] then []
    else
      var last := rows[|rows| - 1];
      var before := Matching(db, rows[..|rows| - 1], user);
      if Matches(db, last, user) then before + [last] else before
  }

  /** The rules arrive in whatever order the database returns them, which is the parameter `rows`. */
  method TraceAccess(db: Db, user: string, resource: string, rows: seq<string>) returns (r: Result<Trace>)
    requires Elements(rows) == RulesOn(db, resource)
    ensures r.Ok? <==> user in db.users && resource in db.resources && db.resources[resource].address.Some?
    ensures r.Ok? ==> r.value.allowed == TraceAllows(db, user, resource)
    ensures r.Ok? ==> (forall x <- rows :: x in db.rules) && r.value.matchedRules == Matching(db, rows, user)
  {
    if user !in db.users {
      return Err("user not found");
    }
    var userGroupIds := GroupsSeen(db, user);
    if resource !in db.resources {
      return Err("resource not found");
    }
    if db.resources[resource].address.None? {
      return Err("failed to query resource");
    }
    forall x <- rows ensures x in db.rules {
      assert x in Elements(rows);
    }
    var allowed, matched := false, [];
    for i := 0 to |rows|
      invariant matched == Matching(db, rows[..i], user)
      invariant allowed <==> exists k :: 0 <= k < i && Matches(db, rows[k], user)
    {
      assert rows[..i + 1][..i] == rows[..i];
      if db.rules[rows[i]].enabled == 0 {
        continue;
      }
      var groups := Ascending(GroupsOfRule(db, rows[i]));
      var hit := SharesGroup(groups, userGroupIds);
      if hit {
        allowed, matched := true, matched + [rows[i]];
      }
    }
    assert rows[..|rows|] == rows;
    assert allowed <==> TraceAllows(db, user, resource) by {
      if TraceAllows(db, user, resource) {
        var x :| x in RulesOn(db, resource) && Matches(db, x, user);
        assert x in Elements(rows);
      }
      if k :| 0 <= k < |rows| && Matches(db, rows[k], user) {
        assert rows[k] in Elements(rows);
      }
    }
    r := Ok(Trace(allowed, matched));
  }

  /** The inner loop, left at the first group the user is in. */
  method SharesGroup(groups: seq<string>, userGroupIds: set<string>) returns (hit: bool)
    ensures hit <==> Elements(groups) * userGroupIds != {}
  {
    for i := 0 to |groups|
      invariant forall k :: 0 <= k < i ==> groups[k] !in userGroupIds
    {
      if groups[i] in userGroupIds {
        assert groups[i] in Elements(groups) * userGroupIds;
        return true;
      }
    }
    hit := false;
  }

  /** The matched rules are the matching ones of the rows, in their order: row by row, each where it stood. */
  lemma {:induction false} MatchingByRow(db: Db, a: seq<string>, x: string, b: seq<string>, user: string)
    requires forall r <- a + [x] + b :: r in db.rules
    ensures forall r <- a :: r in a + [x] + b
    ensures forall r <- b :: r in a + [x] + b
    ensures x in a + [x] + b
    ensures Matching(db, a + [x] + b, user)
         == Matching(db, a, user) + (if Matches(db, x, user) then [x] else []) + Matching(db, b, user)
    decreases |b|
  {
    if b == [] {
      assert a + [x] + b == a + [x];
      assert (a + [x])[..|a|] == a;
    } else {
      var n := |b| - 1;
      var all := a + [x] + b;
      assert all[..|all| - 1] == a + [x] + b[..n] && all[|all| - 1] == b[n];
      MatchingByRow(db, a, x, b[..n], user);
    }
  }

  /** A membership in a deleted group is not seen by the trace, although the row can be added again. */
  lemma DeletedGroupUnseen(db: Db, id: string, user: string)
    ensures var gone := WithoutGroup(db, id);
            GroupsSeen(gone.(members := gone.members + {(user, id)}), user) == GroupsSeen(db, user) - {id}
  {
  }

  // ---------- Agreement with the compiler ----------

  predicate FlagsAreBits(db: Db) {
    forall r <- db.rules :: db.rules[r].enabled in {0, 1}
  }

  /** The groups the trace finds for the user are the groups that hold the user's identity. */
  ghost predicate SeesItsGroups(db: Db, user: string, identity: string) {
    forall g :: g in GroupsSeen(db, user) <==> GroupHolds(db, g, identity)
  }

  lemma TraceAgrees(db: Db, user: string, identity: string, resource: string)
    requires FlagsAreBits(db) && SeesItsGroups(db, user, identity)
    ensures TraceAllows(db, user, resource) <==> Reaches(db, resource, identity)
  {
    if TraceAllows(db, user, resource) {
      var r :| r in RulesOn(db, resource) && Matches(db, r, user);
      var g :| g in GroupsOfRule(db, r) && g in GroupsSeen(db, user);
      assert GroupHolds(db, g, identity);
      var u :| HoldsVia(db, g, u, identity);
      assert Grants(db, Path(r, g, u), resource, identity);
    }
    if path :| Grants(db, path, resource, identity) {
      assert HoldsVia(db, path.group, path.user, identity);
      assert GroupHolds(db, path.group, identity);
      assert path.group in GroupsOfRule(db, path.rule) * GroupsSeen(db, user);
      assert path.rule in RulesOn(db, resource) && Matches(db, path.rule, user);
    }
  }

  /** With one certificate identity of its own and memberships in existing groups only, a user is traced rightly. */
  lemma UniqueIdentitySees(db: Db, user: string, identity: string)
    requires user in db.users && db.users[user].certificate == Some(identity) && identity != ""
    requires forall u <- db.users :: db.users[u].certificate == Some(identity) ==> u == user
    requires forall m <- db.members :: m.0 == user ==> m.1 in db.groups
    ensures SeesItsGroups(db, user, identity)
  {
    forall g ensures g in GroupsSeen(db, user) <==> GroupHolds(db, g, identity) {
      if g in GroupsSeen(db, user) {
        assert HoldsVia(db, g, user, identity);
      }
      if u :| HoldsVia(db, g, u, identity) {
        assert u == user && (user, g) in db.members;
      }
    }
  }

  /** The trace says allowed exactly when the compiled identity list of the resource holds the user's identity. */
  lemma TraceMatchesCompiler(p: Platform, db: Db, user: string, identity: string, resource: string)
    requires user in db.users && db.users[user].certificate == Some(identity) && identity != ""
    requires forall u <- db.users :: db.users[u].certificate == Some(identity) ==> u == user
    requires forall m <- db.members :: m.0 == user ==> m.1 in db.groups
    requires FlagsAreBits(db) && resource in db.resources && db.resources[resource].address.Some?
    ensures TraceAllows(db, user, resource) <==> identity in CompiledResource(p, db, resource).identities
  {
    UniqueIdentitySees(db, user, identity);
    TraceAgrees(db, user, identity, resource);
    CompiledIdentities(p, db, resource, identity);
  }

  function WithRules(db: Db, rules: map<string, Rule>, ruleGroups: set<(string, string)>): Db {
    db.(rules := rules, ruleGroups := ruleGroups)
  }

  /** One rule attached to one group. */
  function OneRule(db: Db, enabled: int, group: string): Db {
    WithRules(db, map["rule" := Rule("", "resource", enabled)], {("rule", group)})
  }

  lemma OneRuleDecides(db: Db, enabled: int, group: string, user: string, identity: string)
    ensures TraceAllows(OneRule(db, enabled, group), user, "resource")
       <==> enabled != 0 && group in GroupsSeen(db, user)
    ensures Reaches(OneRule(db, enabled, group), "resource", identity)
       <==> enabled == 1 && GroupHolds(db, group, identity)
  {
    var one := OneRule(db, enabled, group);
    assert ("rule", group) in one.ruleGroups;
    assert GroupsSeen(one, user) == GroupsSeen(db, user);
    assert GroupsOfRule(one, "rule") == {group} by {
      assert forall g :: g in GroupsOfRule(one, "rule") ==> ("rule", g) in one.ruleGroups;
    }
    assert RulesOn(one, "resource") == {"rule"};
    assert group in GroupsSeen(db, user) ==> group in GroupsOfRule(one, "rule") * GroupsSeen(one, user);
    if path :| Grants(one, path, "resource", identity) {
      assert path.group == group && HoldsVia(db, group, path.user, identity);
    }
    if enabled == 1 && GroupHolds(db, group, identity) {
      var u :| HoldsVia(db, group, u, identity);
      assert Grants(one, Path("rule", group, u), "resource", identity);
    }
  }

  /**
   For given users, groups and memberships, the trace agrees with the compiler under every set of rules with
   0/1 flags exactly when it sees the right groups; a membership naming no group is enough to break it.
   */
  lemma TraceAgreesExactly(db: Db, user: string, identity: string)
    ensures (forall rules, ruleGroups, resource ::
               var db' := WithRules(db, rules, ruleGroups);
               FlagsAreBits(db') ==> (TraceAllows(db', user, resource) <==> Reaches(db', resource, identity)))
       <==> SeesItsGroups(db, user, identity)
  {
    if SeesItsGroups(db, user, identity) {
      forall rules, ruleGroups, resource | FlagsAreBits(WithRules(db, rules, ruleGroups))
        ensures var db' := WithRules(db, rules, ruleGroups);
                TraceAllows(db', user, resource) <==> Reaches(db', resource, identity)
      {
        var db' := WithRules(db, rules, ruleGroups);
        assert GroupsSeen(db', user) == GroupsSeen(db, user);
        forall g ensures GroupHolds(db', g, identity) <==> GroupHolds(db, g, identity) {
          assert forall u :: HoldsVia(db', g, u, identity) <==> HoldsVia(db, g, u, identity);
        }
        TraceAgrees(db', user, identity, resource);
      }
    } else {
      var g :| g in GroupsSeen(db, user) <==> !GroupHolds(db, g, identity);
      OneRuleDecides(db, 1, g, user, identity);
      var one := OneRule(db, 1, g);
      assert FlagsAreBits(one) && one == WithRules(db, one.rules, one.ruleGroups);
    }
  }

  /**
   A flag other than 0 and 1 reads as enabled to the trace and as disabled to the compiler. No handler writes
   such a flag; the table's column allows it.
   */
  lemma OddFlagDisagrees(db: Db, enabled: int, group: string, user: string, identity: string)
    requires group in GroupsSeen(db, user) && GroupHolds(db, group, identity)
    ensures (TraceAllows(OneRule(db, enabled, group), user, "resource")
             <==> Reaches(OneRule(db, enabled, group), "resource", identity))
       <==> enabled in {0, 1}
  {
    OneRuleDecides(db, enabled, group, user, identity);
  }
}
