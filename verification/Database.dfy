/** The controller's tables, by primary key, and what it means for the rules to reach an identity. */
module Database {
  import opened Options
  import opened Text

  datatype User = User(name: string, certificate: Option<string>)

  datatype Rule = Rule(name: string, resource: string, enabled: int)

  datatype ResourceRow = ResourceRow(
    kind: string,
    address: Option<string>,
    protocol: Option<string>,
    portFrom: Option<int>,
    portTo: Option<int>,
    network: Option<string>)

  datatype Assignment = Assignment(network: string, assignedAt: int)

  datatype Db = Db(
    users: map<string, User>,
    groups: map<string, string>,            // id to name
    members: set<(string, string)>,         // (user, group)
    rules: map<string, Rule>,
    ruleGroups: set<(string, string)>,      // (rule, group)
    resources: map<string, ResourceRow>,
    connectors: map<string, Option<string>>,        // id to its own network, if set
    assignments: map<string, seq<Assignment>>)      // connector to its assigned networks

  /** One way for a resource to be granted: a rule on it, a group of the rule, a member of the group. */
  datatype Path = Path(rule: string, group: string, user: string)

  ghost predicate Grants(db: Db, path: Path, resource: string, identity: string) {
    && path.rule in db.rules && db.rules[path.rule].resource == resource && db.rules[path.rule].enabled == 1
    && (path.rule, path.group) in db.ruleGroups
    && (path.user, path.group) in db.members
    && path.user in db.users && db.users[path.user].certificate == Some(identity)
    && identity != ""
  }

  ghost predicate Reaches(db: Db, resource: string, identity: string) {
    exists path :: Grants(db, path, resource, identity)
  }

  /** The join the compiler selects from, with DISTINCT; identities that are set but empty are still in it. */
  function IdentityRows(db: Db, resource: string): set<string> {
    set rg <- db.ruleGroups, m <- db.members |
      && rg.1 == m.1
      && rg.0 in db.rules && db.rules[rg.0].resource == resource && db.rules[rg.0].enabled == 1
      && m.0 in db.users && db.users[m.0].certificate.Some?
      :: db.users[m.0].certificate.value
  }

  lemma RowsReach(db: Db, resource: string, identity: string)
    requires identity != ""
    ensures identity in IdentityRows(db, resource) <==> Reaches(db, resource, identity)
  {
    if identity in IdentityRows(db, resource) {
      var rg, m :| rg in db.ruleGroups && m in db.members && rg.1 == m.1
        && rg.0 in db.rules && db.rules[rg.0].resource == resource && db.rules[rg.0].enabled == 1
        && m.0 in db.users && db.users[m.0].certificate == Some(identity);
      assert Grants(db, Path(rg.0, rg.1, m.0), resource, identity);
    }
    if path :| Grants(db, path, resource, identity) {
      var rg, m := (path.rule, path.group), (path.user, path.group);
      assert rg in db.ruleGroups && m in db.members;
    }
  }

  // ---------- The network of a connector ----------

  function LatestOf(rows: seq<Assignment>): (a: Assignment)
    requires rows != []
    ensures a in rows && forall b <- rows :: b.assignedAt <= a.assignedAt
  {
    if |rows| == 1 then rows[0]
    else
      var rest := LatestOf(rows[1..]);
      assert rows == [rows[0]] + rows[1..];
      if rows[0].assignedAt >= rest.assignedAt then rows[0] else rest
  }

  predicate Blank(s: string) {
    Trim(s) == ""
  }

  lemma BlankMeans(s: string)
    ensures Blanks(s) ==> Blank(s)
    ensures s != "" && Visible(s[0]) && Visible(s[|s| - 1]) ==> !Blank(s)
  {
    if Blanks(s) {
      TrimStrips(s, "", "");
      assert s + "" + "" == s;
    } else if s != "" && Visible(s[0]) && Visible(s[|s| - 1]) {
      TrimStrips("", s, "");
      assert "" + s + "" == s;
    }
  }

  /** A connector's own network wins unless it is blank; then the latest assignment does, unless it is blank. */
  function ConnectorNetwork(db: Db, connector: string): Option<string> {
    if connector !in db.connectors then None
    else if db.connectors[connector].Some? && !Blank(db.connectors[connector].value) then db.connectors[connector]
    else if connector !in db.assignments || db.assignments[connector] == [] then None
    else
      var network := LatestOf(db.assignments[connector]).network;
      if Blank(network) then None else Some(network)
  }

  predicate HasOwnNetwork(db: Db, connector: string) {
    connector in db.connectors && db.connectors[connector].Some? && !Blank(db.connectors[connector].value)
  }

  predicate HasAssignmentsOnly(db: Db, connector: string) {
    && connector in db.connectors && !HasOwnNetwork(db, connector)
    && connector in db.assignments && db.assignments[connector] != []
  }

  predicate IsLatest(rows: seq<Assignment>, a: Assignment) {
    a in rows && forall b <- rows :: b.assignedAt <= a.assignedAt
  }

  /** An own network is found; without one, that of a latest assignment unless it is blank; otherwise none. */
  lemma NetworkExactly(db: Db, connector: string)
    ensures HasOwnNetwork(db, connector) ==> ConnectorNetwork(db, connector) == db.connectors[connector]
    ensures HasAssignmentsOnly(db, connector) ==>
      exists a :: IsLatest(db.assignments[connector], a)
                  && ConnectorNetwork(db, connector) == if Blank(a.network) then None else Some(a.network)
    ensures !HasOwnNetwork(db, connector) && !HasAssignmentsOnly(db, connector) ==>
      ConnectorNetwork(db, connector) == None
  {
    if HasAssignmentsOnly(db, connector) {
      assert IsLatest(db.assignments[connector], LatestOf(db.assignments[connector]));
    }
  }

  /** The network found is never blank; the connector's own comes first, else that of a latest assignment. */
  lemma NetworkFound(db: Db, connector: string)
    requires ConnectorNetwork(db, connector).Some?
    ensures var network := ConnectorNetwork(db, connector).value;
            && !Blank(network) && connector in db.connectors
            && (db.connectors[connector] == Some(network)
                || ((db.connectors[connector].None? || Blank(db.connectors[connector].value))
                    && connector in db.assignments
                    && exists a <- db.assignments[connector] ::
                         a.network == network && forall b <- db.assignments[connector] :: b.assignedAt <= a.assignedAt))
  {
    if db.connectors[connector] != ConnectorNetwork(db, connector) {
      var a := LatestOf(db.assignments[connector]);
      assert a in db.assignments[connector] && a.network == ConnectorNetwork(db, connector).value;
    }
  }
}
