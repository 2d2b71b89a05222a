/** The four seed phases as transformations of the database, by the unique columns that the upserts
    resolve on. */
module Seeding {
  import opened Common

  datatype UserStatus = ACTIVE | INACTIVE | PENDING

  datatype Rule = Rule(enabled: bool, codes: set<string>)

  datatype Role = Role(restricted: bool, codes: set<string>)

  datatype User = User(passwordHash: string, status: UserStatus, personId: string, roles: set<string>)

  /** Permission codes, rules by endpoint key, roles by name, users by e-mail. */
  datatype Db = Db(perms: set<string>, rules: map<string, Rule>, roles: map<string, Role>, users: map<string, User>)

  datatype SeedRule = SeedRule(key: string, code: string, enabled: bool)

  /** An empty list of codes stands for all permissions. */
  datatype SeedRole = SeedRole(name: string, codes: seq<string>, restricted: bool)

  datatype SeedUser = SeedUser(email: string, password: string, status: UserStatus, personId: string,
                               roleNames: seq<string>)

  datatype Seed = Seed(permissions: seq<string>, rules: seq<SeedRule>, roles: seq<SeedRole>, admin: SeedUser)

  /** The seed the service ships with, over its lists of permissions and rules. */
  function Shipped(permissions: seq<string>, rules: seq<SeedRule>, password: string): Seed {
    Seed(permissions, rules, [SeedRole("SUPER_ADMIN", [], true)],
         SeedUser("admin@admin.com", password, ACTIVE, "00000000-0000-0000-0000-000000000001", ["SUPER_ADMIN"]))
  }

  datatype Error = RowAffectedTwice | DuplicatePerson

  predicate Distinct<T(==)>(s: seq<T>) {
    forall i, j | 0 <= i < j < |s| :: s[i] != s[j]
  }

  function Keys(rules: seq<SeedRule>): seq<string> {
    seq(|rules|, i requires 0 <= i < |rules| => rules[i].key)
  }

  // ----- The phases -----

  /** One upsert statement; Postgres refuses to affect a row twice. */
  function SeedPermissions(permissions: seq<string>, db: Db): Result<Db, Error> {
    if !Distinct(permissions) then Err(RowAffectedTwice) else Ok(db.(perms := db.perms + Elements(permissions)))
  }

  /** Relations are not part of the upsert: a rule that is there keeps its permissions. */
  function UpsertRule(table: map<string, Rule>, r: SeedRule): map<string, Rule> {
    table[r.key := Rule(r.enabled, if r.key in table then table[r.key].codes else {})]
  }

  function UpsertRules(table: map<string, Rule>, rules: seq<SeedRule>): map<string, Rule>
    decreases |rules|
  {
    if rules == [] then table else UpsertRules(UpsertRule(table, rules[0]), rules[1..])
  }

  /** The permission replaces whatever the rule had; a code without a permission changes nothing. */
  function AssignRule(perms: set<string>, table: map<string, Rule>, r: SeedRule): map<string, Rule> {
    if r.key in table && r.code in perms then table[r.key := table[r.key].(codes := {r.code})] else table
  }

  function AssignRules(perms: set<string>, table: map<string, Rule>, rules: seq<SeedRule>): map<string, Rule>
    decreases |rules|
  {
    if rules == [] then table else AssignRules(perms, AssignRule(perms, table, rules[0]), rules[1..])
  }

  function SeedRules(rules: seq<SeedRule>, db: Db): Result<Db, Error> {
    if !Distinct(Keys(rules)) then Err(RowAffectedTwice)
    else Ok(db.(rules := AssignRules(db.perms, UpsertRules(db.rules, rules), rules)))
  }

  function RoleFor(perms: set<string>, r: SeedRole): Role {
    Role(r.restricted, if r.codes == [] then perms else perms * Elements(r.codes))
  }

  function SeedRoles(perms: set<string>, table: map<string, Role>, roles: seq<SeedRole>): map<string, Role>
    decreases |roles|
  {
    if roles == [] then table else SeedRoles(perms, table[roles[0].name := RoleFor(perms, roles[0])], roles[1..])
  }

  predicate PersonTaken(users: map<string, User>, personId: string) {
    exists email | email in users :: users[email].personId == personId
  }

  /** A user who is there keeps password and person; a new one gets the hash of this run. */
  function SeedUsers(admin: SeedUser, hash: string, db: Db): Result<Db, Error> {
    var roles := Elements(admin.roleNames) * db.roles.Keys;
    if admin.email in db.users
    then Ok(db.(users := db.users[admin.email := db.users[admin.email].(roles := roles, status := admin.status)]))
    else if PersonTaken(db.users, admin.personId) then Err(DuplicatePerson)
    else Ok(db.(users := db.users[admin.email := User(hash, admin.status, admin.personId, roles)]))
  }

  function Seeded(seed: Seed, hash: string, db: Db): Result<Db, Error> {
    match SeedPermissions(seed.permissions, db)
    case Err(e) => Err(e)
    case Ok(db1) =>
      match SeedRules(seed.rules, db1)
      case Err(e) => Err(e)
      case Ok(db2) => SeedUsers(seed.admin, hash, db2.(roles := SeedRoles(db2.perms, db2.roles, seed.roles)))
  }

  // ----- What the loops amount to -----

  /** The seed's entry for an endpoint key. */
  function EntryFor(rules: seq<SeedRule>, key: string): Option<SeedRule> {
    if rules == [] then None else if rules[0].key == key then Some(rules[0]) else EntryFor(rules[1..], key)
  }

  lemma {:induction false} EntryForIn(rules: seq<SeedRule>, key: string)
    ensures EntryFor(rules, key).Some? <==> exists r | r in rules :: r.key == key
    ensures EntryFor(rules, key).Some? ==> EntryFor(rules, key).value in rules && EntryFor(rules, key).value.key == key
  {
    if rules != [] {
      EntryForIn(rules[1..], key);
      assert rules == [rules[0]] + rules[1..];
    }
  }

  lemma DistinctRest(rules: seq<SeedRule>)
    requires rules != [] && Distinct(Keys(rules))
    ensures Distinct(Keys(rules[1..])) && EntryFor(rules[1..], rules[0].key).None?
  {
    EntryForIn(rules[1..], rules[0].key);
    var keys, rest := Keys(rules), Keys(rules[1..]);
    assert rest == keys[1..];
    assert forall i | 0 <= i < |rules| :: keys[i] == rules[i].key;
  }

  lemma {:induction false} UpsertRulesAt(table: map<string, Rule>, rules: seq<SeedRule>, key: string)
    requires Distinct(Keys(rules))
    ensures var t := UpsertRules(table, rules);
            match EntryFor(rules, key)
            case Some(r) => key in t && t[key] == Rule(r.enabled, if key in table then table[key].codes else {})
            case None => (key in t <==> key in table) && (key in t ==> t[key] == table[key])
    decreases |rules|
  {
    if rules != [] {
      DistinctRest(rules);
      UpsertRulesAt(UpsertRule(table, rules[0]), rules[1..], key);
    }
  }

  lemma {:induction false} AssignRulesAt(perms: set<string>, table: map<string, Rule>, rules: seq<SeedRule>,
                                         key: string)
    requires Distinct(Keys(rules))
    ensures var t := AssignRules(perms, table, rules);
            && (key in t <==> key in table)
            && (key in t ==> t[key] == match EntryFor(rules, key)
                                       case Some(r) =>
                                         if r.code in perms then table[key].(codes := {r.code}) else table[key]
                                       case None => table[key])
    decreases |rules|
  {
    if rules != [] {
      DistinctRest(rules);
      AssignRulesAt(perms, AssignRule(perms, table, rules[0]), rules[1..], key);
    }
  }

  /** What the rule under a key becomes: the two passes taken together. */
  function RuleAfter(rules: seq<SeedRule>, perms: set<string>, before: Option<Rule>, key: string): Option<Rule> {
    match EntryFor(rules, key)
    case None => before
    case Some(r) =>
      Some(Rule(r.enabled, if r.code in perms then {r.code} else if before.Some? then before.value.codes else {}))
  }

  function RuleOf(db: Db, key: string): Option<Rule> {
    if key in db.rules then Some(db.rules[key]) else None
  }

  lemma SeedRulesAt(rules: seq<SeedRule>, db: Db, key: string)
    requires SeedRules(rules, db).Ok?
    ensures RuleOf(SeedRules(rules, db).value, key) == RuleAfter(rules, db.perms, RuleOf(db, key), key)
  {
    UpsertRulesAt(db.rules, rules, key);
    AssignRulesAt(db.perms, UpsertRules(db.rules, rules), rules, key);
  }

  /** The last entry for a role name decides. */
  function RoleEntryFor(roles: seq<SeedRole>, name: string): Option<SeedRole> {
    if roles == [] then None
    else
      var later := RoleEntryFor(roles[1..], name);
      if later.Some? then later else if roles[0].name == name then Some(roles[0]) else None
  }

  lemma {:induction false} SeedRolesAt(perms: set<string>, table: map<string, Role>, roles: seq<SeedRole>, name: string)
    ensures var t := SeedRoles(perms, table, roles);
            match RoleEntryFor(roles, name)
            case Some(r) => name in t && t[name] == RoleFor(perms, r)
            case None => (name in t <==> name in table) && (name in t ==> t[name] == table[name])
    decreases |roles|
  {
    if roles != [] {
      SeedRolesAt(perms, table[roles[0].name := RoleFor(perms, roles[0])], roles[1..], name);
    }
  }

  /** Everything a successful seed does, table by table and row by row; whatever the seed does not name
      is as it was. */
  lemma SeedEffect(seed: Seed, hash: string, db: Db, key: string, name: string)
    requires Seeded(seed, hash, db).Ok?
    ensures var t := Seeded(seed, hash, db).value;
            && t.perms == db.perms + Elements(seed.permissions)
            && RuleOf(t, key) == RuleAfter(seed.rules, t.perms, RuleOf(db, key), key)
            && (match RoleEntryFor(seed.roles, name)
                case Some(r) => name in t.roles && t.roles[name] == RoleFor(t.perms, r)
                case None =>
                  (name in t.roles <==> name in db.roles) && (name in t.roles ==> t.roles[name] == db.roles[name]))
            && t.users.Keys == db.users.Keys + {seed.admin.email}
            && (forall email | email in db.users && email != seed.admin.email :: t.users[email] == db.users[email])
            && var before, after := db.users, t.users[seed.admin.email];
               && after.status == seed.admin.status && after.roles == Elements(seed.admin.roleNames) * t.roles.Keys
               && (if seed.admin.email in before
                   then after.passwordHash == before[seed.admin.email].passwordHash
                        && after.personId == before[seed.admin.email].personId
                   else after.passwordHash == hash && after.personId == seed.admin.personId)
  {
    var db1 := SeedPermissions(seed.permissions, db).value;
    SeedRulesAt(seed.rules, db1, key);
    SeedRolesAt(db1.perms, db1.roles, seed.roles, name);
    hide SeedRoles;
    hide UpsertRules;
    hide AssignRules;
    hide RuleAfter;
    hide EntryFor;
  }

  // ----- Main results -----

  /** Exactly when seeding fails: a code or an endpoint key is seeded twice, or the admin is new and the person
      is already a user. */
  lemma SeedFailsIff(seed: Seed, hash: string, db: Db)
    ensures Seeded(seed, hash, db).Err? <==>
      || (exists i, j :: 0 <= i < j < |seed.permissions| && seed.permissions[i] == seed.permissions[j])
      || (exists i, j :: 0 <= i < j < |seed.rules| && seed.rules[i].key == seed.rules[j].key)
      || (seed.admin.email !in db.users
          && exists email | email in db.users :: db.users[email].personId == seed.admin.personId)
  {
    var keys := Keys(seed.rules);
    assert forall i | 0 <= i < |keys| :: keys[i] == seed.rules[i].key;
    hide SeedRoles;
    hide UpsertRules;
    hide AssignRules;
  }

  /** What a successful seed does to the permissions and the rules: the seeded permissions are added; a seeded rule
      gets its flag, and its code if that is a permission. All other rules are as they were. */
  lemma SeedRulesSpec(seed: Seed, hash: string, db: Db)
    requires Seeded(seed, hash, db).Ok?
    ensures var t := Seeded(seed, hash, db).value;
            && (forall code :: code in t.perms <==> code in db.perms || code in seed.permissions)
            && (forall r | r in seed.rules :: r.key in t.rules && t.rules[r.key] ==
                  Rule(r.enabled, if r.code in t.perms then {r.code}
                                  else if r.key in db.rules then db.rules[r.key].codes else {}))
            && (forall key | forall r | r in seed.rules :: r.key != key ::
                  (key in t.rules <==> key in db.rules) && (key in t.rules ==> t.rules[key] == db.rules[key]))
  {
    var t := Seeded(seed, hash, db).value;
    assert Distinct(Keys(seed.rules)) by {
      hide SeedRoles;
      hide UpsertRules;
      hide AssignRules;
    }
    hide Seeded;
    SeedEffect(seed, hash, db, "", "");
    forall r | r in seed.rules ensures r.key in t.rules && t.rules[r.key] ==
        Rule(r.enabled, if r.code in t.perms then {r.code} else if r.key in db.rules then db.rules[r.key].codes else {})
    {
      SeedEffect(seed, hash, db, r.key, "");
      EntryForKey(seed.rules, r);
    }
    forall key | forall r | r in seed.rules :: r.key != key
      ensures (key in t.rules <==> key in db.rules) && (key in t.rules ==> t.rules[key] == db.rules[key])
    {
      SeedEffect(seed, hash, db, key, "");
      EntryForIn(seed.rules, key);
    }
  }

  /** And to the roles: the last entry for a name gives the flag and the codes, all permissions if it lists none.
      All other roles are as they were. */
  lemma SeedRolesSpec(seed: Seed, hash: string, db: Db)
    requires Seeded(seed, hash, db).Ok?
    ensures var t := Seeded(seed, hash, db).value;
            && (forall i | 0 <= i < |seed.roles|
                           && forall j | i < j < |seed.roles| :: seed.roles[j].name != seed.roles[i].name ::
                  var r := seed.roles[i];
                  && r.name in t.roles && t.roles[r.name].restricted == r.restricted
                  && forall code ::
                       code in t.roles[r.name].codes <==> code in t.perms && (r.codes == [] || code in r.codes))
            && (forall name | forall r | r in seed.roles :: r.name != name ::
                  (name in t.roles <==> name in db.roles) && (name in t.roles ==> t.roles[name] == db.roles[name]))
  {
    var t := Seeded(seed, hash, db).value;
    hide Seeded;
    forall i | 0 <= i < |seed.roles| && forall j | i < j < |seed.roles| :: seed.roles[j].name != seed.roles[i].name
      ensures var r := seed.roles[i]; r.name in t.roles && t.roles[r.name] == RoleFor(t.perms, r)
    {
      SeedEffect(seed, hash, db, "", seed.roles[i].name);
      LastRoleEntry(seed.roles, i);
    }
    forall name | forall r | r in seed.roles :: r.name != name
      ensures (name in t.roles <==> name in db.roles) && (name in t.roles ==> t.roles[name] == db.roles[name])
    {
      SeedEffect(seed, hash, db, "", name);
      NoRoleEntry(seed.roles, name);
    }
  }

  /** And to the users: the admin has the status and those of the named roles that exist; an existing one keeps
      password and person, a new one gets the seed's person and this run's hash. All others are as they were. */
  lemma SeedUsersSpec(seed: Seed, hash: string, db: Db)
    requires Seeded(seed, hash, db).Ok?
    ensures var t := Seeded(seed, hash, db).value; var email := seed.admin.email;
            && email in t.users && t.users[email].status == seed.admin.status
            && (forall name :: name in t.users[email].roles <==> name in seed.admin.roleNames && name in t.roles)
            && t.users[email].passwordHash == (if email in db.users then db.users[email].passwordHash else hash)
            && t.users[email].personId == (if email in db.users then db.users[email].personId else seed.admin.personId)
            && (forall e | e != email ::
                  (e in t.users <==> e in db.users) && (e in t.users ==> t.users[e] == db.users[e]))
  {
    SeedEffect(seed, hash, db, "", "");
    var t := Seeded(seed, hash, db).value;
    hide Seeded;
    forall e | e != seed.admin.email ensures e in t.users <==> e in db.users {
      assert e in t.users <==> e in t.users.Keys;
    }
  }

  lemma {:induction false} EntryForKey(rules: seq<SeedRule>, r: SeedRule)
    requires Distinct(Keys(rules)) && r in rules
    ensures EntryFor(rules, r.key) == Some(r)
    decreases |rules|
  {
    assert rules == [rules[0]] + rules[1..];
    DistinctRest(rules);
    if rules[0] != r {
      EntryForIn(rules[1..], r.key);
      EntryForKey(rules[1..], r);
    }
  }

  lemma {:induction false} LastRoleEntry(roles: seq<SeedRole>, i: nat)
    requires i < |roles| && forall j | i < j < |roles| :: roles[j].name != roles[i].name
    ensures RoleEntryFor(roles, roles[i].name) == Some(roles[i])
    decreases |roles|
  {
    if i == 0 {
      NoRoleEntry(roles[1..], roles[0].name);
    } else {
      LastRoleEntry(roles[1..], i - 1);
    }
  }

  lemma {:induction false} NoRoleEntry(roles: seq<SeedRole>, name: string)
    requires forall r | r in roles :: r.name != name
    ensures RoleEntryFor(roles, name) == None
    decreases |roles|
  {
    if roles != [] {
      assert roles == [roles[0]] + roles[1..];
      NoRoleEntry(roles[1..], name);
    }
  }

  /** Seeding again changes nothing: not even the password hash, although the new run would have drawn
      another. */
  lemma Idempotent(seed: Seed, hash: string, again: string, db: Db)
    requires Seeded(seed, hash, db).Ok?
    ensures Seeded(seed, again, Seeded(seed, hash, db).value) == Seeded(seed, hash, db)
  {
    var t := Seeded(seed, hash, db).value;
    SeedEffect(seed, hash, db, "", "");
    SeedFailsIff(seed, hash, db);
    SeedFailsIff(seed, again, t);
    var u := Seeded(seed, again, t).value;
    SeedEffect(seed, again, t, "", "");
    forall key ensures RuleOf(u, key) == RuleOf(t, key) {
      SeedEffect(seed, hash, db, key, "");
      SeedEffect(seed, again, t, key, "");
    }
    forall name ensures (name in u.roles <==> name in t.roles) && (name in u.roles ==> u.roles[name] == t.roles[name]) {
      SeedEffect(seed, hash, db, "", name);
      SeedEffect(seed, again, t, "", name);
    }
    hide Seeded;
    SameRules(t, u);
    assert t.roles == u.roles;
    assert t.users == u.users;
  }

  lemma SameRules(a: Db, b: Db)
    requires forall key :: RuleOf(a, key) == RuleOf(b, key)
    ensures a.rules == b.rules
  {
    forall key ensures key in a.rules <==> key in b.rules {
      assert RuleOf(a, key) == RuleOf(b, key);
    }
    forall key | key in a.rules ensures a.rules[key] == b.rules[key] {
      assert RuleOf(a, key) == RuleOf(b, key);
    }
  }

  /** Rules and roles refer to permissions that exist. */
  predicate Referential(db: Db) {
    && (forall key | key in db.rules :: db.rules[key].codes <= db.perms)
    && (forall name | name in db.roles :: db.roles[name].codes <= db.perms)
  }

  lemma SeedKeepsReferences(seed: Seed, hash: string, db: Db)
    requires Referential(db) && Seeded(seed, hash, db).Ok?
    ensures Referential(Seeded(seed, hash, db).value)
  {
    var t := Seeded(seed, hash, db).value;
    forall key | key in t.rules ensures t.rules[key].codes <= t.perms {
      SeedEffect(seed, hash, db, key, "");
    }
    forall name | name in t.roles ensures t.roles[name].codes <= t.perms {
      SeedEffect(seed, hash, db, "", name);
    }
  }

  /** The codes that a user's roles give. */
  function CodesOf(db: Db, email: string): set<string>
    requires email in db.users
  {
    set name, code | name in db.users[email].roles && name in db.roles && code in db.roles[name].codes :: code
  }

  /** One of the administrator's roles is seeded with all permissions. */
  predicate AdminGetsAll(seed: Seed) {
    exists name | name in seed.admin.roleNames ::
      RoleEntryFor(seed.roles, name).Some? && RoleEntryFor(seed.roles, name).value.codes == []
  }

  /** After seeding, the administrator holds every permission there is, and so satisfies every rule,
      seeded or not. */
  lemma AdminSatisfiesEveryRule(seed: Seed, hash: string, db: Db)
    requires Referential(db) && AdminGetsAll(seed) && Seeded(seed, hash, db).Ok?
    ensures var t := Seeded(seed, hash, db).value;
            && seed.admin.email in t.users && CodesOf(t, seed.admin.email) == t.perms
            && forall key | key in t.rules && t.rules[key].enabled ::
                 t.rules[key].codes == {} ||
                 exists code | code in t.rules[key].codes :: code in CodesOf(t, seed.admin.email)
  {
    var t := Seeded(seed, hash, db).value;
    SeedKeepsReferences(seed, hash, db);
    var name :| name in seed.admin.roleNames && RoleEntryFor(seed.roles, name).Some?
                && RoleEntryFor(seed.roles, name).value.codes == [];
    SeedEffect(seed, hash, db, "", name);
    hide Seeded;
    hide RoleEntryFor;
    assert name in t.users[seed.admin.email].roles && t.roles[name].codes == t.perms;
    forall key | key in t.rules && t.rules[key].codes != {}
      ensures exists code | code in t.rules[key].codes :: code in CodesOf(t, seed.admin.email)
    {
      var code :| code in t.rules[key].codes;
    }
  }

  /** So does the administrator of the seed the service ships with, whatever its permissions and rules. */
  lemma ShippedAdminSatisfiesEveryRule(permissions: seq<string>, rules: seq<SeedRule>, password: string,
                                       hash: string, db: Db)
    requires Referential(db) && Seeded(Shipped(permissions, rules, password), hash, db).Ok?
    ensures var t := Seeded(Shipped(permissions, rules, password), hash, db).value;
            && "SUPER_ADMIN" in t.roles && t.roles["SUPER_ADMIN"].restricted
            && t.roles["SUPER_ADMIN"].codes == t.perms
            && "admin@admin.com" in t.users && t.users["admin@admin.com"].status == ACTIVE
            && ("admin@admin.com" !in db.users ==>
                  t.users["admin@admin.com"].personId == "00000000-0000-0000-0000-000000000001")
            && CodesOf(t, "admin@admin.com") == t.perms
            && forall key | key in t.rules && t.rules[key].enabled ::
                 t.rules[key].codes == {} ||
                 exists code | code in t.rules[key].codes :: code in CodesOf(t, "admin@admin.com")
  {
    var seed := Shipped(permissions, rules, password);
    assert AdminGetsAll(seed) by {
      assert "SUPER_ADMIN" in seed.admin.roleNames;
    }
    AdminSatisfiesEveryRule(seed, hash, db);
    SeedEffect(seed, hash, db, "", "");
    SeedRolesSpec(seed, hash, db);
    SeedUsersSpec(seed, hash, db);
    assert seed.roles[0].name == "SUPER_ADMIN" && seed.roles[0].restricted && seed.roles[0].codes == [];
    hide Seeded;
    hide CodesOf;
  }

  /** An existing role keeps its permissions through a seed that names it without codes only if it had
      all of them. */
  lemma RoleKeepsPermissionsIff(seed: Seed, hash: string, db: Db, name: string)
    requires Referential(db) && Seeded(seed, hash, db).Ok? && name in db.roles
    requires RoleEntryFor(seed.roles, name).Some? && RoleEntryFor(seed.roles, name).value.codes == []
    ensures var t := Seeded(seed, hash, db).value;
            name in t.roles && (t.roles[name].codes == db.roles[name].codes <==>
                                  db.roles[name].codes == db.perms && Elements(seed.permissions) <= db.perms)
  {
    SeedEffect(seed, hash, db, "", name);
    hide Seeded;
    hide RoleEntryFor;
    var t := Seeded(seed, hash, db).value;
    assert t.perms == db.perms + Elements(seed.permissions);
  }
}
