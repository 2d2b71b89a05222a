/** The seeder as the code runs it: loops of statements inside one transaction, any of which may fail. */
module SeedService {
  import opened Common
  import opened Seeding

  /** One connection: the committed database, the transaction's view of it, and which statements the
      server will refuse. */
  class QueryRunner {
    const Broken: nat -> bool
    var committed: Db
    var db: Db
    var issued: nat

    constructor (committed: Db, Broken: nat -> bool)
      ensures this.committed == committed && this.Broken == Broken
    {
      this.committed, this.db, this.issued, this.Broken := committed, committed, 0, Broken;
    }

    ghost predicate Healthy() {
      forall i :: !Broken(i)
    }

    /** Send the next statement. */
    method Statement() returns (ok: bool)
      modifies this`issued
      ensures Healthy() ==> ok
    {
      ok := !Broken(issued);
      issued := issued + 1;
    }
  }

  class SeedService {
    const seed: Seed
    const runner: QueryRunner

    constructor (seed: Seed, runner: QueryRunner)
      ensures this.seed == seed && this.runner == runner
    {
      this.seed, this.runner := seed, runner;
    }

    /** `hash` is what bcrypt would make of the password in this run; `commit` is the fate of the COMMIT. */
    method Run(hash: string, commit: Outcome) returns (ok: bool)
      modifies runner
      ensures var before, target := old(runner.committed), Seeded(seed, hash, old(runner.committed));
              && (ok ==> target == Ok(runner.committed))
              && (!ok ==> runner.committed == before || (commit.Lost? && target == Ok(runner.committed)))
              && (runner.Healthy() && commit.Done? ==> (ok <==> target.Ok?))
      ensures old(runner.db == runner.committed) ==> runner.db == runner.committed
    {
      ok := runner.Statement();
      if !ok {
        return;
      }
      runner.db := runner.committed;
      ok := SeedPermissions();
      if ok {
        ok := SeedEndpointPermissionRules();
      }
      if ok {
        ok := SeedRoles();
      }
      if ok {
        ok := SeedUsers(hash);
      }
      if ok {
        if commit.Applied() {
          runner.committed := runner.db;
        }
        ok := !commit.Raised();
      }
      if !ok {
        runner.db := runner.committed;
      }
    }

    method SeedPermissions() returns (ok: bool)
      modifies runner`db, runner`issued
      ensures var target := Seeding.SeedPermissions(seed.permissions, old(runner.db));
              (ok ==> target == Ok(runner.db)) && (runner.Healthy() ==> (ok <==> target.Ok?))
    {
      ok := runner.Statement();
      if !ok || !Distinct(seed.permissions) {
        return false;
      }
      runner.db := runner.db.(perms := runner.db.perms + Elements(seed.permissions));
    }

    method SeedEndpointPermissionRules() returns (ok: bool)
      modifies runner`db, runner`issued
      ensures var target := Seeding.SeedRules(seed.rules, old(runner.db));
              (ok ==> target == Ok(runner.db)) && (runner.Healthy() ==> (ok <==> target.Ok?))
    {
      ok := runner.Statement();
      if !ok || !Distinct(Keys(seed.rules)) {
        return false;
      }
      ghost var before := runner.db;
      var perms, rules := runner.db.perms, seed.rules;
      runner.db := runner.db.(rules := UpsertRules(runner.db.rules, rules));
      assert rules[0..] == rules;
      for i := 0 to |rules|
        invariant runner.db == before.(rules := runner.db.rules)
        invariant AssignRules(perms, runner.db.rules, rules[i..]) ==
          AssignRules(perms, UpsertRules(before.rules, rules), rules)
      {
        var rule := rules[i];
        assert rules[i..][1..] == rules[i + 1..];
        var epr := if rule.key in runner.db.rules then Some(runner.db.rules[rule.key]) else None;
        ok := runner.Statement();
        if !ok {
          return;
        }
        ok := runner.Statement();
        if !ok {
          return;
        }
        if epr.Some? && rule.code in runner.db.perms {
          ok := runner.Statement();
          if !ok {
            return;
          }
          runner.db := runner.db.(rules := runner.db.rules[rule.key := epr.value.(codes := {rule.code})]);
        }
      }
      ok := true;
    }

    method SeedRoles() returns (ok: bool)
      modifies runner`db, runner`issued
      ensures var before := old(runner.db);
              ok ==> runner.db == before.(roles := Seeding.SeedRoles(before.perms, before.roles, seed.roles))
      ensures runner.Healthy() ==> ok
    {
      ghost var before := runner.db;
      var roles := seed.roles;
      assert roles[0..] == roles;
      for i := 0 to |roles|
        invariant runner.db == before.(roles := runner.db.roles)
        invariant Seeding.SeedRoles(before.perms, runner.db.roles, roles[i..])
               == Seeding.SeedRoles(before.perms, before.roles, roles)
      {
        var seedRole := roles[i];
        assert roles[i..][1..] == roles[i + 1..];
        ok := runner.Statement();
        if !ok {
          return;
        }
        // the upsert: name and restriction only
        var codes := if seedRole.name in runner.db.roles then runner.db.roles[seedRole.name].codes else {};
        var role := Role(seedRole.restricted, codes);
        var upserted := runner.db.(roles := runner.db.roles[seedRole.name := role]);
        ok := runner.Statement();
        if !ok {
          return;
        }
        var permissions := if |seedRole.codes| == 0 then upserted.perms else upserted.perms * Elements(seedRole.codes);
        ok := runner.Statement();
        if !ok {
          return;
        }
        var saved := role.(codes := permissions);
        assert saved == RoleFor(before.perms, seedRole);
        assert upserted.roles[seedRole.name := saved] == runner.db.roles[seedRole.name := saved];
        runner.db := upserted.(roles := upserted.roles[seedRole.name := saved]);
      }
      ok := true;
    }

    method SeedUsers(hash: string) returns (ok: bool)
      modifies runner`db, runner`issued
      ensures var target := Seeding.SeedUsers(seed.admin, hash, old(runner.db));
              (ok ==> target == Ok(runner.db)) && (runner.Healthy() ==> (ok <==> target.Ok?))
    {
      var admin := seed.admin;
      ok := runner.Statement();
      if !ok {
        return;
      }
      if admin.email in runner.db.users {
        ok := runner.Statement();
        if !ok {
          return;
        }
        var roles := Elements(admin.roleNames) * runner.db.roles.Keys;
        var existing := runner.db.users[admin.email].(roles := roles, status := admin.status);
        ok := runner.Statement();
        if !ok {
          return;
        }
        runner.db := runner.db.(users := runner.db.users[admin.email := existing]);
      } else {
        ok := runner.Statement();
        if !ok || PersonTaken(runner.db.users, admin.personId) {
          return false;
        }
        var user := User(hash, admin.status, admin.personId, {});
        ghost var others := runner.db.users;
        runner.db := runner.db.(users := runner.db.users[admin.email := user]);
        ok := runner.Statement();
        if !ok {
          return;
        }
        var roles := Elements(admin.roleNames) * runner.db.roles.Keys;
        ok := runner.Statement();
        if !ok {
          return;
        }
        runner.db := runner.db.(users := runner.db.users[admin.email := user.(roles := roles)]);
        assert runner.db.users == others[admin.email := user.(roles := roles)];
      }
    }
  }
}
