/**
 What deleteCompany leaves and what it does not touch, and what can be seen
 while it is under way: its statements are not one transaction, so a failure of
 the database between two of them leaves the rows as they are then.
 */
module CompanyDeletion {
  import opened Wrappers
  import opened Tables
  import opened AccessControl
  import opened RegistrySpec
  import opened RegistryInvariants
  import opened RegistryGuarantees

  // ----- the whole request -----

  /** No row of company `k` is in `db`, and no role of anyone who was its user in `before`. */
  ghost predicate NoRowsOf(before: Tables, db: Tables, k: Id) {
    && k !in db.companies
    && (forall u | u in db.users :: db.users[u].companyId != k)
    && (forall g | g in db.groups :: db.groups[g].companyId != k)
    && (forall m | m in db.mappings :: db.mappings[m].companyId != k)
    && (forall a | a in db.assets :: db.assets[a].companyId != k)
    && (forall d | d in db.gateways :: db.gateways[d].companyId != k)
    && (forall d | d in db.servers :: db.servers[d].companyId != k)
    && (forall g | g in db.grants ::
        && db.grants[g].userId in db.users
        && !(db.grants[g].userId in before.users && before.users[db.grants[g].userId].companyId == k))
  }

  /** No row of the company survives, and no role of anyone who was its user. */
  lemma DeletedCompanyLeavesNothing(w: World, c: Claims, ifricId: string, w': World)
    requires Inv(w) && DeleteCompany(w, c, ifricId, w', Done)
    ensures NoRowsOf(w.db, w'.db, FindCompany(w.db, ifricId).value) && FindCompany(w'.db, ifricId).None?
  {
    assert UniqueCompanies(w.db.companies);
    assert forall g | g in w.db.grants :: w.db.grants[g].userId in w.db.users;
    hide Inv, Authorised;
    ErasedHasNoRows(w.db, FindCompany(w.db, ifricId).value);
  }

  lemma ErasedHasNoRows(db: Tables, k: Id)
    requires forall g | g in db.grants :: db.grants[g].userId in db.users
    ensures NoRowsOf(db, CompanyErased(db, k), k)
  {
  }

  /** And nothing else goes: every other row, every account and every ICID entry is as it was. */
  lemma DeletedCompanyTouchesNothingElse(w: World, c: Claims, ifricId: string, w': World)
    requires Inv(w) && DeleteCompany(w, c, ifricId, w', Done)
    ensures var k := FindCompany(w.db, ifricId).value; var db, db' := w.db, w'.db;
      && (forall l | l in db.companies && l != k :: l in db'.companies && db'.companies[l] == db.companies[l])
      && (forall u | u in db.users && db.users[u].companyId != k :: u in db'.users && db'.users[u] == db.users[u])
      && (forall g | g in db.groups && db.groups[g].companyId != k :: g in db'.groups && db'.groups[g] == db.groups[g])
      && (forall g | g in db.grants && db.users[db.grants[g].userId].companyId != k ::
          g in db'.grants && db'.grants[g] == db.grants[g])
      && (forall m | m in db.mappings && db.mappings[m].companyId != k ::
          m in db'.mappings && db'.mappings[m] == db.mappings[m])
      && (forall a | a in db.assets && db.assets[a].companyId != k :: a in db'.assets && db'.assets[a] == db.assets[a])
      && (forall d | d in db.gateways && db.gateways[d].companyId != k ::
          d in db'.gateways && db'.gateways[d] == db.gateways[d])
      && (forall d | d in db.servers && db.servers[d].companyId != k ::
          d in db'.servers && db'.servers[d] == db.servers[d])
      && db'.categories == db.categories && db'.factories == db.factories && db'.hookRows == db.hookRows
      && w'.keycloak == w.keycloak && w'.icid == w.icid
  {
    assert forall g | g in w.db.grants :: w.db.grants[g].userId in w.db.users;
    hide Inv, FindCompany, Authorised;
  }

  // ----- between its statements -----

  /**
   The rows after the first `n` deletes, in the order of the code: users,
   groups, mappings, assets, gateways, servers, then in the loop the grants of
   the users in `cleared`, and last the company.
   */
  function PartlyErased(db: Tables, k: Id, n: nat, cleared: set<Id>): Tables {
    Tables(
      if n >= 7 then db.companies - {k} else db.companies,
      if n >= 1 then map u | u in db.users && db.users[u].companyId != k :: db.users[u] else db.users,
      if n >= 2 then map g | g in db.groups && db.groups[g].companyId != k :: db.groups[g] else db.groups,
      GrantsWithout(db.grants, cleared),
      if n >= 3 then map m | m in db.mappings && db.mappings[m].companyId != k :: db.mappings[m] else db.mappings,
      db.categories,
      db.factories,
      if n >= 4 then map a | a in db.assets && db.assets[a].companyId != k :: db.assets[a] else db.assets,
      if n >= 5 then map d | d in db.gateways && db.gateways[d].companyId != k :: db.gateways[d] else db.gateways,
      if n >= 6 then map d | d in db.servers && db.servers[d].companyId != k :: db.servers[d] else db.servers,
      db.hookRows)
  }

  /** A point the request passes. */
  ghost predicate IsStage(db: Tables, k: Id, n: nat, cleared: set<Id>) {
    && n <= 7
    && cleared <= UsersOf(db, k)
    && (n < 6 ==> cleared == {})
    && (n == 7 ==> cleared == UsersOf(db, k))
  }

  lemma StagesLeadThere(db: Tables, k: Id)
    ensures PartlyErased(db, k, 0, {}) == db
    ensures PartlyErased(db, k, 7, UsersOf(db, k)) == CompanyErased(db, k)
  {
    assert GrantsWithout(db.grants, {}) == db.grants;
  }

  /**
   Who a stamped token speaks for, at every point of the deletion: it never gets
   through for anyone but a live member, except between the first two deletes,
   when exactly the tokens of the company's former users that got through
   before still do.
   */
  lemma TokensDuringDeletion(
    worlds: seq<World>, events: seq<Event>, i: nat, k: Id, n: nat, cleared: set<Id>, token: Claims, target: string,
    right: Right)
    requires IsRun(worlds, events) && i < |worlds| && IsStage(worlds[i].db, k, n, cleared)
    requires Truthy(token.companyIfricId) && token.userId.Some?
    requires Identity(token.companyIfricId.value, token.userId.value) in worlds[i].stamped
    ensures var db := worlds[i].db; var db' := PartlyErased(db, k, n, cleared);
      (Authorised(db', ResolveClaims(db', token), target, right) ==>
         LiveMember(db', token.userId.value, target, right)) <==>
      !(n == 1 && token.userId.value in UsersOf(db, k) && Authorised(db, ResolveClaims(db, token), target, right))
  {
    RunKeepsInv(worlds, events, i);
    var db, u := worlds[i].db, token.userId.value;
    var db' := PartlyErased(db, k, n, cleared);
    if Authorised(db, ResolveClaims(db, token), target, right) {
      AuthorisedTokenNamesLiveMember(worlds, events, i, token, target, right);
    }
    assert GrantsStayHome(db.users, db.groups, db.grants);
    hide Inv, IsRun, GrantsStayHome;
    if u in UsersOf(db, k) {
      FormerUser(db, k, n, cleared, u, right);
    } else {
      OtherUser(db, k, n, cleared, u, target, right);
    }
  }

  /** The user has the right in `db`, whoever it belongs to. */
  predicate HoldsRight(db: Tables, u: Id, right: Right) {
    exists g :: g in db.grants && GrantGives(db, g, u, right)
  }

  /** A user of the company: gone with the first delete, powerless with the second. */
  lemma FormerUser(db: Tables, k: Id, n: nat, cleared: set<Id>, u: Id, right: Right)
    requires IsStage(db, k, n, cleared) && u in UsersOf(db, k) && GrantsStayHome(db.users, db.groups, db.grants)
    ensures var db' := PartlyErased(db, k, n, cleared);
      && (n >= 1 ==> u !in db'.users)
      && (HoldsRight(db', u, right) <==> n < 2 && HoldsRight(db, u, right))
      && (n == 0 ==> db' == db)
  {
    var db' := PartlyErased(db, k, n, cleared);
    if n == 0 { StagesLeadThere(db, k); }
    if n < 2 && HoldsRight(db, u, right) {
      var g :| g in db.grants && GrantGives(db, g, u, right);
      assert g in db'.grants && GrantGives(db', g, u, right);
    }
    if HoldsRight(db', u, right) {
      var g :| g in db'.grants && GrantGives(db', g, u, right);
      assert g in db.grants && GrantGives(db, g, u, right);
    }
  }

  /** Anyone else: the deletion changes neither what they may do nor that they are members. */
  lemma OtherUser(db: Tables, k: Id, n: nat, cleared: set<Id>, u: Id, target: string, right: Right)
    requires IsStage(db, k, n, cleared) && u !in UsersOf(db, k) && GrantsStayHome(db.users, db.groups, db.grants)
    ensures var db' := PartlyErased(db, k, n, cleared);
      && (HoldsRight(db', u, right) <==> HoldsRight(db, u, right))
      && (LiveMember(db', u, target, right) <==> LiveMember(db, u, target, right))
  {
    var db' := PartlyErased(db, k, n, cleared);
    OtherUserKeepsRights(db, k, n, cleared, u, right);
    MembersHoldRights(db, u, target, right);
    hide LiveMember, HoldsRight;
    MembersHoldRights(db', u, target, right);
  }

  /** With grants at home, membership is being a user of the company and holding the right. */
  lemma MembersHoldRights(db: Tables, u: Id, target: string, right: Right)
    requires forall g | g in db.grants && db.grants[g].userId == u && u in db.users
        && db.grants[g].groupId in db.groups ::
               db.groups[db.grants[g].groupId].companyId == db.users[u].companyId
    ensures LiveMember(db, u, target, right) <==>
      && u in db.users && db.users[u].companyId in db.companies && db.companies[db.users[u].companyId].ifricId == target
      && HoldsRight(db, u, right)
  {
    if u in db.users && HoldsRight(db, u, right) {
      var g :| g in db.grants && GrantGives(db, g, u, right);
      assert db.groups[db.grants[g].groupId].companyId == db.users[u].companyId;
    }
  }

  lemma OtherUserKeepsRights(db: Tables, k: Id, n: nat, cleared: set<Id>, u: Id, right: Right)
    requires IsStage(db, k, n, cleared) && u !in UsersOf(db, k) && GrantsStayHome(db.users, db.groups, db.grants)
    ensures HoldsRight(PartlyErased(db, k, n, cleared), u, right) <==> HoldsRight(db, u, right)
  {
    var db' := PartlyErased(db, k, n, cleared);
    forall g | g in db.grants && GrantGives(db, g, u, right) ensures g in db'.grants && GrantGives(db', g, u, right) {
      assert db.groups[db.grants[g].groupId].companyId == db.users[u].companyId != k;
    }
    forall g | g in db'.grants && GrantGives(db', g, u, right) ensures GrantGives(db, g, u, right) {
    }
  }

  // ----- asking again after a failure -----

  /**
   What deleteCompany leaves when it is asked again after it broke off. Once the
   users are gone nobody finds their grants: the second request erases the rest
   and keeps every grant the first one did not get to.
   */
  lemma SecondDeletion(db: Tables, k: Id, n: nat, cleared: set<Id>)
    requires IsStage(db, k, n, cleared) && 1 <= n <= 6
    ensures CompanyErased(PartlyErased(db, k, n, cleared), k) ==
            CompanyErased(db, k).(grants := GrantsWithout(db.grants, cleared))
  {
    var left := PartlyErased(db, k, n, cleared);
    assert UsersOf(left, k) == {};
    assert GrantsWithout(left.grants, {}) == left.grants;
    TablesErasedTwice(db, k, n, cleared);
  }

  lemma TablesErasedTwice(db: Tables, k: Id, n: nat, cleared: set<Id>)
    requires IsStage(db, k, n, cleared)
    ensures var twice, once := CompanyErased(PartlyErased(db, k, n, cleared), k), CompanyErased(db, k);
      && twice.companies == once.companies && twice.users == once.users && twice.groups == once.groups
      && twice.mappings == once.mappings && twice.assets == once.assets
      && twice.gateways == once.gateways && twice.servers == once.servers
  {
    hide GrantsWithout;
  }

  /**
   A second request finishes the job exactly when the first did nothing yet,
   or had only users without a grant left.
   */
  lemma SecondDeletionFinishesExactly(db: Tables, k: Id, n: nat, cleared: set<Id>)
    requires IsStage(db, k, n, cleared)
    ensures CompanyErased(PartlyErased(db, k, n, cleared), k) == CompanyErased(db, k) <==>
      n == 0 || forall g | g in db.grants && db.grants[g].userId in UsersOf(db, k) :: db.grants[g].userId in cleared
  {
    if n == 0 {
      StagesLeadThere(db, k);
    } else {
      var left := PartlyErased(db, k, n, cleared);
      assert UsersOf(left, k) == {};
      assert GrantsWithout(left.grants, {}) == left.grants;
      TablesErasedTwice(db, k, n, cleared);
      GrantsGoneExactly(db.grants, cleared, UsersOf(db, k));
      hide PartlyErased, GrantsWithout, UsersOf;
    }
  }

  lemma GrantsGoneExactly(grants: map<Id, Grant>, some: set<Id>, all: set<Id>)
    requires some <= all
    ensures GrantsWithout(grants, some) == GrantsWithout(grants, all) <==>
      forall g | g in grants && grants[g].userId in all :: grants[g].userId in some
  {
    if g :| g in grants && grants[g].userId in all && grants[g].userId !in some {
      assert g in GrantsWithout(grants, some) && g !in GrantsWithout(grants, all);
    }
  }

  /** And a former user cannot ask: from the second delete on, no token of theirs passes the permission check. */
  lemma FormerUserCannotAsk(
    worlds: seq<World>, events: seq<Event>, i: nat, k: Id, n: nat, cleared: set<Id>, token: Claims)
    requires IsRun(worlds, events) && i < |worlds| && IsStage(worlds[i].db, k, n, cleared) && n >= 2
    requires Truthy(token.companyIfricId) && token.userId.Some? && token.userId.value in UsersOf(worlds[i].db, k)
    ensures var db' := PartlyErased(worlds[i].db, k, n, cleared);
      forall right :: !HasPermission(db', ResolveClaims(db', token), right)
  {
    RunKeepsInv(worlds, events, i);
    var db := worlds[i].db;
    assert GrantsStayHome(db.users, db.groups, db.grants);
    hide Inv, IsRun, GrantsStayHome;
    forall right ensures !HoldsRight(PartlyErased(db, k, n, cleared), token.userId.value, right) {
      FormerUser(db, k, n, cleared, token.userId.value, right);
    }
  }
}
