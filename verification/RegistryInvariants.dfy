/**
 What every step of the registry keeps, hence what holds in every world any
 history of requests can reach.
 */
module RegistryInvariants {
  import opened Wrappers
  import opened Tables
  import opened AccessControl
  import opened RegistrySpec

  // ----- the invariant -----

  /** Nothing in the database or on an account mentions an id that was never handed out. */
  ghost predicate IdsAreIssued(db: Tables, issued: set<Id>) {
    && db.companies.Keys <= issued && db.users.Keys <= issued && db.groups.Keys <= issued
    && db.grants.Keys <= issued && db.mappings.Keys <= issued
    && db.factories.Keys <= issued && db.assets.Keys <= issued
    && (forall g | g in db.grants :: db.grants[g].groupId in issued)
    && (forall a | a in db.assets && db.assets[a].owner.Some? :: db.assets[a].owner.value in issued)
  }

  /** Users, groups, mappings and assets belong to companies that exist. */
  ghost predicate CompaniesResolve(db: Tables) {
    && (forall u | u in db.users :: db.users[u].companyId in db.companies)
    && (forall g | g in db.groups :: db.groups[g].companyId in db.companies)
    && (forall m | m in db.mappings :: db.mappings[m].companyId in db.companies)
    && (forall a | a in db.assets :: db.assets[a].companyId in db.companies)
  }

  ghost predicate UniqueCompanies(companies: map<Id, Company>) {
    forall k, l | k in companies && l in companies && companies[k].ifricId == companies[l].ifricId :: k == l
  }

  ghost predicate UniqueUsers(users: map<Id, CompanyUser>) {
    forall u, v | u in users && v in users && users[u].email == users[v].email :: u == v
  }

  ghost predicate UniqueFactories(factories: map<Id, Factory>) {
    forall f, g | f in factories && g in factories && factories[f].factoryId == factories[g].factoryId :: f == g
  }

  ghost predicate UniqueMappings(mappings: map<Id, Mapping>) {
    forall m, n | m in mappings && n in mappings && mappings[m].companyId == mappings[n].companyId :: m == n
  }

  ghost predicate UniqueAssets(assets: map<Id, Asset>) {
    forall a, b | a in assets && b in assets && assets[a].urn == assets[b].urn
        && assets[a].companyId == assets[b].companyId :: a == b
  }

  /** One role per user, and the role is one of the user's own company for as long as it exists. */
  ghost predicate GrantsStayHome(users: map<Id, CompanyUser>, groups: map<Id, AccessGroup>, grants: map<Id, Grant>) {
    && (forall g, h | g in grants && h in grants && grants[g].userId == grants[h].userId :: g == h)
    && (forall g | g in grants :: grants[g].userId in users)
    && (forall g | g in grants && grants[g].groupId in groups ::
          groups[grants[g].groupId].companyId == users[grants[g].userId].companyId)
  }

  ghost predicate TwinsHaveOwners(assets: map<Id, Asset>) {
    forall a | a in assets :: assets[a].isTwin <==> assets[a].owner.Some?
  }

  ghost predicate FactoryExists(factories: map<Id, Factory>, factoryId: string) {
    exists f :: f in factories && factories[f].factoryId == factoryId
  }

  ghost predicate FactoriesResolve(assets: map<Id, Asset>, factories: map<Id, Factory>) {
    forall a | a in assets && assets[a].factoryId.Some? :: FactoryExists(factories, assets[a].factoryId.value)
  }

  /**
   Every stamped user id was handed out, accounts carry stamped attributes,
   and a stamped user id, if the user still exists, is a user of the company
   stamped beside it.
   */
  ghost predicate StampsAreTrue(w: World) {
    && (forall e | e in w.keycloak :: w.keycloak[e] in w.stamped)
    && (forall t | t in w.stamped :: t.userId in w.issued)
    && (forall t | t in w.stamped && t.userId in w.db.users ::
        OwnerIfric(w.db, w.db.users[t.userId].companyId) == t.ifricId)
  }

  ghost predicate TablesInv(db: Tables) {
    && CompaniesResolve(db)
    && UniqueCompanies(db.companies) && UniqueUsers(db.users) && UniqueFactories(db.factories)
    && UniqueMappings(db.mappings) && UniqueAssets(db.assets)
    && GrantsStayHome(db.users, db.groups, db.grants)
    && TwinsHaveOwners(db.assets) && FactoriesResolve(db.assets, db.factories)
  }

  ghost predicate Inv(w: World) {
    && IdsAreIssued(w.db, w.issued)
    && TablesInv(w.db)
    && StampsAreTrue(w)
  }

  // ----- one row at a time -----

  lemma CompanyRow(db: Tables, k: Id, company: Company)
    requires TablesInv(db) && k !in db.companies
    requires forall l | l in db.companies :: db.companies[l].ifricId != company.ifricId
    ensures TablesInv(db.(companies := db.companies[k := company]))
  {
  }

  lemma CompanyRowPatched(db: Tables, k: Id, company: Company)
    requires TablesInv(db) && k in db.companies && company.ifricId == db.companies[k].ifricId
    ensures TablesInv(db.(companies := db.companies[k := company]))
  {
  }

  lemma MappingRow(db: Tables, m: Id, mapping: Mapping)
    requires TablesInv(db) && mapping.companyId in db.companies
    requires forall n | n in db.mappings && n != m :: db.mappings[n].companyId != mapping.companyId
    ensures TablesInv(db.(mappings := db.mappings[m := mapping]))
  {
  }

  lemma GroupRow(db: Tables, g: Id, group: AccessGroup)
    requires TablesInv(db) && group.companyId in db.companies
    requires if g in db.groups then db.groups[g].companyId == group.companyId
             else forall h | h in db.grants :: db.grants[h].groupId != g
    ensures TablesInv(db.(groups := db.groups[g := group]))
  {
  }

  lemma UserRow(db: Tables, u: Id, user: CompanyUser)
    requires TablesInv(db) && user.companyId in db.companies
    requires u in db.users ==> db.users[u].companyId == user.companyId
    requires forall v | v in db.users && v != u :: db.users[v].email != user.email
    ensures TablesInv(db.(users := db.users[u := user]))
  {
  }

  lemma GrantRowHome(users: map<Id, CompanyUser>, groups: map<Id, AccessGroup>, grants: map<Id, Grant>, k: Id,
      grant: Grant)
    requires GrantsStayHome(users, groups, grants) && grant.userId in users
    requires grant.groupId in groups && groups[grant.groupId].companyId == users[grant.userId].companyId
    requires forall g | g in grants && g != k :: grants[g].userId != grant.userId
    ensures GrantsStayHome(users, groups, grants[k := grant])
  {
  }

  lemma GrantRow(db: Tables, k: Id, grant: Grant)
    requires TablesInv(db) && grant.userId in db.users && grant.groupId in db.groups
    requires db.groups[grant.groupId].companyId == db.users[grant.userId].companyId
    requires forall g | g in db.grants && g != k :: db.grants[g].userId != grant.userId
    ensures TablesInv(db.(grants := db.grants[k := grant]))
  {
    GrantRowHome(db.users, db.groups, db.grants, k, grant);
  }

  /** With one grant per user, the upsert sets one row: the user's own if there is one. */
  lemma UpsertIsOneRow(grants: map<Id, Grant>, k: Id, userId: Id, groupId: Id) returns (row: Id)
    requires forall g, h | g in grants && h in grants && grants[g].userId == grants[h].userId :: g == h
    ensures UpsertGrant(grants, k, userId, groupId) == grants[row := Grant(userId, groupId)]
    ensures forall g | g in grants && g != row :: grants[g].userId != userId
    ensures row != k ==> row in grants && grants[row].userId == userId
  {
    if g :| g in grants && grants[g].userId == userId {
      row := g;
    } else {
      row := k;
    }
  }

  lemma GrantUpserted(db: Tables, k: Id, userId: Id, groupId: Id)
    requires TablesInv(db) && userId in db.users && groupId in db.groups && k !in db.grants
    requires db.groups[groupId].companyId == db.users[userId].companyId
    ensures TablesInv(db.(grants := UpsertGrant(db.grants, k, userId, groupId)))
  {
    var row := UpsertIsOneRow(db.grants, k, userId, groupId);
    GrantRow(db, row, Grant(userId, groupId));
  }

  lemma UserRemoved(db: Tables, u: Id)
    requires TablesInv(db)
    ensures TablesInv(db.(grants := GrantsWithout(db.grants, {u}), users := db.users - {u}))
  {
  }

  lemma GroupRemoved(db: Tables, g: Id)
    requires TablesInv(db)
    ensures TablesInv(db.(groups := db.groups - {g}))
  {
  }

  lemma FactoryRow(db: Tables, f: Id, factory: Factory)
    requires TablesInv(db) && f !in db.factories && FindFactory(db, factory.factoryId).None?
    ensures TablesInv(db.(factories := db.factories[f := factory]))
  {
    var factories := db.factories[f := factory];
    forall a | a in db.assets && db.assets[a].factoryId.Some?
        ensures FactoryExists(factories, db.assets[a].factoryId.value) {
      var k :| k in db.factories && db.factories[k].factoryId == db.assets[a].factoryId.value;
      assert factories[k] == db.factories[k];
    }
  }

  lemma FactoryRemoved(db: Tables, f: Id)
    requires TablesInv(db) && f in db.factories && !FactoryInUse(db, db.factories[f].factoryId)
    ensures TablesInv(db.(factories := db.factories - {f}))
  {
    var factories := db.factories - {f};
    forall a | a in db.assets && db.assets[a].factoryId.Some?
        ensures FactoryExists(factories, db.assets[a].factoryId.value) {
      var k :| k in db.factories && db.factories[k].factoryId == db.assets[a].factoryId.value;
      assert k in factories;
    }
  }

  lemma AssetRowUnique(assets: map<Id, Asset>, k: Id, asset: Asset)
    requires UniqueAssets(assets)
    requires forall a | a in assets && a != k :: !(assets[a].urn == asset.urn && assets[a].companyId == asset.companyId)
    ensures UniqueAssets(assets[k := asset])
  {
  }

  lemma AssetRow(db: Tables, k: Id, asset: Asset)
    requires TablesInv(db) && asset.companyId in db.companies
    requires asset.isTwin <==> asset.owner.Some?
    requires asset.factoryId.Some? ==> FactoryExists(db.factories, asset.factoryId.value)
    requires forall a | a in db.assets && a != k ::
        !(db.assets[a].urn == asset.urn && db.assets[a].companyId == asset.companyId)
    ensures TablesInv(db.(assets := db.assets[k := asset]))
  {
    AssetRowUnique(db.assets, k, asset);
  }

  lemma AssetsRemoved(db: Tables, urns: set<string>)
    requires TablesInv(db)
    ensures TablesInv(db.(assets := AssetsWithout(db.assets, urns)))
  {
  }

  lemma CompanyRemoved(db: Tables, k: Id)
    requires TablesInv(db)
    ensures TablesInv(CompanyErased(db, k))
  {
  }

  lemma RegistrationRows(db: Tables, d: Registration, urn: Urn, category: Id, ids: NewIds, hookRows: set<string>)
    requires TablesInv(db) && Registrable(db, d, urn, category) && ids.readOnly != ids.admin
    requires ids.company !in db.companies && ids.mapping !in db.mappings && ids.user !in db.users
        && ids.grant !in db.grants
    requires ids.readOnly !in db.groups && ids.admin !in db.groups
    requires forall h | h in db.grants :: db.grants[h].groupId != ids.readOnly && db.grants[h].groupId != ids.admin
    ensures TablesInv(Registered(db, d, urn, category, ids, hookRows))
  {
    var db1 := db.(companies := db.companies[ids.company := Company(urn, d.name, d.email, d.profile)]);
    CompanyRow(db, ids.company, Company(urn, d.name, d.email, d.profile));
    var db2 := db1.(mappings := db1.mappings[ids.mapping := Mapping(ids.company, category)]);
    MappingRow(db1, ids.mapping, Mapping(ids.company, category));
    var db3 := db2.(groups := db2.groups[ids.readOnly := AccessGroup(ids.company, "read_only", {Read})]);
    GroupRow(db2, ids.readOnly, AccessGroup(ids.company, "read_only", {Read}));
    var db4 := db3.(groups := db3.groups[ids.admin := AccessGroup(ids.company, "admin", ALL_RIGHTS)]);
    GroupRow(db3, ids.admin, AccessGroup(ids.company, "admin", ALL_RIGHTS));
    var db5 := db4.(users := db4.users[ids.user := CompanyUser(ids.company, d.email, d.adminName, "")]);
    UserRow(db4, ids.user, CompanyUser(ids.company, d.email, d.adminName, ""));
    GrantRow(db5, ids.grant, Grant(ids.user, ids.admin));
  }

  // ----- tokens -----

  /** Users keep their company, surviving companies their IFRIC id, and no stamp is added. */
  lemma StampsKept(w: World, w': World)
    requires StampsAreTrue(w) && w'.stamped == w.stamped && w.issued <= w'.issued
    requires forall e | e in w'.keycloak :: w'.keycloak[e] in w.stamped
    requires forall u | u in w'.db.users && u in w.issued ::
               u in w.db.users && OwnerIfric(w'.db, w'.db.users[u].companyId) == OwnerIfric(w.db,
                   w.db.users[u].companyId)
    ensures StampsAreTrue(w')
  {
  }

  /** The database as it was; accounts may come, go or be renamed, and a new stamp names nobody yet. */
  lemma AccountsChanged(w: World, w': World)
    requires Inv(w) && w'.db == w.db && w.issued <= w'.issued
    requires forall e | e in w'.keycloak :: w'.keycloak[e] in w'.stamped
    requires forall t | t in w'.stamped :: t in w.stamped || (t.userId in w'.issued && t.userId !in w.db.users)
    ensures Inv(w')
  {
  }

  /** A row `u` is added, and at most the attributes of that user are stamped. */
  lemma StampsWithNewUser(w: World, w': World, u: Id, identity: Identity)
    requires StampsAreTrue(w) && w.issued <= w'.issued && u !in w.issued && u in w'.issued
    requires identity.userId == u
    requires forall e | e in w'.keycloak :: w'.keycloak[e] in w'.stamped
    requires forall t | t in w'.stamped :: t in w.stamped || t == identity
    requires u in w'.db.users && OwnerIfric(w'.db, w'.db.users[u].companyId) == identity.ifricId
    requires forall v | v in w'.db.users && v != u ::
               v in w.db.users && OwnerIfric(w'.db, w'.db.users[v].companyId) == OwnerIfric(w.db,
                   w.db.users[v].companyId)
    ensures StampsAreTrue(w')
  {
    assert forall t | t in w.stamped :: t.userId != u;
  }

  // ----- each request keeps it -----

  lemma NothingChanged(w: World, w': World)
    requires Inv(w) && Rejected(w, w')
    ensures Inv(w')
  {
    AccountsChanged(w, w');
  }

  lemma CompanyInsertedStamps(w: World, w': World, d: Registration, urn: Urn, category: Id, ids: NewIds,
      hookRows: set<string>)
    requires StampsAreTrue(w) && w.issued <= w'.issued && Fresh(w, w', ids.user)
    requires w'.db == Registered(w.db, d, urn, category, ids, hookRows)
    requires forall e | e in w'.keycloak :: w'.keycloak[e] in w'.stamped
    requires forall t | t in w'.stamped :: t in w.stamped || t == Identity(urn, ids.user)
    requires forall u | u in w.db.users :: w.db.users[u].companyId in w.db.companies
    requires ids.company !in w.db.companies
    ensures StampsAreTrue(w')
  {
    StampsWithNewUser(w, w', ids.user, Identity(urn, ids.user));
  }

  lemma CompanyInsertedTables(w: World, w': World, d: Registration, urn: Urn, category: Id, ids: NewIds,
      hookRows: set<string>)
    requires Inv(w) && Registrable(w.db, d, urn, category) && FreshIds(w, w', ids) && w.issued <= w'.issued
    ensures TablesInv(Registered(w.db, d, urn, category, ids, hookRows))
    ensures IdsAreIssued(Registered(w.db, d, urn, category, ids, hookRows), w'.issued)
  {
    hide TablesInv;
    RegistrationRows(w.db, d, urn, category, ids, hookRows);
  }

  lemma CompanyInserted(w: World, w': World, d: Registration, urn: Urn, category: Id, ids: NewIds,
      hookRows: set<string>)
    requires Inv(w) && Registrable(w.db, d, urn, category) && FreshIds(w, w', ids) && w.issued <= w'.issued
    requires w'.db == Registered(w.db, d, urn, category, ids, hookRows)
    requires forall e | e in w'.keycloak :: w'.keycloak[e] in w'.stamped
    requires forall t | t in w'.stamped :: t in w.stamped || t == Identity(urn, ids.user)
    ensures Inv(w')
  {
    assert CompaniesResolve(w.db) && w.db.companies.Keys <= w.issued;
    hide TablesInv, IdsAreIssued, StampsAreTrue;
    CompanyInsertedTables(w, w', d, urn, category, ids, hookRows);
    CompanyInsertedStamps(w, w', d, urn, category, ids, hookRows);
  }

  lemma CreateCompanyKeepsInv(w: World, d: Registration, course: Course, w': World, created: bool)
    requires Inv(w) && CreateCompany(w, d, course, w', created)
    ensures Inv(w')
  {
    var ids: NewIds, category: Id, hookRows: set<string> :|
      CreateCompanyWith(w, d, course, w', ids, category, hookRows);
    if !course.committed {
      AccountsChanged(w, w');
    } else {
      var urn := course.mint.value;
      CompanyInserted(w, w', d, urn, category, ids, hookRows);
    }
  }

  lemma CreateCompanyUserKeepsInv(w: World, c: Claims, q: UserRequest, f: UserFaults, w': World, r: Outcome)
    requires Inv(w) && CreateCompanyUser(w, c, q, f, w', r)
    ensures Inv(w')
  {
    hide Inv;
    if r == Done || r == Failed {
      var k := FindCompany(w.db, q.ifricId).value;
      var userId: Id, grantId: Id, group: Option<Id> :| UserProvisioned(w, k, q, f, w', r, userId, grantId, group);
      ProvisionedUserKeepsInv(w, w', q, f, r, k, userId, grantId, group);
    } else {
      NothingChanged(w, w');
    }
  }

  /** The user row, with or without its grant. */
  ghost predicate UserAdded(db: Tables, db': Tables, userId: Id, user: CompanyUser, grantId: Id, group: Option<Id>) {
    var db1 := db.(users := db.users[userId := user]);
    || db' == db1
    || (group.Some? && db' == db1.(grants := db.grants[grantId := Grant(userId, group.value)]))
  }

  lemma UserAddedTables(w: World, w': World, userId: Id, user: CompanyUser, grantId: Id, group: Option<Id>)
    requires Inv(w) && w.issued <= w'.issued && Fresh(w, w', userId) && !EmailTaken(w.db.users, user.email)
    requires user.companyId in w.db.companies && UserAdded(w.db, w'.db, userId, user, grantId, group)
    requires group.Some? ==>
               && Fresh(w, w', grantId) && group.value in w.db.groups
               && w.db.groups[group.value].companyId == user.companyId
    ensures TablesInv(w'.db)
  {
    assert forall g | g in w.db.grants :: w.db.grants[g].userId in w.db.users;
    hide TablesInv, StampsAreTrue;
    UserRow(w.db, userId, user);
    var db1 := w.db.(users := w.db.users[userId := user]);
    if group.Some? {
      GrantRow(db1, grantId, Grant(userId, group.value));
    }
  }

  lemma UserAddedStamps(w: World, w': World, userId: Id, user: CompanyUser, grantId: Id, group: Option<Id>)
    requires StampsAreTrue(w) && w.issued <= w'.issued && Fresh(w, w', userId)
    requires user.companyId in w.db.companies && UserAdded(w.db, w'.db, userId, user, grantId, group)
    requires forall e | e in w'.keycloak :: w'.keycloak[e] in w'.stamped
    requires forall t | t in w'.stamped ::
        t in w.stamped || t == Identity(w.db.companies[user.companyId].ifricId, userId)
    ensures StampsAreTrue(w')
  {
    StampsWithNewUser(w, w', userId, Identity(w.db.companies[user.companyId].ifricId, userId));
  }

  lemma UserAddedIds(w: World, w': World, userId: Id, user: CompanyUser, grantId: Id, group: Option<Id>)
    requires IdsAreIssued(w.db, w.issued) && w.issued <= w'.issued && Fresh(w, w', userId)
    requires UserAdded(w.db, w'.db, userId, user, grantId, group)
    requires group.Some? ==> Fresh(w, w', grantId) && group.value in w.db.groups
    ensures IdsAreIssued(w'.db, w'.issued)
  {
  }

  lemma ProvisioningFrame(w: World, w': World, q: UserRequest, f: UserFaults, r: Outcome, k: Id, userId: Id,
      grantId: Id, group: Option<Id>)
    requires UserProvisioned(w, k, q, f, w', r, userId, grantId, group)
    requires forall e | e in w.keycloak :: w.keycloak[e] in w.stamped
    ensures forall e | e in w'.keycloak :: w'.keycloak[e] in w'.stamped
    ensures forall t | t in w'.stamped :: t in w.stamped || t == Identity(q.ifricId, userId)
    ensures w'.db == w.db
        || UserAdded(w.db, w'.db, userId, CompanyUser(k, q.email, q.name, ""), grantId, if r == Done then group
        else None)
  {
  }

  lemma ProvisionedUserKeepsInv(w: World, w': World, q: UserRequest, f: UserFaults, r: Outcome, k: Id, userId: Id,
      grantId: Id, group: Option<Id>)
    requires Inv(w) && !EmailTaken(w.db.users, q.email)
    requires k in w.db.companies && w.db.companies[k].ifricId == q.ifricId
    requires UserProvisioned(w, k, q, f, w', r, userId, grantId, group)
    ensures Inv(w')
  {
    ProvisioningFrame(w, w', q, f, r, k, userId, grantId, group);
    assert userId !in w.db.users;
    hide TablesInv, IdsAreIssued, StampsAreTrue, ProvisionUser;
    if w'.db == w.db {
      AccountsChanged(w, w');
    } else {
      var user := CompanyUser(k, q.email, q.name, "");
      var granted := if r == Done then group else None;
      UserAddedTables(w, w', userId, user, grantId, granted);
      UserAddedStamps(w, w', userId, user, grantId, granted);
      UserAddedIds(w, w', userId, user, grantId, granted);
    }
  }

  lemma GrantSet(w: World, w': World, grantId: Id, userId: Id, groupId: Id)
    requires Inv(w) && Fresh(w, w', grantId) && userId in w.db.users && groupId in w.db.groups
    requires w.db.groups[groupId].companyId == w.db.users[userId].companyId
    requires DatabaseBecomes(w, w', w.db.(grants := UpsertGrant(w.db.grants, grantId, userId, groupId)))
    ensures Inv(w')
  {
    assert IdsAreIssued(w'.db, w'.issued) by {
      var row := UpsertIsOneRow(w.db.grants, grantId, userId, groupId);
      hide UpsertGrant;
    }
    hide TablesInv, UpsertGrant, IdsAreIssued;
    assert grantId !in w.db.grants;
    GrantUpserted(w.db, grantId, userId, groupId);
    StampsKept(w, w');
  }

  lemma UpdateUserAccessGroupKeepsInv(w: World, c: Claims, userId: Id, role: string, w': World, r: Outcome)
    requires Inv(w) && UpdateUserAccessGroup(w, c, userId, role, w', r)
    ensures Inv(w')
  {
    hide Inv;
    if r != Done {
      NothingChanged(w, w');
    } else {
      var grantId: Id, group: Option<Id> :| RoleSet(w, userId, role, w', grantId, group);
      if group.None? {
        NothingChanged(w, w');
      } else {
        GrantSet(w, w', grantId, userId, group.value);
      }
    }
  }

  lemma UserEmailSetKeepsInv(w: World, userId: Id, email: string)
    requires Inv(w) && userId in w.db.users && !UserEmailClash(w.db.users, userId, email)
    ensures Inv(w.(db := UserEmailSet(w.db, userId, email)))
  {
    var w' := w.(db := UserEmailSet(w.db, userId, email));
    UserRow(w.db, userId, w'.db.users[userId]);
    hide TablesInv;
    StampsKept(w, w');
  }

  lemma ContactUpdatedKeepsInv(w: World, companyId: Id, userId: Id, email: string)
    requires Inv(w) && companyId in w.db.companies && userId in w.db.users
    ensures Inv(w.(db := ContactUpdated(w.db, companyId, userId, email)))
  {
    hide Inv;
    var w' := w.(db := ContactUpdated(w.db, companyId, userId, email));
    SameMappings(w, w', w.db.mappings);
    CompanyChanged(w, w', companyId, w.db.companies[companyId].(email := email), w.db.mappings);
  }

  lemma AccountRenamedKeepsInv(w: World, oldEmail: string, email: string)
    requires Inv(w) && oldEmail in w.keycloak
    ensures Inv(w.(keycloak := (w.keycloak - {oldEmail})[email := w.keycloak[oldEmail]]))
  {
    AccountsChanged(w, w.(keycloak := (w.keycloak - {oldEmail})[email := w.keycloak[oldEmail]]));
  }

  lemma ChangeEmailKeepsInv(w: World, companyId: Id, userId: Id, email: string, call: AccountCall)
    requires Inv(w) && companyId in w.db.companies && userId in w.db.users
    ensures Inv(ChangeEmail(w, companyId, userId, email, call).0)
  {
    hide Inv, UserEmailSet;
    var oldEmail := w.db.users[userId].email;
    if oldEmail in w.keycloak {
      AccountRenamedKeepsInv(w, oldEmail, email);
      var w1 := w.(keycloak := (w.keycloak - {oldEmail})[email := w.keycloak[oldEmail]]);
      ContactUpdatedKeepsInv(w1, companyId, userId, email);
      var w2 := w1.(db := ContactUpdated(w1.db, companyId, userId, email));
      if !UserEmailClash(w.db.users, userId, email) {
        UserEmailSetKeepsInv(w2, userId, email);
      }
    }
  }

  lemma UserProfileSetKeepsInv(w: World, userId: Id, name: string, image: string)
    requires Inv(w) && userId in w.db.users
    ensures Inv(w.(db := UserProfileSet(w.db, userId, name, image)))
  {
    var w' := w.(db := UserProfileSet(w.db, userId, name, image));
    UserRow(w.db, userId, w'.db.users[userId]);
    hide TablesInv;
    StampsKept(w, w');
  }

  lemma UpdateCompanyUserKeepsInv(w: World, c: Claims, p: UserPatch, f: UserPatchFaults, w': World, r: Outcome)
    requires Inv(w) && UpdateCompanyUser(w, c, p, f, w', r)
    ensures Inv(w')
  {
    hide Inv;
    if w' != w {
      var companyId := FindCompany(w.db, p.ifricId).value;
      ChangeEmailKeepsInv(w, companyId, p.userId, p.email, f.setEmail);
      var w1 := if p.email != "" then ChangeEmail(w, companyId, p.userId, p.email, f.setEmail).0 else w;
      if w' != w1 {
        UserProfileSetKeepsInv(w1, p.userId, p.name, p.image);
      }
    }
  }

  lemma DeleteCompanyUserKeepsInv(w: World, c: Claims, userId: Id, removal: AccountCall, w': World, r: Outcome)
    requires Inv(w) && DeleteCompanyUser(w, c, userId, removal, w', r)
    ensures Inv(w')
  {
    UserRemoved(w.db, userId);
    StampsKept(w, w');
  }

  lemma CreateAccessGroupKeepsInv(w: World, c: Claims, ifricId: string, name: string, rights: set<Right>, w': World,
      r: Outcome)
    requires Inv(w) && CreateAccessGroup(w, c, ifricId, name, rights, w', r)
    ensures Inv(w')
  {
    if r != Done {
      AccountsChanged(w, w');
    } else {
      var group := AccessGroup(FindCompany(w.db, ifricId).value, name, rights);
      var g: Id :| Fresh(w, w', g) && DatabaseBecomes(w, w', w.db.(groups := w.db.groups[g := group]));
      GroupRow(w.db, g, group);
      StampsKept(w, w');
    }
  }

  lemma UpdateAccessGroupKeepsInv(w: World, c: Claims, id: Id, p: GroupPatch, throws: bool, w': World, r: Outcome)
    requires Inv(w) && UpdateAccessGroup(w, c, id, p, throws, w', r)
    ensures Inv(w')
  {
    hide TablesInv, Authorised, GroupPatched;
    if r == Done {
      GroupKeepsCompany(w.db, id, p);
      GroupRow(w.db, id, GroupPatched(w.db.groups[id], p));
      StampsKept(w, w');
    }
  }

  lemma GroupKeepsCompany(db: Tables, id: Id, p: GroupPatch)
    requires TablesInv(db) && id in db.groups
    ensures GroupPatched(db.groups[id], p).companyId == db.groups[id].companyId
    ensures db.groups[id].companyId in db.companies
  {
  }

  lemma DeleteAccessGroupKeepsInv(w: World, c: Claims, id: Id, w': World, r: Outcome)
    requires Inv(w) && DeleteAccessGroup(w, c, id, w', r)
    ensures Inv(w')
  {
    hide TablesInv, Authorised;
    if w' != w {
      GroupRemoved(w.db, id);
      StampsKept(w, w');
    }
  }

  lemma UpdateCompanyKeepsInv(w: World, c: Claims, ifricId: string, p: CompanyPatch, throws: bool, w': World,
      r: Outcome)
    requires Inv(w) && UpdateCompany(w, c, ifricId, p, throws, w', r)
    ensures Inv(w')
  {
    hide Inv;
    if r != Done && r != Failed {
      NothingChanged(w, w');
    } else {
      var k := FindCompany(w.db, ifricId).value;
      var mappings': map<Id, Mapping> :|
        && CategorySet(w, w', k, p.category, mappings')
        && (if throws || (p.email.Some? && CompanyEmailClash(w.db.companies, k, p.email.value)) then
              r == Failed && DatabaseBecomes(w, w', w.db.(mappings := mappings'))
            else
              r == Done && DatabaseBecomes(w, w', w.db.(
                mappings := mappings', companies := w.db.companies[k := CompanyPatched(w.db.companies[k], p)])));
      CategorySetKeepsInv(w, w', k, p.category, mappings');
      CompanyChanged(w, w', k, CompanyPatched(w.db.companies[k], p), mappings');
    }
  }

  lemma SameMappings(w: World, w': World, mappings': map<Id, Mapping>)
    requires Inv(w) && w.issued <= w'.issued && mappings' == w.db.mappings
    ensures TablesInv(w.db.(mappings := mappings')) && mappings'.Keys <= w'.issued
  {
    assert w.db == w.db.(mappings := mappings');
  }

  lemma CategorySetKeepsInv(w: World, w': World, companyId: Id, name: string, mappings': map<Id, Mapping>)
    requires Inv(w) && w.issued <= w'.issued && companyId in w.db.companies
    requires CategorySet(w, w', companyId, name, mappings')
    ensures TablesInv(w.db.(mappings := mappings')) && mappings'.Keys <= w'.issued
  {
    if name == "" {
      SameMappings(w, w', mappings');
    } else {
      var newId: Id, category: Id :|
        PickedCategory(w.db, name, Some(category)) && MappingRepointed(w, w', companyId, category, newId, mappings');
      MappingRepointedKeepsInv(w, w', companyId, category, newId, mappings');
    }
  }

  lemma CompanyChanged(w: World, w': World, k: Id, company: Company, mappings': map<Id, Mapping>)
    requires Inv(w) && k in w.db.companies && company.ifricId == w.db.companies[k].ifricId
    requires TablesInv(w.db.(mappings := mappings')) && mappings'.Keys <= w'.issued
    requires var db1 := w.db.(mappings := mappings');
      DatabaseBecomes(w, w', db1) || DatabaseBecomes(w, w', db1.(companies := db1.companies[k := company]))
    ensures Inv(w')
  {
    hide TablesInv;
    CompanyRowPatched(w.db.(mappings := mappings'), k, company);
    StampsKept(w, w');
  }

  lemma MappingRepointedKeepsInv(w: World, w': World, companyId: Id, category: Id, newId: Id,
      mappings': map<Id, Mapping>)
    requires Inv(w) && w.issued <= w'.issued && companyId in w.db.companies
    requires MappingRepointed(w, w', companyId, category, newId, mappings')
    ensures TablesInv(w.db.(mappings := mappings')) && mappings'.Keys <= w'.issued
  {
    if exists m :: m in w.db.mappings && w.db.mappings[m].companyId == companyId {
      var m :| m in w.db.mappings && w.db.mappings[m].companyId == companyId
          && mappings' == w.db.mappings[m := Mapping(companyId, category)];
      MappingRow(w.db, m, Mapping(companyId, category));
    } else {
      MappingRow(w.db, newId, Mapping(companyId, category));
    }
  }

  lemma DeleteCompanyKeepsInv(w: World, c: Claims, ifricId: string, w': World, r: Outcome)
    requires Inv(w) && DeleteCompany(w, c, ifricId, w', r)
    ensures Inv(w')
  {
    if r == Done {
      CompanyRemoved(w.db, FindCompany(w.db, ifricId).value);
      StampsKept(w, w');
    }
  }

  lemma CreateFactoryKeepsInv(w: World, c: Claims, q: FactoryRequest, f: FactoryFaults, w': World, r: Outcome)
    requires Inv(w) && CreateFactory(w, c, q, f, w', r)
    ensures Inv(w')
  {
    hide Inv, FindCompany, FindFactory, Authorised;
    if r != Done {
      OnlyIcidChanged(w, w');
    } else {
      var id := if q.factoryId != "" then q.factoryId else f.mint.urn;
      var factory := Factory(id, q.ownerIfricId, q.location);
      var k: Id :| Fresh(w, w', k) && w'.db == w.db.(factories := w.db.factories[k := factory]);
      FactoryAdded(w, w', k, factory);
    }
  }

  lemma OnlyIcidChanged(w: World, w': World)
    requires Inv(w) && w'.db == w.db && w'.keycloak == w.keycloak && w.issued <= w'.issued && w'.stamped == w.stamped
    ensures Inv(w')
  {
    AccountsChanged(w, w');
  }

  lemma FactoryAdded(w: World, w': World, k: Id, factory: Factory)
    requires Inv(w) && Fresh(w, w', k) && FindFactory(w.db, factory.factoryId).None?
    requires w'.keycloak == w.keycloak && w.issued <= w'.issued && w'.stamped == w.stamped
    requires w'.db == w.db.(factories := w.db.factories[k := factory])
    ensures Inv(w')
  {
    FactoryAddedTables(w, k, factory);
    hide TablesInv, FindFactory;
    StampsKept(w, w');
  }

  lemma FactoryAddedTables(w: World, k: Id, factory: Factory)
    requires TablesInv(w.db) && k !in w.db.factories && FindFactory(w.db, factory.factoryId).None?
    ensures TablesInv(w.db.(factories := w.db.factories[k := factory]))
  {
    hide TablesInv;
    FactoryRow(w.db, k, factory);
  }

  lemma DeleteFactoryKeepsInv(w: World, c: Claims, factoryId: string, w': World, r: Outcome)
    requires Inv(w) && DeleteFactory(w, c, factoryId, w', r)
    ensures Inv(w')
  {
    if r == Done {
      FactoryRemoved(w.db, FindFactory(w.db, factoryId).value);
      StampsKept(w, w');
    }
  }

  lemma CreateAssetKeepsInv(w: World, c: Claims, q: AssetRequest, throws: bool, w': World, r: Outcome)
    requires Inv(w) && CreateAsset(w, c, q, throws, w', r)
    ensures Inv(w')
  {
    if r != Done {
      AccountsChanged(w, w');
    } else {
      var owner := PartyId(w.db, q.ownerIfricId);
      var factory := if q.factoryId == "" then None else Some(q.factoryId);
      var asset := Asset(q.urn, FindCompany(w.db, q.ifricId).value, owner, factory, owner.Some?);
      var a: Id :| Fresh(w, w', a) && DatabaseBecomes(w, w', w.db.(assets := w.db.assets[a := asset]));
      AssetRow(w.db, a, asset);
      StampsKept(w, w');
    }
  }

  lemma AssetPatchedKeepsInv(w: World, w': World, a: Id, owner: Option<Id>, factoryId: string)
    requires Inv(w) && a in w.db.assets && (owner.Some? ==> owner.value in w.db.companies)
    requires factoryId != "" ==> FactoryExists(w.db.factories, factoryId)
    requires w' == w.(db := w.db.(assets := w.db.assets[a := AssetPatched(w.db.assets[a], owner, factoryId)]))
    ensures Inv(w')
  {
    AssetPatchedTables(w.db, a, owner, factoryId);
    hide TablesInv;
    StampsKept(w, w');
  }

  lemma AssetPatchedTables(db: Tables, a: Id, owner: Option<Id>, factoryId: string)
    requires TablesInv(db) && a in db.assets && (factoryId != "" ==> FactoryExists(db.factories, factoryId))
    ensures TablesInv(db.(assets := db.assets[a := AssetPatched(db.assets[a], owner, factoryId)]))
  {
    AssetRow(db, a, AssetPatched(db.assets[a], owner, factoryId));
  }

  lemma UpdateAssetKeepsInv(w: World, c: Claims, urn: string, ownerIfricId: string, factoryId: string, w': World,
      r: Outcome)
    requires Inv(w) && UpdateAsset(w, c, urn, ownerIfricId, factoryId, w', r)
    ensures Inv(w')
  {
    hide Inv;
    if w' != w {
      var a: Id :| a in w.db.assets && w' == w.(db := w.db.(assets := w.db.assets[
          a := AssetPatched(w.db.assets[a], PartyId(w.db, ownerIfricId), factoryId)]));
      AssetPatchedKeepsInv(w, w', a, PartyId(w.db, ownerIfricId), factoryId);
    }
  }

  lemma DeletingAssetsKeepsInv(w: World, e: Event, w': World)
    requires e.request.ReqDeleteAsset? || e.request.ReqDeleteAssets?
    requires Inv(w) && Step(w, e, w')
    ensures Inv(w')
  {
    if w' != w {
      AssetsRemoved(w.db, if e.request.ReqDeleteAsset? then {e.request.urn} else e.request.urns);
      StampsKept(w, w');
    }
  }

  lemma StepKeepsInv(w: World, e: Event, w': World)
    requires Inv(w) && Step(w, e, w')
    ensures Inv(w')
  {
    var c, r := e.caller, e.outcome;
    match e.request
    case ReqCreateCompany(d, course) => CreateCompanyKeepsInv(w, d, course, w', r == Done);
    case ReqCreateCompanyUser(q, f) => CreateCompanyUserKeepsInv(w, c, q, f, w', r);
    case ReqUpdateUserAccessGroup(u, role) => UpdateUserAccessGroupKeepsInv(w, c, u, role, w', r);
    case ReqUpdateCompanyUser(p, f) => UpdateCompanyUserKeepsInv(w, c, p, f, w', r);
    case ReqDeleteCompanyUser(u, removal) => DeleteCompanyUserKeepsInv(w, c, u, removal, w', r);
    case ReqCreateAccessGroup(i, n, rights) => CreateAccessGroupKeepsInv(w, c, i, n, rights, w', r);
    case ReqUpdateAccessGroup(g, p, throws) => UpdateAccessGroupKeepsInv(w, c, g, p, throws, w', r);
    case ReqDeleteAccessGroup(g) => DeleteAccessGroupKeepsInv(w, c, g, w', r);
    case ReqUpdateCompany(i, p, throws) => UpdateCompanyKeepsInv(w, c, i, p, throws, w', r);
    case ReqDeleteCompany(i) => DeleteCompanyKeepsInv(w, c, i, w', r);
    case ReqCreateFactory(q, f) => CreateFactoryKeepsInv(w, c, q, f, w', r);
    case ReqDeleteFactory(i) => DeleteFactoryKeepsInv(w, c, i, w', r);
    case ReqCreateAsset(q, throws) => CreateAssetKeepsInv(w, c, q, throws, w', r);
    case ReqUpdateAsset(u, o, i) => UpdateAssetKeepsInv(w, c, u, o, i, w', r);
    case ReqDeleteAsset(_) => DeletingAssetsKeepsInv(w, e, w');
    case ReqDeleteAssets(_) => DeletingAssetsKeepsInv(w, e, w');
  }

  /** Every world of every history satisfies the invariant. */
  lemma {:induction false} RunKeepsInv(worlds: seq<World>, events: seq<Event>, i: nat)
    requires IsRun(worlds, events) && i < |worlds|
    ensures Inv(worlds[i])
  {
    if i == 0 {
    } else {
      RunKeepsInv(worlds, events, i - 1);
      StepKeepsInv(worlds[i - 1], events[i - 1], worlds[i - 1 + 1]);
    }
  }
}
