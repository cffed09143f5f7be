/**
 What the invariant and the steps give over whole histories: who a token can
 still speak for, which rows a caller can change, how an asset ages, and what
 the deletions leave behind.
 */
module RegistryGuarantees {
  import opened Wrappers
  import opened Tables
  import opened AccessControl
  import opened RegistrySpec
  import opened RegistryInvariants

  // ----- tokens -----

  /** A member of the company with this IFRIC id, holding the right through a group of that same company. */
  ghost predicate LiveMember(db: Tables, userId: Id, ifricId: string, right: Right) {
    && userId in db.users
    && db.users[userId].companyId in db.companies
    && db.companies[db.users[userId].companyId].ifricId == ifricId
    && exists g :: g in db.grants && db.grants[g].userId == userId && db.grants[g].groupId in db.groups
         && right in db.groups[db.grants[g].groupId].rights
         && db.groups[db.grants[g].groupId].companyId == db.users[userId].companyId
  }

  /**
   After any history of deletions and re-registrations, a token carrying
   attributes stamped at some account's creation passes the company check for
   `target` and the permission check only if its user is today a member of
   `target` with that right, whatever else the token asserts.
   */
  lemma AuthorisedTokenNamesLiveMember(worlds: seq<World>, events: seq<Event>, i: nat, token: Claims, target: string,
      right: Right)
    requires IsRun(worlds, events) && i < |worlds|
    requires Truthy(token.companyIfricId) && token.userId.Some?
    requires Identity(token.companyIfricId.value, token.userId.value) in worlds[i].stamped
    requires Authorised(worlds[i].db, ResolveClaims(worlds[i].db, token), target, right)
    ensures LiveMember(worlds[i].db, token.userId.value, target, right)
  {
    RunKeepsInv(worlds, events, i);
    var db := worlds[i].db;
    var g :| g in db.grants && GrantGives(db, g, token.userId.value, right);
    assert db.grants[g].userId in db.users;
  }

  /** And such a member is let through: the two checks ask for nothing else. */
  lemma LiveMemberIsAuthorised(db: Tables, token: Claims, target: string, right: Right)
    requires Truthy(token.companyIfricId) && token.userId.Some? && token.companyIfricId.value == target
    requires LiveMember(db, token.userId.value, target, right)
    ensures Authorised(db, ResolveClaims(db, token), target, right)
  {
    var g :| g in db.grants && db.grants[g].userId == token.userId.value && db.grants[g].groupId in db.groups
        && right in db.groups[db.grants[g].groupId].rights;
    assert GrantGives(db, g, token.userId.value, right);
  }

  // ----- how rows age -----

  /**
   One step never puts a row under an id that was used before, never moves a
   user or asset to another company, never renames a company's IFRIC id, and
   never turns a twin back into a physical-only asset.
   */
  ghost predicate RowsAge(w: World, w': World) {
    && w.issued <= w'.issued
    && (forall u | u in w'.db.users ::
        u !in w.issued || (u in w.db.users && w'.db.users[u].companyId == w.db.users[u].companyId))
    && (forall k | k in w'.db.companies ::
        k !in w.issued || (k in w.db.companies && w'.db.companies[k].ifricId == w.db.companies[k].ifricId))
    && (forall a | a in w'.db.assets ::
        a !in w.issued || (a in w.db.assets && AssetAges(w.db.assets[a], w'.db.assets[a])))
  }

  predicate AssetAges(before: Asset, after: Asset) {
    && after.urn == before.urn && after.companyId == before.companyId
    && (before.isTwin ==> after.isTwin)
    && (before.owner.Some? ==> after.owner.Some?)
    && (before.factoryId.Some? ==> after.factoryId.Some?)
  }

  /** Companies, users and assets as they were. */
  lemma SameRowsAge(w: World, w': World)
    requires w'.db.users == w.db.users && w'.db.companies == w.db.companies && w'.db.assets == w.db.assets
    requires w.issued <= w'.issued
    ensures RowsAge(w, w')
  {
  }

  lemma CreateCompanyAges(w: World, d: Registration, course: Course, w': World, created: bool)
    requires CreateCompany(w, d, course, w', created)
    ensures RowsAge(w, w')
  {
    var ids: NewIds, category: Id, rows: set<string> :| CreateCompanyWith(w, d, course, w', ids, category, rows);
    hide Registrable;
    if !course.committed {
      SameRowsAge(w, w');
    }
  }

  lemma CreateCompanyUserAges(w: World, c: Claims, q: UserRequest, f: UserFaults, w': World, r: Outcome)
    requires CreateCompanyUser(w, c, q, f, w', r)
    ensures RowsAge(w, w')
  {
    hide FindCompany, Authorised, EmailTaken;
    if r == Done || r == Failed {
      var k := FindCompany(w.db, q.ifricId).value;
      var userId: Id, grantId: Id, group: Option<Id> :| UserProvisioned(w, k, q, f, w', r, userId, grantId, group);
      hide PickedGroup;
    }
  }

  lemma UpdateUserAccessGroupAges(w: World, c: Claims, userId: Id, role: string, w': World, r: Outcome)
    requires UpdateUserAccessGroup(w, c, userId, role, w', r)
    ensures RowsAge(w, w')
  {
    hide Authorised, UpsertGrant, PickedGroup, RowsAge;
    SameRowsAge(w, w');
  }

  lemma DeleteCompanyUserAges(w: World, c: Claims, userId: Id, removal: AccountCall, w': World, r: Outcome)
    requires DeleteCompanyUser(w, c, userId, removal, w', r)
    ensures RowsAge(w, w')
  {
    hide Authorised, GrantsWithout;
  }

  lemma ChangeEmailAges(w: World, companyId: Id, userId: Id, email: string, call: AccountCall)
    requires companyId in w.db.companies && userId in w.db.users
    ensures RowsAge(w, ChangeEmail(w, companyId, userId, email, call).0)
  {
    var oldEmail := w.db.users[userId].email;
    var w2 := w.(db := ContactUpdated(w.db, companyId, userId, email));
    var w3 := w2.(db := UserEmailSet(w2.db, userId, email));
    AgesWithContact(w, companyId, userId, email);
    AgesWithEmail(w2, userId, email);
    AgesTwice(w, w2, w3);
    assert RowsAge(w, w);
    hide RowsAge, UserEmailSet, ContactUpdated;
    if oldEmail in w.keycloak {
      var keycloak := (w.keycloak - {oldEmail})[email := w.keycloak[oldEmail]];
      AgesWithAccounts(w, w, keycloak);
      AgesWithAccounts(w, w2, keycloak);
      AgesWithAccounts(w, w3, keycloak);
    }
  }

  lemma AgesWithContact(w: World, companyId: Id, userId: Id, email: string)
    requires companyId in w.db.companies && userId in w.db.users
    ensures RowsAge(w, w.(db := ContactUpdated(w.db, companyId, userId, email)))
  {
    hide RowsAge;
    if IsContact(w.db, companyId, userId) {
      AgesWithCompany(w, companyId, w.db.companies[companyId].(email := email));
    } else {
      SameRowsAge(w, w);
    }
  }

  lemma AgesWithCompany(w: World, companyId: Id, company: Company)
    requires companyId in w.db.companies && company.ifricId == w.db.companies[companyId].ifricId
    ensures RowsAge(w, w.(db := w.db.(companies := w.db.companies[companyId := company])))
  {
  }

  lemma AgesWithEmail(w: World, userId: Id, email: string)
    requires userId in w.db.users
    ensures RowsAge(w, w.(db := UserEmailSet(w.db, userId, email)))
  {
  }

  lemma AgesWithAccounts(w: World, w': World, keycloak: map<string, Identity>)
    requires RowsAge(w, w')
    ensures RowsAge(w, w'.(keycloak := keycloak))
  {
  }

  lemma UpdateCompanyUserAges(w: World, c: Claims, p: UserPatch, f: UserPatchFaults, w': World, r: Outcome)
    requires UpdateCompanyUser(w, c, p, f, w', r)
    ensures RowsAge(w, w')
  {
    if w' != w {
      var companyId := FindCompany(w.db, p.ifricId).value;
      ChangeEmailAges(w, companyId, p.userId, p.email, f.setEmail);
      var w1 := if p.email != "" then ChangeEmail(w, companyId, p.userId, p.email, f.setEmail).0 else w;
      assert RowsAge(w, w1);
      if w' != w1 {
        assert RowsAge(w1, w');
        AgesTwice(w, w1, w');
      }
      hide ChangeEmail, RowsAge;
    }
  }

  lemma CreateAccessGroupAges(w: World, c: Claims, ifricId: string, name: string, rights: set<Right>, w': World,
      r: Outcome)
    requires CreateAccessGroup(w, c, ifricId, name, rights, w', r)
    ensures RowsAge(w, w')
  {
    hide FindCompany, Authorised, RowsAge;
    SameRowsAge(w, w');
  }

  lemma UpdateAccessGroupAges(w: World, c: Claims, id: Id, p: GroupPatch, throws: bool, w': World, r: Outcome)
    requires UpdateAccessGroup(w, c, id, p, throws, w', r)
    ensures RowsAge(w, w')
  {
    hide Authorised, GroupPatched, RowsAge;
    SameRowsAge(w, w');
  }

  lemma DeleteAccessGroupAges(w: World, c: Claims, id: Id, w': World, r: Outcome)
    requires DeleteAccessGroup(w, c, id, w', r)
    ensures RowsAge(w, w')
  {
    hide Authorised, RowsAge;
    SameRowsAge(w, w');
  }

  lemma UpdateCompanyAges(w: World, c: Claims, ifricId: string, p: CompanyPatch, throws: bool, w': World, r: Outcome)
    requires UpdateCompany(w, c, ifricId, p, throws, w', r)
    ensures RowsAge(w, w')
  {
    hide Authorised, CategorySet, CompanyEmailClash, FindCompany;
  }

  lemma DeleteCompanyAges(w: World, c: Claims, ifricId: string, w': World, r: Outcome)
    requires DeleteCompany(w, c, ifricId, w', r)
    ensures RowsAge(w, w')
  {
    hide FindCompany, Authorised, GrantsWithout, UsersOf;
  }

  lemma CreateFactoryAges(w: World, c: Claims, q: FactoryRequest, f: FactoryFaults, w': World, r: Outcome)
    requires CreateFactory(w, c, q, f, w', r)
    ensures RowsAge(w, w')
  {
    hide FindCompany, FindFactory, Authorised, RowsAge;
    if r == Done {
      var id := if q.factoryId != "" then q.factoryId else f.mint.urn;
      var factory := Factory(id, q.ownerIfricId, q.location);
      var k: Id :| w.issued <= w'.issued && w'.db == w.db.(factories := w.db.factories[k := factory]);
    }
    SameRowsAge(w, w');
  }

  lemma DeleteFactoryAges(w: World, c: Claims, factoryId: string, w': World, r: Outcome)
    requires DeleteFactory(w, c, factoryId, w', r)
    ensures RowsAge(w, w')
  {
    hide FindFactory, Authorised, FactoryInUse, RowsAge;
    SameRowsAge(w, w');
  }

  lemma CreateAssetAges(w: World, c: Claims, q: AssetRequest, throws: bool, w': World, r: Outcome)
    requires CreateAsset(w, c, q, throws, w', r)
    ensures RowsAge(w, w')
  {
    hide FindCompany, FindFactory, Authorised, AssetKeyTaken;
  }

  lemma UpdateAssetAges(w: World, c: Claims, urn: string, ownerIfricId: string, factoryId: string, w': World,
      r: Outcome)
    requires UpdateAsset(w, c, urn, ownerIfricId, factoryId, w', r)
    ensures RowsAge(w, w')
  {
    hide FindCompany, FindFactory, Authorised;
  }

  lemma DeletingAssetsAges(w: World, w': World, urns: set<string>)
    requires w' == w || w' == w.(db := w.db.(assets := AssetsWithout(w.db.assets, urns)))
    ensures RowsAge(w, w')
  {
  }

  lemma StepAges(w: World, e: Event, w': World)
    requires Step(w, e, w')
    ensures RowsAge(w, w')
  {
    hide RowsAge, CreateCompany, CreateCompanyUser, UpdateUserAccessGroup, UpdateCompanyUser, DeleteCompanyUser;
    hide CreateAccessGroup, UpdateAccessGroup, DeleteAccessGroup, UpdateCompany, DeleteCompany;
    hide CreateFactory, DeleteFactory, CreateAsset, UpdateAsset, Authorised, HasPermission, ForeignAssetListed;
    match e.request
    case ReqCreateCompany(d, course) => CreateCompanyAges(w, d, course, w', e.outcome == Done);
    case ReqCreateCompanyUser(q, f) => CreateCompanyUserAges(w, e.caller, q, f, w', e.outcome);
    case ReqUpdateUserAccessGroup(u, role) => UpdateUserAccessGroupAges(w, e.caller, u, role, w', e.outcome);
    case ReqUpdateCompanyUser(p, f) => UpdateCompanyUserAges(w, e.caller, p, f, w', e.outcome);
    case ReqDeleteCompanyUser(u, removal) => DeleteCompanyUserAges(w, e.caller, u, removal, w', e.outcome);
    case ReqCreateAccessGroup(i, n, rights) => CreateAccessGroupAges(w, e.caller, i, n, rights, w', e.outcome);
    case ReqUpdateAccessGroup(g, p, throws) => UpdateAccessGroupAges(w, e.caller, g, p, throws, w', e.outcome);
    case ReqDeleteAccessGroup(g) => DeleteAccessGroupAges(w, e.caller, g, w', e.outcome);
    case ReqUpdateCompany(id, p, throws) => UpdateCompanyAges(w, e.caller, id, p, throws, w', e.outcome);
    case ReqDeleteCompany(id) => DeleteCompanyAges(w, e.caller, id, w', e.outcome);
    case ReqCreateFactory(q, f) => CreateFactoryAges(w, e.caller, q, f, w', e.outcome);
    case ReqDeleteFactory(id) => DeleteFactoryAges(w, e.caller, id, w', e.outcome);
    case ReqCreateAsset(q, throws) => CreateAssetAges(w, e.caller, q, throws, w', e.outcome);
    case ReqUpdateAsset(u, o, i) => UpdateAssetAges(w, e.caller, u, o, i, w', e.outcome);
    case ReqDeleteAsset(u) => DeletingAssetsAges(w, w', {u});
    case ReqDeleteAssets(us) => DeletingAssetsAges(w, w', us);
  }

  /** The same over any stretch of a history: rows present at both ends are aged versions, the others have new ids. */
  lemma {:induction false} RunAges(worlds: seq<World>, events: seq<Event>, i: nat, j: nat)
    requires IsRun(worlds, events) && i <= j < |worlds|
    ensures RowsAge(worlds[i], worlds[j])
    decreases j - i
  {
    if i == j {
    } else {
      RunAges(worlds, events, i, j - 1);
      StepAges(worlds[j - 1], events[j - 1], worlds[j - 1 + 1]);
      AgesTwice(worlds[i], worlds[j - 1], worlds[j]);
    }
  }

  lemma AgesTwice(w: World, w1: World, w2: World)
    requires RowsAge(w, w1) && RowsAge(w1, w2)
    ensures RowsAge(w, w2)
  {
  }

  /** Once an asset is a twin with an owner it stays one as long as its row lives, through any further history. */
  lemma TwinNeverReverts(worlds: seq<World>, events: seq<Event>, i: nat, j: nat, asset: Id)
    requires IsRun(worlds, events) && i <= j < |worlds|
    requires asset in worlds[i].db.assets && worlds[i].db.assets[asset].isTwin
    requires asset in worlds[j].db.assets
    ensures worlds[j].db.assets[asset].isTwin && worlds[j].db.assets[asset].owner.Some?
    ensures worlds[j].db.assets[asset].companyId == worlds[i].db.assets[asset].companyId
    ensures worlds[j].db.assets[asset].urn == worlds[i].db.assets[asset].urn
  {
    RunKeepsInv(worlds, events, i);
    RunKeepsInv(worlds, events, j);
    RunAges(worlds, events, i, j);
  }

  /**
   A token whose user was deleted, or whose account outlived a failed
   creation, never gets through a permission check again: no later request,
   registration included, can bring its user id back.
   */
  lemma DeadTokenStaysDead(worlds: seq<World>, events: seq<Event>, i: nat, j: nat, token: Claims, right: Right)
    requires IsRun(worlds, events) && i <= j < |worlds|
    requires Truthy(token.companyIfricId) && token.userId.Some?
    requires token.userId.value in worlds[i].issued && token.userId.value !in worlds[i].db.users
    ensures !HasPermission(worlds[j].db, ResolveClaims(worlds[j].db, token), right)
  {
    RunKeepsInv(worlds, events, j);
    RunAges(worlds, events, i, j);
  }

  // ----- what a caller can change -----

  /** The company a caller acts for; without the claim, none. */
  function CallerCompany(c: Claims): string {
    if c.companyIfricId.Some? then c.companyIfricId.value else ""
  }

  function UserIfric(db: Tables, userId: Id): string {
    if userId in db.users then OwnerIfric(db, db.users[userId].companyId) else ""
  }

  /** Every row of another company than `own` that `db` has, `db'` has unchanged. */
  ghost predicate OthersKept(db: Tables, db': Tables, own: string) {
    && CompaniesKept(db, db', own) && UsersKept(db, db', own) && GroupsKept(db, db', own)
    && GrantsKept(db, db', own) && MappingsKept(db, db', own) && FactoriesKept(db, db', own)
    && AssetsKept(db, db', own) && DevicesKept(db, db', own)
  }

  ghost predicate CompaniesKept(db: Tables, db': Tables, own: string) {
    forall k | k in db.companies && db.companies[k].ifricId != own ::
        k in db'.companies && db'.companies[k] == db.companies[k]
  }

  ghost predicate UsersKept(db: Tables, db': Tables, own: string) {
    forall u | u in db.users && OwnerIfric(db, db.users[u].companyId) != own ::
        u in db'.users && db'.users[u] == db.users[u]
  }

  ghost predicate GroupsKept(db: Tables, db': Tables, own: string) {
    forall g | g in db.groups && OwnerIfric(db, db.groups[g].companyId) != own ::
        g in db'.groups && db'.groups[g] == db.groups[g]
  }

  ghost predicate GrantsKept(db: Tables, db': Tables, own: string) {
    forall g | g in db.grants && UserIfric(db, db.grants[g].userId) != own ::
        g in db'.grants && db'.grants[g] == db.grants[g]
  }

  ghost predicate MappingsKept(db: Tables, db': Tables, own: string) {
    forall m | m in db.mappings && OwnerIfric(db, db.mappings[m].companyId) != own ::
        m in db'.mappings && db'.mappings[m] == db.mappings[m]
  }

  ghost predicate FactoriesKept(db: Tables, db': Tables, own: string) {
    forall f | f in db.factories && db.factories[f].ownerIfricId != own ::
        f in db'.factories && db'.factories[f] == db.factories[f]
  }

  ghost predicate AssetsKept(db: Tables, db': Tables, own: string) {
    forall a | a in db.assets && OwnerIfric(db, db.assets[a].companyId) != own ::
        a in db'.assets && db'.assets[a] == db.assets[a]
  }

  ghost predicate DevicesKept(db: Tables, db': Tables, own: string) {
    && (forall d | d in db.gateways && OwnerIfric(db, db.gateways[d].companyId) != own ::
        d in db'.gateways && db'.gateways[d] == db.gateways[d])
    && (forall d | d in db.servers && OwnerIfric(db, db.servers[d].companyId) != own ::
        d in db'.servers && db'.servers[d] == db.servers[d])
  }

  /** Seen by any other company, nothing was changed, removed or added. */
  ghost predicate LeavesOthersAlone(db: Tables, db': Tables, own: string) {
    OthersKept(db, db', own) && OthersKept(db', db, own)
  }

  lemma KeptTwice(db: Tables, db1: Tables, db2: Tables, own: string)
    requires OthersKept(db, db1, own) && OthersKept(db1, db2, own)
    requires forall k: Id :: OwnerIfric(db, k) == OwnerIfric(db1, k)
    requires forall g | g in db.grants && g in db1.grants && db1.grants[g] == db.grants[g] ::
               UserIfric(db, db.grants[g].userId) == UserIfric(db1, db.grants[g].userId)
    ensures OthersKept(db, db2, own)
  {
    assert CompaniesKept(db, db2, own) by {
      forall k | k in db.companies && db.companies[k].ifricId != own
          ensures k in db2.companies && db2.companies[k] == db.companies[k] {
        assert db1.companies[k] == db.companies[k];
      }
    }
  }

  lemma LeftAloneTwice(db: Tables, db1: Tables, db2: Tables, own: string)
    requires LeavesOthersAlone(db, db1, own) && LeavesOthersAlone(db1, db2, own)
    requires forall k: Id :: OwnerIfric(db, k) == OwnerIfric(db1, k) && OwnerIfric(db1, k) == OwnerIfric(db2, k)
    requires forall g | g in db.grants :: UserIfric(db, db.grants[g].userId) == UserIfric(db1, db.grants[g].userId)
    requires forall g | g in db2.grants :: UserIfric(db1, db2.grants[g].userId) == UserIfric(db2, db2.grants[g].userId)
    ensures LeavesOthersAlone(db, db2, own)
  {
    hide OthersKept;
    KeptTwice(db, db1, db2, own);
    KeptTwice(db2, db1, db, own);
  }

  /** Without a change to companies and users every row belongs to whom it belonged. */
  lemma SameOwners(db: Tables, db': Tables)
    requires db'.companies == db.companies && db'.users == db.users
    ensures forall k: Id :: OwnerIfric(db', k) == OwnerIfric(db, k)
    ensures forall u: Id :: UserIfric(db', u) == UserIfric(db, u)
  {
  }

  // One table changes, in rows of `own` alone.

  lemma GroupRowIsOwn(db: Tables, g: Id, group: AccessGroup, own: string)
    requires OwnerIfric(db, group.companyId) == own
    requires g in db.groups ==> OwnerIfric(db, db.groups[g].companyId) == own
    ensures LeavesOthersAlone(db, db.(groups := db.groups[g := group]), own)
  {
    SameOwners(db, db.(groups := db.groups[g := group]));
    hide OwnerIfric, UserIfric;
  }

  lemma GroupRemovedIsOwn(db: Tables, g: Id, own: string)
    requires g in db.groups && OwnerIfric(db, db.groups[g].companyId) == own
    ensures LeavesOthersAlone(db, db.(groups := db.groups - {g}), own)
  {
    SameOwners(db, db.(groups := db.groups - {g}));
    hide OwnerIfric, UserIfric;
  }

  lemma GrantRowIsOwn(db: Tables, k: Id, grant: Grant, own: string)
    requires UserIfric(db, grant.userId) == own
    requires k in db.grants ==> UserIfric(db, db.grants[k].userId) == own
    ensures LeavesOthersAlone(db, db.(grants := db.grants[k := grant]), own)
  {
    SameOwners(db, db.(grants := db.grants[k := grant]));
    hide OwnerIfric, UserIfric;
  }

  lemma UserRowIsOwn(db: Tables, u: Id, user: CompanyUser, own: string)
    requires OwnerIfric(db, user.companyId) == own
    requires if u in db.users then db.users[u].companyId == user.companyId
             else forall g | g in db.grants :: db.grants[g].userId != u
    ensures LeavesOthersAlone(db, db.(users := db.users[u := user]), own)
  {
  }

  lemma MappingRowIsOwn(db: Tables, m: Id, mapping: Mapping, own: string)
    requires OwnerIfric(db, mapping.companyId) == own
    requires m in db.mappings ==> db.mappings[m].companyId == mapping.companyId
    ensures LeavesOthersAlone(db, db.(mappings := db.mappings[m := mapping]), own)
  {
    SameOwners(db, db.(mappings := db.mappings[m := mapping]));
    hide OwnerIfric, UserIfric;
  }

  lemma CompanyRowIsOwn(db: Tables, k: Id, company: Company, own: string)
    requires k in db.companies && db.companies[k].ifricId == company.ifricId == own
    ensures LeavesOthersAlone(db, db.(companies := db.companies[k := company]), own)
  {
  }

  lemma FactoryRowIsOwn(db: Tables, f: Id, factory: Factory, own: string)
    requires factory.ownerIfricId == own && (f in db.factories ==> db.factories[f].ownerIfricId == own)
    ensures LeavesOthersAlone(db, db.(factories := db.factories[f := factory]), own)
  {
    SameOwners(db, db.(factories := db.factories[f := factory]));
    hide OwnerIfric, UserIfric;
  }

  lemma FactoryRemovedIsOwn(db: Tables, f: Id, own: string)
    requires f in db.factories && db.factories[f].ownerIfricId == own
    ensures LeavesOthersAlone(db, db.(factories := db.factories - {f}), own)
  {
    SameOwners(db, db.(factories := db.factories - {f}));
    hide OwnerIfric, UserIfric;
  }

  lemma AssetRowIsOwn(db: Tables, a: Id, asset: Asset, own: string)
    requires OwnerIfric(db, asset.companyId) == own
    requires a in db.assets ==> OwnerIfric(db, db.assets[a].companyId) == own
    ensures LeavesOthersAlone(db, db.(assets := db.assets[a := asset]), own)
  {
    SameOwners(db, db.(assets := db.assets[a := asset]));
    hide OwnerIfric, UserIfric;
  }

  /** Deleting by URN leaves other companies alone exactly when none of them registered a listed URN. */
  lemma AssetsRemovedAreOwn(db: Tables, urns: set<string>, own: string)
    ensures LeavesOthersAlone(db, db.(assets := AssetsWithout(db.assets, urns)), own) <==>
      forall a | a in db.assets && db.assets[a].urn in urns :: OwnerIfric(db, db.assets[a].companyId) == own
  {
    var db' := db.(assets := AssetsWithout(db.assets, urns));
    if forall a | a in db.assets && db.assets[a].urn in urns :: OwnerIfric(db, db.assets[a].companyId) == own {
      AssetsRemovedStayHome(db, urns, own);
    } else {
      hide CompaniesKept, UsersKept, GroupsKept, GrantsKept, MappingsKept, FactoriesKept, DevicesKept;
      var a :| a in db.assets && db.assets[a].urn in urns && OwnerIfric(db, db.assets[a].companyId) != own;
      assert a !in db'.assets;
    }
  }

  lemma AssetsRemovedStayHome(db: Tables, urns: set<string>, own: string)
    requires forall a | a in db.assets && db.assets[a].urn in urns :: OwnerIfric(db, db.assets[a].companyId) == own
    ensures LeavesOthersAlone(db, db.(assets := AssetsWithout(db.assets, urns)), own)
  {
    SameOwners(db, db.(assets := AssetsWithout(db.assets, urns)));
    hide OwnerIfric, UserIfric;
  }

  // The requests.

  lemma UserAndGrantAreOwn(db: Tables, userId: Id, user: CompanyUser, grantId: Id, grant: Grant, own: string)
    requires OwnerIfric(db, user.companyId) == own && grant.userId == userId
    requires userId !in db.users && grantId !in db.grants
    requires forall g | g in db.grants :: db.grants[g].userId != userId
    ensures LeavesOthersAlone(db, db.(users := db.users[userId := user], grants := db.grants[grantId := grant]), own)
  {
    var db1 := db.(users := db.users[userId := user]);
    assert forall g | g in db.grants :: UserIfric(db, db.grants[g].userId) == UserIfric(db1, db.grants[g].userId);
    hide LeavesOthersAlone;
    UserRowIsOwn(db, userId, user, own);
    GrantRowIsOwn(db1, grantId, grant, own);
    LeftAloneTwice(db, db1, db1.(grants := db1.grants[grantId := grant]), own);
  }

  lemma ProvisionedIsOwn(w: World, w': World, k: Id, q: UserRequest, f: UserFaults, r: Outcome, userId: Id, grantId: Id,
      group: Option<Id>)
    requires UserProvisioned(w, k, q, f, w', r, userId, grantId, group) && OwnerIfric(w.db, k) == q.ifricId
    requires w.db.users.Keys <= w.issued && w.db.grants.Keys <= w.issued
    requires forall g | g in w.db.grants :: w.db.grants[g].userId in w.db.users
    ensures LeavesOthersAlone(w.db, w'.db, q.ifricId)
  {
    var user := CompanyUser(k, q.email, q.name, "");
    assert forall g | g in w.db.grants :: w.db.grants[g].userId != userId;
    hide LeavesOthersAlone;
    SameRows(w.db, q.ifricId);
    UserRowIsOwn(w.db, userId, user, q.ifricId);
    if r == Done && group.Some? {
      UserAndGrantAreOwn(w.db, userId, user, grantId, Grant(userId, group.value), q.ifricId);
    }
  }

  lemma CreateCompanyUserStaysHome(w: World, c: Claims, q: UserRequest, f: UserFaults, w': World, r: Outcome)
    requires w.db.users.Keys <= w.issued && w.db.grants.Keys <= w.issued
    requires forall g | g in w.db.grants :: w.db.grants[g].userId in w.db.users
    requires CreateCompanyUser(w, c, q, f, w', r)
    ensures LeavesOthersAlone(w.db, w'.db, CallerCompany(c))
  {
    hide LeavesOthersAlone, UserProvisioned;
    if w'.db == w.db {
      SameRows(w.db, CallerCompany(c));
    } else {
      var k := FindCompany(w.db, q.ifricId).value;
      var userId: Id, grantId: Id, group: Option<Id> :| UserProvisioned(w, k, q, f, w', r, userId, grantId, group);
      ProvisionedIsOwn(w, w', k, q, f, r, userId, grantId, group);
    }
  }

  lemma UpsertIsOwn(db: Tables, grantId: Id, userId: Id, groupId: Id, own: string)
    requires TablesInv(db) && grantId !in db.grants && UserIfric(db, userId) == own
    ensures LeavesOthersAlone(db, db.(grants := UpsertGrant(db.grants, grantId, userId, groupId)), own)
  {
    var row := UpsertIsOneRow(db.grants, grantId, userId, groupId);
    assert row in db.grants ==> db.grants[row].userId == userId;
    hide TablesInv, UpsertGrant, LeavesOthersAlone;
    GrantRowIsOwn(db, row, Grant(userId, groupId), own);
  }

  lemma UpdateUserAccessGroupStaysHome(w: World, c: Claims, userId: Id, role: string, w': World, r: Outcome)
    requires Inv(w) && UpdateUserAccessGroup(w, c, userId, role, w', r)
    ensures LeavesOthersAlone(w.db, w'.db, CallerCompany(c))
  {
    assert w.db.grants.Keys <= w.issued && TablesInv(w.db);
    hide Inv, TablesInv, LeavesOthersAlone;
    SameRows(w.db, CallerCompany(c));
    if w'.db != w.db {
      var grantId: Id, group: Option<Id> :| RoleSet(w, userId, role, w', grantId, group);
      UpsertIsOwn(w.db, grantId, userId, group.value, CallerCompany(c));
    }
  }

  lemma AccessGroupWritesStayHome(w: World, e: Event, w': World)
    requires e.request.ReqCreateAccessGroup? || e.request.ReqUpdateAccessGroup? || e.request.ReqDeleteAccessGroup?
    requires Inv(w) && Step(w, e, w')
    ensures LeavesOthersAlone(w.db, w'.db, CallerCompany(e.caller))
  {
    var own := CallerCompany(e.caller);
    assert w.db.groups.Keys <= w.issued;
    hide Inv, LeavesOthersAlone;
    if w'.db != w.db {
      match e.request
      case ReqCreateAccessGroup(ifricId, name, rights) =>
        var group := AccessGroup(FindCompany(w.db, ifricId).value, name, rights);
        var g: Id :| Fresh(w, w', g) && DatabaseBecomes(w, w', w.db.(groups := w.db.groups[g := group]));
        GroupRowIsOwn(w.db, g, group, own);
      case ReqUpdateAccessGroup(id, p, _) =>
        GroupRowIsOwn(w.db, id, GroupPatched(w.db.groups[id], p), own);
      case ReqDeleteAccessGroup(id) =>
        GroupRemovedIsOwn(w.db, id, own);
    } else {
      SameRows(w.db, own);
    }
  }

  lemma SameRows(db: Tables, own: string)
    ensures LeavesOthersAlone(db, db, own)
  {
  }

  lemma CreateFactoryStaysHome(w: World, c: Claims, q: FactoryRequest, f: FactoryFaults, w': World, r: Outcome)
    requires w.db.factories.Keys <= w.issued && CreateFactory(w, c, q, f, w', r)
    ensures LeavesOthersAlone(w.db, w'.db, CallerCompany(c))
  {
    hide LeavesOthersAlone;
    SameRows(w.db, CallerCompany(c));
    if r == Done {
      var factory := Factory(if q.factoryId != "" then q.factoryId else f.mint.urn, q.ownerIfricId, q.location);
      var k: Id :| Fresh(w, w', k) && w'.db == w.db.(factories := w.db.factories[k := factory]);
      FactoryRowIsOwn(w.db, k, factory, CallerCompany(c));
    }
  }

  lemma DeleteFactoryStaysHome(w: World, c: Claims, factoryId: string, w': World, r: Outcome)
    requires DeleteFactory(w, c, factoryId, w', r)
    ensures LeavesOthersAlone(w.db, w'.db, CallerCompany(c))
  {
    hide LeavesOthersAlone;
    SameRows(w.db, CallerCompany(c));
    if r == Done {
      FactoryRemovedIsOwn(w.db, FindFactory(w.db, factoryId).value, CallerCompany(c));
    }
  }

  lemma CreateAssetStaysHome(w: World, c: Claims, q: AssetRequest, throws: bool, w': World, r: Outcome)
    requires Inv(w) && CreateAsset(w, c, q, throws, w', r)
    ensures LeavesOthersAlone(w.db, w'.db, CallerCompany(c))
  {
    assert w.db.assets.Keys <= w.issued;
    hide Inv, LeavesOthersAlone;
    SameRows(w.db, CallerCompany(c));
    if r == Done {
      var owner := PartyId(w.db, q.ownerIfricId);
      var factory := if q.factoryId == "" then None else Some(q.factoryId);
      var asset := Asset(q.urn, FindCompany(w.db, q.ifricId).value, owner, factory, owner.Some?);
      var a: Id :| Fresh(w, w', a) && DatabaseBecomes(w, w', w.db.(assets := w.db.assets[a := asset]));
      AssetRowIsOwn(w.db, a, asset, CallerCompany(c));
    }
  }

  lemma UpdateAssetStaysHome(w: World, c: Claims, urn: string, ownerIfricId: string, factoryId: string, w': World,
      r: Outcome)
    requires UpdateAsset(w, c, urn, ownerIfricId, factoryId, w', r)
    ensures LeavesOthersAlone(w.db, w'.db, CallerCompany(c))
  {
    hide LeavesOthersAlone;
    SameRows(w.db, CallerCompany(c));
    if r == Done {
      var a: Id :| a in w.db.assets && OwnerIfric(w.db, w.db.assets[a].companyId) == CallerCompany(c)
        && w' == w.(db := w.db.(assets := w.db.assets[
             a := AssetPatched(w.db.assets[a], PartyId(w.db, ownerIfricId), factoryId)]));
      AssetRowIsOwn(w.db, a, w'.db.assets[a], CallerCompany(c));
    }
  }

  lemma DeleteAssetsStaysHome(w: World, c: Claims, urns: set<string>, w': World, r: Outcome)
    requires Inv(w) && DeleteAssets(w, c, urns, w', r)
    ensures LeavesOthersAlone(w.db, w'.db, CallerCompany(c))
  {
    assert CompaniesResolve(w.db);
    hide Inv, LeavesOthersAlone;
    SameRows(w.db, CallerCompany(c));
    AssetsRemovedAreOwn(w.db, urns, CallerCompany(c));
  }

  lemma DeleteCompanyUserStaysHome(w: World, c: Claims, userId: Id, removal: AccountCall, w': World, r: Outcome)
    requires Inv(w) && DeleteCompanyUser(w, c, userId, removal, w', r)
    ensures LeavesOthersAlone(w.db, w'.db, CallerCompany(c))
  {
    var own := CallerCompany(c);
    assert forall g | g in w.db.grants :: w.db.grants[g].userId in w.db.users;
    hide Inv, HasPermission;
    if userId in w.db.users && r == Done {
      UserRemovedIsOwn(w.db, userId, own);
    } else {
      assert r == Done ==> w.db.users - {userId} == w.db.users && GrantsWithout(w.db.grants, {userId}) == w.db.grants;
      SameRows(w.db, own);
    }
  }

  lemma UserRemovedIsOwn(db: Tables, userId: Id, own: string)
    requires userId in db.users && OwnerIfric(db, db.users[userId].companyId) == own
    ensures LeavesOthersAlone(
              db, db.(grants := GrantsWithout(db.grants, {userId}), users := db.users - {userId}), own)
  {
    var db' := db.(grants := GrantsWithout(db.grants, {userId}), users := db.users - {userId});
    assert forall k: Id :: OwnerIfric(db', k) == OwnerIfric(db, k);
    assert forall u: Id | u != userId :: UserIfric(db', u) == UserIfric(db, u);
    hide OwnerIfric;
  }

  lemma CompanyErasedIsOwn(db: Tables, k: Id, own: string)
    requires k in db.companies && db.companies[k].ifricId == own && UniqueCompanies(db.companies)
    ensures LeavesOthersAlone(db, CompanyErased(db, k), own)
  {
  }

  lemma DeleteCompanyStaysHome(w: World, c: Claims, ifricId: string, w': World, r: Outcome)
    requires Inv(w) && DeleteCompany(w, c, ifricId, w', r)
    ensures LeavesOthersAlone(w.db, w'.db, CallerCompany(c))
  {
    assert UniqueCompanies(w.db.companies);
    hide Inv, LeavesOthersAlone, CompanyErased;
    SameRows(w.db, CallerCompany(c));
    if r == Done {
      CompanyErasedIsOwn(w.db, FindCompany(w.db, ifricId).value, CallerCompany(c));
    }
  }

  lemma ContactIsOwn(db: Tables, companyId: Id, userId: Id, email: string, own: string)
    requires companyId in db.companies && db.companies[companyId].ifricId == own && userId in db.users
    ensures LeavesOthersAlone(db, ContactUpdated(db, companyId, userId, email), own)
  {
    hide LeavesOthersAlone;
    SameRows(db, own);
    CompanyRowIsOwn(db, companyId, db.companies[companyId].(email := email), own);
  }

  lemma ContactKeepsIfrics(db: Tables, companyId: Id, userId: Id, user: CompanyUser, email: string)
    requires companyId in db.companies && userId in db.users && db.users[userId].companyId == companyId
        && user.companyId == companyId
    ensures var db1 := ContactUpdated(db, companyId, userId, email);
        var db2 := db1.(users := db1.users[userId := user]);
      && (forall k: Id :: OwnerIfric(db, k) == OwnerIfric(db1, k) && OwnerIfric(db1, k) == OwnerIfric(db2, k))
      && (forall u: Id :: UserIfric(db, u) == UserIfric(db1, u) && UserIfric(db1, u) == UserIfric(db2, u))
  {
  }

  lemma ContactAndUserAreOwn(db: Tables, companyId: Id, userId: Id, user: CompanyUser, email: string, own: string)
    requires companyId in db.companies && db.companies[companyId].ifricId == own
    requires userId in db.users && db.users[userId].companyId == companyId && user.companyId == companyId
    ensures var db1 := ContactUpdated(db, companyId, userId, email);
      LeavesOthersAlone(db, db1.(users := db1.users[userId := user]), own)
  {
    var db1 := ContactUpdated(db, companyId, userId, email);
    var db2 := db1.(users := db1.users[userId := user]);
    ContactKeepsIfrics(db, companyId, userId, user, email);
    assert OwnerIfric(db1, companyId) == own;
    hide LeavesOthersAlone, OwnerIfric, UserIfric;
    ContactIsOwn(db, companyId, userId, email, own);
    UserRowIsOwn(db1, userId, user, own);
    LeftAloneTwice(db, db1, db2, own);
  }

  /** The five shapes the database can have afterwards. */
  lemma UpdateCompanyUserRows(w: World, c: Claims, p: UserPatch, f: UserPatchFaults, w': World, r: Outcome)
    requires UpdateCompanyUser(w, c, p, f, w', r) && w'.db != w.db
    ensures var k := FindCompany(w.db, p.ifricId);
      && k.Some? && p.userId in w.db.users && w.db.users[p.userId].companyId == k.value && IsOwnCompany(c, p.ifricId)
      && p.userId in w'.db.users && w'.db.users[p.userId].companyId == k.value
      && var db1 := ContactUpdated(w.db, k.value, p.userId, p.email); var user := w'.db.users[p.userId];
         || w'.db == db1
         || w'.db == db1.(users := w.db.users[p.userId := user])
         || w'.db == w.db.(users := w.db.users[p.userId := user])
  {
    var users, id := w.db.users, p.userId;
    var renamed := users[id := users[id].(email := p.email)];
    if id in w'.db.users {
      assert renamed[id := w'.db.users[id]] == users[id := w'.db.users[id]];
    }
  }

  lemma UpdateCompanyUserStaysHome(w: World, c: Claims, p: UserPatch, f: UserPatchFaults, w': World, r: Outcome)
    requires UpdateCompanyUser(w, c, p, f, w', r)
    ensures LeavesOthersAlone(w.db, w'.db, CallerCompany(c))
  {
    var own := CallerCompany(c);
    hide LeavesOthersAlone;
    SameRows(w.db, own);
    if w'.db != w.db {
      UpdateCompanyUserRows(w, c, p, f, w', r);
      hide UpdateCompanyUser, ContactUpdated;
      var k := FindCompany(w.db, p.ifricId).value;
      ContactIsOwn(w.db, k, p.userId, p.email, own);
      ContactAndUserAreOwn(w.db, k, p.userId, w'.db.users[p.userId], p.email, own);
      UserRowIsOwn(w.db, p.userId, w'.db.users[p.userId], own);
    }
  }

  lemma CategorySetIsOwn(w: World, w': World, companyId: Id, name: string, mappings': map<Id, Mapping>, own: string)
    requires CategorySet(w, w', companyId, name, mappings') && OwnerIfric(w.db, companyId) == own
    requires w.db.mappings.Keys <= w.issued
    ensures LeavesOthersAlone(w.db, w.db.(mappings := mappings'), own)
  {
    hide LeavesOthersAlone;
    if name == "" {
      assert w.db == w.db.(mappings := mappings');
      SameRows(w.db, own);
    } else {
      var newId: Id, category: Id :|
        PickedCategory(w.db, name, Some(category)) && MappingRepointed(w, w', companyId, category, newId, mappings');
      if exists m :: m in w.db.mappings && w.db.mappings[m].companyId == companyId {
        var m :| m in w.db.mappings && w.db.mappings[m].companyId == companyId
            && mappings' == w.db.mappings[m := Mapping(companyId, category)];
        MappingRowIsOwn(w.db, m, Mapping(companyId, category), own);
      } else {
        MappingRowIsOwn(w.db, newId, Mapping(companyId, category), own);
      }
    }
  }

  lemma UpdateCompanyStaysHome(w: World, c: Claims, ifricId: string, p: CompanyPatch, throws: bool, w': World,
      r: Outcome)
    requires w.db.mappings.Keys <= w.issued && UpdateCompany(w, c, ifricId, p, throws, w', r)
    ensures LeavesOthersAlone(w.db, w'.db, CallerCompany(c))
  {
    var own := CallerCompany(c);
    hide LeavesOthersAlone, HasPermission, CategorySet, CompanyEmailClash, FindCompany;
    if r == Done || r == Failed {
      var k := FindCompany(w.db, ifricId).value;
      assert OwnerIfric(w.db, k) == own && CompanyPatched(w.db.companies[k], p).ifricId == own;
      hide CompanyPatched, OwnerIfric;
      var company := CompanyPatched(w.db.companies[k], p);
      var mappings': map<Id, Mapping> :|
        && CategorySet(w, w', k, p.category, mappings')
        && (w'.db == w.db.(mappings := mappings')
            || w'.db == w.db.(mappings := mappings', companies := w.db.companies[k := company]));
      var db1 := w.db.(mappings := mappings');
      CategorySetIsOwn(w, w', k, p.category, mappings', own);
      CompanyRowIsOwn(db1, k, company, own);
      LeftAloneTwice(w.db, db1, db1.(companies := db1.companies[k := company]), own);
    } else {
      SameRows(w.db, own);
    }
  }

  // ----- the tenant boundary -----

  /**
   In every reachable world, any request except a registration (which has no
   caller) and deleteAsset leaves every row of every other company as it was,
   whoever sends it and whichever of its modelled calls fails.
   */
  lemma CallerChangesOnlyOwnRows(worlds: seq<World>, events: seq<Event>, i: nat)
    requires IsRun(worlds, events) && i < |events|
    requires !events[i].request.ReqCreateCompany? && !events[i].request.ReqDeleteAsset?
    ensures LeavesOthersAlone(worlds[i].db, worlds[i + 1].db, CallerCompany(events[i].caller))
  {
    RunKeepsInv(worlds, events, i);
    StepStaysHome(worlds[i], events[i], worlds[i + 1]);
  }

  lemma StepStaysHome(w: World, e: Event, w': World)
    requires Inv(w) && Step(w, e, w')
    requires !e.request.ReqCreateCompany? && !e.request.ReqDeleteAsset?
    ensures LeavesOthersAlone(w.db, w'.db, CallerCompany(e.caller))
  {
    var c, r := e.caller, e.outcome;
    assert w.db.mappings.Keys <= w.issued && w.db.factories.Keys <= w.issued;
    assert w.db.users.Keys <= w.issued && w.db.grants.Keys <= w.issued;
    assert forall g | g in w.db.grants :: w.db.grants[g].userId in w.db.users;
    hide LeavesOthersAlone, Inv;
    hide CreateCompanyUser, UpdateUserAccessGroup, UpdateCompanyUser, DeleteCompanyUser, UpdateCompany, DeleteCompany;
    hide CreateFactory, DeleteFactory, CreateAsset, UpdateAsset, DeleteAssets;
    match e.request
    case ReqCreateCompanyUser(q, f) => CreateCompanyUserStaysHome(w, c, q, f, w', r);
    case ReqUpdateUserAccessGroup(u, role) => UpdateUserAccessGroupStaysHome(w, c, u, role, w', r);
    case ReqUpdateCompanyUser(p, f) => UpdateCompanyUserStaysHome(w, c, p, f, w', r);
    case ReqDeleteCompanyUser(u, removal) => DeleteCompanyUserStaysHome(w, c, u, removal, w', r);
    case ReqCreateAccessGroup(_, _, _) => AccessGroupWritesStayHome(w, e, w');
    case ReqUpdateAccessGroup(_, _, _) => AccessGroupWritesStayHome(w, e, w');
    case ReqDeleteAccessGroup(_) => AccessGroupWritesStayHome(w, e, w');
    case ReqUpdateCompany(id, p, throws) => UpdateCompanyStaysHome(w, c, id, p, throws, w', r);
    case ReqDeleteCompany(id) => DeleteCompanyStaysHome(w, c, id, w', r);
    case ReqCreateFactory(q, f) => CreateFactoryStaysHome(w, c, q, f, w', r);
    case ReqDeleteFactory(id) => DeleteFactoryStaysHome(w, c, id, w', r);
    case ReqCreateAsset(q, throws) => CreateAssetStaysHome(w, c, q, throws, w', r);
    case ReqUpdateAsset(u, o, f) => UpdateAssetStaysHome(w, c, u, o, f, w', r);
    case ReqDeleteAssets(urns) => DeleteAssetsStaysHome(w, c, urns, w', r);
  }

  /**
   deleteAsset checks one row and deletes by URN, and URNs are unique only
   within a company: it respects the boundary exactly when no other company
   registered the same URN.
   */
  lemma DeleteAssetBoundary(w: World, c: Claims, urn: string, w': World, r: Outcome)
    requires Inv(w) && DeleteAsset(w, c, urn, w', r) && r == Done
    ensures LeavesOthersAlone(w.db, w'.db, CallerCompany(c)) <==>
      forall a | a in w.db.assets && w.db.assets[a].urn == urn ::
          w.db.companies[w.db.assets[a].companyId].ifricId == CallerCompany(c)
  {
    assert CompaniesResolve(w.db);
    hide LeavesOthersAlone;
    AssetsRemovedAreOwn(w.db, {urn}, CallerCompany(c));
  }
}
