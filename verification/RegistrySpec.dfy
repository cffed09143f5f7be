/**
 What each write of CompanyService, AuthService and AssetService does to the
 world, as a relation between the world before (`w`) and after (`w'`). Ids,
 the row an unordered query lists first and the failures of external calls are
 arbitrary. AuthService, AssetService, CompanyService and Registration carry
 them out statement by statement.
 */
module RegistrySpec {
  import opened Wrappers
  import opened Tables
  import opened AccessControl

  // ----- table updates -----

  function UsersOf(db: Tables, companyId: Id): set<Id> {
    set u | u in db.users && db.users[u].companyId == companyId
  }

  function GrantsWithout(grants: map<Id, Grant>, users: set<Id>): map<Id, Grant> {
    map g | g in grants && grants[g].userId !in users :: grants[g]
  }

  /** INSERT ... ON CONFLICT (user_id) DO UPDATE SET access_group_id. */
  function UpsertGrant(grants: map<Id, Grant>, newId: Id, userId: Id, groupId: Id): map<Id, Grant> {
    if exists g :: g in grants && grants[g].userId == userId
    then map g | g in grants :: if grants[g].userId == userId then Grant(userId, groupId) else grants[g]
    else grants[newId := Grant(userId, groupId)]
  }

  function AssetsWithout(assets: map<Id, Asset>, urns: set<string>): map<Id, Asset> {
    map a | a in assets && assets[a].urn !in urns :: assets[a]
  }

  /** DELETE ... WHERE company_id = companyId on every table deleteCompany names, and the former users' grants. */
  function CompanyErased(db: Tables, companyId: Id): Tables {
    Tables(
      db.companies - {companyId},
      map u | u in db.users && db.users[u].companyId != companyId :: db.users[u],
      map g | g in db.groups && db.groups[g].companyId != companyId :: db.groups[g],
      GrantsWithout(db.grants, UsersOf(db, companyId)),
      map m | m in db.mappings && db.mappings[m].companyId != companyId :: db.mappings[m],
      db.categories,
      db.factories,
      map a | a in db.assets && db.assets[a].companyId != companyId :: db.assets[a],
      map d | d in db.gateways && db.gateways[d].companyId != companyId :: db.gateways[d],
      map d | d in db.servers && db.servers[d].companyId != companyId :: db.servers[d],
      db.hookRows)
  }

  ghost predicate Fresh(w: World, w': World, id: Id) {
    id !in w.issued && id in w'.issued
  }

  ghost predicate Rejected(w: World, w': World) {
    w'.db == w.db && w'.keycloak == w.keycloak && w'.icid == w.icid && w.issued <= w'.issued && w'.stamped == w.stamped
  }

  /** Only the database changed, apart from ids handed out. */
  ghost predicate DatabaseBecomes(w: World, w': World, db: Tables) {
    w'.db == db && w'.keycloak == w.keycloak && w'.icid == w.icid && w.issued <= w'.issued && w'.stamped == w.stamped
  }

  // ----- company registration -----

  datatype Registration = Registration(name: string, email: string, profile: Profile, adminName: string,
      category: string)

  datatype NewIds = NewIds(company: Id, mapping: Id, readOnly: Id, admin: Id, user: Id, grant: Id)

  ghost predicate FreshIds(w: World, w': World, ids: NewIds) {
    && Fresh(w, w', ids.company) && Fresh(w, w', ids.mapping) && Fresh(w, w', ids.readOnly)
    && Fresh(w, w', ids.admin) && Fresh(w, w', ids.user) && Fresh(w, w', ids.grant)
    && ids.readOnly != ids.admin
  }

  /** The rows one committed registration adds. */
  function Registered(db: Tables, d: Registration, urn: Urn, category: Id, ids: NewIds, hookRows: set<string>): Tables {
    db.(
    companies := db.companies[ids.company := Company(urn, d.name, d.email, d.profile)],
    mappings := db.mappings[ids.mapping := Mapping(ids.company, category)],
    groups := db.groups
      [ids.readOnly := AccessGroup(ids.company, "read_only", {Read})]
      [ids.admin := AccessGroup(ids.company, "admin", ALL_RIGHTS)],
    users := db.users[ids.user := CompanyUser(ids.company, d.email, d.adminName, "")],
    grants := db.grants[ids.grant := Grant(ids.user, ids.admin)],
    hookRows := db.hookRows + hookRows)
  }

  /** The unique columns a new company needs free, and its category. */
  ghost predicate Registrable(db: Tables, d: Registration, urn: Urn, category: Id) {
    && (forall k | k in db.companies ::
        db.companies[k].email != d.email && db.companies[k].name != d.name && db.companies[k].ifricId != urn)
    && !EmailTaken(db.users, d.email)
    && category in db.categories && db.categories[category] == d.category
  }

  /**
   What became of a createCompany call in the three stores: the id ICID minted,
   if it did, and whether the catch block released it; whether the commit took
   effect; whether the admin's account was created, and whether it is left.
   `Registration.CourseOf` says which course a call takes.
   */
  datatype Course = Course(mint: Option<Urn>, released: bool, committed: bool, stamped: bool, account: bool)

  function IcidAfterCourse(icid: set<IcidEntry>, course: Course): set<IcidEntry> {
    match course.mint
    case None => icid
    case Some(urn) => if course.released then icid - {CompanyUrn(urn)} else icid + {CompanyUrn(urn)}
  }

  /** What a createCompany call that takes this course does to the world. */
  ghost predicate CreateCompany(w: World, d: Registration, course: Course, w': World, created: bool) {
    && w'.icid == IcidAfterCourse(w.icid, course)
    && (created ==> course == Course(course.mint, false, true, true, true))
    && (course.stamped || course.committed ==> course.mint.Some?)
    && exists ids: NewIds, category: Id, hookRows: set<string> ::
         CreateCompanyWith(w, d, course, w', ids, category, hookRows)
  }

  ghost predicate CreateCompanyWith(
    w: World, d: Registration, course: Course, w': World, ids: NewIds, category: Id, hookRows: set<string>)
  {
    var urn := if course.mint.Some? then course.mint.value else "-";
    var identity := Identity(urn, ids.user);
    && w.issued <= w'.issued
    && (if course.committed then
          && w'.db == Registered(w.db, d, urn, category, ids, hookRows)
          && Registrable(w.db, d, urn, category) && FreshIds(w, w', ids)
        else
          w'.db == w.db)
    && (if course.stamped then w'.stamped == w.stamped + {identity} && Fresh(w, w', ids.user)
        else w'.stamped == w.stamped)
    && (if course.account then
          course.stamped && d.email !in w.keycloak && w'.keycloak == w.keycloak[d.email := identity]
        else
          w'.keycloak == w.keycloak)
  }

  // ----- users and their roles -----

  /** What came of changing or removing an account: a call that throws may have been carried out all the same. */
  datatype AccountCall = TookEffect | HadNoEffect | TookEffectThenThrew

  datatype IdentityReply = Created | Refused | CreatedThenThrew

  datatype UserRequest = UserRequest(ifricId: string, name: string, email: string, role: string)

  datatype UserFaults = UserFaults(identity: IdentityReply, saveUserThrows: bool, saveGrantThrows: bool,
      cleanup: AccountCall)

  /** createCompanyUser past its checks. Not one transaction: a failed grant leaves the user row behind. */
  function ProvisionUser(w: World, companyId: Id, q: UserRequest, f: UserFaults, userId: Id, grantId: Id,
      group: Option<Id>): (World, Outcome) {
    var identity := Identity(q.ifricId, userId);
    if f.identity == Refused || q.email in w.keycloak then
      (w, Failed)
    else
      var stamped := w.(keycloak := w.keycloak[q.email := identity], stamped := w.stamped + {identity});
      var cleaned := if f.cleanup == HadNoEffect then stamped else stamped.(keycloak := stamped.keycloak - {q.email});
      if f.identity == CreatedThenThrew then
        (stamped, Failed)
      else if f.saveUserThrows then
        (cleaned, Failed)
      else
        var users := w.db.users[userId := CompanyUser(companyId, q.email, q.name, "")];
        if group.None? then
          (stamped.(db := w.db.(users := users)), Done)
        else if f.saveGrantThrows then
          (cleaned.(db := w.db.(users := users)), Failed)
        else
          (stamped.(db := w.db.(users := users, grants := w.db.grants[grantId := Grant(userId, group.value)])), Done)
  }

  ghost predicate CreateCompanyUser(w: World, c: Claims, q: UserRequest, f: UserFaults, w': World, r: Outcome) {
    if !Authorised(w.db, c, q.ifricId, Create) then
      r == Forbidden && Rejected(w, w')
    else if EmailTaken(w.db.users, q.email) then
      r == Conflict && Rejected(w, w')
    else if FindCompany(w.db, q.ifricId).None? then
      r == NotFound && Rejected(w, w')
    else
      exists userId: Id, grantId: Id, group: Option<Id> ::
        UserProvisioned(w, FindCompany(w.db, q.ifricId).value, q, f, w', r, userId, grantId, group)
  }

  ghost predicate UserProvisioned(
    w: World, companyId: Id, q: UserRequest, f: UserFaults, w': World, r: Outcome,
    userId: Id, grantId: Id, group: Option<Id>)
  {
    && Fresh(w, w', userId) && (r == Done && group.Some? ==> Fresh(w, w', grantId)) && w.issued <= w'.issued
    && PickedGroup(w.db, companyId, q.role, group)
    && ProvisionUser(w, companyId, q, f, userId, grantId, group) == (w'.(issued := w.issued), r)
  }

  ghost predicate UpdateUserAccessGroup(w: World, c: Claims, userId: Id, role: string, w': World, r: Outcome) {
    if userId !in w.db.users then
      r == NotFound && Rejected(w, w')
    else if !Authorised(w.db, c, OwnerIfric(w.db, w.db.users[userId].companyId), Update) then
      r == Forbidden && Rejected(w, w')
    else
      r == Done && exists grantId: Id, group: Option<Id> :: RoleSet(w, userId, role, w', grantId, group)
  }

  /** A role name the company does not have changes nothing, and is not an error. */
  ghost predicate RoleSet(w: World, userId: Id, role: string, w': World, grantId: Id, group: Option<Id>)
    requires userId in w.db.users
  {
    && PickedGroup(w.db, w.db.users[userId].companyId, role, group)
    && match group
       case None => Rejected(w, w')
       case Some(g) =>
         Fresh(w, w', grantId) && DatabaseBecomes(w, w', w.db.(grants := UpsertGrant(w.db.grants, grantId, userId, g)))
  }

  datatype UserPatch = UserPatch(ifricId: string, userId: Id, email: string, name: string, image: string)

  datatype UserPatchFaults = UserPatchFaults(passwordRefused: bool, setEmail: AccountCall)

  function UserEmailSet(db: Tables, userId: Id, email: string): Tables
    requires userId in db.users
  {
    db.(users := db.users[userId := db.users[userId].(email := email)])
  }

  function UserProfileSet(db: Tables, userId: Id, name: string, image: string): Tables
    requires userId in db.users
  {
    var u := db.users[userId];
    db.(users := db.users[userId := u.(name := if name != "" then name else u.name, image := if image != "" then image
        else u.image)])
  }

  predicate CompanyEmailClash(companies: map<Id, Company>, companyId: Id, email: string) {
    exists k :: k in companies && k != companyId && companies[k].email == email
  }

  predicate UserEmailClash(users: map<Id, CompanyUser>, userId: Id, email: string) {
    exists u :: u in users && u != userId && users[u].email == email
  }

  /**
   The email branch of updateCompanyUser: Keycloak first, then the company row
   when the user is its contact, then the user row. A unique-column clash stops
   it after the earlier writes.
   */
  function ChangeEmail(w: World, companyId: Id, userId: Id, email: string, call: AccountCall): (World, Outcome)
    requires companyId in w.db.companies && userId in w.db.users
  {
    var oldEmail := w.db.users[userId].email;
    if oldEmail !in w.keycloak then (w, NotFound)
    else if call == HadNoEffect || (email != oldEmail && email in w.keycloak) then (w, Failed)
    else
      var renamed := w.(keycloak := (w.keycloak - {oldEmail})[email := w.keycloak[oldEmail]]);
      if call == TookEffectThenThrew then (renamed, Failed)
      else
        var (db, r) := EmailRows(w.db, companyId, userId, email);
        (renamed.(db := db), r)
  }

  function EmailRows(db: Tables, companyId: Id, userId: Id, email: string): (Tables, Outcome)
    requires companyId in db.companies && userId in db.users
  {
    if IsContact(db, companyId, userId) && CompanyEmailClash(db.companies, companyId, email) then (db, Failed)
    else
      var db1 := ContactUpdated(db, companyId, userId, email);
      if UserEmailClash(db.users, userId, email) then (db1, Failed) else (UserEmailSet(db1, userId, email), Done)
  }

  /** The user whose address is the company's own. */
  predicate IsContact(db: Tables, companyId: Id, userId: Id)
    requires companyId in db.companies && userId in db.users
  {
    db.users[userId].email == db.companies[companyId].email
  }

  function ContactUpdated(db: Tables, companyId: Id, userId: Id, email: string): (r: Tables)
    requires companyId in db.companies && userId in db.users
    ensures r.users == db.users
  {
    if IsContact(db, companyId, userId)
    then db.(companies := db.companies[companyId := db.companies[companyId].(email := email)])
    else db
  }

  ghost predicate UpdateCompanyUser(w: World, c: Claims, p: UserPatch, f: UserPatchFaults, w': World, r: Outcome) {
    var company := FindCompany(w.db, p.ifricId);
    if company.None? then r == NotFound && w' == w
    else if !IsOwnCompany(c, p.ifricId) then r == Forbidden && w' == w
    else if p.userId !in w.db.users || w.db.users[p.userId].companyId != company.value then r == NotFound && w' == w
    else if c.userId != Some(p.userId) && !HasPermission(w.db, c, Update) then r == Forbidden && w' == w
    else if f.passwordRefused then r == BadRequest && w' == w
    else
      var (w1, r1) := if p.email != "" then ChangeEmail(w, company.value, p.userId, p.email, f.setEmail)
          else (w, Done);
      if r1 != Done then r == r1 && w' == w1
      else r == Done && w' == w1.(db := UserProfileSet(w1.db, p.userId, p.name, p.image))
  }

  ghost predicate DeleteCompanyUser(w: World, c: Claims, userId: Id, removal: AccountCall, w': World, r: Outcome) {
    var removed := if userId in w.db.users then w.keycloak - {w.db.users[userId].email} else w.keycloak;
    if userId in w.db.users && !Authorised(w.db, c, OwnerIfric(w.db, w.db.users[userId].companyId), Delete) then
      r == Forbidden && w' == w
    else if userId in w.db.users && removal != TookEffect then
      r == Failed && w' == if removal == HadNoEffect then w else w.(keycloak := removed)
    else
      && r == Done
      && w' == w.(
         keycloak := removed,
         db := w.db.(grants := GrantsWithout(w.db.grants, {userId}), users := w.db.users - {userId}))
  }

  // ----- access groups -----

  ghost predicate CreateAccessGroup(w: World, c: Claims, ifricId: string, name: string, rights: set<Right>, w': World,
      r: Outcome) {
    var company := FindCompany(w.db, ifricId);
    if company.None? then r == NotFound && Rejected(w, w')
    else if !Authorised(w.db, c, ifricId, Create) then r == Forbidden && Rejected(w, w')
    else if !PickedGroup(w.db, company.value, name, None) then r == Conflict && Rejected(w, w')
    else
      r == Done && exists g: Id ::
        Fresh(w, w', g) && DatabaseBecomes(w, w',
            w.db.(groups := w.db.groups[g := AccessGroup(company.value, name, rights)]))
  }

  /** The fields of UpdateAccessGroupDto that are present: a new name, flags set to true, flags set to false. */
  datatype GroupPatch = GroupPatch(name: Option<string>, on: set<Right>, off: set<Right>)

  function GroupPatched(g: AccessGroup, p: GroupPatch): AccessGroup {
    g.(name := if p.name.Some? then p.name.value else g.name, rights := (g.rights + p.on) - p.off)
  }

  ghost predicate UpdateAccessGroup(w: World, c: Claims, id: Id, p: GroupPatch, throws: bool, w': World, r: Outcome) {
    if id !in w.db.groups then r == NotFound && w' == w
    else if !Authorised(w.db, c, OwnerIfric(w.db, w.db.groups[id].companyId), Update) then r == Forbidden && w' == w
    else if throws then r == Failed && w' == w
    else r == Done && w' == w.(db := w.db.(groups := w.db.groups[id := GroupPatched(w.db.groups[id], p)]))
  }

  /** Grants that point at the group are left behind, and give nothing from then on. */
  ghost predicate DeleteAccessGroup(w: World, c: Claims, id: Id, w': World, r: Outcome) {
    if id !in w.db.groups then r == Done && w' == w
    else if !Authorised(w.db, c, OwnerIfric(w.db, w.db.groups[id].companyId), Delete) then r == Forbidden && w' == w
    else r == Done && w' == w.(db := w.db.(groups := w.db.groups - {id}))
  }

  // ----- companies -----

  /** The columns a company update may set; `ifricId` is stripped from the body, so it is not among them. */
  datatype CompanyPatch = CompanyPatch(name: Option<string>, email: Option<string>, profile: Option<Profile>,
      category: string)

  function CompanyPatched(k: Company, p: CompanyPatch): Company {
    Company(
      k.ifricId,
      if p.name.Some? then p.name.value else k.name,
      if p.email.Some? then p.email.value else k.email,
      if p.profile.Some? then p.profile.value else k.profile)
  }

  /** The company's mapping row now names the category; a first one is inserted under `newId`. */
  ghost predicate MappingRepointed(w: World, w': World, companyId: Id, category: Id, newId: Id,
      mappings': map<Id, Mapping>) {
    var db := w.db;
    if exists m :: m in db.mappings && db.mappings[m].companyId == companyId then
      exists m :: m in db.mappings && db.mappings[m].companyId == companyId
          && mappings' == db.mappings[m := Mapping(companyId, category)]
    else
      Fresh(w, w', newId) && mappings' == db.mappings[newId := Mapping(companyId, category)]
  }

  /** The mapping is written before the company row, so a failure of the second write leaves the first in place. */
  ghost predicate UpdateCompany(w: World, c: Claims, ifricId: string, p: CompanyPatch, throws: bool, w': World,
      r: Outcome) {
    var company := FindCompany(w.db, ifricId);
    if company.None? then r == NotFound && Rejected(w, w')
    else if !Authorised(w.db, c, ifricId, Update) then r == Forbidden && Rejected(w, w')
    else if p.category != "" && PickedCategory(w.db, p.category, None) then r == NotFound && Rejected(w, w')
    else
      exists mappings': map<Id, Mapping> ::
        && CategorySet(w, w', company.value, p.category, mappings')
        && (if throws || (p.email.Some? && CompanyEmailClash(w.db.companies, company.value, p.email.value)) then
              r == Failed && DatabaseBecomes(w, w', w.db.(mappings := mappings'))
            else
              r == Done && DatabaseBecomes(w, w', w.db.(
                mappings := mappings',
                companies := w.db.companies[company.value := CompanyPatched(w.db.companies[company.value], p)])))
  }

  ghost predicate CategorySet(w: World, w': World, companyId: Id, name: string, mappings': map<Id, Mapping>) {
    if name == "" then mappings' == w.db.mappings
    else
      exists newId: Id, category: Id ::
        PickedCategory(w.db, name, Some(category)) && MappingRepointed(w, w', companyId, category, newId, mappings')
  }

  ghost predicate DeleteCompany(w: World, c: Claims, ifricId: string, w': World, r: Outcome) {
    var company := FindCompany(w.db, ifricId);
    if company.None? then r == NotFound && w' == w
    else if !Authorised(w.db, c, ifricId, Delete) then r == Forbidden && w' == w
    else r == Done && w' == w.(db := CompanyErased(w.db, company.value))
  }

  // ----- factories -----

  datatype MintReply = Minted(urn: Urn) | MintRefused | MintedThenThrew(urn: Urn)

  datatype FactoryRequest = FactoryRequest(ownerIfricId: string, factoryId: string, factoryKey: string,
      location: string)

  /** `releaseThrows`: the release did not take effect; that it threw, if it did, is swallowed. */
  datatype FactoryFaults = FactoryFaults(countryKnown: bool, mint: MintReply, saveThrows: bool, releaseThrows: bool)

  /** The two tests after the identifier is known, and the compensation when one fails. */
  ghost predicate StoreFactory(w: World, q: FactoryRequest, factoryId: string, minted: bool, f: FactoryFaults,
      w': World, r: Outcome)
    requires minted ==> factoryId != ""
  {
    var icid := if minted then w.icid + {FactoryUrn(factoryId)} else w.icid;
    var released := if minted && !f.releaseThrows then icid - {FactoryUrn(factoryId)} else icid;
    if FindFactory(w.db, factoryId).Some? then
      r == Conflict && Rejected(w.(icid := released), w')
    else if f.saveThrows then
      r == Failed && Rejected(w.(icid := released), w')
    else
      r == Done && exists k: Id ::
        Fresh(w, w', k) && DatabaseBecomes(w.(icid := icid), w',
            w.db.(factories := w.db.factories[k := Factory(factoryId, q.ownerIfricId, q.location)]))
  }

  ghost predicate CreateFactory(w: World, c: Claims, q: FactoryRequest, f: FactoryFaults, w': World, r: Outcome) {
    if FindCompany(w.db, q.ownerIfricId).None? then r == NotFound && Rejected(w, w')
    else if !Authorised(w.db, c, q.ownerIfricId, Create) then r == Forbidden && Rejected(w, w')
    else if q.factoryId != "" then StoreFactory(w, q, q.factoryId, false, f, w', r)
    else if q.factoryKey == "" || !f.countryKnown then r == BadRequest && Rejected(w, w')
    else
      match f.mint
      case MintRefused => r == Failed && Rejected(w, w')
      case MintedThenThrew(urn) => r == Failed && Rejected(w.(icid := w.icid + {FactoryUrn(urn)}), w')
      case Minted(urn) => StoreFactory(w, q, urn, true, f, w', r)
  }

  predicate FactoryInUse(db: Tables, factoryId: string) {
    exists a :: a in db.assets && db.assets[a].factoryId == Some(factoryId)
  }

  ghost predicate DeleteFactory(w: World, c: Claims, factoryId: string, w': World, r: Outcome) {
    var factory := FindFactory(w.db, factoryId);
    if factory.None? then r == NotFound && w' == w
    else if !Authorised(w.db, c, w.db.factories[factory.value].ownerIfricId, Delete) then r == Forbidden && w' == w
    else if FactoryInUse(w.db, factoryId) then r == Conflict && w' == w
    else r == Done && w' == w.(db := w.db.(factories := w.db.factories - {factory.value}))
  }

  // ----- assets -----

  datatype AssetRequest = AssetRequest(urn: string, ifricId: string, ownerIfricId: string, factoryId: string)

  /** A company named in the request resolves, or none is named. */
  ghost predicate PartyResolves(db: Tables, ifricId: string) {
    ifricId == "" || FindCompany(db, ifricId).Some?
  }

  ghost predicate FactoryResolves(db: Tables, factoryId: string) {
    factoryId == "" || FindFactory(db, factoryId).Some?
  }

  ghost function PartyId(db: Tables, ifricId: string): Option<Id> {
    if ifricId == "" then None else FindCompany(db, ifricId)
  }

  predicate AssetKeyTaken(db: Tables, companyId: Id, urn: string) {
    exists a :: a in db.assets && db.assets[a].companyId == companyId && db.assets[a].urn == urn
  }

  ghost predicate CreateAsset(w: World, c: Claims, q: AssetRequest, throws: bool, w': World, r: Outcome) {
    var company := FindCompany(w.db, q.ifricId);
    if q.urn == "" || q.ifricId == "" || company.None? then r == BadRequest && Rejected(w, w')
    else if !Authorised(w.db, c, q.ifricId, Create) then r == Forbidden && Rejected(w, w')
    else if !PartyResolves(w.db, q.ownerIfricId) || !FactoryResolves(w.db, q.factoryId)
        then r == BadRequest && Rejected(w, w')
    else if throws || AssetKeyTaken(w.db, company.value, q.urn) then r == Failed && Rejected(w, w')
    else
      var owner := PartyId(w.db, q.ownerIfricId);
      var factory := if q.factoryId == "" then None else Some(q.factoryId);
      r == Done && exists a: Id ::
        Fresh(w, w', a) && DatabaseBecomes(w, w',
            w.db.(assets := w.db.assets[a := Asset(q.urn, company.value, owner, factory, owner.Some?)]))
  }

  /** The three UPDATE statements of updateAsset, and the case in which none runs. */
  function AssetPatched(a: Asset, owner: Option<Id>, factoryId: string): Asset {
    if owner.Some? && factoryId != "" then a.(owner := owner, factoryId := Some(factoryId), isTwin := true)
    else if owner.Some? then a.(owner := owner, isTwin := true)
    else if factoryId != "" then a.(factoryId := Some(factoryId))
    else a
  }

  ghost predicate UpdateAsset(w: World, c: Claims, urn: string, ownerIfricId: string, factoryId: string, w': World,
      r: Outcome) {
    exists picked: Option<Id> :: PickedAsset(w.db, urn, picked) &&
      if picked.None? then r == NotFound && w' == w
      else if !Authorised(w.db, c, OwnerIfric(w.db, w.db.assets[picked.value].companyId), Update)
          then r == Forbidden && w' == w
      else if !PartyResolves(w.db, ownerIfricId) || !FactoryResolves(w.db, factoryId) then r == BadRequest && w' == w
      else
        r == Done && w' == w.(db := w.db.(assets := w.db.assets[
          picked.value := AssetPatched(w.db.assets[picked.value], PartyId(w.db, ownerIfricId), factoryId)]))
  }

  /** One row decides the permission, but every row with the URN is deleted. */
  ghost predicate DeleteAsset(w: World, c: Claims, urn: string, w': World, r: Outcome) {
    exists picked: Option<Id> :: PickedAsset(w.db, urn, picked) &&
      if picked.None? then r == NotFound && w' == w
      else if !Authorised(w.db, c, OwnerIfric(w.db, w.db.assets[picked.value].companyId), Delete)
          then r == Forbidden && w' == w
      else r == Done && w' == w.(db := w.db.(assets := AssetsWithout(w.db.assets, {urn})))
  }

  /** A listed asset whose company row exists and is not the caller's. */
  predicate ForeignAssetListed(db: Tables, c: Claims, urns: set<string>) {
    exists a :: a in db.assets && db.assets[a].urn in urns && db.assets[a].companyId in db.companies
      && Some(db.companies[db.assets[a].companyId].ifricId) != c.companyIfricId
  }

  ghost predicate DeleteAssets(w: World, c: Claims, urns: set<string>, w': World, r: Outcome) {
    if ForeignAssetListed(w.db, c, urns) || !HasPermission(w.db, c, Delete) then r == Forbidden && w' == w
    else r == Done && w' == w.(db := w.db.(assets := AssetsWithout(w.db.assets, urns)))
  }

  // ----- one request, and runs of them -----

  datatype Request =
    | ReqCreateCompany(d: Registration, course: Course)
    | ReqCreateCompanyUser(q: UserRequest, f: UserFaults)
    | ReqUpdateUserAccessGroup(userId: Id, role: string)
    | ReqUpdateCompanyUser(p: UserPatch, pf: UserPatchFaults)
    | ReqDeleteCompanyUser(userId: Id, removal: AccountCall)
    | ReqCreateAccessGroup(ifricId: string, name: string, rights: set<Right>)
    | ReqUpdateAccessGroup(id: Id, gp: GroupPatch, throws: bool)
    | ReqDeleteAccessGroup(id: Id)
    | ReqUpdateCompany(ifricId: string, cp: CompanyPatch, throws: bool)
    | ReqDeleteCompany(ifricId: string)
    | ReqCreateFactory(fq: FactoryRequest, ff: FactoryFaults)
    | ReqDeleteFactory(factoryId: string)
    | ReqCreateAsset(aq: AssetRequest, throws: bool)
    | ReqUpdateAsset(urn: string, ownerIfricId: string, factoryId: string)
    | ReqDeleteAsset(urn: string)
    | ReqDeleteAssets(urns: set<string>)

  /** A request, the caller's resolved claims, and the answer given. */
  datatype Event = Event(request: Request, caller: Claims, outcome: Outcome)

  ghost predicate Step(w: World, e: Event, w': World) {
    var c, r := e.caller, e.outcome;
    match e.request
    case ReqCreateCompany(d, course) => CreateCompany(w, d, course, w', r == Done)
    case ReqCreateCompanyUser(q, f) => CreateCompanyUser(w, c, q, f, w', r)
    case ReqUpdateUserAccessGroup(u, role) => UpdateUserAccessGroup(w, c, u, role, w', r)
    case ReqUpdateCompanyUser(p, f) => UpdateCompanyUser(w, c, p, f, w', r)
    case ReqDeleteCompanyUser(u, removal) => DeleteCompanyUser(w, c, u, removal, w', r)
    case ReqCreateAccessGroup(i, n, rights) => CreateAccessGroup(w, c, i, n, rights, w', r)
    case ReqUpdateAccessGroup(g, p, throws) => UpdateAccessGroup(w, c, g, p, throws, w', r)
    case ReqDeleteAccessGroup(g) => DeleteAccessGroup(w, c, g, w', r)
    case ReqUpdateCompany(i, p, throws) => UpdateCompany(w, c, i, p, throws, w', r)
    case ReqDeleteCompany(i) => DeleteCompany(w, c, i, w', r)
    case ReqCreateFactory(q, f) => CreateFactory(w, c, q, f, w', r)
    case ReqDeleteFactory(i) => DeleteFactory(w, c, i, w', r)
    case ReqCreateAsset(q, throws) => CreateAsset(w, c, q, throws, w', r)
    case ReqUpdateAsset(u, o, i) => UpdateAsset(w, c, u, o, i, w', r)
    case ReqDeleteAsset(u) => DeleteAsset(w, c, u, w', r)
    case ReqDeleteAssets(us) => DeleteAssets(w, c, us, w', r)
  }

  /** No row but the seeded categories, no account, nothing issued. */
  ghost predicate Initial(w: World) {
    && w.db.companies == map[] && w.db.users == map[] && w.db.groups == map[] && w.db.grants == map[]
    && w.db.mappings == map[] && w.db.factories == map[] && w.db.assets == map[]
    && w.keycloak == map[] && w.issued == w.db.categories.Keys && w.stamped == {}
  }

  /** The worlds a history of requests passes through. */
  ghost predicate IsRun(worlds: seq<World>, events: seq<Event>) {
    && |worlds| == |events| + 1
    && Initial(worlds[0])
    && forall i | 0 <= i < |events| :: Step(worlds[i], events[i], worlds[i + 1])
  }
}
