/**
 The rows the service stores, one datatype per entity, and the world they live
 in: the database, the Keycloak realm and the ICID registry.

 A table maps `_id` to the rest of the row. An empty string stands for any
 absent or empty request field, which the service treats alike (JavaScript
 falsiness).
 */
module Tables {
  import opened Wrappers

  /** A 24-hex-character `_id`; only equality and freshness matter. */
  type Id = nat

  /** A URN minted by ICID. */
  type Urn = s: string | s != "" witness "urn"

  /** The columns of `companies` that no operation branches on. */
  datatype Profile = Profile(
    address1: string,
    zip: string,
    city: string,
    country: string,
    industry: string,
    image: Option<string>,
    privateColumns: string)

  datatype Company = Company(ifricId: string, name: string, email: string, profile: Profile)

  datatype CompanyUser = CompanyUser(companyId: Id, email: string, name: string, image: string)

  datatype Right = Create | Read | Update | Delete

  const ALL_RIGHTS := {Create, Read, Update, Delete}

  datatype AccessGroup = AccessGroup(companyId: Id, name: string, rights: set<Right>)

  /** A row of `user_access_groups`. */
  datatype Grant = Grant(userId: Id, groupId: Id)

  datatype Mapping = Mapping(companyId: Id, categoryId: Id)

  datatype Factory = Factory(factoryId: string, ownerIfricId: string, location: string)

  datatype Asset = Asset(urn: string, companyId: Id, owner: Option<Id>, factoryId: Option<string>, isTwin: bool)

  /** A gateway or a server. */
  datatype Device = Device(companyId: Id, urn: string)

  datatype Tables = Tables(
    companies: map<Id, Company>,
    users: map<Id, CompanyUser>,
    groups: map<Id, AccessGroup>,
    grants: map<Id, Grant>,
    mappings: map<Id, Mapping>,
    categories: map<Id, string>,
    factories: map<Id, Factory>,
    assets: map<Id, Asset>,
    gateways: map<Id, Device>,
    servers: map<Id, Device>,
    hookRows: set<string>)

  /** The attributes stamped on a Keycloak account, and projected into its tokens. */
  datatype Identity = Identity(ifricId: string, userId: Id)

  datatype IcidEntry = CompanyUrn(urn: Urn) | FactoryUrn(urn: Urn)

  /**
   `issued` holds every id `generateId` ever returned and `stamped` every pair of
   attributes ever put on an account; both are history, kept for reasoning.
   */
  datatype World = World(
    db: Tables,
    keycloak: map<string, Identity>,
    icid: set<IcidEntry>,
    issued: set<Id>,
    stamped: set<Identity>)

  /** How a request ended: the classes of HTTP answer the service gives. */
  datatype Outcome = Done | NotFound | Forbidden | Conflict | BadRequest | Failed

  // ----- lookups -----

  ghost function FindCompany(db: Tables, ifricId: string): (r: Option<Id>)
    ensures r.Some? ==> r.value in db.companies && db.companies[r.value].ifricId == ifricId
    ensures r.None? ==> forall k | k in db.companies :: db.companies[k].ifricId != ifricId
  {
    if k :| k in db.companies && db.companies[k].ifricId == ifricId then Some(k) else None
  }

  ghost function FindFactory(db: Tables, factoryId: string): (r: Option<Id>)
    ensures r.Some? ==> r.value in db.factories && db.factories[r.value].factoryId == factoryId
    ensures r.None? ==> forall k | k in db.factories :: db.factories[k].factoryId != factoryId
  {
    if k :| k in db.factories && db.factories[k].factoryId == factoryId then Some(k) else None
  }

  /** The company id a row's `company_id` leads to, or '' when the company is gone. */
  function OwnerIfric(db: Tables, companyId: Id): string {
    if companyId in db.companies then db.companies[companyId].ifricId else ""
  }

  predicate EmailTaken(users: map<Id, CompanyUser>, email: string) {
    exists u :: u in users && users[u].email == email
  }

  predicate CompanyEmailTaken(companies: map<Id, Company>, email: string) {
    exists k :: k in companies && companies[k].email == email
  }

  predicate CompanyNameTaken(companies: map<Id, Company>, name: string) {
    exists k :: k in companies && companies[k].name == name
  }

  predicate IfricTaken(companies: map<Id, Company>, ifricId: string) {
    exists k :: k in companies && companies[k].ifricId == ifricId
  }

  /** A row that `find({ company_id, group_name })` may list first, or `None` when it lists nothing. */
  predicate PickedGroup(db: Tables, companyId: Id, name: string, group: Option<Id>) {
    match group
    case Some(g) => g in db.groups && db.groups[g].companyId == companyId && db.groups[g].name == name
    case None => forall g | g in db.groups :: !(db.groups[g].companyId == companyId && db.groups[g].name == name)
  }

  ghost function AnyGroup(db: Tables, companyId: Id, name: string): (group: Option<Id>)
    ensures PickedGroup(db, companyId, name, group)
  {
    if g :| g in db.groups && db.groups[g].companyId == companyId && db.groups[g].name == name then Some(g) else None
  }

  /** A row that `findOne({ asset_ifric_id })` may return; several companies may use the same URN. */
  predicate PickedAsset(db: Tables, urn: string, asset: Option<Id>) {
    match asset
    case Some(a) => a in db.assets && db.assets[a].urn == urn
    case None => forall a | a in db.assets :: db.assets[a].urn != urn
  }

  predicate PickedCategory(db: Tables, name: string, category: Option<Id>) {
    match category
    case Some(c) => c in db.categories && db.categories[c] == name
    case None => forall c | c in db.categories :: db.categories[c] != name
  }
}
