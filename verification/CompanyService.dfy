/**
 Models the writes of backend/src/endpoints/company/company.service.ts other
 than the registration itself, one statement after the other.
 */
module CompanyService {
  import opened Wrappers
  import opened Tables
  import opened AccessControl
  import Spec = RegistrySpec
  import opened RegistryInvariants
  import opened Registry

  method CreateAccessGroup(store: Store, c: Claims, ifricId: string, name: string, rights: set<Right>)
      returns (r: Outcome)
    requires store.Valid()
    modifies store
    ensures store.Valid()
    ensures Spec.CreateAccessGroup(old(store.Snapshot()), c, ifricId, name, rights, store.Snapshot(), r)
  {
    hide Inv, HasPermission;
    ghost var w := store.Snapshot();
    var company := store.CompanyByIfric(ifricId);
    if company.None? { return NotFound; }
    if !Authorised(store.db, c, ifricId, Create) { return Forbidden; }
    var existing := store.GroupByName(company.value, name);
    if existing.Some? { return Conflict; }
    var id := store.GenerateId();
    store.db := store.db.(groups := store.db.groups[id := AccessGroup(company.value, name, rights)]);
    r := Done;
    assert Spec.Fresh(w, store.Snapshot(), id);
    CreateAccessGroupKeepsInv(w, c, ifricId, name, rights, store.Snapshot(), r);
  }

  method UpdateAccessGroup(store: Store, c: Claims, id: Id, p: Spec.GroupPatch, updateThrows: bool) returns (r: Outcome)
    requires store.Valid()
    modifies store
    ensures store.Valid()
    ensures Spec.UpdateAccessGroup(old(store.Snapshot()), c, id, p, updateThrows, store.Snapshot(), r)
  {
    hide Inv, HasPermission;
    ghost var w := store.Snapshot();
    if id !in store.db.groups { return NotFound; }
    if !Authorised(store.db, c, OwnerIfric(store.db, store.db.groups[id].companyId), Update) { return Forbidden; }
    if updateThrows { return Failed; }
    store.db := store.db.(groups := store.db.groups[id := Spec.GroupPatched(store.db.groups[id], p)]);
    r := Done;
    UpdateAccessGroupKeepsInv(w, c, id, p, updateThrows, store.Snapshot(), r);
  }

  method DeleteAccessGroup(store: Store, c: Claims, id: Id) returns (r: Outcome)
    requires store.Valid()
    modifies store
    ensures store.Valid()
    ensures Spec.DeleteAccessGroup(old(store.Snapshot()), c, id, store.Snapshot(), r)
  {
    hide Inv, HasPermission;
    ghost var w := store.Snapshot();
    if id !in store.db.groups { return Done; }
    if !Authorised(store.db, c, OwnerIfric(store.db, store.db.groups[id].companyId), Delete) { return Forbidden; }
    store.db := store.db.(groups := store.db.groups - {id});
    r := Done;
    DeleteAccessGroupKeepsInv(w, c, id, store.Snapshot(), r);
  }

  method UpdateCompany(store: Store, c: Claims, ifricId: string, p: Spec.CompanyPatch, updateThrows: bool)
      returns (r: Outcome)
    requires store.Valid()
    modifies store
    ensures store.Valid()
    ensures Spec.UpdateCompany(old(store.Snapshot()), c, ifricId, p, updateThrows, store.Snapshot(), r)
  {
    hide Inv, HasPermission;
    ghost var w := store.Snapshot();
    var company := store.CompanyByIfric(ifricId);
    if company.None? { return NotFound; }
    if !Authorised(store.db, c, ifricId, Update) { return Forbidden; }
    ghost var newId, categoryId := 0, 0;
    if p.category != "" {
      var category := store.CategoryByName(p.category);
      if category.None? { return NotFound; }
      newId := RepointMapping(store, company.value, category.value);
      categoryId := category.value;
    }
    if updateThrows || (p.email.Some? && Spec.CompanyEmailClash(store.db.companies, company.value, p.email.value)) {
      r := Failed;
    } else {
      var patched := Spec.CompanyPatched(store.db.companies[company.value], p);
      store.db := store.db.(companies := store.db.companies[company.value := patched]);
      r := Done;
    }
    if p.category != "" {
      assert PickedCategory(w.db, p.category, Some(categoryId));
      assert Spec.MappingRepointed(w, store.Snapshot(), company.value, categoryId, newId, store.db.mappings);
    }
    assert Spec.CategorySet(w, store.Snapshot(), company.value, p.category, store.db.mappings);
    UpdateCompanyKeepsInv(w, c, ifricId, p, updateThrows, store.Snapshot(), r);
  }

  /** update({ _id }) on the mapping row that findOne returns, or a first row. */
  method RepointMapping(store: Store, companyId: Id, category: Id) returns (ghost newId: Id)
    requires store.Counting()
    modifies store`db, store`nextId, store`issued
    ensures store.Counting()
    ensures Spec.MappingRepointed(old(store.Snapshot()), store.Snapshot(), companyId, category, newId,
        store.db.mappings)
    ensures store.db == old(store.db).(mappings := store.db.mappings) && old(store.issued) <= store.issued
  {
    newId := 0;
    if existing :| existing in store.db.mappings && store.db.mappings[existing].companyId == companyId {
      store.db := store.db.(mappings := store.db.mappings[existing := Mapping(companyId, category)]);
    } else {
      var id := store.GenerateId();
      newId := id;
      store.db := store.db.(mappings := store.db.mappings[id := Mapping(companyId, category)]);
    }
  }

  method DeleteCompany(store: Store, c: Claims, ifricId: string) returns (r: Outcome)
    requires store.Valid()
    modifies store
    ensures store.Valid()
    ensures Spec.DeleteCompany(old(store.Snapshot()), c, ifricId, store.Snapshot(), r)
  {
    hide Inv, HasPermission;
    ghost var w := store.Snapshot();
    var company := store.CompanyByIfric(ifricId);
    if company.None? { return NotFound; }
    if !Authorised(store.db, c, ifricId, Delete) { return Forbidden; }
    var companyId := company.value;
    // The users are listed before their rows go: their roles are found through them.
    var companyUser := Spec.UsersOf(store.db, companyId);
    DeleteRowsOfCompany(store, companyId);
    DeleteGrantsOf(store, companyUser);
    store.db := store.db.(companies := store.db.companies - {companyId});
    r := Done;
    DeleteCompanyKeepsInv(w, c, ifricId, store.Snapshot(), r);
  }

  /** The six deletes by company_id. */
  method DeleteRowsOfCompany(store: Store, companyId: Id)
    modifies store`db
    ensures store.db == Spec.CompanyErased(old(store.db), companyId).(companies := old(store.db).companies,
        grants := old(store.db).grants)
  {
    store.db := store.db.(users := map u | u in store.db.users && store.db.users[u].companyId != companyId ::
        store.db.users[u]);
    store.db := store.db.(groups := map g | g in store.db.groups && store.db.groups[g].companyId != companyId ::
        store.db.groups[g]);
    store.db := store.db.(mappings := map m | m in store.db.mappings && store.db.mappings[m].companyId != companyId ::
        store.db.mappings[m]);
    store.db := store.db.(assets := map a | a in store.db.assets && store.db.assets[a].companyId != companyId ::
        store.db.assets[a]);
    store.db := store.db.(gateways := map d | d in store.db.gateways && store.db.gateways[d].companyId != companyId ::
        store.db.gateways[d]);
    store.db := store.db.(servers := map d | d in store.db.servers && store.db.servers[d].companyId != companyId ::
        store.db.servers[d]);
  }

  /** One delete by user_id for each listed user. */
  method DeleteGrantsOf(store: Store, users: set<Id>)
    modifies store`db
    ensures store.db == old(store.db).(grants := Spec.GrantsWithout(old(store.db).grants, users))
  {
    var todo := users;
    ghost var done: set<Id> := {};
    ghost var before := store.db;
    assert Spec.GrantsWithout(before.grants, {}) == before.grants;
    while todo != {}
      invariant done + todo == users
      invariant store.db == before.(grants := Spec.GrantsWithout(before.grants, done))
      decreases todo
    {
      var user :| user in todo;
      store.db := store.db.(grants := Spec.GrantsWithout(store.db.grants, {user}));
      assert Spec.GrantsWithout(Spec.GrantsWithout(before.grants, done), {user}) == Spec.GrantsWithout(before.grants,
          done + {user});
      todo, done := todo - {user}, done + {user};
    }
    assert done == users;
  }

  method CreateFactory(store: Store, c: Claims, q: Spec.FactoryRequest, f: Spec.FactoryFaults) returns (r: Outcome)
    requires store.Valid()
    modifies store
    ensures store.Valid()
    ensures Spec.CreateFactory(old(store.Snapshot()), c, q, f, store.Snapshot(), r)
  {
    hide Inv, HasPermission;
    ghost var w := store.Snapshot();
    r := TryCreateFactory(store, c, q, f);
    CreateFactoryKeepsInv(w, c, q, f, store.Snapshot(), r);
  }

  method TryCreateFactory(store: Store, c: Claims, q: Spec.FactoryRequest, f: Spec.FactoryFaults) returns (r: Outcome)
    requires store.Valid()
    modifies store
    ensures store.Counting()
    ensures Spec.CreateFactory(old(store.Snapshot()), c, q, f, store.Snapshot(), r)
  {
    hide Inv, HasPermission;
    var tempIcidFactoryId: Option<Urn> := None;
    var ownerCompany := store.CompanyByIfric(q.ownerIfricId);
    if ownerCompany.None? { return NotFound; }
    if !Authorised(store.db, c, q.ownerIfricId, Create) { return Forbidden; }
    var factoryId := q.factoryId;
    if factoryId == "" {
      if q.factoryKey == "" || !f.countryKnown { return BadRequest; }
      match f.mint {
        case MintRefused => return Failed;
        case MintedThenThrew(urn) => store.icid := store.icid + {FactoryUrn(urn)}; return Failed;
        case Minted(urn) =>
          store.icid := store.icid + {FactoryUrn(urn)};
          factoryId := urn;
          tempIcidFactoryId := Some(urn);
      }
    }
    var existing := FactoryRow(store, factoryId);
    if existing {
      r := Conflict;
    } else if f.saveThrows {
      r := Failed;
    } else {
      var id := store.GenerateId();
      store.db := store.db.(factories := store.db.factories[id := Factory(factoryId, q.ownerIfricId, q.location)]);
      assert Spec.Fresh(old(store.Snapshot()), store.Snapshot(), id);
      return Done;
    }
    if tempIcidFactoryId.Some? && !f.releaseThrows {
      store.icid := store.icid - {FactoryUrn(tempIcidFactoryId.value)};
    }
  }

  method FactoryRow(store: Store, factoryId: string) returns (found: bool)
    ensures found <==> FindFactory(store.db, factoryId).Some?
  {
    found := exists f :: f in store.db.factories && store.db.factories[f].factoryId == factoryId;
  }

  method DeleteFactory(store: Store, c: Claims, factoryId: string) returns (r: Outcome)
    requires store.Valid()
    modifies store
    ensures store.Valid()
    ensures Spec.DeleteFactory(old(store.Snapshot()), c, factoryId, store.Snapshot(), r)
  {
    hide Inv, HasPermission;
    ghost var w := store.Snapshot();
    var factory := store.FactoryById(factoryId);
    if factory.None? { return NotFound; }
    if !Authorised(store.db, c, store.db.factories[factory.value].ownerIfricId, Delete) { return Forbidden; }
    if Spec.FactoryInUse(store.db, factoryId) { return Conflict; }
    store.db := store.db.(factories := store.db.factories - {factory.value});
    r := Done;
    DeleteFactoryKeepsInv(w, c, factoryId, store.Snapshot(), r);
  }
}
