/** Models the writes of backend/src/endpoints/company/asset.service.ts, one statement after the other. */
module AssetService {
  import opened Wrappers
  import opened Tables
  import opened AccessControl
  import Spec = RegistrySpec
  import opened RegistryInvariants
  import opened Registry

  method CreateAsset(store: Store, c: Claims, q: Spec.AssetRequest, saveThrows: bool) returns (r: Outcome)
    requires store.Valid()
    modifies store
    ensures store.Valid()
    ensures Spec.CreateAsset(old(store.Snapshot()), c, q, saveThrows, store.Snapshot(), r)
  {
    hide Inv, HasPermission;
    ghost var w := store.Snapshot();
    if q.urn == "" || q.ifricId == "" { return BadRequest; }
    var company := store.CompanyByIfric(q.ifricId);
    if company.None? { return BadRequest; }
    if !Authorised(store.db, c, q.ifricId, Create) { return Forbidden; }
    var ownerCompanyId: Option<Id> := None;
    if q.ownerIfricId != "" {
      ownerCompanyId := store.CompanyByIfric(q.ownerIfricId);
      if ownerCompanyId.None? { return BadRequest; }
    }
    if q.factoryId != "" {
      var factory := store.FactoryById(q.factoryId);
      if factory.None? { return BadRequest; }
    }
    if saveThrows || Spec.AssetKeyTaken(store.db, company.value, q.urn) { return Failed; }
    var id := store.GenerateId();
    var asset := Asset(q.urn, company.value, ownerCompanyId, if q.factoryId != "" then Some(q.factoryId)
        else None, ownerCompanyId.Some?);
    store.db := store.db.(assets := store.db.assets[id := asset]);
    r := Done;
    assert Spec.Fresh(w, store.Snapshot(), id);
    CreateAssetKeepsInv(w, c, q, saveThrows, store.Snapshot(), r);
  }

  method UpdateAsset(store: Store, c: Claims, urn: string, ownerIfricId: string, factoryId: string) returns (r: Outcome)
    requires store.Valid()
    modifies store
    ensures store.Valid()
    ensures Spec.UpdateAsset(old(store.Snapshot()), c, urn, ownerIfricId, factoryId, store.Snapshot(), r)
  {
    hide Inv, HasPermission;
    ghost var w := store.Snapshot();
    var asset := store.AssetByUrn(urn);
    if asset.None? { return NotFound; }
    var id := asset.value;
    var row := store.db.assets[id];
    if !Authorised(store.db, c, OwnerIfric(store.db, row.companyId), Update) { return Forbidden; }
    var ownerCompanyId: Option<Id> := None;
    if ownerIfricId != "" {
      ownerCompanyId := store.CompanyByIfric(ownerIfricId);
      if ownerCompanyId.None? { return BadRequest; }
    }
    if factoryId != "" {
      var factory := store.FactoryById(factoryId);
      if factory.None? { return BadRequest; }
    }
    if ownerCompanyId.Some? && factoryId != "" {
      store.db := store.db.(assets := store.db.assets[id := row.(owner := ownerCompanyId, factoryId := Some(factoryId),
          isTwin := true)]);
    } else if ownerCompanyId.Some? {
      store.db := store.db.(assets := store.db.assets[id := row.(owner := ownerCompanyId, isTwin := true)]);
    } else if factoryId != "" {
      store.db := store.db.(assets := store.db.assets[id := row.(factoryId := Some(factoryId))]);
    } else {
      assert store.db.assets == store.db.assets[id := row];
    }
    r := Done;
    assert ownerCompanyId == Spec.PartyId(w.db, ownerIfricId);
    UpdateAssetKeepsInv(w, c, urn, ownerIfricId, factoryId, store.Snapshot(), r);
  }

  method DeleteAsset(store: Store, c: Claims, urn: string) returns (r: Outcome)
    requires store.Valid()
    modifies store
    ensures store.Valid()
    ensures Spec.DeleteAsset(old(store.Snapshot()), c, urn, store.Snapshot(), r)
  {
    hide Inv, HasPermission;
    ghost var w := store.Snapshot();
    var asset := store.AssetByUrn(urn);
    if asset.None? { return NotFound; }
    if !Authorised(store.db, c, OwnerIfric(store.db, store.db.assets[asset.value].companyId),
        Delete) { return Forbidden; }
    store.db := store.db.(assets := Spec.AssetsWithout(store.db.assets, {urn}));
    r := Done;
    DeletingAssetsKeepsInv(w, Spec.Event(Spec.ReqDeleteAsset(urn), c, r), store.Snapshot());
  }

  method DeleteAssets(store: Store, c: Claims, urns: set<string>) returns (r: Outcome)
    requires store.Valid()
    modifies store
    ensures store.Valid()
    ensures Spec.DeleteAssets(old(store.Snapshot()), c, urns, store.Snapshot(), r)
  {
    hide Inv, HasPermission;
    ghost var w := store.Snapshot();
    var companyIds := set a | a in store.db.assets && store.db.assets[a].urn in urns :: store.db.assets[a].companyId;
    var companies := set k | k in store.db.companies && k in companyIds;
    if exists k :: k in companies && Some(store.db.companies[k].ifricId) != c.companyIfricId { return Forbidden; }
    assert !Spec.ForeignAssetListed(store.db, c, urns);
    if !HasPermission(store.db, c, Delete) { return Forbidden; }
    store.db := store.db.(assets := Spec.AssetsWithout(store.db.assets, urns));
    r := Done;
    DeletingAssetsKeepsInv(w, Spec.Event(Spec.ReqDeleteAssets(urns), c, r), store.Snapshot());
  }
}
