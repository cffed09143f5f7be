/**
 When each request about assets gives which answer, and what it does, column by
 column, in terms of rows alone.
 */
module AssetLaws {
  import opened Wrappers
  import opened Tables
  import opened AccessControl
  import opened AccessLaws
  import opened RegistrySpec
  import opened RegistryInvariants

  ghost predicate IsCompany(db: Tables, k: Id, ifricId: string) {
    k in db.companies && db.companies[k].ifricId == ifricId
  }

  /** Whatever the request names, exists. */
  ghost predicate NamesExist(db: Tables, ownerIfricId: string, factoryId: string) {
    && (ownerIfricId == "" || exists k: Id :: IsCompany(db, k, ownerIfricId))
    && (factoryId == "" || exists f :: f in db.factories && db.factories[f].factoryId == factoryId)
  }

  lemma NamesExistExactly(db: Tables, ownerIfricId: string, factoryId: string)
    ensures PartyResolves(db, ownerIfricId) && FactoryResolves(db, factoryId)
        <==> NamesExist(db, ownerIfricId, factoryId)
  {
    CompanyFoundExactly(db, ownerIfricId);
    hide IsCompany;
  }

  lemma CompanyFoundExactly(db: Tables, ifricId: string)
    ensures FindCompany(db, ifricId).Some? <==> exists k: Id :: IsCompany(db, k, ifricId)
  {
    if FindCompany(db, ifricId).Some? {
      assert IsCompany(db, FindCompany(db, ifricId).value, ifricId);
    }
  }

  /** The owner column a request asks for: the company it names, or nothing. */
  ghost predicate AsksForOwner(db: Tables, ownerIfricId: string, owner: Option<Id>) {
    if ownerIfricId == "" then owner == None else owner.Some? && IsCompany(db, owner.value, ownerIfricId)
  }

  // ----- createAsset -----

  lemma CreateAssetAnswers(w: World, c: Claims, q: AssetRequest, throws: bool, w': World, r: Outcome)
    requires CreateAsset(w, c, q, throws, w', r) && UniqueCompanies(w.db.companies)
    ensures r == BadRequest <==>
      || q.urn == "" || q.ifricId == "" || (forall k: Id :: !IsCompany(w.db, k, q.ifricId))
      || (MayAct(w.db, c, q.ifricId, Create) && !NamesExist(w.db, q.ownerIfricId, q.factoryId))
    ensures r == Forbidden <==>
      q.urn != "" && q.ifricId != "" && (exists k: Id :: IsCompany(w.db, k, q.ifricId))
          && !MayAct(w.db, c, q.ifricId, Create)
    ensures forall k: Id | IsCompany(w.db, k, q.ifricId) && r != BadRequest && r != Forbidden ::
              && (r == Failed <==>
                    throws || exists a ::
                        a in w.db.assets && w.db.assets[a].companyId == k && w.db.assets[a].urn == q.urn)
              && (r == Failed || r == Done)
    ensures r != Done ==> w'.db == w.db
  {
    AuthorisedExactly(w.db, c, q.ifricId, Create);
    NamesExistExactly(w.db, q.ownerIfricId, q.factoryId);
    CompanyFoundExactly(w.db, q.ifricId);
    assert forall k: Id | IsCompany(w.db, k, q.ifricId) :: FindCompany(w.db, q.ifricId) == Some(k);
    hide Authorised, MayAct, NamesExist, PartyResolves, FactoryResolves, FindCompany, PartyId, IsCompany;
  }

  lemma CreateAssetWrites(w: World, c: Claims, q: AssetRequest, w': World) returns (a: Id)
    requires CreateAsset(w, c, q, false, w', Done)
    ensures a !in w.issued && a in w'.db.assets && w'.db == w.db.(assets := w.db.assets[a := w'.db.assets[a]])
    ensures w'.keycloak == w.keycloak && w'.icid == w.icid
    ensures w'.db.assets[a].urn == q.urn && IsCompany(w.db, w'.db.assets[a].companyId, q.ifricId)
    ensures AsksForOwner(w.db, q.ownerIfricId, w'.db.assets[a].owner)
    ensures w'.db.assets[a].factoryId == if q.factoryId == "" then None else Some(q.factoryId)
    ensures w'.db.assets[a].isTwin <==> q.ownerIfricId != ""
  {
    hide Authorised, FactoryResolves, AssetKeyTaken;
    var company := FindCompany(w.db, q.ifricId).value;
    var owner := PartyId(w.db, q.ownerIfricId);
    var asset := Asset(q.urn, company, owner, if q.factoryId == "" then None else Some(q.factoryId), owner.Some?);
    a :| Fresh(w, w', a) && DatabaseBecomes(w, w', w.db.(assets := w.db.assets[a := asset]));
  }

  // ----- updateAsset -----

  /** What the request makes of one row. */
  ghost predicate Updated(db: Tables, before: Asset, after: Asset, ownerIfricId: string, factoryId: string) {
    && after.urn == before.urn && after.companyId == before.companyId
    && (ownerIfricId == "" ==> after.owner == before.owner && after.isTwin == before.isTwin)
    && (ownerIfricId != "" ==> after.owner.Some? && IsCompany(db, after.owner.value, ownerIfricId) && after.isTwin)
    && after.factoryId == if factoryId == "" then before.factoryId else Some(factoryId)
  }

  /**
   Success writes one row with the URN, for a caller who may: the owner and the
   factory where they are named and the old ones where they are not, and the
   twin flag with the owner. No other row changes.
   */
  lemma UpdateAssetWrites(w: World, c: Claims, urn: string, ownerIfricId: string, factoryId: string, w': World)
      returns (a: Id)
    requires UpdateAsset(w, c, urn, ownerIfricId, factoryId, w', Done)
    ensures a in w.db.assets && w.db.assets[a].urn == urn && MayActFor(w.db, c, w.db.assets[a].companyId, Update)
    ensures a in w'.db.assets && w' == w.(db := w.db.(assets := w.db.assets[a := w'.db.assets[a]]))
    ensures Updated(w.db, w.db.assets[a], w'.db.assets[a], ownerIfricId, factoryId)
    ensures NamesExist(w.db, ownerIfricId, factoryId)
  {
    NamesExistExactly(w.db, ownerIfricId, factoryId);
    hide FactoryResolves, NamesExist;
    var picked: Option<Id> :| PickedAsset(w.db, urn, picked)
        && picked.Some? && Authorised(w.db, c, OwnerIfric(w.db, w.db.assets[picked.value].companyId), Update)
        && PartyResolves(w.db, ownerIfricId) && FactoryResolves(w.db, factoryId)
        && w' == w.(db := w.db.(assets := w.db.assets[
             picked.value := AssetPatched(w.db.assets[picked.value], PartyId(w.db, ownerIfricId), factoryId)]));
    a := picked.value;
    AuthorisedForExactly(w.db, c, w.db.assets[a].companyId, Update);
    hide Authorised, MayActFor;
  }

  /** With one row for the URN, exactly when each answer is given. */
  lemma UpdateAssetAnswers(w: World, c: Claims, urn: string, ownerIfricId: string, factoryId: string, w': World,
      r: Outcome)
    requires UpdateAsset(w, c, urn, ownerIfricId, factoryId, w', r)
    ensures r == NotFound <==> forall a | a in w.db.assets :: w.db.assets[a].urn != urn
    ensures forall a | a in w.db.assets && w.db.assets[a].urn == urn && OnlyRow(w.db, urn) ::
              && (r == Forbidden <==> !MayActFor(w.db, c, w.db.assets[a].companyId, Update))
              && (r == BadRequest <==>
                    MayActFor(w.db, c, w.db.assets[a].companyId, Update) && !NamesExist(w.db, ownerIfricId, factoryId))
              && (r == Forbidden || r == BadRequest || r == Done)
    ensures r != Done ==> w' == w
  {
    NamesExistExactly(w.db, ownerIfricId, factoryId);
    hide FactoryResolves, PartyResolves, NamesExist, Authorised, OwnerIfric, AssetPatched, PartyId;
    forall a | a in w.db.assets
      ensures Authorised(w.db, c, OwnerIfric(w.db, w.db.assets[a].companyId), Update)
              <==> MayActFor(w.db, c, w.db.assets[a].companyId, Update)
    {
      AuthorisedForExactly(w.db, c, w.db.assets[a].companyId, Update);
    }
    hide MayActFor;
  }

  ghost predicate OnlyRow(db: Tables, urn: string) {
    forall a, b | a in db.assets && b in db.assets && db.assets[a].urn == db.assets[b].urn == urn :: a == b
  }

  // ----- deleteAsset and deleteAssets -----

  /** Exactly these URNs go, and nothing else. */
  ghost predicate OnlyTheseGo(w: World, w': World, urns: set<string>) {
    && w' == w.(db := w.db.(assets := w'.db.assets))
    && (forall a :: a in w'.db.assets <==> a in w.db.assets && w.db.assets[a].urn !in urns)
    && forall a | a in w'.db.assets :: w'.db.assets[a] == w.db.assets[a]
  }

  lemma DeleteAssetOnRows(w: World, c: Claims, urn: string, w': World, r: Outcome)
    requires DeleteAsset(w, c, urn, w', r)
    ensures r == NotFound <==> forall a | a in w.db.assets :: w.db.assets[a].urn != urn
    ensures r == Done ==> exists a ::
        a in w.db.assets && w.db.assets[a].urn == urn && MayActFor(w.db, c, w.db.assets[a].companyId, Delete)
    ensures r == Forbidden ==> exists a ::
        a in w.db.assets && w.db.assets[a].urn == urn && !MayActFor(w.db, c, w.db.assets[a].companyId, Delete)
    ensures r == NotFound || r == Forbidden || r == Done
    ensures if r == Done then OnlyTheseGo(w, w', {urn}) else w' == w
  {
    hide Authorised, OwnerIfric;
    forall a | a in w.db.assets
      ensures Authorised(w.db, c, OwnerIfric(w.db, w.db.assets[a].companyId), Delete)
              <==> MayActFor(w.db, c, w.db.assets[a].companyId, Delete)
    {
      AuthorisedForExactly(w.db, c, w.db.assets[a].companyId, Delete);
    }
    hide MayActFor;
  }

  lemma DeleteAssetsOnRows(w: World, c: Claims, urns: set<string>, w': World, r: Outcome)
    requires DeleteAssets(w, c, urns, w', r)
    ensures r == Done <==>
      && Holds(w.db, c, Delete)
      && forall a | a in w.db.assets && w.db.assets[a].urn in urns && w.db.assets[a].companyId in w.db.companies ::
           c.companyIfricId == Some(w.db.companies[w.db.assets[a].companyId].ifricId)
    ensures r == Done || r == Forbidden
    ensures if r == Done then OnlyTheseGo(w, w', urns) else w' == w
  {
    PermissionExactly(w.db, c, Delete);
    hide HasPermission, Holds;
  }
}
