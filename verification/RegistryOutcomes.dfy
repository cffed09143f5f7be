/**
 What single requests guarantee in any reachable world: exact answers,
 all-or-nothing bulk deletes, and exactly what a failed creation leaves in the
 database, Keycloak and ICID, with a world in which it does.
 */
module RegistryOutcomes {
  import opened Wrappers
  import opened Tables
  import opened AccessControl
  import opened RegistrySpec
  import opened RegistryInvariants
  import opened RegistryGuarantees
  import PublicCompany

  // ----- what every history keeps -----

  /** Every user has at most one role row, and as long as the group exists it is one of the user's own company. */
  lemma OneRoleAtHome(worlds: seq<World>, events: seq<Event>, i: nat, g: Id, h: Id)
    requires IsRun(worlds, events) && i < |worlds|
    requires g in worlds[i].db.grants && h in worlds[i].db.grants
    ensures var db := worlds[i].db; var grant := db.grants[g];
      && (grant.userId == db.grants[h].userId ==> g == h)
      && grant.userId in db.users
      && (grant.groupId in db.groups ==> db.groups[grant.groupId].companyId == db.users[grant.userId].companyId)
  {
    RunKeepsInv(worlds, events, i);
    assert GrantsStayHome(worlds[i].db.users, worlds[i].db.groups, worlds[i].db.grants);
    hide Inv, IsRun;
  }

  /** An asset is a twin exactly when it has an owner, its manufacturer exists, and so does the factory it names. */
  lemma AssetsAreSound(worlds: seq<World>, events: seq<Event>, i: nat, a: Id)
    requires IsRun(worlds, events) && i < |worlds| && a in worlds[i].db.assets
    ensures var db := worlds[i].db; var asset := db.assets[a];
      && (asset.isTwin <==> asset.owner.Some?)
      && asset.companyId in db.companies
      && (asset.factoryId.Some? ==> FindFactory(db, asset.factoryId.value).Some?)
  {
    RunKeepsInv(worlds, events, i);
    var db := worlds[i].db;
    assert CompaniesResolve(db) && TwinsHaveOwners(db.assets);
    assert db.assets[a].factoryId.Some? ==> FactoryExists(db.factories, db.assets[a].factoryId.value);
    hide Inv, IsRun;
  }

  /** `rows` lists the mapping table, in any order. */
  ghost predicate ListsMappings(mappings: map<Id, Mapping>, order: seq<Id>, rows: seq<PublicCompany.MappingRow>) {
    && |order| == |rows|
    && (forall i, j | 0 <= i < j < |order| :: order[i] != order[j])
    && forall i | 0 <= i < |rows| ::
         order[i] in mappings && rows[i] == PublicCompany.MappingRow(mappings[order[i]].companyId,
             mappings[order[i]].categoryId)
  }

  /** So in every reachable world both company listings show the same category, whatever order the rows come in. */
  lemma ListingsAgreeInEveryRun(
    worlds: seq<World>, events: seq<Event>, i: nat, order: seq<Id>, rows: seq<PublicCompany.MappingRow>,
    categories: seq<PublicCompany.CategoryRow>, companyId: Id)
    requires IsRun(worlds, events) && i < |worlds| && ListsMappings(worlds[i].db.mappings, order, rows)
    ensures PublicCompany.ListedCategory(rows, categories, companyId) == PublicCompany.CategoryOf(rows, categories,
        companyId)
  {
    RunKeepsInv(worlds, events, i);
    assert UniqueMappings(worlds[i].db.mappings);
    hide Inv, IsRun;
    PublicCompany.ListingsAgreeOnOneMapping(rows, categories, companyId);
  }

  // ----- getUniqueOwnerCompanies -----

  /** The twins' owner ids, then the companies `In` that list: each existing company once. */
  ghost function UniqueOwners(db: Tables, companyId: Id): set<Id> {
    var ownerIds := set a | a in db.assets && db.assets[a].companyId == companyId && db.assets[a].isTwin ::
        db.assets[a].owner;
    set k | k in db.companies && Some(k) in ownerIds
  }

  /**
   In every reachable world the answer is exactly the existing companies that
   own some asset of the manufacturer, `is_twin` or not.
   */
  lemma UniqueOwnersAreTheOwners(worlds: seq<World>, events: seq<Event>, i: nat, companyId: Id, k: Id)
    requires IsRun(worlds, events) && i < |worlds|
    ensures var db := worlds[i].db;
      k in UniqueOwners(db, companyId) <==>
        k in db.companies && exists a ::
            a in db.assets && db.assets[a].companyId == companyId && db.assets[a].owner == Some(k)
  {
    RunKeepsInv(worlds, events, i);
    assert TwinsHaveOwners(worlds[i].db.assets);
    hide Inv, IsRun;
  }

  // ----- assertCallerIsPartyTo -----

  /**
   `[manufacturer?.company_ifric_id,
   owner?.company_ifric_id].filter(Boolean)`; a reference to a deleted company
   yields nothing.
   */
  function PartyIfricIds(db: Tables, asset: Asset): seq<string> {
    var manufacturer := OwnerIfric(db, asset.companyId);
    var owner := if asset.owner.Some? then OwnerIfric(db, asset.owner.value) else "";
    (if manufacturer != "" then [manufacturer] else []) + (if owner != "" then [owner] else [])
  }

  predicate IsPartyTo(db: Tables, c: Claims, asset: Asset) {
    c.companyIfricId.Some? && c.companyIfricId.value in PartyIfricIds(db, asset)
  }

  /** Let through are exactly the callers of an existing company that made the asset or owns it. */
  lemma PartiesAreMakerAndOwner(db: Tables, c: Claims, asset: Asset)
    ensures IsPartyTo(db, c, asset) <==>
      exists k :: k in db.companies && IsOwnCompany(c, db.companies[k].ifricId)
          && (asset.companyId == k || asset.owner == Some(k))
  {
    if IsPartyTo(db, c, asset) {
      var k := if asset.companyId in db.companies && c.companyIfricId.value == db.companies[asset.companyId].ifricId
          then asset.companyId else asset.owner.value;
      assert k in db.companies && IsOwnCompany(c, db.companies[k].ifricId);
    }
  }

  /**
   An owner that was deleted never comes back: registering the same company
   again does not make it a party to its old assets.
   */
  lemma DeletedOwnerIsNoParty(worlds: seq<World>, events: seq<Event>, i: nat, j: nat, a: Id, owner: Id)
    requires IsRun(worlds, events) && i <= j < |worlds|
    requires a in worlds[i].db.assets && worlds[i].db.assets[a].owner == Some(owner) && owner !in worlds[i].db.companies
    ensures owner !in worlds[j].db.companies
    ensures forall asset: Asset | asset.owner == Some(owner) ::
      PartyIfricIds(worlds[j].db, asset) == PartyIfricIds(worlds[j].db, asset.(owner := None))
  {
    RunKeepsInv(worlds, events, i);
    RunAges(worlds, events, i, j);
    assert owner in worlds[i].issued;
    hide Inv, IsRun;
  }

  // ----- deleteAssets -----

  /** Either nothing happens, or exactly the listed URNs go, and every row that goes is the caller's. */
  lemma DeleteAssetsIsAllOrNothing(w: World, c: Claims, urns: set<string>, w': World, r: Outcome)
    requires Inv(w) && DeleteAssets(w, c, urns, w', r)
    ensures r != Done ==> w' == w
    ensures r == Done ==>
      && (forall a :: a in w'.db.assets <==> a in w.db.assets && w.db.assets[a].urn !in urns)
      && (forall a | a in w'.db.assets :: w'.db.assets[a] == w.db.assets[a])
      && (forall a | a in w.db.assets && a !in w'.db.assets ::
          Some(w.db.companies[w.db.assets[a].companyId].ifricId) == c.companyIfricId)
    ensures r == Forbidden <==>
      || !HasPermission(w.db, c, Delete)
      || exists a :: a in w.db.assets && w.db.assets[a].urn in urns
          && Some(w.db.companies[w.db.assets[a].companyId].ifricId) != c.companyIfricId
  {
    assert CompaniesResolve(w.db);
    hide Inv;
  }

  // ----- deleteAsset -----

  /** Two makers that registered the same URN. */
  function TwoMakers(): World {
    var profile := Profile("", "", "", "", "", None, "");
    World(
      Tables(
        map[1 := Company("ifric:a", "A", "a@x", profile), 2 := Company("ifric:b", "B", "b@x", profile)],
        map[], map[], map[], map[], map[], map[],
        map[3 := Asset("urn:1", 1, None, None, false), 4 := Asset("urn:1", 2, None, None, false)],
        map[], map[], {}),
      map[], {}, {1, 2, 3, 4}, {})
  }

  lemma TwoMakersIsConsistent()
    ensures Inv(TwoMakers())
  {
    assert "ifric:a"[6] == 'a' && "ifric:b"[6] == 'b';
    hide TablesInv;
    assert IdsAreIssued(TwoMakers().db, TwoMakers().issued) && StampsAreTrue(TwoMakers());
    TwoMakersTables();
  }

  lemma TwoMakersTables()
    ensures TablesInv(TwoMakers().db)
  {
    TwoMakersCompanies();
    hide UniqueCompanies, UniqueAssets;
  }

  lemma TwoMakersCompanies()
    ensures UniqueCompanies(TwoMakers().db.companies) && UniqueAssets(TwoMakers().db.assets)
  {
    assert "ifric:a"[6] == 'a' && "ifric:b"[6] == 'b';
  }

  /** The case DeleteAssetBoundary excludes does occur: the first maker's delete takes the second maker's row. */
  lemma DeleteAssetCanCross() returns (c: Claims, w': World)
    ensures Inv(TwoMakers()) && DeleteAsset(TwoMakers(), c, "urn:1", w', Done)
    ensures !LeavesOthersAlone(TwoMakers().db, w'.db, CallerCompany(c))
  {
    TwoMakersIsConsistent();
    hide Inv;
    var w := TwoMakers();
    c := Claims(Some("ifric:a"), None, Some("ifric:a"), true);
    w' := w.(db := w.db.(assets := AssetsWithout(w.db.assets, {"urn:1"})));
    assert PickedAsset(w.db, "urn:1", Some(3));
    assert "ifric:a"[6] == 'a' && "ifric:b"[6] == 'b';
    DeleteAssetBoundary(w, c, "urn:1", w', Done);
    assert w.db.assets[4].urn == "urn:1" && w.db.companies[w.db.assets[4].companyId].ifricId != CallerCompany(c);
  }

  // ----- createFactory against ICID -----

  /** The id this request would have ICID mint, if it gets that far. */
  ghost function FactoryMint(w: World, c: Claims, q: FactoryRequest, f: FactoryFaults): Option<Urn> {
    if FindCompany(w.db, q.ownerIfricId).Some? && Authorised(w.db, c, q.ownerIfricId, Create)
       && q.factoryId == "" && q.factoryKey != "" && f.countryKnown && !f.mint.MintRefused?
    then Some(f.mint.urn) else None
  }

  /**
   A failed createFactory leaves ICID as it found it exactly when nothing was
   minted, or a newly minted id was reported and could be released, or an id
   that ICID already had was minted again and not released. In particular a
   repeated factory key, re-minted and released, takes away an id in use.
   */
  lemma FailedFactoryAndIcid(w: World, c: Claims, q: FactoryRequest, f: FactoryFaults, w': World, r: Outcome)
    requires CreateFactory(w, c, q, f, w', r) && r != Done
    ensures w'.db == w.db && w'.keycloak == w.keycloak
    ensures var mint := FactoryMint(w, c, q, f);
      w'.icid == w.icid <==>
        || mint.None?
        || (FactoryUrn(mint.value) !in w.icid && f.mint.Minted? && !f.releaseThrows)
        || (FactoryUrn(mint.value) in w.icid && (f.mint.MintedThenThrew? || f.releaseThrows))
  {
    var mint := FactoryMint(w, c, q, f);
    if mint.Some? {
      var entry := FactoryUrn(mint.value);
      assert entry in w.icid + {entry} && entry !in (w.icid + {entry}) - {entry};
      if entry !in w.icid {
        assert (w.icid + {entry}) - {entry} == w.icid;
      } else {
        assert w.icid + {entry} == w.icid;
      }
    }
  }

  /** One company and its one factory, whose id ICID minted. */
  function OneFactory(): World {
    var company := Company("ifric:a", "A", "a@x", Profile("", "", "", "", "", None, ""));
    World(
      Tables(
        map[1 := company], map[], map[], map[], map[], map[], map[2 := Factory("urn:f", "ifric:a", "")], map[], map[],
            map[], {}),
      map[], {FactoryUrn("urn:f")}, {1, 2}, {})
  }

  /** A caller from the dataspace, matched to the company. */
  function Participant(): Claims {
    Claims(Some("ifric:a"), None, Some("ifric:a"), true)
  }

  /**
   ICID answers a repeated factory key with the id it issued before: the
   request is a conflict, and the stored factory's id is released.
   */
  lemma StoredFactoryLosesItsId() returns (q: FactoryRequest, f: FactoryFaults, w': World)
    ensures Inv(OneFactory()) && CreateFactory(OneFactory(), Participant(), q, f, w', Conflict)
    ensures FindFactory(w'.db, "urn:f").Some? && FactoryUrn("urn:f") in OneFactory().icid
        && FactoryUrn("urn:f") !in w'.icid
  {
    q := FactoryRequest("ifric:a", "", "key", "");
    f := FactoryFaults(true, Minted("urn:f"), false, false);
    var w := OneFactory();
    w' := w.(icid := {});
    assert w.db.companies[1].ifricId == "ifric:a" && w.db.factories[2].factoryId == "urn:f";
    assert (w.icid + {FactoryUrn("urn:f")}) - {FactoryUrn("urn:f")} == {};
  }

  lemma FoundFactory(db: Tables)
    requires UniqueFactories(db.factories)
    ensures forall k | k in db.factories :: FindFactory(db, db.factories[k].factoryId) == Some(k)
  {
  }

  /** The row a successful request stores, and what it does to ICID. */
  lemma StoredFactoryRow(w: World, c: Claims, q: FactoryRequest, f: FactoryFaults, w': World)
      returns (k: Id, factory: Factory)
    requires CreateFactory(w, c, q, f, w', Done) && w.db.factories.Keys <= w.issued
    ensures k !in w.db.factories && w'.db == w.db.(factories := w.db.factories[k := factory])
    ensures factory.ownerIfricId == q.ownerIfricId && factory.location == q.location
    ensures FindFactory(w.db, factory.factoryId).None?
    ensures q.factoryId != "" ==> factory.factoryId == q.factoryId && w'.icid == w.icid
    ensures q.factoryId == "" ==>
              && f.mint == Minted(f.mint.urn) && factory.factoryId == f.mint.urn
              && w'.icid == w.icid + {FactoryUrn(f.mint.urn)}
  {
    hide FindCompany, FindFactory, Authorised;
    factory := Factory(if q.factoryId != "" then q.factoryId else f.mint.urn, q.ownerIfricId, q.location);
    k :| Fresh(w, w', k) && w'.db == w.db.(factories := w.db.factories[k := factory]);
  }

  /** A successful one stores one row under an id no factory had, with that id registered if it was minted. */
  lemma StoredFactory(w: World, c: Claims, q: FactoryRequest, f: FactoryFaults, w': World)
    requires Inv(w) && CreateFactory(w, c, q, f, w', Done)
    ensures var id := if q.factoryId != "" then q.factoryId else f.mint.urn;
      && FindFactory(w.db, id).None? && FindFactory(w'.db, id).Some?
      && w'.db.factories[FindFactory(w'.db, id).value] == Factory(id, q.ownerIfricId, q.location)
      && (q.factoryId == "" ==> FactoryUrn(f.mint.urn) in w'.icid)
      && (forall k | k in w.db.factories :: k in w'.db.factories && w'.db.factories[k] == w.db.factories[k])
  {
    CreateFactoryKeepsInv(w, c, q, f, w', Done);
    assert w.db.factories.Keys <= w.issued && UniqueFactories(w'.db.factories);
    FoundFactory(w'.db);
    hide Inv, FindFactory, UniqueFactories, CreateFactory;
    var k, factory := StoredFactoryRow(w, c, q, f, w');
    assert w'.db.factories[k] == factory;
  }

  // ----- createCompanyUser -----

  /** The account this request itself creates, if Keycloak lets it. */
  predicate AccountCreated(w: World, q: UserRequest, f: UserFaults) {
    f.identity != Refused && q.email !in w.keycloak
  }

  /**
   No account that existed before is touched. A failure leaves Keycloak as it
   was exactly when no account was created, or its creation was reported and it
   could be removed; it leaves the database as it was exactly when the user row
   was not written.
   */
  lemma FailedUserResidue(w: World, c: Claims, q: UserRequest, f: UserFaults, w': World, r: Outcome)
    requires CreateCompanyUser(w, c, q, f, w', r)
    requires w.db.users.Keys <= w.issued
    ensures forall e | e in w.keycloak :: e in w'.keycloak && w'.keycloak[e] == w.keycloak[e]
    ensures r == Failed ==>
      (w'.keycloak == w.keycloak <==> !AccountCreated(w, q, f) || (f.identity == Created && f.cleanup != HadNoEffect))
    ensures r == Failed ==>
      (w'.db == w.db <==> !AccountCreated(w, q, f) || f.identity == CreatedThenThrew || f.saveUserThrows)
    ensures r != Failed && r != Done ==> w'.db == w.db && w'.keycloak == w.keycloak
  {
    if r == Done || r == Failed {
      var k := FindCompany(w.db, q.ifricId).value;
      var userId: Id, grantId: Id, group: Option<Id> :| UserProvisioned(w, k, q, f, w', r, userId, grantId, group);
      if AccountCreated(w, q, f) {
        var stamped := w.keycloak[q.email := Identity(q.ifricId, userId)];
        assert q.email in stamped && stamped - {q.email} == w.keycloak;
        assert userId !in w.db.users;
      }
    }
  }

  /** One company with the role the new user is to get. */
  function OneRole(): World {
    var company := Company("ifric:a", "A", "a@x", Profile("", "", "", "", "", None, ""));
    World(
      Tables(
        map[1 := company], map[], map[2 := AccessGroup(1, "user", {Read})], map[], map[], map[], map[], map[], map[],
            map[], {}),
      map[], {}, {1, 2}, {})
  }

  lemma OneRoleIsConsistent()
    ensures Inv(OneRole())
  {
  }

  /** Saving the role throws: the request fails and its account is removed again, but the user row stays. */
  lemma FailedUserLeavesItsRow() returns (q: UserRequest, f: UserFaults, w': World, userId: Id)
    ensures Inv(OneRole()) && CreateCompanyUser(OneRole(), Participant(), q, f, w', Failed)
    ensures userId in w'.db.users && w'.db.users[userId].email == q.email && userId !in OneRole().db.users
    ensures w'.keycloak == OneRole().keycloak && q.email !in w'.keycloak
  {
    q, userId := UserRequest("ifric:a", "Ada", "ada@x", "user"), 3;
    f := UserFaults(Created, false, true, TookEffect);
    var w := OneRole();
    OneRoleIsConsistent();
    hide Inv;
    w' := ProvisionUser(w, 1, q, f, 3, 4, Some(2)).0.(issued := {1, 2, 3});
    assert w.db.companies[1].ifricId == "ifric:a" && FindCompany(w.db, "ifric:a") == Some(1);
    assert w.keycloak["ada@x" := Identity("ifric:a", 3)] - {"ada@x"} == map[];
    assert w.db.groups[2].name == "user" && PickedGroup(w.db, 1, "user", Some(2));
    assert w'.db.users[3].email == "ada@x" && w'.keycloak == map[];
    assert (w'.(issued := w.issued), Failed) == ProvisionUser(w, 1, q, f, 3, 4, Some(2));
    hide ProvisionUser;
    assert UserProvisioned(w, 1, q, f, w', Failed, 3, 4, Some(2));
  }

  // ----- updateCompany -----

  lemma CategorySetNames(w: World, w': World, companyId: Id, name: string, mappings': map<Id, Mapping>) returns (m: Id)
    requires name != "" && CategorySet(w, w', companyId, name, mappings')
    ensures m in mappings' && mappings'[m].companyId == companyId
    ensures mappings'[m].categoryId in w.db.categories && w.db.categories[mappings'[m].categoryId] == name
  {
    var newId: Id, category: Id :|
        PickedCategory(w.db, name, Some(category)) && MappingRepointed(w, w', companyId, category, newId, mappings');
    m := newId;
    if exists n :: n in w.db.mappings && w.db.mappings[n].companyId == companyId {
      m :| m in w.db.mappings && w.db.mappings[m].companyId == companyId
          && mappings' == w.db.mappings[m := Mapping(companyId, category)];
    }
  }

  /** After a category change that was answered with success, the company's one mapping names that category. */
  lemma CategoryIsRepointed(w: World, c: Claims, ifricId: string, p: CompanyPatch, w': World, m: Id)
    requires Inv(w) && UpdateCompany(w, c, ifricId, p, false, w', Done) && p.category != ""
    requires m in w'.db.mappings && w'.db.mappings[m].companyId == FindCompany(w.db, ifricId).value
    ensures w'.db.mappings[m].categoryId in w'.db.categories
        && w'.db.categories[w'.db.mappings[m].categoryId] == p.category
  {
    UpdateCompanyKeepsInv(w, c, ifricId, p, false, w', Done);
    assert UniqueMappings(w'.db.mappings);
    hide Inv, CategorySet;
    var k := FindCompany(w.db, ifricId).value;
    var mappings': map<Id, Mapping> :|
        CategorySet(w, w', k, p.category, mappings') && w'.db.mappings == mappings'
        && w'.db.categories == w.db.categories;
    var n := CategorySetNames(w, w', k, p.category, mappings');
  }
}
