/**
 When each request about companies, access groups and factories gives which
 answer, and what it does, column by column, in terms of rows alone.
 */
module CompanyLaws {
  import opened Wrappers
  import opened Tables
  import opened AccessControl
  import opened AccessLaws
  import opened RegistrySpec
  import opened RegistryInvariants

  // ----- createCompany -----

  /** One table gains one row. */
  ghost predicate Gains<T(!new)>(before: map<Id, T>, after: map<Id, T>, id: Id, row: T) {
    id !in before && after == before[id := row]
  }

  /**
   A registration whose commit took effect adds a company, its category, a
   role for reading only and one with every right, and a user who has the
   latter; nothing else changes but what the hook wrote.
   */
  lemma CreateCompanyWrites(w: World, d: Registration, course: Course, w': World, created: bool)
      returns (k: Id, m: Id, reader: Id, admin: Id, u: Id, g: Id)
    requires Inv(w) && CreateCompany(w, d, course, w', created) && course.committed
    ensures course.mint.Some?
        && Gains(w.db.companies, w'.db.companies, k, Company(course.mint.value, d.name, d.email, d.profile))
    ensures m in w'.db.mappings && Gains(w.db.mappings, w'.db.mappings, m, Mapping(k, w'.db.mappings[m].categoryId))
    ensures w'.db.mappings[m].categoryId in w.db.categories
        && w.db.categories[w'.db.mappings[m].categoryId] == d.category
    ensures reader != admin && reader !in w.db.groups && admin !in w.db.groups
    ensures w'.db.groups == w.db.groups
              [reader := AccessGroup(k, "read_only", {Read})]
              [admin := AccessGroup(k, "admin", {Create, Read, Update, Delete})]
    ensures Gains(w.db.users, w'.db.users, u, CompanyUser(k, d.email, d.adminName, ""))
    ensures Gains(w.db.grants, w'.db.grants, g, Grant(u, admin))
    ensures w'.db.categories == w.db.categories && w'.db.factories == w.db.factories && w'.db.assets == w.db.assets
    ensures w'.db.gateways == w.db.gateways && w'.db.servers == w.db.servers && w.db.hookRows <= w'.db.hookRows
    ensures forall l | l in w.db.companies ::
              w.db.companies[l].email != d.email && w.db.companies[l].name != d.name
              && w.db.companies[l].ifricId != course.mint.value
    ensures forall v | v in w.db.users :: w.db.users[v].email != d.email
  {
    assert IdsAreIssued(w.db, w.issued);
    hide TablesInv, StampsAreTrue;
    var ids: NewIds, category: Id, hookRows: set<string> :|
        CreateCompanyWith(w, d, course, w', ids, category, hookRows);
    k, m, reader, admin, u, g := ids.company, ids.mapping, ids.readOnly, ids.admin, ids.user, ids.grant;
  }

  /**
   A registration whose commit did not take effect changes no row; one that
   succeeded also leaves its admin an account.
   */
  lemma CreateCompanyOutside(w: World, d: Registration, course: Course, w': World, created: bool)
    requires CreateCompany(w, d, course, w', created)
    ensures !course.committed ==> w'.db == w.db
    ensures created ==> course.committed && course.mint.Some? && w'.icid == w.icid + {CompanyUrn(course.mint.value)}
    ensures created ==>
              && d.email !in w.keycloak && d.email in w'.keycloak && w'.keycloak[d.email].ifricId == course.mint.value
              && w'.keycloak == w.keycloak[d.email := w'.keycloak[d.email]]
              && w'.keycloak[d.email].userId !in w.issued
  {
    var ids: NewIds, category: Id, hookRows: set<string> :|
        CreateCompanyWith(w, d, course, w', ids, category, hookRows);
    hide Registered, Registrable, FreshIds;
  }

  // ----- access groups -----

  lemma CreateAccessGroupAnswers(w: World, c: Claims, ifricId: string, name: string, rights: set<Right>, w': World,
      r: Outcome)
    requires CreateAccessGroup(w, c, ifricId, name, rights, w', r) && UniqueCompanies(w.db.companies)
    ensures r == NotFound <==> forall k | k in w.db.companies :: w.db.companies[k].ifricId != ifricId
    ensures forall k | k in w.db.companies && w.db.companies[k].ifricId == ifricId ::
              && (r == Forbidden <==> !MayAct(w.db, c, ifricId, Create))
              && (r == Conflict <==>
                    && MayAct(w.db, c, ifricId, Create)
                    && exists g :: g in w.db.groups && w.db.groups[g].companyId == k && w.db.groups[g].name == name)
              && (r == Forbidden || r == Conflict || r == Done)
              && (r == Done ==> exists g: Id ::
                    g !in w.issued && w'.db == w.db.(groups := w.db.groups[g := AccessGroup(k, name, rights)]))
    ensures r != Done ==> w'.db == w.db
    ensures w'.keycloak == w.keycloak && w'.icid == w.icid
  {
    AuthorisedExactly(w.db, c, ifricId, Create);
    assert forall k | k in w.db.companies && w.db.companies[k].ifricId == ifricId ::
        FindCompany(w.db, ifricId) == Some(k);
    hide FindCompany, Authorised, MayAct;
  }

  lemma UpdateAccessGroupOnRows(w: World, c: Claims, id: Id, p: GroupPatch, throws: bool, w': World, r: Outcome)
    requires UpdateAccessGroup(w, c, id, p, throws, w', r)
    ensures r == NotFound <==> id !in w.db.groups
    ensures r == Done <==> id in w.db.groups && MayActFor(w.db, c, w.db.groups[id].companyId, Update) && !throws
    ensures r == Failed <==> id in w.db.groups && MayActFor(w.db, c, w.db.groups[id].companyId, Update) && throws
    ensures r == NotFound || r == Done || r == Failed || r == Forbidden
    ensures r != Done ==> w' == w
    ensures r == Done ==>
              && w' == w.(db := w.db.(groups := w'.db.groups))
              && id in w'.db.groups && w'.db.groups == w.db.groups[id := w'.db.groups[id]]
              && w'.db.groups[id].companyId == w.db.groups[id].companyId
              && w'.db.groups[id].name == (match p.name case None => w.db.groups[id].name case Some(name) => name)
              && forall right :: right in w'.db.groups[id].rights <==>
                   right !in p.off && (right in p.on || right in w.db.groups[id].rights)
  {
    if id in w.db.groups {
      AuthorisedForExactly(w.db, c, w.db.groups[id].companyId, Update);
    }
    hide Authorised, MayActFor;
  }

  lemma DeleteAccessGroupOnRows(w: World, c: Claims, id: Id, w': World, r: Outcome)
    requires DeleteAccessGroup(w, c, id, w', r)
    ensures r == Forbidden <==> id in w.db.groups && !MayActFor(w.db, c, w.db.groups[id].companyId, Delete)
    ensures r == Forbidden || r == Done
    ensures r == Forbidden ==> w' == w
    ensures r == Done ==>
              && w' == w.(db := w.db.(groups := w'.db.groups))
              && (forall g :: g in w'.db.groups <==> g in w.db.groups && g != id)
              && forall g | g in w'.db.groups :: w'.db.groups[g] == w.db.groups[g]
  {
    if id in w.db.groups {
      AuthorisedForExactly(w.db, c, w.db.groups[id].companyId, Delete);
    }
    hide Authorised, MayActFor;
  }

  // ----- updateCompany -----

  ghost predicate CategoryKnown(db: Tables, name: string) {
    exists m :: m in db.categories && db.categories[m] == name
  }

  lemma UpdateCompanyAnswers(w: World, c: Claims, ifricId: string, p: CompanyPatch, throws: bool, w': World,
      r: Outcome)
    requires UpdateCompany(w, c, ifricId, p, throws, w', r) && UniqueCompanies(w.db.companies)
    ensures r == Forbidden <==>
      !MayAct(w.db, c, ifricId, Update) && exists k :: k in w.db.companies && w.db.companies[k].ifricId == ifricId
    ensures r == NotFound <==>
      || (forall k | k in w.db.companies :: w.db.companies[k].ifricId != ifricId)
      || (MayAct(w.db, c, ifricId, Update) && p.category != "" && !CategoryKnown(w.db, p.category))
    ensures forall k | k in w.db.companies && w.db.companies[k].ifricId == ifricId && (r == Done || r == Failed) ::
              r == Failed <==>
              throws || (p.email.Some? && exists l ::
                  l in w.db.companies && l != k && w.db.companies[l].email == p.email.value)
    ensures r == Forbidden || r == NotFound || r == Done || r == Failed
    ensures r != Done && r != Failed ==> w'.db == w.db
  {
    AuthorisedExactly(w.db, c, ifricId, Update);
    assert forall k | k in w.db.companies && w.db.companies[k].ifricId == ifricId ::
        FindCompany(w.db, ifricId) == Some(k);
    hide FindCompany, Authorised, MayAct, CategorySet, CompanyPatched;
  }

  /** The columns given are written and the others kept, the IFRIC id always; no other company row changes. */
  lemma UpdateCompanyWrites(w: World, c: Claims, ifricId: string, p: CompanyPatch, throws: bool, w': World, k: Id)
    requires UpdateCompany(w, c, ifricId, p, throws, w', Done) && UniqueCompanies(w.db.companies)
    requires k in w.db.companies && w.db.companies[k].ifricId == ifricId
    ensures w'.db == w.db.(companies := w'.db.companies, mappings := w'.db.mappings)
    ensures w'.db.companies == w.db.companies[k := Company(
              w.db.companies[k].ifricId,
              match p.name case None => w.db.companies[k].name case Some(name) => name,
              match p.email case None => w.db.companies[k].email case Some(email) => email,
              match p.profile case None => w.db.companies[k].profile case Some(profile) => profile)]
    ensures p.category == "" ==> w'.db.mappings == w.db.mappings
    ensures w'.keycloak == w.keycloak && w'.icid == w.icid
  {
    assert FindCompany(w.db, ifricId) == Some(k);
    hide FindCompany, Authorised, CompanyEmailClash;
  }

  /** A failure of the second write leaves the company rows, and the category as the first write set it. */
  lemma UpdateCompanyLeaves(w: World, c: Claims, ifricId: string, p: CompanyPatch, throws: bool, w': World, r: Outcome)
    requires UpdateCompany(w, c, ifricId, p, throws, w', r) && r != Done
    ensures w'.db == w.db.(mappings := w'.db.mappings) && (p.category == "" ==> w'.db.mappings == w.db.mappings)
    ensures w'.keycloak == w.keycloak && w'.icid == w.icid
  {
    hide Authorised, CompanyEmailClash, FindCompany;
  }

  /**
   A category change, whether or not the second write works: the company's
   mapping names it, every other mapping is kept.
   */
  lemma CategoryWrites(w: World, c: Claims, ifricId: string, p: CompanyPatch, throws: bool, w': World, r: Outcome,
      k: Id)
      returns (m: Id)
    requires UpdateCompany(w, c, ifricId, p, throws, w', r) && (r == Done || r == Failed) && p.category != ""
    requires k in w.db.companies && w.db.companies[k].ifricId == ifricId && UniqueCompanies(w.db.companies)
    requires w.db.mappings.Keys <= w.issued
    ensures m in w'.db.mappings && w'.db.mappings == w.db.mappings[m := w'.db.mappings[m]]
    ensures w'.db.mappings[m].companyId == k
    ensures w'.db.mappings[m].categoryId in w.db.categories
        && w.db.categories[w'.db.mappings[m].categoryId] == p.category
    ensures if m in w.db.mappings then w.db.mappings[m].companyId == k
            else m !in w.issued && forall n | n in w.db.mappings :: w.db.mappings[n].companyId != k
  {
    assert FindCompany(w.db, ifricId) == Some(k);
    hide FindCompany, Authorised, CompanyEmailClash, CompanyPatched;
    var mappings': map<Id, Mapping> :| CategorySet(w, w', k, p.category, mappings') && w'.db.mappings == mappings';
    hide UpdateCompany;
    var newId: Id, category: Id :|
      PickedCategory(w.db, p.category, Some(category)) && MappingRepointed(w, w', k, category, newId, mappings');
    m := newId;
    if exists n :: n in w.db.mappings && w.db.mappings[n].companyId == k {
      m :| m in w.db.mappings && w.db.mappings[m].companyId == k
           && mappings' == w.db.mappings[m := Mapping(k, category)];
    }
  }

  // ----- deleteCompany -----

  lemma DeleteCompanyAnswers(w: World, c: Claims, ifricId: string, w': World, r: Outcome)
    requires DeleteCompany(w, c, ifricId, w', r)
    ensures r == NotFound <==> forall k | k in w.db.companies :: w.db.companies[k].ifricId != ifricId
    ensures r == Forbidden <==>
      !MayAct(w.db, c, ifricId, Delete) && exists k :: k in w.db.companies && w.db.companies[k].ifricId == ifricId
    ensures r == NotFound || r == Forbidden || r == Done
    ensures r != Done ==> w' == w
  {
    AuthorisedExactly(w.db, c, ifricId, Delete);
    hide Authorised, MayAct, CompanyErased;
  }

  // ----- factories -----

  ghost predicate FactoryKnown(db: Tables, factoryId: string) {
    exists f :: f in db.factories && db.factories[f].factoryId == factoryId
  }

  lemma CreateFactoryAnswers(w: World, c: Claims, q: FactoryRequest, f: FactoryFaults, w': World, r: Outcome)
    requires CreateFactory(w, c, q, f, w', r)
    ensures r == NotFound <==> forall k | k in w.db.companies :: w.db.companies[k].ifricId != q.ownerIfricId
    ensures r == Forbidden <==>
      && (exists k :: k in w.db.companies && w.db.companies[k].ifricId == q.ownerIfricId)
      && !MayAct(w.db, c, q.ownerIfricId, Create)
    ensures r == NotFound || r == Forbidden || (
              && (r == BadRequest <==> q.factoryId == "" && (q.factoryKey == "" || !f.countryKnown))
              && (r == Conflict <==>
                    if q.factoryId != "" then FactoryKnown(w.db, q.factoryId)
                    else q.factoryKey != "" && f.countryKnown && f.mint.Minted? && FactoryKnown(w.db, f.mint.urn))
              && (r == Done <==>
                    && !f.saveThrows
                    && if q.factoryId != "" then !FactoryKnown(w.db, q.factoryId)
                       else q.factoryKey != "" && f.countryKnown && f.mint.Minted? && !FactoryKnown(w.db, f.mint.urn)))
    ensures r != Done ==> w'.db == w.db
    ensures w'.keycloak == w.keycloak
  {
    AuthorisedExactly(w.db, c, q.ownerIfricId, Create);
    assert forall x: string :: FindFactory(w.db, x).Some? <==> FactoryKnown(w.db, x);
    hide Authorised, MayAct, FindFactory, FactoryKnown;
  }

  /** A success stores one row, under the id brought along or the one minted, which ICID then knows. */
  lemma CreateFactoryWrites(w: World, c: Claims, q: FactoryRequest, f: FactoryFaults, w': World) returns (k: Id)
    requires CreateFactory(w, c, q, f, w', Done)
    ensures q.factoryId == "" ==> f.mint.Minted?
    ensures k !in w.issued && w'.db == w.db.(factories := w'.db.factories)
    ensures w'.db.factories == w.db.factories[
              k := Factory(if q.factoryId != "" then q.factoryId else f.mint.urn, q.ownerIfricId, q.location)]
    ensures w'.icid == if q.factoryId != "" then w.icid else w.icid + {FactoryUrn(f.mint.urn)}
  {
    hide Authorised, FindCompany, FindFactory;
    var factoryId := if q.factoryId != "" then q.factoryId else f.mint.urn;
    k :| Fresh(w, w', k) && w'.db.factories == w.db.factories[k := Factory(factoryId, q.ownerIfricId, q.location)];
  }

  /** Whatever else it answers, a mint leaves its id at ICID only if the release failed or was not tried. */
  lemma CreateFactoryLeaves(w: World, c: Claims, q: FactoryRequest, f: FactoryFaults, w': World, r: Outcome)
    requires CreateFactory(w, c, q, f, w', r) && r != Done
    ensures w'.icid ==
      if (r != Conflict && r != Failed) || q.factoryId != "" || f.mint.MintRefused? then w.icid
      else if f.mint.MintedThenThrew? || f.releaseThrows then w.icid + {FactoryUrn(f.mint.urn)}
      else w.icid - {FactoryUrn(f.mint.urn)}
  {
    hide Authorised, FindCompany, FindFactory;
  }

  lemma DeleteFactoryOnRows(w: World, c: Claims, factoryId: string, w': World, r: Outcome)
    requires DeleteFactory(w, c, factoryId, w', r) && UniqueFactories(w.db.factories)
    ensures r == NotFound <==> !FactoryKnown(w.db, factoryId)
    ensures forall f | f in w.db.factories && w.db.factories[f].factoryId == factoryId ::
              && (r == Forbidden <==> !MayAct(w.db, c, w.db.factories[f].ownerIfricId, Delete))
              && (r == Conflict <==>
                    && MayAct(w.db, c, w.db.factories[f].ownerIfricId, Delete)
                    && exists a :: a in w.db.assets && w.db.assets[a].factoryId == Some(factoryId))
              && (r == Forbidden || r == Conflict || r == Done)
    ensures r != Done ==> w' == w
    ensures r == Done ==>
              && w' == w.(db := w.db.(factories := w'.db.factories))
              && (forall f :: f in w'.db.factories <==> f in w.db.factories && w.db.factories[f].factoryId != factoryId)
              && forall f | f in w'.db.factories :: w'.db.factories[f] == w.db.factories[f]
  {
    if FactoryKnown(w.db, factoryId) {
      var f := FindFactory(w.db, factoryId).value;
      AuthorisedExactly(w.db, c, w.db.factories[f].ownerIfricId, Delete);
    }
    hide Authorised, MayAct, FindFactory;
  }
}
