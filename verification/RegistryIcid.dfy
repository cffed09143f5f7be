/**
 ICID against the database over whole histories: which requests, and in which
 state, leave a company or a factory behind whose identifier ICID no longer
 knows.
 */
module RegistryIcid {
  import opened Wrappers
  import opened Tables
  import opened AccessControl
  import opened RegistrySpec
  import opened RegistryInvariants
  import opened RegistryOutcomes
  import Saga = Registration

  // ----- requests that have nothing to do with ICID -----

  /** ICID and the factories are as they were, and companies at most went. */
  ghost predicate NamesKept(w: World, w': World) {
    && w'.icid == w.icid && w'.db.factories == w.db.factories
    && forall k | k in w'.db.companies ::
         k in w.db.companies && w'.db.companies[k].ifricId == w.db.companies[k].ifricId
  }

  lemma SameNames(w: World, w': World)
    requires w'.icid == w.icid && w'.db.factories == w.db.factories && w'.db.companies == w.db.companies
    ensures NamesKept(w, w')
  {
  }

  lemma CreateCompanyUserKeepsNames(w: World, c: Claims, q: UserRequest, f: UserFaults, w': World, r: Outcome)
    requires CreateCompanyUser(w, c, q, f, w', r)
    ensures NamesKept(w, w')
  {
    hide FindCompany, Authorised, EmailTaken, NamesKept;
    if r == Done || r == Failed {
      var k := FindCompany(w.db, q.ifricId).value;
      var userId: Id, grantId: Id, group: Option<Id> :| UserProvisioned(w, k, q, f, w', r, userId, grantId, group);
      hide PickedGroup;
    }
    SameNames(w, w');
  }

  lemma EmailRowsKeepNames(db: Tables, companyId: Id, userId: Id, email: string)
    requires companyId in db.companies && userId in db.users
    ensures var db' := EmailRows(db, companyId, userId, email).0;
      && db'.factories == db.factories
      && db'.companies ==
           if IsContact(db, companyId, userId) && !CompanyEmailClash(db.companies, companyId, email)
           then db.companies[companyId := db.companies[companyId].(email := email)] else db.companies
  {
    hide CompanyEmailClash, UserEmailClash;
    var db1 := ContactUpdated(db, companyId, userId, email);
    assert UserEmailSet(db1, userId, email).companies == db1.companies;
    hide UserEmailSet;
  }

  lemma CompanyPatchedKeepsNames(w: World, w': World, companyId: Id, company: Company)
    requires companyId in w.db.companies && company.ifricId == w.db.companies[companyId].ifricId
    requires w'.icid == w.icid && w'.db.factories == w.db.factories
    requires w'.db.companies == w.db.companies[companyId := company]
    ensures NamesKept(w, w')
  {
  }

  lemma ChangeEmailKeepsNames(w: World, companyId: Id, userId: Id, email: string, call: AccountCall)
    requires companyId in w.db.companies && userId in w.db.users
    ensures NamesKept(w, ChangeEmail(w, companyId, userId, email, call).0)
  {
    EmailRowsKeepNames(w.db, companyId, userId, email);
    hide EmailRows, NamesKept;
    var w' := ChangeEmail(w, companyId, userId, email, call).0;
    if !IsContact(w.db, companyId, userId) || CompanyEmailClash(w.db.companies, companyId, email) || w'.db == w.db {
      SameNames(w, w');
    } else {
      CompanyPatchedKeepsNames(w, w', companyId, w.db.companies[companyId].(email := email));
    }
  }

  lemma UpdateCompanyUserKeepsNames(w: World, c: Claims, p: UserPatch, f: UserPatchFaults, w': World, r: Outcome)
    requires UpdateCompanyUser(w, c, p, f, w', r)
    ensures NamesKept(w, w')
  {
    if w' == w {
      SameNames(w, w');
    } else {
      ChangeEmailKeepsNames(w, FindCompany(w.db, p.ifricId).value, p.userId, p.email, f.setEmail);
      hide ChangeEmail, FindCompany, HasPermission;
    }
  }

  lemma UpdateCompanyKeepsNames(w: World, c: Claims, ifricId: string, p: CompanyPatch, throws: bool, w': World,
      r: Outcome)
    requires UpdateCompany(w, c, ifricId, p, throws, w', r)
    ensures NamesKept(w, w')
  {
    hide Authorised, CategorySet, CompanyEmailClash, FindCompany;
  }

  lemma UpdateUserAccessGroupKeepsNames(w: World, c: Claims, userId: Id, role: string, w': World, r: Outcome)
    requires UpdateUserAccessGroup(w, c, userId, role, w', r)
    ensures NamesKept(w, w')
  {
    hide Authorised, UpsertGrant, PickedGroup, NamesKept;
    SameNames(w, w');
  }

  lemma DeleteCompanyUserKeepsNames(w: World, c: Claims, userId: Id, removal: AccountCall, w': World, r: Outcome)
    requires DeleteCompanyUser(w, c, userId, removal, w', r)
    ensures NamesKept(w, w')
  {
    hide Authorised, GrantsWithout, NamesKept;
    SameNames(w, w');
  }

  lemma GroupRequestsKeepNames(w: World, e: Event, w': World)
    requires e.request.ReqCreateAccessGroup? || e.request.ReqUpdateAccessGroup? || e.request.ReqDeleteAccessGroup?
    requires Step(w, e, w')
    ensures NamesKept(w, w')
  {
    hide FindCompany, Authorised, GroupPatched, NamesKept;
    SameNames(w, w');
  }

  lemma AssetRequestsKeepNames(w: World, e: Event, w': World)
    requires e.request.ReqCreateAsset? || e.request.ReqUpdateAsset? || e.request.ReqDeleteAsset?
        || e.request.ReqDeleteAssets?
    requires Step(w, e, w')
    ensures NamesKept(w, w')
  {
    hide FindCompany, FindFactory, Authorised, HasPermission, ForeignAssetListed, AssetKeyTaken, NamesKept;
    SameNames(w, w');
  }

  lemma DeleteCompanyKeepsNames(w: World, c: Claims, ifricId: string, w': World, r: Outcome)
    requires DeleteCompany(w, c, ifricId, w', r)
    ensures NamesKept(w, w')
  {
    hide FindCompany, Authorised, GrantsWithout, UsersOf;
  }

  predicate ChangesNames(e: Event) {
    e.request.ReqCreateCompany? || e.request.ReqCreateFactory? || e.request.ReqDeleteFactory?
  }

  lemma OtherRequestsKeepNames(w: World, e: Event, w': World)
    requires Step(w, e, w') && !ChangesNames(e)
    ensures NamesKept(w, w')
  {
    hide NamesKept, CreateCompanyUser, UpdateUserAccessGroup, UpdateCompanyUser, DeleteCompanyUser, UpdateCompany,
        DeleteCompany;
    match e.request
    case ReqCreateCompanyUser(q, f) => CreateCompanyUserKeepsNames(w, e.caller, q, f, w', e.outcome);
    case ReqUpdateCompanyUser(p, f) => UpdateCompanyUserKeepsNames(w, e.caller, p, f, w', e.outcome);
    case ReqUpdateCompany(id, p, throws) => UpdateCompanyKeepsNames(w, e.caller, id, p, throws, w', e.outcome);
    case ReqDeleteCompany(id) => DeleteCompanyKeepsNames(w, e.caller, id, w', e.outcome);
    case ReqUpdateUserAccessGroup(u, role) => UpdateUserAccessGroupKeepsNames(w, e.caller, u, role, w', e.outcome);
    case ReqDeleteCompanyUser(u, removal) => DeleteCompanyUserKeepsNames(w, e.caller, u, removal, w', e.outcome);
    case ReqCreateAccessGroup(_, _, _) => GroupRequestsKeepNames(w, e, w');
    case ReqUpdateAccessGroup(_, _, _) => GroupRequestsKeepNames(w, e, w');
    case ReqDeleteAccessGroup(_) => GroupRequestsKeepNames(w, e, w');
    case _ => AssetRequestsKeepNames(w, e, w');
  }

  // ----- what createFactory does -----

  /** The minted id is released again; whether the release also threw does not show. */
  ghost predicate ReleasesFactory(w: World, e: Event, x: Urn) {
    && e.request.ReqCreateFactory? && e.outcome != Done
    && FactoryMint(w, e.caller, e.request.fq, e.request.ff) == Some(x)
    && e.request.ff.mint.Minted? && !e.request.ff.releaseThrows
  }

  predicate MintsFactory(e: Event, x: Urn) {
    && e.request.ReqCreateFactory? && e.outcome == Done
    && e.request.fq.factoryId == "" && e.request.ff.mint == Minted(x)
  }

  predicate BringsFactory(e: Event, x: Urn) {
    e.request.ReqCreateFactory? && e.outcome == Done && e.request.fq.factoryId == x
  }

  /** Companies and their ids in ICID are as they were. */
  ghost predicate CompanySideKept(w: World, w': World) {
    && w'.db.companies == w.db.companies
    && forall x: Urn :: CompanyUrn(x) in w'.icid <==> CompanyUrn(x) in w.icid
  }

  lemma FailedFactoryNames(w: World, e: Event, w': World)
    requires e.request.ReqCreateFactory? && e.outcome != Done
    requires CreateFactory(w, e.caller, e.request.fq, e.request.ff, w', e.outcome)
    ensures CompanySideKept(w, w') && w'.db.factories == w.db.factories
    ensures forall x: Urn :: FactoryUrn(x) in w'.icid ==>
              FactoryUrn(x) in w.icid || FactoryMint(w, e.caller, e.request.fq, e.request.ff) == Some(x)
    ensures forall x: Urn | FactoryUrn(x) in w.icid :: FactoryUrn(x) !in w'.icid <==> ReleasesFactory(w, e, x)
  {
    hide FindCompany, FindFactory, Authorised;
  }

  lemma StoredFactoryNames(w: World, e: Event, w': World)
    requires e.request.ReqCreateFactory? && e.outcome == Done
    requires CreateFactory(w, e.caller, e.request.fq, e.request.ff, w', e.outcome) && w.db.factories.Keys <= w.issued
    ensures CompanySideKept(w, w')
    ensures forall x: Urn :: FactoryExists(w'.db.factories, x) <==>
              FactoryExists(w.db.factories, x) || MintsFactory(e, x) || BringsFactory(e, x)
    ensures forall x: Urn :: FactoryUrn(x) in w'.icid <==> FactoryUrn(x) in w.icid || MintsFactory(e, x)
  {
    hide CreateFactory, FactoryExists;
    var k, factory := StoredFactoryRow(w, e.caller, e.request.fq, e.request.ff, w');
    FactoryExistsAfterInsert(w.db.factories, k, factory);
    forall x: Urn
      ensures FactoryExists(w'.db.factories, x) <==>
              FactoryExists(w.db.factories, x) || MintsFactory(e, x) || BringsFactory(e, x)
    {
      assert x == factory.factoryId <==> MintsFactory(e, x) || BringsFactory(e, x);
      assert w'.db.factories == w.db.factories[k := factory];
      assert FactoryExists(w.db.factories[k := factory], x)
          <==> FactoryExists(w.db.factories, x) || x == factory.factoryId;
    }
  }

  lemma FactoryExistsAfterInsert(factories: map<Id, Factory>, k: Id, factory: Factory)
    requires k !in factories
    ensures forall x :: FactoryExists(factories[k := factory], x) <==>
                        FactoryExists(factories, x) || x == factory.factoryId
  {
    var after := factories[k := factory];
    assert after[k] == factory;
    forall x | FactoryExists(factories, x) ensures FactoryExists(after, x) {
      var g :| g in factories && factories[g].factoryId == x;
      assert after[g] == factories[g];
    }
  }

  // ----- companies -----

  /** Every company's IFRIC id is one ICID knows. */
  ghost predicate CompaniesKnown(w: World) {
    forall k | k in w.db.companies :: w.db.companies[k].ifricId != "" && CompanyUrn(w.db.companies[k].ifricId) in w.icid
  }

  /**
   A registration that failed and released the id it was given, although a
   company has it: one that had it before, or its own, whose commit took effect
   behind a lost reply.
   */
  predicate ReleasesCompany(w: World, e: Event) {
    && e.request.ReqCreateCompany?
    && var course := e.request.course;
       course.mint.Some? && course.released && (course.committed || IfricTaken(w.db.companies, course.mint.value))
  }

  lemma RegistrationKeepsCompaniesKnown(w: World, d: Registration, course: Course, w': World, created: bool)
    requires Inv(w) && CreateCompany(w, d, course, w', created) && CompaniesKnown(w)
    ensures CompaniesKnown(w') <==>
      !(course.mint.Some? && course.released && (course.committed || IfricTaken(w.db.companies, course.mint.value)))
  {
    assert w.db.companies.Keys <= w.issued;
    hide Inv, Registrable;
    var ids: NewIds, category: Id, rows: set<string> :| CreateCompanyWith(w, d, course, w', ids, category, rows);
    if course.committed {
      assert w'.db.companies[ids.company].ifricId == course.mint.value;
      assert forall k | k in w.db.companies :: w'.db.companies[k] == w.db.companies[k];
    }
  }

  /** The one request that breaks it, and when. */
  lemma CompaniesKnownAfter(w: World, e: Event, w': World)
    requires Inv(w) && Step(w, e, w') && CompaniesKnown(w)
    ensures CompaniesKnown(w') <==> !ReleasesCompany(w, e)
  {
    hide Inv, CreateCompany, CreateFactory;
    if ChangesNames(e) {
      match e.request
      case ReqCreateCompany(d, course) => RegistrationKeepsCompaniesKnown(w, d, course, w', e.outcome == Done);
      case ReqCreateFactory(q, f) => CreateFactoryKeepsCompanySide(w, e, w');
      case ReqDeleteFactory(id) => DeleteFactoryNames(w, e.caller, id, w', e.outcome);
    } else {
      OtherRequestsKeepNames(w, e, w');
    }
  }

  lemma CreateFactoryKeepsCompanySide(w: World, e: Event, w': World)
    requires Inv(w) && e.request.ReqCreateFactory?
    requires CreateFactory(w, e.caller, e.request.fq, e.request.ff, w', e.outcome)
    ensures CompanySideKept(w, w')
  {
    assert w.db.factories.Keys <= w.issued;
    hide Inv, CreateFactory;
    if e.outcome == Done {
      StoredFactoryNames(w, e, w');
    } else {
      FailedFactoryNames(w, e, w');
    }
  }

  lemma DeleteFactoryNames(w: World, c: Claims, factoryId: string, w': World, r: Outcome)
    requires DeleteFactory(w, c, factoryId, w', r)
    ensures CompanySideKept(w, w') && w'.icid == w.icid
    ensures forall x :: FactoryExists(w'.db.factories, x) ==> FactoryExists(w.db.factories, x)
  {
    hide FindFactory, Authorised, FactoryInUse;
  }

  /**
   Over whole histories: every company stays known exactly as long as no
   registration releases an id a company has.
   */
  lemma CompaniesStayKnownExactly(worlds: seq<World>, events: seq<Event>)
    requires IsRun(worlds, events)
    ensures (forall i | 0 <= i < |worlds| :: CompaniesKnown(worlds[i])) <==>
            (forall i | 0 <= i < |events| :: !ReleasesCompany(worlds[i], events[i]))
  {
    if forall i | 0 <= i < |events| :: !ReleasesCompany(worlds[i], events[i]) {
      forall i | 0 <= i < |worlds| ensures CompaniesKnown(worlds[i]) {
        CompaniesKnownUntil(worlds, events, i);
      }
    }
    if forall i | 0 <= i < |worlds| :: CompaniesKnown(worlds[i]) {
      forall i | 0 <= i < |events| ensures !ReleasesCompany(worlds[i], events[i]) {
        RunKeepsInv(worlds, events, i);
        CompaniesKnownAfter(worlds[i], events[i], worlds[i + 1]);
      }
    }
  }

  lemma {:induction false} CompaniesKnownUntil(worlds: seq<World>, events: seq<Event>, n: nat)
    requires IsRun(worlds, events) && n < |worlds|
    requires forall i | 0 <= i < n :: !ReleasesCompany(worlds[i], events[i])
    ensures CompaniesKnown(worlds[n])
  {
    hide ReleasesCompany;
    if n == 0 {
    } else {
      CompaniesKnownUntil(worlds, events, n - 1);
      RunKeepsInv(worlds, events, n - 1);
      CompaniesKnownAfter(worlds[n - 1], events[n - 1], worlds[n - 1 + 1]);
    }
  }

  /** One company, whose id ICID knows. */
  function OneCompany(): World {
    var company := Company("urn:a", "B", "b@x", Profile("", "", "", "", "", None, ""));
    World(
      Tables(map[1 := company], map[], map[], map[], map[], map[2 := "user"], map[], map[], map[], map[], {}),
      map[], {CompanyUrn("urn:a")}, {1, 2}, {})
  }

  /** No call of the registration throws. */
  function Undisturbed(): Saga.Faults {
    Saga.Throwing({})
  }

  lemma OneCompanyIsConsistent()
    ensures Inv(OneCompany()) && CompaniesKnown(OneCompany())
  {
  }

  lemma SecondMintFails()
    ensures Saga.FailsFirst(OneCompany(), Saga.Somebody(), Undisturbed(), Saga.SaveCompany)
  {
    var w, d := OneCompany(), Saga.Somebody();
    assert "b@x"[0] == 'b' && "a@x"[0] == 'a' && "B"[0] == 'B' && "A"[0] == 'A';
    assert !CompanyEmailTaken(w.db.companies, d.email) && !CompanyNameTaken(w.db.companies, d.name);
    assert w.db.companies[1].ifricId == "urn:a" && IfricTaken(w.db.companies, "urn:a");
    hide CompanyEmailTaken, CompanyNameTaken, IfricTaken;
  }

  /**
   No call throws: ICID mints an id it issued before, saving the new company
   violates the unique column, and the catch block releases the id, which is
   then gone for the company that has it.
   */
  lemma CompanyLosesItsId() returns (w': World)
    ensures var w, d, f := OneCompany(), Saga.Somebody(), Undisturbed();
      && Inv(w) && CompaniesKnown(w)
      && Saga.FailsFirst(w, d, f, Saga.SaveCompany)
      && Saga.Settled(w, w', d, f, Some(Saga.SaveCompany), NewIds(0, 0, 0, 0, 0, 0), 2)
      && w'.db == w.db && !CompaniesKnown(w')
  {
    var w, d, f := OneCompany(), Saga.Somebody(), Undisturbed();
    OneCompanyIsConsistent();
    SecondMintFails();
    assert w.db.companies[1].ifricId == "urn:a";
    hide Saga.FailsFirst, Saga.Settled, Inv;
    Saga.SettledWithoutAccount(w, d, f, Saga.SaveCompany, NewIds(0, 0, 0, 0, 0, 0), 2);
    w' := w.(icid := Saga.IcidAfter(w, f, Saga.SaveCompany));
    assert CompanyUrn("urn:a") !in w'.icid;
  }

  // ----- factories -----

  ghost predicate MintedBefore(events: seq<Event>, n: nat, x: Urn)
    requires n <= |events|
  {
    exists i :: 0 <= i < n && MintsFactory(events[i], x)
  }

  /** Every stored factory with an id ICID minted for a factory is one ICID knows. */
  ghost predicate FactoriesKnown(w: World, events: seq<Event>, n: nat)
    requires n <= |events|
  {
    forall x: Urn | MintedBefore(events, n, x) && FactoryExists(w.db.factories, x) :: FactoryUrn(x) in w.icid
  }

  /**
   The next request releases a minted id that a stored factory has, because
   ICID minted it a second time; or it stores a factory under a minted id that
   was given up before, which the caller brings along.
   */
  ghost predicate BreaksFactory(w: World, events: seq<Event>, n: nat, x: Urn)
    requires n < |events|
  {
    && MintedBefore(events, n, x)
    && ((ReleasesFactory(w, events[n], x) && FactoryExists(w.db.factories, x))
        || (BringsFactory(events[n], x) && FactoryUrn(x) !in w.icid))
  }

  lemma MintedOneMore(events: seq<Event>, n: nat)
    requires n < |events|
    ensures forall x: Urn :: MintedBefore(events, n + 1, x) <==>
                             MintedBefore(events, n, x) || MintsFactory(events[n], x)
  {
  }

  lemma FactoriesKnownAfterFailure(w: World, events: seq<Event>, n: nat, w': World)
    requires n < |events| && events[n].request.ReqCreateFactory? && events[n].outcome != Done
    requires CreateFactory(w, events[n].caller, events[n].request.fq, events[n].request.ff, w', events[n].outcome)
    requires FactoriesKnown(w, events, n)
    ensures FactoriesKnown(w', events, n + 1) <==> forall x: Urn :: !BreaksFactory(w, events, n, x)
  {
    hide CreateFactory, MintedBefore, ReleasesFactory, FactoryExists;
    FailedFactoryNames(w, events[n], w');
    MintedOneMore(events, n);
    if x: Urn :| BreaksFactory(w, events, n, x) {
      assert MintedBefore(events, n + 1, x) && FactoryExists(w'.db.factories, x) && FactoryUrn(x) !in w'.icid;
    } else {
      forall x: Urn | MintedBefore(events, n + 1, x) && FactoryExists(w'.db.factories, x)
          ensures FactoryUrn(x) in w'.icid {
        assert !BreaksFactory(w, events, n, x);
      }
    }
  }

  lemma FactoriesKnownAfterSuccess(w: World, events: seq<Event>, n: nat, w': World)
    requires n < |events| && events[n].request.ReqCreateFactory? && events[n].outcome == Done
    requires CreateFactory(w, events[n].caller, events[n].request.fq, events[n].request.ff, w', events[n].outcome)
    requires FactoriesKnown(w, events, n) && w.db.factories.Keys <= w.issued
    ensures FactoriesKnown(w', events, n + 1) <==> forall x: Urn :: !BreaksFactory(w, events, n, x)
  {
    hide CreateFactory, MintedBefore, FactoryExists;
    StoredFactoryNames(w, events[n], w');
    MintedOneMore(events, n);
    if x: Urn :| BreaksFactory(w, events, n, x) {
      assert MintedBefore(events, n + 1, x) && FactoryExists(w'.db.factories, x) && FactoryUrn(x) !in w'.icid;
    } else {
      forall x: Urn | MintedBefore(events, n + 1, x) && FactoryExists(w'.db.factories, x)
          ensures FactoryUrn(x) in w'.icid {
        assert !BreaksFactory(w, events, n, x);
      }
    }
  }

  lemma FactorySideOfRegistration(w: World, d: Registration, course: Course, w': World, created: bool)
    requires CreateCompany(w, d, course, w', created)
    ensures w'.db.factories == w.db.factories && forall x: Urn :: FactoryUrn(x) in w'.icid <==> FactoryUrn(x) in w.icid
  {
    var ids: NewIds, category: Id, rows: set<string> :| CreateCompanyWith(w, d, course, w', ids, category, rows);
  }

  /** The requests that break it, and when. */
  lemma FactoriesKnownAfter(w: World, events: seq<Event>, n: nat, w': World)
    requires n < |events| && Inv(w) && Step(w, events[n], w') && FactoriesKnown(w, events, n)
    ensures FactoriesKnown(w', events, n + 1) <==> forall x: Urn :: !BreaksFactory(w, events, n, x)
  {
    assert w.db.factories.Keys <= w.issued;
    hide Inv, CreateCompany, CreateFactory, MintedBefore;
    var e := events[n];
    if e.request.ReqCreateFactory? {
      if e.outcome == Done {
        FactoriesKnownAfterSuccess(w, events, n, w');
      } else {
        FactoriesKnownAfterFailure(w, events, n, w');
      }
    } else {
      MintedOneMore(events, n);
      FactorySideElsewhere(w, e, w');
    }
  }

  lemma FactorySideElsewhere(w: World, e: Event, w': World)
    requires Step(w, e, w') && !e.request.ReqCreateFactory?
    ensures forall x: Urn :: FactoryExists(w'.db.factories, x) ==> FactoryExists(w.db.factories, x)
    ensures forall x: Urn :: FactoryUrn(x) in w'.icid <==> FactoryUrn(x) in w.icid
  {
    hide CreateCompany, FactoryExists;
    if ChangesNames(e) {
      match e.request
      case ReqCreateCompany(d, course) => FactorySideOfRegistration(w, d, course, w', e.outcome == Done);
      case ReqDeleteFactory(id) => DeleteFactoryNames(w, e.caller, id, w', e.outcome);
    } else {
      OtherRequestsKeepNames(w, e, w');
    }
  }

  /**
   Over whole histories: every stored minted factory stays known exactly as
   long as no request is of those two kinds.
   */
  lemma FactoriesStayKnownExactly(worlds: seq<World>, events: seq<Event>)
    requires IsRun(worlds, events)
    ensures (forall n | 0 <= n < |worlds| :: FactoriesKnown(worlds[n], events, n)) <==>
            (forall n, x: Urn | 0 <= n < |events| :: !BreaksFactory(worlds[n], events, n, x))
  {
    if forall n, x: Urn | 0 <= n < |events| :: !BreaksFactory(worlds[n], events, n, x) {
      forall n | 0 <= n < |worlds| ensures FactoriesKnown(worlds[n], events, n) {
        FactoriesKnownUntil(worlds, events, n);
      }
    }
    if forall n | 0 <= n < |worlds| :: FactoriesKnown(worlds[n], events, n) {
      forall n | 0 <= n < |events| ensures forall x: Urn :: !BreaksFactory(worlds[n], events, n, x) {
        RunKeepsInv(worlds, events, n);
        assert FactoriesKnown(worlds[n + 1], events, n + 1);
        FactoriesKnownAfter(worlds[n], events, n, worlds[n + 1]);
      }
    }
  }

  lemma {:induction false} FactoriesKnownUntil(worlds: seq<World>, events: seq<Event>, n: nat)
    requires IsRun(worlds, events) && n < |worlds|
    requires forall i, x: Urn | 0 <= i < n :: !BreaksFactory(worlds[i], events, i, x)
    ensures FactoriesKnown(worlds[n], events, n)
  {
    hide BreaksFactory;
    if n == 0 {
    } else {
      FactoriesKnownUntil(worlds, events, n - 1);
      RunKeepsInv(worlds, events, n - 1);
      FactoriesKnownAfter(worlds[n - 1], events, n - 1, worlds[n - 1 + 1]);
    }
  }

  // ----- what a successful registration is good for -----

  /**
   The company is in the database and in ICID, and the new admin's account
   carries attributes that get every right in it.
   */
  lemma RegistrationIsUsable(w: World, d: Registration, course: Course, w': World)
    requires Inv(w) && CreateCompany(w, d, course, w', true)
    ensures FindCompany(w'.db, course.mint.value).Some? && CompanyUrn(course.mint.value) in w'.icid
    ensures d.email in w'.keycloak && w'.keycloak[d.email].ifricId == course.mint.value
    ensures forall right :: HasRightAt(w'.db, w'.keycloak[d.email].userId, course.mint.value, right)
  {
    var ids: NewIds, category: Id, rows: set<string> :| CreateCompanyWith(w, d, course, w', ids, category, rows);
    var db := w'.db;
    assert db.companies[ids.company].ifricId == course.mint.value && db.users[ids.user].companyId == ids.company;
    assert db.grants[ids.grant] == Grant(ids.user, ids.admin) && db.groups[ids.admin].rights == ALL_RIGHTS;
    hide Inv, Registrable;
    forall right ensures HasRightAt(db, ids.user, course.mint.value, right) {
      match right { case Create => case Read => case Update => case Delete => }
      assert right in ALL_RIGHTS && GrantGives(db, ids.grant, ids.user, right);
    }
  }

  /** A token with these attributes gets through. */
  ghost predicate HasRightAt(db: Tables, userId: Id, ifricId: string, right: Right) {
    var token := Claims(Some(ifricId), Some(userId), None, false);
    Authorised(db, ResolveClaims(db, token), ifricId, right)
  }
}
