/**
 Models createCompany of backend/src/endpoints/company/company.service.ts: one
 database transaction interleaved with an ICID mint, a Keycloak account and a
 hook that can veto, and the compensations of its catch block. Any subset of
 the calls may fail.
 */
module Registration {
  import opened Wrappers
  import opened Tables
  import Spec = RegistrySpec
  import opened RegistryInvariants
  import opened Registry

  /** The calls and tests of the try block in order, then the calls of the catch block. */
  datatype Step =
    | FindByEmail | FindByName | EmailFree | NameFree | CountryKnown | MintId
    | StartTransaction | SaveCompany | FindCategory | SaveMapping | SaveGroups | FindUser
    | CreateAccount | SaveUser | FindAdminGroup | SaveGrant | RunHook | Commit
    | Rollback | UndoHook | DeleteAccount | ReleaseId

  function Rank(s: Step): nat {
    match s
    case FindByEmail => 0 case FindByName => 1 case EmailFree => 2 case NameFree => 3
    case CountryKnown => 4 case MintId => 5 case StartTransaction => 6 case SaveCompany => 7
    case FindCategory => 8 case SaveMapping => 9 case SaveGroups => 10 case FindUser => 11
    case CreateAccount => 12 case SaveUser => 13 case FindAdminGroup => 14 case SaveGrant => 15
    case RunHook => 16 case Commit => 17
    case Rollback => 18 case UndoHook => 19 case DeleteAccount => 20 case ReleaseId => 21
  }

  predicate InTry(s: Step) {
    Rank(s) <= Rank(Commit)
  }

  /**
   What the environment does during one call. `throws` lists the calls that
   throw, `lost` those among them that took effect although they threw (for the
   commit and the two compensating deletes; the mint and the account say so in
   their reply). `hookRows` is what the hook wrote through the transaction's
   manager. `startLeavesActive` tells whether the query runner counts a
   transaction as active whose start threw.
   */
  datatype Faults = Faults(
    throws: set<Step>,
    countryKnown: bool,
    mint: Spec.MintReply,
    account: Spec.IdentityReply,
    hookBound: bool,
    hookRows: set<string>,
    lost: set<Step>,
    startLeavesActive: bool)

  predicate TakesEffect(f: Faults, s: Step) {
    s !in f.throws || s in f.lost
  }

  /** The step, if it is reached, ends the try block. */
  ghost predicate Fails(w: World, d: Spec.Registration, f: Faults, s: Step) {
    match s
    case EmailFree => CompanyEmailTaken(w.db.companies, d.email)
    case NameFree => CompanyNameTaken(w.db.companies, d.name)
    case CountryKnown => !f.countryKnown
    case MintId => !f.mint.Minted?
    case SaveCompany => s in f.throws || (f.mint.Minted? && IfricTaken(w.db.companies, f.mint.urn))
    case FindCategory => s in f.throws || PickedCategory(w.db, d.category, None)
    case FindUser => s in f.throws || EmailTaken(w.db.users, d.email)
    case CreateAccount => f.account != Spec.Created || d.email in w.keycloak
    case RunHook => f.hookBound && s in f.throws
    case _ => s in f.throws
  }

  /** The order of the calls, as the source makes them. */
  lemma StepsAreInOrder()
    ensures Rank(FindByEmail) < Rank(FindByName) < Rank(EmailFree) < Rank(NameFree) < Rank(CountryKnown) < Rank(MintId)
    ensures Rank(MintId) < Rank(StartTransaction) < Rank(SaveCompany) < Rank(FindCategory) < Rank(SaveMapping)
    ensures Rank(SaveMapping) < Rank(SaveGroups) < Rank(FindUser) < Rank(CreateAccount) < Rank(SaveUser)
    ensures Rank(SaveUser) < Rank(FindAdminGroup) < Rank(SaveGrant) < Rank(RunHook) < Rank(Commit)
    ensures forall s: Step | s !in {Rollback, UndoHook, DeleteAccount, ReleaseId} :: InTry(s)
    ensures forall s | s in {Rollback, UndoHook, DeleteAccount, ReleaseId} :: !InTry(s)
  {
  }

  /** What ends the try block at each step, in the columns it looks at. */
  lemma FailsExactly(w: World, d: Spec.Registration, f: Faults, s: Step)
    requires InTry(s)
    ensures Fails(w, d, f, s) <==>
      || (s == EmailFree && exists k :: k in w.db.companies && w.db.companies[k].email == d.email)
      || (s == NameFree && exists k :: k in w.db.companies && w.db.companies[k].name == d.name)
      || (s == CountryKnown && !f.countryKnown)
      || (s == MintId && !f.mint.Minted?)
      || (s == SaveCompany && f.mint.Minted? && exists k ::
          k in w.db.companies && w.db.companies[k].ifricId == f.mint.urn)
      || (s == FindCategory && forall m | m in w.db.categories :: w.db.categories[m] != d.category)
      || (s == FindUser && exists u :: u in w.db.users && w.db.users[u].email == d.email)
      || (s == CreateAccount && (f.account != Spec.Created || d.email in w.keycloak))
      || (s == RunHook && f.hookBound && s in f.throws)
      || (s in {FindByEmail, FindByName, StartTransaction, SaveCompany, FindCategory, SaveMapping, SaveGroups, FindUser,
                SaveUser, FindAdminGroup, SaveGrant, Commit} && s in f.throws)
  {
  }

  ghost predicate Reached(w: World, d: Spec.Registration, f: Faults, s: Step) {
    forall t: Step | Rank(t) < Rank(s) :: !Fails(w, d, f, t)
  }

  /** The step whose failure the catch block sees. */
  ghost predicate FailsFirst(w: World, d: Spec.Registration, f: Faults, s: Step) {
    InTry(s) && Reached(w, d, f, s) && Fails(w, d, f, s)
  }

  lemma RankIsInjective(s: Step, t: Step)
    requires Rank(s) == Rank(t)
    ensures s == t
  {
  }

  lemma Passed(w: World, d: Spec.Registration, f: Faults, s: Step, next: Step)
    requires Reached(w, d, f, s) && !Fails(w, d, f, s) && Rank(next) == Rank(s) + 1
    ensures Reached(w, d, f, next)
  {
    forall t: Step | Rank(t) < Rank(next) ensures !Fails(w, d, f, t) {
      if Rank(t) == Rank(s) { RankIsInjective(s, t); }
    }
  }

  // ----- what the failed call leaves -----

  /** `queryRunner.isTransactionActive` when the catch block reads it. */
  predicate InTransaction(f: Faults, at: Step) {
    Rank(at) > Rank(StartTransaction) || (at == StartTransaction && f.startLeavesActive)
  }

  /** The catch block gets past the rollback: it is not needed, or it does not throw. */
  predicate Compensates(f: Faults, at: Step) {
    !InTransaction(f, at) || Rollback !in f.throws
  }

  /** The catch block gives a minted id back: the tracker knows a mint that answered, not one whose answer was lost. */
  predicate Released(f: Faults, at: Step) {
    Rank(at) > Rank(MintId) && Compensates(f, at) && TakesEffect(f, ReleaseId)
  }

  /** The ids ICID has afterwards. */
  function IcidAfter(w: World, f: Faults, at: Step): set<IcidEntry> {
    if Rank(at) > Rank(MintId) && f.mint.Minted? then
      var minted := w.icid + {CompanyUrn(f.mint.urn)};
      if Released(f, at) then minted - {CompanyUrn(f.mint.urn)} else minted
    else if at == MintId && f.mint.MintedThenThrew? then
      w.icid + {CompanyUrn(f.mint.urn)}
    else
      w.icid
  }

  /** An account was created and the catch block does not remove it. */
  predicate AccountLeft(w: World, d: Spec.Registration, f: Faults, at: Step) {
    || (Rank(at) > Rank(CreateAccount) && (!Compensates(f, at) || !TakesEffect(f, DeleteAccount)))
    || (at == CreateAccount && f.account == Spec.CreatedThenThrew && d.email !in w.keycloak)
  }

  /** The error the caller gets: the first failure's own, unless a compensation that is not wrapped throws in turn. */
  function Reported(f: Faults, at: Step): Step {
    if !Compensates(f, at) then Rollback
    else if Rank(at) > Rank(MintId) && ReleaseId in f.throws then ReleaseId
    else at
  }

  /**
   What is minted is given back, and nothing else: an id is released only if
   ICID did not have it before, and kept only if it did.
   */
  ghost predicate IcidComesOutEven(w: World, f: Faults, at: Step) {
    if Rank(at) < Rank(MintId) || f.mint.MintRefused? then true
    else if Released(f, at) then CompanyUrn(f.mint.urn) !in w.icid
    else CompanyUrn(f.mint.urn) in w.icid
  }

  /** Nothing is left behind anywhere, as far as can be told before the call. */
  ghost predicate Restores(w: World, d: Spec.Registration, f: Faults, at: Step) {
    && !(at == Commit && Commit in f.lost)
    && !AccountLeft(w, d, f, at)
    && IcidComesOutEven(w, f, at)
  }

  // ----- the call -----

  /** What a hook is told, and told again to undo. */
  datatype HookEvent = HookEvent(companyId: Id, userId: Id)

  datatype Effect =
    | HookReturned(e: HookEvent)
    | HookThrew(e: HookEvent)
    | Committed
    | HookUndone(e: HookEvent)
    | HookUndoThrew(e: HookEvent)

  /** All that was said to the hook was about this one registration. */
  ghost predicate TellsOf(log: seq<Effect>, event: HookEvent) {
    forall i | 0 <= i < |log| && !log[i].Committed? :: log[i].e == event
  }

  /** The hook was asked to undo its work, whatever came of it. */
  predicate IsUndo(e: Effect) {
    e.HookUndone? || e.HookUndoThrew?
  }

  datatype Answer = Accepted(ifricId: Urn) | Refused(step: Step)

  /** How a stretch of the try block ended: at the first failing step, or with every step before `next` passed. */
  ghost predicate Ended(w: World, d: Spec.Registration, f: Faults, at: Option<Step>, first: Step, next: Step) {
    match at
    case None => Reached(w, d, f, next)
    case Some(s) => FailsFirst(w, d, f, s) && Rank(first) <= Rank(s) < Rank(next)
  }

  /** Up to the start of the transaction: nothing to undo but the minted id. */
  method Prepare(store: Store, d: Spec.Registration, f: Faults)
      returns (at: Option<Step>, tempIcidCompanyId: Option<Urn>)
    modifies store`icid
    ensures Ended(old(store.Snapshot()), d, f, at, FindByEmail, SaveCompany)
    ensures at.None? || at == Some(StartTransaction) ==> f.mint.Minted?
    ensures tempIcidCompanyId == if at.None? || at == Some(StartTransaction) then Some(f.mint.urn) else None
    ensures store.icid == if f.mint.MintRefused? || (at.Some? && Rank(at.value) < Rank(MintId)) then old(store.icid)
                          else old(store.icid) + {CompanyUrn(f.mint.urn)}
  {
    ghost var w := store.Snapshot();
    hide Reached;
    ReachedFirst(w, d, f);
    tempIcidCompanyId := None;
    if FindByEmail in f.throws { return Some(FindByEmail), None; }
    Passed(w, d, f, FindByEmail, FindByName);
    if FindByName in f.throws { return Some(FindByName), None; }
    Passed(w, d, f, FindByName, EmailFree);
    if CompanyEmailTaken(store.db.companies, d.email) { return Some(EmailFree), None; }
    Passed(w, d, f, EmailFree, NameFree);
    if CompanyNameTaken(store.db.companies, d.name) { return Some(NameFree), None; }
    Passed(w, d, f, NameFree, CountryKnown);
    if !f.countryKnown { return Some(CountryKnown), None; }
    Passed(w, d, f, CountryKnown, MintId);
    at, tempIcidCompanyId := MintAndStart(store, d, f, w);
  }

  method MintAndStart(store: Store, d: Spec.Registration, f: Faults, ghost w: World)
      returns (at: Option<Step>, tempIcidCompanyId: Option<Urn>)
    requires Reached(w, d, f, MintId)
    modifies store`icid
    ensures Ended(w, d, f, at, MintId, SaveCompany)
    ensures at.None? || at == Some(StartTransaction) ==> f.mint.Minted?
    ensures tempIcidCompanyId == if at.None? || at == Some(StartTransaction) then Some(f.mint.urn) else None
    ensures store.icid == if f.mint.MintRefused? then old(store.icid) else old(store.icid) + {CompanyUrn(f.mint.urn)}
  {
    hide Reached;
    match f.mint {
      case MintRefused => return Some(MintId), None;
      case MintedThenThrew(urn) => store.icid := store.icid + {CompanyUrn(urn)}; return Some(MintId), None;
      case Minted(urn) => store.icid := store.icid + {CompanyUrn(urn)}; tempIcidCompanyId := Some(urn);
    }
    Passed(w, d, f, MintId, StartTransaction);
    if StartTransaction in f.throws { at := Some(StartTransaction); return; }
    Passed(w, d, f, StartTransaction, SaveCompany);
    at := None;
  }

  lemma ReachedFirst(w: World, d: Spec.Registration, f: Faults)
    ensures Reached(w, d, f, FindByEmail)
  {
  }

  /** The account exists when the try block ends at `at`. */
  predicate AccountCreated(w: World, d: Spec.Registration, f: Faults, at: Step) {
    || Rank(at) > Rank(CreateAccount)
    || (at == CreateAccount && f.account == Spec.CreatedThenThrew && d.email !in w.keycloak)
  }

  // ----- the transaction: `tx` is what its manager sees, `store.db` what everyone else sees -----

  /** The company with its category and its two default groups. */
  function CompanyRows(db: Tables, d: Spec.Registration, urn: Urn, category: Id, ids: Spec.NewIds): Tables {
    db.(
    companies := db.companies[ids.company := Company(urn, d.name, d.email, d.profile)],
    mappings := db.mappings[ids.mapping := Mapping(ids.company, category)],
    groups := db.groups
      [ids.readOnly := AccessGroup(ids.company, "read_only", {Read})]
      [ids.admin := AccessGroup(ids.company, "admin", ALL_RIGHTS)])
  }

  method SaveCompanyRow(store: Store, d: Spec.Registration, f: Faults, urn: Urn, ghost w: World)
    returns (at: Option<Step>, tx: Tables, companyId: Id, category: Id)
    requires store.Counting() && f.mint == Spec.Minted(urn) && store.db == w.db && store.issued == w.issued
    requires Reached(w, d, f, SaveCompany)
    modifies store`nextId, store`issued
    ensures store.Counting() && store.issued == w.issued + {companyId} && companyId !in w.issued
    ensures Ended(w, d, f, at, SaveCompany, SaveMapping)
    ensures at.None? ==> PickedCategory(w.db, d.category, Some(category))
    ensures at.None? ==> tx == w.db.(companies := w.db.companies[companyId := Company(urn, d.name, d.email, d.profile)])
  {
    hide Reached;
    tx, category := store.db, 0;
    companyId := store.GenerateId();
    if SaveCompany in f.throws || IfricTaken(tx.companies, urn) { at := Some(SaveCompany); return; }
    Passed(w, d, f, SaveCompany, FindCategory);
    tx := tx.(companies := tx.companies[companyId := Company(urn, d.name, d.email, d.profile)]);
    var companyCategory := store.CategoryByName(d.category);
    if FindCategory in f.throws || companyCategory.None? { at := Some(FindCategory); return; }
    Passed(w, d, f, FindCategory, SaveMapping);
    category, at := companyCategory.value, None;
  }

  method SaveCompanyDetails(store: Store, d: Spec.Registration, f: Faults, companyId: Id, category: Id, before: Tables,
      ghost w: World)
    returns (at: Option<Step>, tx: Tables, mappingId: Id, readOnlyId: Id, adminId: Id)
    requires store.Counting() && before.users == w.db.users && w.issued <= store.issued
    requires Reached(w, d, f, SaveMapping)
    modifies store`nextId, store`issued
    ensures store.Counting() && old(store.issued) <= store.issued
    ensures Ended(w, d, f, at, SaveMapping, CreateAccount)
    ensures at.None? ==>
              && {mappingId, readOnlyId, adminId} !! old(store.issued)
              && {mappingId, readOnlyId, adminId} <= store.issued && readOnlyId != adminId
    ensures at.None? ==> tx == before.(
      mappings := before.mappings[mappingId := Mapping(companyId, category)],
      groups := before.groups
        [readOnlyId := AccessGroup(companyId, "read_only", {Read})]
        [adminId := AccessGroup(companyId, "admin", ALL_RIGHTS)])
  {
    hide Reached;
    tx, mappingId, readOnlyId, adminId := before, 0, 0, 0;
    if SaveMapping in f.throws { at := Some(SaveMapping); return; }
    Passed(w, d, f, SaveMapping, SaveGroups);
    mappingId := store.GenerateId();
    tx := tx.(mappings := tx.mappings[mappingId := Mapping(companyId, category)]);
    if SaveGroups in f.throws { at := Some(SaveGroups); return; }
    Passed(w, d, f, SaveGroups, FindUser);
    readOnlyId := store.GenerateId();
    adminId := store.GenerateId();
    tx := tx.(groups := tx.groups
      [readOnlyId := AccessGroup(companyId, "read_only", {Read})]
      [adminId := AccessGroup(companyId, "admin", ALL_RIGHTS)]);
    if FindUser in f.throws || EmailTaken(tx.users, d.email) { at := Some(FindUser); return; }
    Passed(w, d, f, FindUser, CreateAccount);
    at := None;
  }

  /** The account lives outside the transaction; the caller's tracker is set only once it exists. */
  method CreateAdminAccount(store: Store, d: Spec.Registration, f: Faults, urn: Urn, ghost w: World)
    returns (at: Option<Step>, userId: Id)
    requires store.Counting() && store.keycloak == w.keycloak && store.stamped == w.stamped
    requires Reached(w, d, f, CreateAccount)
    modifies store`nextId, store`issued, store`keycloak, store`stamped
    ensures store.Counting() && userId !in old(store.issued) && store.issued == old(store.issued) + {userId}
    ensures Ended(w, d, f, at, CreateAccount, SaveUser)
    ensures AccountIs(w, store.keycloak, store.stamped, d, Identity(urn, userId), at.None?
        || AccountCreated(w, d, f, at.value))
  {
    userId := store.GenerateId();
    var created := store.CreateIdentity(d.email, Identity(urn, userId), f.account);
    if created {
      Passed(w, d, f, CreateAccount, SaveUser);
      at := None;
    } else {
      at := Some(CreateAccount);
    }
  }

  ghost predicate AccountIs(w: World, keycloak: map<string, Identity>, stamped: set<Identity>, d: Spec.Registration,
      identity: Identity, created: bool) {
    if created then
      d.email !in w.keycloak && keycloak == w.keycloak[d.email := identity] && stamped == w.stamped + {identity}
    else
      keycloak == w.keycloak && stamped == w.stamped
  }

  method SaveAdminRows(store: Store, d: Spec.Registration, f: Faults, companyId: Id, adminId: Id, userId: Id,
      before: Tables, ghost w: World)
    returns (at: Option<Step>, tx: Tables, grantId: Id)
    requires store.Counting() && Reached(w, d, f, SaveUser)
    modifies store`nextId, store`issued
    ensures store.Counting() && old(store.issued) <= store.issued
    ensures Ended(w, d, f, at, SaveUser, RunHook)
    ensures at.None? ==> grantId !in old(store.issued) && grantId in store.issued
    ensures at.None? ==> tx == before.(
      users := before.users[userId := CompanyUser(companyId, d.email, d.adminName, "")],
      grants := before.grants[grantId := Grant(userId, adminId)])
  {
    hide Reached;
    tx, grantId := before, 0;
    if SaveUser in f.throws { at := Some(SaveUser); return; }
    Passed(w, d, f, SaveUser, FindAdminGroup);
    tx := tx.(users := tx.users[userId := CompanyUser(companyId, d.email, d.adminName, "")]);
    if FindAdminGroup in f.throws { at := Some(FindAdminGroup); return; }
    Passed(w, d, f, FindAdminGroup, SaveGrant);
    if SaveGrant in f.throws { at := Some(SaveGrant); return; }
    Passed(w, d, f, SaveGrant, RunHook);
    grantId := store.GenerateId();
    tx := tx.(grants := tx.grants[grantId := Grant(userId, adminId)]);
    at := None;
  }

  /** A commit is only ever attempted after a bound hook has returned. */
  ghost predicate HookBeforeCommit(f: Faults, log: seq<Effect>) {
    f.hookBound ==> forall i | 0 <= i < |log| && log[i] == Committed :: exists j :: 0 <= j < i && log[j].HookReturned?
  }

  predicate CommitTookEffect(f: Faults, at: Option<Step>) {
    at.None? || (at == Some(Commit) && Commit in f.lost)
  }

  method HookAndCommit(store: Store, d: Spec.Registration, f: Faults, event: HookEvent, before: Tables, ghost w: World)
    returns (at: Option<Step>, log: seq<Effect>)
    requires Reached(w, d, f, RunHook)
    modifies store`db
    ensures Ended(w, d, f, at, RunHook, Rollback)
    ensures store.db == if CommitTookEffect(f, at)
        then before.(hookRows := before.hookRows + if f.hookBound then f.hookRows else {}) else old(store.db)
    ensures LogAsEnded(f, at, log) && TellsOf(log, event)
  {
    hide Reached;
    log := [];
    var tx := before;
    if f.hookBound {
      tx := tx.(hookRows := tx.hookRows + f.hookRows);
      log := if RunHook in f.throws then [HookThrew(event)] else [HookReturned(event)];
      if RunHook in f.throws { at := Some(RunHook); return; }
    } else {
      assert tx == tx.(hookRows := tx.hookRows + {});
    }
    Passed(w, d, f, RunHook, Commit);
    if TakesEffect(f, Commit) {
      store.db := tx;
      log := log + [Committed];
    }
    assert f.hookBound ==> log[0] == HookReturned(event);
    if Commit in f.throws { at := Some(Commit); return; }
    Passed(w, d, f, Commit, Rollback);
    at := None;
  }

  /** Everything a committed registration adds except the hook's rows. */
  function AdminRows(db: Tables, d: Spec.Registration, urn: Urn, category: Id, ids: Spec.NewIds): Tables {
    Spec.Registered(db, d, urn, category, ids, {})
  }

  predicate Tracked(d: Spec.Registration, at: Option<Step>, keycloakUserEmail: Option<string>) {
    keycloakUserEmail == if at.None? || Rank(at.value) > Rank(CreateAccount) then Some(d.email) else None
  }

  /** The account, its stamp and its id, as they are when the try block ends at `at`. */
  ghost predicate AccountAsEnded(w: World, w': World, d: Spec.Registration, f: Faults, at: Option<Step>,
      identity: Identity) {
    var created := at.None? || AccountCreated(w, d, f, at.value);
    AccountIs(w, w'.keycloak, w'.stamped, d, identity, created) && (created ==> Spec.Fresh(w, w', identity.userId))
  }

  method SaveCompanyRows(store: Store, d: Spec.Registration, f: Faults, urn: Urn, ghost w: World)
    returns (at: Option<Step>, tx: Tables, category: Id, ids: Spec.NewIds)
    requires store.Counting() && f.mint == Spec.Minted(urn) && store.db == w.db && store.issued == w.issued
    requires Reached(w, d, f, SaveCompany)
    modifies store`nextId, store`issued
    ensures store.Counting() && w.issued <= store.issued
    ensures Ended(w, d, f, at, SaveCompany, CreateAccount)
    ensures at.None? ==> tx == CompanyRows(w.db, d, urn, category, ids) && FreshCompanyIds(w, store.Snapshot(), ids)
    ensures at.None? ==> PickedCategory(w.db, d.category, Some(category))
  {
    hide Reached, Fails;
    ids := Spec.NewIds(0, 0, 0, 0, 0, 0);
    var companyId, mappingId, readOnlyId, adminId;
    at, tx, companyId, category := SaveCompanyRow(store, d, f, urn, w);
    if at.None? {
      at, tx, mappingId, readOnlyId, adminId := SaveCompanyDetails(store, d, f, companyId, category, tx, w);
      ids := Spec.NewIds(companyId, mappingId, readOnlyId, adminId, 0, 0);
    }
  }

  /** The ids of the rows `CompanyRows` adds. */
  ghost predicate FreshCompanyIds(w: World, w': World, ids: Spec.NewIds) {
    && Spec.Fresh(w, w', ids.company) && Spec.Fresh(w, w', ids.mapping)
    && Spec.Fresh(w, w', ids.readOnly) && Spec.Fresh(w, w', ids.admin) && ids.readOnly != ids.admin
  }

  method SaveRegistration(store: Store, d: Spec.Registration, f: Faults, urn: Urn, ghost w: World)
    returns (at: Option<Step>, keycloakUserEmail: Option<string>, tx: Tables, category: Id, ids: Spec.NewIds)
    requires store.Counting() && f.mint == Spec.Minted(urn) && store.db == w.db && store.issued == w.issued
    requires store.keycloak == w.keycloak && store.stamped == w.stamped && Reached(w, d, f, SaveCompany)
    modifies store`nextId, store`issued, store`keycloak, store`stamped
    ensures store.Counting() && w.issued <= store.issued
    ensures Ended(w, d, f, at, SaveCompany, RunHook) && Tracked(d, at, keycloakUserEmail)
    ensures AccountAsEnded(w, store.Snapshot(), d, f, at, Identity(urn, ids.user))
    ensures at.None? ==> tx == AdminRows(w.db, d, urn, category, ids) && Spec.FreshIds(w, store.Snapshot(), ids)
    ensures at.None? ==> PickedCategory(w.db, d.category, Some(category))
  {
    hide Reached, Fails;
    keycloakUserEmail := None;
    var userId, grantId;
    at, tx, category, ids := SaveCompanyRows(store, d, f, urn, w);
    if at.None? {
      at, userId := CreateAdminAccount(store, d, f, urn, w);
      ids := ids.(user := userId);
      if at.None? {
        keycloakUserEmail := Some(d.email);
        at, tx, grantId := SaveAdminRows(store, d, f, ids.company, ids.admin, userId, tx, w);
        ids := ids.(grant := grantId);
      }
    }
  }

  /** The rows are visible to everyone, or to nobody. */
  ghost predicate RowsAsEnded(w: World, w': World, d: Spec.Registration, f: Faults, urn: Urn, at: Option<Step>,
      ids: Spec.NewIds, category: Id) {
    if CommitTookEffect(f, at) then
      && w'.db == Spec.Registered(w.db, d, urn, category, ids, if f.hookBound then f.hookRows else {})
      && Spec.FreshIds(w, w', ids) && PickedCategory(w.db, d.category, Some(category))
    else
      w'.db == w.db
  }

  /** The transaction from its first statement to its commit. */
  method Transact(store: Store, d: Spec.Registration, f: Faults, urn: Urn, ghost w: World)
    returns (at: Option<Step>, keycloakUserEmail: Option<string>, event: Option<HookEvent>, log: seq<Effect>,
        ids: Spec.NewIds, category: Id)
    requires store.Counting() && f.mint == Spec.Minted(urn) && store.db == w.db && store.issued == w.issued
    requires store.keycloak == w.keycloak && store.stamped == w.stamped && Reached(w, d, f, SaveCompany)
    modifies store`db, store`nextId, store`issued, store`keycloak, store`stamped
    ensures store.Counting() && w.issued <= store.issued
    ensures Ended(w, d, f, at, SaveCompany, Rollback) && Tracked(d, at, keycloakUserEmail)
    ensures event.Some? <==> at.None? || Rank(at.value) >= Rank(RunHook)
    ensures AccountAsEnded(w, store.Snapshot(), d, f, at, Identity(urn, ids.user))
    ensures RowsAsEnded(w, store.Snapshot(), d, f, urn, at, ids, category)
    ensures LogAsEnded(f, at, log) && AboutRows(event, log, ids)
  {
    hide Reached, Fails, LogAsEnded, AccountAsEnded, RowsAsEnded, CommitTookEffect, Spec.FreshIds, AdminRows;
    var tx;
    event, log := None, [];
    at, keycloakUserEmail, tx, category, ids := SaveRegistration(store, d, f, urn, w);
    ghost var saved := store.Snapshot();
    if at.None? {
      event := Some(HookEvent(ids.company, ids.user));
      at, log := HookAndCommit(store, d, f, event.value, tx, w);
      TransactionEnds(w, saved, store.Snapshot(), d, f, urn, at, ids, category, tx);
    } else {
      TransactionBreaksOff(w, saved, d, f, urn, at.value, ids, category);
    }
  }

  /** The event built, and everything said to the hook so far, names the rows of these ids. */
  ghost predicate AboutRows(event: Option<HookEvent>, log: seq<Effect>, ids: Spec.NewIds) {
    var told := HookEvent(ids.company, ids.user);
    (event.Some? ==> event.value == told) && TellsOf(log, told)
  }

  lemma TransactionEnds(
    w: World, saved: World, w': World, d: Spec.Registration, f: Faults, urn: Urn, at: Option<Step>, ids: Spec.NewIds,
    category: Id, tx: Tables)
    requires Ended(w, d, f, at, RunHook, Rollback) && AccountAsEnded(w, saved, d, f, None, Identity(urn, ids.user))
    requires tx == AdminRows(w.db, d, urn, category, ids) && Spec.FreshIds(w, saved, ids)
        && PickedCategory(w.db, d.category, Some(category))
    requires saved.db == w.db && w' == saved.(db := w'.db)
    requires w'.db == if CommitTookEffect(f, at)
        then tx.(hookRows := tx.hookRows + if f.hookBound then f.hookRows else {}) else saved.db
    ensures AccountAsEnded(w, w', d, f, at, Identity(urn, ids.user))
    ensures RowsAsEnded(w, w', d, f, urn, at, ids, category)
  {
    hide Reached, Fails, CommitTookEffect, PickedCategory;
  }

  lemma TransactionBreaksOff(w: World, w': World, d: Spec.Registration, f: Faults, urn: Urn, at: Step, ids: Spec.NewIds,
      category: Id)
    requires Rank(at) < Rank(RunHook) && w'.db == w.db
    ensures RowsAsEnded(w, w', d, f, urn, Some(at), ids, category) && LogAsEnded(f, Some(at), [])
  {
  }

  /** The hook and the commit have, or have not, been as `at` says. */
  ghost predicate LogAsEnded(f: Faults, at: Option<Step>, log: seq<Effect>) {
    && (Committed in log <==> CommitTookEffect(f, at))
    && HookBeforeCommit(f, log)
    && forall e | e in log :: !IsUndo(e)
  }

  // ----- the whole call -----

  /** Where the log says the hook was asked to undo its work. */
  ghost function UndoneAt(log: seq<Effect>): set<int> {
    set i | 0 <= i < |log| && IsUndo(log[i])
  }

  ghost predicate Compensated(w: World, w': World, f: Faults, inTransaction: bool, keycloakUserEmail: Option<string>,
      tempIcidCompanyId: Option<Urn>) {
    var compensates := !(inTransaction && Rollback in f.throws);
    && w' == w.(keycloak := w'.keycloak, icid := w'.icid)
    && w'.keycloak == (if compensates && keycloakUserEmail.Some? && TakesEffect(f, DeleteAccount)
        then w.keycloak - {keycloakUserEmail.value} else w.keycloak)
    && w'.icid == (if compensates && tempIcidCompanyId.Some? && TakesEffect(f, ReleaseId)
        then w.icid - {CompanyUrn(tempIcidCompanyId.value)} else w.icid)
  }

  /** What is added to the log when the hook is asked to undo its work. */
  function UndoLogged(f: Faults, event: HookEvent): Effect {
    if UndoHook in f.throws then HookUndoThrew(event) else HookUndone(event)
  }

  /** The catch block. A throwing hook or Keycloak cleanup is swallowed; a throwing rollback or ICID release is not. */
  method Compensate(
    store: Store, f: Faults, at: Step, inTransaction: bool, event: Option<HookEvent>,
    keycloakUserEmail: Option<string>, tempIcidCompanyId: Option<Urn>, before: seq<Effect>)
    returns (step: Step, log: seq<Effect>)
    modifies store`keycloak, store`icid
    ensures Compensated(old(store.Snapshot()), store.Snapshot(), f, inTransaction, keycloakUserEmail, tempIcidCompanyId)
    ensures var compensates := !(inTransaction && Rollback in f.throws);
      && step == (if !compensates then Rollback else if tempIcidCompanyId.Some? && ReleaseId in f.throws then ReleaseId
          else at)
      && log == (if compensates && f.hookBound && event.Some? then before + [UndoLogged(f, event.value)] else before)
  {
    step, log := at, before;
    if inTransaction && Rollback in f.throws {
      return Rollback, log;
    }
    log := AskHookToUndo(f, event, before);
    step := UndoOutside(store, f, at, keycloakUserEmail, tempIcidCompanyId);
  }

  /** A throwing hook is swallowed. */
  method AskHookToUndo(f: Faults, event: Option<HookEvent>, before: seq<Effect>) returns (log: seq<Effect>)
    ensures log == (if f.hookBound && event.Some? then before + [UndoLogged(f, event.value)] else before)
  {
    log := before;
    if f.hookBound && event.Some? {
      log := log + [if UndoHook in f.throws then HookUndoThrew(event.value) else HookUndone(event.value)];
    }
  }

  /** A throwing account removal is swallowed; a throwing release is what the caller is told. */
  method UndoOutside(store: Store, f: Faults, at: Step, keycloakUserEmail: Option<string>,
      tempIcidCompanyId: Option<Urn>)
    returns (step: Step)
    modifies store`keycloak, store`icid
    ensures step == (if tempIcidCompanyId.Some? && ReleaseId in f.throws then ReleaseId else at)
    ensures store.keycloak ==
            if keycloakUserEmail.Some? && TakesEffect(f, DeleteAccount)
                then old(store.keycloak) - {keycloakUserEmail.value}
            else old(store.keycloak)
    ensures store.icid ==
            if tempIcidCompanyId.Some? && TakesEffect(f, ReleaseId)
                then old(store.icid) - {CompanyUrn(tempIcidCompanyId.value)}
            else old(store.icid)
  {
    step := at;
    if keycloakUserEmail.Some? {
      store.DeleteIdentity(keycloakUserEmail.value, !TakesEffect(f, DeleteAccount));
    }
    if tempIcidCompanyId.Some? {
      if TakesEffect(f, ReleaseId) {
        store.icid := store.icid - {CompanyUrn(tempIcidCompanyId.value)};
      }
      if ReleaseId in f.throws {
        step := ReleaseId;
      }
    }
  }

  /** The trackers name exactly what exists: the id once minted, the account once created, the event once built. */
  ghost predicate TrackersAsEnded(
    d: Spec.Registration, f: Faults, at: Option<Step>,
    tempIcidCompanyId: Option<Urn>, keycloakUserEmail: Option<string>, event: Option<HookEvent>)
  {
    && (tempIcidCompanyId.Some? <==> at.None? || Rank(at.value) > Rank(MintId))
    && (tempIcidCompanyId.Some? ==> f.mint == Spec.Minted(tempIcidCompanyId.value))
    && Tracked(d, at, keycloakUserEmail)
    && (event.Some? <==> at.None? || Rank(at.value) >= Rank(RunHook))
  }

  /** The world between the try block and the catch block. */
  ghost predicate WorldAsEnded(w: World, w': World, d: Spec.Registration, f: Faults, at: Option<Step>, ids: Spec.NewIds,
      category: Id) {
    && w.issued <= w'.issued
    && w'.icid == (if f.mint.MintRefused? || (at.Some? && Rank(at.value) < Rank(MintId)) then w.icid
        else w.icid + {CompanyUrn(f.mint.urn)})
    && (if f.mint.Minted? then
          && AccountAsEnded(w, w', d, f, at, Identity(f.mint.urn, ids.user))
          && RowsAsEnded(w, w', d, f, f.mint.urn, at, ids, category)
        else
          w'.db == w.db && w'.keycloak == w.keycloak && w'.stamped == w.stamped)
  }

  /** The try block, with everything its catch block will know. */
  method Attempt(store: Store, d: Spec.Registration, f: Faults)
    returns (
      at: Option<Step>, tempIcidCompanyId: Option<Urn>, keycloakUserEmail: Option<string>, event: Option<HookEvent>,
      log: seq<Effect>,
      ids: Spec.NewIds, category: Id)
    requires store.Counting()
    modifies store
    ensures store.Counting()
    ensures Ended(old(store.Snapshot()), d, f, at, FindByEmail, Rollback)
    ensures TrackersAsEnded(d, f, at, tempIcidCompanyId, keycloakUserEmail, event)
    ensures WorldAsEnded(old(store.Snapshot()), store.Snapshot(), d, f, at, ids, category)
    ensures LogAsEnded(f, at, log) && AboutRows(event, log, ids)
  {
    ghost var w := store.Snapshot();
    hide Reached, Fails, Rank, Ended, Tracked, LogAsEnded, WorldAsEnded, TrackersAsEnded, AccountAsEnded, RowsAsEnded;
    keycloakUserEmail, event, log, ids, category := None, None, [], Spec.NewIds(0, 0, 0, 0, 0, 0), 0;
    at, tempIcidCompanyId := Prepare(store, d, f);
    ghost var prepared := store.Snapshot();
    if at.None? {
      assert Reached(w, d, f, SaveCompany) by { PreparedReaches(w, d, f); }
      at, keycloakUserEmail, event, log, ids, category := Transact(store, d, f, tempIcidCompanyId.value, w);
      AfterTransaction(w, prepared, store.Snapshot(), d, f, at, keycloakUserEmail, event, ids, category);
    } else {
      NothingBegun(w, store.Snapshot(), d, f, at.value, tempIcidCompanyId, ids, category);
    }
  }

  lemma PreparedReaches(w: World, d: Spec.Registration, f: Faults)
    requires Ended(w, d, f, None, FindByEmail, SaveCompany)
    ensures Reached(w, d, f, SaveCompany)
  {
  }

  lemma NothingBegun(
    w: World, w': World, d: Spec.Registration, f: Faults, at: Step, tempIcidCompanyId: Option<Urn>, ids: Spec.NewIds,
    category: Id)
    requires Ended(w, d, f, Some(at), FindByEmail, SaveCompany) && w' == w.(icid := w'.icid)
    requires at == StartTransaction ==> f.mint.Minted?
    requires tempIcidCompanyId == if at == StartTransaction then Some(f.mint.urn) else None
    requires w'.icid == (if f.mint.MintRefused? || Rank(at) < Rank(MintId) then w.icid
        else w.icid + {CompanyUrn(f.mint.urn)})
    ensures Ended(w, d, f, Some(at), FindByEmail, Rollback)
    ensures WorldAsEnded(w, w', d, f, Some(at), ids, category)
    ensures TrackersAsEnded(d, f, Some(at), tempIcidCompanyId, None, None) && LogAsEnded(f, Some(at), [])
  {
    hide Reached, Fails;
  }

  lemma AfterTransaction(
    w: World, prepared: World, w': World, d: Spec.Registration, f: Faults, at: Option<Step>,
    keycloakUserEmail: Option<string>,
    event: Option<HookEvent>, ids: Spec.NewIds, category: Id)
    requires Ended(w, d, f, at, SaveCompany, Rollback) && Tracked(d, at, keycloakUserEmail)
    requires event.Some? <==> at.None? || Rank(at.value) >= Rank(RunHook)
    requires f.mint.Minted? && prepared.icid == w.icid + {CompanyUrn(f.mint.urn)} && w'.icid == prepared.icid
        && w.issued <= w'.issued
    requires AccountAsEnded(w, w', d, f, at, Identity(f.mint.urn, ids.user))
        && RowsAsEnded(w, w', d, f, f.mint.urn, at, ids, category)
    ensures Ended(w, d, f, at, FindByEmail, Rollback)
    ensures WorldAsEnded(w, w', d, f, at, ids, category)
    ensures TrackersAsEnded(d, f, at, Some(f.mint.urn), keycloakUserEmail, event)
  {
    hide AccountAsEnded, RowsAsEnded, Tracked, Reached, Fails;
  }

  /** What one call did to the world, as a function of where it failed. */
  ghost predicate Settled(w: World, w': World, d: Spec.Registration, f: Faults, at: Option<Step>, ids: Spec.NewIds,
      category: Id) {
    var urn := if f.mint.MintRefused? then "-" else f.mint.urn;
    var identity := Identity(urn, ids.user);
    && w.issued <= w'.issued
    && RowsAsEnded(w, w', d, f, urn, at, ids, category)
    && (match at
        case None =>
          && f.mint.Minted? && w'.icid == w.icid + {CompanyUrn(urn)}
          && AccountIs(w, w'.keycloak, w'.stamped, d, identity, true)
          && Spec.Fresh(w, w', ids.user)
        case Some(s) =>
          && w'.icid == IcidAfter(w, f, s)
          && (if AccountLeft(w, d, f, s) then d.email !in w.keycloak && w'.keycloak == w.keycloak[d.email := identity]
              else w'.keycloak == w.keycloak)
          && (if AccountCreated(w, d, f, s) then w'.stamped == w.stamped + {identity} && Spec.Fresh(w, w', ids.user)
              else w'.stamped == w.stamped))
  }

  lemma SettledWhenAccepted(
    w: World, w': World, d: Spec.Registration, f: Faults, tempIcidCompanyId: Option<Urn>,
    keycloakUserEmail: Option<string>,
    event: Option<HookEvent>, ids: Spec.NewIds, category: Id)
    requires TrackersAsEnded(d, f, None, tempIcidCompanyId, keycloakUserEmail, event)
    requires WorldAsEnded(w, w', d, f, None, ids, category)
    ensures Settled(w, w', d, f, None, ids, category)
  {
  }

  lemma MintAsRanked(w: World, d: Spec.Registration, f: Faults, s: Step)
    requires FailsFirst(w, d, f, s)
    ensures Rank(s) > Rank(MintId) ==> f.mint.Minted?
    ensures s == MintId ==> !f.mint.Minted?
  {
    assert Fails(w, d, f, MintId) <==> !f.mint.Minted?;
  }

  lemma IcidWhenRefused(
    w: World, mid: World, w': World, d: Spec.Registration, f: Faults, s: Step, tempIcidCompanyId: Option<Urn>,
    keycloakUserEmail: Option<string>, event: Option<HookEvent>, ids: Spec.NewIds, category: Id)
    requires FailsFirst(w, d, f, s) && TrackersAsEnded(d, f, Some(s), tempIcidCompanyId, keycloakUserEmail, event)
    requires WorldAsEnded(w, mid, d, f, Some(s), ids, category)
    requires Compensated(mid, w', f, InTransaction(f, s), keycloakUserEmail, tempIcidCompanyId)
    ensures w'.icid == IcidAfter(w, f, s)
  {
    MintAsRanked(w, d, f, s);
    assert Rank(s) == Rank(MintId) ==> s == MintId by { if Rank(s) == Rank(MintId) { RankIsInjective(s, MintId); } }
    hide Reached, Fails, RowsAsEnded, AccountAsEnded, Tracked;
  }

  lemma AccountWhenRefused(
    w: World, mid: World, w': World, d: Spec.Registration, f: Faults, s: Step, tempIcidCompanyId: Option<Urn>,
    keycloakUserEmail: Option<string>, event: Option<HookEvent>, ids: Spec.NewIds, category: Id)
    requires FailsFirst(w, d, f, s) && TrackersAsEnded(d, f, Some(s), tempIcidCompanyId, keycloakUserEmail, event)
    requires WorldAsEnded(w, mid, d, f, Some(s), ids, category)
    requires Compensated(mid, w', f, InTransaction(f, s), keycloakUserEmail, tempIcidCompanyId)
    ensures var identity := Identity(if f.mint.MintRefused? then "-" else f.mint.urn, ids.user);
      && (if AccountLeft(w, d, f, s) then d.email !in w.keycloak && w'.keycloak == w.keycloak[d.email := identity]
          else w'.keycloak == w.keycloak)
      && (if AccountCreated(w, d, f, s) then w'.stamped == w.stamped + {identity} && Spec.Fresh(w, w', ids.user)
          else w'.stamped == w.stamped)
  {
    MintAsRanked(w, d, f, s);
    hide Reached, Fails, RowsAsEnded;
    if keycloakUserEmail.Some? {
      assert d.email !in w.keycloak && w.keycloak[d.email := Identity(f.mint.urn, ids.user)] - {d.email} == w.keycloak;
    }
  }

  lemma SettledWhenRefused(
    w: World, mid: World, w': World, d: Spec.Registration, f: Faults, s: Step, tempIcidCompanyId: Option<Urn>,
    keycloakUserEmail: Option<string>, event: Option<HookEvent>, ids: Spec.NewIds, category: Id)
    requires FailsFirst(w, d, f, s) && TrackersAsEnded(d, f, Some(s), tempIcidCompanyId, keycloakUserEmail, event)
    requires WorldAsEnded(w, mid, d, f, Some(s), ids, category)
    requires Compensated(mid, w', f, InTransaction(f, s), keycloakUserEmail, tempIcidCompanyId)
    ensures Settled(w, w', d, f, Some(s), ids, category)
  {
    IcidWhenRefused(w, mid, w', d, f, s, tempIcidCompanyId, keycloakUserEmail, event, ids, category);
    AccountWhenRefused(w, mid, w', d, f, s, tempIcidCompanyId, keycloakUserEmail, event, ids, category);
    MintAsRanked(w, d, f, s);
    hide Reached, Fails, Spec.Registered, Spec.FreshIds, PickedCategory, CommitTookEffect, IcidAfter, AccountLeft,
        AccountCreated, AccountAsEnded, Tracked;
  }

  method CreateCompany(store: Store, d: Spec.Registration, f: Faults)
    returns (r: Answer, log: seq<Effect>, ghost at: Option<Step>, ghost ids: Spec.NewIds, ghost category: Id)
    requires store.Valid()
    modifies store
    ensures store.Valid()
    ensures Spec.CreateCompany(
              old(store.Snapshot()), d, CourseOf(old(store.Snapshot()), d, f, at), store.Snapshot(), r.Accepted?)
    ensures Ended(old(store.Snapshot()), d, f, at, FindByEmail, Rollback)
    ensures Settled(old(store.Snapshot()), store.Snapshot(), d, f, at, ids, category)
    ensures at.None? ==> f.mint.Minted? && r == Accepted(f.mint.urn)
    ensures at.Some? ==> r == Answer.Refused(Reported(f, at.value))
    ensures Committed in log <==> CommitTookEffect(f, at)
    ensures HookBeforeCommit(f, log) && TellsOf(log, HookEvent(ids.company, ids.user))
    ensures UndoneAt(log) == if at.Some? && f.hookBound && Rank(at.value) >= Rank(RunHook) && Compensates(f, at.value)
        then {|log| - 1} else {}
  {
    ghost var w := store.Snapshot();
    hide Reached, Fails, HookBeforeCommit, WorldAsEnded, Compensated, Settled, UndoneAt, Inv;
    var failedAt, tempIcidCompanyId, keycloakUserEmail, event, newIds, categoryId;
    failedAt, tempIcidCompanyId, keycloakUserEmail, event, log, newIds, categoryId := Attempt(store, d, f);
    at, ids, category := failedAt, newIds, categoryId;
    ghost var mid, before := store.Snapshot(), log;
    if failedAt.None? {
      r := Accepted(tempIcidCompanyId.value);
      SettledWhenAccepted(w, mid, d, f, tempIcidCompanyId, keycloakUserEmail, event, ids, category);
    } else {
      var step;
      step, log := Compensate(store, f, failedAt.value, InTransaction(f, failedAt.value), event, keycloakUserEmail,
          tempIcidCompanyId, log);
      r := Answer.Refused(step);
      SettledWhenRefused(w, mid, store.Snapshot(), d, f, failedAt.value, tempIcidCompanyId, keycloakUserEmail, event,
          ids, category);
    }
    UndoIsLast(f, before, log);
    hide TellsOf;
    SettledIsStep(w, store.Snapshot(), d, f, at, ids, category);
    CreateCompanyKeepsInv(w, d, CourseOf(w, d, f, at), store.Snapshot(), r.Accepted?);
  }

  lemma UndoIsLast(f: Faults, before: seq<Effect>, log: seq<Effect>)
    requires HookBeforeCommit(f, before)
        && (log == before || (|log| == |before| + 1 && log[..|before|] == before && IsUndo(log[|before|])))
    requires forall e | e in before :: !IsUndo(e)
    ensures HookBeforeCommit(f, log) && (Committed in log <==> Committed in before)
    ensures UndoneAt(log) == if log == before then {} else {|log| - 1}
  {
    if log != before {
      assert log == before + [log[|before|]];
    }
  }

  // ----- what it amounts to -----

  /** The id ICID minted during the call, answered or not. */
  function MintOf(f: Faults, at: Option<Step>): Option<Urn> {
    match f.mint
    case MintRefused => None
    case Minted(urn) => if at.None? || Rank(at.value) > Rank(MintId) then Some(urn) else None
    case MintedThenThrew(urn) => if at.Some? && Rank(at.value) >= Rank(MintId) then Some(urn) else None
  }

  /** The course of a call, as the registry sees it. */
  function CourseOf(w: World, d: Spec.Registration, f: Faults, at: Option<Step>): Spec.Course {
    Spec.Course(
      MintOf(f, at),
      at.Some? && Released(f, at.value),
      CommitTookEffect(f, at),
      at.None? || AccountCreated(w, d, f, at.value),
      at.None? || AccountLeft(w, d, f, at.value))
  }

  lemma CommittedIsRegistrable(w: World, d: Spec.Registration, f: Faults, at: Option<Step>, category: Id)
    requires Ended(w, d, f, at, FindByEmail, Rollback) && CommitTookEffect(f, at) && f.mint.Minted?
    requires PickedCategory(w.db, d.category, Some(category))
    ensures Spec.Registrable(w.db, d, f.mint.urn, category)
  {
    assert !Fails(w, d, f, EmailFree) && !Fails(w, d, f, NameFree) && !Fails(w, d, f, SaveCompany)
        && !Fails(w, d, f, FindUser);
    hide Reached;
  }

  lemma MintWhenNeeded(w: World, d: Spec.Registration, f: Faults, at: Option<Step>)
    requires Ended(w, d, f, at, FindByEmail, Rollback)
    ensures at.None? || Rank(at.value) > Rank(MintId) ==> f.mint.Minted?
    ensures at == Some(MintId) ==> !f.mint.Minted?
    ensures at.Some? && Rank(at.value) == Rank(MintId) ==> at == Some(MintId)
  {
    assert Fails(w, d, f, MintId) <==> !f.mint.Minted?;
    if at.Some? && Rank(at.value) == Rank(MintId) {
      RankIsInjective(at.value, MintId);
    }
  }

  /** Seen from outside it is one step of the registry: rows, ICID, account and attributes. */
  lemma SettledIsStep(w: World, w': World, d: Spec.Registration, f: Faults, at: Option<Step>, ids: Spec.NewIds,
      category: Id)
    requires Ended(w, d, f, at, FindByEmail, Rollback) && Settled(w, w', d, f, at, ids, category)
    ensures Spec.CreateCompany(w, d, CourseOf(w, d, f, at), w', at.None?)
  {
    var course, hookRows := CourseOf(w, d, f, at), if f.hookBound then f.hookRows else {};
    MintWhenNeeded(w, d, f, at);
    if CommitTookEffect(f, at) {
      CommittedIsRegistrable(w, d, f, at, category);
    }
    CourseIcid(w, w', d, f, at, ids, category);
    CourseAccount(w, w', d, f, at, ids, category);
    hide Ended, Spec.Registered, Spec.Registrable, IcidAfter, AccountLeft, AccountCreated, Released,
        Spec.IcidAfterCourse;
    assert Spec.CreateCompanyWith(w, d, course, w', ids, category, hookRows);
  }

  lemma CourseIcid(w: World, w': World, d: Spec.Registration, f: Faults, at: Option<Step>, ids: Spec.NewIds,
      category: Id)
    requires Ended(w, d, f, at, FindByEmail, Rollback) && Settled(w, w', d, f, at, ids, category)
    ensures w'.icid == Spec.IcidAfterCourse(w.icid, CourseOf(w, d, f, at))
  {
    MintWhenNeeded(w, d, f, at);
    hide Ended, RowsAsEnded, AccountLeft, AccountCreated;
    if f.mint.Minted? {
      var entry := CompanyUrn(f.mint.urn);
      assert (w.icid + {entry}) - {entry} == w.icid - {entry};
    }
  }

  lemma CourseAccount(w: World, w': World, d: Spec.Registration, f: Faults, at: Option<Step>, ids: Spec.NewIds,
      category: Id)
    requires Ended(w, d, f, at, FindByEmail, Rollback) && Settled(w, w', d, f, at, ids, category)
    ensures var course := CourseOf(w, d, f, at);
      && (course.account ==> course.stamped)
      && (course.stamped || course.committed ==> course.mint == Some(f.mint.urn) && f.mint.Minted?)
      && (at.None? ==> course == Spec.Course(course.mint, false, true, true, true))
  {
    MintWhenNeeded(w, d, f, at);
    hide Ended, RowsAsEnded, IcidAfter;
  }

  /** The calls of the try block whose only failure is to throw. */
  const PLAIN_CALLS :=
    {FindByEmail, FindByName, StartTransaction, SaveCompany, FindCategory, SaveMapping, SaveGroups, FindUser, SaveUser,
     FindAdminGroup, SaveGrant, Commit}

  /** No call of the try block throws, and the world has room for the company, its admin and the account. */
  ghost predicate NothingInTheWay(w: World, d: Spec.Registration, f: Faults) {
    && f.throws !! PLAIN_CALLS && !(f.hookBound && RunHook in f.throws)
    && f.countryKnown && f.mint.Minted? && f.account == Spec.Created
    && d.email !in w.keycloak
    && (forall k | k in w.db.companies ::
        && w.db.companies[k].email != d.email && w.db.companies[k].name != d.name
        && w.db.companies[k].ifricId != f.mint.urn)
    && (forall u | u in w.db.users :: w.db.users[u].email != d.email)
    && exists category :: category in w.db.categories && w.db.categories[category] == d.category
  }

  /**
   The call succeeds exactly when no call throws, ICID mints an id, no company
   has the address, the name or the id, no user has the address, the category
   is there and the address has no account.
   */
  lemma AcceptedExactly(w: World, d: Spec.Registration, f: Faults, at: Option<Step>)
    requires Ended(w, d, f, at, FindByEmail, Rollback)
    ensures at.None? <==> NothingInTheWay(w, d, f)
  {
    PassesExactly(w, d, f);
    hide Fails, NothingInTheWay;
  }

  lemma PassesExactly(w: World, d: Spec.Registration, f: Faults)
    ensures Reached(w, d, f, Rollback) <==> NothingInTheWay(w, d, f)
  {
    hide Fails, NothingInTheWay;
    if Reached(w, d, f, Rollback) {
      AcceptedNeeds(w, d, f);
    }
    if NothingInTheWay(w, d, f) {
      forall t: Step | InTry(t) ensures !Fails(w, d, f, t) {
        NothingFails(w, d, f, t);
      }
    }
  }

  lemma AcceptedNeeds(w: World, d: Spec.Registration, f: Faults)
    requires Reached(w, d, f, Rollback)
    ensures NothingInTheWay(w, d, f)
  {
    assert !Fails(w, d, f, MintId) && !Fails(w, d, f, CountryKnown) && !Fails(w, d, f, CreateAccount)
        && !Fails(w, d, f, RunHook);
    forall s | s in PLAIN_CALLS ensures s !in f.throws {
      assert !Fails(w, d, f, s);
    }
    assert !Fails(w, d, f, FindCategory);
    var category :| category in w.db.categories && w.db.categories[category] == d.category;
    CommittedIsRegistrable(w, d, f, None, category);
  }

  lemma NothingFails(w: World, d: Spec.Registration, f: Faults, t: Step)
    requires NothingInTheWay(w, d, f) && InTry(t)
    ensures !Fails(w, d, f, t)
  {
  }

  /** ICID's balance is even exactly when nothing of its own was taken from it and nothing of the call's is left. */
  lemma IcidIsEven(w: World, d: Spec.Registration, f: Faults, s: Step)
    requires FailsFirst(w, d, f, s)
    ensures IcidAfter(w, f, s) == w.icid <==> IcidComesOutEven(w, f, s)
  {
    MintAsRanked(w, d, f, s);
    if Rank(s) == Rank(MintId) { RankIsInjective(s, MintId); }
    hide Reached, Fails;
    if !f.mint.MintRefused? {
      var entry := CompanyUrn(f.mint.urn);
      assert entry in w.icid + {entry} && entry !in (w.icid + {entry}) - {entry};
      if entry in w.icid {
        assert w.icid + {entry} == w.icid;
      } else {
        assert (w.icid + {entry}) - {entry} == w.icid;
      }
    }
  }

  /**
   What the catch block can do about an account: it is left if it was created
   and not removed again, or created behind a lost reply.
   */
  lemma AccountLeftExactly(w: World, d: Spec.Registration, f: Faults, s: Step)
    ensures AccountLeft(w, d, f, s) <==>
      if Rank(s) > Rank(CreateAccount)
          then Rollback in f.throws || (DeleteAccount in f.throws && DeleteAccount !in f.lost)
      else s == CreateAccount && f.account == Spec.CreatedThenThrew && d.email !in w.keycloak
  {
  }

  /** The catch block gets past the rollback unless one is due, the transaction being active, and throws. */
  lemma CompensatesExactly(f: Faults, s: Step)
    ensures Compensates(f, s) <==>
      (Rank(s) > Rank(StartTransaction) || (s == StartTransaction && f.startLeavesActive) ==> Rollback !in f.throws)
  {
  }

  /** An id is given back if it was answered, no rollback that is due throws, and the release takes effect. */
  lemma ReleasedExactly(f: Faults, s: Step)
    ensures Released(f, s) <==>
      && Rank(s) > Rank(MintId)
      && (ReleaseId in f.throws ==> ReleaseId in f.lost)
      && (Rank(s) > Rank(StartTransaction) || (s == StartTransaction && f.startLeavesActive) ==> Rollback !in f.throws)
  {
  }

  /**
   All or nothing: a failed call leaves database, Keycloak and ICID as they
   were exactly when no commit took effect behind a lost reply, no account is
   left, and an id was released if and only if ICID did not have it before.
   */
  lemma AllOrNothing(w: World, w': World, d: Spec.Registration, f: Faults, s: Step, ids: Spec.NewIds, category: Id)
    requires w.db.companies.Keys <= w.issued && FailsFirst(w, d, f, s) && Settled(w, w', d, f, Some(s), ids, category)
    ensures w'.db == w.db && w'.keycloak == w.keycloak && w'.icid == w.icid <==>
      && !(s == Commit && Commit in f.lost)
      && !(Rank(s) > Rank(CreateAccount)
          && (Rollback in f.throws || (DeleteAccount in f.throws && DeleteAccount !in f.lost)))
      && !(s == CreateAccount && f.account == Spec.CreatedThenThrew && d.email !in w.keycloak)
      && (if Rank(s) < Rank(MintId) || f.mint.MintRefused? then true
          else if Released(f, s) then CompanyUrn(f.mint.urn) !in w.icid
          else CompanyUrn(f.mint.urn) in w.icid)
    ensures w'.db == w.db && w'.keycloak == w.keycloak && w'.icid == w.icid <==> Restores(w, d, f, s)
  {
    IcidIsEven(w, d, f, s);
    AccountLeftExactly(w, d, f, s);
    RowsAndAccountKept(w, w', d, f, s, ids, category);
    hide FailsFirst, AccountLeft, Released;
  }

  lemma RowsAndAccountKept(w: World, w': World, d: Spec.Registration, f: Faults, s: Step, ids: Spec.NewIds,
      category: Id)
    requires w.db.companies.Keys <= w.issued && Settled(w, w', d, f, Some(s), ids, category)
    ensures w'.db == w.db <==> !CommitTookEffect(f, Some(s))
    ensures w'.keycloak == w.keycloak <==> !AccountLeft(w, d, f, s)
  {
    if CommitTookEffect(f, Some(s)) {
      assert ids.company in w'.db.companies && ids.company !in w.db.companies;
    }
    if AccountLeft(w, d, f, s) {
      assert d.email in w'.keycloak && d.email !in w.keycloak;
    }
    hide Spec.Registered, AccountLeft, IcidAfter;
  }

  /**
   Under the conditions the code relies on, wherever the call fails everything
   is restored and the first error is the one reported.
   */
  lemma OrdinaryFailureRestores(w: World, d: Spec.Registration, f: Faults, s: Step)
    requires FailsFirst(w, d, f, s)
    requires Rollback !in f.throws && DeleteAccount !in f.throws && ReleaseId !in f.throws
    requires Commit !in f.lost && f.account != Spec.CreatedThenThrew && !f.mint.MintedThenThrew?
    requires f.mint.Minted? ==> CompanyUrn(f.mint.urn) !in w.icid
    ensures Restores(w, d, f, s) && Reported(f, s) == s
  {
    MintAsRanked(w, d, f, s);
    if Rank(s) == Rank(MintId) { RankIsInjective(s, MintId); }
    hide Reached, Fails;
  }

  /**
   The caller is told the first error exactly when no rollback that is needed
   throws and no release that is tried does.
   */
  lemma FirstErrorReportedExactly(f: Faults, s: Step)
    requires InTry(s)
    ensures Reported(f, s) == s <==>
      && (Rank(s) > Rank(StartTransaction) || (s == StartTransaction && f.startLeavesActive) ==> Rollback !in f.throws)
      && (Rank(s) > Rank(MintId) ==> ReleaseId !in f.throws)
  {
  }

  /** Only steps of the try block go by the world, and only by its rows and accounts. */
  lemma FailsByRowsAndAccount(w: World, w': World, d: Spec.Registration, g: Faults, t: Step)
    requires w'.db == w.db && (d.email in w'.keycloak <==> d.email in w.keycloak)
    ensures Fails(w', d, g, t) <==> Fails(w, d, g, t)
  {
  }

  lemma SameTests(w: World, w': World, d: Spec.Registration, g: Faults)
    requires w'.db == w.db && w'.keycloak == w.keycloak
    ensures Reached(w', d, g, Rollback) <==> Reached(w, d, g, Rollback)
  {
    hide Fails;
    forall t: Step ensures Fails(w', d, g, t) <==> Fails(w, d, g, t) {
      FailsByRowsAndAccount(w, w', d, g, t);
    }
  }

  /**
   Why the catch block exists: after any failure, a second attempt succeeds
   exactly when it would have succeeded in the first one's place and the first
   one left neither its account nor, behind a lost reply, its rows.
   */
  lemma RetrySucceedsExactly(w: World, w': World, d: Spec.Registration, f: Faults, s: Step, ids: Spec.NewIds,
      category: Id, g: Faults)
    requires w.db.companies.Keys <= w.issued && Settled(w, w', d, f, Some(s), ids, category)
    ensures NothingInTheWay(w', d, g) <==>
      !AccountLeft(w, d, f, s) && !CommitTookEffect(f, Some(s)) && NothingInTheWay(w, d, g)
  {
    RowsAndAccountKept(w, w', d, f, s, ids, category);
    if CommitTookEffect(f, Some(s)) || AccountLeft(w, d, f, s) {
      LeftoversAreInTheWay(w, w', d, f, s, ids, category, g);
    } else {
      PassesExactly(w, d, g);
      PassesExactly(w', d, g);
      hide NothingInTheWay, Settled, AccountLeft;
      SameTests(w, w', d, g);
    }
  }

  /** A company row meets the retry at its first test; an account at the call that would create it. */
  lemma LeftoversAreInTheWay(w: World, w': World, d: Spec.Registration, f: Faults, s: Step, ids: Spec.NewIds,
      category: Id, g: Faults)
    requires Settled(w, w', d, f, Some(s), ids, category) && (CommitTookEffect(f, Some(s)) || AccountLeft(w, d, f, s))
    ensures !NothingInTheWay(w', d, g)
  {
    if CommitTookEffect(f, Some(s)) {
      assert w'.db.companies[ids.company].email == d.email;
      hide AccountLeft, AccountCreated, IcidAfter;
    } else {
      assert d.email in w'.keycloak;
      hide Spec.Registrable;
    }
  }

  /** Whatever fails, an account that existed before the call is still there, with the same attributes. */
  lemma ExistingAccountsSurvive(w: World, w': World, d: Spec.Registration, f: Faults, at: Option<Step>,
      ids: Spec.NewIds, category: Id, email: string)
    requires Settled(w, w', d, f, at, ids, category) && email in w.keycloak
    ensures email in w'.keycloak && w'.keycloak[email] == w.keycloak[email]
  {
  }

  lemma FirstFailureIsUnique(w: World, d: Spec.Registration, f: Faults, s: Step, t: Step)
    requires FailsFirst(w, d, f, s) && FailsFirst(w, d, f, t)
    ensures s == t
  {
    hide Fails;
    if Rank(s) == Rank(t) {
      RankIsInjective(s, t);
    }
  }

  /**
   Two runs that differ only in whether the hook's and the account's cleanup
   fail end alike: at the same step, with the same answer.
   */
  lemma CleanupNeverMasks(w: World, d: Spec.Registration, f: Faults, g: Faults, at: Option<Step>, at': Option<Step>)
    requires f.throws - {UndoHook, DeleteAccount} == g.throws - {UndoHook, DeleteAccount}
    requires f.(throws := {}, lost := {}) == g.(throws := {}, lost := {})
    requires Ended(w, d, f, at, FindByEmail, Rollback) && Ended(w, d, g, at', FindByEmail, Rollback)
    ensures at == at'
    ensures at.Some? ==> Reported(f, at.value) == Reported(g, at.value)
  {
    SameFaults(w, d, f, g);
    hide Fails;
    if at.Some? {
      assert FailsFirst(w, d, g, at.value);
      if at'.Some? { FirstFailureIsUnique(w, d, g, at.value, at'.value); }
    }
  }

  lemma SameFaults(w: World, d: Spec.Registration, f: Faults, g: Faults)
    requires f.throws - {UndoHook, DeleteAccount} == g.throws - {UndoHook, DeleteAccount}
    requires f.(throws := {}, lost := {}) == g.(throws := {}, lost := {})
    ensures forall s: Step | Rank(s) < Rank(Rollback) :: Fails(w, d, f, s) <==> Fails(w, d, g, s)
    ensures forall s: Step :: Reported(f, s) == Reported(g, s)
  {
    assert f.(throws := {}, lost := {}).countryKnown == f.countryKnown;
    forall s: Step | s != UndoHook && s != DeleteAccount ensures s in f.throws <==> s in g.throws {
      assert s in f.throws <==> s in f.throws - {UndoHook, DeleteAccount};
    }
  }

  // ----- where the cleanup falls short -----

  function EmptyRegistry(): World {
    World(
      Tables(map[], map[], map[], map[], map[], map[1 := "user"], map[], map[], map[], map[], {}),
      map[], {}, {1}, {})
  }

  function Somebody(): Spec.Registration {
    Spec.Registration("A", "a@x", Profile("", "", "", "", "", None, ""), "Ada", "user")
  }

  function Throwing(steps: set<Step>): Faults {
    Faults(steps, true, Spec.Minted("urn:a"), Spec.Created, false, {}, {}, false)
  }

  lemma EmptyRegistryIsConsistent()
    ensures Inv(EmptyRegistry())
  {
  }

  /** Nothing but these calls fails in the empty registry. */
  lemma FailsWhatThrows(steps: set<Step>, s: Step)
    requires s != MintId && s != CountryKnown && s != CreateAccount && s != EmailFree && s != NameFree && s != RunHook
    ensures Fails(EmptyRegistry(), Somebody(), Throwing(steps), s) <==> s in steps
  {
    assert PickedCategory(EmptyRegistry().db, Somebody().category, Some(1));
  }

  lemma FailsFirstIn(steps: set<Step>, s: Step)
    requires s in PLAIN_CALLS && s in steps && forall t | t in steps :: Rank(t) >= Rank(s)
    ensures FailsFirst(EmptyRegistry(), Somebody(), Throwing(steps), s)
  {
    FailsWhatThrows(steps, s);
    forall t: Step | Rank(t) < Rank(s) ensures !Fails(EmptyRegistry(), Somebody(), Throwing(steps), t) {
      if t != MintId && t != CountryKnown && t != CreateAccount && t != EmailFree && t != NameFree && t != RunHook {
        FailsWhatThrows(steps, t);
      }
    }
  }

  /** A failure before the account is created, and without a commit, can only have touched ICID. */
  lemma SettledWithoutAccount(w: World, d: Spec.Registration, f: Faults, s: Step, ids: Spec.NewIds, category: Id)
    requires Rank(s) < Rank(CreateAccount)
    ensures Settled(w, w.(icid := IcidAfter(w, f, s)), d, f, Some(s), ids, category)
  {
    assert !AccountLeft(w, d, f, s) && !AccountCreated(w, d, f, s);
  }

  /** Saving the company throws, and so does releasing the id: the caller is told of the release, and the id stays. */
  lemma FailedReleaseMasks() returns (w': World)
    ensures var w, d, f := EmptyRegistry(), Somebody(), Throwing({SaveCompany, ReleaseId});
      && Inv(w) && FailsFirst(w, d, f, SaveCompany)
      && Settled(w, w', d, f, Some(SaveCompany), Spec.NewIds(0, 0, 0, 0, 0, 0), 1)
      && Reported(f, SaveCompany) == ReleaseId && w'.icid == w.icid + {CompanyUrn("urn:a")} != w.icid
  {
    EmptyRegistryIsConsistent();
    var w, d, f := EmptyRegistry(), Somebody(), Throwing({SaveCompany, ReleaseId});
    FailsFirstIn({SaveCompany, ReleaseId}, SaveCompany);
    SettledWithoutAccount(w, d, f, SaveCompany, Spec.NewIds(0, 0, 0, 0, 0, 0), 1);
    assert w.icid == {};
    hide Inv, FailsFirst, Settled, EmptyRegistry;
    w' := w.(icid := IcidAfter(w, f, SaveCompany));
    assert CompanyUrn("urn:a") in w'.icid;
  }

  /**
   Saving the user throws, and so does the rollback: the caller is told of the
   rollback, and both the id and the account stay.
   */
  lemma FailedRollbackMasks() returns (w': World)
    ensures var w, d, f := EmptyRegistry(), Somebody(), Throwing({SaveUser, Rollback});
      && Inv(w) && FailsFirst(w, d, f, SaveUser)
      && Settled(w, w', d, f, Some(SaveUser), Spec.NewIds(0, 0, 0, 0, 2, 0), 1)
      && Reported(f, SaveUser) == Rollback
      && w'.icid == w.icid + {CompanyUrn("urn:a")} != w.icid && d.email in w'.keycloak && d.email !in w.keycloak
  {
    EmptyRegistryIsConsistent();
    SaveUserFailsFirst();
    hide Inv, FailsFirst;
    var w, d, f := EmptyRegistry(), Somebody(), Throwing({SaveUser, Rollback});
    NothingIsCompensated();
    assert d.email !in w.keycloak && 2 !in w.issued;
    assert Rank(CreateAccount) < Rank(SaveUser) < Rank(Commit) && f.mint == Spec.Minted("urn:a");
    hide AccountLeft, IcidAfter, Reported, Settled, EmptyRegistry, Throwing, Rank, Fails, Reached;
    var ids := Spec.NewIds(0, 0, 0, 0, 2, 0);
    SettledWithAccount(w, d, f, SaveUser, ids, 1);
    w' := WithAccount(w, d, f, SaveUser, 2);
  }

  lemma SaveUserFailsFirst()
    ensures FailsFirst(EmptyRegistry(), Somebody(), Throwing({SaveUser, Rollback}), SaveUser)
  {
    FailsFirstIn({SaveUser, Rollback}, SaveUser);
  }

  lemma NothingIsCompensated()
    ensures var w, f := EmptyRegistry(), Throwing({SaveUser, Rollback});
      && AccountLeft(w, Somebody(), f, SaveUser) && Reported(f, SaveUser) == Rollback
      && IcidAfter(w, f, SaveUser) == w.icid + {CompanyUrn("urn:a")} != w.icid
  {
    assert CompanyUrn("urn:a") in EmptyRegistry().icid + {CompanyUrn("urn:a")};
  }

  /** The world after a failure that left the account behind, with `userId` handed out for it. */
  function WithAccount(w: World, d: Spec.Registration, f: Faults, s: Step, userId: Id): World
    requires f.mint.Minted?
  {
    var identity := Identity(f.mint.urn, userId);
    World(w.db, w.keycloak[d.email := identity], IcidAfter(w, f, s), w.issued + {userId}, w.stamped + {identity})
  }

  lemma SettledWithAccount(w: World, d: Spec.Registration, f: Faults, s: Step, ids: Spec.NewIds, category: Id)
    requires f.mint.Minted? && Rank(CreateAccount) < Rank(s) < Rank(Commit) && AccountLeft(w, d, f, s)
    requires d.email !in w.keycloak && ids.user !in w.issued
    ensures Settled(w, WithAccount(w, d, f, s, ids.user), d, f, Some(s), ids, category)
  {
    hide IcidAfter, AccountLeft;
  }
}
