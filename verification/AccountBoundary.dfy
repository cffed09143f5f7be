/**
 Whose Keycloak accounts a request can change. Accounts are found by address,
 not by company, so the boundary that holds for rows can be crossed for them;
 this module says exactly when.
 */
module AccountBoundary {
  import opened Wrappers
  import opened Tables
  import opened AccessControl
  import opened RegistrySpec
  import opened RegistryInvariants
  import opened RegistryGuarantees

  /** No account stamped with another company's id was changed, removed or added. */
  ghost predicate AccountsKept(w: World, w': World, own: string) {
    && (forall e | e in w.keycloak && w.keycloak[e].ifricId != own ::
        e in w'.keycloak && w'.keycloak[e] == w.keycloak[e])
    && (forall e | e in w'.keycloak && w'.keycloak[e].ifricId != own ::
        e in w.keycloak && w.keycloak[e] == w'.keycloak[e])
  }

  lemma SameAccountsKept(w: World, w': World, own: string)
    requires w'.keycloak == w.keycloak
    ensures AccountsKept(w, w', own)
  {
  }

  // ----- deleteCompanyUser -----

  /** The request gets as far as removing the account of this address. */
  ghost predicate RemovesAccount(w: World, c: Claims, userId: Id, removal: AccountCall) {
    && userId in w.db.users && Authorised(w.db, c, OwnerIfric(w.db, w.db.users[userId].companyId), Delete)
    && removal != HadNoEffect && w.db.users[userId].email in w.keycloak
  }

  lemma DeleteCompanyUserAccounts(w: World, c: Claims, userId: Id, removal: AccountCall, w': World, r: Outcome)
    requires DeleteCompanyUser(w, c, userId, removal, w', r)
    ensures AccountsKept(w, w', CallerCompany(c)) <==>
      (RemovesAccount(w, c, userId, removal) ==> w.keycloak[w.db.users[userId].email].ifricId == CallerCompany(c))
  {
    hide Authorised, OwnerIfric, GrantsWithout;
    if RemovesAccount(w, c, userId, removal) {
      assert w'.keycloak == w.keycloak - {w.db.users[userId].email};
    } else if userId in w.db.users {
      assert w.db.users[userId].email !in w.keycloak ==> w.keycloak - {w.db.users[userId].email} == w.keycloak;
      assert w'.keycloak == w.keycloak;
    }
  }

  // ----- updateCompanyUser -----

  /** The request gets as far as moving the account of the user's address to another one. */
  ghost predicate RenamesAccount(w: World, c: Claims, p: UserPatch, f: UserPatchFaults) {
    && FindCompany(w.db, p.ifricId).Some? && IsOwnCompany(c, p.ifricId)
    && p.userId in w.db.users && w.db.users[p.userId].companyId == FindCompany(w.db, p.ifricId).value
    && (c.userId == Some(p.userId) || HasPermission(w.db, c, Update)) && !f.passwordRefused
    && var oldEmail := w.db.users[p.userId].email;
       p.email != "" && p.email != oldEmail && oldEmail in w.keycloak && f.setEmail != HadNoEffect
           && p.email !in w.keycloak
  }

  lemma RenamedAccount(w: World, w': World, oldEmail: string, email: string, own: string)
    requires oldEmail in w.keycloak && email !in w.keycloak
    requires w'.keycloak == (w.keycloak - {oldEmail})[email := w.keycloak[oldEmail]]
    ensures AccountsKept(w, w', own) <==> w.keycloak[oldEmail].ifricId == own
  {
    assert oldEmail !in w'.keycloak;
  }

  lemma UpdateCompanyUserKeycloak(w: World, c: Claims, p: UserPatch, f: UserPatchFaults, w': World, r: Outcome)
    requires UpdateCompanyUser(w, c, p, f, w', r)
    ensures RenamesAccount(w, c, p, f) ==>
              var oldEmail := w.db.users[p.userId].email;
              w'.keycloak == (w.keycloak - {oldEmail})[p.email := w.keycloak[oldEmail]]
    ensures !RenamesAccount(w, c, p, f) ==> w'.keycloak == w.keycloak
  {
    hide FindCompany, HasPermission, EmailRows, UserProfileSet;
    if p.userId in w.db.users && p.email == w.db.users[p.userId].email && p.email in w.keycloak {
      assert (w.keycloak - {p.email})[p.email := w.keycloak[p.email]] == w.keycloak;
    }
  }

  lemma UpdateCompanyUserAccounts(w: World, c: Claims, p: UserPatch, f: UserPatchFaults, w': World, r: Outcome)
    requires UpdateCompanyUser(w, c, p, f, w', r)
    ensures AccountsKept(w, w', CallerCompany(c)) <==>
      (RenamesAccount(w, c, p, f) ==> w.keycloak[w.db.users[p.userId].email].ifricId == CallerCompany(c))
  {
    UpdateCompanyUserKeycloak(w, c, p, f, w', r);
    hide UpdateCompanyUser;
    if RenamesAccount(w, c, p, f) {
      RenamedAccount(w, w', w.db.users[p.userId].email, p.email, CallerCompany(c));
    } else {
      SameAccountsKept(w, w', CallerCompany(c));
    }
  }

  // ----- every other request -----

  lemma CreateCompanyUserAccounts(w: World, c: Claims, q: UserRequest, f: UserFaults, w': World, r: Outcome)
    requires CreateCompanyUser(w, c, q, f, w', r)
    ensures AccountsKept(w, w', CallerCompany(c))
  {
    hide FindCompany, HasPermission, EmailTaken;
    if r == Done || r == Failed {
      var k := FindCompany(w.db, q.ifricId).value;
      var userId: Id, grantId: Id, group: Option<Id> :| UserProvisioned(w, k, q, f, w', r, userId, grantId, group);
      hide PickedGroup;
      assert w'.keycloak == w.keycloak
          || (q.email !in w.keycloak && w'.keycloak == w.keycloak[q.email := Identity(q.ifricId, userId)]) by {
        if q.email !in w.keycloak {
          assert w.keycloak[q.email := Identity(q.ifricId, userId)] - {q.email} == w.keycloak;
        }
      }
    }
  }

  lemma CompanyRequestsKeepAccounts(w: World, e: Event, w': World)
    requires Step(w, e, w')
    requires e.request.ReqUpdateCompany? || e.request.ReqDeleteCompany?
    ensures w'.keycloak == w.keycloak
  {
    hide FindCompany, Authorised, CategorySet, CompanyEmailClash, CompanyErased, CompanyPatched;
  }

  lemma GroupRequestsKeepAccounts(w: World, e: Event, w': World)
    requires Step(w, e, w')
    requires e.request.ReqUpdateUserAccessGroup? || e.request.ReqCreateAccessGroup? || e.request.ReqUpdateAccessGroup?
        || e.request.ReqDeleteAccessGroup?
    ensures w'.keycloak == w.keycloak
  {
    hide FindCompany, Authorised, GroupPatched, UpsertGrant, PickedGroup;
  }

  lemma FactoryRequestsKeepAccounts(w: World, e: Event, w': World)
    requires Step(w, e, w')
    requires e.request.ReqCreateFactory? || e.request.ReqDeleteFactory?
    ensures w'.keycloak == w.keycloak
  {
    hide FindCompany, FindFactory, Authorised, FactoryInUse;
  }

  lemma AssetRequestsKeepAccounts(w: World, e: Event, w': World)
    requires Step(w, e, w')
    requires e.request.ReqCreateAsset? || e.request.ReqUpdateAsset? || e.request.ReqDeleteAsset?
        || e.request.ReqDeleteAssets?
    ensures w'.keycloak == w.keycloak
  {
    hide FindCompany, FindFactory, Authorised, HasPermission, ForeignAssetListed, AssetKeyTaken, AssetPatched;
  }

  /** The account of the address the request is about is another company's, and the request removes or moves it. */
  ghost predicate TakesForeignAccount(w: World, e: Event) {
    var own := CallerCompany(e.caller);
    match e.request
    case ReqDeleteCompanyUser(u, removal) =>
      RemovesAccount(w, e.caller, u, removal) && w.keycloak[w.db.users[u].email].ifricId != own
    case ReqUpdateCompanyUser(p, f) =>
      RenamesAccount(w, e.caller, p, f) && w.keycloak[w.db.users[p.userId].email].ifricId != own
    case _ => false
  }

  /** The boundary for accounts: a request other than a registration crosses it in just these two cases. */
  lemma AccountBoundaryExactly(w: World, e: Event, w': World)
    requires Step(w, e, w') && !e.request.ReqCreateCompany?
    ensures AccountsKept(w, w', CallerCompany(e.caller)) <==> !TakesForeignAccount(w, e)
  {
    var c, own := e.caller, CallerCompany(e.caller);
    hide AccountsKept, CreateCompanyUser, UpdateCompanyUser, DeleteCompanyUser, RemovesAccount, RenamesAccount;
    if e.request.ReqCreateCompanyUser? {
      CreateCompanyUserAccounts(w, c, e.request.q, e.request.f, w', e.outcome);
    } else if e.request.ReqUpdateCompanyUser? {
      UpdateCompanyUserAccounts(w, c, e.request.p, e.request.pf, w', e.outcome);
    } else if e.request.ReqDeleteCompanyUser? {
      DeleteCompanyUserAccounts(w, c, e.request.userId, e.request.removal, w', e.outcome);
    } else {
      OtherRequestsKeepAccounts(w, e, w');
      SameAccountsKept(w, w', own);
    }
  }

  lemma OtherRequestsKeepAccounts(w: World, e: Event, w': World)
    requires Step(w, e, w') && !e.request.ReqCreateCompany?
    requires !e.request.ReqCreateCompanyUser? && !e.request.ReqUpdateCompanyUser? && !e.request.ReqDeleteCompanyUser?
    ensures w'.keycloak == w.keycloak
  {
    hide UpdateUserAccessGroup, CreateAccessGroup, UpdateAccessGroup, DeleteAccessGroup, UpdateCompany, DeleteCompany;
    hide CreateFactory, DeleteFactory, CreateAsset, UpdateAsset, DeleteAsset, DeleteAssets;
    if e.request.ReqUpdateCompany? || e.request.ReqDeleteCompany? {
      CompanyRequestsKeepAccounts(w, e, w');
    } else if e.request.ReqCreateFactory? || e.request.ReqDeleteFactory? {
      FactoryRequestsKeepAccounts(w, e, w');
    } else if e.request.ReqUpdateUserAccessGroup? || e.request.ReqCreateAccessGroup? || e.request.ReqUpdateAccessGroup?
              || e.request.ReqDeleteAccessGroup? {
      GroupRequestsKeepAccounts(w, e, w');
    } else {
      AssetRequestsKeepAccounts(w, e, w');
    }
  }

  // ----- a history that crosses it -----

  /** A caller from the dataspace, matched to the company. */
  function ParticipantOf(ifricId: string): Claims {
    Claims(Some(ifricId), None, Some(ifricId), true)
  }

  /** Two companies: the first with a user and its account, the second with a role. */
  function TwoTenants(): World {
    var profile := Profile("", "", "", "", "", None, "");
    World(
      Tables(
        map[1 := Company("ifric:a", "A", "office@a", profile), 2 := Company("ifric:b", "B", "office@b", profile)],
        map[4 := CompanyUser(1, "ada@x", "Ada", "")], map[3 := AccessGroup(2, "user", {Read})],
        map[], map[], map[], map[], map[], map[], map[], {}),
      map["ada@x" := Identity("ifric:a", 4)], {}, {1, 2, 3, 4}, {Identity("ifric:a", 4)})
  }

  /** A row of the second company is left behind, without an account. */
  function RowLeft(): World {
    var w := TwoTenants();
    w.(db := w.db.(users := w.db.users[5 := CompanyUser(2, "bob@x", "Bob", "")]),
       issued := w.issued + {5}, stamped := w.stamped + {Identity("ifric:b", 5)})
  }

  /** The first company's account has moved to that row's address. */
  function AccountMoved(): World {
    RowLeft().(keycloak := map["bob@x" := Identity("ifric:a", 4)])
  }

  function AccountGone(): World {
    var w := AccountMoved();
    w.(keycloak := map[], db := w.db.(users := w.db.users - {5}))
  }

  function Provisioning(): Event {
    Event(
      ReqCreateCompanyUser(UserRequest("ifric:b", "Bob", "bob@x", "user"),
          UserFaults(Created, false, true, TookEffect)),
      ParticipantOf("ifric:b"), Failed)
  }

  function Renaming(): Event {
    Event(
      ReqUpdateCompanyUser(UserPatch("ifric:a", 4, "bob@x", "", ""), UserPatchFaults(false, TookEffect)),
      ParticipantOf("ifric:a"), Failed)
  }

  function Deleting(): Event {
    Event(ReqDeleteCompanyUser(5, TookEffect), ParticipantOf("ifric:b"), Done)
  }

  lemma TwoTenantsAreConsistent()
    ensures Inv(TwoTenants())
  {
    TwoTenantsTables();
    hide TablesInv;
  }

  lemma TwoTenantsTables()
    ensures TablesInv(TwoTenants().db)
  {
    DistinctTenants();
    hide UniqueCompanies;
  }

  lemma DistinctTenants()
    ensures UniqueCompanies(TwoTenants().db.companies)
  {
    assert "ifric:a"[6] == 'a' && "ifric:b"[6] == 'b';
  }

  lemma ProvisioningLeavesRow()
    ensures CreateCompanyUser(
              TwoTenants(), ParticipantOf("ifric:b"), Provisioning().request.q, Provisioning().request.f, RowLeft(),
                  Failed)
  {
    var w, w' := TwoTenants(), RowLeft();
    var q, f := Provisioning().request.q, Provisioning().request.f;
    assert "ifric:a"[6] == 'a' && "ifric:b"[6] == 'b' && "ada@x"[0] == 'a' && "bob@x"[0] == 'b';
    assert w.db.companies[2].ifricId == "ifric:b" && FindCompany(w.db, "ifric:b") == Some(2);
    assert w.keycloak["bob@x" := Identity("ifric:b", 5)] - {"bob@x"} == w.keycloak;
    assert w.db.groups[3].name == "user" && PickedGroup(w.db, 2, "user", Some(3));
    assert !EmailTaken(w.db.users, "bob@x");
    assert ProvisionUser(w, 2, q, f, 5, 6, Some(3)) == (w'.(issued := w.issued), Failed);
    hide ProvisionUser;
    assert UserProvisioned(w, 2, q, f, w', Failed, 5, 6, Some(3));
  }

  lemma RenamingMovesAccount()
    ensures UpdateCompanyUser(
              RowLeft(), ParticipantOf("ifric:a"), Renaming().request.p, Renaming().request.pf, AccountMoved(), Failed)
  {
    var w := RowLeft();
    assert "ifric:a"[6] == 'a' && "ifric:b"[6] == 'b' && "ada@x"[0] == 'a' && "bob@x"[0] == 'b' && "office@a"[0] == 'o';
    assert w.db.companies[1].ifricId == "ifric:a" && FindCompany(w.db, "ifric:a") == Some(1);
    assert w.db.users[5].email == "bob@x" && UserEmailClash(w.db.users, 4, "bob@x");
    assert (w.keycloak - {"ada@x"})["bob@x" := w.keycloak["ada@x"]] == AccountMoved().keycloak;
  }

  lemma DeletingTakesAccount()
    ensures DeleteCompanyUser(AccountMoved(), ParticipantOf("ifric:b"), 5, TookEffect, AccountGone(), Done)
  {
    var w := AccountMoved();
    assert w.db.users[5].email == "bob@x" && OwnerIfric(w.db, 2) == "ifric:b";
    assert w.keycloak - {"bob@x"} == map[];
    assert GrantsWithout(w.db.grants, {5}) == map[];
  }

  /**
   The second company's failed creation leaves a row at an address; a user of
   the first company is renamed to that address, which Keycloak accepts and the
   table does not; deleting the row then removes the first company's account.
   */
  lemma DeletingARowTakesAForeignAccount()
    ensures Inv(TwoTenants())
    ensures Step(TwoTenants(), Provisioning(), RowLeft()) && Step(RowLeft(), Renaming(), AccountMoved())
    ensures Step(AccountMoved(), Deleting(), AccountGone())
    ensures TakesForeignAccount(AccountMoved(), Deleting())
    ensures !AccountsKept(AccountMoved(), AccountGone(), "ifric:b")
    ensures 4 in AccountGone().db.users && forall e :: e !in AccountGone().keycloak
  {
    TwoTenantsAreConsistent();
    ProvisioningLeavesRow();
    RenamingMovesAccount();
    DeletingTakesAccount();
    ForeignAccountIsTaken();
    hide Inv, CreateCompanyUser, UpdateCompanyUser, DeleteCompanyUser, TakesForeignAccount, AccountsKept;
  }

  lemma ForeignAccountIsTaken()
    ensures TakesForeignAccount(AccountMoved(), Deleting())
    ensures !AccountsKept(AccountMoved(), AccountGone(), "ifric:b")
  {
    assert "ifric:a"[6] == 'a' && "ifric:b"[6] == 'b';
    assert "bob@x" in AccountMoved().keycloak && AccountMoved().db.users[5].email == "bob@x";
  }
}
