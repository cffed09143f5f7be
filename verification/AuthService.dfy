/** Models the writes of backend/src/endpoints/auth/auth.service.ts, one statement after the other. */
module AuthService {
  import opened Wrappers
  import opened Tables
  import opened AccessControl
  import Spec = RegistrySpec
  import opened RegistryInvariants
  import opened Registry

  method CreateCompanyUser(store: Store, c: Claims, q: Spec.UserRequest, f: Spec.UserFaults) returns (r: Outcome)
    requires store.Valid()
    modifies store
    ensures store.Valid()
    ensures Spec.CreateCompanyUser(old(store.Snapshot()), c, q, f, store.Snapshot(), r)
  {
    hide Inv, Spec.UserProvisioned, Authorised;
    ghost var w := store.Snapshot();
    if !Authorised(store.db, c, q.ifricId, Create) { return Forbidden; }
    if EmailTaken(store.db.users, q.email) { return Conflict; }
    var company := store.CompanyByIfric(q.ifricId);
    if company.None? { return NotFound; }
    ghost var userId, grantId, group;
    r, userId, grantId, group := ProvisionUser(store, company.value, q, f);
    CreateCompanyUserKeepsInv(w, c, q, f, store.Snapshot(), r);
  }

  /** From the generated id to the end, and the catch block, which undoes the account but no row. */
  method ProvisionUser(store: Store, companyId: Id, q: Spec.UserRequest, f: Spec.UserFaults)
    returns (r: Outcome, ghost userId: Id, ghost grantId: Id, ghost group: Option<Id>)
    requires store.Counting()
    modifies store
    ensures store.Counting()
    ensures Spec.UserProvisioned(old(store.Snapshot()), companyId, q, f, store.Snapshot(), r, userId, grantId, group)
    ensures r == Done || r == Failed
  {
    var keycloakUserEmail: Option<string> := None;
    r := Failed;
    var newUserId := store.GenerateId();
    userId, grantId, group := newUserId, newUserId, AnyGroup(store.db, companyId, q.role);
    var created := store.CreateIdentity(q.email, Identity(q.ifricId, newUserId), f.identity);
    if created {
      keycloakUserEmail := Some(q.email);
      if !f.saveUserThrows {
        store.db := store.db.(users := store.db.users[newUserId := CompanyUser(companyId, q.email, q.name, "")]);
        var accessGroup := store.GroupByName(companyId, q.role);
        group := accessGroup;
        if accessGroup.None? {
          r := Done;
        } else if !f.saveGrantThrows {
          var newGrantId := store.GenerateId();
          grantId := newGrantId;
          store.db := store.db.(grants := store.db.grants[newGrantId := Grant(newUserId, accessGroup.value)]);
          r := Done;
        }
      }
    }
    if r == Failed && keycloakUserEmail.Some? {
      store.DeleteIdentity(keycloakUserEmail.value, f.cleanup == Spec.HadNoEffect);
    }
  }

  method UpdateUserAccessGroup(store: Store, c: Claims, userId: Id, role: string) returns (r: Outcome)
    requires store.Valid()
    modifies store
    ensures store.Valid()
    ensures Spec.UpdateUserAccessGroup(old(store.Snapshot()), c, userId, role, store.Snapshot(), r)
  {
    hide Inv, Authorised;
    ghost var w := store.Snapshot();
    if userId !in store.db.users { return NotFound; }
    var companyId := store.db.users[userId].companyId;
    if !Authorised(store.db, c, OwnerIfric(store.db, companyId), Update) { return Forbidden; }
    var accessGroup := store.GroupByName(companyId, role);
    ghost var grantId := 0;
    if accessGroup.Some? {
      var newId := store.GenerateId();
      grantId := newId;
      store.db := store.db.(grants := Spec.UpsertGrant(store.db.grants, newId, userId, accessGroup.value));
    }
    r := Done;
    assert Spec.RoleSet(w, userId, role, store.Snapshot(), grantId, accessGroup);
    UpdateUserAccessGroupKeepsInv(w, c, userId, role, store.Snapshot(), r);
  }

  method UpdateCompanyUser(store: Store, c: Claims, p: Spec.UserPatch, f: Spec.UserPatchFaults) returns (r: Outcome)
    requires store.Valid()
    modifies store
    ensures store.Valid()
    ensures Spec.UpdateCompanyUser(old(store.Snapshot()), c, p, f, store.Snapshot(), r)
  {
    hide Inv, HasPermission, Spec.ChangeEmail;
    ghost var w := store.Snapshot();
    var company := store.CompanyByIfric(p.ifricId);
    if company.None? { return NotFound; }
    if !IsOwnCompany(c, p.ifricId) { return Forbidden; }
    if p.userId !in store.db.users { return NotFound; }
    if store.db.users[p.userId].companyId != company.value { return NotFound; }
    if c.userId != Some(p.userId) && !HasPermission(store.db, c, Update) { return Forbidden; }
    if f.passwordRefused { return BadRequest; }
    r := Done;
    if p.email != "" {
      r := ChangeEmail(store, company.value, p.userId, p.email, f.setEmail);
    }
    if r == Done {
      SetUserProfile(store, p.userId, p.name, p.image);
    }
    hide Spec.UserProfileSet;
    UpdateCompanyUserKeepsInv(w, c, p, f, store.Snapshot(), r);
  }

  method SetUserProfile(store: Store, userId: Id, name: string, image: string)
    requires userId in store.db.users
    modifies store`db
    ensures store.db == Spec.UserProfileSet(old(store.db), userId, name, image)
  {
    if name != "" {
      store.db := store.db.(users := store.db.users[userId := store.db.users[userId].(name := name)]);
    }
    if image != "" {
      store.db := store.db.(users := store.db.users[userId := store.db.users[userId].(image := image)]);
    }
  }

  /** Keycloak's record first: a later clash in a unique column does not take it back. */
  method ChangeEmail(store: Store, companyId: Id, userId: Id, email: string, call: Spec.AccountCall)
      returns (r: Outcome)
    requires companyId in store.db.companies && userId in store.db.users
    modifies store`db, store`keycloak
    ensures (store.Snapshot(), r) == Spec.ChangeEmail(old(store.Snapshot()), companyId, userId, email, call)
    ensures userId in store.db.users
  {
    hide Spec.EmailRows;
    var oldEmail := store.db.users[userId].email;
    if oldEmail !in store.keycloak { return NotFound; }
    if call == Spec.HadNoEffect || (email != oldEmail && email in store.keycloak) { return Failed; }
    store.keycloak := (store.keycloak - {oldEmail})[email := store.keycloak[oldEmail]];
    if call == Spec.TookEffectThenThrew { return Failed; }
    r := ChangeEmailRows(store, companyId, userId, email);
  }

  /** Then the company row, when the user is its contact, and the user row. */
  method ChangeEmailRows(store: Store, companyId: Id, userId: Id, email: string) returns (r: Outcome)
    requires companyId in store.db.companies && userId in store.db.users
    modifies store`db
    ensures (store.db, r) == Spec.EmailRows(old(store.db), companyId, userId, email)
    ensures userId in store.db.users
  {
    hide Spec.CompanyEmailClash, Spec.UserEmailClash, Spec.UserEmailSet;
    r := Done;
    if Spec.IsContact(store.db, companyId, userId) {
      if Spec.CompanyEmailClash(store.db.companies, companyId, email) {
        r := Failed;
      } else {
        var company := store.db.companies[companyId].(email := email);
        store.db := store.db.(companies := store.db.companies[companyId := company]);
      }
    }
    if r == Done {
      r := SetUserEmail(store, userId, email);
    }
  }

  method SetUserEmail(store: Store, userId: Id, email: string) returns (r: Outcome)
    requires userId in store.db.users
    modifies store`db
    ensures r == if Spec.UserEmailClash(old(store.db.users), userId, email) then Failed else Done
    ensures store.db == if r == Done then Spec.UserEmailSet(old(store.db), userId, email) else old(store.db)
    ensures userId in store.db.users
  {
    if Spec.UserEmailClash(store.db.users, userId, email) { return Failed; }
    store.db := store.db.(users := store.db.users[userId := store.db.users[userId].(email := email)]);
    r := Done;
  }

  method DeleteCompanyUser(store: Store, c: Claims, userId: Id, removal: Spec.AccountCall) returns (r: Outcome)
    requires store.Valid()
    modifies store
    ensures store.Valid()
    ensures Spec.DeleteCompanyUser(old(store.Snapshot()), c, userId, removal, store.Snapshot(), r)
  {
    hide Inv, HasPermission;
    ghost var w := store.Snapshot();
    if userId in store.db.users {
      if !Authorised(store.db, c, OwnerIfric(store.db, store.db.users[userId].companyId), Delete) { return Forbidden; }
      store.DeleteIdentity(store.db.users[userId].email, removal == Spec.HadNoEffect);
      if removal != Spec.TookEffect {
        DeleteCompanyUserKeepsInv(w, c, userId, removal, store.Snapshot(), Failed);
        return Failed;
      }
    }
    store.db := store.db.(grants := Spec.GrantsWithout(store.db.grants, {userId}));
    store.db := store.db.(users := store.db.users - {userId});
    r := Done;
    DeleteCompanyUserKeepsInv(w, c, userId, removal, store.Snapshot(), r);
  }
}
