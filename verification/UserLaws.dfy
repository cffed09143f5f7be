/**
 When each request about users and roles gives which answer, and what it does,
 column by column, in terms of rows alone.
 */
module UserLaws {
  import opened Wrappers
  import opened Tables
  import opened AccessControl
  import opened AccessLaws
  import opened RegistrySpec
  import opened RegistryInvariants

  /** Nothing outside users, grants, accounts and ids handed out. */
  ghost predicate OnlyUsersAndGrants(w: World, w': World) {
    && w'.db == w.db.(users := w'.db.users, grants := w'.db.grants)
    && w'.icid == w.icid && w.issued <= w'.issued
  }

  ghost predicate AddressKnown(db: Tables, email: string) {
    exists u :: u in db.users && db.users[u].email == email
  }

  ghost predicate CompanyKnown(db: Tables, ifricId: string) {
    exists k :: k in db.companies && db.companies[k].ifricId == ifricId
  }

  /** The company has a role of that name. */
  ghost predicate HasRole(db: Tables, companyId: Id, role: string) {
    exists g :: g in db.groups && db.groups[g].companyId == companyId && db.groups[g].name == role
  }

  // ----- createCompanyUser -----

  lemma CreateCompanyUserAnswers(w: World, c: Claims, q: UserRequest, f: UserFaults, w': World, r: Outcome)
    requires CreateCompanyUser(w, c, q, f, w', r)
    ensures r == Forbidden <==> !MayAct(w.db, c, q.ifricId, Create)
    ensures r == Conflict <==> MayAct(w.db, c, q.ifricId, Create) && AddressKnown(w.db, q.email)
    ensures r == NotFound <==>
      MayAct(w.db, c, q.ifricId, Create) && !AddressKnown(w.db, q.email) && !CompanyKnown(w.db, q.ifricId)
    ensures r == Done || r == Failed <==>
      MayAct(w.db, c, q.ifricId, Create) && !AddressKnown(w.db, q.email) && CompanyKnown(w.db, q.ifricId)
  {
    AuthorisedExactly(w.db, c, q.ifricId, Create);
    hide Authorised, MayAct;
    assert FindCompany(w.db, q.ifricId).Some? <==> CompanyKnown(w.db, q.ifricId);
    if Authorised(w.db, c, q.ifricId, Create) && !EmailTaken(w.db.users, q.email)
        && FindCompany(w.db, q.ifricId).Some? {
      var userId: Id, grantId: Id, group: Option<Id> :|
        UserProvisioned(w, FindCompany(w.db, q.ifricId).value, q, f, w', r, userId, grantId, group);
    }
  }

  /** Past the checks it fails exactly when the address has an account, or the account or a row cannot be made. */
  lemma CreateCompanyUserFails(w: World, c: Claims, q: UserRequest, f: UserFaults, w': World, r: Outcome, k: Id)
    requires CreateCompanyUser(w, c, q, f, w', r) && (r == Done || r == Failed) && UniqueCompanies(w.db.companies)
    requires k in w.db.companies && w.db.companies[k].ifricId == q.ifricId
    ensures r == Failed <==>
      || q.email in w.keycloak || f.identity != Created || f.saveUserThrows
      || (f.saveGrantThrows && HasRole(w.db, k, q.role))
  {
    assert FindCompany(w.db, q.ifricId) == Some(k);
    hide Authorised, EmailTaken;
    var userId: Id, grantId: Id, group: Option<Id> :| UserProvisioned(w, k, q, f, w', r, userId, grantId, group);
    assert group.Some? <==> HasRole(w.db, k, q.role);
  }

  /** Success adds one user, one account stamped with it, and one grant if the company has the role asked for. */
  lemma CreateCompanyUserWrites(w: World, c: Claims, q: UserRequest, f: UserFaults, w': World, k: Id)
      returns (u: Id, g: Id)
    requires CreateCompanyUser(w, c, q, f, w', Done) && UniqueCompanies(w.db.companies)
    requires k in w.db.companies && w.db.companies[k].ifricId == q.ifricId
    ensures OnlyUsersAndGrants(w, w') && u !in w.issued
    ensures w'.db.users == w.db.users[u := CompanyUser(k, q.email, q.name, "")]
    ensures w'.keycloak == w.keycloak[q.email := Identity(q.ifricId, u)] && q.email !in w.keycloak
    ensures !HasRole(w.db, k, q.role) ==> w'.db.grants == w.db.grants
    ensures HasRole(w.db, k, q.role) ==>
              && g !in w.issued && g in w'.db.grants && w'.db.grants == w.db.grants[g := w'.db.grants[g]]
              && w'.db.grants[g].userId == u && w'.db.grants[g].groupId in w.db.groups
              && w.db.groups[w'.db.grants[g].groupId].companyId == k
              && w.db.groups[w'.db.grants[g].groupId].name == q.role
  {
    assert FindCompany(w.db, q.ifricId) == Some(k);
    hide Authorised, EmailTaken, FindCompany;
    var userId: Id, grantId: Id, group: Option<Id> :| UserProvisioned(w, k, q, f, w', Done, userId, grantId, group);
    assert group.Some? <==> HasRole(w.db, k, q.role);
    u, g := userId, grantId;
  }

  lemma FailedProvision(w: World, k: Id, q: UserRequest, f: UserFaults, u: Id, g: Id, group: Option<Id>)
    requires ProvisionUser(w, k, q, f, u, g, group).1 == Failed
    ensures var left := ProvisionUser(w, k, q, f, u, g, group).0;
      && left.db == w.db.(users := left.db.users) && left.icid == w.icid
      && (left.db.users == w.db.users || left.db.users == w.db.users[u := CompanyUser(k, q.email, q.name, "")])
      && (left.keycloak == w.keycloak || left.keycloak == w.keycloak[q.email := Identity(q.ifricId, u)])
  {
    if q.email !in w.keycloak {
      assert w.keycloak[q.email := Identity(q.ifricId, u)] - {q.email} == w.keycloak;
    }
  }

  /** A failure past the checks leaves at most one row, the new user's, and never a grant. */
  lemma CreateCompanyUserLeaves(w: World, c: Claims, q: UserRequest, f: UserFaults, w': World, k: Id) returns (u: Id)
    requires CreateCompanyUser(w, c, q, f, w', Failed) && UniqueCompanies(w.db.companies)
    requires k in w.db.companies && w.db.companies[k].ifricId == q.ifricId
    ensures u !in w.issued && w'.db == w.db.(users := w'.db.users) && w'.icid == w.icid
    ensures w'.db.users == w.db.users || w'.db.users == w.db.users[u := CompanyUser(k, q.email, q.name, "")]
    ensures w'.keycloak == w.keycloak || w'.keycloak == w.keycloak[q.email := Identity(q.ifricId, u)]
  {
    assert FindCompany(w.db, q.ifricId) == Some(k);
    hide Authorised, EmailTaken, FindCompany;
    var userId: Id, grantId: Id, group: Option<Id> :| UserProvisioned(w, k, q, f, w', Failed, userId, grantId, group);
    u := userId;
    FailedProvision(w, k, q, f, userId, grantId, group);
    hide PickedGroup, ProvisionUser;
  }

  // ----- updateUserAccessGroup -----

  lemma UpdateUserAccessGroupAnswers(w: World, c: Claims, userId: Id, role: string, w': World, r: Outcome)
    requires UpdateUserAccessGroup(w, c, userId, role, w', r)
    ensures r == NotFound <==> userId !in w.db.users
    ensures r == Done <==> userId in w.db.users && MayActFor(w.db, c, w.db.users[userId].companyId, Update)
    ensures r == NotFound || r == Done || r == Forbidden
    ensures r != Done ==> w'.db == w.db
  {
    if userId in w.db.users {
      AuthorisedForExactly(w.db, c, w.db.users[userId].companyId, Update);
    }
    hide Authorised, MayActFor, RoleSet;
  }

  /**
   The role asked for, in the user's own company, and no other: if the company
   has a role of that name the user's grants all name one, and there is one; if
   it has none, no grant changes. Nobody else's grant changes.
   */
  lemma UpdateUserAccessGroupWrites(w: World, c: Claims, userId: Id, role: string, w': World)
    requires UpdateUserAccessGroup(w, c, userId, role, w', Done) && w.db.grants.Keys <= w.issued
    requires userId in w.db.users
    ensures w'.db == w.db.(grants := w'.db.grants) && w'.keycloak == w.keycloak && w'.icid == w.icid
    ensures !HasRole(w.db, w.db.users[userId].companyId, role) ==> w'.db.grants == w.db.grants
    ensures HasRole(w.db, w.db.users[userId].companyId, role) ==>
              && (exists g :: g in w'.db.grants && w'.db.grants[g].userId == userId)
              && forall g | g in w'.db.grants && w'.db.grants[g].userId == userId ::
                   && w'.db.grants[g].groupId in w.db.groups
                   && w.db.groups[w'.db.grants[g].groupId].companyId == w.db.users[userId].companyId
                   && w.db.groups[w'.db.grants[g].groupId].name == role
    ensures forall g | g in w.db.grants && w.db.grants[g].userId != userId ::
              g in w'.db.grants && w'.db.grants[g] == w.db.grants[g]
    ensures forall g | g in w'.db.grants && w'.db.grants[g].userId != userId :: g in w.db.grants
    ensures forall g | g in w.db.grants :: g in w'.db.grants
  {
    hide Authorised;
    var grantId: Id, group: Option<Id> :| RoleSet(w, userId, role, w', grantId, group);
    assert group.Some? <==> HasRole(w.db, w.db.users[userId].companyId, role);
    if group.Some? {
      UpsertOnRows(w.db.grants, grantId, userId, group.value);
      hide UpsertGrant;
    }
  }

  lemma UpsertOnRows(grants: map<Id, Grant>, newId: Id, userId: Id, groupId: Id)
    requires newId !in grants
    ensures var after := UpsertGrant(grants, newId, userId, groupId);
      && (exists g :: g in after && after[g].userId == userId)
      && (forall g | g in after && after[g].userId == userId :: after[g].groupId == groupId)
      && (forall g | g in grants && grants[g].userId != userId :: g in after && after[g] == grants[g])
      && (forall g | g in after && after[g].userId != userId :: g in grants)
      && (forall g | g in grants :: g in after)
  {
    var after := UpsertGrant(grants, newId, userId, groupId);
    if g :| g in grants && grants[g].userId == userId {
      assert g in after && after[g].userId == userId;
    } else {
      assert newId in after;
    }
  }

  // ----- updateCompanyUser -----

  /** The request is for a user of that company, by the user or by somebody who may. */
  ghost predicate MayEdit(db: Tables, c: Claims, p: UserPatch) {
    && p.ifricId != "" && c.companyIfricId == Some(p.ifricId)
    && p.userId in db.users && db.users[p.userId].companyId in db.companies
    && db.companies[db.users[p.userId].companyId].ifricId == p.ifricId
    && (c.userId == Some(p.userId) || Holds(db, c, Update))
  }

  /**
   Keycloak accepts the new address: the old one has an account, the new one
   is the same or has none, and the call is carried out.
   */
  ghost predicate AddressMoves(w: World, p: UserPatch, f: UserPatchFaults)
    requires p.userId in w.db.users
  {
    var oldEmail := w.db.users[p.userId].email;
    oldEmail in w.keycloak && (p.email == oldEmail || p.email !in w.keycloak) && f.setEmail != HadNoEffect
  }

  /**
   A unique column refuses the new address: another company's contact, if the
   user is a contact, or another user's.
   */
  ghost predicate AddressClashes(db: Tables, p: UserPatch)
    requires p.userId in db.users && db.users[p.userId].companyId in db.companies
  {
    var k := db.users[p.userId].companyId;
    || (exists u :: u in db.users && u != p.userId && db.users[u].email == p.email)
    || (db.users[p.userId].email == db.companies[k].email
        && exists l :: l in db.companies && l != k && db.companies[l].email == p.email)
  }

  lemma UpdateCompanyUserAnswers(w: World, c: Claims, p: UserPatch, f: UserPatchFaults, w': World, r: Outcome)
    requires UpdateCompanyUser(w, c, p, f, w', r) && UniqueCompanies(w.db.companies)
    ensures r == Done <==>
      && MayEdit(w.db, c, p) && !f.passwordRefused
      && (p.email != "" ==> AddressMoves(w, p, f) && f.setEmail == TookEffect && !AddressClashes(w.db, p))
    ensures r == BadRequest <==> MayEdit(w.db, c, p) && f.passwordRefused
    ensures r == Failed ==> MayEdit(w.db, c, p) && p.email != ""
  {
    PermissionExactly(w.db, c, Update);
    OwnCompanyExactly(c, p.ifricId);
    assert forall k | k in w.db.companies && w.db.companies[k].ifricId == p.ifricId ::
        FindCompany(w.db, p.ifricId) == Some(k);
    hide FindCompany, HasPermission, Holds, IsOwnCompany, UserProfileSet, UserEmailSet, ContactUpdated;
  }

  /**
   Success writes the new address, name and image where one was given and keeps
   the others; the company's own address follows if it was the user's; the
   account moves along; and nothing else changes.
   */
  lemma UpdateCompanyUserWrites(w: World, c: Claims, p: UserPatch, f: UserPatchFaults, w': World)
    requires UpdateCompanyUser(w, c, p, f, w', Done) && UniqueCompanies(w.db.companies)
    requires p.userId in w.db.users && w.db.users[p.userId].companyId in w.db.companies
    requires w.db.companies[w.db.users[p.userId].companyId].ifricId == p.ifricId
    ensures var k := w.db.users[p.userId].companyId; var user, company := w.db.users[p.userId], w.db.companies[k];
      && w'.db == w.db.(users := w'.db.users, companies := w'.db.companies)
      && w'.icid == w.icid && w'.issued == w.issued && w'.stamped == w.stamped
      && w'.db.users == w.db.users[p.userId := CompanyUser(
           k,
           if p.email != "" then p.email else user.email,
           if p.name != "" then p.name else user.name,
           if p.image != "" then p.image else user.image)]
      && (if p.email != "" && user.email == company.email then
            w'.db.companies == w.db.companies[k := Company(company.ifricId, company.name, p.email, company.profile)]
          else
            w'.db.companies == w.db.companies)
      && (if p.email != "" then
            user.email in w.keycloak
            && w'.keycloak == (w.keycloak - {user.email})[p.email := w.keycloak[user.email]]
          else
            w'.keycloak == w.keycloak)
  {
    var k := w.db.users[p.userId].companyId;
    UpdateCompanyUserBySteps(w, c, p, f, w');
    hide UpdateCompanyUser;
    if p.email != "" {
      ContactOnRows(w.db, k, p.userId, p.email);
      var db1 := ContactUpdated(w.db, k, p.userId, p.email);
      hide ContactUpdated, UserProfileSet;
      var db2 := UserEmailSet(db1, p.userId, p.email);
      ProfileOnRows(db2, p.userId, p.name, p.image);
      var user := w.db.users[p.userId].(email := p.email);
      var last := w'.db.users[p.userId];
      assert w.db.users[p.userId := user][p.userId := last] == w.db.users[p.userId := last];
    } else {
      ProfileOnRows(w.db, p.userId, p.name, p.image);
    }
  }

  lemma UpdateCompanyUserBySteps(w: World, c: Claims, p: UserPatch, f: UserPatchFaults, w': World)
    requires UpdateCompanyUser(w, c, p, f, w', Done) && UniqueCompanies(w.db.companies)
    requires p.userId in w.db.users && w.db.users[p.userId].companyId in w.db.companies
    requires w.db.companies[w.db.users[p.userId].companyId].ifricId == p.ifricId
    ensures var k, oldEmail := w.db.users[p.userId].companyId, w.db.users[p.userId].email;
      if p.email != "" then
        && oldEmail in w.keycloak
        && w' == w.(
             keycloak := (w.keycloak - {oldEmail})[p.email := w.keycloak[oldEmail]],
             db := UserProfileSet(UserEmailSet(ContactUpdated(w.db, k, p.userId, p.email), p.userId, p.email), p.userId,
                 p.name, p.image))
      else
        w' == w.(db := UserProfileSet(w.db, p.userId, p.name, p.image))
  {
    assert FindCompany(w.db, p.ifricId) == Some(w.db.users[p.userId].companyId);
    hide FindCompany, HasPermission, IsOwnCompany, CompanyEmailClash, UserEmailClash, UserProfileSet;
  }

  /**
   Without success the only row that may change is the company's, and only if
   all that failed is the user's own address.
   */
  lemma UpdateCompanyUserLeaves(w: World, c: Claims, p: UserPatch, f: UserPatchFaults, w': World, r: Outcome)
    requires UpdateCompanyUser(w, c, p, f, w', r) && r != Done && UniqueCompanies(w.db.companies)
    ensures if MayEdit(w.db, c, p) && !f.passwordRefused && p.email != "" && AddressMoves(w, p, f) then
              var k, oldEmail := w.db.users[p.userId].companyId, w.db.users[p.userId].email;
              var company := w.db.companies[k];
              && w'.keycloak == (w.keycloak - {oldEmail})[p.email := w.keycloak[oldEmail]]
              && w'.db == (
                   if f.setEmail == TookEffect && oldEmail == company.email
                      && forall l | l in w.db.companies && l != k :: w.db.companies[l].email != p.email
                   then w.db.(companies := w.db.companies[k := Company(company.ifricId, company.name, p.email,
                       company.profile)])
                   else w.db)
            else
              w' == w
  {
    PermissionExactly(w.db, c, Update);
    OwnCompanyExactly(c, p.ifricId);
    assert forall k | k in w.db.companies && w.db.companies[k].ifricId == p.ifricId ::
        FindCompany(w.db, p.ifricId) == Some(k);
    hide FindCompany, HasPermission, Holds, IsOwnCompany, UserProfileSet, UserEmailSet, UserEmailClash;
  }

  lemma ContactOnRows(db: Tables, k: Id, userId: Id, email: string)
    requires k in db.companies && userId in db.users
    ensures var db', company := ContactUpdated(db, k, userId, email), db.companies[k];
      && db' == db.(companies := db'.companies)
      && db'.companies == if db.users[userId].email == company.email
           then db.companies[k := Company(company.ifricId, company.name, email, company.profile)] else db.companies
  {
  }

  lemma ProfileOnRows(db: Tables, userId: Id, name: string, image: string)
    requires userId in db.users
    ensures var u := db.users[userId];
      UserProfileSet(db, userId, name, image) == db.(users := db.users[userId := CompanyUser(
        u.companyId, u.email, if name != "" then name else u.name, if image != "" then image else u.image)])
  {
  }

  // ----- deleteCompanyUser -----

  lemma DeleteCompanyUserAnswers(w: World, c: Claims, userId: Id, removal: AccountCall, w': World, r: Outcome)
    requires DeleteCompanyUser(w, c, userId, removal, w', r)
    ensures r == Forbidden <==> userId in w.db.users && !MayActFor(w.db, c, w.db.users[userId].companyId, Delete)
    ensures r == Done <==>
      (userId in w.db.users ==> MayActFor(w.db, c, w.db.users[userId].companyId, Delete) && removal == TookEffect)
    ensures r == Forbidden || r == Done || r == Failed
    ensures r == Forbidden || (r == Failed && removal == HadNoEffect) ==> w' == w
    ensures r == Failed && removal != HadNoEffect ==>
              userId in w.db.users && w' == w.(keycloak := w.keycloak - {w.db.users[userId].email})
  {
    if userId in w.db.users {
      AuthorisedForExactly(w.db, c, w.db.users[userId].companyId, Delete);
    }
    hide Authorised, MayActFor, GrantsWithout;
  }

  /** Success leaves neither the user nor a grant of theirs, and touches no other row. */
  lemma DeleteCompanyUserWrites(w: World, c: Claims, userId: Id, removal: AccountCall, w': World)
    requires DeleteCompanyUser(w, c, userId, removal, w', Done)
    ensures w'.db == w.db.(users := w'.db.users, grants := w'.db.grants) && w'.icid == w.icid
    ensures forall u :: u in w'.db.users <==> u in w.db.users && u != userId
    ensures forall u | u in w'.db.users :: w'.db.users[u] == w.db.users[u]
    ensures forall g :: g in w'.db.grants <==> g in w.db.grants && w.db.grants[g].userId != userId
    ensures forall g | g in w'.db.grants :: w'.db.grants[g] == w.db.grants[g]
    ensures forall e ::
              e in w'.keycloak <==> e in w.keycloak && !(userId in w.db.users && w.db.users[userId].email == e)
    ensures forall e | e in w'.keycloak :: w'.keycloak[e] == w.keycloak[e]
  {
    hide Authorised;
  }
}
