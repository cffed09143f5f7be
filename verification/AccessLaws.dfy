/**
 The access checks in terms of rows and claims alone, so that what a request
 demands of its caller can be read without knowing how it is decided.
 */
module AccessLaws {
  import opened Wrappers
  import opened Tables
  import opened AccessControl

  /** A role of the caller's user, or the marker of a dataspace participant, gives the right. */
  ghost predicate Holds(db: Tables, c: Claims, right: Right) {
    || c.participantVerified
    || exists g :: g in db.grants && c.userId == Some(db.grants[g].userId)
         && db.grants[g].groupId in db.groups && right in db.groups[db.grants[g].groupId].rights
  }

  /** The token names this company, and the caller holds the right. */
  ghost predicate MayAct(db: Tables, c: Claims, target: string, right: Right) {
    target != "" && c.companyIfricId == Some(target) && Holds(db, c, right)
  }

  /** The same for a company row; nobody may act for a company that is gone. */
  ghost predicate MayActFor(db: Tables, c: Claims, companyId: Id, right: Right) {
    companyId in db.companies && MayAct(db, c, db.companies[companyId].ifricId, right)
  }

  lemma PermissionExactly(db: Tables, c: Claims, right: Right)
    ensures HasPermission(db, c, right) <==> Holds(db, c, right)
  {
    if c.userId.Some? && exists g :: g in db.grants && GrantGives(db, g, c.userId.value, right) {
      var g :| g in db.grants && GrantGives(db, g, c.userId.value, right);
      assert c.userId == Some(db.grants[g].userId);
    }
    if !c.participantVerified && Holds(db, c, right) {
      var g :| && g in db.grants && c.userId == Some(db.grants[g].userId)
               && db.grants[g].groupId in db.groups && right in db.groups[db.grants[g].groupId].rights;
      assert GrantGives(db, g, c.userId.value, right);
    }
  }

  lemma OwnCompanyExactly(c: Claims, target: string)
    ensures IsOwnCompany(c, target) <==> target != "" && c.companyIfricId == Some(target)
  {
  }

  lemma AuthorisedExactly(db: Tables, c: Claims, target: string, right: Right)
    ensures Authorised(db, c, target, right) <==> MayAct(db, c, target, right)
  {
    PermissionExactly(db, c, right);
    OwnCompanyExactly(c, target);
    hide HasPermission, Holds, IsOwnCompany;
  }

  lemma AuthorisedForExactly(db: Tables, c: Claims, companyId: Id, right: Right)
    ensures Authorised(db, c, OwnerIfric(db, companyId), right) <==> MayActFor(db, c, companyId, right)
  {
    AuthorisedExactly(db, c, OwnerIfric(db, companyId), right);
    assert OwnerIfric(db, companyId) == if companyId in db.companies then db.companies[companyId].ifricId else "";
    hide Authorised, Holds;
  }

  /**
   A token without a company id, or with an empty one, is matched by its
   participant id; every other one keeps its claims.
   */
  lemma ClaimsResolvedExactly(db: Tables, claims: Claims)
    ensures var matched := (claims.companyIfricId == None || claims.companyIfricId == Some(""))
                           && claims.participantId != None && claims.participantId != Some("")
                           && exists k :: k in db.companies && Some(db.companies[k].ifricId) == claims.participantId;
      ResolveClaims(db, claims) == claims.(
        participantVerified := matched,
        companyIfricId := if matched then claims.participantId else claims.companyIfricId)
  {
  }
}
