/**
 Models backend/src/common/access-control.service.ts: normalising a verified
 token, matching its company, and checking the caller's one role.
 */
module AccessControl {
  import opened Wrappers
  import opened Tables

  /** The claims the service reads; `None` for a claim the token does not carry. */
  datatype Claims = Claims(
    companyIfricId: Option<string>,
    userId: Option<Id>,
    participantId: Option<string>,
    participantVerified: bool)

  predicate Truthy(claim: Option<string>) {
    claim.Some? && claim.value != ""
  }

  /**
   The marker is true afterwards exactly when this call matched the
   participant id of a token without a company claim against a company row.
   */
  ghost function ResolveClaims(db: Tables, claims: Claims): (resolved: Claims)
    ensures resolved.participantVerified <==>
      && !Truthy(claims.companyIfricId)
      && Truthy(claims.participantId)
      && exists k :: k in db.companies && Some(db.companies[k].ifricId) == claims.participantId
    ensures resolved.participantVerified ==> resolved.companyIfricId == claims.participantId
    ensures !resolved.participantVerified ==> resolved.companyIfricId == claims.companyIfricId
    ensures resolved.userId == claims.userId
  {
    var unmarked := claims.(participantVerified := false);
    if Truthy(unmarked.companyIfricId) || !Truthy(unmarked.participantId) then unmarked
    else
      match FindCompany(db, unmarked.participantId.value)
      case None => unmarked
      case Some(k) => unmarked.(companyIfricId := Some(db.companies[k].ifricId), participantVerified := true)
  }

  predicate IsOwnCompany(claims: Claims, target: string) {
    Truthy(claims.companyIfricId) && claims.companyIfricId.value == target
  }

  predicate HasPermission(db: Tables, claims: Claims, right: Right) {
    || claims.participantVerified
    || (claims.userId.Some? && exists g :: g in db.grants && GrantGives(db, g, claims.userId.value, right))
  }

  /** The grant names the user, and its group still exists with the flag set. */
  predicate GrantGives(db: Tables, g: Id, userId: Id, right: Right)
    requires g in db.grants
  {
    && db.grants[g].userId == userId
    && db.grants[g].groupId in db.groups
    && right in db.groups[db.grants[g].groupId].rights
  }

  /** assertCompanyMatch followed by assertPermission. */
  predicate Authorised(db: Tables, claims: Claims, target: string, right: Right) {
    IsOwnCompany(claims, target) && HasPermission(db, claims, right)
  }
}
