# Verified model of the IFRIC registry backend

The registry backend keeps companies, their users and roles, factories and
assets in a database, keeps the matching accounts in Keycloak, and obtains
identifiers from ICID. This project models the parts of it that have
invariants, faults or algorithms, and proves what they promise.

- **The registry as a state machine.** `Tables` is the data, `AccessControl`
  the checks every request passes, `RegistrySpec` what each write does to the
  world (database, Keycloak, ICID) including the failures of external calls.
  `Registry`, `AuthService`, `AssetService`, `CompanyService` carry the writes
  out statement by statement on a mutable `Store` and are proved to do just
  that. `RegistryInvariants` is what every step keeps, `RegistryGuarantees` what
  follows over whole histories (who a token speaks for, which rows a caller can
  change, how rows age), `RegistryOutcomes` exact results of single requests,
  `CompanyDeletion` what deleteCompany leaves, at its end and between its
  statements, `RegistryIcid` when the database names an identifier that ICID no
  longer knows, `AccountBoundary` whose Keycloak accounts a request can change.
- **The registration saga.** `Registration` is createCompany with an arbitrary
  fault schedule: the transaction, the ICID mint, the Keycloak account, the
  hook that can veto, and the compensations. A step fails where the call of that
  name throws or its test is not met; a failed call is described by the first
  step that fails.
- **Schema reachability.** `SchemaRefs` is the walk that finds the schemas the
  `/company` part of the OpenAPI document needs, over cyclic references
  (Reference Object, section 4.7.23 of OpenAPI Specification 3.0.3).
- **Certificates.** `Certificates` proves that the batched check answers what
  the single check answers; `PrivateKeys` that what is encrypted and framed is
  decrypted to itself, `CertificateKeys` that the endpoints reveal just the key
  that was stored, to nobody but the company's own callers.
- **Migrations.** `AssetMigration` (grants deduplicated, two tables merged, and
  the way back) and `CategorySeed` (idempotent seeding).
- **Batch and time-based helpers.** `PublicCompany` (allow-list projection with
  a batched join), `RecoveryThrottle` (password recovery limited per address and
  caller), `AdminToken` (a token cache under interleaved requests), `PersonName`
  (one free-text name as first and last name).

Each request is one atomic step. Where a query has no order, the row it lists
first is any matching row. `_id`s are fresh numbers; `World.issued` remembers
all that were handed out and `World.stamped` all attributes ever put on an
account.

## Where the code and its documentation differ

The model follows the code. Each point names the lemma that says exactly when
the code does what its comments promise, and a lemma with an input for which it
does not.

- createCompany is to tell its caller of the first failure whatever the cleanup
  does. That holds for the cleanups of the hook and of Keycloak
  (`Registration.CleanupNeverMasks`); a failing rollback or ICID release is told
  instead (`FirstErrorReportedExactly`), and a failing rollback also skips every
  later compensation (`FailedReleaseMasks`, `FailedRollbackMasks`).
- createCompany is to undo only what it created. It releases the id ICID answered
  with; if ICID issued that id before, the failure of the second registration,
  which needs no call to throw, takes it away from the company that has it
  (`Registration.AllOrNothing`, `RegistryIcid.CompaniesKnownAfter`,
  `CompanyLosesItsId`).
- deleteAsset checks one row against the caller's company and then deletes by
  URN, which is unique only within a company
  (`RegistryGuarantees.DeleteAssetBoundary`,
  `RegistryOutcomes.DeleteAssetCanCross`).
- createFactory's release of a minted id takes away the id of a stored factory
  when ICID answers a repeated factory key with the id it already issued
  (`RegistryOutcomes.FailedFactoryAndIcid`, `StoredFactoryLosesItsId`).
- createCompanyUser's catch block removes the account but not the user row
  (`RegistryOutcomes.FailedUserResidue`, `FailedUserLeavesItsRow`).
- Every request is to stay within the caller's company. For rows it does; for
  Keycloak accounts, which are found by address, deleteCompanyUser and
  updateCompanyUser can reach another company's account
  (`AccountBoundary.AccountBoundaryExactly`, `DeletingARowTakesAForeignAccount`).
- splitPersonName promises that neither name is left blank; it is, when the name
  is blank and the email's local part is made of white space
  (`PersonName.BlankExactly`, `BlankNamesOccur`).
- getAdminToken refreshes ten seconds early to avoid racing expiry; a token can
  still be served dead if its own answer took more than ten seconds to arrive
  (`AdminToken.NeverServedDead`, `DeadTokenServed`).

Apart from these, the batched certificate request names its field `fieldId`
where the single request says `fileId`. Whether ICID reads both alike is part of
the premise that its batch reply is the single reply entry by entry.

## Model

| member | source | states |
|---|---|---|
| SchemaRefs.CollectSchemaRefs | backend/scripts/generate-openapi.js:33-50 | on any value, any finite and possibly cyclic table and any names found so far, the walk ends; it keeps what was found, adds every reference in the value, leaves each newly added name closed under its schema's references, and adds nothing outside any closed set holding the value's references |
| SchemaRefs.FollowOwnRef | backend/scripts/generate-openapi.js:39-45 | the same for one `$ref`; a name that was already found is not walked again |
| SchemaRefs.CollectFrom | backend/scripts/generate-openapi.js:33-50 | started with nothing found, a name is in the result if and only if a chain of mentions leads to it: at each step some position inside the value, through items and entries alike, is an object whose `$ref` is the string that names the next schema; mentions of missing schemas are included |
| SchemaRefs.RefsAreMentions | backend/scripts/generate-openapi.js:33-50 | what the walk takes for the references of a value, found by recursion, is what is mentioned at some position inside it, and nothing else |
| SchemaRefs.RefNameExactly | backend/scripts/generate-openapi.js:39-40 | the expression captures a name from `#/components/schemas/` followed by it, if it is not empty and has no line terminator, and from no other string |
| SchemaRefs.WalkFindsExactlyTheReachable | backend/scripts/generate-openapi.js:33-50 | the contract of the nested calls, at the top level, is the least fixpoint: exactly the names some chain of mentions leads to |
| SchemaRefs.BuildCompanyScopedDoc | backend/scripts/generate-openapi.js:52-77 | keeps exactly the entries under `/company` or beginning with `/company/`, and exactly the schemas a chain of mentions leads to from them, carries other component kinds and other parts over, rewrites title and description |
| SchemaRefs.ScopedDocIsSelfContained | backend/scripts/generate-openapi.js:52-77 | whatever is mentioned anywhere inside a kept path or a kept schema is kept, with the same body, if the full document has it |
| SchemaRefs.ScopedDocIsMinimal | backend/scripts/generate-openapi.js:59-62 | a schema is kept if and only if the full document has it and a chain of mentions leads to it from the `/company` paths |
| SchemaRefs.KeepIsOneByOne | backend/scripts/generate-openapi.js:52-63 | filtering takes the entries one by one and keeps their order |
| SchemaRefs.TableExactly | backend/scripts/generate-openapi.js:57-57 | the table of schemas has an entry's value under each name that is a key, and no other name |
| SchemaRefs.ScopingIsIdempotent | backend/scripts/generate-openapi.js:52-77 | scoping a scoped document again changes neither its paths nor its schemas |
| Registration.CreateCompany | backend/src/endpoints/company/company.service.ts:440-720 | for every fault schedule, calls that take effect although they throw included: the state afterwards as a function of the first failing step, the answer, commit only after a bound hook returned, the hook asked to undo exactly once (last) if the run failed after the event was built and the rollback worked and otherwise never, everything said to the hook being about the rows of this registration, and the registry invariant kept |
| Registration.AcceptedExactly | backend/src/endpoints/company/company.service.ts:450-665 | the call succeeds if and only if no call throws, the country is known, ICID mints an id, no company row has the name, the address or the id, no user row has the address, a category row has the name, and the address has no account; all of it said of the columns |
| Registration.FailsExactly | backend/src/endpoints/company/company.service.ts:450-665 | for each of the eighteen calls and tests, what makes it end the call, in the columns it looks at |
| Registration.StepsAreInOrder | backend/src/endpoints/company/company.service.ts:450-665 | the order they come in |
| Registration.SettledIsStep | backend/src/endpoints/company/company.service.ts:440-720 | seen from outside the saga is one step of the registry, with rows, ICID, account and attributes as its course says |
| Registration.AllOrNothing | backend/src/endpoints/company/company.service.ts:666-719 | a failed call leaves database, Keycloak and ICID as they were if and only if it did not fail at a commit that took effect, no account is left (by a rollback or a deletion that fails, or behind a lost reply), and a minted id was released exactly if ICID did not have it before |
| Registration.IcidIsEven | backend/src/endpoints/company/company.service.ts:702-708 | the ICID part of that, decided by where the call fails, whether the release takes effect and whether ICID had the id before |
| Registration.AccountLeftExactly | backend/src/endpoints/company/company.service.ts:686-700 | an account is left if and only if it was made and then kept by a failing rollback or deletion, or made behind a lost reply |
| Registration.ReleasedExactly | backend/src/endpoints/company/company.service.ts:702-708 | an id is given back if and only if ICID answered with it, no due rollback throws and the release takes effect |
| Registration.CompensatesExactly | backend/src/endpoints/company/company.service.ts:667-669 | the catch block gets past the rollback unless one is due and throws |
| Registration.OrdinaryFailureRestores | backend/src/endpoints/company/company.service.ts:666-716 | if rollback and the compensating deletes work, no reply is lost and the minted id is new, everything is restored wherever the call fails and the first error is reported |
| Registration.FirstErrorReportedExactly | backend/src/endpoints/company/company.service.ts:667-716 | the first error is the one reported if and only if no rollback throws that is due, the step coming after the start of the transaction, and no release that is tried does |
| Registration.RetrySucceedsExactly | backend/src/endpoints/company/company.service.ts:686-700 | after any failure a second attempt succeeds if and only if it would have succeeded in the first one's place and the first left neither its account nor, behind a lost reply, its rows |
| Registration.ExistingAccountsSurvive | backend/src/endpoints/company/company.service.ts:603-606 | whatever fails, an account that existed before is still there with the same attributes |
| Registration.CleanupNeverMasks | backend/src/endpoints/company/company.service.ts:670-700 | two runs that differ only in whether the hook's and the account's cleanup fail end at the same step with the same answer |
| Registration.Compensate | backend/src/endpoints/company/company.service.ts:666-708 | one catch block: what is removed from Keycloak and ICID, at most one request to the hook to undo, and which error is told, with the failures of the hook and of Keycloak swallowed |
| Registration.FailedReleaseMasks | backend/src/endpoints/company/company.service.ts:702-708 | saving the company and then the release throw: the release is reported and the id stays at ICID |
| Registration.FailedRollbackMasks | backend/src/endpoints/company/company.service.ts:667-669 | saving the user and then the rollback throw: the rollback is reported, and id and account stay |
| RegistryInvariants.CreateCompanyKeepsInv | backend/src/endpoints/company/company.service.ts:529-653 | the rows of a registration keep the invariant, also when a commit's reply is lost or an account is left behind |
| RegistryInvariants.CreateCompanyUserKeepsInv | backend/src/endpoints/auth/auth.service.ts:76-203 | provisioning a user keeps the invariant however it fails |
| RegistryInvariants.UpsertIsOneRow | backend/src/endpoints/auth/auth.service.ts:764-770 | the upsert changes or adds exactly one grant, the user's |
| RegistryInvariants.UpdateUserAccessGroupKeepsInv | backend/src/endpoints/auth/auth.service.ts:739-797 | the new role is one of the user's own company, and stays the user's only one |
| RegistryInvariants.UpdateCompanyKeepsInv | backend/src/endpoints/company/company.service.ts:1633-1704 | at most one mapping per company is kept, and no company changes its IFRIC id |
| RegistryInvariants.DeleteCompanyKeepsInv | backend/src/endpoints/company/company.service.ts:1759-1803 | deleting a company leaves no dangling user, group, mapping, grant or asset |
| RegistryInvariants.CreateFactoryKeepsInv | backend/src/endpoints/company/company.service.ts:267-345 | factory ids stay unique, whatever ICID does |
| RegistryInvariants.DeleteFactoryKeepsInv | backend/src/endpoints/company/company.service.ts:390-416 | no asset is left naming a deleted factory |
| RegistryInvariants.CreateAssetKeepsInv | backend/src/endpoints/company/asset.service.ts:88-144 | a new asset is a twin if and only if it has an owner, and its manufacturer and factory exist |
| RegistryInvariants.UpdateAssetKeepsInv | backend/src/endpoints/company/asset.service.ts:166-235 | the same for each of the four update branches |
| RegistryInvariants.StepKeepsInv | backend/src/endpoints/company/company.service.ts:440-1830 | every modelled request, by any caller, whichever of its modelled calls fails, keeps the invariant |
| RegistryInvariants.RunKeepsInv | backend/src/endpoints/company/company.service.ts:440-1830 | every world any history from an empty registry reaches satisfies it |
| RegistryGuarantees.AuthorisedTokenNamesLiveMember | backend/src/common/access-control.service.ts:67-161 | over every history with deletions and re-registrations: a token stamped at an account's creation passes company match and permission only if its user is now a member of that company holding that right through a group of that company |
| RegistryGuarantees.LiveMemberIsAuthorised | backend/src/common/access-control.service.ts:106-161 | and such a member does pass |
| RegistryGuarantees.DeadTokenStaysDead | backend/src/common/access-control.service.ts:146-160 | once a token's user is gone no later request brings its permissions back |
| RegistryGuarantees.RunAges | backend/src/endpoints/company/company.service.ts:1685-1700 | over any stretch of a history no id is reused, no user or asset changes company, no company changes its IFRIC id, twins stay twins |
| RegistryGuarantees.TwinNeverReverts | backend/src/endpoints/company/asset.service.ts:213-233 | a twin stays a twin with an owner as long as its row lives |
| RegistryGuarantees.CallerChangesOnlyOwnRows | backend/src/common/access-control.service.ts:113-125 | in every reachable world any request but a registration and deleteAsset leaves every row of every other company as it was |
| RegistryGuarantees.DeleteAssetBoundary | backend/src/endpoints/company/asset.service.ts:247-269 | deleteAsset respects that boundary if and only if every row with the URN is the caller's company's |
| AccountBoundary.DeleteCompanyUserAccounts | backend/src/endpoints/auth/auth.service.ts:938-947 | deleting a user leaves other companies' accounts alone if and only if the account at the row's address, if one is removed, is the caller's company's |
| AccountBoundary.UpdateCompanyUserAccounts | backend/src/endpoints/auth/auth.service.ts:854-884 | the same for a rename and the account at the user's old address, also where the call throws although it took effect |
| AccountBoundary.AccountBoundaryExactly | backend/src/common/access-control.service.ts:113-125 | any request but a registration leaves other companies' accounts alone unless it is of one of these two kinds |
| AccountBoundary.DeletingARowTakesAForeignAccount | backend/src/endpoints/auth/auth.service.ts:933-947 | a history of three requests from a consistent registry at whose end a user's account is gone though only another company's row was deleted |
| RegistryOutcomes.DeleteAssetCanCross | backend/src/endpoints/company/asset.service.ts:267-269 | a consistent registry and a caller for which it does not |
| RegistryOutcomes.OneRoleAtHome | backend/src/common/access-control.service.ts:127-130 | in every reachable world a user has at most one grant, and its group, if it exists, is of the user's company |
| RegistryOutcomes.AssetsAreSound | backend/src/endpoints/company/asset.service.ts:113-144 | in every reachable world is_twin holds exactly with an owner set, and the manufacturer and the named factory exist |
| RegistryOutcomes.ListingsAgreeInEveryRun | backend/src/endpoints/company/company.service.ts:1344-1358 | in every reachable world getAllCompanies and the public projection show the same category, whatever order the mapping rows come in |
| RegistryOutcomes.UniqueOwnersAreTheOwners | backend/src/endpoints/company/company.service.ts:1420-1430 | the unique owners are exactly the existing companies owning some asset of the manufacturer |
| RegistryOutcomes.PartiesAreMakerAndOwner | backend/src/endpoints/company/asset.service.ts:50-71 | the party check admits exactly callers of an existing company that made the asset or owns it |
| RegistryOutcomes.DeletedOwnerIsNoParty | backend/src/endpoints/company/asset.service.ts:50-71 | a deleted owner never becomes a party again, re-registration included |
| CompanyDeletion.DeletedCompanyLeavesNothing | backend/src/endpoints/company/company.service.ts:1773-1803 | no user, group, mapping, manufactured asset, gateway or server of the company and no grant of its former users survives |
| CompanyDeletion.DeletedCompanyTouchesNothingElse | backend/src/endpoints/company/company.service.ts:1785-1803 | every other row, every account and ICID are as they were |
| CompanyDeletion.TokensDuringDeletion | backend/src/endpoints/company/company.service.ts:1785-1803 | at every point between the deletes a stamped token gets through only for a live member, except between the first and the second, when exactly those of former users that got through before still do |
| CompanyDeletion.SecondDeletion | backend/src/endpoints/company/company.service.ts:1781-1803 | asked again after breaking off, deleteCompany erases all the rest but keeps every grant it had not got to |
| CompanyDeletion.SecondDeletionFinishesExactly | backend/src/endpoints/company/company.service.ts:1781-1803 | a second request finishes the job if and only if the first had deleted nothing, or every former user's grants |
| CompanyDeletion.FormerUserCannotAsk | backend/src/endpoints/company/company.service.ts:1770-1786 | from the second delete on no token of a former user passes a permission check, so none of them can ask |
| RegistryIcid.CompaniesKnownAfter | backend/src/endpoints/company/company.service.ts:440-720 | if every company's IFRIC id is known to ICID, it still is after a request, unless that is a registration that releases an id a company has: one taken before, or its own after a commit whose reply was lost |
| RegistryIcid.CompaniesStayKnownExactly | backend/src/endpoints/company/company.service.ts:702-708 | over every history all companies stay known to ICID if and only if no such registration occurs |
| RegistryIcid.CompanyLosesItsId | backend/src/endpoints/company/company.service.ts:482-506 | a consistent registry, and a registration in which no call throws, after which a stored company's id is gone from ICID |
| RegistryIcid.FactoriesKnownAfter | backend/src/endpoints/company/company.service.ts:267-345 | the same for stored factories with a minted id; the requests that break it release a re-minted id of a stored factory, or store a factory under a minted id that was given up |
| RegistryIcid.FactoriesStayKnownExactly | backend/src/endpoints/company/company.service.ts:322-336 | over every history all such factories stay known to ICID if and only if neither occurs |
| RegistryIcid.RegistrationIsUsable | backend/src/endpoints/company/company.service.ts:584-634 | after a successful registration ICID knows the company and the attributes of the admin's account get every right in it |
| RegistryOutcomes.DeleteAssetsIsAllOrNothing | backend/src/endpoints/company/asset.service.ts:285-306 | either nothing changes or exactly the listed URNs go and all were the caller's; refused if and only if the permission is missing or a listed row is another company's |
| RegistryOutcomes.FailedFactoryAndIcid | backend/src/endpoints/company/company.service.ts:322-336 | a failed createFactory leaves ICID as it was exactly under the stated condition on mint, release and prior state |
| RegistryOutcomes.StoredFactoryLosesItsId | backend/src/endpoints/company/company.service.ts:296-336 | a consistent registry whose one factory keeps its row but loses its id at ICID to a repeated factory key |
| RegistryOutcomes.StoredFactory | backend/src/endpoints/company/company.service.ts:289-321 | a successful one stores one row under an id no factory had, registered if minted, other factories unchanged |
| RegistryOutcomes.FailedUserResidue | backend/src/endpoints/auth/auth.service.ts:123-203 | exactly when a failed createCompanyUser leaves an account, and exactly when it leaves a user row |
| RegistryOutcomes.FailedUserLeavesItsRow | backend/src/endpoints/auth/auth.service.ts:140-194 | a consistent registry in which the request fails, the account is gone and the user row is there |
| RegistryOutcomes.CategoryIsRepointed | backend/src/endpoints/company/company.service.ts:1655-1683 | after a successful category change the company's one mapping names that category |
| CompanyLaws.CreateCompanyWrites | backend/src/endpoints/company/company.service.ts:529-653 | a registration whose commit took effect adds one company, one mapping to a category of the name asked for, the groups "read_only" and "admin" with the rights of their names, one user and one grant of the latter group to that user, column by column, and nothing else but what the hook wrote |
| CompanyLaws.CreateCompanyOutside | backend/src/endpoints/company/company.service.ts:603-653 | no row without a commit; a success leaves the admin an account stamped with the minted id and a new user id |
| AccessControl.ResolveClaims | backend/src/common/access-control.service.ts:67-96 | the verified marker is set exactly when this call matched the participant id of a token without a company claim; a marker in the token is dropped |
| AccessLaws.ClaimsResolvedExactly | backend/src/common/access-control.service.ts:67-96 | the resolved claims, field by field, from the token and the company rows |
| AccessLaws.AuthorisedExactly | backend/src/common/access-control.service.ts:98-161 | a caller passes company match and permission if and only if its token names the company and it is a matched participant or some grant of its user names an existing group with the right |
| AccessLaws.AuthorisedForExactly | backend/src/common/access-control.service.ts:98-161 | the same for the company a row belongs to; nobody passes for a company that is gone |
| AuthService.CreateCompanyUser | backend/src/endpoints/auth/auth.service.ts:76-203 | implements its step and keeps the invariant |
| UserLaws.CreateCompanyUserAnswers | backend/src/endpoints/auth/auth.service.ts:76-122 | when it is forbidden, when Conflict (a user row has exactly this address), when not found, and when it goes on, in the rows |
| UserLaws.CreateCompanyUserFails | backend/src/endpoints/auth/auth.service.ts:123-203 | past the checks it fails if and only if the address has an account, or a call it makes throws |
| UserLaws.CreateCompanyUserWrites | backend/src/endpoints/auth/auth.service.ts:123-186 | success adds the user, the account stamped with it, and one grant of the group of that name in that company, if it has one |
| UserLaws.CreateCompanyUserLeaves | backend/src/endpoints/auth/auth.service.ts:186-203 | a failure adds at most the user row and the account |
| AuthService.UpdateUserAccessGroup | backend/src/endpoints/auth/auth.service.ts:739-797 | implements its step, whose answers and writes `UserLaws` states on rows, and keeps the invariant |
| UserLaws.UpdateUserAccessGroupAnswers | backend/src/endpoints/auth/auth.service.ts:739-752 | not found, forbidden or done, in the rows |
| UserLaws.UpdateUserAccessGroupWrites | backend/src/endpoints/auth/auth.service.ts:753-770 | if the user's company has a group of the name asked for, the user has a grant afterwards and each of the user's grants names a group of that company with exactly that name; if it has none, no grant changes; every other user's grants are as before |
| AuthService.UpdateCompanyUser | backend/src/endpoints/auth/auth.service.ts:799-931 | implements its step, the partial states of a failing e-mail change included, also where Keycloak carried it out although the call threw, and keeps the invariant |
| UserLaws.UpdateCompanyUserAnswers | backend/src/endpoints/auth/auth.service.ts:799-931 | each answer from the rows, the accounts and the failing call |
| UserLaws.UpdateCompanyUserWrites | backend/src/endpoints/auth/auth.service.ts:854-915 | success: which columns of the user row change and to what, the company's address exactly if the user was its contact, and the renamed account with its attributes |
| UserLaws.UpdateCompanyUserLeaves | backend/src/endpoints/auth/auth.service.ts:854-884 | what a failure leaves: no user row changes, and neither company row nor account other than by the first stages of the rename |
| AuthService.DeleteCompanyUser | backend/src/endpoints/auth/auth.service.ts:933-957 | implements its step and keeps the invariant |
| UserLaws.DeleteCompanyUserAnswers | backend/src/endpoints/auth/auth.service.ts:933-957 | forbidden, failed or done, in the rows |
| UserLaws.DeleteCompanyUserWrites | backend/src/endpoints/auth/auth.service.ts:938-957 | exactly the user's row, grants and account go |
| CompanyService.CreateAccessGroup | backend/src/endpoints/company/company.service.ts:797-833 | implements its step and keeps the invariant |
| CompanyLaws.CreateAccessGroupAnswers | backend/src/endpoints/company/company.service.ts:797-833 | each answer from the rows, and the one row a success adds |
| CompanyService.UpdateAccessGroup | backend/src/endpoints/company/company.service.ts:1716-1747 | implements its step and keeps the invariant |
| CompanyLaws.UpdateAccessGroupOnRows | backend/src/endpoints/company/company.service.ts:1716-1747 | each answer from the rows, and the group afterwards: company kept, name if given, each right by its flag |
| CompanyService.DeleteAccessGroup | backend/src/endpoints/company/company.service.ts:1815-1828 | implements its step and keeps the invariant |
| CompanyLaws.DeleteAccessGroupOnRows | backend/src/endpoints/company/company.service.ts:1815-1828 | each answer from the rows; exactly this group goes |
| CompanyService.UpdateCompany | backend/src/endpoints/company/company.service.ts:1633-1704 | implements its step and keeps the invariant |
| CompanyLaws.UpdateCompanyAnswers | backend/src/endpoints/company/company.service.ts:1633-1704 | each answer from the rows |
| CompanyLaws.UpdateCompanyWrites | backend/src/endpoints/company/company.service.ts:1685-1700 | success writes the columns given and keeps the others, the IFRIC id always; no other company changes |
| CompanyLaws.UpdateCompanyLeaves | backend/src/endpoints/company/company.service.ts:1655-1704 | any other answer keeps every company row, and the mappings too unless a category was asked for |
| CompanyLaws.CategoryWrites | backend/src/endpoints/company/company.service.ts:1655-1683 | a category change sets one mapping, the company's own or, if it has none, a new one, to a category of that name, also if the second write then fails |
| CompanyService.DeleteCompany | backend/src/endpoints/company/company.service.ts:1759-1803 | implements its step with the loop over the users fetched before they are deleted |
| CompanyLaws.DeleteCompanyAnswers | backend/src/endpoints/company/company.service.ts:1759-1784 | each answer from the rows |
| CompanyService.DeleteGrantsOf | backend/src/endpoints/company/company.service.ts:1793-1799 | the loop deletes the grants of exactly these users |
| CompanyService.CreateFactory | backend/src/endpoints/company/company.service.ts:267-345 | implements its step with mint and release |
| CompanyLaws.CreateFactoryAnswers | backend/src/endpoints/company/company.service.ts:267-345 | each answer from the rows, the request and what ICID replied |
| CompanyLaws.CreateFactoryWrites | backend/src/endpoints/company/company.service.ts:289-321 | success stores one row, column by column, under the id brought along or the one minted, which ICID then knows |
| CompanyLaws.CreateFactoryLeaves | backend/src/endpoints/company/company.service.ts:322-345 | the ids at ICID after any other answer, from what was minted and whether the release took effect |
| CompanyService.DeleteFactory | backend/src/endpoints/company/company.service.ts:390-416 | implements its step and keeps the invariant |
| CompanyLaws.DeleteFactoryOnRows | backend/src/endpoints/company/company.service.ts:390-416 | each answer from the rows; exactly this factory goes |
| AssetService.CreateAsset | backend/src/endpoints/company/asset.service.ts:88-144 | implements its step and keeps the invariant |
| AssetLaws.CreateAssetAnswers | backend/src/endpoints/company/asset.service.ts:88-144 | each answer from the rows |
| AssetLaws.CreateAssetWrites | backend/src/endpoints/company/asset.service.ts:113-144 | success adds one row with the URN, the company, the owner and the factory named, a twin if and only if an owner was named |
| AssetService.UpdateAsset | backend/src/endpoints/company/asset.service.ts:166-235 | implements its step, whose answers and writes `AssetLaws` states on rows, and keeps the invariant |
| AssetLaws.UpdateAssetAnswers | backend/src/endpoints/company/asset.service.ts:166-211 | each answer from the rows |
| AssetLaws.UpdateAssetWrites | backend/src/endpoints/company/asset.service.ts:213-233 | success changes one row with the URN: the owner is the company named, or the old one; the factory the one named, or the old one; it is a twin if and only if an owner was named or it was one; URN and company are kept, and so is every other row |
| AssetService.DeleteAsset | backend/src/endpoints/company/asset.service.ts:247-269 | implements its step and keeps the invariant |
| AssetLaws.DeleteAssetOnRows | backend/src/endpoints/company/asset.service.ts:247-269 | each answer from the rows; exactly the rows with this URN go |
| AssetService.DeleteAssets | backend/src/endpoints/company/asset.service.ts:285-306 | implements its step and keeps the invariant |
| AssetLaws.DeleteAssetsOnRows | backend/src/endpoints/company/asset.service.ts:285-306 | done if and only if the caller may delete and no listed row of an existing company is another's; exactly the listed URNs go |
| Certificates.VerifyCompanyCertificate | backend/src/endpoints/certificate/certificate.service.ts:249-308 | no answer for an unknown company; otherwise true if and only if its ordered query lists a certificate first, now is not after its expiry (a null one counting as 0), and its file is absent or not revoked |
| Certificates.VerdictExactly | backend/src/endpoints/certificate/certificate.service.ts:269-275 | the verdict and the need to ask ICID, in the columns expiry and file |
| Certificates.LatestExactly | backend/src/endpoints/certificate/certificate.service.ts:262-268 | the row listed first: none of the company expires later, NULL coming first, and of those that expire then none was created later |
| Certificates.SettleLocally | backend/src/endpoints/certificate/certificate.service.ts:366-379 | one batch: rows that need no call are settled, the others listed in order, other companies untouched |
| Certificates.ReplySettles | backend/src/endpoints/certificate/certificate.service.ts:392-392 | merging a pointwise reply settles every row of the batch |
| Certificates.VerifyRows | backend/src/endpoints/certificate/certificate.service.ts:359-394 | the batch loop settles every latest certificate, asks about each that needs it exactly once and in order, never more than 50 at a time |
| Certificates.AskedExactly | backend/src/endpoints/certificate/certificate.service.ts:362-379 | ICID is asked about exactly the rows with a file that have not expired |
| Certificates.VerifyAllCompanyCertificate | backend/src/endpoints/certificate/certificate.service.ts:312-396 | from the request, with the not-found and no-certificate cases: for each company listed with a certificate the answer is true if and only if now is not after the expiry of its first one (a null one counting as 0) and the file of that is absent or not revoked; true for nothing else; at most 50 asked about at a time |
| Certificates.BatchedEqualsSingle | backend/src/endpoints/certificate/certificate.service.ts:312-396 | for every listed id of a company, reading the batched result gives what the single check gives; premises: one fixed now, one tie-break, and that ICID answers any batch naming each company once as it would answer each entry alone |
| Certificates.BatchNamesOnce | backend/src/endpoints/certificate/certificate.service.ts:366-379 | no batch sent to ICID names a company twice, so that premise applies to every call made |
| Certificates.LatestIsUnique | backend/src/endpoints/certificate/certificate.service.ts:333-342 | without ties DISTINCT ON and the ordered query pick the same row |
| PrivateKeys.HexRoundTrip | backend/src/endpoints/certificate/certificate.service.ts:57-69 | reading back the hex of any bytes gives the bytes |
| PrivateKeys.HexOfBytesExactly | backend/src/endpoints/certificate/certificate.service.ts:57-69 | a text is the hex of what is read from it if and only if it is pairs of lower-case digits |
| PrivateKeys.HexAt | backend/src/endpoints/certificate/certificate.service.ts:57-57 | two lower-case digits for each byte, the higher half first |
| PrivateKeys.FrameRoundTrip | backend/src/endpoints/certificate/certificate.service.ts:57-69 | splitting a frame at ':' gives back its two parts |
| PrivateKeys.FrameExactly | backend/src/endpoints/certificate/certificate.service.ts:42-58 | what is stored: 32 digits of the vector, a colon, the digits of the cipher text; only with a 32-byte key |
| PrivateKeys.DecryptUndoesEncrypt | backend/src/endpoints/certificate/certificate.service.ts:42-78 | whatever is encrypted decrypts to itself, for every initialisation vector, over any invertible cipher |
| CertificateKeys.KeyTable.Generate | backend/src/endpoints/certificate/certificate.service.ts:84-141 | refused to other companies' callers and without the right; otherwise one row that stands for the key ICID made, or nothing if any step fails |
| CertificateKeys.KeyTable.Reveal | backend/src/endpoints/certificate/certificate.service.ts:197-237 | to callers of the company with the right, and to nobody else, exactly the key of its latest certificate, any number of times, until it is deleted |
| CertificateKeys.KeyTable.DeletePrivateKey | backend/src/endpoints/certificate/certificate.service.ts:440-472 | forgets the latest certificate's key and no other, for callers of the company with the right |
| CertificateKeys.CheckedExactly | backend/src/endpoints/certificate/certificate.service.ts:197-211 | who is let through, in token and rows |
| CertificateKeys.ListedFirstExactly | backend/src/endpoints/certificate/certificate.service.ts:212-215 | which certificate is the latest, in the columns expiry and creation |
| CertificateKeys.LatestExists | backend/src/endpoints/certificate/certificate.service.ts:212-221 | a company with a certificate has one that comes first |
| CertificateKeys.NewestIsLatest | backend/src/endpoints/certificate/certificate.service.ts:212-215 | a certificate that comes before every other one is the one revealed |
| AssetMigration.LowestGrantSurvives | backend/src/migrations/1785000000000-MergeAssetsRetireProductRbac.ts:55-59 | exactly the lowest-id row of each user survives, and every row without a user |
| AssetMigration.OneGrantPerUser | backend/src/migrations/1785000000000-MergeAssetsRetireProductRbac.ts:53-70 | every user who had a grant has exactly one |
| AssetMigration.InsertFromTwins | backend/src/migrations/1785000000000-MergeAssetsRetireProductRbac.ts:86-100 | the two INSERT statements, visiting twins in any order, succeed if and only if the tables can be merged, and then yield the merge |
| AssetMigration.InsertTwin | backend/src/migrations/1785000000000-MergeAssetsRetireProductRbac.ts:90-100 | one twin: it updates the row with its key, adds a row, or fails exactly when it would add one under an id that is taken |
| AssetMigration.CanMergeOnColumns | backend/src/migrations/1785000000000-MergeAssetsRetireProductRbac.ts:75-100 | the tables can be merged if and only if no two physical rows have both key columns set and equal, and each twin whose id a physical row has shares its key with one |
| AssetMigration.MergeOnColumns | backend/src/migrations/1785000000000-MergeAssetsRetireProductRbac.ts:86-100 | each row of the merge, column by column, from the source rows |
| AssetMigration.MergeHasOneRowPerKey | backend/src/migrations/1785000000000-MergeAssetsRetireProductRbac.ts:75-100 | one row for each (company, URN) key in either source table, no two rows with one key |
| AssetMigration.SizeOfMerge | backend/src/migrations/1785000000000-MergeAssetsRetireProductRbac.ts:86-100 | both tables' rows together, less the twins that share a key |
| AssetMigration.UpAfterDown | backend/src/migrations/1785000000000-MergeAssetsRetireProductRbac.ts:123-133 | up after down succeeds and is the identity if and only if every row that is no twin has neither owner nor factory |
| AssetMigration.SplitOnColumns | backend/src/migrations/1785000000000-MergeAssetsRetireProductRbac.ts:123-133 | what goes back to which table, column by column |
| AssetMigration.DownAfterUp | backend/src/migrations/1785000000000-MergeAssetsRetireProductRbac.ts:105-133 | every twin comes back with its fields under the id of the row it was merged with, every physical row without a twin comes back, and nothing else does |
| AssetMigration.DownAfterUpIsIdentity | backend/src/migrations/1785000000000-MergeAssetsRetireProductRbac.ts:105-133 | the source tables come back if and only if no key was in both |
| AssetMigration.Database.Up | backend/src/migrations/1785000000000-MergeAssetsRetireProductRbac.ts:47-103 | all six tables afterwards, the new unique constraints satisfied; fails, changing nothing, if and only if the merge is impossible |
| AssetMigration.GrantsComeBackExactly | backend/src/migrations/1785000000000-MergeAssetsRetireProductRbac.ts:145-160 | up and then down give the grants back if and only if no user had two and none named a product |
| AssetMigration.RolesOnColumns | backend/src/migrations/1785000000000-MergeAssetsRetireProductRbac.ts:66-70 | dropping and adding the product column keeps user and group of every row |
| AssetMigration.RolesSurviveDownAndUp | backend/src/migrations/1785000000000-MergeAssetsRetireProductRbac.ts:53-70 | after up no user has two roles, and down and up again change roles exactly if that does not hold |
| CategorySeed.FirstOfNameSurvives | backend/src/migrations/1787000000000-SeedCompanyCategories.ts:46-50 | a row survives if and only if no earlier row has its name |
| CategorySeed.DeduplicatedNames | backend/src/migrations/1787000000000-SeedCompanyCategories.ts:46-54 | afterwards names are unique and none is lost, so the index can be created |
| CategorySeed.CategoryTable.Up | backend/src/migrations/1787000000000-SeedCompanyCategories.ts:42-64 | the survivors untouched, then for each missing predefined name one new row with the id drawn for that name |
| CategorySeed.InsertedExactly | backend/src/migrations/1787000000000-SeedCompanyCategories.ts:56-63 | the k-th statement adds its row, with the k-th id, if and only if the table did not have the name |
| CategorySeed.EachPredefinedNameOnce | backend/src/migrations/1787000000000-SeedCompanyCategories.ts:56-63 | every predefined name occurs exactly once |
| CategorySeed.PredefinedExactly | backend/src/migrations/1787000000000-SeedCompanyCategories.ts:56-63 | which names these are |
| CategorySeed.SeedingAgainChangesNothing | backend/src/migrations/1787000000000-SeedCompanyCategories.ts:38-40 | seeding a seeded table changes nothing, whatever ids are generated |
| CategorySeed.SurvivorsKeepTheirRow | backend/src/migrations/1787000000000-SeedCompanyCategories.ts:66-74 | the first row of a name keeps its id through up, and down removes it only if its name is predefined |
| PublicCompany.ResolvesEachCategory | backend/src/common/public-company.service.ts:97-120 | the two-query join gives each queried company the name of its last mapping that leads to a category |
| PublicCompany.BatchIsPointwise | backend/src/common/public-company.service.ts:63-95 | a batch gives each company, in place, what it would get alone |
| PublicCompany.ProjectionExactly | backend/src/common/public-company.service.ts:84-94 | which column each field of the answer shows |
| PublicCompany.CategoryOfExactly | backend/src/common/public-company.service.ts:97-120 | the category shown is that of the company's last mapping among those that lead to an existing one |
| PublicCompany.CategoryNameExactly | backend/src/common/public-company.service.ts:110-112 | a category id stands for the name in its last row |
| PublicCompany.PrivateColumnsNeverShow | backend/src/common/public-company.service.ts:84-94 | the projection depends on a company only through its id and the eight listed fields |
| PublicCompany.ListingsAgree | backend/src/endpoints/company/company.service.ts:1344-1358 | the two listings agree if and only if no mapping of the company leads to an existing category, or its last one does |
| PublicCompany.ListingsAgreeOnOneMapping | backend/src/endpoints/company/company.service.ts:1344-1358 | with at most one mapping per company they always agree |
| RecoveryThrottle.SharesMeansSameAddressOrIp | backend/src/endpoints/auth/auth.service.ts:1073-1078 | two requests share a key if and only if folded addresses or caller IPs are equal |
| RecoveryThrottle.LetInExactly | backend/src/endpoints/auth/auth.service.ts:1073-1093 | a request is let in if and only if no accepted one before it with its address or IP is less than 60000 ms old |
| RecoveryThrottle.AnsweredExactly | backend/src/endpoints/auth/auth.service.ts:1079-1121 | which of the three answers a request gets |
| RecoveryThrottle.LetInAreApart | backend/src/endpoints/auth/auth.service.ts:1079-1093 | accepted requests with the same address or IP are at least 60000 ms apart |
| RecoveryThrottle.RejectedLeavesNoTrace | backend/src/endpoints/auth/auth.service.ts:1079-1086 | dropping a rejected request changes no other answer, so it never extends a window |
| RecoveryThrottle.AnswersHideAccounts | backend/src/endpoints/auth/auth.service.ts:1095-1121 | the whole sequence of answers is that of an empty user table if and only if no accepted request for an account meets a delivery failure |
| RecoveryThrottle.HitMeansBlocked | backend/src/endpoints/auth/auth.service.ts:1079-1086 | looking the keys up in the cache decides the rule stated on the history alone |
| RecoveryThrottle.RecoveryService.RecoverPasswordRequest | backend/src/endpoints/auth/auth.service.ts:1056-1131 | one request: the answer, and the cache unchanged or marked under every key |
| RecoveryThrottle.RecoveryService.Serve | backend/src/endpoints/auth/auth.service.ts:1056-1131 | over any time-ordered history the cache computes the rule |
| AdminToken.KeycloakService.Run | backend/src/endpoints/auth/keycloak.service.ts:179-198 | any interleaving of starts and answers gives each call what the history says |
| AdminToken.ServedExactly | backend/src/endpoints/auth/keycloak.service.ts:179-198 | a token comes from the cache if and only if it is that of the last answer and more than ten seconds of its life are left, counted from that answer |
| AdminToken.AnsweredExactly | backend/src/endpoints/auth/keycloak.service.ts:190-198 | a call whose request is answered gets the token of that answer, one whose request is refused fails |
| AdminToken.FetchesOnlyWhenSpent | backend/src/endpoints/auth/keycloak.service.ts:180-190 | a call goes to Keycloak if and only if the last answer, if any, is within ten seconds of its end |
| AdminToken.NeverServedDead | backend/src/endpoints/auth/keycloak.service.ts:191-196 | a token is never served after the server let it expire if and only if its answer took at most ten seconds or it is too short-lived to be served |
| AdminToken.SlowAnswerIsServedDead | backend/src/endpoints/auth/keycloak.service.ts:179-196 | any other answer is served dead to a call at the right moment |
| AdminToken.DeadTokenServed | backend/src/endpoints/auth/keycloak.service.ts:179-196 | a history in which it is |
| AdminToken.ServedTokensAreAlive | backend/src/endpoints/auth/keycloak.service.ts:179-198 | so with answers within ten seconds every token from the cache is alive, in every interleaving |
| PersonName.TokensNormalise | backend/src/endpoints/auth/keycloak.service.ts:56-59 | the tokens are non-empty and free of white space, and joined by spaces are the normalised name |
| PersonName.NormalisedByWords | backend/src/endpoints/auth/keycloak.service.ts:56-59 | what the normalised name is: white space before a word is dropped, and between it and the next word is one space |
| PersonName.TrimExactly | backend/src/endpoints/auth/keycloak.service.ts:56-57 | trimming takes white space off both ends and nothing else, and leaves none there |
| PersonName.IsSpaceExactly | backend/src/endpoints/auth/keycloak.service.ts:56-59 | the code points that are white space |
| PersonName.NormalisedKeepsTokens | backend/src/endpoints/auth/keycloak.service.ts:56-59 | normalising changes no token and is idempotent |
| PersonName.NeverEmpty | backend/src/endpoints/auth/keycloak.service.ts:52-68 | neither name is ever empty |
| PersonName.BlankExactly | backend/src/endpoints/auth/keycloak.service.ts:39-44 | a name is blank if and only if the given name is blank and the local part is non-empty white space |
| PersonName.BlankNamesOccur | backend/src/endpoints/auth/keycloak.service.ts:60-63 | a missing name and an address for which both names are a space |
| PersonName.NothingIsLost | backend/src/endpoints/auth/keycloak.service.ts:64-67 | of two words or more, first + space + last is the normalised name; of one word both are the word |
| PersonName.NamelessExactly | backend/src/endpoints/auth/keycloak.service.ts:60-63 | without a name both are the address up to its first @, or "user" if that is empty |
| PersonName.SplitAgainExactly | backend/src/endpoints/auth/keycloak.service.ts:52-68 | putting the names together and splitting again gives the same pair if and only if the name is not blank or the local part is free of, or nothing but, white space |

## Left out

- HTTP controllers, guards, DTO wiring, status messages, environment checks: no property of their own.
- Request bodies carry only the fields their DTOs declare; the interfaces are not enforced at run time, and extra keys would be written by the pass-through updates.
- Interleavings of two requests between a check and its write, and a database failure half-way through a request, except where a fault is modelled (createCompany, createCompanyUser, updateCompany, updateCompanyUser, updateAccessGroup, createAsset, createFactory, deleteCompanyUser). For deleteCompany, which is not one transaction, `CompanyDeletion` covers each point in between as far as tokens are concerned; histories are of requests that ran to their end.
- updateFactory and addStatusDetail (which write columns nothing branches on), devices' creation and deletion, product lookups, logins, paging and lookups by id: they would add only easy steps; gateways and servers are in the model for deleteCompany only.
- Passwords, timestamps, meta_data and images of users, and the columns nothing branches on, which are one opaque profile.
- deleteCompany keeps Keycloak accounts, factories, certificates and other companies' owner references; the model keeps them too and asserts nothing beyond that.
- Groups without a company, which only the seeding script creates.
- An ICID answer with an empty URN: `Urn` is non-empty.
- generateId as a random ObjectId: modelled as a counter, so ids are fresh by construction.
- JWT verification, axios, AES and UTF-8 internals, country tables and password generation: parameters or fault choices.
- verifyAllCompanyCertificate's catch block, updateLatestCompanyCertificateExpiry, and two companies or certificates read at different times within one call: one fixed "now".
- RecoveryThrottle.RecoveryService.RecoverPasswordRequest: lower-casing is an abstract function, and the cache never evicts early.
- Registration.CreateCompany: a connection that cannot be acquired or released, and what the hook adds to a successful answer. Whether a transaction whose start threw counts as active is up to the database library, so it is a parameter.
- AssetMigration.Database.Up: column types are those of the model, and indexes other than unique ones are left out.
- CertificateKeys.KeyTable.Reveal: a NULL private_key, which this service never writes, and a secret that changes while keys are stored.
- SchemaRefs.CollectSchemaRefs: names inherited from Object.prototype, such as `__proto__`, are treated as absent from the schema table.
- RegistryOutcomes.UniqueOwnersAreTheOwners: the access checks before the query, and the columns shown of each owner.
