# Reconcile loops of the Solr user operator, modelled and proved

The operator keeps two kinds of custom resource in step with the outside world. A `User` gets a
Kubernetes Secret (username, password, endpoint, host name), a user in Solr with that password, and
the default roles. A `Collection` gets a ConfigMap that publishes a collection name. Each is handled
by a reconcile pass that reads and writes several stores, any call of which may fail, and that is
repeated.

`dafny verify dfyconfig.toml` checks the whole project.

## How the model is built

- `GoValues`, `Base64`, `Credentials`: byte strings, base64 (section 4 of RFC 4648, with the
  leniency of Go's decoder), Solr's credential strings, and the lazily filled `CredInfo` cache with
  its salt slice over a larger buffer.
- `SolrClient`: Solr's credentials, roles and collections, and the client that reads and writes them.
- `Conditions`, `Cluster`: status condition lists, and the API server: the custom resource with its
  finaliser, and one document (Secret or ConfigMap) whose whole history is kept. The resource version
  of a state is its index in that history, so "create fails if it exists" and "update fails on a
  version mismatch" are facts of the model, and a stale read is a read some versions back.
- `UserPlan`, `CollectionPlan`: what one pass does, as a function of the stores and of an oracle that
  says for every call whether it takes effect and whether it is answered. No plan reads a stored
  condition; it only says which conditions are set, in which order.
- `UserReconciler`, `CollectionReconciler`: the passes as classes whose methods follow the source
  statement by statement, on mutable objects, branching on conditions as the source does. Each method
  is proved to do exactly what its plan says: stores, calls in order, status conditions, errors. Some
  source methods are cut into a few smaller ones.
- `UserRuns`, `UserSafety`, `UserConvergence`, `UserDeletion`, `UserLedger`, `UserConditions`,
  `CollectionRuns`, `CollectionRemoval`, `CollectionConditions`: theorems about the plans, most of them
  about every run, that is, every sequence of passes with any outcomes mixed with outside changes.
- `UserOutcomes`, `UserStatus`, `UserScenarios`, `CollectionOutcomes`: what any single pass reports,
  publishes and leaves alone, answer by answer, and some whole passes written out.

## Hypotheses that the theorems name

- A Solr POST without an error was answered, not necessarily applied, because the HTTP status of a POST
  is not looked at (`internal/controller/solr/solr.go:101-106`). `Reply.Honest` is the assumption
  "answered means applied"; it is required only where stated.
- `wire` is what JSON encoding makes of a string. Results that compare what was sent with what is
  stored require `wire(x) == x`, which holds for UTF-8. `MangledPasswordAnswer` says exactly when they
  fail otherwise.
- `DistinctKeys`: the four resolved secret keys differ. Credential stability does not assume it;
  `StoredEntryReplacedIff` says what keys that are configured alike do.
- The custom resource is read as it is; only reads of the Secret and of the ConfigMap may be stale. A
  stale read also stands for an outside write between the read and the update of one pass.

## Properties the source does not have, and their exact conditions

- Deletion does not always remove the user that the status publishes. It does exactly when
  `SecretPointsTo` holds (`PublishedUserRemovedIff`); `EmptySecretLeavesPublishedUser` is a case.
- Deletion does not always remove the user that the stored secret names either. When the finaliser
  comes off after a current or failed read of the secret, that user is gone exactly when the read was
  current or the status names the same user (`SecretUserRemovedIff`); `FailedReadLeavesSecretUser`
  and, from the very first pass on, `OneLeftoverWithoutStatus` are cases.
- Not every failing call leaves the finaliser in place. `ReleasesIff` lists the calls that do: a failed
  read of the secret is not among them, and an update that removes the finaliser but whose answer is
  lost fails with the finaliser off.
- A released user's roles are not always gone: their removal is asked for only when the whole default
  set is held. They are gone exactly if it was, or if there were none (`ReleaseMeansRemoved`);
  `PartOfTheRolesStays` is a case.
- Deletion does not always end: with a stored secret and an endpoint that does not parse, or a Solr
  entry of the user that cannot be read, no pass releases the User (`SmoothDeletionReleasesIff`,
  `BlockedForever`; `EmptyEntryBlocksForever` is a case).
- Available True does not mean that the secret holds the credentials, because a failed update of the
  secret is only logged, and the copy that was read may be stale: `AvailableIsSettledIff`, with
  `UnstoredSecretIsAvailable` as a case.
- A stored username or password is replaced if and only if its key is also the endpoint's or the host
  name's, the pass stores a version, and the value differs (`StoredEntryReplacedIff`,
  `SmoothPassReplacesIff`; `SharedKeyReplacesUsername` is a case).
- A stale read of the secret can unsettle a settled User: `SeenVersionLooksSettled`,
  `StaleReadDisturbsIff` and `StaleReadKeepsSettledIff` say exactly which do, and
  `EmptyReadMintsSecondUser` and `StaleReadMintsSecondUser` what follows.
- A converged pass does not always publish the secret's username: `OnePassConverges` gives the exact
  exception, an empty username already in the secret while the status has another
  (`EmptyUsernameStays` is a case).
- With another controller's finaliser present, a User is brought up again after clean-up
  (`ForeignFinaliserRevives`); without one the finaliser always comes first (`AlwaysFinalisedFirst`).
- A published collection name can be replaced when the two reads of one pass straddle its publication,
  and only then (`NameReplacedIff`, `StaleLookReplacesName`).
- Available True does not always mean that the config map holds the Collection's name. A pass whose
  first read is stale can claim a name it saw but that is published no more, or leave an old claim
  standing over a name it replaced: `LeavesHonest` is the exact condition (`PassStaysHonestIff`,
  `AlwaysHonest`), `StaleLookClaimsOldName` and `StaleLookLeavesFalseClaim` are cases.
- Under the policy "delete" the published collection is taken away only if the status names the same
  one (`PublishedCollectionRemovedIff`); `UnstoredNameLeavesPublished` is a case.

## Model

| member | source | states |
|---|---|---|
| GoValues.SplitJoined | internal/controller/solr/solr_response_types.go:65-71 | two separator-free halves joined by one separator split into exactly those two parts |
| GoValues.SplitCount | internal/controller/solr/solr_response_types.go:65-69 | a string splits into one part more than it has separators |
| GoValues.HexAt | internal/controller/user_controller.go:502-513 | every random byte shows as two lower-case hexadecimal digits, the high one first |
| GoValues.HexInjective | internal/controller/user_controller.go:502-513 | different random bytes print differently |
| Base64.RoundTrip | internal/controller/solr/solr_response_types.go:73-85 | decoding an encoded byte string gives it back, for every byte string |
| Base64.ReadIffWellFormed | internal/controller/solr/solr_response_types.go:73-85 | what can be read is exactly: a length divisible by four, digits of the alphabet, at most two padding characters at the end |
| Base64.NewlinesDoNotCount | internal/controller/solr/solr_response_types.go:73-85 | a line end anywhere changes nothing in what is read |
| Base64.AlphabetOfTheStandard | internal/controller/solr/solr_response_types.go:73-85 | the digits are those of the standard's table |
| Base64.TestVectors | internal/controller/solr/solr_response_types.go:73-85 | test vectors of the standard, and unused bits that are not zero |
| Credentials.PrintParses | internal/controller/solr/solr_response_types.go:59-88 | a printed credential splits into exactly two parts and parses to the salted double digest and the salt |
| Credentials.PrintedChecks | internal/controller/solr/solr_response_types.go:90-100 | a printed credential accepts a candidate if and only if the salted double digests agree, for any digest function |
| Credentials.OrdinaryEntryChecks | internal/controller/solr/solr_response_types.go:90-100 | written out: an entry of the twice applied digest of salt and password accepts exactly the candidates whose twice applied digest with that salt is the same |
| Credentials.ReadableIff | internal/controller/solr/solr_response_types.go:59-88 | only entries with one space can be checked, and those exactly if both halves are base64 |
| Credentials.RefilledFields | internal/controller/solr/solr_response_types.go:59-88 | what filling the cache leaves in its fields, also when it fails half way: a failed salt leaves the hash set and the salt nil |
| Credentials.CachedCheckIsCheck | internal/controller/solr/solr_response_types.go:59-100 | one check on a cache that agrees with the raw string answers as a stateless parse and leaves the cache in agreement, although spare salt room is overwritten |
| Credentials.CachedChecksAreChecks | internal/controller/solr/solr_response_types.go:59-100 | every answer in any sequence of checks on one credential is the stateless one |
| Credentials.Append | internal/controller/solr/solr_response_types.go:95 | append combines slice and candidate, in place when the buffer has room and in a new buffer otherwise |
| Credentials.CredInfo.EnsureSplit | internal/controller/solr/solr_response_types.go:59-88 | fills the four fields once, keeping the cache in agreement with the raw string; a failed salt decode leaves the hash set and the salt nil |
| Credentials.CredInfo.CheckPassword | internal/controller/solr/solr_response_types.go:90-100 | answers the stateless check however often it is called |
| SolrClient.StringSet.AddAll | internal/controller/solr/solr.go:238-243 | the loop adds exactly the given values |
| SolrClient.StringSet.KeySet | internal/controller/solr/solr.go:245-247 | lists the members once each, in no promised order |
| SolrClient.Client.CreateUser | internal/controller/solr/solr.go:117-127 | a reached POST stores the printed credential under the name that arrives; the error says only whether it was answered |
| SolrClient.Client.UpdateUser | internal/controller/solr/solr.go:129-132 | is a user creation |
| SolrClient.Client.CheckUserExistence | internal/controller/solr/solr.go:143-146 | tells whether Solr has credentials for the name |
| SolrClient.Client.CheckUser | internal/controller/solr/solr.go:148-157 | false for an unknown user, otherwise the stateless check of the stored credential, with its error |
| SolrClient.Client.DeleteUser | internal/controller/solr/solr.go:222-230 | a reached POST removes exactly that user's credential |
| SolrClient.Client.ReadRoles | internal/controller/solr/solr.go:255-266 | the assigned roles, none for a user without an entry |
| SolrClient.Client.HasRoles | internal/controller/solr/solr.go:268-281 | true if and only if the default roles are a subset of the assigned ones |
| SolrClient.Client.UpsertRoles | internal/controller/solr/solr.go:283-301 | stores the union with the default roles without duplicates in any iteration order, other users' entries unchanged |
| SolrClient.Client.DeleteRoles | internal/controller/solr/solr.go:303-313 | a reached POST removes exactly that user's entry |
| SolrClient.Client.CollectionExists | internal/controller/solr/solr.go:332-338 | tells whether the listing contains the name |
| SolrClient.Client.DeleteCollection | internal/controller/solr/solr.go:340-352 | no error means that Solr dropped exactly that collection |
| SolrClient.StoredUserIsAccepted | internal/controller/solr/solr.go:117-157 | what a user write stored a user check accepts, no other user appears, vanishes or gets another credential, and roles stay |
| SolrClient.WritesAreExact | internal/controller/solr/solr.go:117-127 | a user or role write puts one entry under the name that arrives and changes nothing else |
| SolrClient.RemovalsAreExact | internal/controller/solr/solr.go:222-230 | dropping a user, its roles or a collection takes away that entry and nothing else |
| SolrClient.MangledPasswordAnswer | internal/controller/solr/solr.go:117-127 | the written password is accepted if and only if what arrived has the same salted double digest |
| SolrClient.UpsertIsUnion | internal/controller/solr/solr.go:268-301 | upserting is exact union, makes the role check true, leaves others alone, and changes nothing the second time |
| SolrClient.DefaultRolesByName | internal/controller/solr/solr.go:268-301 | the check asks for, and the upsert grants, admin and k8s, on top of what was there |
| UserReconciler.CredentialSet.ExtractFromSecret | internal/controller/user_controller.go:271-314 | copies exactly the fields whose resolved keys are in the secret and marks each as present or not |
| UserReconciler.UserReconciler.GetSecret | internal/controller/user_controller.go:179-243 | loads the secret, or creates it when asked and it does not exist; on success SecretExists is True |
| UserReconciler.UserReconciler.GetCredentialsFromSecret | internal/controller/user_controller.go:316-337 | credentials from the secret, username from the status when missing or empty |
| UserReconciler.UserReconciler.ReconcileSecret | internal/controller/user_controller.go:480-641 | mints and fills in exactly what is missing or outdated, abandons without conditions on an error, and sums up SecretAvailable |
| UserReconciler.UserReconciler.ReconcileObserveUser | internal/controller/user_controller.go:643-721 | after success the three conditions are what Solr holds now, whatever was stored |
| UserReconciler.UserReconciler.ReconcileUser | internal/controller/user_controller.go:339-478 | the stores, calls, status and error of a reconcile are those of the plan, which never sees a stored condition |
| UserReconciler.UserReconciler.Reconcile | internal/controller/user_controller.go:83-169 | one pass leaves exactly the planned stores, status conditions and calls, and the planned error and requeue |
| UserRuns.ReconcileVersions | internal/controller/user_controller.go:179-243 | the secret's history grows by at most one creation and one update, the update only onto the latest version |
| UserRuns.PassResource | internal/controller/user_controller.go:98-141 | which passes may add or take off the finaliser, and that a release follows a successful removal |
| UserRuns.FillingFailsIff | internal/controller/user_controller.go:480-593 | filling in the secret fails if and only if random bytes are missing where needed or the endpoint does not parse |
| UserOutcomes.PassFailsIff | internal/controller/user_controller.go:83-169 | exactly when a pass returns an error, for any pass, and that each error but the failed read of the User asks for a requeue |
| UserOutcomes.QuietPassReconciles | internal/controller/user_controller.go:92-96 | a pass without an error over an existing User had its client and reconciled |
| UserOutcomes.ResourceWrites | internal/controller/user_controller.go:98-168 | which writes of the User object a pass makes, and in which places: finaliser first, status last, removal of the finaliser only after success |
| UserOutcomes.PublishedNameIff | internal/controller/user_controller.go:373-436 | which name a pass publishes: the one it worked on as soon as Solr has that user, whatever fails after, else the old one |
| UserOutcomes.SentUserIsPublishedIff | internal/controller/user_controller.go:373-436 | a user whose creation was sent is published if the creation was answered, and the old name stays otherwise |
| UserOutcomes.ReconcileSends | internal/controller/user_controller.go:373-412 | exactly when a reconcile asks Solr to set a user, and with which name and password |
| UserOutcomes.SolrAfterEnsuring | internal/controller/user_controller.go:373-436 | after an ensuring reconcile Solr has exactly what was asked for and reached it, answered or not |
| UserOutcomes.SolrAfterRemoving | internal/controller/user_controller.go:452-476 | the same after a removing one |
| UserOutcomes.PassFrame | internal/controller/user_controller.go:339-478 | no pass touches the credential or the roles of any user but the one it works on, nor any collection |
| UserOutcomes.SettledSecretByKey | internal/controller/user_controller.go:252-269 | under the keys named in the spec or the documented default names, a settled secret holds username, accepted password, endpoint and host name |
| UserOutcomes.MintedByParts | internal/controller/user_controller.go:502-513 | a minted username is namespace, name and random bytes; different bytes give different names |
| UserOutcomes.SecretCreatedIff | internal/controller/user_controller.go:179-243 | exactly when a pass tries to create the secret and when it does, also after a failed read |
| UserStatus.ReconcileSucceedsIff | internal/controller/user_controller.go:339-451 | exactly when an ensuring reconcile succeeds, answer by answer |
| UserStatus.PreparedSays | internal/controller/user_controller.go:480-641 | a prepared secret is reported with all its conditions True |
| UserStatus.ReconcileSays | internal/controller/user_controller.go:643-721 | each condition of Solr is reported exactly if the pass got to it, and True exactly if it found it so or was answered that it is so now |
| UserStatus.StatusAfterPass | internal/controller/user_controller.go:98-168 | the status after any ensuring pass, condition by condition: what was reported, and UserAvailable for its success; without the last write, the Reconciling status or the stored one |
| UserStatus.SuccessIsReported | internal/controller/user_controller.go:143-168 | after a pass without an error all ten conditions are True |
| UserScenarios.FirstPass | internal/controller/user_controller.go:83-169 | a whole first pass written out: every store, every call in order, every condition with its reason |
| UserScenarios.FirstPassCounted | internal/controller/user_controller.go:373-444 | its one username is minted, sent and stored, in the counts that the bounds are about |
| UserScenarios.PasswordReset | internal/controller/user_controller.go:373-451 | a whole pass written out that finds another password and another role in Solr |
| UserScenarios.LastPass | internal/controller/user_controller.go:126-141 | a whole deleting pass written out |
| UserSafety.PassPreserves | internal/controller/user_controller.go:437-444 | no pass loses or changes a stored entry other than endpoint and host name, nor adds a foreign one |
| UserSafety.RunPreserves | internal/controller/user_controller.go:271-313 | the same over all runs, with any failures, stale reads, conflicts and keys |
| UserSafety.StoredCredentialKept | internal/controller/user_controller.go:271-313 | credential stability: over all runs a stored username or password is never changed unless its key is also a derived one, which distinct keys rule out |
| UserSafety.StoredEntryReplacedIff | internal/controller/user_controller.go:533-612 | a pass replaces a stored entry if and only if it stores a version, the key is the endpoint's or the host name's, and the derived value differs |
| UserSafety.SmoothPassReplacesIff | internal/controller/user_controller.go:533-612 | in a pass without failures that is decided by the key and the stored value alone |
| UserSafety.SharedKeyReplacesUsername | internal/controller/user_controller.go:252-269 | with username and endpoint under one key a concrete pass without failures replaces the stored username after creating that user |
| UserConvergence.DirtyIffChanged | internal/controller/user_controller.go:495-612 | the dirty flag is set if and only if the data changed |
| UserConvergence.SolrWritesWork | internal/controller/user_controller.go:368-436 | with trusted answers, successful Solr steps leave the wanted user accepted and holding the default roles |
| UserConvergence.SecretIsWrittenLast | internal/controller/user_controller.go:373-444 | whenever a pass sends an update of the secret, Solr already accepts the credentials it stores, whatever failed |
| UserConvergence.OnePassConverges | internal/controller/user_controller.go:143-168 | one pass without failures settles the User from any state and reports it available; the published name is the secret's exactly under the stated condition |
| UserConvergence.EmptyUsernameStays | internal/controller/user_controller.go:324-333 | a concrete secret with an empty username settles with that entry still empty |
| UserConvergence.SmoothPassFailsIff | internal/controller/user_controller.go:339-371 | when no call fails the pass fails if and only if the endpoint does not parse or Solr's entry for the user is malformed |
| UserConvergence.AvailableIsSettledIff | internal/controller/user_controller.go:437-451 | after any successful pass the User is available; it is settled if and only if the update of the latest secret reached the server, or the stored secret is complete and answers for the credentials the pass used; with a current read, if and only if it was complete or its update reached the server |
| UserConvergence.UnstoredSecretIsAvailable | internal/controller/user_controller.go:437-444 | a concrete first pass whose update of the secret is lost reports success and an available User that is not settled |
| UserConvergence.SettledStays | internal/controller/user_controller.go:373-451 | from a settled state a pass to which the User looks settled sends Solr no write and changes neither Solr nor the secret, whatever fails |
| UserConvergence.SeenVersionLooksSettled | internal/controller/user_controller.go:316-337 | exactly which seen versions of the secret make a settled User look settled: none, one that cannot be filled in, or one whose resolved user has an unreadable entry or is the settled one with an accepted password |
| UserConvergence.FreshReadLooksSettled | internal/controller/user_controller.go:179-243 | current and failed reads are among them |
| UserConvergence.StaleReadDisturbsIff | internal/controller/user_controller.go:373-451 | when nothing but the read goes wrong, a pass leaves Solr and the published name alone if and only if the User looks settled to it |
| UserConvergence.StaleReadKeepsSettledIff | internal/controller/user_controller.go:373-451 | and leaves the User settled exactly then, or if name and password answer for the stored ones all the same |
| UserConvergence.EmptyReadMintsSecondUser | internal/controller/user_controller.go:502-531 | a stale read of the secret as it was created makes a pass without errors create a second user and publish it |
| UserConvergence.StaleReadMintsSecondUser | internal/controller/user_controller.go:502-531 | a concrete settled world and stale read in which that happens |
| UserConvergence.SettledSmoothPassOnlyLooks | internal/controller/user_controller.go:373-451 | a failure-free pass from a settled state makes only the listed reads and the status write |
| UserConvergence.SettledForever | internal/controller/user_controller.go:373-451 | a settled User stays settled over any number of passes to which it looks settled, whatever fails |
| UserDeletion.PreparedName | internal/controller/user_controller.go:316-366 | which name a deleting pass works on, in all cases of the secret |
| UserDeletion.RolesGoFirst | internal/controller/user_controller.go:452-476 | the resolved user is dropped only if present, and before it its roles are cleared, with an answer, if and only if it holds the whole default set |
| UserDeletion.ReleasesIff | internal/controller/user_controller.go:126-140 | exactly when a pass takes the finaliser off, call by call, and that the only error such a pass reports is the lost answer to its last update |
| UserDeletion.ReleaseMeansRemoved | internal/controller/user_controller.go:126-140 | whenever the finaliser comes off, the user that the pass resolved is gone, the calls its removal took were answered, and other users are untouched; its roles are gone if it held the whole default set and are as they were otherwise |
| UserDeletion.PartOfTheRolesStays | internal/controller/user_controller.go:455-463 | a concrete user with one default role is dropped and released without an error and keeps the role |
| UserDeletion.PublishedUserRemovedIff | internal/controller/user_controller.go:316-337 | the published user is removed if and only if the secret was not loaded or points to it |
| UserDeletion.SecretUserRemovedIff | internal/controller/user_controller.go:324-350 | the user that the stored secret names is removed if and only if the pass resolved it; after a current or failed read, if and only if the read was current or the status names it too |
| UserDeletion.EmptySecretLeavesPublishedUser | internal/controller/user_controller.go:502-529 | with an empty secret a deletion without failures releases the User and leaves the published user in Solr |
| UserDeletion.FailedReadLeavesSecretUser | internal/controller/user_controller.go:342-350 | a concrete failed read of the secret, with no name in the status, releases the User without an error and leaves the secret's user and its roles in Solr |
| UserDeletion.DeletingPassNeverAdds | internal/controller/user_controller.go:452-476 | whatever fails, a deleting pass adds nothing to what is pending for any user and leaves the secret alone |
| UserDeletion.DeletionResumesWithUser | internal/controller/user_controller.go:452-476 | once the roles of the resolved user are gone the next and only Solr write is the removal of the user, whatever the status says |
| UserDeletion.SmoothDeletionReleasesIff | internal/controller/user_controller.go:127-140 | without failures a deleting pass releases the User if and only if the endpoint parses or no secret is stored, and Solr's entry for the resolved user can be read |
| UserDeletion.SmoothRemovalCompletes | internal/controller/user_controller.go:127-140 | such a pass removes the object and leaves nothing pending for the resolved user, whatever name the status has |
| UserDeletion.DeletionCompletes | internal/controller/user_controller.go:127-140 | any sequence of trusted deleting passes that all resolve one user, one of them without failures, ends with the object gone and nothing pending |
| UserDeletion.AllForOneUser | internal/controller/user_controller.go:316-337 | they do resolve one user when secret and status agree and reads are current or fail, and when the secret names it and reads are current |
| UserDeletion.BlockedPassChangesNothing | internal/controller/user_controller.go:339-371 | a deleting pass that meets an unparsable endpoint or a malformed Solr entry leaves every store as it is, whatever else happens |
| UserDeletion.BlockedForever | internal/controller/user_controller.go:126-140 | so the finaliser stays through any number of such passes |
| UserDeletion.MalformedEntryBlocks | internal/controller/user_controller.go:339-371 | a malformed Solr entry for the user that the secret names, or that secret and status agree on, makes every such pass one of them |
| UserDeletion.EmptyEntryBlocksForever | internal/controller/user_controller.go:339-371 | a concrete empty Solr entry that no sequence of passes gets past |
| UserLedger.PersistedOnce | internal/controller/user_controller.go:502-531 | a pass that stores its minted username found none stored, and a stored one stays |
| UserLedger.BoundedOrphans | internal/controller/user_controller.go:339-451 | over all runs, with stale secret reads and secret writes by others, minted usernames sent to Solr number at most one more than the minting passes that did not store theirs and those writes; for usernames sent on minting, only passes that sent theirs count |
| UserLedger.LeftoversBounded | internal/controller/user_controller.go:126-140 | end to end, users left behind in Solr after any release are at most one more than the minting passes whose username was not stored; with trusted removals the one more is there only if the stored user stays, and if all were stored something is left if and only if it does |
| UserLedger.OneLeftoverWithoutStatus | internal/controller/user_controller.go:143-168 | a concrete run with a lost status write and then a failed secret read leaves its one user behind although every username was stored |
| UserLedger.CreationIsFinalised | internal/controller/user_controller.go:98-143 | after a pass that attempts a creation the object is finalised if and only if it was, or was not being deleted |
| UserLedger.AlwaysFinalisedFirst | internal/controller/user_controller.go:98-143 | in every reachable state without foreign finalisers, an object for which a creation was attempted carries the finaliser |
| UserLedger.ForeignFinaliserRevives | internal/controller/user_controller.go:126-143 | a released object kept by a foreign finaliser is created for again, unfinalised |
| UserConditions.PassIgnoresConditions | internal/controller/user_controller.go:83-169 | passes from worlds that differ only in stored conditions make the same calls and end alike |
| UserConditions.RunIgnoresConditions | internal/controller/user_controller.go:83-169 | the same for whole runs, call by call |
| UserConditions.FilledSecretIsAvailable | internal/controller/user_controller.go:614-640 | a filled-in secret is SecretAvailable from any stored conditions, so the dirty-but-not-available error is unreachable |
| CollectionReconciler.CollectionReconciler.ObserveCollection | internal/controller/collection_controller.go:190-248 | after observing, the three map conditions say what was read, and the published name is in the status |
| CollectionReconciler.CollectionReconciler.CheckMapStatus | internal/controller/collection_controller.go:250-274 | ConfigMapAvailable becomes True exactly when both parts are |
| CollectionReconciler.CollectionReconciler.UpdateCollection | internal/controller/collection_controller.go:281-353 | creates or re-reads the map, mints when no name was observed, keeps the minted name in the status even if storing it fails |
| CollectionReconciler.CollectionReconciler.DeleteCollection | internal/controller/collection_controller.go:355-389 | applies the removal policy to the collection named in the status |
| CollectionReconciler.CollectionReconciler.Reconcile | internal/controller/collection_controller.go:69-178 | one pass leaves exactly the planned stores, status conditions and calls, and the planned error and requeue |
| CollectionOutcomes.PassFailsIff | internal/controller/collection_controller.go:69-178 | exactly when a pass returns an error, for any pass, and that each error but the failed read of the Collection asks for a requeue |
| CollectionOutcomes.ResourceWrites | internal/controller/collection_controller.go:86-175 | the same for the Collection object |
| CollectionOutcomes.DeletionFailsIff | internal/controller/collection_controller.go:355-389 | exactly when the deletion in Solr is an error, by policy and call by call |
| CollectionOutcomes.MintedByParts | internal/controller/collection_controller.go:316-327 | a minted name is coll, namespace and random bytes; different bytes give different names |
| CollectionOutcomes.EnsuredNameAndMap | internal/controller/collection_controller.go:281-353 | which name an ensuring pass works out, whether it stores it, and when it is ready, by what its reads saw and its writes reached |
| CollectionOutcomes.ObservationSays | internal/controller/collection_controller.go:190-274 | a failed read reports existence unknown, a missing map False, and availability is the map with its name |
| CollectionOutcomes.EnsuredSays | internal/controller/collection_controller.go:281-353 | each condition of the map is True in the end exactly if it was found or made so |
| CollectionOutcomes.StatusAfterPass | internal/controller/collection_controller.go:86-175 | the status after any ensuring pass, condition by condition |
| CollectionOutcomes.FirstPass | internal/controller/collection_controller.go:69-178 | a whole first pass written out: every store, every call in order, every condition with its reason |
| CollectionOutcomes.CompletingPass | internal/controller/collection_controller.go:303-350 | a whole pass written out that completes a map without a name |
| CollectionOutcomes.LookingPass | internal/controller/collection_controller.go:130-178 | a whole pass written out over a published name |
| CollectionOutcomes.LastPass | internal/controller/collection_controller.go:113-127 | a deleting pass written out under the policy delete, over any world |
| CollectionRuns.NameReplacedIff | internal/controller/collection_controller.go:281-353 | a published name is replaced if and only if the first read saw an old map without a name and the second the current one |
| CollectionRuns.PassKeepsMap | internal/controller/collection_controller.go:303-342 | no pass deletes the map or touches another entry |
| CollectionRuns.NameStable | internal/controller/collection_controller.go:190-248 | a published name is stable over all runs whose first reads are current or fail |
| CollectionRuns.StaleLookReplacesName | internal/controller/collection_controller.go:303-314 | a concrete stale first read that makes a pass replace the published name |
| CollectionRuns.PassStaysHonestIff | internal/controller/collection_controller.go:130-178 | exactly when a pass keeps an honest readiness honest, by what its first read saw and what its writes reached |
| CollectionRuns.AlwaysHonest | internal/controller/collection_controller.go:154-170 | Available True means that the stored map holds the status' name in every state of a run if and only if every pass of it meets that condition |
| CollectionRuns.FreshLooksStayHonest | internal/controller/collection_controller.go:130-178 | it does in every reachable state when no first read of the map is stale, whatever else fails or lags |
| CollectionRuns.StaleLookLeavesFalseClaim | internal/controller/collection_controller.go:303-314 | a concrete stale first read after which an old claim of availability stands over a replaced name |
| CollectionRuns.StaleLookClaimsOldName | internal/controller/collection_controller.go:222-248 | a concrete stale first read of an old name, which the pass then reports available |
| CollectionRuns.ReadyIff | internal/controller/collection_controller.go:130-178 | a pass with a current first read reports Available if and only if a name was published or could be stored |
| CollectionRuns.UnstoredNameIsNotReady | internal/controller/collection_controller.go:327-350 | a failed map update leaves the map not ready although HasCollection was set True |
| CollectionRemoval.PassDropsOnlyNamed | internal/controller/collection_controller.go:355-389 | a pass asks for and performs no drop but of the collection the policy and the status name |
| CollectionRemoval.ReleaseMeansPolicyApplied | internal/controller/collection_controller.go:113-127 | the finaliser comes off only without a name, under retain, or once the named collection is absent |
| CollectionRemoval.ReleasesIff | internal/controller/collection_controller.go:113-127 | exactly when the finaliser comes off, by policy and call by call, and what error a release can report |
| CollectionRemoval.UsersAreUntouched | internal/controller/collection_controller.go:355-389 | no pass touches a user in Solr, and only a deleting one touches Solr |
| CollectionRemoval.PublishedCollectionRemovedIff | internal/controller/collection_controller.go:355-389 | a release takes the published collection away if and only if the policy is delete and the status names it |
| CollectionRemoval.UnstoredNameLeavesPublished | internal/controller/collection_controller.go:355-389 | a concrete unstored name in the status, under delete, leaves the published collection in Solr after a release without an error |
| CollectionRemoval.SmoothDeletionReleasesIff | internal/controller/collection_controller.go:355-389 | without failures the finaliser comes off if and only if there is no name or the policy is a known one |
| CollectionRemoval.RetainedForever | internal/controller/collection_controller.go:382-383 | under any policy but delete no run takes a collection away |
| CollectionRemoval.OnlyNamedAreDropped | internal/controller/collection_controller.go:364-381 | whatever a run takes away was named by the status at some moment, under the policy delete |
| CollectionRemoval.StuckForever | internal/controller/collection_controller.go:384-386 | an unrecognised policy with a name keeps the finaliser in every continuation |
| CollectionConditions.RunIgnoresConditions | internal/controller/collection_controller.go:69-178 | stored conditions steer no run, call by call |
| CollectionConditions.ObservationSummary | internal/controller/collection_controller.go:131-144 | ConfigMapAvailable equals the conjunction of its parts from any stored conditions, so the not-all-clear update is unreachable |
| CollectionConditions.ObservedListIsAcceptable | internal/controller/collection_controller.go:217-247 | the condition set without a reason is repaired before the list can be written |
| CollectionConditions.AlwaysAcceptable | config/crd/bases/solr.dgicloud.com_collections.yaml:108-111 | in every reachable state the stored conditions have unique types and non-empty reasons |

## Left out

- HTTP, URL building, authentication headers and the JSON of requests and responses: a call is a read of a store or an oracle-decided update of it.
- SHA-256 and randomness: the digest is an arbitrary function, suffixes and password bytes are arbitrary, and uniqueness of names is claimed only by counting mints.
- `url.Parse` and `InternalURLForCloud`: the endpoint and its parsed host are constants of a configuration, or the endpoint does not parse.
- Construction of the Solr client in `solr_awareness.go`: one call that may fail.
- Concurrent passes for one object: controller-runtime serialises them; outside changes happen between passes, or show as stale reads.
- Stale reads of the custom resource itself, and edits of its spec or of the operator's finaliser by others.
- More than one User or Collection at a time: the others appear as outside changes to Solr.
- The order of API calls relative to Solr calls: each server's calls are recorded in order; `SecretIsWrittenLast` states the order that matters.
- Nil and empty data maps are one value, and an update that changes nothing still makes a new version.
- Error branches of `getSecretKey` and nil credentials: the four keys are static fields and the credentials are never nil, so they cannot be taken.
- The spare bytes behind a decoded salt start as zeros; the cache theorems hold for any content.
- Owner references and garbage collection, watches and their filters, condition messages and transition times, logging, `cmd/main.go`, metrics, RBAC and generated code.
- RunPreserves: covers runs without outside edits of the secret, since anybody else may overwrite it.
- StoredCredentialKept: covers the same runs.
- NameStable: covers runs without outside edits of the config map, since anybody else may overwrite it.
- AlwaysHonest: covers the same runs, with Collections that others do not create as available already.
- LeftoversBounded: covers runs without outside edits of the secret or of Solr, since anybody else may add users.
