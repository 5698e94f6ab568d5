# Verification of capp-backend

A Dafny model of the stateful protocols and the data transformations of capp-backend, with proofs of what they
keep and where they fall short. `dafny verify dfyconfig.toml` checks everything.

Code that works step by step on shared or mutable state is modelled by classes and methods, each proved equal to a
function of its inputs and the old state; the main results are lemmas about those functions, stated for every input
and every run. Faults, clocks, map iteration order and the answers of external systems are parameters or
nondeterministic choices.

| file | what it models |
|---|---|
| `GitOpsClient.dfy`, `GitOpsAnswers.dfy`, `GitOpsFleet.dfy`, `GitOpsFaults.dfy` | the local Git clone of one replica and what a call answers, any number of replicas on one remote branch, and local steps that fail |
| `Backup.dfy`, `BackupAnswers.dfy`, `BackupRuns.dfy` | the backup label and the values file: the calls, what each answers and writes, and one call at a time |
| `BackupOverlap.dfy`, `BackupReplacements.dfy`, `BackupPairs.dfy` | runs of calls that overlap: orderly ones, any number of updates and rollbacks, and every pair in every order |
| `Migration.dfy` | the migration of a Capp, against a target namespace that other writers change |
| `LdapTokens.dfy`, `KeyRotation.dfy` | LDAP access tokens, and the rotation of their signing keys across replicas |
| `LdapDirectory.dfy` | the password login sequence |
| `TokenCache.dfy`, `OAuthState.dfy` | the TokenReview cache and the stateless OAuth state |
| `RateLimit.dfy`, `RateLimitRuns.dfy`, `RateLimitWindows.dfy` | the bounded store of per-IP limiters, whole runs of it, and exactly which requests it admits |
| `ConfigKeys.dfy` | the walker over raw configuration keys |
| `CappTypes.dfy`, `CappConvert.dfy`, `CappRead.dfy`, `CappFaithful.dfy`, `CappRoundTrip.dfy` | requests to Capps, Capps to responses, what lands where, and how the two fit together |
| `CappUpdate.dfy`, `CappFlags.dfy` | the update command of the CLI: seed, flags, and what they change |
| `Namespaces.dfy` | quota updates and the users of a role binding |

## What does not hold

Each of these is a lemma or method with the exact condition, or with a concrete run.

- An unchanged sync promises that the returned commit holds the file and is on the branch. When the pull found nothing
  new it does iff HEAD was the remote and the file on disk the committed one; when the pull moved the clone it does
  unless an untracked file stayed on disk: `ShortcutSoundExactly`. A failed write, stage or commit is not cleaned up
  (`internal/gitops/client.go:147-161`), so a retry reports success although the remote never received the file:
  `RetryAfterLocalFault`, `RetryAfterMovedRemote`. If the change was staged, the next call on another file pushes it
  along: `LeftoverIsPushed`. If a pull was refused over an unstaged change, the next call undoes what others had pushed:
  `RefusedPullUndoes`.
- After a failed push whose reset failed too, and with an unmoved remote, a retry reports the stray commit as success
  and the next other change pushes both; once the remote has moved, pulls fail unless it contains the stray commit:
  `AfterFailedReset`, `StrayCommitTravels`.
- A push can land although its caller is told it failed, exactly when only the answer is lost: `LandsUntoldExactly`,
  `AnswerLostExample`. So a sync or unsync that fails on Git, which is said to have changed nothing
  (`internal/resources/namespaced/capps/handler.go:312-314`), may have changed the file: `FailedSync`.
- A successful sync or unsync restores agreement iff its change reached the remote or was there already. Through the
  client that fails exactly when the call found the file as asked on disk only: `SuccessfulSyncRestores`,
  `SyncThroughClient`.
- Backup calls on one Capp that overlap can all succeed and leave a stale or orphaned file. The resource version
  protects only updates and rollbacks, and only up to their cluster write; the Git writes and the label patch have no
  such guard. `PairsExactly` gives the exact condition for every pair of calls in every order of their steps,
  `RecreatedInsideDelete` a case of three calls, and `OverlappingReplacements` the condition for any number of updates
  and rollbacks. What a schedule must respect to be safe is `Orderly`: `ConsistentUnlessTold`.
- The limiter store keeps its bound in every map order unless the empty address, which `evictOldest` uses as its mark
  for "none yet" (`internal/middleware/ratelimit.go:85-97`), is strictly the oldest: `BoundKeptExactly`.
- A refusal does not mean that an address has used up the burst and all the refill since its first request, because a full
  bucket loses refill. It does exactly when no refill was lost: `IdleTimeIsLost`, `CountedFromExactly`. What a refusal
  always means is `AdmittedExactly`.
- A cache miss answers with the slice that it stores, although the comment above it says the entry is protected by a
  copy (`internal/auth/openshift.go:236-250`). An answer is what its review said iff callers last wrote the reviewed
  groups wherever they wrote into that slice: `AnswerIsReviewExactly`, `CallerChangesGroups`.
- The update command's seed is rejected whenever the Capp has a mounted Secret or ConfigMap volume, because reading
  lists those mounts once in general and once for their volume: `UpdateRoundTrip`.
- Reading a size compares limits only (`internal/resources/namespaced/capps/convert.go:342-364`), so sending the size
  back replaces requests that differ; `UpdateRoundTrip` gives the exact condition.

## Model

| member | source | states |
|---|---|---|
| GitOpsClient.RelPathShape | internal/gitops/client.go:110-112 | Under any prefix the joined and cleaned path ends in the cluster, the namespace and the Capp's file |
| GitOpsClient.RelPathInjective | internal/gitops/client.go:110-112 | Two different Capps never share a values file |
| GitOpsClient.CleanExactly | internal/gitops/client.go:110-112 | A joined path has no empty or dot segment and leads up only where it starts, and a clean one stays as it is |
| GitOpsClient.Client.constructor | internal/gitops/client.go:45-85 | A fresh clone equals the remote branch in head, tracking ref and files |
| GitOpsClient.Client.PullCtx | internal/gitops/client.go:236-254 | A pull is up to date when it fetched nothing new and HEAD contains the branch; otherwise it fast-forwards, or moves the tracking ref and fails when the clone has diverged; unstaged changes are replaced or make it fail with HEAD moved and the index kept; untracked files stay on disk or are swept |
| GitOpsClient.Client.PushCtx | internal/gitops/client.go:287-295 | A push takes effect only as a strict fast-forward of the remote; otherwise it changes nothing |
| GitOpsClient.Client.ResetToRemote | internal/gitops/client.go:259-283 | A hard reset makes head and files those of the tracking ref; a reset that fails changes nothing |
| GitOpsClient.Client.CommitAndPush | internal/gitops/client.go:155-173 | The commit has exactly what is staged; a push that failed is followed by the reset and reported |
| GitOpsClient.Client.SyncValues | internal/gitops/client.go:115-174 | The whole call, with the remote moved by others between pull and push; success iff the file was on disk or the index with the file was pushed, and then the hash of that commit; a step that fails before or after staging leaves exactly the file on disk or in the index |
| GitOpsClient.Client.DeleteValues | internal/gitops/client.go:179-232 | The same for removing the file; a missing file is a success without a hash, and removing one the index does not know fails |
| GitOpsAnswers.OpsNameTheFile | internal/gitops/client.go:110-112 | Writing and removing are about one file, below the prefix, named by cluster, namespace and Capp |
| GitOpsAnswers.EarlyEndExactly | internal/gitops/client.go:115-161 | On any clone whatever: the pull fails iff it is not up to date and cannot fast-forward over what is unstaged, the call reports an unchanged file iff it is on disk as asked once the pull worked, and a local step fails iff one of them does or there is nothing to commit |
| GitOpsAnswers.PushExactly | internal/gitops/client.go:155-173 | On any clone, a call that gets that far commits exactly what is staged with the change; the commit lands iff it descends from the remote and the push is not dropped, and the caller is told so iff the answer is not lost either |
| GitOpsAnswers.CleanAnswersExactly | internal/gitops/client.go:115-232 | On a clean clone each of the six answers has its exact condition: PullFailed iff the pull fails, Unchanged(remote) iff the remote has the file as asked, Pushed iff it has not and every step works on an unmoved remote, and then the remote is a child of the pulled commit that differs in this one file |
| GitOpsFleet.EffectHolds | internal/gitops/client.go:134-149 | A call finds nothing to do iff applying its change would leave the tree as it is |
| GitOpsFleet.StartEndIsCall | internal/gitops/client.go:115-232 | The two steps of a call that nothing comes between are the client's call, logged with its answer |
| GitOpsFleet.LandsOnlyOnTracking | internal/gitops/client.go:287-295 | The push of a clean clone lands iff nobody moved the remote since its pull |
| GitOpsFleet.LogStep | internal/gitops/client.go:115-295 | Every pull and every push whose local steps work keeps the log and the remote in step |
| GitOpsFleet.FleetIsLinearizable | internal/gitops/client.go:115-295 | Over every run in which local steps and resets work the remote gains exactly the landed commits in order, each changing one path of its parent, and the final tree is the sequential application of the changes that took effect; every returned hash names a commit of the branch with the file as asked |
| GitOpsFleet.ClonesReturnToTracking | internal/gitops/client.go:256-283 | Between calls a clone equals its tracking commit, which the remote contains, through failed pulls and failed pushes, as long as its own local steps and resets work, whatever fails at other replicas |
| GitOpsFleet.RemoteOnlyGrows | internal/gitops/client.go:287-295 | Over every run with every fault the remote of any later point descends from that of any earlier one |
| GitOpsFleet.PushesStayTrue | internal/gitops/client.go:143-173 | Over every run with every fault a pushed commit holds what its call asked and stays on the branch |
| GitOpsFleet.EffectMeansSuccess | internal/gitops/client.go:163-173 | If no push answer is lost, the changes that took effect are exactly those of the calls that returned success |
| GitOpsFleet.TreeIsSuccesses | internal/gitops/client.go:115-295 | If no push answer is lost, the final tree is the sequential application, in push order, of exactly the calls that returned success; an unchanged one counts at its pull |
| GitOpsFleet.LandsUntoldExactly | internal/gitops/client.go:163-173 | A clean clone's push lands without its caller being told iff its answer is lost and the remote is still the commit it pulled |
| GitOpsFleet.AnswerLostExample | internal/gitops/client.go:163-166 | A run in which a push lands and its caller is told it failed |
| GitOpsFaults.ShortcutSoundExactly | internal/gitops/client.go:122-141 | The hash of an unchanged call: if the pull had nothing to do it is on the remote iff HEAD was the remote, and its tree has the file iff disk and HEAD agreed on it; if the pull moved the clone it is the remote, and has the file iff none was asked for or the file was not on disk only |
| GitOpsFaults.CleanUnlessLocalFault | internal/gitops/client.go:147-166 | A call on a clean clone leaves it clean iff no failed local step staged the change or left another file, and no reset after a failed push failed |
| GitOpsFaults.RetryAfterLocalFault | internal/gitops/client.go:134-161 | After a failed write, stage or commit the retry reports an unchanged file iff the failed step left the file on disk as asked, and the remote then lacks it; otherwise it can go through |
| GitOpsFaults.RetryAfterMovedRemote | internal/gitops/client.go:122-154 | With a new file written but not staged and a remote that moved, the retry reports the new remote head as success iff the remote has the file by now, or has none there and the pull leaves the untracked file on disk |
| GitOpsFaults.LeftoverIsPushed | internal/gitops/client.go:147-166 | The next call on another file pushes one commit; it changes one path iff the failed step had staged nothing |
| GitOpsFaults.RefusedPullUndoes | internal/gitops/client.go:147-166 | After a pull that was refused over an unstaged change the next call commits the old index on the new head, which undoes everything pushed in between but its own file |
| GitOpsFaults.AfterFailedReset | internal/gitops/client.go:236-283 | After a failed push and reset the clone is one stray commit ahead: pulls succeed while the remote has not moved, and afterwards iff it contains the stray commit |
| GitOpsFaults.StrayCommitTravels | internal/gitops/client.go:122-173 | Meanwhile a retry reports the stray commit, which the remote lacks, as success, and the next other change pushes both commits |
| GitOpsRemote.CallIsGit | internal/gitops/client.go:115-232 | Whatever state its clone is in, a call leaves the remote tree alone or applies its change together with what the clone had staged or committed and never pushed, and answers as AsGit says |
| GitOpsRemote.CleanCallIsHonest | internal/gitops/client.go:115-232 | On a clean clone nothing is carried along and success means that the remote has the change |
| GitOpsRemote.FalseSuccessExactly | internal/gitops/client.go:122-141 | A call answers success although the remote lacks its change iff it found the file as asked on disk and the pull had nothing to do, or moved the clone and left the untracked file there |
| Backup.Handler.Create | internal/resources/namespaced/capps/handler.go:127-151 | A created Capp is new and carries no backup label; every error leaves both stores alone |
| Backup.Handler.Update | internal/resources/namespaced/capps/handler.go:156-213 | The new spec under the same labels, then its values file iff the live Capp was labelled; every error leaves both stores alone, a Git failure is a warning |
| Backup.Handler.Delete | internal/resources/namespaced/capps/handler.go:216-259 | The Capp goes, then its file iff it was labelled; every error leaves both stores alone, a Git failure is a warning |
| Backup.Handler.SetGitSync | internal/resources/namespaced/capps/handler.go:282-346 | Git first, then the label; an error leaves the Capps alone, and everything unless the push landed; success means the label is as asked |
| Backup.Handler.Rollback | internal/resources/namespaced/capps/revisions/handler.go:92-142 | Spec, labels and annotations of the revision with the live backup label, then the file iff labelled; every error leaves both stores alone |
| BackupAnswers.FileIsNamed | internal/resources/namespaced/capps/handler.go:368-379 | The values file of a Capp is named by cluster, namespace and Capp |
| BackupAnswers.CreateExactly | internal/resources/namespaced/capps/handler.go:127-151 | A create goes through iff the request is valid, the name is free and the write works; the Capp has no labels and no file is touched |
| BackupAnswers.UpdateExactly | internal/resources/namespaced/capps/handler.go:156-213 | An update goes through iff the Capp is there, the request is valid and every step up to the cluster write works; with GitOps enabled and the live label set it writes the rendered file, and warns iff Git does not acknowledge; otherwise it touches no file; every error leaves both stores alone |
| BackupAnswers.RollbackExactly | internal/resources/namespaced/capps/revisions/handler.go:92-142 | The same for a rollback, with the template's spec and annotations, and its labels except the live backup label |
| BackupAnswers.DeleteExactly | internal/resources/namespaced/capps/handler.go:216-259 | The same for a delete, whose Git step removes the file |
| BackupAnswers.SyncExactly | internal/resources/namespaced/capps/handler.go:282-346 | A sync or unsync succeeds iff GitOps is enabled, the Capp is there and every step works; it changes the file iff it gets to Git and that lands, and one label and nothing else of the Capp |
| BackupAnswers.DisabledTouchesNoGit | internal/resources/namespaced/capps/handler.go:348-356 | Without GitOps, for every call and every fault, no file is touched and nobody is warned, a sync or unsync is refused, and every other call succeeds iff its cluster steps do, whatever labels the Capp carries |
| BackupRuns.FilesAreSeparate | internal/resources/namespaced/capps/handler.go:373-379 | No two Capps of a cluster share a file |
| BackupRuns.TemplateKeepsBackupLabel | internal/resources/namespaced/capps/revisions/handler.go:186-200 | A rollback keeps the live backup label and takes every other label from the template |
| BackupRuns.CallKeepsExactly | internal/resources/namespaced/capps/handler.go:127-346 | For every call and all that can happen to it, exactly when it leaves a consistent Capp consistent |
| BackupRuns.CallIsOwn | internal/resources/namespaced/capps/handler.go:127-346 | A call touches no other Capp, and another file only as a leftover that its push took along |
| BackupRuns.SuccessfulSyncRestores | internal/resources/namespaced/capps/handler.go:312-345 | A successful sync or unsync sets the label as asked, and from any state makes the stores agree iff its change reached the remote or was there already |
| BackupRuns.SyncThroughClient | internal/resources/namespaced/capps/handler.go:312-345 | Through the client, whatever state its clone is in, it makes them agree unless the call found the file as asked on disk only |
| BackupRuns.FailedSync | internal/resources/namespaced/capps/handler.go:312-339 | A failed sync or unsync changes no Capp, and without leftovers it changes the file iff its push landed and the file was not as asked already |
| BackupOverlap.SerialIsHandle | internal/resources/namespaced/capps/handler.go:127-346 | The steps of a call that nothing comes between are the handler's call |
| BackupOverlap.StepKeeps | internal/resources/namespaced/capps/handler.go:127-346 | Each orderly step of any call keeps what all calls under way know about a Capp, where a replacement that read an older version may be wrong about everything |
| BackupOverlap.ConsistentUnlessTold | internal/resources/namespaced/capps/handler.go:127-346 | Over every run with every fault, calls on different Capps overlapping at will, and those on this one reading at will as long as cluster writes, and deletes, syncs and unsyncs, wait for a busy call: whenever none is busy the label is set iff the file exists, and the file is the rendered live spec, unless since its last sync or unsync that reached the remote a caller was told that backup or label failed, an answer about Git was wrong, or a leftover hit its file |
| BackupOverlap.CleanClonesAreHonest | internal/gitops/client.go:115-232 | If every Git step of a run is a client call on a clean clone, no push takes anything along and no success is false |
| BackupOverlap.MarksAreTold | internal/resources/namespaced/capps/handler.go:200-210 | If no push takes anything along and no success is false, every mark comes from a warning or an error that a caller got |
| BackupOverlap.UntoldIsConsistent | internal/resources/namespaced/capps/handler.go:127-346 | Under the same conditions a Capp is consistent whenever no call is busy on it, unless since the last sync or unsync that Git acknowledged a caller got a warning or an error |
| BackupReplacements.WritesDecide | internal/resources/namespaced/capps/handler.go:368-379 | At every moment of every run, however calls overlap, a file is what the last Git write in it that reached the file put there |
| BackupReplacements.OverlappingReplacements | internal/resources/namespaced/capps/handler.go:156-213 | Any number of overlapping updates and rollbacks, whatever fails, keep a Capp backed up with the spec of the last accepted cluster write, and unless a push of another call takes its file along, at every moment the stores agree iff that spec and the spec of the last Git write that reached the remote render alike |
| BackupPairs.TogetherIsRun | internal/resources/namespaced/capps/handler.go:127-346 | A pair of calls in a given order of their steps is a run of the system |
| BackupPairs.PairsExactly | internal/resources/namespaced/capps/handler.go:127-346 | For every two calls on a consistent Capp, every order of their reads and writes, and every step working: the stores agree afterwards iff the pair is harmless by its table, which looks at the live label, whether the first write changes anything, and which specs render alike; otherwise both calls report success, except a sync whose Capp was deleted before its label patch |
| BackupPairs.ReplacementsCollide | internal/resources/namespaced/capps/handler.go:171-203 | Of two updates or rollbacks that both read before either writes, the second is refused iff the first changes something |
| BackupPairs.RecreatedInsideDelete | internal/resources/namespaced/capps/handler.go:216-259 | A create and a sync between the two writes of a delete: all three succeed, and the new Capp is labelled without a file |
| Migration.BypassExactlyWhenShared | internal/resources/namespaced/capps/migrate.go:24-42 | The copy carries the bypass iff it shares the source's hostname, which happens only when the source is to be deleted under its own hostname |
| Migration.CopiesAreDistinct | internal/resources/namespaced/capps/migrate.go:119-157 | Secrets and ConfigMaps with distinct names give distinct copies, none of them the Capp |
| Migration.CopiesAreFaithful | internal/resources/namespaced/capps/migrate.go:47-70 | Each copy has its source's name, labels, annotations and data, in the target namespace, and nothing the source cluster assigned |
| Migration.PreparedIsFaithful | internal/resources/namespaced/capps/migrate.go:24-42 | The prepared Capp has the source's spec, labels and annotations but for the bypass, an empty status, and the hostname asked for or else its own; a hostname is refused iff the source has none, or would share it and stay |
| Migration.Clusters.CleanupResources | internal/resources/namespaced/capps/migrate.go:92-113 | Every copy is tried; what stays is exactly what could not be deleted, and an error is returned iff something stays |
| Migration.Clusters.CopyDependentResources | internal/resources/namespaced/capps/migrate.go:119-160 | All copies, or after compensation only those whose delete failed; a conflict writes nothing; it succeeds iff no call fails and nothing of another writer is in its way |
| Migration.Clusters.Migrate | internal/resources/namespaced/capps/handler.go:402-534 | At every state on the way the Capp exists, hostnames are shared only under the bypass, and no object of another writer is changed. It fails iff the request is refused, another writer's object is in its way, or a call up to the Capp's create fails; a failure leaves the source and at most undeleted copies. A success has every Secret, ConfigMap and the Capp at the target whole, under the hostname asked for or its own, and deletes the source only after that; the bypass stays iff the hostname is kept and deleting the source or taking the bypass off failed |
| LdapTokens.NewTokens | internal/auth/ldap_tokens.go:24-51 | The configuration loads iff every key parses and the active ID names one key, whatever the map order, and then trusts exactly the configured keys |
| LdapTokens.Issue | internal/auth/ldap_tokens.go:54-82 | A token with the claims, signed by the active key, iff every identity is valid and the token short enough |
| LdapTokens.LdapTokenCredential | internal/auth/ldap_tokens.go:126-152 | The identity of the claims iff every claim that carries it is well formed |
| LdapTokens.CarriesExactly | internal/auth/ldap_tokens.go:126-152 | The claims give a credential iff they have an issue date, the access use, its user and exactly its groups, all acceptable |
| LdapTokens.Verify | internal/auth/ldap_tokens.go:84-112 | The verdict: the identity, "expired" or "unauthenticated" |
| LdapTokens.AudienceExact | internal/auth/ldap_tokens.go:86-90 | The audience check passes iff the audience is named, alone or in a list of strings (section 4.1.3 of RFC 7519) |
| LdapTokens.ClaimErrorsExact | internal/auth/ldap_tokens.go:86-90 | The claim errors other than expiry are none iff issuer, audience, iat, nbf and the presence of exp are right |
| LdapTokens.VerdictExact | internal/auth/ldap_tokens.go:84-152 | Accepted iff genuine and unexpired; "expired" iff genuine and only its expiry has passed |
| LdapTokens.VerdictNames | internal/auth/ldap_tokens.go:84-152 | For any token and credential: accepted as this user with these groups iff signed by a trusted key for this service, unexpired, and the claims name them; expired iff only that has passed |
| LdapTokens.AcceptedNames | internal/auth/ldap_tokens.go:126-152 | Nobody is accepted under a reserved, padded or unprintable name, nor with such a group |
| LdapTokens.IssuedDates | internal/auth/ldap_tokens.go:60-72 | An issued token carries the second it was issued in and expires its time to live later |
| LdapTokens.IssuedTokenGenuine | internal/auth/ldap_tokens.go:54-152 | An issued token is genuine at a replica iff that replica trusts the signing key under its ID |
| LdapTokens.VerifyInvertsIssue | internal/auth/ldap_tokens.go:54-152 | Verifying gives back the issued user and groups for a lifetime above ttl - 1s and up to ttl, "expired" from then on, and "unauthenticated" without trust in the key |
| KeyRotation.Reconfigured | internal/auth/ldap_tokens.go:34-45 | What a reconfigured replica trusts after each rotation step |
| KeyRotation.StepKeeps | README.md:210-212 | Every allowed step keeps all current signers, and the signers of all live tokens, trusted by every replica |
| KeyRotation.RotationIsInvisible | README.md:210-212 | Over any run of the procedure, with any number of overlapping rotations, every unexpired token is accepted by every replica with its user and groups |
| KeyRotation.BrokenRules | README.md:210-212 | Retiring a key early, or activating it before every replica trusts it, makes some replica reject a live token |
| KeyRotation.LapsedMeansExpired | internal/auth/ldap_tokens.go:84-112 | A token has lapsed iff a replica that trusts its key reports it as expired, and is accepted until then |
| KeyRotation.StepTakesEffect | README.md:210-212 | What every allowed step does to its replica, and that it leaves all others alone |
| KeyRotation.RotationCompletes | README.md:210-212 | From any fleet on one configuration there is a run of the procedure after which every replica signs with the new key and trusts it and all it trusted before except the old one |
| LdapDirectory.FirstOccurrencesOrdered | internal/auth/ldap_directory.go:126-137 | Deduplicated groups are the same values, none twice, ordered by first occurrence |
| LdapDirectory.IdentityExactly | internal/auth/ldap_directory.go:145-159 | An entry has an identity iff its attribute has exactly one value and that is acceptable |
| LdapDirectory.Login.VerifyPassword | internal/auth/ldap_directory.go:99-116 | The user bind on a second connection that is closed on every path, and which failures are the password's |
| LdapDirectory.Login.Groups | internal/auth/ldap_directory.go:118-139 | The deduplicated groups iff the search was complete and in time and every entry is identified |
| LdapDirectory.Login.Search | internal/auth/ldap_directory.go:68-96 | Everything done on the search connection, with its exact success and rejection conditions |
| LdapDirectory.Login.Verify | internal/auth/ldap_directory.go:54-97 | On every path each connection is opened and closed at most once, with its use in between; success iff search bind, one complete user entry, user bind and complete groups, in exactly that order of calls; bad credentials iff the password or the choice of user is at fault |
| LdapDirectory.ResolvedIdentitiesAreValid | internal/auth/ldap_directory.go:145-159 | Every identity a login resolves passes the check of issuing |
| LdapDirectory.PasswordLogin | internal/auth/ldap.go:44-51 | Login succeeds iff the directory does and the token is short enough, and the token verifies as the resolved identity until it expires |
| TokenCache.StepKeeps | internal/auth/openshift.go:193-250 | Each atomic load, store, delete, copy and caller's write keeps cache, requests and answers backed by reviews |
| TokenCache.AnswersComeFromFreshReviews | internal/auth/openshift.go:182-251 | Under any interleaving, with callers writing into slices, every answer comes from an authenticated review of that token, stored less than the TTL before, its groups overwritten with exactly what callers had written into the slice of the miss behind it |
| TokenCache.AnswerIsReviewExactly | internal/auth/openshift.go:193-250 | An answer is what its review said iff wherever callers had written into that slice they had last written the reviewed group |
| TokenCache.EvictionsOnlyCostReviews | internal/auth/openshift.go:454-472 | If all reviews agree with one oracle an answer disagrees with it only through what callers wrote, whatever is evicted and when |
| TokenCache.LoneRequest | internal/auth/openshift.go:182-251 | An undisturbed request answers from the cache without a review iff its entry has not expired; otherwise it asks for one review, stores an authenticated one for the time to live, and forgets the entry else |
| TokenCache.LoneCleanup | internal/auth/openshift.go:454-472 | An undisturbed cleanup drops exactly the entries that have expired, in any order of the keys |
| TokenCache.WriteTakesEffect | internal/auth/openshift.go:236-250 | What a caller writes into the slice of its miss is in that entry, at that place, and nowhere else |
| TokenCacheSlices.Manager.Authenticate | internal/auth/openshift.go:182-251 | A hit answers from the cache with a copy and changes nothing; a miss answers from the review, stores its own answer, and a rejection is never stored |
| TokenCacheSlices.CallerChangesGroups | internal/auth/openshift.go:236-250 | For as long as the entry lives, changing the slice of a miss changes the next answers iff the value differs; changing the slice of a hit changes none |
| OAuthState.FormatParses | internal/auth/openshift.go:407-408 | Every 64-bit expiry parses back from its decimal form |
| OAuthState.ParseExactly | internal/auth/openshift.go:388-392 | A text parses to an expiry iff it is its decimal form, perhaps padded and signed, and fits 64 bits |
| OAuthState.ValidStatesExact | internal/auth/openshift.go:376-397 | A state is accepted iff it is a payload and its signature, split at the first dot, and the payload begins with a decimal expiry that has not passed |
| OAuthState.WellSignedVerdict | internal/auth/openshift.go:376-397 | A well-signed state is rejected only for its expiry |
| OAuthState.FreshStateLives | internal/auth/openshift.go:402-410 | A fresh state is accepted, by any replica with the same key, exactly up to its own expiry, between 599 and 600 seconds later |
| OAuthState.NoncesTellApart | internal/auth/openshift.go:402-410 | Two states are the same only if their nonces and their expiries are |
| RateLimit.ScanFindsOldest | internal/middleware/ratelimit.go:85-97 | In any map order the scan finds an oldest entry, unless the empty address is strictly the oldest |
| RateLimit.EmptyAddressSurvives | internal/middleware/ratelimit.go:85-97 | If the empty address is strictly the oldest, some map order evicts nothing |
| RateLimit.BoundKeptExactly | internal/middleware/ratelimit.go:65-97 | A request keeps the bound max(1, maxEntries) in every map order iff it is not new, the store is not full, or the empty address is not strictly the oldest |
| RateLimit.Limiter.Allow | internal/middleware/ratelimit.go:24-34 | One decision of the token bucket: refill up to the burst, spend one token or change nothing |
| RateLimit.FindOldest | internal/middleware/ratelimit.go:86-93 | In any map order the loop returns an address seen longest ago, unless that is the empty one; in general it is the scan in the order it ran |
| RateLimit.IpLimiterStore.EvictOldest | internal/middleware/ratelimit.go:85-97 | At most the scanned entry is dropped, all others keep their limiter |
| RateLimit.IpLimiterStore.Get | internal/middleware/ratelimit.go:65-81 | A known address keeps its limiter and counts as seen; a new one gets a full one, with room made when the store is full |
| RateLimit.IpLimiterStore.RateLimit | internal/middleware/ratelimit.go:21-36 | The decision for one request and the new store, with every limiter its own object |
| RateLimitRuns.StoreIsMostRecent | internal/middleware/ratelimit.go:46-97 | Over every run at increasing times the store is an LRU list: an address stays iff fewer than max(1, maxEntries) distinct others arrived since its last request |
| RateLimitRuns.LimitersAreOwn | internal/middleware/ratelimit.go:21-81 | Over every run at increasing times every stored bucket and every decision is that of a token bucket which only this address's own requests touch, replaced by a full one iff max(1, maxEntries) distinct others came since its last request |
| RateLimitBound.AdmissionBound | internal/middleware/ratelimit.go:19-81 | Over every run, several requests at one clock reading included, an address evicted k times is admitted at most (k + 1) * burst + rps * elapsed times |
| RateLimitWindows.AdmittedExactly | internal/middleware/ratelimit.go:19-81 | Over every run, several requests at one clock reading included: a request is admitted iff the burst allows any and, counted from each request of its address since that has been in the store, what was admitted and one more are within the burst and the refill since then |
| RateLimitWindows.NewIsAdmitted | internal/middleware/ratelimit.go:65-81 | A first request, and one of an evicted address, is admitted iff the burst allows any |
| RateLimitWindows.WaitedIsAdmitted | internal/middleware/ratelimit.go:24-34 | An address that has waited for one token since its last request is admitted, whatever was decided before |
| RateLimitWindows.WithinAllowance | internal/middleware/ratelimit.go:24-34 | What was admitted since any request of a stored address is within the burst and the refill since then |
| RateLimitWindows.CountedFromExactly | internal/middleware/ratelimit.go:24-34 | A refusal means that the burst and all refill since a given request are used up iff every later request since which the allowance is exhausted had used up its refill |
| RateLimitWindows.IdleTimeIsLost | internal/middleware/ratelimit.go:24-34 | Requests at 0, 100 and 100.5 seconds with one token a second: the third is refused after two admissions |
| ConfigKeys.Renamed | internal/config/validation.go:309-320 | Keys that print alike are reported iff there are any, otherwise every entry is kept |
| ConfigKeys.ValidateLDAPFileKeyIDs | internal/config/validation.go:304-345 | The walker's verdict, whatever the map order |
| ConfigKeys.RestIsProper | internal/config/validation.go:334-337 | The remaining path is never empty before its last segment is matched |
| ConfigKeys.WalkerIsFlat | internal/config/validation.go:304-354 | The walker accepts a tree iff in the flattened view of all nested, dotted and mixed-case spellings every key under the path is a valid ID and no map on the way is ambiguous |
| ConfigKeys.LowerExactly | internal/config/validation.go:329 | Lowering equates exactly the spellings that differ in letter case, and leaves lower case alone |
| ConfigKeys.CaseIsIgnored | internal/config/validation.go:321-345 | A key in another letter case, its ID part apart, gets the same verdict wherever it leads |
| ConfigKeys.ReadConfigFile | internal/config/config.go:448-459 | A file is accepted iff its flat view is |
| CappConvert.FirstRepeatExact | internal/resources/namespaced/capps/convert.go:84-139 | The three volume lists share one name space: a repeat is reported iff two mounts have one name |
| CappConvert.CollectVolumes | internal/resources/namespaced/capps/convert.go:84-139 | The loops report the first repeat with the error of its own list, or collect all mounts and volumes in order |
| CappConvert.EnvVarsToK8s | internal/resources/namespaced/capps/convert.go:655-683 | The first variable with both or neither reference is reported, otherwise all convert in order |
| CappConvert.ImagePullSecretsToK8s | internal/resources/namespaced/capps/convert.go:634-651 | The first invalid or repeated name is reported, otherwise all are kept in order |
| CappConvert.EventSourcesToK8s | internal/resources/namespaced/capps/convert.go:300-337 | The first source with both or neither kind, or a bad URI, is reported, otherwise all convert in order |
| CappConvert.ToK8s | internal/resources/namespaced/capps/convert.go:28-227 | The Capp built from the request over the existing one, or the first error in the order of the checks |
| CappRead.MountedVolumes | internal/resources/namespaced/capps/convert.go:484-508 | The mounted Secret and ConfigMap volumes in order, each with the path its name is last mounted at |
| CappRead.BareFromK8s | internal/resources/namespaced/capps/convert.go:443-574 | The response to a Capp; containers after the first are not looked at |
| CappFaithful.ResourcesExactly | internal/resources/namespaced/capps/convert.go:193-298 | Resources are accepted iff size and custom quantities exclude each other, the size is one of three and every text named parses; then requests and limits have exactly the named quantities, each in its own list under its own name, or the container's own stay |
| CappFaithful.AcceptedExactly | internal/resources/namespaced/capps/convert.go:28-227 | A request is accepted iff every variable has one reference at most set right, all mounts and volumes have distinct names, pull secrets are valid and distinct, every capacity and URI parses, every source is of one kind, and the resources are fine |
| CappFaithful.RejectedExactly | internal/resources/namespaced/capps/convert.go:28-227 | A rejected request is told the first thing wrong with it, by name, in the order of the checks |
| CappFaithful.BuiltShows | internal/resources/namespaced/capps/convert.go:28-227 | The Capp of an accepted request, field by field and element by element |
| CappFaithful.ResponseShows | internal/resources/namespaced/capps/convert.go:443-574 | The response to any Capp with a container, field by field: texts as the libraries print them, the size the first whose limits are the container's, empty parts left out |
| CappFaithful.EmptyResponseShows | internal/resources/namespaced/capps/convert.go:443-574 | Without a container the response says nothing about one |
| CappFaithful.PathIsLast | internal/resources/namespaced/capps/convert.go:484-490 | A name is mounted iff some mount has it, at the path of the last that does |
| CappFaithful.VolumesAreRead | internal/resources/namespaced/capps/convert.go:491-508 | Volume by volume, in order, those that are mounted |
| CappFaithful.SizeReadsBack | internal/resources/namespaced/capps/convert.go:203-366 | A requested size reads back with its own quantities as printed, and as itself unless an earlier size has the same limits |
| CappRoundTrip.PathsOfDistinct | internal/resources/namespaced/capps/convert.go:484-490 | With distinct names the name-to-path map has every mount's own path |
| CappRoundTrip.VolumesReadBack | internal/resources/namespaced/capps/convert.go:484-508 | The shared name check makes every volume read back with its own path, in order |
| CappRoundTrip.PartsReadBack | internal/resources/namespaced/capps/convert.go:28-227 | Environment, mounts, NFS volumes and sources read back element by element |
| CappRoundTrip.RoundTrip | internal/resources/namespaced/capps/convert.go:28-574 | Reading back an accepted request gives the request again, in order, whatever it was laid over; the mounts are its own followed by those of its Secret and ConfigMap volumes |
| CappRoundTrip.AcceptanceIndependent | internal/resources/namespaced/capps/convert.go:28-227 | Acceptance and the error do not depend on the existing Capp |
| CappRoundTrip.FullReplace | internal/resources/namespaced/capps/convert.go:28-227 | Two results of one request agree on everything managed, on resources iff the request gives them or they agreed before; metadata is kept; replacing again changes nothing |
| CappUpdate.OwnMountsRemain | internal/resources/namespaced/capps/convert.go:84-139 | Taking the names of Secret and ConfigMap volumes out of all mounts leaves the request's own |
| CappUpdate.CleanedParts | internal/cli/capps/capps.go:264-281 | The cleaned seed of a read Capp converts to the same parts, apart from an untyped log |
| CappUpdate.UpdateRoundTrip | internal/cli/capps/capps.go:257-281 | The seed is rejected iff the Capp has a mounted Secret or ConfigMap volume, or reads as a size whose own quantities do not parse; cleaned, it reproduces the Capp iff limits that read as a size come with its requests and the log has a type |
| CappFlags.ParseEnvPairs | internal/cli/capps/capps.go:661-679 | The first pair with an empty key is reported, otherwise all parse in order |
| CappFlags.PairParses | internal/cli/capps/capps.go:661-679 | KEY=VALUE parses back to key and value iff the key is not empty and has no equals sign; the value may have any |
| CappFlags.ApplyRouteFlags | internal/cli/capps/capps.go:636-658 | The flagged route fields over the current ones, refused iff TLS is on without a hostname |
| CappFlags.Update | internal/cli/capps/capps.go:246-327 | The request the command sends, or the flag error it stops with |
| CappFlags.UpdateChangesFlagged | internal/cli/capps/capps.go:257-327 | For a Capp without mounted Secret and ConfigMap volumes an update replaces the flagged fields and no other, resources included |
| CappFlags.UpdateShows | internal/cli/capps/capps.go:257-327 | What an accepted update makes of a Capp without mounted Secret and ConfigMap volumes, flag by flag: each lands in its own field, integers wrapped to 32 bits, quantities in their own list, and nothing else is different |
| CappFlags.RefusedExactly | internal/cli/capps/capps.go:246-327 | The command stops iff a size comes with quantities, else iff a pair has no key, naming the first, else iff TLS is on without a hostname |
| Namespaces.CanUpdateQuota | internal/resources/cluster/namespaces/handler.go:741-755 | A PUT is refused iff some resource of the old quota is lowered or dropped below its use, whatever the map order |
| Namespaces.RefusedExactly | internal/resources/cluster/namespaces/handler.go:741-755 | Within limits, a PUT is refused iff the use of some tracked resource exceeds its new, or missing, limit |
| Namespaces.NeverBeyondLimits | internal/resources/cluster/namespaces/handler.go:335-355 | Over any PUTs and in-limit usage changes no tracked resource is used beyond its limit |
| Namespaces.RaisingIsAccepted | internal/resources/cluster/namespaces/handler.go:741-755 | A PUT that lowers nothing is accepted however much is used; one that lowers or drops a single limit is refused iff its use exceeds what is left |
| Namespaces.RoleBinding.Patch | internal/resources/cluster/namespaces/handler.go:409-438 | The subjects there were, then the users none of them names, in request order |
| Namespaces.MissingExact | internal/resources/cluster/namespaces/handler.go:418-432 | What a patch adds are exactly the requested users that were not there |
| Namespaces.MissingInOrder | internal/resources/cluster/namespaces/handler.go:418-432 | User by user, in request order, each is added unless a subject that was there names it |
| Namespaces.PatchIsUnion | internal/resources/cluster/namespaces/handler.go:409-438 | A patch yields exactly the union of the users, and the same patch again adds nothing |

## Left out

- Gin routing, JSON binding and validation, status codes, logging, metrics, the MCP tools, table output and the other CLI commands: plumbing without deep invariants.
- Git, Kubernetes, LDAP, TLS and HTTP themselves: abstract stores and steps that take effect or fail without effect. A commit stands for its hash. A lost answer is modelled for Git pushes only; a write to Kubernetes that is reported as failed did not happen.
- Cryptography: a signature is worth exactly the key and content it was made from, SHA-256 is taken to be injective, and the OAuth signature is any function of the payload.
- GitOpsClient.Client.SyncValues: a failing local step is one before the file is staged, which may leave anything at the path, or one after it. Whether a pull overwrites unstaged changes and sweeps untracked files is a free choice, since the Git library decides it. A clone has the whole history, where the code clones with depth 1.
- GitOpsFleet.FleetIsLinearizable: local steps and resets work; `RemoteOnlyGrows`, `PushesStayTrue` and `GitOpsFaults` say what holds when they do not. A pull is one atomic step.
- Backup.Handler.Update: what the API server stores is any spec, so conversion and admission defaults do not show. Revisions arrive as their template; finding and sorting them is not modelled.
- BackupOverlap.ConsistentUnlessTold: Nobody else writes Capps or values files. Migration is not among the calls: it keeps labels and never touches Git.
- BackupPairs.PairsExactly: every step works; with faults, or more than two calls, `ConsistentUnlessTold` and `OverlappingReplacements` say what holds.
- Migration.Clusters.Migrate: other writers may do anything in the target namespace except change or delete what this run created there, and nobody else changes the source. All lookups before the Capps are read fail or pass as one. Not-found answers of compensating deletes therefore do not occur.
- LdapTokens.Verify: dates are whole seconds, where JSON allows fractions. The checks of the JWT library are modelled as its version 5 makes them. The serialized token and its length are parameters.
- TokenCache.AnswersComeFromFreshReviews: copying a slice and writing one group are atomic, where Go allows a data race between them.
- LdapDirectory.Login.Verify: escaping of filters, referral chasing and the UTF-8 check of identities are not modelled; a deadline passes after some number of calls.
- KeyRotation.RotationIsInvisible: clocks are synchronized, as the documentation demands, and a restarted replica is a replica with another configuration.
- OAuthState.ValidStatesExact: 64-bit overflow of an expiry turned into a time is not modelled; no signed state is near it.
- RateLimit.IpLimiterStore.RateLimit: looking up a limiter and spending from it is one step, so a request that holds a limiter evicted in between is not modelled. Tokens and times are real numbers, without the rounding of floating point.
- RateLimitRuns.StoreIsMostRecent: requests come at increasing times and from non-empty addresses; `BoundKeptExactly` covers the empty one.
- ConfigKeys.WalkerIsFlat: keys are ASCII, so lowering a key keeps its length.
- CappConvert.ToK8s: quantities and URLs go through any parser and printer; fields the conversion never looks at are one opaque value per record.
- CappRead.BareFromK8s: status, annotations, creation time and UID are not modelled.
- CappUpdate.UpdateRoundTrip: quantities and URIs of the Capp print to texts that parse back to them, and the Capp was built by this conversion.
- CappFlags.Update: the server's own binding checks of the request are not modelled.
- Namespaces.CanUpdateQuota: quantities are natural numbers. Creating a missing quota is not modelled.
- ConfigMap and Secret endpoints, the cluster registry, benchmarks, configuration defaults and browser login: single-branch facts only.
