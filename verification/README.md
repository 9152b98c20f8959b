# A verified model of the package registry

This project models the parts of the package registry whose guarantees no single function
shows, and proves them in Dafny:

- the order of versions and the append-only v1 registry (`SemVer`, `StableSort`,
  `RegistryDocuments`, `Immutability`);
- the relational registry: its tables and read-back views (`RegistryTables`,
  `RegistryRepository`), the promotion transaction and its guards (`RegistryPromotion`,
  `RegistryGuards`), the invariant of the committed tables (`RegistryRows`, `RegistryInvariant`,
  `RegistryCommit`), the v1 import (`RegistryImport`, `RegistryLoading`, `RegistryImportLaws`,
  `RegistryLossless`), imports that overlap with promotions (`RegistryOverlap`), and whole runs of
  imports and promotions (`RegistrySteps`, `RegistryRuns`, `RegistryAudit`, `RegistryDigests`,
  `RegistrySharing`);
- the artifact store as a concurrent, crashing protocol (`StoreProtocol`, `StoreRuns`), the store's
  own loop-by-loop publication (`ArtifactStore`), and registry and store together
  (`RegistryStorage`);
- refresh-token families, second factors and the rate limiter (`Sessions`, `SessionRuns`, `Mfa`,
  `MfaExactly`, `MfaRuns`, `RateLimit`, `RateLimitRuns`);
- retention, the maintenance lock and both together (`Retention`, `MaintenanceLock`,
  `MaintenanceRuns`), the object mapper's history guard and search escaping (`HistoryGuard`,
  `SearchPattern`).

How the model is built:

- A database transaction works on the tables it sees (`Session.tables`) and collects its flushes
  (`Session.log`); committing applies the log to the committed tables, an error applies nothing.
- A promotion's view is exact for its own module and its own key, because of the row lock and the
  advisory lock. Of other modules it may show anything. The artifact row of the bundle is read
  without a lock of its own: it is the committed row, the row as it was imported, or a location
  that a later promotion has replaced. It is read after the module was locked, so a binding by an
  earlier promotion of the own module is always in it (`ViewFor`).
- An import's view is exact until the first promotion, and always for the modules of its source,
  which it locks until it commits; of other modules the latest promotions may be missing
  (`RegistryOverlap.ImportViewFor`).
- SHA-256 is collision-free (`Digests`), generated identifiers, secrets and tokens are new names,
  clocks, signatures and network answers are parameters.
- Imperative code is a class or a method with the same loops and branches; its `ensures` ties it to
  a function of the old state, and the lemmas are about that function.

Three things the code does not do:

- Two promoted versions of different modules can come to share a bundle digest, if an import
  brought that digest first. Nothing else can: in every run two promoted versions with one digest
  belong to different modules and the digest was imported (`RegistryDigests.SharingIsLimited`).
  `RegistrySharing.SharedDigestIsReachable` is a run of one import and two promotions of
  first-party modules that reaches such a state: both promotions read the imported artifact row,
  whose location is still NULL, before either commits, and the second commit overwrites the first
  location. `RegistryDigests.RunUnsharedExactlyWhen` is the exact condition: digests stay unshared
  if and only if every promotion finds the committed artifact row of its digest unbound. Where the
  row is read as committed, that is what the code checks (`CurrentReadsNeverShare`). In every case
  the registered location holds the right bytes (`RegistryStorage.PromotedBytesAreDurable`). The
  run of `SharedDigestIsReachable` also shows that the premises of the promotion theorems occur
  together.
- A token issued at time zero carries no authentication time, and an empty method list is dropped,
  because both are false in Python (`Sessions.NewRecord`).

- The wait that the limiter announces can end up to a millisecond before the window does, because
  0.999 instead of a whole second is added before truncation (`RateLimitRuns.RetryExactly` has the
  exact condition, `RetryTooEarly` an input).

Run `dafny verify dfyconfig.toml` to check everything.

## Model

| member | source | states |
|---|---|---|
| `SemVer.ParseSound` | scripts/registry.py:19-24 | a text that the expression accepts is the rendering of the groups it is split into |
| `SemVer.ParseComplete` | scripts/registry.py:19-24 | every well-formed version's text is accepted and gives back that version |
| `SemVer.WellFormedExactly` | scripts/registry.py:19-24 | the groups of a match: three numerals, then one or more identifiers of a pre-release and of build metadata, if any |
| `SemVer.NumericExactly` | scripts/registry.py:19-24 | a numeral is 0 or digits that do not start with 0 |
| `SemVer.IdentExactly` | scripts/registry.py:19-24 | the characters of an identifier, listed; a pre-release identifier is a numeral or has a non-digit |
| `SemVer.PrecedenceIsTotalPreorder` | scripts/registry.py:365-377 | the key order is a total preorder on versions |
| `SemVer.KeyIsSection11` | scripts/registry.py:365-377 | on accepted versions the key order is exactly the precedence of section 11 of Semantic Versioning 2.0.0, written down independently |
| `SemVer.DecimalInjective` | scripts/registry.py:373-373 | numeric identifiers without leading zeros are equal as numbers only when equal as text |
| `SemVer.TieIsBuildOnly` | scripts/registry.py:365-377 | two versions tie if and only if they differ at most in build metadata |
| `StableSort.SortSorts` | scripts/registry.py:413-413 | sorted by key is ascending and a permutation |
| `StableSort.SortAscending` | scripts/registry.py:413-413 | a sequence already in order is left as it is, ties included |
| `StableSort.BestIsFirstMax` | scripts/registry.py:391-391 | max by key is the first element that none exceeds |
| `StableSort.SortKeepsBest` | scripts/registry.py:384-414 | stable sorting never changes which element of a kept class is the first maximum |
| `ArtifactPaths.RelativePathInjective` | scripts/artifact_store.py:91-94 | two accepted identities with one path are the same module and version |
| `ArtifactPaths.ModuleIdExactly` | scripts/registry.py:298-303 | an ID is at most 63 characters of words in small letters and digits joined by single hyphens, a letter first |
| `ArtifactPaths.PublicUrlHost` | scripts/artifact_store.py:97-99 | a canonical mirror URL is never on github.com |
| `ArtifactPaths.MirrorUrlIsPublic` | scripts/artifact_store.py:91-99 | the public URL of a version, written out |
| `ArtifactPaths.HostnameExactly` | scripts/registry.py:501-504 | the host of an https URL is read in lower case up to the first port, path, query or fragment; any other URL has none |
| `RegistryDocuments.ValidateModule` | scripts/registry.py:118-168 | accepts exactly the documents with a valid ID, at least one release, valid releases and no version twice |
| `RegistryDocuments.MaxRelease` | scripts/registry.py:391-391 | the loop of max returns the first greatest release |
| `RegistryDocuments.SelectChannels` | scripts/registry.py:387-395 | fills exactly the channels that have releases, each with its first greatest one |
| `RegistryDocuments.BuildIndex` | scripts/registry.py:384-408 | one entry a module, by ID, with its metadata and selected channels |
| `RegistryDocuments.EntryExactly` | scripts/registry.py:384-408 | an index entry field by field; its channels are those with releases, each with one that none on the channel exceeds |
| `RegistryDocuments.CurrentIsFirstMax` | scripts/registry.py:388-391 | the selected release is beaten by none on its channel and beats every earlier one strictly |
| `RegistryDocuments.CanonicalExactly` | scripts/registry.py:411-414 | the canonical document has the same releases, lower precedence first, and is otherwise the same |
| `RegistryDocuments.CanonicalKeepsChannels` | scripts/registry.py:384-414 | canonical sorting changes no channel target, equal-precedence builds included |
| `RegistryDocuments.AppendMovesPointer` | scripts/registry.py:388-395 | appending a release moves exactly its own channel to it, if and only if it is strictly newer than all releases on that channel |
| `Immutability.ValidateReleases` | scripts/registry.py:475-488 | accepts exactly when every published release is still there with all its content, and its URL either stays or moves from GitHub to the mirror |
| `Immutability.ValidateImmutability` | scripts/registry.py:463-488 | accepts exactly the registries that keep every module with its publisher, classification, repository and licence, and every release with all its content |
| `Immutability.AcceptsExactly` | scripts/registry.py:463-533 | the rule in fields: identity, publisher, classification, repository and licence of modules; version, channel, digest, format, commit, tag and requirements of releases |
| `Immutability.AcceptsReflexive` | scripts/registry.py:463-488 | a registry is accepted against itself |
| `Immutability.ReleaseKeptTransitive` | scripts/registry.py:491-505 | two allowed changes in a row are one allowed change, and only one of them changes anything |
| `Immutability.AcceptsTransitive` | scripts/registry.py:463-533 | two accepted changes in a row are accepted as one |
| `Immutability.HistoryComposes` | scripts/registry.py:463-533 | any two registries of an accepted history are accepted against each other |
| `Immutability.ReleaseNeverRemoved` | scripts/registry.py:477-481 | over a whole history no published release disappears or changes its content |
| `Immutability.ReleaseChangesAtMostOnce` | scripts/registry.py:482-505 | over a whole history a release changes at most once, and then only its URL, from GitHub to the mirror |
| `Immutability.HistoryKeepsContent` | scripts/registry.py:475-505 | any two registries of a history that publish one version publish the same content, field by field |
| `Immutability.HistoryKeepsProvenance` | scripts/registry.py:463-474 | no module of a history disappears or changes its publisher, classification, repository or licence |
| `RegistryRepository.Session.EnsurePublisher` | web/backend/app/db/repository.py:31-43 | inserts or compares a publisher, never updates it |
| `RegistryRepository.Session.EnsureModule` | web/backend/app/db/repository.py:31-43 | inserts or compares a module row, never updates it |
| `RegistryRepository.Session.EnsureArtifact` | web/backend/app/db/repository.py:31-43 | inserts an artifact row without storage columns or returns the existing one with its own |
| `RegistryRepository.Session.EnsureChannel` | web/backend/app/db/repository.py:31-43 | inserts a pointer with revision 1 or compares its version |
| `RegistryRepository.Session.InsertPublishedVersion` | web/backend/app/db/repository.py:89-176 | refuses, finds the identical version, or inserts it with its dependencies, exactly as specified by InsertVersion |
| `RegistryRepository.FilterSorted` | web/backend/app/db/repository.py:209-214 | reading all rows by module and order gives each module's rows in its own order |
| `RegistryRepository.Session.ReleasesByModule` | web/backend/app/db/repository.py:192-222 | the grouping loop collects each module's releases in stored order |
| `RegistryRepository.Session.ReadProjection` | web/backend/app/db/repository.py:192-222 | the projection is one document for each registered module with published versions |
| `RegistryRepository.Session.ReadChannelTargets` | web/backend/app/db/repository.py:224-244 | the joined pointers, grouped by module |
| `RegistryRows.InsertedNew` | web/backend/app/db/repository.py:62-176 | an inserted version reads back as the release that was inserted |
| `RegistryRows.InsertedOld` | web/backend/app/db/repository.py:62-176 | an insertion changes no other version's release |
| `RegistryRows.DenseNext` | web/backend/app/db/repository.py:131-136 | the maximum order plus one is the number of the module's versions |
| `RegistryRows.InsertProjects` | web/backend/app/db/repository.py:89-222 | the module's projection grows at its end by exactly the inserted release |
| `RegistryRows.InsertKeepsRows` | web/backend/app/db/repository.py:89-176 | an insertion keeps unique keys, dense order, valid releases and owned dependencies |
| `RegistryPromotion.ValidateRepresentability` | web/backend/app/api/registry_compatibility.py:12-27 | accepts exactly when every document is valid and build_index selects the given targets |
| `RegistryPromotion.RegistryDatabase.Promote` | web/backend/app/registry_promotion.py:38-184 | the transaction returns and commits what Promotion decides, or commits nothing |
| `RegistryPromotion.Repeat` | web/backend/app/registry_promotion.py:102-110 | a recorded key with the same intent is answered again, any other intent refused |
| `RegistryPromotion.BindArtifact` | web/backend/app/registry_promotion.py:126-134 | unknown storage columns are completed, known ones never replaced by other values |
| `RegistryPromotion.Advance` | web/backend/app/registry_promotion.py:111-134 | ownership, revision and storage are checked in this order before anything is inserted |
| `RegistryPromotion.Publish` | web/backend/app/registry_promotion.py:135-184 | insertion, pointer, future-state check and event, or nothing |
| `RegistryGuards.ModuleExactly` | web/backend/app/registry_promotion.py:94-101 | the module guard in fields: registered repository and classification, then the rules of a release |
| `RegistryGuards.IntentExactly` | web/backend/app/registry_promotion.py:38-55 | the guard of the intent in fields: the form of the key, a revision, and every value that names the candidate |
| `RegistryGuards.PromotionRefusals` | web/backend/app/registry_promotion.py:38-154 | which request is refused for which reason, in the order of the checks, in the fields of request and tables |
| `RegistryGuards.KeyReuseExactly` | web/backend/app/registry_promotion.py:102-105 | a key recorded for another intent is refused as such |
| `RegistryInvariant.FreshCommits` | web/backend/app/registry_promotion.py:84-184 | a committed fresh promotion passed every check and writes exactly one artifact binding, version, pointer and event |
| `RegistryInvariant.OwnModuleCheck` | web/backend/app/registry_promotion.py:141-154 | the own-module part of the final check passes if and only if the version is strictly newer than every release on its channel |
| `RegistryInvariant.OwnModuleAgrees` | web/backend/app/registry_promotion.py:84-154 | the check made on the view holds of the committed tables, because the own module is locked |
| `RegistryInvariant.PromotionKeepsInv` | web/backend/app/registry_promotion.py:84-184 | a committed promotion keeps the whole invariant whatever it saw of other modules |
| `RegistryCommit.InvRepresentable` | web/backend/app/api/registry_compatibility.py:18-23 | every state that keeps the invariant is accepted by the v1 selection rule |
| `RegistryCommit.CommitsExactlyWhen` | web/backend/app/registry_promotion.py:39-184 | a promotion under a new key that sees the committed tables commits if and only if a condition in the fields of request and tables holds: form, agreement with the candidate, registered repository and classification, release rules, new key and version, revision, storage, dependencies, and strictly newest on its channel |
| `RegistryImport.StorePublishers` | web/backend/app/registry_import_v1.py:26-28 | the publisher loop, refused by the first conflicting name |
| `RegistryImport.StoreModules` | web/backend/app/registry_import_v1.py:29-45 | the module loop, refused by the first different registration |
| `RegistryImport.StoreVersions` | web/backend/app/registry_import_v1.py:46-50 | the nested version loop inserts every item in order and counts the insertions |
| `RegistryImport.StorePointers` | web/backend/app/registry_import_v1.py:51-57 | the nested pointer loop stores every selected target |
| `RegistryImport.ImportRegistry` | web/backend/app/registry_import_v1.py:17-69 | commits what Import decides after both parity checks, or nothing |
| `RegistryLoading.AddPublishersAccepts` | web/backend/app/registry_import_v1.py:26-28 | publishers load if and only if no ID is given two names |
| `RegistryLoading.AddModulesAccepts` | web/backend/app/registry_import_v1.py:29-45 | modules load if and only if none is registered differently |
| `RegistryLoading.StoredIsNoOp` | web/backend/app/db/repository.py:110-129 | a version is found and nothing written if and only if it is there at the position, historical, and reads back the same |
| `RegistryLoading.AddItemsKeep` | web/backend/app/db/repository.py:89-176 | loading versions stores every item, keeps every older version and promotes none |
| `RegistryImportLaws.PointingIn` | web/backend/app/registry_import_v1.py:51-57 | the pointers loaded are exactly the index entries of the source |
| `RegistryImportLaws.ImportAgain` | web/backend/app/registry_import_v1.py:17-69 | the same import repeated inserts nothing and changes no table |
| `RegistryImportLaws.ParityDense` | web/backend/app/registry_import_v1.py:58-59 | projection parity forces every stored row to its canonical position |
| `RegistryImportLaws.ImportKeepsInv` | web/backend/app/registry_import_v1.py:17-69 | an import into tables without promotions keeps the invariant |
| `RegistryOverlap.LoadFinds` | web/backend/app/db/repository.py:89-129 | whatever a load sees, it keeps every version it saw and ends with each item stored as a historical version |
| `RegistryOverlap.ImportLockedOut` | web/backend/app/registry_import_v1.py:46-61 | after any promotion no import of any registry commits, not even one that overlaps with promotions and misses the latest ones of other modules |
| `RegistryOverlap.MergeSame` | web/backend/app/registry_import_v1.py:25-69 | an import that saw the committed tables leaves exactly its own tables behind |
| `RegistryLossless.LoadIntoEmpty` | web/backend/app/registry_import_v1.py:25-57 | a valid registry loads into an empty database if and only if names are consistent and dependencies present, and each module reads back canonically |
| `RegistryLossless.ImportIntoEmpty` | web/backend/app/registry_import_v1.py:17-69 | neither parity check can fail on a valid registry; every release becomes one version |
| `RegistryLossless.ImportStores` | web/backend/app/registry_import_v1.py:26-50 | column by column what an import stores for a publisher, a module and a release: canonical position, source evidence only, everything else unknown |
| `RegistrySteps.RetryAnswers` | web/backend/app/registry_promotion.py:102-110 | the same bound intent gets the recorded result, already-published, and writes nothing |
| `RegistrySteps.KeyReuseRefused` | web/backend/app/registry_promotion.py:102-105 | a used key with another bound intent never commits |
| `RegistrySteps.SecondKeyRefused` | web/backend/app/registry_promotion.py:111-120 | a second key for a promoted version never commits |
| `RegistrySteps.ImportCommits` | web/backend/app/registry_import_v1.py:17-69 | an import changes the tables only before the first promotion, and then leaves exactly what it loaded |
| `RegistrySteps.StepKeepsInv` | web/backend/app/registry_promotion.py:84-184 | every transaction, import or promotion, committed or refused, keeps the invariant |
| `RegistrySteps.StepAdvances` | web/backend/app/registry_promotion.py:84-184 | every transaction only adds: nothing published is lost, rewritten or rewound |
| `RegistrySteps.CommitAdvancesPointer` | web/backend/app/registry_promotion.py:141-154 | a committed promotion onto an existing channel moves it to strictly higher precedence and the next revision |
| `RegistrySteps.CommitPublishes` | web/backend/app/registry_promotion.py:84-154 | a committed promotion appends exactly the reviewed candidate, moves exactly its pointer and leaves every other module alone |
| `RegistrySteps.CommitMatches` | web/backend/app/registry_promotion.py:84-154 | whatever it saw of other modules, a committed promotion was the reviewed candidate, of the registered repository and classification, new, at the approved revision and strictly newest |
| `RegistrySteps.CommitStores` | web/backend/app/registry_promotion.py:48-154 | column by column what a commit stores: the version row with its evidence in the next place, the artifact's storage, the dependencies, and nothing else |
| `RegistrySteps.CommitReports` | web/backend/app/registry_promotion.py:155-184 | the appended event and its result name the target, the one it replaced, the next revision and the stored bytes |
| `RegistryRuns.ReachableIsRepresentable` | web/backend/app/registry_promotion.py:154-154 | in every reachable state all pointers and digests are what build_index selects |
| `RegistryRuns.RunAdvances` | web/backend/app/registry_promotion.py:84-184 | between any two moments of a run releases grow at their end and pointers only move to higher precedence and revision |
| `RegistryRuns.RetryAnyTimeLater` | web/backend/app/registry_promotion.py:102-110 | a retry after any number of later steps returns the original result and changes no table |
| `RegistryRuns.NothingElseCommits` | web/backend/app/registry_promotion.py:102-120 | after a promotion neither its key with another intent nor another key for its version ever commits |
| `RegistryRuns.NoImportAfterPromotion` | web/backend/app/registry_import_v1.py:46-61 | once a promotion has committed, every later import of the run is refused, overlapping ones included |
| `RegistryAudit.RunAudited` | web/backend/app/registry_promotion.py:121-183 | replaying the events over the imported pointers gives the current ones; each event names the target and revision it found |
| `RegistryAudit.RevisionsCount` | web/backend/app/registry_promotion.py:121-151 | a replayed revision is one for an imported pointer plus one for each event of the channel |
| `RegistryAudit.AuditExplainsPointers` | web/backend/app/registry_promotion.py:141-183 | in every reachable state each pointer is its last event's target or the imported one, and its revision counts the events |
| `RegistryDigests.CommitUnsharedExactlyWhen` | web/backend/app/registry_promotion.py:126-134 | a committed promotion leaves digests unshared if and only if it found the committed artifact row unbound |
| `RegistryDigests.CurrentReadIsUnbound` | web/backend/app/registry_promotion.py:126-134 | a promotion that read the committed row has itself checked that it is unbound |
| `RegistryDigests.RunUnsharedExactlyWhen` | web/backend/app/registry_promotion.py:126-134 | at any moment of any run no two promoted versions share a digest, if and only if every promotion so far found its row unbound |
| `RegistryDigests.CurrentReadsNeverShare` | web/backend/app/registry_promotion.py:126-134 | with current reads no digest is ever shared |
| `RegistryDigests.CommitLimitsSharing` | web/backend/app/registry_promotion.py:84-134 | a commit shares its digest only with promoted versions of other modules, and only if the digest was imported |
| `RegistryDigests.SharingIsLimited` | web/backend/app/registry_promotion.py:84-134 | in every run, whatever was read, two promoted versions of one digest belong to different modules and the digest was imported before |
| `RegistrySharing.EarlierReadShares` | web/backend/app/registry_promotion.py:126-134 | two promotions that both read an unbound row of one digest before either commits both commit and share it |
| `RegistrySharing.SharedDigestIsReachable` | web/backend/app/registry_promotion.py:126-134 | a concrete run from an empty database, an import and two committed promotions, reaches a shared digest |
| `StoreProtocol.StepKeepsInv` | scripts/artifact_store.py:288-340 | every step of every interleaved call, failures and crashes included, keeps whole, synced artifacts, private temporary files and unique publication claims |
| `StoreProtocol.CrashKeepsInv` | scripts/artifact_store.py:288-340 | a crash that loses every unsynced byte and entry it likes keeps the same invariant |
| `StoreRuns.NeverPartial` | scripts/artifact_store.py:312-340 | a final path never shows a partial file |
| `StoreRuns.ContentNeverChanges` | scripts/artifact_store.py:312-340 | a linked artifact's file and bytes never change |
| `StoreRuns.SuccessIsDurable` | scripts/artifact_store.py:292-340 | each reported success, fresh, lost race or already present, means the bytes are durable from then on |
| `StoreRuns.SuccessesAgree` | scripts/artifact_store.py:292-340 | two successes for one path carried the same digest, and at most one reports publication |
| `ArtifactStore.DigestOf` | scripts/artifact_store.py:177-184 | the chunked loop gives the digest and size of the whole stream |
| `ArtifactStore.FilesystemArtifactStore.Copy` | scripts/artifact_store.py:319-321 | the chunked copy fills the temporary file with exactly the source |
| `ArtifactStore.FilesystemArtifactStore.ConfirmExisting` | scripts/artifact_store.py:292-301 | an existing artifact is confirmed durably if and only if its bytes match |
| `ArtifactStore.FilesystemArtifactStore.Publish` | scripts/artifact_store.py:267-340 | an undisturbed publication's exact outcome and state in all four cases, as a sequence of protocol steps |
| `RegistryStorage.JointStepKeepsInv` | web/backend/app/registry_promotion.py:74-184 | bytes before commit: every joint step keeps promoted bytes on disk |
| `RegistryStorage.PromotedBytesAreDurable` | web/backend/app/registry_promotion.py:74-134 | in every reachable joint state each promoted version's bytes are durable at its path and at its registered location and hash to its digest |
| `HistoryGuard.ProtectHistory` | web/backend/app/db/models.py:228-248 | a flush passes if and only if it deletes no published row, changes no immutable row and keeps protected columns |
| `HistoryGuard.HistoryKeptExactly` | web/backend/app/db/models.py:228-248 | what a flush has to keep, table by table and column by column |
| `HistoryGuard.PublishedHistoryStays` | web/backend/app/db/models.py:228-248 | over any number of guarded flushes published rows stay and artifacts keep their digest |
| `Sessions.SessionService.IssueSession` | web/backend/app/auth/services/auth_service.py:196-255 | the caller gets the token of the one record added: live, of a new family, with the time of sign-in and the methods used; no other record changes |
| `Sessions.SessionService.RefreshSession` | web/backend/app/auth/services/auth_service.py:303-424 | refreshes, refuses or revokes exactly as Refresh decides, rotation checked before revocation |
| `Sessions.SessionService.RevokeTokenFamily` | web/backend/app/auth/services/auth_service.py:427-437 | row by row: every record of the family ends up closed, the open ones with this time and reason, and every other record is as it was |
| `Sessions.SessionService.RevokeCurrentSession` | web/backend/app/auth/services/auth_service.py:440-451 | a genuine, known token closes every record of its family and nothing else; any other token changes nothing |
| `Sessions.SessionService.RevokeAllSessions` | web/backend/app/auth/services/auth_service.py:454-468 | row by row: every record of the user ends up closed, the open ones with this time and reason, and every other record is as it was |
| `Sessions.SessionService.RevokeOtherSessions` | web/backend/app/auth/services/mfa_service.py:463-485 | the presented family, if it is the user's own, and other users keep their records; every other record of the user ends up closed |
| `Sessions.SessionService.ForgotPassword` | web/backend/app/auth/services/auth_service.py:549-576 | for an active user the new token is the only open one afterwards and other tokens stay as they were; for anyone else nothing changes |
| `Sessions.SessionService.ResetPassword` | web/backend/app/auth/services/auth_service.py:579-622 | succeeds if and only if the token is open and unexpired and the user exists; then the password is new, none of the user's tokens is open and every record of the user is closed; otherwise nothing changes |
| `Sessions.SessionService.ChangePassword` | web/backend/app/auth/services/auth_service.py:625-638 | succeeds if and only if the current password is right; then every record of the user is closed; otherwise nothing changes |
| `Sessions.OpenResetExactly` | web/backend/app/auth/services/auth_service.py:549-576 | token by token what a request does: the user's open ones are invalid, the new one is open, all others stay |
| `Sessions.CloseResetsExactly` | web/backend/app/auth/services/auth_service.py:606-618 | token by token what a reset does: the used one is used, the user's other open ones are invalid, all others stay |
| `Sessions.AtMostOneLive` | web/backend/app/auth/services/auth_service.py:390-411 | in a chained family only the unrotated tip can be live |
| `Sessions.RotationKeepsChains` | web/backend/app/auth/services/auth_service.py:390-411 | rotation keeps every family one chain through its successors |
| `SessionRuns.RunKeepsChains` | web/backend/app/auth/services/auth_service.py:196-468 | in every run every family's records form one chain |
| `SessionRuns.OneLiveRecord` | web/backend/app/auth/services/auth_service.py:331-437 | at every moment of a run at most one record of a family is live |
| `SessionRuns.ClaimsAreKept` | web/backend/app/auth/services/auth_service.py:394-404 | every token ever issued in a family carries the first one's authentication time and methods |
| `SessionRuns.DeadForEver` | web/backend/app/auth/services/auth_service.py:303-468 | a family without a live record never gets one again |
| `SessionRuns.RenewalExactly` | web/backend/app/auth/services/auth_service.py:331-424 | renewal succeeds if and only if the token is the live tip of an active user; then its successor has the same subject, time and methods, is the only live record, and no other record changes |
| `SessionRuns.RenewalRefusals` | web/backend/app/auth/services/auth_service.py:303-389 | every refusal of a renewal, in the fields of the presented token's record, with the rows it closes |
| `SessionRuns.InactiveRenewalEndsFamily` | web/backend/app/auth/services/auth_service.py:371-389 | a renewal refused for an inactive user leaves the family dead for ever |
| `SessionRuns.LateReuseEndsFamily` | web/backend/app/auth/services/auth_service.py:346-370 | late reuse of a rotated token leaves its family dead for ever |
| `SessionRuns.TokenRenewsOnce` | web/backend/app/auth/services/auth_service.py:346-411 | over a run a token renews at most once; presented again at any later step it is refused, with no change within the grace period and with the family dead for ever after it |
| `SessionRuns.IssuedClaimsStay` | web/backend/app/auth/services/auth_service.py:196-404 | at every later moment each record of an issued family belongs to that user and carries the time and the methods of that sign-in |
| `SessionRuns.SignOutEndsFamily` | web/backend/app/auth/services/auth_service.py:440-451 | logging out with a genuine token leaves its family dead for ever |
| `SessionRuns.SignOutOthersKeepsOwn` | web/backend/app/auth/services/mfa_service.py:463-485 | signing out elsewhere leaves the presented family as it is and every other family of the user dead for ever |
| `SessionRuns.SignOutAllEndsFamilies` | web/backend/app/auth/services/auth_service.py:454-468 | signing out everywhere, or a changed password, ends the user's families for ever |
| `SessionRuns.ClosedStays` | web/backend/app/auth/services/auth_service.py:549-622 | a closed reset token stays closed |
| `SessionRuns.ForgotEndsOlder` | web/backend/app/auth/services/auth_service.py:549-576 | no reset token from before a later request of the same active user ever works again |
| `SessionRuns.ResetExactly` | web/backend/app/auth/services/auth_service.py:579-622 | a reset succeeds if and only if the token is known, open and unexpired and its user exists; otherwise nothing changes |
| `SessionRuns.ResetIsFinal` | web/backend/app/auth/services/auth_service.py:579-622 | after a reset no token that the user had then, the used one included, ever works again, and the user's families are dead for ever |
| `Mfa.FindCounter` | web/backend/app/auth/services/mfa_service.py:220-231 | the search loop returns the first counter of the window whose code matches |
| `Mfa.MatchingCounter` | web/backend/app/auth/services/mfa_service.py:220-231 | a found counter is in the window and the first match; none found means none matches |
| `Mfa.MfaService.CreateLoginChallenge` | web/backend/app/auth/services/mfa_service.py:169-204 | closes the user's open challenges and opens a new one |
| `Mfa.MfaService.ConsumeFactor` | web/backend/app/auth/services/mfa_service.py:234-261 | accepts a newer counter or an unused code of the user, and consumes it |
| `Mfa.MfaService.VerifyLoginChallenge` | web/backend/app/auth/services/mfa_service.py:264-355 | every branch of the code path, with its commit or refusal |
| `Mfa.MfaService.VerifyMfa` | web/backend/app/auth/services/passkey_service.py:498-534 | every branch of the passkey path; failures count on the ceremony, not on the challenge |
| `Mfa.MfaService.StartTotpSetup` | web/backend/app/auth/services/mfa_service.py:358-388 | stores a new secret that has accepted nothing |
| `Mfa.MfaService.ConfirmTotpSetup` | web/backend/app/auth/services/mfa_service.py:400-433 | enables the method with the confirming counter and replaces the codes |
| `Mfa.MfaService.VerifySensitiveAction` | web/backend/app/auth/services/mfa_service.py:488-517 | consumes a factor or leaves nothing behind |
| `Mfa.MfaService.RegenerateRecoveryCodes` | web/backend/app/auth/services/mfa_service.py:520-527 | replaces the user's codes after a consumed factor |
| `Mfa.MfaService.DisableMfa` | web/backend/app/auth/services/mfa_service.py:530-546 | removes method and codes and closes unused challenges after a consumed factor |
| `MfaRuns.StepKeepsInv` | web/backend/app/auth/services/mfa_service.py:169-546 | every operation keeps challenges well-formed and one open challenge a user |
| `MfaRuns.ChallengesHold` | web/backend/app/auth/services/mfa_service.py:180-355 | at every moment no challenge is both used and invalidated, attempts stay within the limit and a user has one open challenge |
| `MfaExactly.LoginExactly` | web/backend/app/auth/services/mfa_service.py:264-355 | a code completes a challenge if and only if the challenge is open, unexpired, below its limit, the user active and enabled, and the code fits; then the factor is spent, the challenge used and nothing else changed |
| `MfaExactly.AcceptedExactly` | web/backend/app/auth/services/mfa_service.py:220-261 | which factor fits: the first counter of the window that shows the stripped code, newer than the last accepted one, or an own unused recovery code |
| `MfaExactly.WrongCodeCounts` | web/backend/app/auth/services/mfa_service.py:317-341 | a code that does not fit changes exactly this challenge: one more attempt, closed if and only if that is the last allowed one, answered accordingly |
| `MfaExactly.LoginRefusals` | web/backend/app/auth/services/mfa_service.py:264-316 | every other refusal of a code with its answer and its effect |
| `MfaExactly.CreateExactly` | web/backend/app/auth/services/mfa_service.py:169-204 | challenge by challenge what a new one does: the user's open ones close, all others stay |
| `MfaExactly.PasskeyExactly` | web/backend/app/auth/services/passkey_service.py:498-534 | a passkey completes a challenge if and only if its ceremony was opened for it, is open and unexpired and the key matches; then both are used and nothing else changed |
| `MfaExactly.PasskeyRefusals` | web/backend/app/auth/services/passkey_service.py:498-534 | every refusal of a passkey with its answer: the challenge stays, the ceremony counts or closes |
| `MfaExactly.OptionsExactly` | web/backend/app/auth/services/passkey_service.py:471-495 | a ceremony is opened if and only if the challenge is open and unexpired, bound to it and its user |
| `MfaExactly.SetupExactly` | web/backend/app/auth/services/mfa_service.py:358-388 | a new secret replaces one that is not enabled and has accepted nothing |
| `MfaExactly.ConfirmExactly` | web/backend/app/auth/services/mfa_service.py:391-433 | a setup is confirmed if and only if it is pending, unexpired and the code matches; then the method is enabled with that counter, the user has exactly the new codes, and what others have and all challenges stay |
| `MfaExactly.DisableExactly` | web/backend/app/auth/services/mfa_service.py:488-546 | MFA is turned off if and only if password and factor hold; then the user has no method and no code and no unused challenge is open, and what others have stays |
| `MfaExactly.SensitiveExactly` | web/backend/app/auth/services/mfa_service.py:488-517 | what a sensitive action asks for, and the answer of each refusal |
| `MfaExactly.RegenerateExactly` | web/backend/app/auth/services/mfa_service.py:520-527 | codes are regenerated if and only if password and factor hold; then the user has exactly the new codes, all unused, and what others have and all challenges stay |
| `MfaRuns.SucceedsAtMostOnce` | web/backend/app/auth/services/passkey_service.py:498-534 | a challenge succeeds at most once across the code and passkey paths |
| `MfaRuns.FailuresBounded` | web/backend/app/auth/services/mfa_service.py:317-341 | over a whole run a challenge takes at most the allowed number of refused codes |
| `MfaRuns.CountersIncrease` | web/backend/app/auth/services/mfa_service.py:238-246 | the counters accepted for one stored secret strictly increase over the whole run |
| `MfaRuns.RecoveryCodesAreOneTime` | web/backend/app/auth/services/mfa_service.py:247-261 | no recovery code is consumed twice by any operation |
| `MfaRuns.ReplacedCodesAreDead` | web/backend/app/auth/services/mfa_service.py:391-546 | no recovery code from before a regeneration, a confirmed setup or turning off is ever accepted after it |
| `RateLimit.MemoryLimiter.Expire` | web/backend/app/auth/services/rate_limit.py:74-76 | removes exactly the windows that have run out |
| `RateLimit.MemoryLimiter.CheckMemory` | web/backend/app/auth/services/rate_limit.py:71-85 | counts the call, moves its window to the end and evicts the oldest down to the cap |
| `RateLimit.MemoryLimiter.CheckRateLimit` | web/backend/app/auth/services/rate_limit.py:97-131 | a call passes if and only if its count is within the limit; when Redis fails it is refused or counted in memory, as the settings say |
| `RateLimitRuns.StaysBounded` | web/backend/app/auth/services/rate_limit.py:77-84 | the table stays within its cap and the caller's own window survives |
| `RateLimitRuns.RetryWithinWindow` | web/backend/app/auth/services/rate_limit.py:85-85 | the announced wait lies between one second and the window |
| `RateLimitRuns.RetryExactly` | web/backend/app/auth/services/rate_limit.py:85-85 | after the announced wait less than a millisecond of the window is left, a wait above one second is less than a second too long, and the window has run out if and only if its rest was at most a second or not less than a millisecond above a whole number of seconds |
| `RateLimitRuns.RetryTooEarly` | web/backend/app/auth/services/rate_limit.py:85-85 | a rest of 1.0005 seconds is announced as one second |
| `RateLimitRuns.CallRefines` | web/backend/app/auth/services/rate_limit.py:71-85 | a call that leaves the live keys within the cap is answered as by an unbounded counter |
| `RateLimitRuns.RunRefines` | web/backend/app/auth/services/rate_limit.py:71-85 | so is every call of a run whose live keys always fit |
| `RateLimitRuns.AtMostLimitPass` | web/backend/app/auth/services/rate_limit.py:107-131 | then at most the limit of calls pass for each key and window |
| `Retention.ReleaseRoot.SelectReleases` | deploy/ansible/roles/packages_registry/files/prune_releases.py:42-66 | classifies every entry before choosing, and chooses the unprotected excess |
| `Retention.ReleaseRoot.DeleteAll` | deploy/ansible/roles/packages_registry/files/prune_releases.py:81-88 | deletes one by one, never a release that is protected when the pointers are read again |
| `Retention.ReleaseRoot.Prune` | deploy/ansible/roles/packages_registry/files/prune_releases.py:69-89 | nothing is deleted on a refusal before the loop; with unmoved pointers all selected releases are |
| `Retention.SelectionExactly` | deploy/ansible/roles/packages_registry/files/prune_releases.py:42-66 | when and why a selection is refused: a retention below two, a pointer that names no safe release, an entry unsafe or without its ready marker |
| `Retention.SurvivorCount` | deploy/ansible/roles/packages_registry/files/prune_releases.py:65-66 | a completed prune leaves exactly the smaller of the total and the retention |
| `Retention.ProtectedSurvive` | deploy/ansible/roles/packages_registry/files/prune_releases.py:31-39 | current and previous survive |
| `Retention.SurvivorsAreNewest` | deploy/ansible/roles/packages_registry/files/prune_releases.py:65-66 | an unprotected survivor is newer than anything deleted, or as new and of the smaller name |
| `Retention.PruneIsIdempotent` | deploy/ansible/roles/packages_registry/files/prune_releases.py:42-89 | a second prune deletes nothing |
| `MaintenanceLock.StepKeepsInv` | deploy/ansible/roles/packages_registry/files/maintenance_lock.py:21-36 | opening, locking, inheriting, closing and killing keep the one-holder invariant |
| `MaintenanceLock.NoDeletionUnderAnotherTree` | deploy/ansible/roles/packages_registry/files/maintenance_lock.py:21-77 | no release is deleted while another process tree holds an acquired or inherited descriptor |
| `MaintenanceLock.FreeExactlyWhen` | deploy/ansible/roles/packages_registry/files/maintenance_lock.py:27-30 | the lock can be taken if and only if no other acquired descriptor is open |
| `MaintenanceLock.DeadTreeFreesLock` | deploy/ansible/roles/packages_registry/files/maintenance_lock.py:32-36 | once a whole tree is gone, killed or finished, its lock is free |
| `MaintenanceLock.Machine.ExclusiveLock` | deploy/ansible/roles/packages_registry/files/maintenance_lock.py:21-36 | acquires a free lock or closes the new descriptor again |
| `MaintenanceLock.Machine.RunCommand` | deploy/ansible/roles/packages_registry/files/maintenance_lock.py:64-77 | a busy lock runs nothing and returns 75; the lock outlives the supervisor only through what the command left behind |
| `MaintenanceRuns.MoveKeepsInv` | deploy/ansible/roles/packages_registry/files/prune_releases.py:69-89 | every lock step, deployment, deletion and kill keeps each running prune exactly on track |
| `MaintenanceRuns.DeploymentsWait` | deploy/ansible/roles/packages_registry/files/maintenance_lock.py:21-77 | no deployment comes between two steps of a prune |
| `MaintenanceRuns.PruneNeverStops` | deploy/ansible/roles/packages_registry/files/prune_releases.py:81-88 | no prune inside the lock ever finds a selected release protected or gone |
| `MaintenanceRuns.PruneGoesOn` | deploy/ansible/roles/packages_registry/files/prune_releases.py:81-89 | at every moment the next selected release is there, safe and protected by neither pointer, and deleting it takes away exactly that release; a prune with none left can end |
| `MaintenanceRuns.BeginExactly` | deploy/ansible/roles/packages_registry/files/prune_releases.py:69-80 | a prune works from exactly the releases and pointers it found at its start, none of the selected ones with a mount inside |
| `MaintenanceRuns.EndedPruneIsComplete` | deploy/ansible/roles/packages_registry/files/prune_releases.py:69-89 | a prune that ends has deleted exactly what it selected, both pointers stay, and a next selection is empty |
| `MaintenanceRuns.TurnsAreReachable` | deploy/ansible/roles/packages_registry/files/maintenance_lock.py:21-77 | a concrete run: one process takes the lock, deploys and is killed; another takes it, deletes the oldest release and ends |
| `SearchPattern.ChainedIsEscaped` | web/backend/app/db/repository.py:278-278 | the three chained replacements are one-pass character escaping |
| `SearchPattern.UnderscoresMatchLength` | web/backend/app/db/repository.py:278-278 | why the underscore is escaped: unescaped it stands for any one character |
| `SearchPattern.SearchFindsLiteralText` | web/backend/app/db/repository.py:276-291 | a column matches the pattern if and only if the text occurs in it literally, up to case folding |

## Left out

- RegistryDocuments.ValidateModule: JSON Schema, URL, licence, specifier and commit formats of documents are not modelled; the predicate keeps the ID, the version grammar, the stable channel rule, the bundle format and the self-dependency rule.
- RegistryDocuments.BuildIndex: the schema version of the index and its JSON Schema check are not modelled.
- RegistryPromotion.RegistryDatabase.Promote: does not check the schema revision of the database, and takes the reviewed evidence as an input.
- The digest of a candidate document covers the modelled fields only; loading and reviewing the evidence of a candidate is an input.
- The provenance row is part of its version row and an artifact's key is its digest; surrogate keys, timestamps and the import time of a row are not modelled.
- The project list of the projection is a map keyed by module ID, not a list sorted by it; canonical JSON texts are compared as values.
- RegistryImport.ImportRegistry: the method sees the committed tables; what an import that overlaps with promotions may see is stated on the step (`RegistryOverlap`).
- Deadlocks, lock waits, and statement snapshots other than the views described above.
- RegistryRepository.Session.EnsureArtifact: does not compare the digest algorithm, of which there is only one.
- POSIX details of the store: symbolic links, permissions, mount checks, the repeated check of the parent directory, the health probe; ancestor directories are taken as durable.
- ArtifactStore.FilesystemArtifactStore.Publish: states an undisturbed call; what interleaved calls and crashes do is stated on the protocol.
- E-mail, cookies, OAuth, JWT and WebAuthn cryptography, password policy and audit rows of the authentication services.
- Mfa.FindCounter: a code with digits outside ASCII is taken as malformed; the time-based code itself is an arbitrary function of secret and counter.
- Interleavings inside the transactions of the session and second-factor services: each transaction is one step.
- MfaRuns.FailuresBounded: takes the attempt limit as positive; the settings require at least 3.
- RateLimitRuns.RetryWithinWindow: is about real numbers, not about the rounding of floating-point clocks.
- The script that runs inside Redis (its answer or failure is an input) and the choice of the limiter's key.
- Retention.ReleaseRoot.Prune: takes path safety, ready markers and mounts as facts recorded with each release; the check before each deletion is repeated in `MaintenanceRuns`, where mounts stay as they were at the start.
- The refusal of older cleanup processes that predate the lock; a deployment is any change of releases and pointers by a process that holds the lock.
- Search columns other than by their text, ranking and catalogue paging.
