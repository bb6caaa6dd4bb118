# ReproForge, verified model

ReproForge runs a reported bug in disposable sandboxes, lets a pure oracle judge the runs, and keeps the proof in a
database, a private blob store and portable archives. This project models its hardest logic in Dafny and proves what
that logic is for. Every member is checked by the verifier alone: `dafny verify dfyconfig.toml`.

The files, by subject:

- **Artifact store** (`ArtifactProtocol`, `ArtifactStore`): one row and one blob per content identity, changed by any
  number of interleaved `put`, `read` and `delete` calls that coordinate only through compare-and-swap on the row's
  version. Every SQL statement and every provider call is one step. `ArtifactStore` is the operations as code; each is
  proved to be one call of the protocol, with the other calls moving between any two of its statements.
- **Sandbox lifecycle** (`SandboxLifecycle`, `RepositoryRunner`, `ExecutionPlanning`): the coordinator and the runner
  against a provider that may succeed or throw at every call, with an abort at any await. A ghost log records what was
  asked of the provider; a monitor over the log states the discipline, and lemmas turn the monitor's state back into
  counts and occurrences in the log.
- **Redaction, JSON and portable backups** (`Redaction`, `Json`, `JsonGrammar`, `JsonPrinting`, `CanonicalJson`,
  `Base64`, `PortableBackup`, `Texts`): text is a sequence of UTF-16 code units; a printer and a parser for JSON, and the
  grammar of RFC 8259 that the parser is proved against; canonical JSON; base64 as in sections 3.5 and 4 of RFC 4648.
- **Tenant restore** (`TenantManifest`, `TenantRestore`, `ExportCompleteness`, `TenantIsolation`, `TenantDatabase`,
  `TenantBackupService`): export and restore of a tenant through relational rows with the constraints of the tables, what
  an export never loses and a restore never touches, and the service around the transaction.
- **GitHub authorization** (`AuthorizationState`, `AuthorizationStore`, `WebhookEffects`, `AuthorizationTransactions`): the
  reducer, the webhook state machine around it and what each webhook does to rows, the reading side, and the transactions
  as statements on rows.
- **Proof assembly** (`Lifecycle`, `Verification`, `Minimization`, `FailureSignature`, `RepositoryEvidence`,
  `ReproductionBundle`, `RepositoryProof`): oracle, verdict, minimization, redacted runs and evidence, bundle with its hash
  and its files, and the terminal case.
- **Bounded loops** (`CaseService`, `TrustedStart`, `Investigator`, `SourceProvenance`, `Supervisor`): the idempotent
  start under concurrency, the investigator loop, archive validation, and the supervisor's traversals.
- **Shared** (`Wrappers`, `Lists`): options and results, filtering, insertion sort under a strict order, permutations.

Where a promise of the design does not hold of the code, the code is kept, a member shows the failing input, and the
exact condition is proved:

- `stop` of the prepared sandbox is requested twice exactly when an abort found the runner still owning a created
  sandbox and the preparation nevertheless went on to the hand-over (`RepositoryRunner.Runner.Execute`); a cancellation
  during acquisition that completes all the same does it (`RepositoryRunner.TwoStops`).
- A provider deletion that throws after taking effect leaves a row AVAILABLE without its object, from any available
  artifact (`ArtifactProtocol.LostDeleteReplyLosesTheArtifact`); the safety results assume that it does not happen, and
  a step keeps the invariant exactly under that assumption (`ArtifactProtocol.StepIsSafeExactly`).
- A put can answer that an artifact is stored although a deletion has claimed it, exactly when it finds the artifact
  there and the deletion gets between its two looks (`ArtifactProtocol.StoredExactly`,
  `ArtifactProtocol.StoredWhileDeleting`).
- A restored archive verifies exactly when its manifest has the form export gives it: `repositoryRequest` and
  `requestedBudget` have no column, and lists come back ordered (`TenantRestore.ExportUndoesRestore`). A small backup
  with a budget is restored and then exported as something else (`TenantDatabase.BudgetIsLost`).
- A reconciliation that carries a provider time overwrites the time of the installation, so the order of deliveries can
  show. It does not show exactly when the transitions settle with the date, for any number of them
  (`AuthorizationState.OrderIrrelevantExactly`, `AuthorizationStore.RunsConvergeExactly`), and for one of each in terms
  of times and statuses alone (`AuthorizationStore.PairConvergesExactly`). A suspension and a later snapshot do not
  settle (`AuthorizationStore.ReconciliationBreaksConvergence`).
- A start whose response fails its schema after the run succeeded overwrites the succeeded job with a failed one, a
  move the transition table of jobs does not have; no other step makes one (`CaseService.JobsMoveAlongTheTable`,
  `CaseService.ResponseCanBeRejected`).
- Writing a record keeps the three indexes in agreement exactly when its case and job are new or the ones it had
  (`CaseService.WriteKeepsAgreement`); nothing in the repository object itself enforces that
  (`CaseService.AnotherCaseDisagrees`).
- With repeated proposal ids minimization can throw (`Minimization.RepeatedIdsCanFail`). The result passes its own schema
  exactly when the evaluation that is listed first under the id of a best verified one is verified
  (`Minimization.ValidExactly`).
- The path check looks for a drive prefix at the start of the whole path only, so `root/C:/x` is accepted although its
  relative path would not be (`SourceProvenance.RelativePathIsSafe`, `SourceProvenance.DriveBelowRootIsAccepted`).
- An export loses no live case exactly when no job of the tenant belongs to a deleted one: the guard compares counts, so a
  deleted case that kept its job and key stands in for a live one (`ExportCompleteness.ReproductionsAreComplete`,
  `ExportCompleteness.LiveCaseIsLost`).
- Of the evidence of a proof only the issue title is redacted. The other sentences hide the registered secrets exactly
  when none occurs in them (`RepositoryEvidence.SentencesHideExactly`); the secret `commit` occurs in one of them for every
  accepted input (`RepositoryEvidence.WordingShowsSecret`).
- A manifest that canonical JSON cannot express makes verification throw a TypeError instead of reporting corruption,
  exactly when it is otherwise valid (`PortableBackup.Verify`); a function inside a source descriptor does it
  (`PortableBackup.FunctionInDescriptor`).
- A verified reproduction is not packaged exactly when its oracle compares a field with something canonical JSON cannot
  express, which throws a TypeError, or with undefined where the schema demands the member that is not printed for it
  (`RepositoryProof.Assemble`). `undefined` in a list does the first, since it matches a null in the output
  (`RepositoryProof.UndefinedInListCannotBeHashed`).

## Model

| member | source | states |
|---|---|---|
| `ArtifactProtocol.StepKeepsOwnCell` | src/infrastructure/artifacts/content-addressed-store.ts:155-382 | Each single statement or provider call of a put, read or delete keeps the row and blob consistent and its own caller's knowledge true; only a call that owns the row may touch the blob, and a claim is given up only together with the claimed status |
| `ArtifactProtocol.StepKeepsOtherCalls` | src/infrastructure/artifacts/content-addressed-store.ts:155-382 | What any other call knows of the row survives a step, because rows only move to successor versions and owners exclude each other |
| `ArtifactProtocol.RunKeepsInv` | src/infrastructure/artifacts/content-addressed-store.ts:155-382 | The inductive invariant over every interleaving of any number of calls, grants and tenant changes |
| `ArtifactProtocol.ReachableStatesAreSafe` | src/infrastructure/artifacts/content-addressed-store.ts:155-382 | In every reachable state an AVAILABLE row's object exists with the recorded size, etag and digest, a DELETED row's object is gone, at most one call in flight may change an object, and returned bytes hash to their descriptor |
| `ArtifactProtocol.RowsOnlyMoveForward` | src/infrastructure/artifacts/content-addressed-store.ts:211-226 | Along every run versions only grow, a byte count never changes, and a DELETED row with its absent object never changes again |
| `ArtifactProtocol.ClaimsAreNeverLost` | src/infrastructure/artifacts/content-addressed-store.ts:260-295 | The compare-and-swap that publishes, fails, completes or gives back a claimed row always hits, and a conditional delete of a claimed object always deletes it, so the lookup after it is unreachable |
| `ArtifactProtocol.StoredMeansStored` | src/infrastructure/artifacts/content-addressed-store.ts:260-276 | A put that publishes what it uploaded leaves the row AVAILABLE with its object in place |
| `ArtifactProtocol.StoredExactly` | src/infrastructure/artifacts/content-addressed-store.ts:260-276 | When any step of a put answers that the artifact is stored, its object is there as the row describes it, and the row is AVAILABLE or DELETING: DELETING exactly when a deletion in flight has claimed it, which a put that publishes excludes |
| `ArtifactProtocol.StoredWhileDeleting` | src/infrastructure/artifacts/content-addressed-store.ts:200-208 | A run without faults in which a put answers that the artifact is stored while a deletion has already claimed it |
| `ArtifactProtocol.UndisturbedReadSucceeds` | src/infrastructure/artifacts/content-addressed-store.ts:301-322 | A read can only fail because of the provider or an interleaved deletion |
| `ArtifactProtocol.LetInWasAdmitted` | src/infrastructure/artifacts/content-addressed-store.ts:301-418 | Over every interleaving, a read that answers anything but that there is nothing, a deletion that answers anything but that it removed nothing, and a put that stores, has passed a state of its own time in flight in which its caller had a grant on the case and the row was AVAILABLE, or for a put its tenant was active |
| `ArtifactProtocol.UndisturbedReadExactly` | src/infrastructure/artifacts/content-addressed-store.ts:301-322 | From every state with the invariant, a read that nothing disturbs answers an AVAILABLE artifact's bytes to a caller with access, or the provider's failure when it throws, and nothing to anyone else |
| `ArtifactProtocol.UndisturbedDeleteExactly` | src/infrastructure/artifacts/content-addressed-store.ts:324-382 | What a deletion that nothing disturbs answers and leaves, by access and by how the provider takes it: removed two versions later, back to AVAILABLE with the failure reported, or nothing removed and nothing changed |
| `ArtifactProtocol.UndisturbedPutExactly` | src/infrastructure/artifacts/content-addressed-store.ts:155-299 | What a put that nothing disturbs answers and leaves, by bytes, tenant, row, object and how the provider takes each step: refused, stored anew or by adoption, found stored, failed with its object discarded, or left to the call that has claimed it |
| `ArtifactProtocol.LostUploadReplyIsAdopted` | src/infrastructure/artifacts/content-addressed-store.ts:238-276 | An upload whose reply is lost after taking effect is found, adopted and published by the same call |
| `ArtifactProtocol.LostDeleteReplyLosesTheArtifact` | src/infrastructure/artifacts/content-addressed-store.ts:344-381 | From any available artifact, a deletion whose reply is lost sends the row back to AVAILABLE without its object, so the fault assumption on deletion is needed |
| `ArtifactProtocol.StepIsSafeExactly` | src/infrastructure/artifacts/content-addressed-store.ts:344-381 | From any state with the invariant, a step keeps it exactly when it is not a deletion that loses its reply: the fault assumption is the weakest one |
| `ArtifactStore.Backend.UpdateRow` | src/infrastructure/artifacts/content-addressed-store.ts:211-226 | The compare-and-swap changes the row exactly when status and version are the expected ones, and then to the next version |
| `ArtifactStore.PutArtifact` | src/infrastructure/artifacts/content-addressed-store.ts:155-299 | The code of put, with other calls moving between its statements, is one call of the protocol and returns that call's answer; when it answers that it stored, the tenant was active at some point of the call, the object is there, and the row is AVAILABLE exactly unless a deletion has claimed it |
| `ArtifactStore.WritePending` | src/infrastructure/artifacts/content-addressed-store.ts:235-298 | Upload or adoption, publication and compensation lead an owned PENDING row to the answer the protocol gives; when that is that it stored, the row is AVAILABLE and its object is there |
| `ArtifactStore.ReadArtifact` | src/infrastructure/artifacts/content-addressed-store.ts:301-418 | The code of read is one call of the protocol; bytes it returns have the described size and digest, and unless it answers that there is nothing, its caller had a grant on the AVAILABLE artifact's case at some point of the call |
| `ArtifactStore.DeleteArtifact` | src/infrastructure/artifacts/content-addressed-store.ts:324-418 | The code of delete, including claim, completion and giving back, is one call of the protocol; when it answers that it removed, the row is DELETED and its object is gone, and unless it answers that it removed nothing, its caller had a grant on the AVAILABLE artifact's case at some point of the call |
| `SandboxLifecycle.RemembersSession` | src/execution/sandbox-lifecycle.ts:148-161 | In an orderly log a session is stopped and quarantined at most once, and the monitor knows exactly what the log says of it |
| `SandboxLifecycle.RemembersFailures` | src/execution/sandbox-lifecycle.ts:139-146 | A clean-up counts as failed exactly when some stop or the snapshot's deletion was rejected |
| `SandboxLifecycle.Attempt.RunIndex` | src/execution/sandbox-lifecycle.ts:183-255 | One run restores once and then once for each set-back it retries, ends with every session's stop settled, and yields one value exactly when it succeeds; it is given up only for an abort, for a run that failed for good, or when one plus the retries allowed were set back |
| `SandboxLifecycle.Attempt.RunEach` | src/execution/sandbox-lifecycle.ts:182-256 | All runs: one value each in order, restores equal to runs plus counted retries, bounded by runCount times one plus the retries allowed |
| `SandboxLifecycle.Attempt.Execute` | src/execution/sandbox-lifecycle.ts:115-284 | Success exactly when the log has an accepted value for each run, the value at index i being what run i returned, with one restore more than set-backs for each; a failure names its reason in the log: an abort, no snapshot, a run that failed for good, or exactly one plus maxProviderRetries restores all set back. On every exit each session was stopped exactly once and has settled, an obtained snapshot was deleted exactly once, the reported status is clean exactly when none of it failed, and every failure was quarantined once |
| `SandboxLifecycle.RestoresAreDisciplined` | src/execution/sandbox-lifecycle.ts:184-205 | Whenever a restore is asked for, no abort was visible, every earlier session's stop had settled, and the runs before it had been accepted |
| `SandboxLifecycle.AcceptedRunsAreUndisturbed` | src/execution/sandbox-lifecycle.ts:207-221 | A value is only accepted from the run of its index, on a session not asked to stop, with no abort visible |
| `SandboxLifecycle.ValueComesFromItsRun` | src/execution/sandbox-lifecycle.ts:207-221 | A value reported for a run is that of an accepted run of that index, on a session that had not been asked to stop and with no abort visible |
| `ExecutionPlanning.NodePlanIsAccepted` | src/execution/execution-planning.ts:40-111 | The built plan always passes the rules of its schema, and its experiments are one control followed by the candidates |
| `ExecutionPlanning.AcceptedExactly` | src/execution/contracts.ts:233-313 | The schema accepts exactly the plans within its bounds whose experiments are one control and then the required number of candidates, all after the one offline installation, and that after an acquisition |
| `RepositoryRunner.Runner.HandOver` | src/execution/isolated-repository-runner.ts:288-329 | After ownership is handed over the coordinator's own validation cannot refuse, so it always stops the sandbox, exactly once; it succeeds exactly when the coordinator's runs are one execution and the proof is assembled, and reports the reason in the coordinator's log when that failed |
| `RepositoryRunner.Runner.Execute` | src/execution/isolated-repository-runner.ts:185-410 | Success exactly when the coordinator completed, its runs are one execution of the planned environment and the proof is assembled, and then that execution is returned. Every exit after creation has requested the stop, once, or twice exactly when an abort stopped the sandbox before a hand-over that still took place; an aborted attempt that fails reports the abort, except exactly when the completed runs have no control or another environment, and any other failure reports its reason |
| `RepositoryRunner.ExecutionMeans` | src/execution/isolated-repository-runner.ts:392-410 | An accepted execution is one control and one to MAX_RUNS candidates among the runs, all of the planned environment |
| `RepositoryRunner.TwoStops` | src/execution/isolated-repository-runner.ts:226-262 | For every accepted input, a cancellation during an acquisition that completes all the same makes the stop be requested twice |
| `Redaction.MarkerHasNoBorder` | src/domain/bundle.ts:99 | No proper suffix of the marker is one of its prefixes |
| `Redaction.SplitJoin` | src/domain/bundle.ts:149-153 | Splitting at markers undoes joining marker-free pieces with markers |
| `Redaction.RedactedForm` | src/domain/bundle.ts:142-154 | A redacted text is secret-free and marker-free pieces joined by markers |
| `Redaction.RedactStringIsIdempotent` | src/domain/bundle.ts:142-154 | Redacting twice is redacting once, for every text and every list of secrets |
| `Redaction.NoSecretBetweenMarkers` | src/domain/bundle.ts:142-154 | No registered secret occurs between the markers of the output |
| `Redaction.NoSecretInValues` | src/domain/bundle.ts:156-169 | No registered secret occurs between the markers of any text, at any depth, of a redacted value |
| `Redaction.OnlySecretsAreReplaced` | src/domain/bundle.ts:142-154 | The original is the text between the output's markers, in order, with a registered secret or an old marker where each marker stands: nothing else is lost |
| `Redaction.RedactedHidesAndShows` | src/domain/bundle.ts:142-154 | A redacted text shows no registered secret between its markers, and everything else of the original |
| `Redaction.FirstMatchIsLongest` | src/domain/bundle.ts:143-149 | Where several secrets match, the longest is replaced |
| `Redaction.SecretOrderIsIrrelevant` | src/domain/bundle.ts:143-145 | Neither the order nor the repetition of secrets, nor empty ones, change the output |
| `Redaction.SecretOrderIsIrrelevantInValues` | src/domain/bundle.ts:142-169 | The same for whole values |
| `Redaction.RedactSecretsIsIdempotent` | src/domain/bundle.ts:156-169 | Redaction of whole values is idempotent |
| `Redaction.RedactionKeepsNonEmpty` | src/domain/bundle.ts:142-154 | A non-empty text stays non-empty, so redaction cannot break a minimum length of one |
| `Json.ParseUndoesPrint` | src/domain/bundle.ts:130-132 | Parsing what is printed for a value gives the value back |
| `Json.TextBehindValue` | src/application/tenant-backup.ts:437-439 | A printed string, list or object followed by more text parses exactly when that text is white space |
| `Json.PrintedIsPaired` | src/application/tenant-backup.ts:419-426 | Printed JSON contains no lone surrogate, so encoding it as UTF-8 loses nothing |
| `JsonGrammar.ParsesExactlyJson` | src/application/tenant-backup.ts:437-439 | A text parses to a value exactly when it is a writing of that value by the grammar of RFC 8259: numbers, escapes, white space and structure, and of members with one name the last one counts |
| `JsonPrinting.OrdinaryTextIsPrinted` | src/domain/bundle.ts:130-132 | Text without quotes, backslashes, control characters and surrogates is printed as it is between quotes |
| `JsonPrinting.EscapesOthers` | src/domain/bundle.ts:130-132 | Every other unit on its own is escaped by the letter the standard has for it, or else by four small hexadecimal digits that stand for it |
| `JsonPrinting.PrintsCompactly` | src/domain/bundle.ts:130-132 | Lists and objects are printed without white space, as their parts with commas between them |
| `CanonicalJson.NormalMeansTheSame` | src/domain/bundle.ts:101-128 | Dropping undefined members and sorting does not change what a value means |
| `CanonicalJson.CanonicalTextParses` | src/domain/bundle.ts:101-132 | The canonical text parses to the normal form, which means what the value means |
| `CanonicalJson.CanonicalTextExactly` | src/domain/bundle.ts:101-132 | A value's canonical text is the printing of the one value that means the same and whose names ascend at every level, array indices first |
| `CanonicalJson.SameTextMeansSameMeaning` | src/domain/bundle.ts:101-132 | Two values have the same canonical text exactly when they mean the same: member order and undefined members never show, and nothing else is lost |
| `Base64.DecodeUndoesEncode` | src/application/tenant-backup.ts:397-399 | Decoding what was encoded gives the bytes back |
| `Base64.AcceptsExactlyTheImage` | src/application/tenant-backup.ts:389-400 | The strict decoder accepts a text as given bytes exactly when the text is their encoding |
| `Base64.AcceptedTexts` | src/application/tenant-backup.ts:389-400 | In terms of the text alone: accepted exactly when it has the right shape and its unused bits are zero |
| `Base64.EncodesTheNumber` | src/application/tenant-backup.ts:389-400 | The symbols are, to base 64, the number that the bytes are to base 256, with zero bits behind it up to a whole symbol |
| `Base64.EncodesInGroups` | src/application/tenant-backup.ts:389-400 | Four symbols for each three bytes begun, with padding exactly for the bytes that are missing |
| `TenantManifest.CheckManifest` | src/application/tenant-backup.ts:211-308 | The loops over sets accept a manifest exactly when tenants agree, identities are unique, references resolve and successful jobs have a bundle |
| `TenantManifest.CheckReproductions` | src/application/tenant-backup.ts:216-246 | Reproductions are accepted exactly when all belong to the tenant and no two share case, job or caller and key |
| `TenantManifest.CheckEvidence` | src/application/tenant-backup.ts:248-272 | For any reproductions, evidence is accepted exactly when each item belongs to the tenant, the first reproduction of its job is of its case and has reached its attempt, and no identity repeats |
| `TenantManifest.ChecksAreAgreement` | src/application/tenant-backup.ts:248-272 | Among reproductions that agree, this is that each item names an attempt of some reproduction |
| `TenantManifest.CheckArtifacts` | src/application/tenant-backup.ts:274-291 | Artifacts are accepted exactly when all belong to a case of the tenant and neither ids nor object keys repeat |
| `TenantManifest.ConsistentMeans` | src/application/tenant-backup.ts:103-308 | Every part of an accepted manifest is the tenant's, every reproduction has ended as its states say, every piece of evidence is of one attempt of one job, every artifact of one case, its object key says whose it is, and everything is kept for some time after it was made |
| `PortableBackup.Verify` | src/application/tenant-backup.ts:480-516 | An archive is accepted exactly when its manifest is valid, has the stated digest, and the objects are exactly the bodies described, and the rebuilt archive is the given one; the TypeError comes exactly when the schema accepts the manifest and canonical JSON does not |
| `PortableBackup.FunctionInDescriptor` | src/application/tenant-backup.ts:480-516 | For every schema that does not look inside source descriptors, whatever manifest it accepts is still accepted with a function in one of its descriptors, and can then not be canonicalised |
| `PortableBackup.Serialize` | src/application/tenant-backup.ts:402-429 | Writing succeeds exactly for intact archives within the size limit |
| `PortableBackup.ParseBackup` | src/application/tenant-backup.ts:431-470 | Bytes that carry an intact archive are read as that archive; all others are reported as corruption, and nothing else is ever answered |
| `PortableBackup.ReadsExactly` | src/application/tenant-backup.ts:431-470 | Bytes are read exactly when they decode to JSON that spells an intact archive within the size limit, member by member and body by body |
| `PortableBackup.TextBehindBackup` | src/application/tenant-backup.ts:437-439 | A written archive followed by more text is read exactly when that text is white space and the whole is within the size limit |
| `PortableBackup.ReadUndoesWrite` | src/application/tenant-backup.ts:402-470 | Reading the portable form of an intact archive within the size limit gives that archive back, its manifest up to the order of members |
| `PortableBackup.SameBytesSameArchive` | src/application/tenant-backup.ts:402-429 | Two intact archives are written to the same bytes exactly when they are the same archive |
| `TenantRestore.MapUndoesInsert` | src/infrastructure/backup/postgres-tenant-backup.ts:524-591 | Reading back the rows written for a reproduction loses the repository request and the requested budget and nothing else |
| `TenantRestore.InsertUndoesMap` | src/infrastructure/backup/postgres-tenant-backup.ts:756-840 | Rows that are mapped to a reproduction are what inserting that reproduction writes |
| `TenantRestore.ColumnsAreFields` | src/infrastructure/backup/postgres-tenant-backup.ts:524-591 | Rows are mapped exactly when the versions of case and job agree and the failure is whole or absent, each column to the field of its name |
| `TenantRestore.ExportIsInForm` | src/infrastructure/backup/postgres-tenant-backup.ts:396-465 | Every exported manifest has its lists in the order of the queries and neither of the two fields |
| `TenantRestore.ExportFormExactly` | src/infrastructure/backup/postgres-tenant-backup.ts:396-465 | For an accepted manifest that form is: reproductions ascend by case, evidence by job, attempt and sequence, artifacts by case, kind and id, and no request or requested budget |
| `TenantRestore.ExportUndoesRestore` | src/infrastructure/backup/postgres-tenant-backup.ts:298-307 | Exporting a restored tenant gives the manifest it was restored from exactly when that manifest has the form of an export |
| `ExportCompleteness.ReproductionsAreComplete` | src/infrastructure/backup/postgres-tenant-backup.ts:366-440 | An export has each key and each job of the tenant in exactly one reproduction, and each live case exactly when no job of the tenant belongs to a deleted one |
| `ExportCompleteness.ArtifactsAreComplete` | src/infrastructure/backup/postgres-tenant-backup.ts:383-465 | The artifacts of an export are exactly those of the tenant, all of them AVAILABLE, and its evidence is exactly the tenant's |
| `ExportCompleteness.UnsettledIsRefused` | src/infrastructure/backup/postgres-tenant-backup.ts:337-394 | A tenant that is inactive, or has a live case or a job that has not ended, or an artifact that is not AVAILABLE, is refused as not quiescent |
| `ExportCompleteness.LiveCaseIsLost` | src/infrastructure/backup/postgres-tenant-backup.ts:366-394 | Valid tables whose export has a reproduction for a deleted case and none for the live one |
| `TenantIsolation.ExportsOwnRows` | src/infrastructure/backup/postgres-tenant-backup.ts:337-470 | What a tenant exports depends on its own rows only |
| `TenantIsolation.OthersExportTheSame` | src/infrastructure/backup/postgres-tenant-backup.ts:694-924 | Restoring a tenant changes nothing that another tenant exports |
| `TenantIsolation.RestoreIsRecorded` | src/infrastructure/backup/postgres-tenant-backup.ts:694-924 | After a restore the ledger names the backup, who asked for it, its counts and bytes, and when it was restored |
| `TenantDatabase.KeyTellsTenant` | src/application/ports/production.ts:60-67 | Two tenants never share an object key, since identifiers contain no slash |
| `TenantDatabase.ExportedRowsOk` | src/infrastructure/postgres/migrations/0001_durable_foundation.sql:58-282 | Every exported manifest meets the row constraints of the tables it is restored into, those of migrations 0003 to 0006 included |
| `TenantDatabase.Database.RestoreTransaction` | src/infrastructure/backup/postgres-tenant-backup.ts:694-924 | Commits exactly the rows of the manifest or changes nothing, leaves the rows and the ledger of every other tenant as they were, keeps every table constraint and trigger condition, answers false exactly when this backup was restored before, and cannot fail on a manifest, digest, requester and etags that meet the constraints for an absent tenant |
| `TenantDatabase.BudgetIsLost` | src/infrastructure/backup/postgres-tenant-backup.ts:756-840 | A consistent manifest with a requested budget is restored into an empty store, which then exports something else |
| `TenantBackupService.Service.UploadObjects` | src/infrastructure/backup/postgres-tenant-backup.ts:624-692 | Uploading never changes or removes an object that was there before, and on success every body is stored under the recorded etag; what a failed upload leaves behind is, for every provider, exactly the objects whose reply was lost or whose removal failed |
| `TenantBackupService.Service.CleanupUnreferenced` | src/infrastructure/backup/postgres-tenant-backup.ts:926-943 | Clean-up after a failed transaction removes neither an object that was there before nor one a row refers to; of the other objects of the restore, exactly those whose reply was lost or whose removal failed remain |
| `TenantBackupService.Service.BuildArchive` | src/infrastructure/backup/postgres-tenant-backup.ts:337-522 | An archive is built only from an exportable tenant with every object matching its row, never from one with something unsettled, and then it holds everything of the tenant, each artifact as its stored object is |
| `TenantBackupService.Service.VerifyRestore` | src/infrastructure/backup/postgres-tenant-backup.ts:284-335 | Verification succeeds only when the ledger names this backup and the rebuilt manifest has its digest, and changes nothing but the tenant's entry in the ledger |
| `TenantBackupService.Service.RestoreTenant` | src/infrastructure/backup/postgres-tenant-backup.ts:216-282 | A restore that answers has verified; however it ends, no row and no ledger entry of another tenant changes; an invalid requester is refused before anything is changed; a failed restore leaves no row and, but for objects a row refers to, exactly the objects whose reply was lost or whose removal failed; restoring an exported backup into a store without that tenant succeeds when the provider does not fail; restoring it again answers that nothing was restored and changes no row and no object |
| `TenantBackupService.ExportedIsRestorable` | src/infrastructure/backup/postgres-tenant-backup.ts:198-214 | Whatever one store exports can be restored into any store without that tenant |
| `AuthorizationState.FoldIsJoin` | src/github/authorization-state.ts:19-51 | Folding the reducer computes a join: after any removal REMOVED with the latest removal time, otherwise the latest transition with the stronger status winning ties |
| `AuthorizationState.FoldDependsOnTheSet` | src/github/authorization-state.ts:19-51 | Reordering or repeating transitions never changes the result |
| `AuthorizationState.RemovedExactlyWhen` | src/github/authorization-state.ts:23-32 | A state is REMOVED exactly when it started so or some transition removed it |
| `AuthorizationState.SettlesIn` | src/github/authorization-state.ts:19-51 | Transitions that settle with the date of reconciliations lead to one state, with that date as its time, whatever their order |
| `AuthorizationState.OrderIrrelevantExactly` | src/github/authorization-state.ts:19-51 | For any start, transitions and dated reconciliations: every order of them ends in the same state exactly when there is no reconciliation, or all have one date and the transitions settle with it |
| `AuthorizationStore.RunIsLater` | src/infrastructure/github/postgres-github-authorization-store.ts:309-436 | Every run of webhooks keeps ownership, uniqueness and foreign keys, adds no installation, and keeps removed installations removed |
| `AuthorizationStore.DeletionIsFinal` | src/infrastructure/github/postgres-github-authorization-store.ts:309-436 | After an installation's deletion is processed, no later run of webhooks, redeliveries and reconciliations makes any of its repositories usable or listed |
| `AuthorizationStore.BindShowsTheSnapshot` | src/infrastructure/github/postgres-github-authorization-store.ts:247-307 | Binding makes exactly the repositories of the snapshot usable, whatever was there before |
| `AuthorizationStore.ReconcileShowsTheSnapshot` | src/infrastructure/github/postgres-github-authorization-store.ts:632-672 | Reconciling an active installation makes exactly the repositories of the snapshot usable, and of any other installation none |
| `AuthorizationStore.ListedIsUsable` | src/infrastructure/github/postgres-github-authorization-store.ts:157-169 | The list query selects exactly the repositories whose effective status is ACTIVE |
| `AuthorizationStore.FoundExactly` | src/infrastructure/github/postgres-github-authorization-store.ts:157-169 | A repository is found exactly when the asking tenant has a row of that id, with the status that follows from the row and its installation |
| `AuthorizationStore.CursorContinues` | src/infrastructure/github/postgres-github-authorization-store.ts:453-483 | The page after a cursor starts exactly where the page before ended, and there is no cursor exactly at the end |
| `AuthorizationStore.PagesShowUsableOnce` | src/infrastructure/github/postgres-github-authorization-store.ts:453-483 | Following the cursor ends and shows exactly the usable repositories of the tenant, each once, in ascending id order, for every page size |
| `AuthorizationStore.RowIsFold` | src/infrastructure/github/postgres-github-authorization-store.ts:531-602 | An installation's row is the fold over the transitions applied to it and the dates reconciliations gave it, in their order, for every run |
| `AuthorizationStore.AppliedMeans` | src/infrastructure/github/postgres-github-authorization-store.ts:356-393 | Delivery deduplication applies every delivered transition, and nothing else |
| `AuthorizationStore.InstallationConverges` | src/infrastructure/github/postgres-github-authorization-store.ts:531-602 | Two runs that deliver the same transitions and the same dates leave the installation in the same state, whatever their order, redeliveries and webhooks between, if transitions and dates settle; without dated reconciliations they always do |
| `AuthorizationStore.RunsConvergeExactly` | src/infrastructure/github/postgres-github-authorization-store.ts:531-672 | All runs of webhooks that do the same to an installation end in the same state exactly when transitions and dates settle |
| `AuthorizationStore.PairConvergesExactly` | src/infrastructure/github/postgres-github-authorization-store.ts:531-672 | A transition and a dated reconciliation that both commit may be delivered in either order exactly under a condition on times and statuses |
| `AuthorizationStore.ReconciliationBreaksConvergence` | src/infrastructure/github/postgres-github-authorization-store.ts:636-655 | An instance: a suspension and a snapshot with a later time end SUSPENDED in one order and ACTIVE in the other |
| `WebhookEffects.RepositoryWebhookMeans` | src/infrastructure/github/postgres-github-authorization-store.ts:674-815 | A repository webhook without a snapshot goes through exactly when what it names can be inserted. Then each stored row of the installation that it names as removed is REMOVED, each it adds with all metadata and that is older and not REMOVED is ACTIVE with that metadata, what it adds and was not stored is inserted once, and nothing else changes |
| `WebhookEffects.RepositoryWebhookShows` | src/infrastructure/github/postgres-github-authorization-store.ts:674-815 | Which repositories of the installation can be used afterwards: of the stored ones those that were active and are not named as removed, of the others those added with all metadata, and none unless the installation is active |
| `WebhookEffects.RemovedIsUnlisted` | src/infrastructure/github/postgres-github-authorization-store.ts:453-483 | A stored repository named as removed is in no list of any tenant afterwards |
| `WebhookEffects.InstallationWebhookMeans` | src/infrastructure/github/postgres-github-authorization-store.ts:531-623 | An installation webhook moves its installation by action, permissions and time, and only that one; when it removes it, its repositories are removed with it; it counts as accepted exactly when it moved it |
| `WebhookEffects.OthersAreIgnored` | src/infrastructure/github/postgres-github-authorization-store.ts:356-393 | Deliveries for unknown installations and invalid bodies are recorded as ignored and change nothing else |
| `WebhookEffects.SnapshotMeans` | src/infrastructure/github/postgres-github-authorization-store.ts:247-307 | Binding and reconciling go through exactly when the repositories can be inserted and, for binding, the installation is no other tenant's; what each leaves of installation and repositories, row by row |
| `WebhookEffects.SnapshotWebhookMeans` | src/infrastructure/github/postgres-github-authorization-store.ts:625-672 | A repository webhook with a snapshot reconciles and does nothing else, redelivered or not, and throws when the snapshot is of another installation |
| `WebhookEffects.RedeliveriesDoNothing` | src/infrastructure/github/postgres-github-authorization-store.ts:356-393 | Every other redelivery is a duplicate and changes nothing |
| `AuthorizationTransactions.Store.ProcessWebhook` | src/infrastructure/github/postgres-github-authorization-store.ts:309-436 | The statements of the transaction compute exactly the webhook state machine of AuthorizationStore, whose effect on rows WebhookEffects states, and a transaction that throws changes nothing |
| `AuthorizationTransactions.Store.ApplyInstallationWebhook` | src/infrastructure/github/postgres-github-authorization-store.ts:531-623 | The statements of an installation webhook have the specified effect, and it reports exactly whether anything changed |
| `AuthorizationTransactions.Store.ApplyRepositoryWebhook` | src/infrastructure/github/postgres-github-authorization-store.ts:625-726 | The loops over removed and added repositories, or the reconciliation, compute exactly the effect that RepositoryWebhookMeans and SnapshotMeans state |
| `AuthorizationTransactions.Store.ApplyTransition` | src/infrastructure/github/postgres-github-authorization-store.ts:728-815 | One repository transition has the specified effect, failing exactly on a unique constraint |
| `AuthorizationTransactions.Store.UpsertRepositories` | src/infrastructure/github/postgres-github-authorization-store.ts:485-529 | Upserting the repositories of a snapshot in turn has the specified effect, failing exactly when one of them does |
| `AuthorizationTransactions.Store.BindInstallation` | src/infrastructure/github/postgres-github-authorization-store.ts:247-307 | Binding has the specified effect or, when the installation or a repository belongs elsewhere, none |
| `Lifecycle.MovesAreCoherent` | src/domain/case.ts:62-125 | Every case that was created and moved has a history of allowed transitions from DRAFT to its state, one entry for each move |
| `Lifecycle.CasesEnd` | src/domain/case.ts:62-82 | No case moves more than eight times or out of a terminal state, and VERIFIED takes all eight moves |
| `Lifecycle.AllowedExactly` | src/domain/case.ts:62-103 | The transition tables in words: the next step or cancellation, blocking once begun, other endings only from verification; a job runs before it succeeds or fails and can be cancelled until it has ended |
| `Verification.DualNegates` | src/domain/oracle.ts:93-165 | Oracle expressions obey De Morgan's laws at every depth |
| `Verification.ExpressionMeans` | src/domain/oracle.ts:93-165 | `all` matches exactly when every child does, `any` exactly when some child does, `not` exactly when its child does not, an exit code exactly on its runs, and output exactly when the text occurs in the stream named |
| `Verification.MoreChildren` | src/domain/oracle.ts:144-157 | Adding children never makes a failing `all` match nor a matching `any` fail |
| `Verification.EvidenceIsComplete` | src/domain/oracle.ts:93-165 | The evidence of an evaluation names every leaf once and in order, says truly whether it matched, and how often it was negated |
| `Verification.VerdictMeans` | src/domain/verification.ts:40-89 | Each verdict holds exactly under its condition on the runs, and names the reason for it |
| `Verification.FiguresMean` | src/domain/verification.ts:40-89 | The figures of a summary count the candidate runs that match, of how many, and give their share |
| `Verification.CandidateOrderIsIrrelevant` | src/domain/verification.ts:40-89 | The summary does not depend on the order of the candidate runs |
| `Minimization.ChoiceIsBest` | src/domain/minimization.ts:88-126 | With distinct ids the result passes its schema, a reduction is accepted exactly when one verifies, and it removes the most inputs with the least id on ties |
| `Minimization.EvaluationsMean` | src/domain/minimization.ts:88-118 | Each proposal is judged by its own control and candidates, in the order of the proposals |
| `Minimization.ProposalOrderIsIrrelevant` | src/domain/minimization.ts:99-118 | The same reduction is accepted for every order of the proposals |
| `Minimization.MinimizationIsStable` | src/domain/minimization.ts:88-126 | For distinct proposals minimization succeeds exactly when the baseline verifies, and the accepted reduction depends neither on the order of proposals nor on the order of any list of candidate runs |
| `Minimization.ValidExactly` | src/domain/minimization.ts:45-126 | For any proposals, repeated ids included, the result passes its own schema exactly when the first evaluation under the id of a best verified one is verified |
| `Minimization.MinimizeSucceedsExactly` | src/domain/minimization.ts:88-126 | Minimization throws exactly when the baseline is not verified or that condition fails |
| `Minimization.RepeatedIdsCanFail` | src/domain/minimization.ts:45-126 | Concrete runs and two proposals with one id, the first of which fails its control, make the whole minimization throw |
| `FailureSignature.HashableExactly` | src/domain/oracle.ts:27-59 | An accepted expression is a well-formed object that canonical JSON accepts exactly when it accepts every value a field is compared with |
| `FailureSignature.SignatureReadsBack` | src/domain/bundle.ts:202-247 | The text written for an accepted oracle that can be hashed is read by its schema as that oracle without undefined members, or refused exactly when a member that was undefined is demanded |
| `FailureSignature.SignatureJudgesAlike` | src/domain/oracle.ts:93-165 | The oracle read back from failure-signature.json reaches the verdict of the original on every control, candidates and number of runs |
| `FailureSignature.FieldsCompareAsJson` | src/domain/oracle.ts:120-139 | Comparing a field of the output by printed text satisfies what this needs of the comparison |
| `RepositoryEvidence.PersistedRunOk` | src/execution/repository-proof.ts:188-206 | A redacted run still passes the schema of a run |
| `RepositoryEvidence.PersistedRunHidesSecrets` | src/execution/repository-proof.ts:188-206 | No text of a persisted run shows a registered secret between its redaction markers |
| `RepositoryEvidence.PersistedRunPersists` | src/execution/repository-proof.ts:188-206 | A persisted run is the run with each text redacted: it shows no registered secret between markers, everything else of the original, and the exit code |
| `RepositoryEvidence.EvidenceHidesExactly` | src/execution/repository-proof.ts:208-246 | The first piece of evidence shows no registered secret between markers and everything else of the issue title; all of the evidence does so exactly when its fixed wording does |
| `RepositoryEvidence.SentencesHideExactly` | src/execution/repository-proof.ts:228-244 | The two other sentences hide the registered secrets exactly when none occurs in them |
| `RepositoryEvidence.WordingShowsSecret` | src/execution/repository-proof.ts:228-244 | With the registered secret `commit` the evidence of every accepted input shows it |
| `RepositoryProof.Walk` | src/execution/repository-proof.ts:287-310 | Every step of the way to the terminal state is an allowed transition, so none can be refused |
| `RepositoryProof.TerminalCaseOf` | src/execution/repository-proof.ts:278-311 | The case reaches the state of the verdict by a coherent history with strictly increasing times from no earlier than its creation |
| `RepositoryProof.EvidenceResolves` | src/execution/repository-proof.ts:208-276 | The hypothesis passes its schema and every piece of evidence it names is in the proof |
| `ReproductionBundle.ValidateFiles` | src/domain/bundle.ts:226-273 | No errors are reported exactly when every required file is there and parses as what it should be |
| `ReproductionBundle.PrintedIsOneLine` | src/domain/bundle.ts:213-215 | A printed value has no line break, so a run log splits back into its runs |
| `ReproductionBundle.MaterializedValidates` | src/domain/bundle.ts:202-273 | The files materialized from a valid bundle validate, except exactly when the oracle compares a field with undefined and the schema demands the member |
| `ReproductionBundle.MaterializedTellsBundle` | src/domain/bundle.ts:202-220 | The files say what the bundle is: each parses to its part, the lines of the run log parse to the runs in order, and the signature reads back as the oracle |
| `ReproductionBundle.CreateBundle` | src/domain/bundle.ts:101-180 | A bundle of valid parts is created exactly when its oracle can be hashed, and its hash is the digest of the canonical text of everything else in it |
| `RepositoryProof.Assemble` | src/execution/repository-proof.ts:313-402 | For every accepted input it fails exactly when the reproduction is verified and the oracle cannot be hashed (with a TypeError, exactly then) or read back; otherwise the result passes the cross-field rules, its case and its hypothesis say the verdict, the case extends the given history, each persisted run and the first piece of evidence show everything but the registered secrets, and bundle, minimization and valid files exist exactly when VERIFIED, the files saying what the bundle is and the bundle being named by the hash of its canonical text |
| `RepositoryProof.UndefinedInListCannotBeHashed` | src/domain/bundle.ts:101-134 | An accepted input whose reproduction is verified and whose bundle cannot be hashed: the oracle compares a field with a list that holds undefined |
| `CaseService.WriteKeepsAgreement` | src/infrastructure/reproduction-repository.ts:81-89 | Writing keeps the three indexes in agreement exactly when the record's case and job are new or the ones it had |
| `CaseService.AnotherCaseDisagrees` | src/infrastructure/reproduction-repository.ts:81-89 | A record saved again under another case is still found under the old one |
| `CaseService.RunMustReportItsCase` | src/application/case-service.ts:206-222 | Saving the result of a run keeps the three indexes in agreement exactly when the run reports on the case it was given |
| `CaseService.InMemoryRepository.Reserve` | src/infrastructure/reproduction-repository.ts:67-75 | Reserving writes exactly when the key is free, and always returns the record now under the key |
| `CaseService.InMemoryRepository.WriteRecord` | src/infrastructure/reproduction-repository.ts:77-89 | Saving updates all three indexes together |
| `CaseService.RunKeepsInv` | src/application/case-service.ts:152-242 | The inductive invariant over every interleaving of concurrent starts |
| `CaseService.IndexesAgree` | src/infrastructure/reproduction-repository.ts:38-90 | In every reachable state the three indexes return the same record |
| `CaseService.ExecutesAtMostOnce` | src/application/case-service.ts:186-211 | No caller and key executes the sample twice, whatever the interleaving |
| `CaseService.JobsMoveAlongTheTable` | src/application/case-service.ts:206-241 | A stored job moves along the transition table of jobs except exactly when a response is rejected after success |
| `CaseService.ResponseCanBeRejected` | src/application/case-service.ts:206-241 | For every caller, key and result, a run of the system in which a rejected response takes a succeeded job back to failed |
| `CaseService.SameCaseAndJob` | src/application/case-service.ts:164-195 | All starts that return for one caller and key report the same case and job |
| `CaseService.DifferentCommandConflicts` | src/application/case-service.ts:165-190 | Once a start has been answered, a start of the same key with another command can only be answered by a conflict |
| `CaseService.UndisturbedStart` | src/application/case-service.ts:152-242 | From every reachable state, the exact answer and effect of a start that nothing disturbs: a stored key answers its record or a conflict and changes nothing, a new key runs the sample once and stores and answers its outcome |
| `TrustedStart.Service.StartTrustedReproduction` | src/application/case-service.ts:152-242 | The code of a start, with other calls moving at each await, is one call of the interleaved system and returns that call's answer |
| `TrustedStart.Service.SaveFailed` | src/application/case-service.ts:226-241 | The catch block stores the failed job and answers with the safe failure |
| `TrustedStart.AnswersAreTruthful` | src/application/case-service.ts:152-242 | Every answered start agrees with what is stored under its key, whatever other starts were doing |
| `Investigator.ExecuteKeepsSound` | src/ai/responses-investigator.ts:69-138 | One tool call keeps ids unique and references resolved, whatever the call |
| `Investigator.CallsAreRecorded` | src/ai/responses-investigator.ts:69-138 | After any calls the recorded ids are exactly those of evidence that was given, of hypotheses all of whose evidence was given before, and of experiments on a hypothesis recorded before: nothing that was in order is refused |
| `Investigator.OutputsAreTruthful` | src/ai/responses-investigator.ts:69-138 | An accepted call adds what it carries and is answered its id; a refused one changes nothing and is answered the true reason |
| `Investigator.HistoryIsComplete` | src/ai/responses-investigator.ts:169-202 | In every turn the transport is shown every earlier response and the answer to each of its calls |
| `Investigator.Accumulator.ExecuteToolCall` | src/ai/responses-investigator.ts:69-138 | The branches of the tool call record or refuse exactly as specified |
| `Investigator.Investigate` | src/ai/responses-investigator.ts:165-213 | For every transport, which may respond by all it has been shown, the loop never runs out of turns and never exceeds the budget, reports exactly what the calls recorded and the last text, and the plan's reference checks cannot fail |
| `SourceProvenance.Validate` | src/execution/source-provenance.ts:88-157 | An archive is accepted exactly when its entries are safe, under one root, distinct and within the limits; the manifest is determined by the entries, and a rejection names the first entry that does not fit |
| `SourceProvenance.EntryOrderIsIrrelevant` | src/execution/source-provenance.ts:104-156 | Every order of the entries is accepted or rejected alike and gives the same manifest, hence the same digest |
| `SourceProvenance.ManifestIsSound` | src/execution/source-provenance.ts:148-156 | The files of an accepted manifest are exactly the files listed, distinct and ascending, under one root, and their sizes add up within the limit |
| `SourceProvenance.SafePathExactly` | src/execution/source-provenance.ts:72-86 | The path check accepts exactly the paths without a drive prefix, backslashes and control characters that lead, from whatever directory, into the directories they name, one below the other |
| `SourceProvenance.FilesStayInside` | src/execution/source-provenance.ts:88-157 | Wherever an accepted archive is unpacked, each file of the manifest ends up below the one root under its own path, and no step on the way leaves the directory |
| `SourceProvenance.RelativePathIsSafe` | src/execution/source-provenance.ts:72-86 | The relative path of an accepted entry is itself safe exactly when it does not begin with a drive prefix |
| `SourceProvenance.DriveBelowRootIsAccepted` | src/execution/source-provenance.ts:72-86 | An entry whose relative path begins with a drive prefix is accepted |
| `Supervisor.ProcessTree` | src/execution/supervisor-script.ts:48-71 | The fixpoint ends and returns exactly the processes whose parent links lead to the root, whatever the order of the table |
| `Supervisor.WorkspaceBytes` | src/execution/supervisor-script.ts:85-107 | The walk with an explicit stack equals the recursive sum that counts links and does not follow them |
| `Supervisor.OutputCapture.Add` | src/execution/supervisor-script.ts:27-36 | Each chunk extends the stream; what is retained stays its longest prefix within the limit |
| `Supervisor.OutputCapture.Result` | src/execution/supervisor-script.ts:37-44 | The digest covers the whole stream, the text is the decoding of its longest prefix within the limit, and truncation is reported exactly when something is missing |

## Left out

- SHA-256, the UTF-8 encoder and decoder, NFC normalisation, `localeCompare` and the collation of the database are parameters; comparison is a strict total order, so ties of distinct strings are outside the model.
- The regular expression and JSON field leaves of the oracle are any predicate on a run; only the failing input of RepositoryProof.UndefinedInListCannotBeHashed and FailureSignature.FieldsCompareAsJson fix the comparison of fields, without inherited properties and the length of a list.
- A bigint among the values an oracle compares with is not told from a function: both cannot be canonicalised, but JSON.stringify throws for a bigint and the comparison then fails. Objects with a `toJSON` and cyclic values are outside the model.
- Whether the schema library accepts an absent member of unknown type is a parameter of FailureSignature.
- Shape checks of single fields of a manifest (lengths, formats, the sanitising rule for job failures) are a parameter of a manifest or are left to the input; only rules across fields, and the constraints of the tables, are modelled. What a shape check strips or rewrites is not captured.
- JSON numbers are kept as the token JSON.stringify prints; other spellings of the same number, such as `1e3` for a byte count, are read as different.
- JSON values are trees: the check for cycles, own members of array-index names as the platform lists them after parsing, and the two-space indentation of bundle files are not modelled.
- The wording of reasons and REPRO.md, the reasons of transitions, and the fields of a proof that are copied from the input are not part of this model.
- Instants are integer milliseconds; two spellings of one instant are the same time.
- The service's archive holds the checked manifest; that the digest of a manifest is that of its canonical text is proved in PortableBackup only.
- Concurrent restores of one tenant (advisory lock, serialization failures), the lease columns of jobs and with them the other way to insert evidence, lengths of columns in characters rather than code units, the time a row of an artifact was updated, the normalisation of stored JSON, log events and audit events are not modelled.
- An artifact is found by its content key, which has the same four parts as the object key; the opaque artifact id and the timestamps of its row are not modelled.
- The quarantine record of a failed clean-up is merged into the step in which the stop settles, and whether the alert was delivered plays no part; a `stop` that throws before returning a promise is not modelled.
- The runner's own quarantine record for a sandbox it failed to stop is left out; the assembly of the proof is in RepositoryRunner only a call that completes or throws.
- The execution plan is modelled as its list of phases; command lines, working directories and the loop that copies the workspaces are left out.
- The instructions, the first message and the tool schemas of an investigation are not modelled; arguments pass their schema or are missing.
- A folder that cannot be listed, resident memory and the termination of processes are left out of Supervisor.
- Repository webhooks for repositories without a row: the removal of an unknown repository is dropped, so no order independence is claimed for repositories.
- Consuming installation states, expiry of deliveries, permissions as stored data, and delivery payload hashes are left out.
- Leases, the outbox, the queue, network clients, the user interface, the MCP server, configuration, logging and metrics are left out.
- ArtifactProtocol.ReachableStatesAreSafe: assumes that the provider call of a delete operation has no effect when it throws; StepIsSafeExactly shows that exactly this is needed.
- ReproductionBundle.MaterializedValidates: assumes of the schemas of runs, lock, hypotheses, minimization and summary that they accept what is written for a part that passes its cross-field rules; for the oracle this is proved.
- RepositoryProof.TerminalCaseOf: with createdAt equal to generatedAt in the last eight milliseconds of the year 9999 the source writes a time that the schema of date-times refuses, which integer instants do not show.
- Supervisor.OutputCapture.Result: the decoder is a parameter, so that a character cut at the limit becomes a replacement character is not captured.
- PortableBackup.ReadUndoesWrite: the manifest that is read back means the same and may list its members in another order, and the shapes of its fields are a parameter.
- CaseService.RunKeepsInv: assumes that a sample run reports on the case it was given; RunMustReportItsCase shows that exactly this is needed. A stored record that no longer passes the schema of a response, which makes a repeated start throw, is not modelled.
- TenantBackupService.Service.RestoreTenant: success is promised for a provider that does not fail and whose etags fit a row; safety is promised for every provider.
