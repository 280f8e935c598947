# Verified models of markweave's contract, recovery, storage and release checks

This project models six parts of the markweave repository and proves what they are for.

- **Contract comparison** (`Basics`, `Json`, `Reachability`, `Schema`, `SchemaOrder`, `Meaning`, `Definite`, `Soundness`, `SmallSchemas`, `SoundnessLimits`, `Roles`, `Contract`, `ContractSoundness`, `Unlimited`, `ContractExample`).
  The OpenAPI classifier compares two documents and calls each difference compatible or incompatible.
  Every comparison method is proved equivalent to a relation on the two documents, in both directions.
  Schemas then get a meaning: which JSON values a writer may send (only members declared by the schema or by the schemas it refers to) and which a reader accepts (unknown members ignored), with fuel that is spent only at a `$ref`, so reference cycles are covered.
  The main theorems say that a document pair without an incompatible change lets old requests be accepted and new responses be understood, for every value, fuel and reference graph of the fragment. `Definite` shows where the meaning of a value depends on no fuel at all, and `Unlimited` states the theorems without it.
- **Test-stack ownership** (`Ownership`, `OwnershipSafety`, `Services`).
  Sessions own labelled container stacks through an `flock`. The protocol is a transition system over any number of sessions, lock files, command groups and engine resources; a session may be killed between any two steps.
  The process code is a class whose every change of the shared world is an enabled protocol step, with other processes acting between any two of its looks at that world and its changes of it, except where one look decides the change; so the theorems about runs hold of the code.
- **Crash-safe object store** (`FileSystem`, `ObjectLayout`, `ObjectSteps`, `Storage`, `StoreRuns`).
  A disk has volatile entries and data, older entries a crash may bring back, and synced data. Every file-system call may fail and every intermediate disk is recorded, so a crash may fall into any of them.
- **Backup and restore** (`Records`, `Reload`, `ReloadOrder`, `PayloadOrder`, `PostgreSQL`, `References`, `DatabaseRestore`, `BucketRestore`, `DistributedRestore`, `Manifest`, `PlainCodec`, `Publication`, `Standalone`).
  The three loops of the database reload under the integrity triggers, the agreement of the two reference checks, the bucket transaction and the distributed restore that joins it with the database, content-bound manifests, the publication of a set under its identifier, and the round trip of a standalone instance.
- **ZIP directory check** (`ZipDirectory`).
  The bounded backward search and the 16-bit and ZIP64 directories, on real bytes.
- **Upload scanner and shard checker** (`Scanner`, `Shards`).
  A framed sender and a frame-by-frame responder over a socket that splits bytes as it likes; and a call-graph checker whose empty error list is proved equivalent to a statement about shards.

Code that updates objects or loops is written as classes and methods; each is specified by pure functions and predicates, and the theorems are about those.

## Where the code does less than its description

Each of these is proved, with an exact condition or a concrete input.

- "No incompatible change" composes over successive versions in requests always, in responses exactly through schemas without boolean children and malformed enums (`SchemaOrder.ResponseTransitiveExactly`).
- Outside the fragment of the soundness theorems a change called compatible can be noticed by an old client (`SoundnessLimits`): a `oneOf` over references one of whose targets is widened until it overlaps another, a request property added beside an `additionalProperties` schema it does not follow or beside an `anyOf` branch that declares it already, a property added to a closed response, a boolean child widened in a response, a keyword that is never compared, such as `const`. A `oneOf` whose branches are told apart by a required constant property is inside the fragment.
- A document compared with itself is free of incompatible changes exactly when no operation has an empty request media-type object (`ContractSoundness.ContractWithItself`): an empty object counts as a removed media type.
- A completed `put` survives every crash exactly when the directories it found cannot be lost. They cannot from a power crash on, or from a start without such directories, until a `put` is cut (`StoreRuns.ReturnedPutLastsExactly`); one killed between making a directory and syncing its parent lets the next one return without lasting (`StoreRuns`). Deleting an object that is already missing syncs nothing, so the object may come back (`Storage.MissingMayReturn`).
- A reload depends on the order of rows: a backup lists the rows of a table without an order of its own, and a version listed before the one it was restored from makes the set unrestorable (`PayloadOrder`).
- The conversion constraint asks for the template's current version, so a backup taken after a template moved on to another version, or was archived, while an older conversion names it, cannot be restored (`Reload.PairNeedsCurrent`, `Reload.MovingOnStrandsJobs`).
- A recovery set whose manifest exceeds 8 MiB is written, published and can never be loaded (`Manifest.WriteThenLoad`, `Publication.Archive.Publish`).
- A stack keeps its lock file through every kill as long as no orphaned command outlives the stale bound, and from every state in which one has, some run loses the file (`OwnershipSafety.UnboundedLosesLockFile`).

## Model

| member | source | states |
|---|---|---|
| Schema.ConstraintChange | scripts/openapi_contract.py:124-164 | nothing incompatible iff the reader's bound is no stricter than the writer's, in either direction; silence only for equal bounds |
| Schema.EqualityChanges | scripts/openapi_contract.py:207-226 | over any list of keywords compared by equality: clean iff the reader keeps the writer's value or drops the keyword, and empty iff all are equal |
| Schema.BoundChanges | scripts/openapi_contract.py:227-248 | over all lower or all upper bounds: clean iff every bound of the reader is implied by the writer's |
| Schema.EnumChanges | scripts/openapi_contract.py:267-299 | clean iff every enum value the writer may send is known to the reader, with the cases where one side has no enum |
| Schema.RequiredChanges | scripts/openapi_contract.py:301-320 | clean iff everything the reader requires the writer requires too |
| Schema.PropertyNameChanges | scripts/openapi_contract.py:322-349 | clean iff no property was removed and, in requests, no added property is required |
| Schema.LooseChildChange | scripts/openapi_contract.py:167-196 | a child that is no object on both sides is judged by direction; silence iff both are equal |
| Schema.NestedChanges | scripts/openapi_contract.py:358-367 | clean iff `items` and `additionalProperties` are compatible, as schemas or as loose children |
| Schema.KeywordChanges | scripts/openapi_contract.py:207-320 | the keyword checks of one level together: clean iff all of them hold; equal schemas report nothing |
| Schema.SchemaChanges | scripts/openapi_contract.py:199-367 | the recursive comparison reports no incompatible change iff the schemas are compatible at every depth; equal schemas report nothing at all |
| SchemaOrder.Reflexive | scripts/openapi_contract.py:199-367 | every schema is compatible with itself in either direction |
| SchemaOrder.RequestTransitive | scripts/openapi_contract.py:199-367 | between requests two compatible steps always make a compatible step, over all nested properties and children |
| SchemaOrder.ResponseTransitiveExactly | scripts/openapi_contract.py:199-367 | between responses steps compose through a schema iff it holds, at any depth, no boolean child and no malformed enum |
| SchemaOrder.OnlyEnum | scripts/openapi_contract.py:267-299 | of two schemas that differ in `enum` alone the comparison says what the enums say |
| SchemaOrder.OnlyChild | scripts/openapi_contract.py:167-196 | of two schemas that differ in `items` or `additionalProperties` alone the comparison says what these say |
| Meaning.SchemaReferences | scripts/openapi_contract.py:577-589 | the traversal returns exactly the component names referred to anywhere below the value |
| Meaning.ComparableWithItself | scripts/openapi_contract.py:199-367 | the fragment's condition on a pair of schemas never excludes an unchanged schema |
| Soundness.BoundSound | scripts/openapi_contract.py:133-164 | a value within the writer's bound is within any bound of the reader that the comparison accepted |
| Soundness.LocallySound | scripts/openapi_contract.py:207-320 | a value that passes all keywords of the writer's schema passes those of the reader's |
| Soundness.WritableIsReadable | scripts/openapi_contract.py:199-367 | every value writable under one side is readable under the other when nothing incompatible was reported, through cyclic references, for every fuel |
| Soundness.AddedSound | scripts/openapi_contract.py:333-349 | an added property is safe where an old client cannot send it, ignores it, or where its schema is a compatible change of `additionalProperties` |
| Soundness.OneSound | scripts/openapi_contract.py:249-266 | a value that means exactly one branch of an unchanged `oneOf` still does, when branches with references are told apart by a property |
| SoundnessLimits.AddedRequestPropertyBreaks | scripts/openapi_contract.py:333-349 | such an addition is called compatible although an old request is no longer readable |
| SoundnessLimits.BooleanResponseChildBreaks | scripts/openapi_contract.py:167-196 | `items` that goes from false to true in a response is called compatible and is not readable |
| SoundnessLimits.AddedPropertyBesideBranchBreaks | scripts/openapi_contract.py:333-349 | a request property added beside an `anyOf` branch that declares it is called compatible although an old request is no longer readable |
| SoundnessLimits.ClosedResponsePropertyBreaks | scripts/openapi_contract.py:340-341 | a property added to a response with `additionalProperties: false` is called compatible although the old schema rejects it |
| SoundnessLimits.UncomparedKeywordBreaks | scripts/openapi_contract.py:207-300 | a schema that gains `const`, which the comparison never reads, is called compatible and rejects every other value |
| SoundnessLimits.WidenedBranchBreaks | scripts/openapi_contract.py:249-266 | a `oneOf` over two references to enumerations, one of them widened: called compatible, and an old value is rejected iff both enumerations now hold it |
| SoundnessLimits.WidenedOneOfBreaks | scripts/openapi_contract.py:249-266 | the input for which it happens |
| Roles.Assign | scripts/openapi_contract.py:598-606 | for any pop order the closed set of known names grows by exactly the names reachable from the value |
| Roles.ComponentSchemaRoles | scripts/openapi_contract.py:592-616 | a component has a direction iff it is reachable by references from a position of that direction |
| Contract.ParameterChanges | scripts/openapi_contract.py:391-438 | clean iff no parameter was removed, none became or was added required, and shared schemas are compatible |
| Contract.BodyChanges | scripts/openapi_contract.py:440-497 | clean iff the request body keeps its media types, is not newly required, and its schemas are compatible |
| Contract.ResponseChanges | scripts/openapi_contract.py:499-573 | clean iff no status, header or media type was removed and shared schemas are compatible |
| Contract.OperationChanges | scripts/openapi_contract.py:381-574 | clean iff security, parameters, body and responses of the operation are compatible |
| Contract.ComponentChange | scripts/openapi_contract.py:709-722 | a shared component is clean iff it is compatible in every direction it travels in on either side, or in both when it travels in none |
| Contract.ClassifyChanges | scripts/openapi_contract.py:619-723 | no reported change is incompatible iff the two documents are compatible route by route, component by component and scheme by scheme |
| ContractSoundness.OldRequestsAccepted | scripts/openapi_contract.py:381-497 | with no incompatible change, every request an old client may write is readable by the current operation, which exists |
| ContractSoundness.NewResponsesUnderstood | scripts/openapi_contract.py:499-574 | with no incompatible change, every response of a shared status and media type the current server may write is readable under the baseline |
| ContractSoundness.ContractWithItself | scripts/openapi_contract.py:479-488 | a document is compatible with itself iff none of its operations has an empty request media-type object |
| Definite.MeaningIsDefinite | scripts/openapi_contract.py:199-367 | where references come back to themselves only through a property or an item, every schema either admits a value or rejects it, however many more references may be followed and whatever the verdict on those that are not |
| Unlimited.UnguardedIsUndecided | scripts/openapi_contract.py:199-367 | a component that is only a reference to itself has no such verdict on any value |
| Unlimited.WrittenIsRead | scripts/openapi_contract.py:199-367 | the soundness of the schema comparison without a limit on references: what one side may write the other reads |
| Unlimited.OldRequestsStillAccepted | scripts/openapi_contract.py:381-497 | what an old client may send with some number of references or more, whatever the verdict on those not followed, the current operation accepts with as many |
| Unlimited.NewResponsesStillUnderstood | scripts/openapi_contract.py:499-574 | the same for responses of a shared status and media type |
| ContractExample.DeepUploadsAccepted | scripts/openapi_contract.py:592-723 | a component that refers to itself gains a property: the documents are in the fragment, and chains of any depth an old client may send are accepted, with any number of references from that depth on |
| ContractExample.DeepAnswersUnderstood | scripts/openapi_contract.py:592-723 | for the same documents, chains of any depth the new server may answer are understood |
| Ownership.ProgressMade | scripts/testing/services.py:135-272 | every step of any process, orphan or engine only moves the world forward and changes nobody else's tables or locks |
| Ownership.InvariantKept | scripts/testing/services.py:247-272 | every enabled step, a kill included, keeps the ownership invariant of all sessions, locks, groups and stacks |
| OwnershipSafety.ReleasedIsOver | scripts/testing/services.py:247-272 | when a process may drop an owner lock, all groups it started are dead and its stack has no container, volume or network |
| OwnershipSafety.ReleaseIsSafe | scripts/testing/services.py:247-272 | the same at every release of every run, before and after the step |
| OwnershipSafety.ReleasedForever | scripts/testing/services.py:247-272 | a stack that was released has no resource and no live command in any later state of the run |
| OwnershipSafety.OnlyReleaseDropsLocks | scripts/testing/services.py:220-272 | a process loses a held lock only by its own release or by being killed |
| OwnershipSafety.FrozenStays | scripts/testing/services.py:530-553 | once nobody can create a stack its resources only shrink, which is why three listings at different times are sound |
| OwnershipSafety.LiveOwnerNeverReaped | scripts/testing/services.py:458-488 | in every run no reaper is past the claim of a stack whose owner lives and has the `flock` |
| OwnershipSafety.OneHolder | scripts/testing/services.py:458-488 | in every run no two sessions hold a claimed or owned lock of one project |
| OwnershipSafety.DroppedIsOver | scripts/testing/services.py:504-527 | the step that unlinks a lock file leaves a stack without resources and without live commands |
| OwnershipSafety.StackKeepsLockFile | scripts/testing/services.py:504-527 | in every run where orphans end within the stale bound, a stack with a resource or a live command has its lock file |
| OwnershipSafety.OutlivedLosesLockFile | scripts/testing/services.py:458-488 | from every reachable state in which a command that may create a dead session's stack has outlived the stale bound, some run leaves the stack with a resource and no lock file |
| OwnershipSafety.UnboundedLosesLockFile | scripts/testing/services.py:458-527 | so the bound is exact: every reachable state that breaks it leads to such a loss |
| Services.Process.StopProcessGroup | scripts/testing/services.py:113-132 | reports a group gone only if none of it lives |
| Services.Process.SettleGroup | scripts/testing/services.py:186-194 | forgets at most that one group, and only when it is gone |
| Services.Process.UnsettledCommands | scripts/testing/services.py:197-202 | true iff a recorded group is left; every group already gone is forgotten |
| Services.Process.StopUnsettledCommands | scripts/testing/services.py:211-216 | no group is added, none is forgotten that lives, no lock or task is touched |
| Services.Process.Docker | scripts/testing/services.py:135-183 | a finished or failed command leaves no group behind, a deferred one is not interrupted, and an empty listing is a true observation |
| Services.Process.ProvenAbsent | scripts/testing/services.py:530-553 | three empty listings prove a stack absent when no live group can create it |
| Services.Process.ReleaseIfSettled | scripts/testing/services.py:247-272 | either the lock is dropped and the stack is over, or lock and ownership are as before |
| Services.Process.RemoveAndProve | scripts/testing/services.py:556-575 | success means three empty listings after the last removal, hence absence whenever no live group can create the stack, and for the owner that every command is settled |
| Services.Process.Claim | scripts/testing/services.py:458-488 | a claim that succeeds is of a stack whose owner no longer holds it; otherwise nothing is held |
| Services.Process.LabelledStacks | scripts/testing/services.py:408-438 | finds exactly the stacks that one of the three listings shows and whose labels agree; each listing is of some moment while it ran |
| Services.PresentIsShown | scripts/testing/services.py:408-438 | a stack with a resource of some kind when that kind is listed is shown |
| Services.Process.ReapStaleStacks | scripts/testing/services.py:504-527 | only stacks their owners have let go of are reaped, never one of this process; a reaped stack that nobody could create is absent; its own locks stay |
| Services.Process.UseStack | scripts/testing/services.py:600-657 | a session that ends well leaves its stack proved absent with every command settled, and stops owning it; an interrupt anywhere outside the deferred removal, also between the run and the removal, keeps the lock |
| Services.Process.DistributedServices | scripts/testing/services.py:578-657 | with configured services nothing changes; otherwise, wherever it is interrupted, the new stack is over at the end or still held |
| Services.Process.RemoveOwnedStacks | scripts/testing/services.py:379-393 | at exit every held stack is over or its lock is still held |
| ObjectLayout.CrashReadsExactly | src/markweave/storage.py:102-126 | for every object the results a read may give after a crash are exactly the described ones |
| ObjectLayout.CrashNarrows | src/markweave/storage.py:102-126 | a second crash gives nothing a read could not give after the first |
| ObjectSteps.RenamedStep | src/markweave/storage.py:113-113 | replacing the target by a synced file changes one object atomically: old or new bytes, other objects untouched, in every crash |
| ObjectSteps.MadeStep | src/markweave/storage.py:194-203 | making a directory gives no object a new result, in every crash |
| Storage.LastingObject | src/markweave/storage.py:185-203 | an object with a synced entry survives every crash iff the directories above it do |
| Storage.SurvivesOthers | src/markweave/storage.py:102-118 | operations on other objects keep a lasting object lasting |
| Storage.SurvivesCrashes | src/markweave/storage.py:102-118 | a lasting object survives a crash and every crash after it |
| StoreRuns.ReturnedPutLasts | src/markweave/storage.py:102-118 | in every run of completed, failed and killed operations and power crashes: what a `put` returned for is read in every later state until the object is put or deleted again, provided the directories it found cannot be lost |
| StoreRuns.AnchoredThroughout | src/markweave/storage.py:194-203 | from a crash or an anchored start on, directories cannot be lost as long as no `put` was cut |
| StoreRuns.UncutStoreLasts | src/markweave/storage.py:102-203 | a store none of whose earlier puts was cut never loses what a `put` returned for |
| StoreRuns.ReturnedPutLastsExactly | src/markweave/storage.py:102-118 | the condition is exact: for a run that ends with a returned `put`, the directories it found cannot be lost iff every longer run that leaves the object alone reads the content at its end |
| StoreRuns.KilledPutUndermines | src/markweave/storage.py:195-203 | a `put` killed between `mkdir` and the sync of the parent: the next `put` below that directory returns, and a power crash leaves no object |
| Storage.MissingMayReturn | src/markweave/storage.py:142-153 | a missing object is gone for good iff no older entry of it is left |
| Storage.FilesystemObjectStore.EnsureDirectory | src/markweave/storage.py:194-203 | on success every missing level exists and cannot be lost; no object is affected in any crash on the way |
| Storage.FilesystemObjectStore.Put | src/markweave/storage.py:102-118 | every state on the way gives each reader old or new bytes and leaves other keys; on return the content is there and lasts iff the directories it found last |
| Storage.FilesystemObjectStore.Get | src/markweave/storage.py:120-126 | the stored bytes, a missing object, or a failure, told apart exactly |
| Storage.FilesystemObjectStore.GetBounded | src/markweave/storage.py:128-140 | a bad bound, a missing object, too many bytes and success, each exactly when it is so |
| Storage.FilesystemObjectStore.Delete | src/markweave/storage.py:142-153 | old bytes or none in every crash; a completed deletion cannot be undone by a crash |
| Storage.FilesystemObjectStore.ListKeys | src/markweave/storage.py:161-175 | exactly the complete objects of the scope, no temporary or foreign name |
| ReloadOrder.SupportedIs | src/markweave/persistence/migrations/versions/20260824_05_template_integrity.py:142-174 | references and the version trigger accept a row iff its id is free and each row it needs is found |
| Reload.PairNeedsCurrent | src/markweave/persistence/migrations/versions/20260828_13_optional_job_template.py:63-93 | a conversion with a template is accepted iff the template's current published version is the one it names |
| PostgreSQL.Database.InsertItems | src/markweave/recovery_adapters.py:543-576 | the first loop accepts iff shape and order fit, and collects exactly the pointers and the deferred conversions |
| PostgreSQL.Database.SetPointers | src/markweave/recovery_adapters.py:579-583 | the second loop succeeds only if every pointer satisfies its trigger against the loaded versions, and sets them all |
| ReloadOrder.ReloadableExactly | src/markweave/recovery_adapters.py:531-587 | every insert and update of the three loops succeeds iff, of the payload alone, rows have their columns and ids, final rows hold what they refer to and satisfy the pointer and conversion constraints, and what a row refers to is listed before it |
| PayloadOrder.OrderDecides | src/markweave/recovery_adapters.py:404-418 | of two payloads with the same rows in other orders, one reloadable, the other is reloadable iff it lists what a row refers to before it |
| PayloadOrder.RestoredVersionFirstFails | src/markweave/recovery_adapters.py:404-418 | exchanging a version and the one it was restored from makes any reloadable payload unreloadable |
| PostgreSQL.Database.InsertPayload | src/markweave/recovery_adapters.py:531-587 | restores only reloadable payloads, and then the tables are exactly the payload's; it refuses only others |
| PostgreSQL.Database.Restore | src/markweave/recovery_adapters.py:492-514 | one transaction around the loops: all tables of the payload or the target as it was, and a reloadable payload fails only by deadline |
| DatabaseRestore.Restore | src/markweave/recovery_adapters.py:456-520 | with both reference checks and the migration: complete only with every reference resolved, also those of the restored tables themselves, otherwise the target as it was; at the head only the deadline fails what is reloadable and resolved |
| DatabaseRestore.SecondCheckPasses | src/markweave/recovery_adapters.py:507-513 | at the head the check of the database cannot fail once the check of the payload has passed |
| Reload.PointersRestore | src/markweave/recovery_adapters.py:566-583 | nulling the pointers and setting them later gives every template row back as it was |
| Reload.PointersAgree | src/markweave/recovery_adapters.py:577-583 | no pointer update violates its trigger iff the final rows satisfy the pointer constraint |
| Reload.JobsAgree | src/markweave/recovery_adapters.py:577-587 | no conversion insert violates its trigger iff the final rows satisfy the conversion constraint |
| Reload.CompleteRowsReturn | src/markweave/recovery_adapters.py:531-587 | a table whose rows have all columns comes back row by row |
| Reload.MovingOnStrandsJobs | src/markweave/persistence/migrations/versions/20260824_05_template_integrity.py:210-231 | a template pointed to another version makes a conversion that was accepted before unacceptable on reload |
| References.CollectReferences | src/markweave/recovery_adapters.py:929-969 | returns exactly the referenced keys of the tables, and fails iff one of them is no valid object key |
| References.ReadKeysAgree | src/markweave/recovery_schema.py:155-170 | reading only the reference columns, rows in any order, gives the same referenced keys |
| References.DatabaseCheckAgrees | src/markweave/recovery_adapters.py:1003-1016 | after a successful reload the database check sees the key set the payload check saw, so it cannot fail |
| BucketRestore.Bucket.EnsureEmptyAndRestore | src/markweave/recovery_adapters.py:690-745 | success: the bucket holds exactly the members, each with its digest; failure: no key of others is touched and, if deletions succeed, nothing of this restore is left |
| BucketRestore.Bucket.RemoveAll | src/markweave/recovery_adapters.py:747-752 | deletes only what this restore placed, all of it on success |
| DistributedRestore.Restore | src/markweave/recovery_service.py:180-209 | objects and database together: on success every reference of the restored database is a member in the bucket with its digest, and the whole bucket was listed as exactly the members; on failure the database is as it was and, when deletions succeed, nothing of this restore is left in the bucket |
| Manifest.ValidateMembers | src/markweave/recovery_manifest.py:255-271 | accepts iff there are members, all well-formed, with distinct paths |
| Manifest.BuildIgnoresOrder | src/markweave/recovery_manifest.py:99-143 | every permutation of the members gives the same manifest or the same rejection |
| Manifest.VerifyExactMembers | src/markweave/recovery_manifest.py:231-252 | accepts iff the directory holds exactly the members and the two manifest files, all regular, with matching sizes and digests |
| Manifest.WriteThenLoad | src/markweave/recovery_manifest.py:146-228 | what was built and written loads as it was built iff it fits the size bound |
| Manifest.IdentifierBinds | src/markweave/recovery_manifest.py:156-252 | two directories that load with one identifier hold the same member files byte for byte and nothing else, or exhibit a digest collision |
| Publication.Archive.Publish | src/markweave/recovery_service.py:145-161 | at every moment the identifier is as it was or, where nothing was, the whole set; nobody else's set changes; what is published loads as its manifest iff it fits its bound, and other content or an unreadable set is refused exactly there; if every identifier was absent or loadable before, it is so at every moment |
| Publication.OtherContentCollides | src/markweave/recovery_service.py:147-152 | among loadable sets a backup is refused for other content only when two manifest documents share a digest |
| Standalone.Backup | src/markweave/recovery_adapters.py:145-188 | a finished backup is exactly the snapshot and objects with the digests listed before and after, while others may change the tree; of an undisturbed tree it is an exact copy |
| Standalone.Destination.Restore | src/markweave/recovery_adapters.py:190-244 | at every step the target is absent or complete, reference-closed and at the head; a rejection means the set is not restorable |
| Standalone.BackupAndRestore | src/markweave/recovery_service.py:110-186 | backup, manifest, publication, load and restore give the copied objects and the migrated snapshot, or no target at all, whether the set was published now or before (then up to files that share a digest); undisturbed, the objects are those of the source; at every moment each identifier is absent or loads |
| ZipDirectory.FindEocd | scripts/release/artifacts.py:398-409 | the greatest offset whose signature matches and whose comment ends the data, none iff there is none |
| ZipDirectory.FindInFile | scripts/release/artifacts.py:412-423 | the search over the bounded tail gives the last such record of the whole file, none iff the file has none |
| ZipDirectory.Zip64Directory | scripts/release/artifacts.py:357-395 | a layout iff record and locator lie directly before the end record and declare a single-disk directory |
| ZipDirectory.Prevalidate | scripts/release/artifacts.py:412-457 | accepts exactly the files that are laid out within the limits and determines their layout uniquely; directory, ZIP64 record and locator, end record and comment are then in order without overlap, with 46 bytes per entry and both ceilings kept |
| ZipDirectory.WrittenIsLaid | scripts/release/artifacts.py:412-457 | a wheel written with these numbers is accepted with exactly them iff no later end record hides in its tail |
| ZipDirectory.Written64IsLaid | scripts/release/artifacts.py:357-395 | the same for a wheel with a ZIP64 record and locator |
| Scanner.Send | src/markweave/malware.py:56-68 | puts on the wire the command, the chunks with their lengths in order, and the end mark |
| Scanner.Socket.ReadExact | scripts/container/fake-clamav.py:67-74 | the next bytes however they are split, or nothing when the connection ends early |
| Scanner.Socket.ReadCommand | scripts/container/fake-clamav.py:56-65 | takes bytes up to a NUL, at most ten, independent of splitting |
| Scanner.Socket.ReadFrames | scripts/container/fake-clamav.py:33-54 | infected iff rejecting and the marker occurs in the whole decoded content, also across frames; hangup iff the frames are broken or too long |
| Scanner.Socket.Handle | scripts/container/fake-clamav.py:24-54 | the reply depends only on the bytes sent, not on how they arrive |
| Scanner.SlidingWindow | scripts/container/fake-clamav.py:47-51 | a marker occurs in the longer content iff it occurred before or in the kept tail and the new chunk |
| Scanner.FramesDecode | src/markweave/malware.py:64-68 | the frames of any chunk size decode to exactly the content, up to the stream limit |
| Scanner.StreamingIsPlainSearch | scripts/container/fake-clamav.py:24-54 | for every content and chunk size the reply is the one of a plain substring search |
| Scanner.ReceiveVerdict | src/markweave/malware.py:69-102 | the verdict is a function of the reply bytes alone although the reader stops early at a line break |
| Scanner.AcceptedExactly | src/markweave/malware.py:75-86 | accepted iff the whole reply is `stream: OK` and a NUL |
| Scanner.VerdictIsPlainSearch | src/markweave/malware.py:56-86 | sender and responder together: detected, accepted or unavailable by plain search and the stream limit |
| Shards.Reach | scripts/ci/e2e_shards.py:163-172 | exactly the functions calls lead to without going through a primitive, in any pop order |
| Shards.ShardErrors | scripts/ci/e2e_shards.py:175-212 | no error iff shards are contiguous from one, every phase is assigned once and exists, and the list can be selected |
| Shards.ReachingIsExact | scripts/ci/e2e_shards.py:233-250 | the shards computed for a function are exactly those that run it when no phase is listed twice |
| Shards.ValidateHarness | scripts/ci/e2e_shards.py:215-258 | no error iff the harness is well sharded, and then every scenario outside seeds and diagnostics runs in exactly one shard and never from top level |

## Left out

Contract comparison

- Contract.ClassifyChanges: states when an incompatible change is reported, not the categories, locations and texts of the changes nor their order; the result is a set.
- ContractSoundness.OldRequestsAccepted: for documents of the fragment: keywords of a known vocabulary, uncompared ones equal, every `$ref` resolved, none inside the opaque keywords, `oneOf` branches with references told apart by a property, and a request property added only where `additionalProperties` is false, or is followed by the new property, or is absent with nothing in `$ref`, `allOf`, `anyOf` or `oneOf` beside it; the theorems of `SoundnessLimits` show what fails outside it.
- A client that sends a member which only some of several schemas applied together declare (an `allOf` of several, properties beside a `$ref`) is not a writer in this sense; the repository's own contract has no such schema.
- ContractSoundness.NewResponsesUnderstood: the same fragment, where a response property is added only beside `additionalProperties` that is absent, true or followed by it, and a response child that switches between a boolean and a schema goes from anything or to nothing.
- Malformed documents on which Python raises (an unhashable enum value, a `required` that is no list), the equality of Python's `True` and `1` inside nested values, parameter references, path-level parameters and component request bodies.
- `not`, `pattern`, `format` and the uncompared keywords but `const` are arbitrary predicates of the keyword's value and the value checked; keywords whose meaning depends on their neighbours (`patternProperties`, `contains`, `if`, `unevaluatedProperties` and the like) are outside the vocabulary.
- The `style`, `explode` and `content` of parameters, which the comparison never reads.

Ownership

- OwnershipSafety.StackKeepsLockFile: assumes that no orphaned command outlives the stale bound; without it the statement is false.
- Only the live command group of the owner creates a stack, project names are fresh, dead groups stay dead, and nobody else unlinks lock files; engine requests a stopped command has already sent and reuse of process ids are excluded.
- Recording a group is part of starting it and succeeds; reading back more than 65,536 bytes of records is not modelled.
- Labels, host names, paths, ports, environment variables and bucket preparation; the checks on them refuse or pass arbitrarily. Unlinking and closing a lock file is one step.

Object store

- Concurrent operations of several threads or processes, file modes, symbolic links, the order of a listing, `exists`, `is_ready` and the S3 store. A mapped or network file system with other rules for `fsync` and `rename`.

Backup and restore

- ReloadOrder.ReloadableExactly: covers ids, references and the template and conversion triggers of PostgreSQL, row by row, not other unique, check and composite constraints.
- DistributedRestore.Restore: speaks of the references of the restored database itself at the head, or when the ids of drafts and revisions are unique after the migration; otherwise of the references the payload holds.
- Manifest.IdentifierBinds: the hash is an arbitrary function into 64 hexadecimal digits, so the conclusion is up to two contents with one digest; JSON coding is any coding that parsing inverts.
- Standalone.BackupAndRestore: the online snapshot, the integrity check, the schema checks and the migrations are arbitrary functions of the database file.
- Standalone.Backup: an inventory of the object tree is one reading of it, while the tree may change between readings and copies.
- BucketRestore.Bucket.EnsureEmptyAndRestore: a put that stored its object and still failed leaves the object; the contract names these keys (`lost`). An interrupt between a put and its record is not modelled, keys others place are never counted as this restore's, and others do not delete or overwrite objects.
- The coding of cell values, rows that lack columns, the advisory lock, deadlines as numbers (a deadline may pass at any check), the identities of resources, backing up a database or a bucket, the locking of a backup directory, and a power loss during publication (a kill is covered).

ZIP directory, scanner, shards

- Opening and size checks of files before the directory is read, and reading the entries themselves. An offset too large to seek to is a rejection.
- Time limits, operating-system errors and the refusal of a bad configuration; the marker is a parameter that is not empty.
- Shell text, regular expressions, error texts and their order, and `shard_map`; the model starts from the parsed functions, calls, shards and scenario sites.
