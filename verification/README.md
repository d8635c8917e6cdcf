# AutoSecrets: a verified model

AutoSecrets is a desired-state system. Core (Go over PostgreSQL) turns drafts of
secrets into frozen bundle revisions and assigns them to groups of nodes; the
Agent (Python) pulls signed envelopes and puts their files on disk. This project
models the parts that carry the guarantees and proves those guarantees with
Dafny: `dafny verify dfyconfig.toml` checks everything.

- **Store** (`Bundles`, `Fleet`, `Store`, `Drafts`, `Groups`, `Rollout`): the tables
  of secrets, versions, bindings, drafts, revisions, groups, assignments, cleanup
  tasks and convergence rows. Every store method is one transaction; `Store.Store`
  runs its statements on a copy and assigns the copy back when it commits, and each
  method is proved against a function of the state before. Runs interleave
  transactions freely, also between the publish and the advance of a handler;
  `Rollout` asks what that interleaving does to the assignments. `Drafts` and
  `Groups` say of the tables themselves what each request does, and follow a value
  from the request that stores it to the nodes that are given it.
- **Agent** (`Paths`, `FileTree`, `Materializer`, `TempNames`, `Cleanup`, `Sync`,
  `Convergence`, `Leftovers`): a tree of directories, files and links changed one
  system call at a time, any of which may fail; a disk can also name files whose
  read or unlink always fails. A ghost trace keeps every intermediate tree, which is
  what an interrupted pass leaves behind.
- **Encoding** (`Json`, `JsonParser`, `Utf8`, `Base64`, `Decimal`, `Envelope`,
  `Delivery`, `Trust`, `Texts`): both canonical printers, a parser that inverts
  them, both manifests, the signature payload, the desired-state tag, and an honest
  envelope from Core's rows to the Agent's files. `Trust` says what the Agent
  accepts and, where only Core signs, from whom; `Texts` gives the texts and
  reference values. `EndToEnd` joins the tables, the envelopes and the convergence
  pass.
- **Identity** (`RateLimiter`, `Totp`, `LoginPolicy`, `LoginEffects`, `Bootstrap`):
  the failure limiter, one-time codes, the login policy as a state machine with what
  each request needs and leaves, and bootstrap as interleaved transactions split at
  their statements.
- **Lists** (`NodeList`): page cursors and the walk through the node list.

`Common`, `Sorting` and `Strings` hold what several of these share.

## How it is modelled

- Text is a sequence of Unicode scalar values; Go's strings are their UTF-8 bytes.
  Integers are unbounded except where the code's width matters: the counter's
  conversion to 64 bits, parsed cursors.
- Cryptography, digests, time formatting and the octal mode parser are function
  parameters with the usual laws (decrypting what was encrypted, verifying what was
  signed, injective digests, parsing what was formatted, reading octal digits).
  Where forgery is at stake the law of signing gives way to its converse: nothing
  verifies but what Core signed (`Trust.OnlyCoreSigns`).
- Library sorts are an insertion sort; `Sorting.SortedUnique` shows that any other
  sort gives the same result wherever a result depends on it.
- Creation times of revisions strictly increase. Cascades and unique indexes are
  those of `core/migrations`.
- What the code leaves open is left open: which bucket is evicted, which temporary
  name is drawn, the order of map iterations, which system call fails.

## What the code does not give

- Trimming in `validate_path` covers white space that includes control characters,
  and the callers go on with the untrimmed text: such characters reach the file
  system, though never a path outside the root (`Paths.ControlSlipsThroughTrim`).
- The path a new secret is first bound to is its name, which no path check has seen.
  The Agent refuses a bundle with such a path, all its files included, exactly for
  dotted names and names with control characters (`Paths.DefaultPathAccepted`,
  `EndToEnd.CreatedSecretPath`, `EndToEnd.StoredRevisionDelivered`).
- A destination whose own name `mkstemp` can draw, and that is not yet on the disk,
  can be lost: the rename succeeds and the clean-up removes the result. As long as
  names are free, that is the only way a run that reaches the end can lose a file
  (`TempNames.LostExactlyWhenDrawable`, `TempNames.LostExample`).
- Two different files of a revision may share a path, as nothing in Core forbids it.
  Then, and only then, the manifest depends on the sorting algorithm
  (`Envelope.OneManifestIffDistinctPaths`).
- The ETag is saved before the work it stands for: whatever failed, the next pass does
  nothing as long as the desired set is the same (`EndToEnd.SyncTwice`,
  `EndToEnd.FailureIsNotRetried`).
- ADR-0022 asks that a node whose cleanup is open receive nothing new until the
  cleanup succeeds. The code delivers in the same pass, unless every cleanup is
  confirmed or there is nothing to deliver (`Convergence.DeliveryWaitsExactlyWhen`,
  `Convergence.DeliversPastAnOpenCleanup`). It also asks that removal from an assigned
  group create a task; a removed member never gets one (`Fleet.LeaverIsNeverTold`).
- Cleanup knows only the last delivery of a bundle. A file an earlier revision put at
  a path no later one uses stays on the node, and only such a file
  (`Leftovers.CleanupTakesAllBackExactlyWhen`, `Leftovers.AbandonedFileExample`).
- A recorded file that cannot be read or unlinked stays, its manifest is dropped and
  the cleanup is reported done; the report is true exactly when there is no such file
  (`Leftovers.CleanedReportTrueExactlyWhen`, `Leftovers.StuckFileExample`).
- Publishing and advancing are two transactions. A failure in between, or another
  publish, can leave assignments on an older revision, and the guard then refuses the
  publish that would repair it (`Store.Store.HandlePublish`, `Rollout.OvertakenAdvance`).
  `Rollout.AdvanceCatchesUpExactlyWhen` says exactly when the advance still catches up.
- Verifying an enrollment accepts a code without using up its counter, so the same
  code can log in once more (`LoginPolicy.VerifiedCodeReplays`,
  `LoginPolicy.ReplayExample`).

## Model

| member | source | states |
|---|---|---|
| Store.RunConsistent | core/internal/database/domain.go:161-717 | Over every run of store transactions, in any order: every selection and revision row refers to a stored version of a secret of its own environment, version numbers run from 1 without a gap, equal draft versions mean equal files, no revision is ahead of its draft, no node gets one environment twice, and assignments point at revisions of their own environment |
| Store.GuardNeverRefusesAChange | core/internal/secrets/handler.go:441-449 | In every reachable state, when the publish guard refuses, the newest revision already holds exactly what the draft would freeze: the guard never refuses a real change, although deleting a secret changes the draft without bumping its version |
| Store.PublishedIsNewest | core/internal/secrets/handler.go:445-450 | Right after a publish the revision is the newest of its environment and the guard refuses another |
| Store.AssignedBundleIsStable | core/internal/database/domain.go:161-186 | Over every run during which the environment keeps an active assignment, a revision keeps its rows and the sealed bytes behind them, whatever is edited, published, rolled back or deleted |
| Store.DeliveryIsUnambiguous | core/internal/database/gen/domain.sql.go:58-65 | In every reachable state two active assignments that reach a node with one environment name one revision; it is deliverable, and a report about it resolves to its one assignment (Groups.AssignedExactly says the query returns the revisions of these and no others) |
| Store.PublishReachesEveryNode | core/internal/secrets/handler.go:450-462 | After a publish and the advance that follows, the query of every node with an active assignment of the environment returns the revision just frozen, stored with the files the publish froze (Drafts.PublishEffect says which) |
| Store.StepConsistent | core/internal/database/domain.go:161-717 | Each single transaction keeps the whole store invariant |
| Rollout.StepFollows | core/internal/secrets/handler.go:450-462 | Starting from all active assignments on the newest revision of their environment, one action keeps that exactly when it stores no revision under an active assignment and advances none to a revision that is not the newest |
| Rollout.AdvanceCatchesUpExactlyWhen | core/internal/secrets/handler.go:450-462 | After a publish or a rollback, any run of other requests and then its advance, the active assignments of the environment are on its newest revision exactly when it has none or nothing in between stored another revision of it |
| Rollout.RunLatest | core/internal/database/gen/domain.sql.go:963-970 | Over every run a revision stays the newest of its environment exactly when nothing stores another |
| Rollout.PublishThenAdvanceFollows | core/internal/secrets/handler.go:450-462 | A publish and its own advance with nothing in between put every active assignment back on the newest revision |
| Rollout.OvertakenAdvance | core/internal/secrets/handler.go:450-462 | Two publishes whose advances come in the other order leave every active assignment on the older revision, and the guard refuses the publish that would repair it |
| Drafts.PublishEffect | core/internal/database/gen/domain.sql.go:577-584 | A publish succeeds exactly on a draft with selections, and then the revision has exactly the selected secrets, each with the binding of now and the version selected, whose value is found; nothing else moves but the clock of revisions |
| Drafts.CreateEffect | core/internal/database/domain.go:219-255 | A create succeeds exactly on a known environment and a new name; then the value given is the one selected, the binding is the default one, the draft is bumped, and no other secret moves |
| Drafts.RotateEffect | core/internal/database/domain.go:259-288 | After a rotation of a selected secret the value selected is the new one, every old value is still found, the draft is bumped, and no other secret moves |
| Drafts.BindEffect | core/internal/database/domain.go:291-313 | The binding is the one given, the selected value stays, the draft is bumped, and no other secret moves |
| Drafts.SelectEffect | core/internal/database/domain.go:351-394 | Accepted exactly on the expected draft version with every selection a stored version of a secret of the environment; then exactly those secrets have the value asked for selected |
| Drafts.DeleteEffect | core/internal/database/domain.go:161-186 | Refused exactly while the environment is assigned; then the secret is gone from tables, drafts and revisions, and every other row is as it was |
| Drafts.RollbackEffect | core/internal/database/domain.go:497-536 | The new revision holds the files and the draft version of its source, a revision of the same environment, and nothing else moves |
| Drafts.RunSelects | core/internal/database/domain.go:161-536 | Over every run every secret stays selected at a version that has a value |
| Drafts.PublishIsWhole | core/internal/database/domain.go:415-452 | In every reachable state a publish freezes exactly the secrets of the environment |
| Drafts.SelectedIsGiven | core/internal/secrets/handler.go:418-469 | The value selected when an environment is published and advanced is the value every node of the environment is given, under the binding of that moment |
| Drafts.RotatedIsGiven | core/internal/database/domain.go:259-288 | In every reachable state: rotate, publish, advance, and every node of the environment is given the new value |
| Drafts.BoundIsGiven | core/internal/database/domain.go:291-313 | The same for a new binding |
| Drafts.CreatedIsGiven | core/internal/database/domain.go:219-255 | The same for a new secret |
| Groups.AssignedExactly | core/internal/database/gen/domain.sql.go:58-65 | A revision is in the desired state of a node exactly when an active assignment of a group of the node names it |
| Groups.OutsiderGetsNothing | core/internal/database/gen/domain.sql.go:58-65 | A node in no group with an active assignment is given nothing |
| Store.AssignedOncePerScope | core/internal/database/gen/domain.sql.go:58-65 | In every reachable state two revisions the query returns for a node are of different environments or are the same |
| Groups.InstructedExactly | core/internal/database/gen/unassignment.sql.go:186-192 | A node is instructed exactly for its tasks that are pending, failed or unconfirmed |
| Groups.InUseExactly | core/internal/database/domain.go:161-186 | The environments in use are exactly those of active assignments |
| Groups.JoinEffect | core/internal/database/domain.go:612-634 | A node joins exactly when node and group exist and no environment would reach it through two groups; then one membership is added, otherwise nothing changes |
| Groups.AssignEffect | core/internal/database/domain.go:667-717 | An assignment is made exactly when group, environment and a revision exist, no node would get the environment through two groups and the group does not have it; then one active row on the newest revision is added |
| Groups.AdvanceEffect | core/internal/database/gen/domain.sql.go:42-45 | Row by row: an active assignment of the environment names the revision given, any other is as before |
| Groups.UnassignEffect | core/internal/database/unassignment.go:69-99 | Succeeds exactly on an active assignment; then it is removing, each member of its group has a pending task, and every other task is as before |
| Groups.ReportCleanupEffect | core/internal/database/gen/unassignment.sql.go:220-225 | A cleaned or failed report settles an open task of the reporting node and nothing else |
| Groups.AbandonEffect | core/internal/database/gen/unassignment.sql.go:12-18 | Exactly the pending, failed and offline tasks of the assignment become unconfirmed; with none it is a conflict |
| Groups.ReportEffect | core/internal/fleet/delivery.go:201-248 | A report writes one convergence row: the revision as desired, what was reported, and the observed revision only when it says ok |
| Groups.StrayReport | core/internal/fleet/delivery.go:201-248 | A report by an unknown node, without a result, or of a revision the node is not given records nothing |
| Store.Store.CreateSecretWithValue | core/internal/database/domain.go:219-255 | Secret, first version, default binding, draft bump and selection in one transaction; duplicates and unknown environments change nothing; what the tables hold afterwards is Drafts.CreateEffect |
| Store.Store.CreateSecretTx | core/internal/database/domain.go:219-255 | The statements of that transaction, one by one, on a copy of the tables |
| Store.Store.AddSecretVersion | core/internal/database/domain.go:259-288 | The new number was free, the value is found under it, the draft version returned is the bumped one; the selection follows, as Drafts.RotateEffect says |
| Store.Store.AddVersionTx | core/internal/database/domain.go:259-288 | The statements of that transaction, one by one, on a copy of the tables |
| Store.Store.UpdateFileBinding | core/internal/database/domain.go:291-313 | Replaces the binding and bumps the draft; unknown secrets change nothing |
| Store.Store.UpdateDraftSelections | core/internal/database/domain.go:351-394 | Optimistic concurrency on the draft version, all-or-nothing check of the selections, then all of them are applied and the version is bumped |
| Store.Store.AllExist | core/internal/database/domain.go:371-381 | The checking loop accepts exactly when every selection names a stored version of a secret of the environment, in any order |
| Store.Store.Upserted | core/internal/database/domain.go:382-388 | The upsert loop overlays the selections on the stored ones, in any order |
| Store.Store.PublishDraft | core/internal/database/domain.go:415-452 | Stores a revision under the draft version, whose files Drafts.PublishEffect states; the file count reported equals the rows frozen |
| Store.Store.PublishTx | core/internal/database/domain.go:415-452 | The statements of that transaction, one by one, on a copy of the tables |
| Store.Store.RollbackTo | core/internal/database/domain.go:497-536 | Copies an earlier revision with its draft version and its rows; the count reported equals the rows copied |
| Store.Store.DeleteSecretById | core/internal/database/domain.go:161-186 | Refused while the environment is assigned; otherwise the secret leaves the draft and every revision |
| Store.Store.DeleteSecretTx | core/internal/database/domain.go:161-186 | The statements of that transaction, with the cascades of the schema; an unknown secret rolls the row deletion back |
| Store.Store.NewestRevision | core/internal/database/gen/domain.sql.go:963-970 | Finds the newest revision of the environment, or none |
| Store.Store.AddGroupMember | core/internal/database/domain.go:612-634 | Insert, then the conflict query, then commit or roll back |
| Store.Store.RemoveGroupMember | core/internal/database/domain.go:636-638 | Removes one membership and nothing else |
| Store.Store.CreateAssignment | core/internal/database/domain.go:667-717 | Group, environment, revision and conflict checks in order; the row inserted is active on the newest revision |
| Store.Store.AdvanceDesiredRevision | core/internal/database/gen/domain.sql.go:42-45 | Moves exactly the active assignments of the environment, or fails and moves nothing |
| Store.Store.AdvanceTx | core/internal/database/gen/domain.sql.go:42-45 | The guarded update, row by row |
| Store.Store.Unassign | core/internal/database/unassignment.go:69-99 | Marks an active assignment removing and creates one pending task per member; anything else changes nothing |
| Store.Store.ReportCleanupTask | core/internal/database/unassignment.go:119-133 | Only cleaned or failed, only on an open task of that node |
| Store.Store.AbandonCleanupConfirmation | core/internal/database/unassignment.go:139-148 | Open tasks become unconfirmed; nothing to change is a conflict |
| Store.Store.AbandonTx | core/internal/database/gen/unassignment.sql.go:13-16 | The guarded update row by row, with its row count |
| Store.Store.AssignmentForNodeRevision | core/internal/database/gen/convergence.sql.go:64-72 | Whatever row the query picks is the one assignment that delivers the revision to the node |
| Store.Store.HandleReport | core/internal/fleet/delivery.go:201-248 | A report upserts the convergence row of the one assignment it resolves to, or nothing |
| Store.Store.HandlePublish | core/internal/secrets/handler.go:418-469 | Guard, publish, advance: refused exactly when there is nothing to publish; a success moves every active assignment to the frozen draft; a failure changes nothing, or comes from the advance after the commit and leaves the revision published, assigned to nobody and shut in by the guard |
| Store.Store.HandleRollback | core/internal/secrets/handler.go:471-512 | Rollback, advance: a success moves every active assignment to the copy; a failure changes nothing, or leaves the copy committed and assigned to nobody |
| Store.Store.CollectFiles | core/internal/fleet/delivery.go:105-151 | The lookups of an envelope never miss a version: only an unknown revision fails |
| Bundles.StepValid | core/internal/database/domain.go:85-536 | Every request keeps the three invariants of the bundle tables |
| Bundles.StepResolves | core/internal/database/gen/domain.sql.go:578-584 | Every request keeps selections and revision rows pointing at stored versions of secrets in the same environment |
| Bundles.NextNumberContiguous | core/internal/database/gen/domain.sql.go:641-645 | The next version number continues the run from 1 without a gap |
| Bundles.AddVersionKeeps | core/internal/database/domain.go:257-288 | A rotation leaves every value already stored as it was |
| Bundles.StepDetermines | core/internal/database/domain.go:161-536 | Every request keeps: revisions of one environment with equal draft versions have equal files, none is ahead of the draft, and those equal to it match its snapshot |
| Bundles.DeleteSecretDetermines | core/internal/database/gen/domain.sql.go:343-352 | Deleting a secret strips the draft and every revision alike, which keeps that invariant without a bump |
| Bundles.RollbackDetermines | core/internal/database/domain.go:495-536 | So does a rollback, which reuses an earlier draft version |
| Bundles.EveryRevisionDeliverable | core/internal/fleet/delivery.go:105-131 | Every row of every revision has its sealed value |
| Bundles.FileCountIsRowCount | core/internal/database/domain.go:427-450 | The number of draft selections equals the rows the join with the bindings freezes |
| Bundles.AssignedRevisionIsStable | core/internal/database/domain.go:103-186 | No single request changes the rows or the sealed bytes of a revision of an assigned environment; without a delete, of any revision |
| Fleet.RunUnambiguous | core/internal/database/domain.go:612-717 | Over every run of member adds and removals, assignments, advances and unassignments, no node has two active assignments of one environment |
| Fleet.AddMemberUnambiguous | core/internal/database/gen/domain.sql.go:1437-1450 | Insert, conflict query and rollback keep that |
| Fleet.CreateAssignmentUnambiguous | core/internal/database/gen/domain.sql.go:1276-1284 | The conflict query and the unique active index keep that |
| Fleet.ReportFindsOne | core/internal/database/gen/convergence.sql.go:64-72 | A report resolves to exactly one assignment despite the limit of one row |
| Fleet.TasksFollowMembers | core/internal/database/gen/unassignment.sql.go:100-104 | Over every run: an assignment is active until it is unassigned and never again, and exactly the members at that moment have one task each |
| Fleet.CleanedOnlyByTheNode | core/internal/database/gen/unassignment.sql.go:186-225 | Over every run: a task is cleaned exactly when its own node reported so after the unassignment, abandoning never cleans, and a node is instructed exactly for its tasks not yet cleaned |
| Fleet.LeaverIsNeverTold | core/internal/database/domain.go:636-638 | Over every run: a node removed from an assigned group gets no delivery of that assignment, no task when it is unassigned later and no instruction, as long as it is not a member again, refused joins included |
| Fleet.ObservedIsLatestOk | core/internal/database/gen/convergence.sql.go:190-208 | Over every run: a convergence row exists once its pair was reported, and its observed revision is the latest one reported ok |
| Materializer.Materialize | agent/src/autosecrets_agent/materializer.py:102-131 | An invalid path or a bad hash leaves the disk untouched; otherwise success leaves exactly the tree of the temporary names drawn, which is the delivered tree whenever no draw can hit a destination; then and without faults success is certain exactly when the tree allows it; at every step each destination holds its old or its complete new content and nothing else has moved but ancestors and new temporaries |
| Materializer.DeliverFiles | agent/src/autosecrets_agent/materializer.py:118-131 | The delivery loop, draw by draw, with those step-by-step guarantees |
| Materializer.InstallFile | agent/src/autosecrets_agent/materializer.py:119-131 | One file: real parents, temporary file, atomic replace, temporary file gone |
| Materializer.WriteAndRename | agent/src/autosecrets_agent/materializer.py:121-131 | Stage, rename over the destination, then remove what is left under the temporary name; any of these can fail |
| Materializer.DropTemp | agent/src/autosecrets_agent/materializer.py:129-131 | The clean-up of the temporary name removes it or reports the failure |
| Materializer.Stage | agent/src/autosecrets_agent/materializer.py:121-127 | Writing and chmod touch the temporary file only |
| Materializer.EnsureDir | agent/src/autosecrets_agent/materializer.py:75-86 | Makes every component below the root a real directory, replacing files and links, touching nothing else |
| Materializer.EnsureOne | agent/src/autosecrets_agent/materializer.py:83-86 | One component of that |
| Materializer.MakeRoot | agent/src/autosecrets_agent/materializer.py:115 | The root and its missing parents become directories, or nothing else changes |
| Materializer.ValidateAll | agent/src/autosecrets_agent/materializer.py:106-107 | Accepts exactly when every path is valid |
| Materializer.VerifyHashes | agent/src/autosecrets_agent/materializer.py:110-114 | Accepts exactly when every content matches its hash |
| Materializer.DeliveryTheorem | agent/src/autosecrets_agent/materializer.py:49-131 | For valid, distinct, prefix-free paths with no directory in the way: every file is there with its full content and mode under real directories, and every other entry is unchanged except non-directories standing where a parent is needed |
| Materializer.UntornStep | agent/src/autosecrets_agent/materializer.py:121-131 | While one file is being installed, every destination of the delivery still holds old or complete new content |
| TempNames.LostExactlyWhenDrawable | agent/src/autosecrets_agent/materializer.py:121-131 | With names free, some run of the draws of mkstemp that reaches the end loses a delivered file exactly when no file meets a directory at its destination, where the rename raises, and some destination has a name mkstemp can draw - the prefix and eight of its letters - while nothing stands there when its turn comes |
| TempNames.DrawnDirs | agent/src/autosecrets_agent/materializer.py:118-131 | Whatever is drawn, a run that reaches the end leaves the directories of the delivered tree and met none at a destination |
| TempNames.KeepsAllBeforehand | agent/src/autosecrets_agent/materializer.py:118-131 | For distinct, prefix-free destinations that is a condition on the disk beforehand: a destination with a drawable name is missing from it |
| TempNames.LostExample | agent/src/autosecrets_agent/materializer.py:121-131 | The file .write-abcdefgh on an empty disk: a run loses it |
| TempNames.RoomByCount | agent/src/autosecrets_agent/materializer.py:121 | With fewer entries and files than the 37 to the eighth names, every file finds a name to draw |
| Materializer.DistinctPathsDistinctDests | agent/src/autosecrets_agent/materializer.py:118-119 | Distinct path texts give distinct destinations |
| Cleanup.ManifestTarget | agent/src/autosecrets_agent/materializer.py:89-99 | Resolves an entry only below real directories and never to a link |
| Cleanup.RemoveEntries | agent/src/autosecrets_agent/materializer.py:158-170 | Removes only recorded files that are still regular, hash-matching and under real directories, counts exactly those removed, and passes over a file it cannot read or unlink; if no other call fails, exactly those stay |
| Cleanup.RemoveEntry | agent/src/autosecrets_agent/materializer.py:159-170 | One entry of that |
| Cleanup.StillRemovable | agent/src/autosecrets_agent/materializer.py:159-170 | Earlier removals change what an entry decides only by its own file being gone |
| Cleanup.EntryTurn | agent/src/autosecrets_agent/materializer.py:159-170 | So a file recorded twice is removed and counted once |
| Cleanup.CleanupInvertsDelivery | agent/src/autosecrets_agent/materializer.py:149-172 | After delivery the saved manifest removes exactly the delivered files: their number is returned, every other entry stays, and a second removal removes nothing |
| Cleanup.RemovedExactly | agent/src/autosecrets_agent/materializer.py:149-172 | A path is removed exactly when some entry records it with a valid name, real directories above it, and a regular file there with the recorded digest |
| Paths.ValidatedComponentsSafe | agent/src/autosecrets_agent/materializer.py:49-61 | An accepted path, used untrimmed as the callers do, has no empty, dot or dot-dot component, so it stays under the root |
| Paths.AcceptedExactly | agent/src/autosecrets_agent/materializer.py:49-61 | Which paths either side accepts: trimmed, relative, and of components that are not empty, not dotted, at most 255 bytes and free of control characters; the trimmed text is the result |
| Paths.SpacesExactly | agent/src/autosecrets_agent/materializer.py:51 | The white space each side trims, character by character |
| Paths.ControlSlipsThroughTrim | agent/src/autosecrets_agent/materializer.py:51-61 | A control character passes validation exactly when it is among the white space trimmed off |
| Paths.ControlSlipsThroughExample | agent/src/autosecrets_agent/materializer.py:51-61 | A name Core keeps as it is and Python strips: an information separator reaches the file system |
| Paths.UpdatedPathsAreAccepted | core/internal/secrets/handler.go:330-352 | Every path a binding update stores is accepted by the Agent, unchanged and without control characters |
| Paths.DefaultPathAccepted | core/internal/secrets/handler.go:210-225 | The default path of a new secret, which no update checked, is accepted exactly when the name, stripped as Python strips, is not dotted and has no control character |
| Paths.DefaultPathRefusedExamples | core/internal/secrets/handler.go:210-225 | Core accepts these two names as paths and the Agent refuses them |
| FileTree.LocateReal | agent/src/autosecrets_agent/materializer.py:75-86 | A path of real directories leads where it says, with no link followed |
| FileTree.Disk.Mkdir | agent/src/autosecrets_agent/materializer.py:86 | A directory appears or nothing changes |
| FileTree.Disk.MkTemp | agent/src/autosecrets_agent/materializer.py:121 | An empty private file under an unused name of the prefix and eight letters |
| FileTree.SparePath | agent/src/autosecrets_agent/materializer.py:121 | With fewer paths in use than names one is free |
| FileTree.Disk.Replace | agent/src/autosecrets_agent/materializer.py:128 | The name moves in one step; a directory in the way fails |
| Sync.Agent.SyncOnce | agent/src/autosecrets_agent/sync.py:163-208 | A 304 changes nothing; otherwise the ETag is saved first, cleanup runs before delivery, every instruction and envelope is reported in order and the revision returned is the last one reported ok, a cleaned report Core does not accept being followed by a failed one; a pass that fails nothing leaves exactly the specified disk and manifests; on a healthy disk ready bundles never fail, whatever became of the cleanup; at every step of any pass no destination is torn |
| Sync.Agent.ActivateAll | agent/src/autosecrets_agent/sync.py:184-199 | One report per envelope, each turn as specified, failures counted, delivery of all when none fails, no failure on a healthy disk when the bundles are ready in turn |
| Sync.Agent.ActivateEach | agent/src/autosecrets_agent/sync.py:184-199 | The envelope loop: a failure is counted and the loop goes on |
| Sync.Agent.Activate | agent/src/autosecrets_agent/sync.py:102-104 | Materialize, then record; a failure leaves the manifests alone and moves nothing but the places of its own files; a healthy disk cannot fail on a sound bundle that fits |
| Sync.Agent.ProcessCleanup | agent/src/autosecrets_agent/sync.py:107-160 | Instruction by instruction: stop units, remove the recorded files, drop the manifest, report; what is removed is what all instructions take away less the files that cannot be read or unlinked, or part of that if other calls fail |
| Sync.Agent.RemoveManifestFiles | agent/src/autosecrets_agent/materializer.py:149-172 | Removes the removable recorded files but those that cannot be read or unlinked, then the manifest in any case, and returns how many went |
| Convergence.ReportedMeansDelivered | agent/src/autosecrets_agent/sync.py:184-199 | An envelope reported ok is on the disk when the pass ends, whatever the disk held, whatever was cleaned and whatever became of the other envelopes: every file in place and its manifest naming exactly them |
| Convergence.OutcomesAreIndependent | agent/src/autosecrets_agent/sync.py:184-199 | On a healthy disk with a place for every file, an envelope is reported ok exactly when it opens and its own bundle is sound |
| Convergence.FramedSoFar | agent/src/autosecrets_agent/sync.py:184-199 | Whatever failed, nothing moved but places of the envelopes so far |
| Convergence.CleanupLeavesRoom | agent/src/autosecrets_agent/sync.py:107-160 | Cleanup takes away no place a delivery needs |
| Convergence.DeliveryWaitsExactlyWhen | agent/src/autosecrets_agent/sync.py:144-154 | On a healthy disk nothing is delivered past an unconfirmed cleanup exactly when every instruction is confirmed or no envelope opens to a sound bundle |
| Convergence.WaitsExactly | agent/src/autosecrets_agent/sync.py:144-154 | The same for any pass, in terms of its reports |
| Convergence.CallsConfirmed | agent/src/autosecrets_agent/sync.py:144-154 | The cleanup reports all say cleaned exactly when every instruction was stopped and acknowledged |
| Convergence.DeliversPastAnOpenCleanup | agent/src/autosecrets_agent/sync.py:107-199 | A concrete pass: a cleanup reported failed, then a delivery reported ok |
| Leftovers.CleanupMissesEarlierFiles | agent/src/autosecrets_agent/materializer.py:138-172 | Two revisions of one bundle delivered in turn, then cleanup: a file of the first stays on the disk with its content exactly when its path is neither a destination of the second nor above one |
| Leftovers.CleanupTakesAllBackExactlyWhen | agent/src/autosecrets_agent/materializer.py:138-172 | Any number of revisions of one bundle delivered in turn, then cleanup: no path delivered to still holds a file exactly when each path of an earlier revision is a destination of a later one or above one |
| Leftovers.FileAtDest | agent/src/autosecrets_agent/materializer.py:118-131 | A delivery puts its file at its destination |
| Leftovers.DirAboveDest | agent/src/autosecrets_agent/materializer.py:75-86 | and a directory at every path above one |
| Leftovers.UntouchedKept | agent/src/autosecrets_agent/materializer.py:118-131 | and leaves every other path below the root alone |
| Leftovers.CleanupRemovesLastDelivery | agent/src/autosecrets_agent/materializer.py:138-172 | Cleanup after a delivery removes exactly the files of that delivery |
| Leftovers.AbandonedFileExample | agent/src/autosecrets_agent/materializer.py:138-172 | A secret moved from one path to another, then cleanup: the file at the old path stays |
| Leftovers.CleanedReportTrueExactlyWhen | agent/src/autosecrets_agent/materializer.py:159-172 | Every instruction whose units stop is reported cleaned and its manifest dropped; of its recorded files exactly those that cannot be read or unlinked stay, so the report is true exactly when there are none |
| Leftovers.StuckFileExample | agent/src/autosecrets_agent/materializer.py:159-172 | A recorded file that cannot be unlinked stays, its manifest goes, and cleaned is all Core hears |
| Sync.NothingFailedDelivers | agent/src/autosecrets_agent/sync.py:184-199 | A pass that fails nothing leaves exactly the specified disk and manifests |
| Sync.ReadyNeverFails | agent/src/autosecrets_agent/sync.py:184-199 | On a healthy disk bundles that open, are sound and fit in turn never fail |
| Sync.UntornOnward | agent/src/autosecrets_agent/sync.py:184-199 | Deliveries one after the other tear no destination of any of them |
| Sync.ManifestNamesDiffer | agent/src/autosecrets_agent/materializer.py:134-135 | Identifiers without an underscore never share a manifest file |
| Sync.ObsoleteWellFormed | agent/src/autosecrets_agent/sync.py:107-160 | Cleanup never removes a directory and leaves a well-formed tree |
| Sync.RecordedLater | agent/src/autosecrets_agent/sync.py:107-160 | An instruction for a bundle already cleaned finds nothing; any other finds its own files less those gone |
| EndToEnd.StoredSecretIsOnDisk | core/internal/fleet/delivery.go:105-171 | From tables to disk: in every reachable state of Core, once the Agent reports a revision that the query returned for it ok, every secret of it is on the disk at its frozen path, under its frozen mode, with the value sealed under its version |
| EndToEnd.EverythingAssignedIsOnDisk | core/internal/fleet/delivery.go:42-92 | When every envelope of an answer that holds all the query returns is reported ok, every secret of every revision the query returns for the node is on its disk |
| EndToEnd.PublishedValueIsOnDisk | core/internal/fleet/delivery.go:105-171 | From request to disk: what a secret had selected when its environment was published and advanced is, once the Agent reports that revision ok, at the path and under the mode bound then, whatever Core did in between, as long as the environment stays assigned |
| EndToEnd.OnlyCoresFilesLand | agent/src/autosecrets_agent/sync.py:79-104 | Whatever envelopes reach the Agent, in any number and order: each one reported ok carries the bundle of an envelope Core built, if nothing verifies but what Core signed |
| EndToEnd.StoredRevisionDelivered | agent/src/autosecrets_agent/sync.py:79-104 | On a healthy disk an honest revision is delivered exactly when the Agent accepts the path of every file in it |
| EndToEnd.ReportedRowIsOnDisk | agent/src/autosecrets_agent/sync.py:79-104 | Every row of a shipment reported ok is at its path under its mode when the pass ends, whatever became of the others |
| EndToEnd.HonestShipmentDelivered | agent/src/autosecrets_agent/sync.py:79-104 | On a healthy disk an honest shipment is reported ok exactly when its paths are valid |
| EndToEnd.AnswerScopesDiffer | core/internal/fleet/delivery.go:48-57 | In a reachable state no two shipments of an answer are of one environment |
| EndToEnd.CreatedSecretPath | core/internal/database/domain.go:241-242 | The first binding of a created secret carries its name as path, accepted under the condition on names |
| EndToEnd.SyncTwice | agent/src/autosecrets_agent/sync.py:176-208 | Whatever failed in a pass, the next one is answered not modified, and changes neither disk, manifests nor ETag and reports nothing, exactly when the list of ids is the same as before |
| EndToEnd.FailureIsNotRetried | agent/src/autosecrets_agent/sync.py:176-208 | A concrete pair of passes: one failure report and no second attempt |
| EndToEnd.OpenedIsSent | agent/src/autosecrets_agent/sync.py:79-101 | Whatever opens of what Core sent is the bundle of its rows |
| EndToEnd.RowReads | core/internal/fleet/delivery.go:132-151 | Path, mode, owner and group of a row read back as those bound, and its content is the value sealed |
| EndToEnd.HonestShipmentOpens | agent/src/autosecrets_agent/sync.py:79-101 | Every honest, unexpired envelope opens to the bundle of its rows |
| Json.PrintersAgree | agent/src/autosecrets_agent/envelope.py:71-81 | For every JSON value, json.dumps followed by the five replacements gives the text encoding/json gives |
| Json.CanonicalizedSpecial | agent/src/autosecrets_agent/envelope.py:75-81 | Each replaced character meets exactly one replacement, and its replacement meets none of the later ones |
| JsonParser.CanonicalJsonParses | agent/src/autosecrets_agent/envelope.py:71-81 | Canonical JSON is invertible: parsing it gives the value back |
| JsonParser.ParseReads | core/internal/envelope/envelope.go:84-101 | The parser reads any printed value off the front of any text |
| Utf8.Utf8Order | core/internal/envelope/envelope.go:240 | Ordering strings by UTF-8 bytes is ordering them by code point |
| Utf8.EncodeInjective | agent/src/autosecrets_agent/envelope.py:95 | No two strings have one encoding |
| Sorting.SortedUnique | core/internal/envelope/envelope.go:239-240 | Without ties, any two sorts of the same items agree |
| Envelope.CanonicalManifestGo | core/internal/envelope/envelope.go:238-257 | Sort a copy, append entry by entry, marshal |
| Envelope.ManifestsAgree | agent/src/autosecrets_agent/envelope.py:84-95 | Whatever way either side sorts and in whatever order files come, both build the same manifest bytes when no two files share a path |
| Envelope.OneManifestIffDistinctPaths | core/internal/envelope/envelope.go:239-240 | The manifest bytes do not depend on the sorting algorithm exactly when no two different files share a path |
| Envelope.ManifestInjective | core/internal/envelope/envelope.go:238-257 | Manifest bytes determine the files |
| Envelope.MapsPrintAlike | agent/src/autosecrets_agent/envelope.py:74 | However Go and Python sort the names of a map with these keys, the ascending list comes out and prints as the same text |
| Envelope.SignedDocument | agent/src/autosecrets_agent/envelope.py:120-133 | The signed document of either language is the map of the ten fields, whichever way it is sorted, and both have the same bytes |
| Envelope.ManifestDocument | core/internal/envelope/envelope.go:238-257 | So is the manifest, a map of maps |
| Envelope.SignaturePayloadInjective | agent/src/autosecrets_agent/envelope.py:120-133 | Equal signature payloads, one from each language, mean equal values of all ten signed fields |
| Delivery.BuildEnvelope | core/internal/fleet/delivery.go:105-171 | The row loop and the envelope around its two documents |
| Delivery.HonestEnvelopeAccepted | agent/src/autosecrets_agent/sync.py:79-101 | An honest envelope of files with distinct paths is accepted until it expires, and the Agent recovers exactly the rows of Core |
| Delivery.HonestSignatureVerifies | agent/src/autosecrets_agent/envelope.py:153-164 | The signature Core makes over the Go text is accepted over the Python text (Trust.VerifiedExactlyWhen says what else is) |
| Delivery.ManifestHashFixesFiles | agent/src/autosecrets_agent/envelope.py:178-181 | Two accepted envelopes with one manifest hash hold the same files, contents included |
| Delivery.AcceptedIsSent | agent/src/autosecrets_agent/sync.py:79-101 | Whatever the Agent accepts of the envelopes of Core is the rows Core put in |
| Trust.VerifiedExactlyWhen | agent/src/autosecrets_agent/envelope.py:136-164 | An envelope verifies exactly when protocol, version and suite are right, it has not expired, and its signature decodes and verifies over the text of its own ten fields; exactly a current envelope that fails the last is a bad signature |
| Trust.RefusedBefore | agent/src/autosecrets_agent/envelope.py:136-152 | Which error each other refusal is, in the order of the checks |
| Trust.AcceptedExactlyWhen | agent/src/autosecrets_agent/sync.py:79-101 | An envelope is accepted exactly when it verifies, its ciphertext decodes, decrypts and parses, and the manifest of those files has the hash it states; what is accepted is what was decrypted |
| Trust.BuiltCarries | core/internal/envelope/envelope.go:105-151 | What Core builds carries node, revision, key, both times and the rows, read as the Agent reads them, and the signature of its own ten fields |
| Trust.AcceptedIsCores | agent/src/autosecrets_agent/envelope.py:153-181 | If nothing verifies but what Core signed, every accepted envelope is one Core built but for the text of its signature, Core meant it to last until now, and what is accepted of it is its rows |
| Trust.ForgedIsRefused | agent/src/autosecrets_agent/envelope.py:153-164 | So an envelope that differs from all of them in any other field is refused |
| Delivery.EtagFaithful | core/internal/fleet/delivery.go:280-285 | Two lists of ids have one tag exactly when they are the same multiset |
| Delivery.NotModifiedMeansUnchanged | core/internal/fleet/delivery.go:50-59 | A tag that matches means the same revisions and the same open cleanups |
| Base64.DecodeEncode | core/internal/envelope/envelope.go:147 | Decoding gives back every byte string, padded or URL-safe |
| Texts.SignedNames | agent/src/autosecrets_agent/envelope.py:120-133 | The signed document has ten entries, each name with the value of its field |
| Texts.EntryNames | core/internal/envelope/envelope.go:241-249 | A manifest entry has five, each name with the value of its file |
| Texts.PayloadNames | core/internal/fleet/delivery.go:132-151 | A payload entry has five, each name with the value of its row, the content in base64 |
| Texts.PayloadDefaults | agent/src/autosecrets_agent/materializer.py:25-46 | A payload entry is read exactly when it has a path and a content in base64; mode, uid and gid default to 0400, 0 and 0, and the digest is that of the content |
| Texts.ListText | agent/src/autosecrets_agent/envelope.py:71-81 | A list prints as the texts of its items, with commas between brackets and nothing else |
| Texts.ObjText | agent/src/autosecrets_agent/envelope.py:71-81 | An object as those of its members, name, colon and value |
| Texts.EscapeTable | agent/src/autosecrets_agent/envelope.py:71-81 | What each character becomes, escape by escape |
| Texts.EtagText | core/internal/fleet/delivery.go:280-285 | The tag is the quoted digest of the ids joined by commas in code point order, however they came |
| NodeList.CursorRoundTrip | core/internal/database/pagination.go:22-44 | Every representable time and every id come back, also an id containing the separator |
| NodeList.FindStart | core/internal/fleet/handler.go:250-261 | The lookup loop finds the place after the first node the cursor names |
| NodeList.CutPage | core/internal/fleet/handler.go:262-275 | The page and the cursor of its last row |
| NodeList.HandleListNodes | core/internal/fleet/handler.go:237-276 | Sort, cursor lookup and page cut |
| NodeList.AnswerExactly | core/internal/fleet/handler.go:237-276 | A page is refused exactly for an undecodable cursor; otherwise it is a stretch of the nodes newest first, equal times by descending id, starting after the first node the cursor names or at the page asked for, as long as the limit and the list allow, with the cursor of its last row exactly when more follow |
| NodeList.LimitExactly | core/internal/middleware/helpers.go:28-36 | 25 entries unless a positive number is asked for, and never more than 100 |
| NodeList.WalkListsEverything | core/internal/fleet/handler.go:237-276 | Following the cursors over an unchanged set of nodes ends, and the pages together are the whole sorted list, each node once |
| NodeList.AnySortAgrees | core/internal/fleet/handler.go:237-244 | No two nodes tie, so any sort gives that list |
| Decimal.ParseFormat | core/internal/database/pagination.go:23-40 | Printed 64-bit numbers parse back |
| Decimal.FormatIntInjective | core/internal/envelope/envelope.go:95 | Different numbers print differently |
| Decimal.ModeStringReads | core/internal/middleware/helpers.go:20 | A printed mode is octal digits that read back as the mode |
| RateLimiter.LimiterBound | core/internal/identity/rate_limit.go:26-65 | With requests one at a time on a clock that does not run backwards, and no success or eviction for the key: at most 5 failures are counted per window and at most 9 in any half-open five minutes |
| RateLimiter.RunTracks | core/internal/identity/handler.go:662-692 | Over every run the table tracks the key: its last window with its count, or that window is over |
| RateLimiter.NineApart | core/internal/identity/rate_limit.go:46-64 | The tenth counted failure comes at least five minutes after the first |
| RateLimiter.LimitedExactlyAfterFive | core/internal/identity/rate_limit.go:26-65 | Over every such run: the key is limited exactly when its last five counted failures fall in one window of 300 seconds that is not over, so four never limit it |
| RateLimiter.LimitedExactly | core/internal/identity/rate_limit.go:26-38 | Limited from the fifth failure until 300 seconds after the first |
| RateLimiter.FailedEffect | core/internal/identity/rate_limit.go:40-65 | A failure adds one in a live window or opens one at one; another key is dropped only from a table of 10000, when over or as the one evicted |
| RateLimiter.AuthFailureLimiter.Limited | core/internal/identity/rate_limit.go:26-38 | Limited exactly from the fifth failure of a live window, and never past the end of that window |
| RateLimiter.AuthFailureLimiter.Failed | core/internal/identity/rate_limit.go:40-65 | Counts the failure, evicting when full; never more than 10000 entries |
| RateLimiter.AuthFailureLimiter.Purge | core/internal/identity/rate_limit.go:49-53 | Drops exactly the expired entries, in any order |
| RateLimiter.AuthFailureLimiter.Login | core/internal/identity/handler.go:662-692 | Refused while limited; a wrong password counts, a success clears |
| Totp.CounterBytes | core/internal/crypto/crypto.go:286-291 | The shifting loop writes the eight bytes that decode back to the counter (section 5.2 of RFC 6238) |
| Totp.ToBytesDecodes | core/internal/crypto/crypto.go:286-291 | Every counter is recovered from its bytes |
| Totp.TruncateReads | core/internal/crypto/crypto.go:294-299 | Truncation reads four bytes inside the digest and drops the sign bit (section 5.3 of RFC 4226) |
| Totp.CodeIsSixDigits | core/internal/crypto/crypto.go:300 | A code is exactly six digits and reads back as the truncated value modulo a million |
| Totp.TOTPCode | core/internal/crypto/crypto.go:278-301 | The code of the clock counter; an empty key is an error |
| Totp.MatchingCounter | core/internal/crypto/crypto.go:305-317 | The first counter within one period whose code it is, or none |
| Totp.SearchOffsets | core/internal/crypto/crypto.go:309-316 | The loop over the three offsets |
| Totp.MatchingIsNear | core/internal/crypto/crypto.go:303-317 | An accepted counter is within one step of the clock and carries the code |
| Texts.SkewExactly | core/internal/crypto/crypto.go:303-317 | A code is accepted exactly when it is the one of half a minute ago, of now or of half a minute ahead, and the earliest of them counts |
| Texts.ClockSteps | core/internal/crypto/crypto.go:286 | From 1970 on the counter is the number of whole steps of 30 seconds since |
| Texts.TruncateReference | core/internal/crypto/crypto.go:294-300 | The example of section 5.4 of RFC 4226 |
| LoginPolicy.CodesDoNotReplay | core/internal/identity/service.go:787-806 | Over every run of logins, renewals, step-ups, disables and re-enrollments the counters these accept strictly increase and each is within one step of its clock; the code that verifies an enrollment is not one of them |
| LoginPolicy.VerifiedCodeReplays | core/internal/identity/service.go:209-240 | After an enrollment is verified and confirmed, the same code at the same time logs in exactly when password login is open and its counter is beyond the last one spent |
| LoginPolicy.VerificationSpendsNoCode | core/internal/identity/service.go:209-240 | The same for any code at any later time |
| LoginPolicy.ReplayExample | core/internal/identity/service.go:209-240 | A new administrator enrolls, and the code that verified it logs in |
| LoginPolicy.AcceptedNearClock | core/internal/identity/service.go:800-806 | Each accepted counter is near the clock and its code is the one presented |
| LoginPolicy.RecoveryCodeOnce | core/internal/database/gen/identity.sql.go:112-115 | Until TOTP is disabled a recovery code is accepted at most once, whatever is enrolled or verified in between |
| LoginPolicy.RunKeepsNoLockout | core/internal/identity/service.go:76-121 | Over every run: at most one enrollment, TOTP required exactly when it is confirmed, password login closed only while a ready provider is bound, so its fallback is never needed |
| LoginPolicy.StepKeepsNoLockout | core/internal/identity/service.go:335-568 | Each single request keeps that |
| LoginPolicy.ChangesAreProved | core/internal/identity/service.go:501-568 | While TOTP is required, nothing but the end of a proved binding changes the policy without burning a fresh one-time code |
| LoginEffects.WrongPasswordRefused | core/internal/identity/service.go:335-568 | Whatever the policy, an enrollment, a disable, a step-up, a switch or an unbind with a wrong password is refused and changes nothing |
| LoginEffects.RunWithoutPassword | core/internal/identity/service.go:335-568 | Over every run in which nobody has the password: password login stays as it is, no provider is unbound, TOTP is not turned off and no enrollment started or dropped; without ends of enrollments and bindings only factors are burned |
| LoginEffects.LoginEffect | core/internal/identity/service.go:294-333 | A second step succeeds exactly when password login is open, or no provider could be used instead, and the factor is good; it burns that factor and nothing else |
| LoginEffects.ProveEffect | core/internal/identity/service.go:371-414 | A renewal or step-up succeeds exactly with the password and, while TOTP is required, a good factor, which it burns |
| LoginEffects.StartEffect | core/internal/identity/service.go:335-369 | Starting succeeds exactly with the password while nothing is confirmed, and leaves one new enrollment for half an hour |
| LoginEffects.VerifyEffect | core/internal/identity/service.go:209-240 | Verifying succeeds exactly on the one unexpired, unverified row of the token with a matching code and new recovery codes; it marks the row and stores the codes unused |
| LoginEffects.ConfirmEffect | core/internal/database/identity.go:235-276 | Confirming succeeds exactly on the one verified, unexpired row of the token; it marks the row and turns TOTP on |
| LoginEffects.DisableEffect | core/internal/identity/service.go:515-531 | Disabling succeeds exactly with the password and a good code; TOTP is off, and enrollments and recovery codes are gone |
| LoginEffects.SwitchEffect | core/internal/identity/service.go:532-568 | Succeeds exactly with password and proof, and for closing with a usable provider; password login is then as asked |
| LoginEffects.BindEffect | core/internal/database/identity.go:540-566 | A provider not bound is bound, and nothing else changes |
| LoginEffects.UnbindEffect | core/internal/identity/service.go:737-785 | Succeeds exactly with password and proof, on a bound provider, when password login is open or another usable provider stays; that provider is then unbound |
| LoginPolicy.IdentityService.VerifySecondFactor | core/internal/identity/service.go:787-806 | Burns one recovery code, or one counter beyond the last |
| LoginPolicy.IdentityService.StartTOTPEnrollment | core/internal/identity/service.go:335-369 | Replaces any unconfirmed enrollment, never a confirmed one, and keeps the no-lockout invariant |
| LoginPolicy.IdentityService.VerifyMFAEnrollment | core/internal/identity/service.go:209-240 | Verifies once and stores the recovery codes, all or nothing |
| LoginPolicy.IdentityService.InsertRecoveryCodes | core/internal/database/identity.go:222-226 | Inserts all codes, or aborts at a duplicate |
| LoginPolicy.IdentityService.ConfirmMFAEnrollment | core/internal/database/identity.go:235-276 | Confirms a verified enrollment and turns the policy on together, which keeps the two in step |
| LoginPolicy.IdentityService.DisableTOTP | core/internal/identity/service.go:515-531 | Needs a fresh code and clears policy, enrollments and recovery codes together, which keeps them in step |
| LoginPolicy.IdentityService.SetPasswordLoginEnabled | core/internal/identity/service.go:533-568 | Closing needs a ready and bound provider, so a way in stays open; the proof is burned also when the change is refused; what it needs and leaves is LoginEffects.SwitchEffect |
| LoginPolicy.IdentityService.Unbind | core/internal/identity/service.go:737-785 | The last usable provider cannot be unbound while password login is closed, so a way in stays open; what it needs and leaves is LoginEffects.UnbindEffect |
| LoginPolicy.IdentityService.CompleteBinding | core/internal/database/identity.go:540-566 | Binds once; a second binding is a conflict; no way in is closed |
| Bootstrap.SingleAdministrator | core/internal/database/identity.go:140-185 | In every interleaving of any number of bootstrap transactions split at their statements at most one administrator is committed, and the codes consumed are exactly those of committed bootstraps |
| Bootstrap.BootstrapSucceedsExactlyWhen | core/internal/database/identity.go:140-185 | With nobody else inside, a bootstrap makes its administrator and uses up its code exactly when there is none yet and the code is unused and live; otherwise it changes nothing |
| Bootstrap.AdministratorsHadLiveCodes | core/internal/database/identity.go:140-185 | In every interleaving every code consumed was a stored code not expired at its clock |
| Bootstrap.RunIsSafe | core/internal/database/identity.go:140-185 | Row locks and the singleton row alone keep that, with or without the advisory lock |
| Bootstrap.PastTheCountNothingInterferes | core/internal/database/gen/identity.sql.go:15-17 | With the lock, a transaction past the count neither waits for another nor fails for a reason other than its own code |
| Bootstrap.WithoutTheLockCountsGoStale | core/internal/database/gen/identity.sql.go:15-17 | Without the lock a count of zero can be out of date while another transaction has committed |

## Left out

- Materializer.Materialize: `root` stands for the resolved bundle root, so links on the way to it count as already followed; links inside the bundle are modelled.
- Materializer.MakeRoot: the same resolved root.
- Materializer.WriteAndRename: file ownership (`chown` as root) is not part of the tree.
- FileTree.Disk.MkTemp: gives up only when no name is free, not after a bounded number of unlucky draws.
- Leftovers.CleanupTakesAllBackExactlyWhen: nothing else happens on the node between the deliveries, and no draw can hit a destination.
- Store.Store.AdvanceDesiredRevision: requires the revision to be one of the environment, as both callers pass the revision they just created there.
- Sync.Agent.RemoveManifestFiles: reading, writing and removing the manifest and ETag files of the Agent does not fail.
- Sync.Agent.SyncOnce: delivering a report to Core does not raise; a unit stop is a flag of the instruction; heartbeat and poll interval are not modelled.
- Delivery.BuildEnvelope: the ten minutes between the two times of an envelope are not fixed; both times are inputs.
- Delivery.HonestEnvelopeAccepted: the envelope itself travels unchanged, and base64 content is decoded strictly.
- Store.Store.DeleteSecretById: the count of active assignments runs before the transaction of the delete begins, here in one step with it; an assignment created in between is not modelled.
- LoginPolicy.CodesDoNotReplay: the code accepted when an enrollment is verified is not counted, because it spends no counter; LoginPolicy.VerifiedCodeReplays says when it passes again.
- LoginPolicy.IdentityService.CompleteLogin: consuming the login challenge, sessions and step-up grants are not modelled.
- LoginPolicy.IdentityService.StartTOTPEnrollment: the sealed TOTP secret is its decoded key, and the password check is its outcome.
- Totp.TOTPCode: the secret is its decoded key; base32 decoding is left out.
- NodeList.WalkListsEverything: ids are distinct and not empty, and times have a 64-bit nanosecond count; a cursor at Go's zero time cannot come from the decoder.
- Deleting nodes, groups, environments and applications: their cascades would only shrink the tables.
- Interleavings inside a transaction other than bootstrap: publishing reads the draft version without a lock.
- Activation policies and the order of unit stops.
- The page walks of the other lists, which key the first hidden row and skip it.
- Retirement of secrets, enrollment of nodes, certificates and poll intervals.
- Audit events, and every message text.
- OIDC and OAuth exchanges: a binding is completed or not.
- The web console, HTTP decoding, cookies and middleware.
- JSON numbers, literals, white space and surrogate escapes: none occur in the documents signed or delivered.
