# Retro Rewind recompilation: a verified model of the launcher and runtime cores

This project models the independent hard cores of the repository in Dafny and proves what each is for:

- **Crash-safe install transaction** (`FileTree`, `TransactionPlan`, `Volume`, `InstallTransaction`). A file
  system as a map from component paths to nodes; every rename, recursive delete, journal write and
  Config.toml write is one durable step that may succeed, fail, or be the last step before the process
  dies (an interrupted delete may stop anywhere). The transaction is a class over that volume, as the
  source's is. Faults come from an arbitrary script, so a contract holds for every choice of failing and
  crashing steps, in publication, rollback and any number of recoveries.
- **Repair planner and inspector** (`Installation`, `ProductRepair`, `PublishedEntries`, `PublishedTree`,
  `RepairService`, `RepairConvergence`, `CompileGuards`, `StateDocument`, `ProductDamage`). The nine-way inspection, the planner flag by flag, and the
  published entry list; the installation as inspection reads it from the transaction's own volume, and
  the service that runs plan, build and transaction on it under any fault script; and the fixed point one
  reconciliation reaches. Parsing and hashing are arbitrary functions of a tree, hashes are compared as
  the source compares them (letter case ignored or not); the build script is a value it hands back,
  restricted only by what the code itself checks.
- **Config.toml editor** (`ConfigEditor`, `ConfigTheorems`, `PortablePaths`, `ConfigFile`). Comment
  stripping, quoting, lookup, in-place edits and owned removal, on lines and on the file's text, and the
  relative spelling of paths in a portable installation.
- **Frame worker, schedule, presenter, image pool** (`FrameWorker`, `FrameWorkerTheorems`, `Pacing`,
  `Presenter`, `ImagePool`, `Presentation`). The two-thread handshake is a state machine over its critical
  sections, with every interleaving a run of it; `Presentation` runs queue and image pools together.
- **Guest fast paths** (`GuestMemory`, `PageTables`, `SingleStore`, `Dispatch`, `FprGuard`, `GxWrites`,
  `WriteGuard`). Each is proved equal to the simple form it replaces, and the page tables are valid from
  initialization through every later update.
- **Controller ports** (`Ports`). The greedy matching and its tables.

`Wrappers` holds the option and result types, `Arithmetic` powers of two and quotients. Check everything
with `dafny verify dfyconfig.toml`.

## What turned out false

- *A rolled-back or committed journal always passes its own validation.* `Begin` accepts any number of
  entries, while rollback and recovery refuse a journal with more than 64
  (`TransactionPlan.AcceptedJournal`, `OversizedTransactionIsAcceptedButNotRecovered`). `Recover` is
  therefore proved to refuse exactly those, and the all-or-nothing theorem asks for at most 64 entries,
  which every repair plan meets (`PublishedEntries.PlanIsAccepted`).
- *One reconcile always leaves Retro Rewind current.* The planner compares only the hash of a downloaded
  payload with the product's record, the inspector also compares the length. `RetroConverges` gives the
  exact condition; `WrongLengthIsNeverRepaired` is an installation that every reconcile calls current and
  every later inspection calls changed.
- *A reported cache observation was proved.* A base-only operation reports a verified cache for a product
  whose own record embeds none (`ReportedUnverified`). What the report changes is exact: the next
  inspection answers as if it had hashed the cache, unless an online operation kept a product whose
  recorded payload length is wrong (`ObservationAgrees`).
- *A rebuilt product is current.* Only if the build's local-build.json names the profile and the game
  inputs and fst.bin exists (`BaseConverges`, `RetroConverges`, `ReportsConverge`). Nothing checks the base
  product's record before it is published, and the check on Retro Rewind's leaves the profile out
  (`MislabelledBaseIsPublished`, `MislabelledRetroIsPublished`).
- *Setting and then removing a key restores the file.* Exactly when the section existed and its first
  occurrence did not set the key (`ConfigTheorems.SetThenRemove`); an empty file keeps the section
  (`EmptyFileIsNotRestored`).
- *A join on the frame worker returns.* Between `end_frame` and `begin_frame` it returns exactly when the
  worker is already done; otherwise it waits for a permission only `begin_frame` gives
  (`JoinBetweenFrames`, `CircularWaitHappens`).
- *READY implies SEALED.* Exactly between the two stores of `end_frame` it does not (`Exclusion`,
  `ReadyOutlivesSealed`).
- *A stored generation is accepted only if nothing was written.* True while fewer than 2^32 bumps land on
  the range itself; without that bound it is accepted exactly when those bumps are 2^32 for each wrap of
  one of its counters (`GxWrites.AcceptedExactly`), as after 2^32 writes to one granule (`WrapIsAccepted`).
- *A group slides by whole periods.* Exactly when the anchor lies on the group's own grid; after an
  interval change it may not, and the stamp then rounds up (`Pacing.SlideIsPeriods`, `RoundedUp`, `UnevenSlide`).
- *Slot deadlines strictly increase.* Exactly when the interval is at least the slot count
  (`Pacing.SlotsIncrease`); two slots in one tick fall due together (`CrowdedSlots`).
- *A stored path is read back.* Exactly unless its relative spelling is nothing but white space
  (`ConfigFile.StoredPathReads`), as for a folder in UserData named by one no-break space (`WhiteNameIsLost`).
- *A finished transaction leaves no work directory.* Exactly unless its first journal never became durable;
  then nothing is in it (`Volume.Swept`, part of every recoverable state).
- *Every full page has a fast path.* Exactly unless its storage lies one byte below its guest address, the
  one bias the encoding cannot hold (`GuestMemory.LoadIsGiven`, `PageTables.UnencodableBias`).
- *A load on the fast path reads no pending deferred read.* Exactly unless it runs into the next page and
  reads one there, which is left to the protection of the host pages (`PageTables.FastLoadAvoidsDeferred`).

## Model

| member | source | states |
|---|---|---|
| FileTree.TextPrefixIsContainment | Launcher/WiiCompiled.Setup/FileSystemUtilities.cs:104-119 | the textual prefix test on joined paths holds exactly when one path contains the other component by component |
| TransactionPlan.NormalizeEntries | Launcher/WiiCompiled.Setup/InstallTransaction.cs:219-260 | entries are accepted exactly when every path is in scope and of the right kind and all prepared and destination paths are pairwise apart; the accepted list records whether each original existed |
| TransactionPlan.BackupPathsDiffer | Launcher/WiiCompiled.Setup/InstallTransaction.cs:219-260 | two entries never share or nest their backup locations, however many entries there are |
| TransactionPlan.AcceptedPlanIsValid | Launcher/WiiCompiled.Setup/InstallTransaction.cs:219-260 | for an accepted list every prepared, destination, backup and work path is apart from every other that matters, and every entry starts untouched |
| TransactionPlan.AcceptedJournal | Launcher/WiiCompiled.Setup/InstallTransaction.cs:262-291 | a journal the transaction writes passes its own later validation if and only if it has at most 64 entries |
| TransactionPlan.OversizedTransactionIsAcceptedButNotRecovered | Launcher/WiiCompiled.Setup/InstallTransaction.cs:262-291 | for every n there is an acceptable list of n entries, and from 65 on the journal it leaves is one recovery refuses |
| InstallTransaction.Transaction.Move | Launcher/WiiCompiled.Setup/InstallTransaction.cs:312-341 | on success the whole tree has arrived and the source is empty; on failure it is where it was; trees beside both paths never change |
| InstallTransaction.Transaction.RollBackEntry | Launcher/WiiCompiled.Setup/InstallTransaction.cs:194-217 | from any state a crash can leave, the entry stays restorable and, on completion, is restored; the lost-backup and ambiguous-pair throws never happen |
| InstallTransaction.Transaction.RollBack | Launcher/WiiCompiled.Setup/InstallTransaction.cs:169-192 | every interruption leaves a recoverable volume; completion leaves everything as before, no journal and no work directory; it is refused exactly for an oversized journal |
| InstallTransaction.Transaction.Publish | Launcher/WiiCompiled.Setup/InstallTransaction.cs:79-109 | success means every destination holds its prepared tree and the journal says so; any failure leaves a recoverable, uncommitted volume; while the destinations' and backups' parents can be made, every failure uses up a fault, so without faults a prepared transaction publishes |
| InstallTransaction.Transaction.RecordRuntimeConfigurationMutation | Launcher/WiiCompiled.Setup/InstallTransaction.cs:116-123 | the preimage of Config.toml is durable before the first write to it, in the Published state only, where every failure uses up a fault |
| InstallTransaction.Transaction.Commit | Launcher/WiiCompiled.Setup/InstallTransaction.cs:129-136 | the one journal write is the commit point; failing before it leaves the transaction active, failing after it leaves it committed; every failure uses up a fault, so without faults it commits |
| InstallTransaction.Transaction.Dispose | Launcher/WiiCompiled.Setup/InstallTransaction.cs:138-142 | a finished transaction leaves the volume exactly as it is; an unfinished one is rolled back, and when that completes everything is as before and neither journal nor work directory is left; neither alters what is committed |
| InstallTransaction.TryCleanCommitted | Launcher/WiiCompiled.Setup/InstallTransaction.cs:343-357 | cleaning up after the commit point may stop anywhere and the volume stays recoverable; the journal never goes before the work directory is gone |
| InstallTransaction.Recover | Launcher/WiiCompiled.Setup/InstallTransaction.cs:145-167 | from every recoverable state: all before or all after, exactly as committed; every failure inside it uses up one fault, so without faults it completes; completing from a journal leaves no work directory |
| InstallTransaction.Begin | Launcher/WiiCompiled.Setup/InstallTransaction.cs:48-76 | refused exactly for no entries, an unfinished journal or unacceptable entries, changing nothing; otherwise the journal is durable before the first move; with room for the work directory every failure uses up a fault, and there is then room for every move |
| InstallTransaction.PublishAndCommit | Launcher/WiiCompiled.Setup/ProductRepairService.cs:459-468 | publish, record, rewrite, commit, dispose: refused exactly for entries that are not acceptable, with nothing changed; otherwise every outcome is recoverable, success means committed, and with room every failure uses up a fault |
| InstallTransaction.PublishThenRecover | Launcher/WiiCompiled.Setup/InstallTransaction.cs:79-217 | all or nothing over every fault script: the lock acquisitions that follow terminate with every destination and Config.toml as before or, exactly when the commit became durable, as published, and every path beside the transaction unchanged; acceptable entries whose destinations' parents can be made are published and committed when no step fails; published trees have moved, not been copied, and the work directory is gone, exactly unless the first journal never became durable, when at most its two empty directories are left |
| ProductRepair.DecidePlan | Launcher/WiiCompiled.Setup/ProductRepairService.cs:120-203 | the flags set and reset step by step (`DecideRetro`) come out as the declarative plan: why each product is rebuilt, and a payload copied exactly when online and embedded anew or stale |
| ProductRepair.PayloadIsVerified | Launcher/WiiCompiled.Setup/ProductRepairService.cs:310-356 | an online operation works with what was downloaded or, failing that, with the installation's own payload exactly when product and state document name its hash and the cache holds it at the recorded length |
| ProductRepair.FolderIsCompared | Launcher/WiiCompiled.Setup/ProductRepairService.cs:381-390 | the folder is published anew exactly unless Config.toml and the state document both name it already |
| ProductRepair.BuildUpdatedInstallState | Launcher/WiiCompiled.Setup/ProductRepairService.cs:553-600 | the field-by-field state document is the one the theorems of `StateDocument` and convergence are about |
| StateDocument.StateIsFaithful | Launcher/WiiCompiled.Setup/ProductRepairService.cs:553-600 | whatever the old document said, a published one is current, says Retro Rewind is installed if and only if its executable is there, names the payload the product itself records, and names the game data that is there |
| StateDocument.StateRecordsRequest | Launcher/WiiCompiled.Setup/ProductRepairService.cs:560-600 | a Retro Rewind operation records its inputs and folder; a base-only one keeps the old inputs, folder and - unless the product names one - payload; supplied game hashes replace recorded ones and only those do |
| StateDocument.LostProductIsMissed | Launcher/WiiCompiled.Setup/Installation.cs:314-325 | after any operation that writes the document, a Retro Rewind product whose executable disappears is Broken for every inspection, and one that was never there is Absent |
| ProductRepair.PublicationEntries | Launcher/WiiCompiled.Setup/ProductRepairService.cs:414-454 | the entries in publication order, or the error that stops them, for every plan; their kinds are as `KindsOfSlots` says |
| PublishedTree.CommittedReads | Launcher/WiiCompiled.Setup/ProductRepairService.cs:414-469 | the trees and the Config.toml a committed transaction of the planned entries leaves, read back file by file, are the planned installation: products, copied assets, payload cache, install state and canonical root |
| PublishedTree.UndoneReads | Launcher/WiiCompiled.Setup/InstallTransaction.cs:169-217 | a rolled back transaction reads as the old installation, part by part |
| PublishedTree.ConfigPublished | Launcher/WiiCompiled.Setup/RuntimeConfiguration.cs:57-102 | the canonical root written into Config.toml is the one read back, in portable and ordinary installations; without one the configured root stays |
| PublishedEntries.PlanIsAccepted | Launcher/WiiCompiled.Setup/ProductRepairService.cs:414-461 | a plan with work has one to ten entries, recovery can read their journal back, and the transaction accepts them if and only if nothing of the wrong kind is where one goes: no overlap check ever refuses a path |
| PublishedEntries.InstallScratchIsApart | Launcher/WiiCompiled.Setup/InstallScratchSpace.cs:69-78 | a scratch directory inside the installation overlaps nothing a repair publishes |
| RepairService.Service.RefreshTranslationAssets | Launcher/WiiCompiled.Setup/ProductRepairService.cs:617-654 | succeeds exactly when both installed game files have the expected hashes, and changes only workspace copies |
| RepairService.Service.PublishEntries | Launcher/WiiCompiled.Setup/ProductRepairService.cs:456-469 | the entries as one transaction: refused exactly when something of the wrong kind is in the way; otherwise, over every fault script, the installation read back is the planned one exactly when the commit became durable and the old one when not; with room and no failing step it succeeds |
| RepairService.Service.PublishProducts | Launcher/WiiCompiled.Setup/ProductRepairService.cs:414-469 | an error before the transaction changes nothing; the transaction is refused exactly when something of the wrong kind is in the way; after it the installation is all of the planned one or all of the old one, as the commit became durable, whatever failed or crashed; with room and no failing step it is the planned one |
| RepairService.Service.Reconcile | Launcher/WiiCompiled.Setup/ProductRepairService.cs:74-308 | for every request, build result and fault script: an error is the planner's own and leaves everything published as it was; nothing is done exactly when the preflight passes and the plan has no work; the transaction is refused exactly when something of the wrong kind is in the way, leaves the planned installation if it commits and the old one if not, and with room and no failing step it commits; either way the work directory is gone, or empty if no journal was ever written |
| RepairConvergence.PlanHasItsInputs | Launcher/WiiCompiled.Setup/ProductRepairService.cs:146-186 | a retro rebuild always has compile inputs and a payload sync always a staged payload, so those two throws are unreachable |
| CompileGuards.ReconcileSucceeds | Launcher/WiiCompiled.Setup/ProductRepairService.cs:205-308 | a reconciliation with work succeeds if and only if, when it compiles, the toolkit still hashes to its state, the game files are the ones asked for or on record, and the build is complete and names the game files, Code.pul and payload it was asked to use; and, when it copies, the workspace's assets are the toolkit's |
| CompileGuards.CompileGuarded | Launcher/WiiCompiled.Setup/ProductRepairService.cs:209-290 | the guards fail in that order with their own errors, and a plan that compiles nothing asks none of them |
| RepairConvergence.BaseConverges | Launcher/WiiCompiled.Setup/ProductRepairService.cs:141-308 | after a reconcile CheckBaseCore is Current if and only if a rebuild, if any, kept the build contract and fst.bin exists; every other base status needs compilation (`BaseStatuses`) |
| RepairConvergence.RetroConverges | Launcher/WiiCompiled.Setup/ProductRepairService.cs:161-308 | after a Retro Rewind reconcile CheckRetroRewindCore is Current for the same snapshot if and only if a rebuild kept the contract, or an untouched product had recorded its payload's true length; the inspection behind it is the payload verdict exactly on a trusted product, and any other present product needs compilation (`TrustedVerdict`) |
| RepairConvergence.BaseOnlyKeepsRetro | Launcher/WiiCompiled.Setup/ProductRepairService.cs:150-160 | a base-only reconcile leaves Retro Rewind exactly as current or as absent as it was |
| RepairConvergence.ReportsConverge | Launcher/WiiCompiled.Setup/Installation.cs:258-309 | the statuses actually reported, copied assets included, are Current exactly when the build kept its contract and its assets; a base-only repair leaves Retro Rewind reported current or absent; what each of the nine statuses says of an installation is read off the decision chain by `StatusesSayWhatChanged` |
| ProductDamage.BaseExecutable | Launcher/WiiCompiled.Setup/Installation.cs:451-463 | on any disk with a current base product: another executable leaves it current if and only if it is long enough and has the recorded hash; a missing or short one is Broken, any other Blocked; hashes are compared character by character, letter case aside (`SameIsByCharacter`) |
| ProductDamage.BaseGame | Launcher/WiiCompiled.Setup/Installation.cs:465-483 | other game data leaves it current if and only if fst.bin is there and both files hash as before; otherwise Blocked |
| ProductDamage.BaseLocalBuild | Launcher/WiiCompiled.Setup/Installation.cs:485-491 | another local-build.json leaves it current if and only if it is readable and names the schema, the profile and the game files on disk; otherwise Blocked |
| ProductDamage.BaseFingerprint | Launcher/WiiCompiled.Setup/Installation.cs:280-290 | another fingerprint: ToolkitChanged if it names another toolkit, Current if and only if it names the profile, the executable and the game files on disk, otherwise Blocked |
| ProductDamage.BaseState | Launcher/WiiCompiled.Setup/Installation.cs:276-279 | another install state leaves it current if and only if it belongs to this directory and names the game files on disk (`StateFits`); otherwise Blocked |
| ProductDamage.BaseToolkit | Launcher/WiiCompiled.Setup/Installation.cs:274-286 | an unusable toolkit blocks, another one is ToolkitChanged; nothing but these facts matters (`BaseRest`) |
| ProductDamage.BaseAssets | Launcher/WiiCompiled.Setup/Installation.cs:258-264 | changed copies of the runtime assets, and only those, turn a current product Broken |
| ProductDamage.BaseIsRepaired | Launcher/WiiCompiled.Setup/ProductRepairService.cs:141-160 | every base product that is not current is rebuilt by the next plan; a current one only for other game hashes, and changed copies are copied again |
| ProductDamage.RetroExecutable | Launcher/WiiCompiled.Setup/Installation.cs:314-325 | the same for Retro Rewind, for any inputs and cache observation; without an executable it is Broken or Absent as the install state has it |
| ProductDamage.RetroGame | Launcher/WiiCompiled.Setup/Installation.cs:465-483 | other game data blocks it unless both files hash as before and fst.bin is there |
| ProductDamage.RetroLocalBuild | Launcher/WiiCompiled.Setup/Installation.cs:485-500 | its local-build.json must also name the payload mode, hash and length the fingerprint records |
| ProductDamage.RetroFingerprint | Launcher/WiiCompiled.Setup/Installation.cs:330-356 | another fingerprint leaves the status as it was if and only if it agrees with executable, game data, state and build record (`RecordFits`); otherwise ToolkitChanged or Blocked |
| ProductDamage.RetroState | Launcher/WiiCompiled.Setup/Installation.cs:338-356 | another install state leaves the status as it was if and only if it fits the disk, records the product's compile inputs and, for a product with a payload, some payload; otherwise Blocked (`SoundIsRecorded`) |
| ProductDamage.RetroToolkit | Launcher/WiiCompiled.Setup/Installation.cs:314-337 | an unusable toolkit blocks, another one is ToolkitChanged |
| ProductDamage.RetroInputs | Launcher/WiiCompiled.Setup/Installation.cs:327-366 | another Code.pul, else other compile inputs, else nothing new; an unreadable folder is InputsMissing |
| ProductDamage.RetroCache | Launcher/WiiCompiled.Setup/Installation.cs:368-410 | a product with a payload is PayloadChanged exactly when the cache was seen to differ or, unobserved, its hash or length differs |
| ProductDamage.RetroAssets | Launcher/WiiCompiled.Setup/Installation.cs:298-308 | changed copies of the runtime assets turn a current product Broken; nothing else matters (`RetroRest`) |
| ProductDamage.RetroIsRepaired | Launcher/WiiCompiled.Setup/ProductRepairService.cs:161-186 | a Retro Rewind operation rebuilds every product that is not sound |
| ProductDamage.SoundRetroIsKept | Launcher/WiiCompiled.Setup/ProductRepairService.cs:161-203 | a sound one is rebuilt exactly for other game hashes, another payload or another payload mode, and the payload is copied exactly when an online operation rebuilds or the cache is not the staged payload |
| RepairConvergence.SecondReconcileIsIdle | Launcher/WiiCompiled.Setup/ProductRepairService.cs:188-203 | repeating the operation plans no work if and only if the build kept its contract and its copied assets |
| RepairConvergence.WrongLengthIsNeverRepaired | Launcher/WiiCompiled.Setup/Installation.cs:567-576 | a concrete installation whose wrongly recorded payload length every reconcile accepts and every later inspection reports |
| RepairConvergence.MislabelledBaseIsPublished | Launcher/WiiCompiled.Setup/ProductRepairService.cs:250-262 | a concrete base-only repair that publishes a base product whose own record names the other profile, and is then not current |
| RepairConvergence.MislabelledRetroIsPublished | Launcher/WiiCompiled.Setup/ProductRepairService.cs:263-285 | the same for a rebuilt Retro Rewind product |
| RepairConvergence.CacheSettled | Launcher/WiiCompiled.Setup/ProductRepairService.cs:161-186 | after an online operation the cache, the product's record and the install state all name the staged payload; a rebuild without the payload leaves no cache |
| RepairConvergence.ObservationIsTrue | Launcher/WiiCompiled.Setup/ProductRepairService.cs:369-373 | a cache observation that is passed on is true of the cache whenever the product's own record embeds a payload, which after a Retro Rewind operation is always the case |
| RepairConvergence.ObservationAgrees | Launcher/WiiCompiled.Setup/ProductRepairService.cs:369-373 | passing it on leaves the next inspection's answer what hashing the cache would give, if and only if the operation was base-only, rebuilt the product, or the product had recorded its payload's true length |
| RepairConvergence.ReportedUnverified | Launcher/WiiCompiled.Setup/ProductRepairService.cs:369-373 | a concrete installation where a base-only operation reports a verified cache and there is none |
| ConfigEditor.RemoveComment | Launcher/WiiCompiled.Setup/RuntimeConfiguration.cs:244-263 | the loop over three flags keeps exactly the text before the first # outside quotes |
| ConfigEditor.TryUnquoteToml | Launcher/WiiCompiled.Setup/RuntimeConfiguration.cs:268-294 | the loop decodes literal and basic strings as the recursive reading of the escapes does |
| ConfigEditor.QuotedForms | Launcher/WiiCompiled.Setup/RuntimeConfiguration.cs:268-294 | a literal string reads as its text between the single quotes, and nothing but a value within one kind of quotes reads at all; a section line is any name within brackets (`SectionForms`) |
| ConfigEditor.TwoPassesAreOne | Launcher/WiiCompiled.Setup/RuntimeConfiguration.cs:265-266 | replacing backslashes and then quotes escapes each character exactly once |
| ConfigEditor.QuoteRoundTrip | Launcher/WiiCompiled.Setup/RuntimeConfiguration.cs:265-294 | every value survives quoting and unquoting |
| ConfigEditor.AssignmentReads | Launcher/WiiCompiled.Setup/RuntimeConfiguration.cs:160-169 | the line written for a bare key reads back as that key and that raw value, whatever # or quotes the value holds |
| ConfigEditor.GetRawValue | Launcher/WiiCompiled.Setup/RuntimeConfiguration.cs:153-172 | the line loop finds the first pair of that key in any section of that name |
| ConfigEditor.LineList.SetSectionValue | Launcher/WiiCompiled.Setup/RuntimeConfiguration.cs:179-220 | the three loops leave the lines the reading theorems are about |
| ConfigEditor.LineList.RemovePathIfOwned | Launcher/WiiCompiled.Setup/RuntimeConfiguration.cs:121-150 | removes the line a reader would use, only if its value is owned |
| ConfigTheorems.SetThenRead | Launcher/WiiCompiled.Setup/RuntimeConfiguration.cs:153-220 | for every file, section and bare key: the key set reads back the value, every other section and key reads as before, duplicate sections included; in an existing section one line is overwritten or inserted, past the last line that is not blank (`SetTouchesOneLine`, `PlacePosition`) |
| ConfigTheorems.SetThenGet | Launcher/WiiCompiled.Setup/RuntimeConfiguration.cs:76-102 | set, read and unquote return the value |
| ConfigTheorems.LastSetWins | Launcher/WiiCompiled.Setup/RuntimeConfiguration.cs:179-220 | the last of two sets wins for every reader |
| ConfigTheorems.SetThenRemove | Launcher/WiiCompiled.Setup/RuntimeConfiguration.cs:121-220 | set then owned-remove restores the exact lines if and only if the section existed and its first occurrence did not set the key |
| ConfigFile.WriteThenRead | Launcher/WiiCompiled.Setup/RuntimeConfiguration.cs:222-227 | any lines without line breaks survive being written and read back |
| ConfigFile.StoredReads | Launcher/WiiCompiled.Setup/RuntimeConfiguration.cs:97-102 | the written file gives every reader the value or what the old file gave before, a missing file included |
| PortablePaths.StoredPathResolves | Launcher/WiiCompiled.Setup/RuntimeConfiguration.cs:94-119 | what is stored for a path, relative inside a portable root and absolute outside it, resolves against the file's directory to that path, on any drive or network share |
| PortablePaths.RootedReads | Launcher/WiiCompiled.Setup/RuntimeConfiguration.cs:94-95 | a text that starts with one separator is read from the root of the configuration's own drive or share |
| ConfigFile.StoredPathReads | Launcher/WiiCompiled.Setup/RuntimeConfiguration.cs:84-119 | a stored path is read back as that path exactly unless its relative spelling is nothing but white space, which an absolute one never is (`AbsoluteIsNotWhite`); every other key keeps its path |
| ConfigFile.StoredIsOwned | Launcher/WiiCompiled.Setup/RuntimeConfiguration.cs:121-150 | a path just stored is owned by the removal that follows, wherever it lies |
| ConfigFile.ConfigFile.SetPath | Launcher/WiiCompiled.Setup/RuntimeConfiguration.cs:97-102 | the file afterwards is the stored one of the theorems above, in the path's portable spelling |
| FrameWorker.RunsKeepInv | aurora-main/lib/aurora.cpp:300-346 | every interleaving keeps the flags, permissions, slots and logs of both threads in agreement |
| FrameWorkerTheorems.FramesInOrder | aurora-main/lib/aurora.cpp:1672-1739 | each end_frame is sealed, encoded and published exactly once and in order, at most one frame is in flight, and none is left when the worker is ready |
| FrameWorkerTheorems.ImGuiWaitsForEncode | aurora-main/lib/aurora.cpp:1704-1728 | ImGui's next frame starts only once every slot of every ended frame is encoded, counted as below |
| FrameWorkerTheorems.EverySlotIsEncoded | aurora-main/lib/aurora.cpp:1487-1565 | read off the actions of any run: each cycle seals one frame, which counts as encoded exactly after one encode step for each interpolated frame its sealing decided on and one for the frame itself, all beside the producer when the cycle overlaps and under the mutex when not, and is published only then |
| FrameWorkerTheorems.ImGuiStartsOnce | aurora-main/lib/aurora.cpp:1384-1402 | over any run ImGui frames started and owed are as many as begin_frame_impl calls that reached the render state, and one is owed only by an overlapping cycle not yet published |
| FrameWorkerTheorems.BeginReportsPreparation | aurora-main/lib/aurora.cpp:1772-1833 | begin_frame answers true without waiting exactly when the worker is busy and the surface is not changing, having given permission; otherwise it answers whether begin_frame_impl last succeeded, on whichever thread |
| FrameWorkerTheorems.BeginDecidesAtOnce | aurora-main/lib/aurora.cpp:1772-1811 | its first look is enough exactly when the worker is busy and the surface is not changing, or done with the frame prepared |
| FrameWorkerTheorems.Exclusion | aurora-main/lib/aurora.cpp:1772-1864 | ready without sealed exactly between the two stores of end_frame; ready means an idle worker; begin_frame_impl runs on one thread at a time; the producer records only beside a worker past sealed |
| FrameWorkerTheorems.JoinsMean | aurora-main/lib/aurora.cpp:367-402 | a join for SEALED returns exactly when the worker has left the shared renderer state alone, one for DONE exactly when it is idle with every frame published |
| FrameWorkerTheorems.SectionsExclude | aurora-main/lib/aurora.cpp:1666-1735 | neither thread enters a critical section while the other is between its two stores, nor the worker a renderer section while the producer records |
| FrameWorkerTheorems.ReadyOutlivesSealed | aurora-main/lib/aurora.cpp:1847-1862 | that moment is reached by the first end_frame |
| FrameWorkerTheorems.WaitsEnd | aurora-main/lib/aurora.cpp:367-408 | no join hangs: a blocked producer always faces a worker that can step, and after a bounded number of its steps the producer is free |
| FrameWorkerTheorems.StopReleasesEveryone | aurora-main/lib/aurora.cpp:410-427 | after stop_frame_worker both phases are released, the worker is gone and no frame counts as prepared |
| FrameWorkerTheorems.StopStartsNothing | aurora-main/lib/aurora.cpp:319-348 | after a stop request the worker takes no job and prepares no frame |
| FrameWorkerTheorems.JoinBetweenFrames | aurora-main/lib/aurora.cpp:1790-1803 | between end and begin a join returns if and only if the worker was already done; otherwise the worker ends up waiting for begin_frame |
| FrameWorkerTheorems.CircularWaitHappens | runtime/include/aurora_events.h:123-130 | that circular wait is reached by one begun and ended frame |
| Pacing.SlotsIncrease | aurora-main/lib/aurora.cpp:1488-1499 | every slot lies within one interval of the anchor, and slots strictly increase if and only if the interval is at least the slot count |
| Pacing.SlotsAreEven | aurora-main/lib/aurora.cpp:1488-1499 | the first slot is due at the anchor and any two slots lie their share of the interval apart, to within one tick |
| Pacing.NativeJobs | aurora-main/lib/aurora.cpp:1484-1495 | without interpolation every job is due 6.5 ms after the boundary one interval before the base and never slides; without a schedule it is due at once |
| Pacing.AnchorIsLeast | aurora-main/lib/aurora.cpp:1570-1585 | the anchor is the least grid point at or after the base, past the previous anchor, and past the clock when late |
| Pacing.RoundedUp | aurora-main/lib/aurora.cpp:1586-1595 | the rounded-up periods cover the slide by less than one interval, and are exact on the grid only |
| Pacing.SlideIsPeriods | aurora-main/lib/aurora.cpp:1586-1595 | the slide is the stamped number of periods times the interval if and only if the anchor lies on the group's own grid |
| Pacing.AllDeadlinesIncrease | aurora-main/lib/aurora.cpp:1567-1600 | over an unbroken run on one grid every deadline is later than all deadlines of earlier groups and slots |
| Pacing.Scheduler.ScheduleGroup | aurora-main/lib/aurora.cpp:1567-1601 | the stamped jobs and the cursor are those of the theorems for every cursor, an interval change included: the anchor is then still past the base, the previous anchor and a late clock (`AnchorIsPast`) |
| Presenter.Conservation | aurora-main/lib/aurora.cpp:1134-1172 | over every run each enqueued job was attempted, dropped or is still queued, and they were settled in arrival order |
| Presenter.AttemptsAreInOrder | aurora-main/lib/aurora.cpp:1151-1160 | jobs reach Present in the order they were enqueued, none twice |
| Presenter.QueueStaysBounded | aurora-main/lib/aurora.cpp:1197-1231 | over every run the queue never exceeds max(8, 3 times the largest group) and an accepted group is queued whole, at its end; stale jobs go only when keeping them would pass that (`GroupsStayWhole`) |
| Presenter.StopDrains | aurora-main/lib/aurora.cpp:1233-1252 | after a stop request nothing is dropped: the presenter exits only when every job then queued has been attempted, and always has a step to take until then (`StopProgresses`) |
| Presenter.StopEnds | aurora-main/lib/aurora.cpp:1143-1252 | from any state with a stop requested, at most two presenter steps for each queued job and two more let the join return, with every queued job attempted and no presenter left |
| Presenter.Queue.Enqueue | aurora-main/lib/aurora.cpp:1197-1231 | the critical section as it runs is one step of the machine above |
| Presenter.Queue.TakeNext | aurora-main/lib/aurora.cpp:1151-1160 | takes the oldest job, or exits exactly when stopping with an empty queue |
| ImagePool.AcquiredIsFree | aurora-main/lib/aurora.cpp:922-951 | the image handed out is referenced by no job and has the requested size, no referenced image leaves the pool, and the pool grows only when every image left in it is referenced |
| ImagePool.IdleIsReused | aurora-main/lib/aurora.cpp:922-951 | while the pool holds an idle image of the requested size the first one is handed out and nothing is created; otherwise a new one joins and of the old ones exactly the referenced stay |
| ImagePool.Pool.Acquire | aurora-main/lib/aurora.cpp:922-951 | the loop that erases in place leaves the pool and returns the image of that function |
| Presentation.ImagesAreNeverShared | aurora-main/lib/aurora.cpp:905-951 | over every run of encoding, queueing, dropping, presenting and stopping: no two outstanding jobs of a slot share an image, each one's image stays pooled, and an image acquired next is none of theirs |
| Presentation.PresenterGoesOn | aurora-main/lib/aurora.cpp:1149-1174 | after any run the job on screen is held until it is presented, a group can always be handed over, and an idle presenter takes a job exactly when there is one and leaves exactly when stopping without one |
| Presentation.PoolsStaySmall | aurora-main/lib/aurora.cpp:922-951 | over every run a slot's pool never holds more than one image beyond the most jobs of that slot ever queued or at the presenter at once |
| GuestMemory.WritableIsTranslated | runtime/include/memory_access.h:181-238 | every pointer of the coarse, sparse and small-mapping tiers addresses exactly the per-byte translation, and no byte lies on a guarded 4 KiB page, page crossings included |
| GuestMemory.StoreIsTranslated | runtime/include/memory_access.h:380-398 | the same for the inlined coarse store test |
| GuestMemory.LoadIsTranslated | runtime/include/memory_access.h:363-377 | the readable bias translates every access of up to eight bytes |
| GuestMemory.PointerIsTranslated | runtime/include/memory_access.h:157-174 | the general lookup translates every byte of the range |
| GuestMemory.StoreIsGiven | runtime/include/memory_access.h:380-404 | a store of up to eight bytes is native if and only if it lies in one 1 MiB page, is mapped in one piece, and touches no guarded 4 KiB page - also after executable ranges were added; the general writable lookup likewise (`WritableIsGiven`) |
| GuestMemory.CrossingIsGiven | runtime/include/memory_access.h:181-238 | a general writable access that leaves its 1 MiB page is native exactly when no byte is guarded and the page has a coarse or sparse write bias |
| GuestMemory.LoadIsGiven | runtime/include/memory_access.h:363-377 | a load is native if and only if its page and the next seven bytes are mapped in one piece at an encodable address and the page is not withheld |
| GuestMemory.PointerIsGiven | runtime/include/memory_access.h:157-174 | the general lookup succeeds exactly for ranges mapped within one page and for scalars that leave an encodable one |
| GuestMemory.Memory.TryWriteGuestScalar | runtime/include/memory_access.h:379-406 | succeeds exactly when the bytes lie in one 1 MiB page, mapped in one piece and unguarded; then it is the per-byte translated big-endian write, and otherwise nothing is written |
| GuestMemory.Memory.TryReadGuestScalar | runtime/include/memory_access.h:363-377 | succeeds exactly on an encodable page that is not withheld; then it is the per-byte translated big-endian read |
| GuestMemory.StoreThenLoad | runtime/include/memory_access.h:363-406 | a load after a successful store returns the value, and only translated bytes of the range changed |
| GuestMemory.SwappedStore | runtime/include/memory_access.h:269-282 | swapping before a little-endian copy leaves guest byte order in memory |
| GuestMemory.SwappedLoad | runtime/include/memory_access.h:284-295 | swapping after a little-endian copy reads guest byte order |
| GuestMemory.PairsAreTwoAccesses | runtime/include/memory_access.h:303-314 | a fused 32- or 64-bit load splits into exactly its two element loads |
| GuestMemory.FusedStore | runtime/include/memory_access.h:316-333 | a fused store writes exactly the bytes of its two element stores |
| GuestMemory.EndpointsProveTheRange | runtime/include/memory_access.h:244-253 | the mask test at both ends refuses a write range exactly when some byte of it is a hardware register; the offset handed out is the wrapped sum |
| PageTables.TranslateIsTheRegions | runtime/src/memory.cpp:228-255 | for disjoint regions the built table translates a byte to where the one region that holds it and its page's start puts it, and to nothing when none does |
| PageTables.PageTables.Init | runtime/src/memory.cpp:228-318 | building and refreshing the tables from any mappable regions, executable maps and deferred reads makes them valid, with every write tier as the executable maps ask |
| PageTables.PageTables.RefreshFastPaths | runtime/src/memory.cpp:269-318 | refreshing after new executable ranges keeps them valid and the write tiers exact |
| PageTables.PageTables.RegisterDeferredRead | runtime/src/memory.cpp:147-171 | token 0 exactly for an empty, callback-less or overlong range, with nothing changed; otherwise the read is pending, and the tables stay valid: a page is covered exactly while a pending read lies on it, and has its full readable bias exactly while it is not covered |
| PageTables.PageTables.RefreshDeferredReadPage | runtime/src/memory.cpp:96-105 | the overlap test of one page puts it back on the fast read path exactly when no pending read lies on it (`OverlapIsPages`), and touches no other page |
| PageTables.PageTables.ClearDeferredReads | runtime/src/memory.cpp:173-188 | nothing is pending afterwards and every page has its full readable bias again |
| PageTables.PageTables.ResolveDeferredReads | runtime/src/memory.cpp:190-214 | the erasing loop takes off the reads that overlap the range, in order, and keeps the others; pages another read still covers stay off the fast path, the rest come back |
| PageTables.PageTables.LoadIsNative | runtime/include/memory_access.h:363-377 | on tables as any of the operations leaves them a load is native if and only if its page and seven more bytes are mapped in one encodable piece and no pending read lies on the page |
| PageTables.OverlappingAre | runtime/src/memory.cpp:88-94 | resolving hands over a pending read exactly when it overlaps the range, and keeps it exactly when not |
| PageTables.PageTables.FastLoadAvoidsDeferred | runtime/include/memory_access.h:363-377 | a load that the readable bias serves overlaps a pending read if and only if it runs into the next page and overlaps one there |
| PageTables.PageTables.MarkExecutable | runtime/src/recomp_mod_loader.cpp:92-115 | a new executable range marks exactly its 4 KiB pages and keeps the tables valid, stale sparse tables included; exactly the coarse write paths of its 1 MiB pages go |
| SingleStore.RulesUndoWidening | runtime/include/memory_access.h:130-148 | the bit rules invert single-to-double widening for every pattern, and quiet a signalling NaN |
| SingleStore.NarrowingTruncates | runtime/include/memory_access.h:130-148 | from the smallest subnormal single to the largest finite one the rules keep the sign and give the largest single magnitude not above the double's, whatever the rounding mode |
| SingleStore.NarrowedFields | runtime/include/memory_access.h:130-148 | for every pattern the sign is kept; outside the subnormal window the fraction is cut and the exponent keeps its top bit and low seven, so zeros, infinities and out-of-range values come out as the bit rules have them |
| SingleStore.StoreIsTheRules | runtime/include/memory_access.h:112-149 | on a host whose conversion delivers no signalling NaN, as IEEE 754-2008 section 6.2 asks, the store is the bit rules for every 64-bit pattern |
| SingleStore.ShortcutIsTheRules | runtime/include/memory_access.h:112-149 | for an arbitrary conversion result the shortcut returns what the rules return exactly unless that result is the signalling NaN of the pattern |
| SingleStore.WideningKeepsTheValue | runtime/include/memory_access.h:119-124 | the double the rules are proved against has the single's sign and exactly its magnitude, subnormals included |
| SingleStore.SpecialsStay | runtime/include/memory_access.h:119-124 | infinities widen to infinities and a NaN to the quiet NaN of the same sign and payload |
| SingleStore.WideningIsInjective | runtime/include/memory_access.h:115-128 | two singles with the same widened bits are the same single, up to the quieting of a NaN |
| FprGuard.RunTestPicksRuns | runtime/include/abi_bridge.h:201-208 | the wrap-around test holds exactly when the mask's bits are one interval, and yields that interval |
| FprGuard.Guard.constructor | runtime/include/abi_bridge.h:191-220 | both save paths hold every masked register |
| FprGuard.Guard.Restore | runtime/include/abi_bridge.h:222-240 | both restore paths put back exactly the masked registers |
| FprGuard.KeepsUnmasked | runtime/include/abi_bridge.h:505-536 | outside its mask a function changes no nonvolatile register, however deep it calls |
| FprGuard.CallTreePreserves | runtime/include/abi_bridge.h:522-536 | f14 to f31 survive any call tree whose callees write only within their masks |
| FprGuard.Run | runtime/include/abi_bridge.h:522-536 | guard, call and restore on the register array is the call-tree semantics |
| Dispatch.FindStaticIndirectDispatchEntry | runtime/include/abi_bridge.h:134-172 | for any table a result has the requested address and no index leaves the entries; on a well-formed table the result is the linear scan's |
| Dispatch.WellFormedIsLaidOut | runtime/include/abi_bridge.h:107-131 | a table is well formed exactly when every entry lies in the sorted range of the 4 KiB page of the 16 MiB segment its address lies in (`AddressIsItsParts`) |
| Dispatch.LowerBoundIsScan | runtime/include/abi_bridge.h:158-171 | the lower bound within one page is the first match over all entries |
| Dispatch.RawLookupIsScan | runtime/src/abi_bridge.cpp:500-513 | a raw record found has the requested address; with a well-formed table and sorted records it is the first generated one, else the first registered one, and none is found only when neither list has it |
| Dispatch.Registry.FindByAddress | runtime/include/abi_bridge.h:410-426 | whatever was looked up before and whichever addresses share a slot, the answer is the unmemoized one; nothing is memoized before publication |
| Dispatch.RawRegistry.FindRawByAddress | runtime/include/abi_bridge.h:432-466 | nothing before publication; afterwards, for either processor's memo and after any lookups, exactly what the generated table and then the registered records give |
| Dispatch.Latch.Resolve | runtime/include/abi_bridge.h:581-603 | the one-word latch always agrees with the registry and latches only after publication |
| GxWrites.CanonicalAliases | runtime/include/gx_guest_write.h:18-38 | canonicalizing is idempotent and sends all three aliases of a main-memory byte to that byte, and leaves every other address alone |
| GxWrites.CoversIsBytes | runtime/include/gx_guest_write.h:89-104 | a notification bumps exactly the granules that hold one of its bytes below the end of MEM2 |
| GxWrites.RangeIsBytes | runtime/include/gx_guest_write.h:67-84 | a range is tracked exactly when it is not empty and ends below the end of MEM2, and its generation folds exactly the granules that hold one of its bytes |
| GxWrites.GenerationIsBelowSentinel | runtime/include/gx_guest_write.h:67-84 | the fold of a tracked range never reaches the untracked sentinel |
| GxWrites.OneWriteMoves | runtime/include/gx_guest_write.h:89-104 | a notification moves a range's generation exactly when the two share a granule, whatever the counters hold |
| GxWrites.FoldIsConserved | runtime/include/gx_guest_write.h:67-104 | over every run a fold grows by the bumps that land on its granules, less 2^32 for each wrap |
| GxWrites.AcceptedExactly | runtime/include/gx_guest_write.h:106-111 | for every run a stored generation is accepted if and only if the range is tracked and its bumps are 2^32 for each wrap of one of its counters |
| GxWrites.SkipIsSafe | runtime/include/gx_guest_write.h:106-111 | while fewer than 2^32 bumps land on the range itself, from any counters and whatever happens elsewhere, a stored generation is accepted if and only if the range is tracked and no write since touched its granules |
| GxWrites.SkippedIsUntouched | runtime/include/gx_guest_write.h:106-111 | under that bound an accepted digest was overlapped by no notified write, whichever alias each side used |
| GxWrites.WrapIsAccepted | runtime/include/gx_guest_write.h:64-66 | after exactly 2^32 writes to one granule a stale generation is accepted |
| GxWrites.Generations.NotifyWrite | runtime/include/gx_guest_write.h:89-104 | the loop bumps exactly the covered granules, modulo 2^32 |
| GxWrites.Generations.GenerationForRange | runtime/include/gx_guest_write.h:67-84 | the loop folds exactly the covered granules |
| WriteGuard.Guard.MayHit | runtime/include/recomp_mod_loader.h:112-161 | true exactly when the guard is enabled and some byte of the end-clamped range lies on a guarded page, whatever else the coarser maps mark |
| WriteGuard.Guard.Mark | runtime/src/recomp_mod_loader.cpp:92-115 | registering a range marks exactly the pages that hold some byte of it (`SpansIsOverlap`) and keeps the three maps consistent |
| WriteGuard.PagesAreBytes | runtime/include/recomp_mod_loader.h:150-160 | scanning the clamped page range is asking every byte |
| Ports.SortedBy | aurora-main/lib/input.cpp:333-339 | candidates come out best score first, then lower port, then lower instance, none lost (`SortedOrder`) |
| Ports.ScoreOrder | aurora-main/lib/input.cpp:243-265 | a GUID match beats a vendor and product match, among GUID matches the saved path decides, then the saved slot; a saved serial matches no other and an empty saved GUID nobody (`ScoreRefuses`) |
| Ports.ScoreMatches | aurora-main/lib/input.cpp:249-278 | a GUID match needs an equal GUID and no other serial; a vendor and product match an equal serial and equal, nonzero numbers; nothing else scores |
| Ports.CandidatesAreTheMatches | aurora-main/lib/input.cpp:321-332 | the candidates are exactly the connected controllers and saved ports that match at all, with their scores |
| Ports.ClaimsAreAMatching | aurora-main/lib/input.cpp:345-354 | no port and no controller is claimed twice |
| Ports.ClaimsAreMaximal | aurora-main/lib/input.cpp:345-354 | a candidate is left out only if one ordered earlier took its port or its controller |
| Ports.ClaimsAreUnique | aurora-main/lib/input.cpp:333-354 | the greedy claims are the only choice with those two properties |
| Ports.ClaimsIgnoreOrder | aurora-main/lib/input.cpp:321-354 | whatever order the map of controllers is visited in, the claims are the same |
| Ports.AtMostFour | aurora-main/lib/input.cpp:341-352 | claims never outnumber the fixed-size table |
| Ports.ConfiguredPortsAreHeldOnce | aurora-main/lib/input.cpp:308-354 | ports set to None end up empty and any configured port has at most one holder, the controller that claimed it |
| Ports.UpgradeNeverLowersTheMatch | aurora-main/lib/input.cpp:356-368 | filling in path and slot overwrites nothing, needs a GUID match, and never lowers the score with the controller that claimed |
| Ports.UpgradeFillsIn | aurora-main/lib/input.cpp:356-368 | a GUID match fills in exactly a missing path and a missing slot from the controller; nothing else in a preference ever changes |
| Ports.FilledAt | aurora-main/lib/input.cpp:345-368 | after the claims a claimed port's preference is upgraded from the controller that claimed it and every other one is what it was |
| Ports.EveryoneElseStays | aurora-main/lib/input.cpp:308-354 | a controller that claims nothing keeps its place unless that port is configured, and then has none; identities never change |
| Ports.PortAssignment.Claim | aurora-main/lib/input.cpp:341-369 | the loop over the two claim tables makes exactly the greedy claims, in bounds, and assigns them and upgrades their preferences |
| Ports.PortAssignment.ApplyPortPreferences | aurora-main/lib/input.cpp:294-373 | evict, collect, sort and claim; nothing changes when no port is configured |
## Left out

- Rename retries after antivirus interference, reparse points, 8.3 names and letter case of paths: a path is a list of already folded names and a rename is atomic.
- The journal and Config.toml are single files assumed to lie outside every entry; temporary files of atomic writes are not shown.
- `Move` creates missing parent directories and rollback leaves them, so restoration is stated per destination and for paths beside the transaction, not for the whole tree.
- Committing after a failed publication whose error the caller ignored: no caller does, and `Transaction.Commit` asks for an active transaction.
- Commands, progress text, logging, disk-space and running-game checks, and cancellation: each only turns a success into an error before anything is published.
- The toolkit's own file walk, zip extraction, downloads, signatures and the build script's work.
- `PreserveProductConfig`: copies user settings into a fresh build output and is no part of what inspection reads.
- Finding the portable root on disk, drive-relative texts such as `C:name`, and names Windows itself would change: paths are a drive or a network share and names, spelled and compared exactly in the relative spelling, a trailing separator aside; device paths (`\\?\`) are not shown; how ownership ignores letter case is a parameter of the removal.
- The synchronous submission path without a frame worker, and starting the worker thread.
- Surface, device and present results, and real clocks: choices of the environment and integer time; an optimistic begin_frame success while the surface changes is not honoured by the code and not claimed.
- FrameWorker.RunsKeepInv: memory orderings are not modelled; a step is one critical section, with end_frame's and the worker's paired stores apart.
- Pacing.Scheduler.ScheduleGroup: 64-bit overflow of nanosecond times is not modelled.
- ImagePool.Pool.Acquire: texture creation is not modelled; a use count is the set of images that jobs refer to, which `Presentation` derives from the group being encoded, the queue and the presenter.
- The emitter of the static dispatch tables is not part of this model; its invariant is the predicate `Dispatch.WellFormed`. The page-fault handler and page protection behind the flat mapping are not shown, nor what the callbacks of resolved reads produce.
- Building and staging: the files that appear in the scratch directory are given (`RepairService.Staged`), outside it nothing changes; the toolkit, the game data and the workspace's copies are read beside the volume.
- SingleStore.RulesUndoWidening: bit patterns are numbers; `FieldsShareNoBit` relates the one disjunction that joins two fields.
- The frame worker, the presenter queue's runs and the repair plans are modelled on values (a state machine, functions on an installation); the presenter queue, the scheduler, the image pool, the page tables, the transaction, the repair service, the line list, the memory, the registers, the counters, the guard maps, the memos and the port tables are classes or arrays that methods update.
- `ensure_player_index`, reading and writing the preference file, and idempotence of the port assignment (filling in path and slot can change later scores).
- The general-purpose-register guard, which saves a fixed range without a mask.
