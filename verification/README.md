# DevStrap: verified models of its stateful protocols

DevStrap keeps a workspace in sync between devices through a hub that only stores
encrypted objects. This project models the parts of it that must survive crashes and
interleavings, and proves what each promises:

- **Restore** (`RestoreJournal`): a backup's targets are swapped in through asides under a
  durable journal. Every rename, removal and journal write consults a fault schedule, and a
  recovery may itself be cut and re-run any number of times.
- **Retention** (`CompactFloors`, `Retention`, `DurabilityMirror`, `SnapshotRecovery`,
  `SweepLock`): compactors publish snapshots with per-device floors by compare-and-swap and
  delete the events below; exporters mirror the head to a replica; devices that fell behind
  import the snapshot; an advisory lock serializes sweeps.
- **Blobs** (`BlobRewrap`, `EncryptedPull`, `HubGC`): re-encryption after a revoke, the pull
  that a sweep relies on, and the hub-side sweep.
- **Owed rotation** (`OwedRotation`): two durable markers that together never forget that a
  revoke still owes a key rotation.
- **Supporting algorithms**: the repository lock (`RepoLock`), the backup archive
  (`BackupArchive`), dotenv printing (`Dotenv`) and the child environment (`ChildEnv`).

Code that updates state step by step is a class whose methods take the same steps, with a
schedule (`fate`) that decides for every durable step whether it succeeds, fails or crashes,
and whether its effect landed; a theorem about every schedule is a theorem about a cut at
every step, and no step follows a crash (`dead`). Protocols between several processes are
state machines over their single operations, with theorems over every run. Hashes,
signatures and encryption are values: a digest is the thing it names, a signature is the key
that made it, and a sealed object opens under the key it was sealed with.

## Findings

Where the code does less than its documentation says, the model follows the code, a lemma
gives the failing input, and another gives the exact condition.

- **A rollback can wedge.** A crash after a promoted target's aside is moved back and before
  that is recorded leaves every later recovery refusing, with the old content intact
  (`StateDir.DieBeforeRecording`, `IntactUnlessLimbo`). It can happen to exactly those targets
  that exist, are replaced, and are not the last to be replaced (`LimboCanWedge`,
  `StateDir.WedgeFromPromotion`).
- **Carried-forward floors can lose events.** A compactor that has not consumed what lies
  below a floor it carries forward publishes a snapshot without those events and advances its
  own cursor past them, although a comment says everything the floors cover was consumed
  (`BlindCarryLosesAnEvent`). It can tell from its cursors: each must reach the carried floor
  less one (`PublishCoveredIffCaughtUp`; a store that imported a snapshot may hold more than
  its cursors say, so for it the check is sufficient only).
- **`floorsEqual` is not map equality.** It is called with the sealed document first, and a
  floor of zero there matches any missing device; neither the manifest's own floors nor their
  being at least 2 helps. Every manifest that lists a floor admits a different document, which
  recovery imports (`FloorsEqualIsEqualityIffNoZero`, `AnotherDocumentPassesIffNonEmpty`,
  `FloorsInForceAdmitAnotherDocument`, `AcceptsAnotherDocument`).
- **A lock body can extend its lock.** A comment says a writer cannot, because the backend's
  time decides; but the TTL that time is held against is the one the body claims
  (`ClaimExtendsTheLock`, `VerdictDependsOnClaimedTTL`).
- **The sweep lock's fail-safe is dead.** A lock without any age signal is documented never to
  be broken, but an unparsable body reads as acquired in 1970, not as the zero time, and so
  counts as stale (`FailSafeNeedsANegativeClock`). Two breakers of one stale lock can both
  hold it, and so can a sweeper past its TTL and the one that breaks its lock
  (`TwoBreakersBothSweep`, `OverrunIsBroken`); nothing else costs exclusion (`TimelyExclusion`).
- **The repository lock can be held twice** with one contender in the removal and no time
  passing: a lock that is gone counts as stale, and two half-written bodies are byte for byte
  equal (`ExclusionCanBeLost`). Exclusion holds in every run where no removal starts on a
  body a live process is still writing or beside another removal, and either can lose it
  (`LivePartialReadLosesExclusion`, `CrowdLosesExclusion`).
- **Rewrapping a shared env blob can dangle a pointer** when another project's replacement
  was captured but not pushed (`UnpushedReplacementDangles`). Undisturbed, pointers stay live
  exactly when the local rows back every active pointer on the hub that names the blob
  (`Workspace.RewrapBlob`). Captures write fresh ciphertext, so two projects share a blob only
  through events that already name the same one.
- **A revoke can bring an older draft back.** Superseded draft rows are re-announced with
  fresh clocks, so the draft rewrapped last becomes current (`OlderDraftComesBack`,
  `RewrapKeepsCurrentDraftIff`).
- **The env parser does not take back everything the printer writes**: it refuses printed
  values with a quote, or with a line break and a dollar or backtick (`ParserTakesBackIff`).

## Model

| member | source | states |
|---|---|---|
| `RestoreJournal.StateDir.WriteJournal` | internal/cli/restore_journal.go:47-82 | temp file, mode, write, sync, rename and directory sync may each fail or crash, and what is published is all of the new journal or nothing |
| `RestoreJournal.StateDir.Promote` | internal/cli/restore_journal.go:97-172 | cut anywhere, it leaves a disk recovery can work from; success means every staged target is new and no aside or journal is left; if nothing fails from its recovery on, it succeeds exactly when the commit record had landed, and else the old generation is back |
| `RestoreJournal.StateDir.Fail` | internal/cli/restore_journal.go:124-138 | the failure path: without further faults it completes exactly when the journal was all done, and otherwise undoes everything unless a target is wedged |
| `RestoreJournal.StateDir.PlanSwap` | internal/cli/restore_journal.go:97-123 | the journal describes every target before anything moves, and only then |
| `RestoreJournal.StateDir.MoveAsides` | internal/cli/restore_journal.go:140-150 | moving aside keeps the disk reversible at every cut, and no cut before the first promotion can wedge |
| `RestoreJournal.StateDir.PromoteTarget` | internal/cli/restore_journal.go:151-167 | a target is in place before it is recorded as done, at every cut |
| `RestoreJournal.StateDir.Recover` | internal/cli/restore_journal.go:177-309 | success is all old or all new in the direction the durable journal had fixed; the direction never changes; without faults it succeeds exactly when no target is wedged, so always in a restore with no target that can wedge |
| `RestoreJournal.StateDir.Validate` | internal/cli/restore_journal.go:195-229 | accepts only intact disks, touches nothing, and without faults accepts exactly those |
| `RestoreJournal.StateDir.ReverseTarget` | internal/cli/restore_journal.go:232-270 | a reversal cut anywhere stays reversible, and is recordable once it reports done |
| `RestoreJournal.StateDir.RollBack` | internal/cli/restore_journal.go:230-281 | only adds rollback marks, keeps the disk reversible, and when done has every target recorded; one failing step costs one target, all others are reversed and recorded |
| `RestoreJournal.StateDir.SweepAsides` | internal/cli/restore_journal.go:282-293 | rolling forward removes asides only, and none is left when it reports done |
| `RestoreJournal.StateDir.SwapThenRecover` | internal/cli/restore_journal.go:97-309 | a swap cut anywhere and any number of recoveries cut anywhere: a success leaves one generation, never a mix, and one that reports a rollback leaves the old one |
| `RestoreJournal.StateDir.DieBeforeRecording` | internal/cli/restore_journal.go:216-276 | the wedge: restored but unrecorded, recovery refuses and the old content is at home |
| `RestoreJournal.OldContentSurvives` | internal/cli/restore_journal.go:140-166 | until the journal is all done, every target's old content is at home or at its aside |
| `RestoreJournal.FlawedJournalIsRefused` | internal/cli/restore_journal.go:311-328 | any one flaw of a journal is enough to refuse it |
| `RestoreJournal.IntactUnlessLimbo` | internal/cli/restore_journal.go:204-229 | on any reachable disk recovery's checks fail exactly when a target is wedged |
| `RestoreJournal.LimboCanWedge` | internal/cli/restore_journal.go:216-228 | on any reachable disk a wedged target is one that existed, is replaced, and has a later replaced target not yet promoted |
| `RestoreJournal.StateDir.WedgeFromPromotion` | internal/cli/restore_journal.go:97-276 | every such target does wedge: promotion cut after it is recorded, then a recovery cut between its rename and its record |
| `RestoreJournal.RollbackMeasure` | internal/cli/restore_journal.go:230-281 | targets not yet recorded as reversed strictly decrease with every record; the commit decision is stable |
| `RestoreJournal.AllReversedIsOld` | internal/cli/restore_journal.go:230-281 | all recorded as reversed means exactly the pre-restore content and no asides |
| `CompactFloors.ComputeCompactFloors` | internal/cli/hub_compact.go:486-506 | base floors are cursor plus one for peers and push watermark plus one for this device |
| `CompactFloors.BaseFloorsCovered` | internal/cli/hub_compact.go:486-506 | a store with honest cursors has consumed everything below its base floors |
| `CompactFloors.BaseFloorsAreHighest` | internal/cli/hub_compact.go:486-506 | and claims nothing less than it could: no higher floor is covered, but for its own stream read beyond the push watermark |
| `CompactFloors.ReconcileCompactFloors` | internal/cli/hub_compact.go:515-566 | agrees exactly with a verified manifest that no base floor undercuts, carrying the rest forward, and names why it refuses |
| `CompactFloors.ReconcileRaisesFloors` | internal/cli/hub_compact.go:515-566 | agreed floors never lower or drop a floor of the manifest in force |
| `CompactFloors.VerifiedIsSignedByProducer` | internal/cli/hub_compact.go:515-534 | in a fleet that knows its keys, a manifest verifies exactly when this device or an approved one produced it and its own key signed it |
| `CompactFloors.CoveredUnlessBlind` | internal/cli/hub_compact.go:559-563 | published floors are covered exactly when the store consumed what lies below each floor it only carries forward |
| `CompactFloors.CoveredIffCursorsReach` | internal/cli/hub_compact.go:486-563 | the same as a check on cursors: for a store that consumed exactly up to them, covered exactly when each carried floor is at most 1 or one above the cursor or push watermark |
| `CompactFloors.PlanTombstoneGC` | internal/cli/hub_compact.go:389-447 | ready exactly when every approved peer has a verified ack, with the least watermark over all of them; other acks neither pin nor advance it |
| `CompactFloors.SnapshotStore.Prune` | internal/cli/hub_compact.go:589-618 | keeps the referenced object and exactly keep-1 others, deletes the rest, and nothing pruned is newer than a kept unreferenced object |
| `CompactFloors.ChooseKept` | internal/cli/hub_compact.go:598-610 | the kept set has the stated size and is newest first |
| `CompactFloors.KeptAreNewest` | internal/cli/hub_compact.go:596-610 | whatever the marking loop leaves out is no newer than what it marks |
| `Retention.CasStepExtendsChain` | internal/cli/hub_compact.go:257-313 | only a compare-and-swap on the manifest that was read changes what is in force; the winner raises floors, drops no device and carries its predecessor |
| `Retention.StepStaysOnChain` | internal/cli/hub_compact.go:257-313 | manifests form one monotone hash chain under every interleaving |
| `Retention.DraftIsOwn` | internal/cli/hub_compact.go:218-284 | a published draft is signed with its producer's key over the manifest it read, and names a snapshot sealed from its own store with the very floors it lists |
| `Retention.ConsumesOnlyWhatIsServed` | internal/cli/snapshot_recovery.go:17-110 | a store comes to hold an event only by pushing it, by pulling what the hub still has past a cursor no floor has overtaken, or by importing the snapshot in force, signed by its approved producer's own key |
| `Retention.StagesInOrder` | internal/cli/hub_compact.go:292-370 | a manifest is held only after an acknowledged swap over what was read, deletions follow its read back, cursors, reclaims and prunes follow the deletions, and a lost swap is tried again once |
| `Retention.StepKeepsGoneBelowFloors` | internal/cli/hub_compact.go:319-350 | any deleted event outside reclaimed streams lies below the floors in force |
| `Retention.StepDeletesBelowOrOfRevoked` | internal/cli/hub_compact.go:319-332 | a step deletes an event below the floors in force, or one in a stream its own actor holds revoked and has put a floor in force for |
| `Retention.NeverRevokedIsNeverReclaimed` | internal/cli/hub_compact.go:455-484 | over every run, a device nobody ever held revoked never has its stream reclaimed |
| `Retention.StepStaysSerialized` | internal/cli/hub_compact.go:204-213 | while no lock was taken over from a sweeper at work, passes are serialized and the referenced snapshot is present; reclaiming a dead sweeper's lock costs nothing |
| `Retention.ReclaimIsHarmless` | internal/cli/hub_compact.go:204-213 | taking over the lock of a sweeper no longer at work breaks nothing |
| `Retention.PublishCoveredIffSighted` | internal/cli/hub_compact.go:257-291 | a published snapshot covers its floors exactly when the store consumed what lies below the carried ones |
| `Retention.PublishCoveredIffCaughtUp` | internal/cli/hub_compact.go:486-563 | cursors that reach every carried floor make a publish covered, and for a store that never imported a snapshot only they do |
| `Retention.StepStaysBounded` | internal/cli/hub_compact.go:345-356 | every step but an import keeps a store from holding anything beyond its cursors |
| `Retention.CaughtUpRunIsSighted` | internal/cli/hub_compact.go:486-563 | so runs whose compactors look at their cursors first are sighted, and among runs without imports only those are |
| `Retention.StepStaysCovered` | internal/cli/hub_compact.go:345-356 | cursors stay honest and manifests covered through every step of a sighted run |
| `Retention.RunStaysSafe` | internal/cli/hub_compact.go:93-380 | the invariants over every run; what is deleted or was in force stays so |
| `Retention.SightedRunStaysCovered` | internal/cli/hub_compact.go:93-380 | over every sighted run the manifest in force is covered |
| `Retention.RunKeepsFloorsAboveOne` | internal/cli/hub_compact.go:486-506 | every floor put in force is at least 2 |
| `Retention.RetentionTheorem` | internal/cli/hub_compact.go:204-370 | over every interleaving from an empty hub: one chain; deletions below the floor for good, for every device nobody held revoked; the referenced snapshot present unless a lock was taken over from a sweeper at work, and covering what was deleted if publishes were sighted, in particular if cursors reached the carried floors |
| `Retention.ImportThenPullCatchesUp` | internal/cli/snapshot_recovery.go:17-30 | one import, then pulls the retention gate lets through: the device holds every pushed event outside reclaimed streams |
| `Retention.Uncontended` | internal/cli/hub_compact.go:209-332 | a compaction without contention goes through and is confirmed |
| `Retention.BlindCarryLosesAnEvent` | internal/cli/hub_compact.go:559-563 | a run in which a carried floor loses an event |
| `Retention.TakenOverLockLosesTheSnapshot` | internal/cli/hub_compact.go:589-618 | a run in which pruning under a lock taken over from a live sweeper deletes the snapshot put in force |
| `DurabilityMirror.ReconcileRetentionAdvance` | internal/cli/durability_export.go:225-258 | the verdict on two heads: already advanced, replaceable, or why neither |
| `DurabilityMirror.VerdictsMean` | internal/cli/durability_export.go:225-258 | already advanced means no floor or time behind; replaceable means none ahead and something behind |
| `DurabilityMirror.DominanceIsPreorder` | internal/cli/durability_export.go:218-258 | head dominance is a preorder on the floors the parser admits |
| `DurabilityMirror.DominatesTransitive` | internal/cli/durability_export.go:218-258 | and composes |
| `DurabilityMirror.NegativeFloorsBreakDominance` | internal/cli/durability_export.go:236-253 | with a negative floor it would not compose |
| `DurabilityMirror.FollowsTransitive` | internal/cli/durability_export.go:189-216 | a head that only strictly advances never regresses, however many swaps lie between |
| `DurabilityMirror.HeadNeverRegresses` | internal/cli/durability_export.go:189-216 | a later head has no lower floor, no earlier time and the same workspace, and something newer unless it is the same |
| `DurabilityMirror.MirroredFromThenOn` | internal/cli/durability_export.go:186-216 | a success stays a success whatever other exporters do |
| `DurabilityMirror.MirroredIsMadeUpFor` | internal/cli/durability_export.go:186-216 | and what was mirrored is made up for, floor by floor |
| `DurabilityMirror.Replica.Put` | internal/cli/durability_export.go:207-213 | the head changes only over the bytes that were read, and strictly advances |
| `DurabilityMirror.Replica.Mirror` | internal/cli/durability_export.go:189-216 | with rivals before every operation: the head never regresses, success means it dominates the manifest, and undisturbed it succeeds exactly for an absent, empty or comparable head |
| `DurabilityMirror.Replica.Export` | internal/cli/durability_export.go:84-180 | exported means verified, signed by the producer's own key, snapshot put on the replica before the head names it, mirrored and recorded; each failure is told apart, and declined means nothing changed |
| `SnapshotRecovery.CompareFloors` | internal/cli/snapshot_recovery.go:227-237 | same size and same values with zero as default |
| `SnapshotRecovery.FloorsEqualIsEqualityIffNoZero` | internal/cli/snapshot_recovery.go:226-237 | for the document, its first operand, that is map equality against every manifest exactly when the document has no zero floor |
| `SnapshotRecovery.AnotherDocumentPassesIffNonEmpty` | internal/cli/snapshot_recovery.go:183-186 | a manifest admits some document other than its own floors exactly when it lists any floor |
| `SnapshotRecovery.FloorsInForceAdmitAnotherDocument` | internal/cli/snapshot_recovery.go:183-191 | so do the floors in force after any run, and importing that document leaves a new device demanding a snapshot again |
| `SnapshotRecovery.AcceptsAnotherDocument` | internal/cli/snapshot_recovery.go:31-191 | a recovery that imports such a document |
| `SnapshotRecovery.EffectiveFloors` | internal/cli/snapshot_recovery.go:72-86 | the served floors raised to the verified ones |
| `SnapshotRecovery.TailCursor` | internal/cli/snapshot_recovery.go:95-104 | pointwise the greater of cursor and effective floor less one |
| `SnapshotRecovery.TailPassesUnlessFloorsMoved` | internal/cli/snapshot_recovery.go:88-110 | the tail pull is refused exactly when the hub raised a floor above everything served and verified |
| `SnapshotRecovery.WckCandidates` | internal/cli/snapshot_recovery.go:213-224 | the exact key first and every key held at the epoch: the hint orders and never excludes |
| `SnapshotRecovery.Store.AdvanceCursors` | internal/sync/snapshot_import.go:67-77 | cursors end as the pointwise maximum with floor less one, and never regress when cut |
| `SnapshotRecovery.Store.ImportSnapshot` | internal/sync/snapshot_import.go:39-79 | a complete import has the snapshot's state and cursors and raises the floor cache to it pointwise; one cut short leaves honest cursors and the cache as it was |
| `SnapshotRecovery.Store.CacheRetentionFloor` | internal/sync/snapshot_import.go:285-303 | the cache becomes the pointwise maximum |
| `SnapshotRecovery.Store.RecoverFromSnapshot` | internal/cli/snapshot_recovery.go:31-211 | imports exactly when manifest, object, keys and document all check out; defers exactly when only the key is missing; otherwise changes no state |
| `SnapshotRecovery.AcceptableIsGenuine` | internal/cli/snapshot_recovery.go:31-186 | so only what the producer's own key signed, about its own snapshot, sealed under a key held at its epoch, is ever imported |
| `SnapshotRecovery.PublishedIsAcceptable` | internal/cli/snapshot_recovery.go:31-186 | and over every run, what a compactor publishes is accepted by every device that approved it and holds its key |
| `SnapshotRecovery.Store.RecoverRepeatedly` | internal/cli/snapshot_recovery.go:69-86 | over any number of recoveries the cache only rises, and the floors a later one works with are at least every floor ever imported, whatever the hub serves |
| `SnapshotRecovery.RecoveryLeavesNoGap` | internal/cli/snapshot_recovery.go:88-191 | after import and pull exactly the deleted events that neither store nor snapshot holds are missing, none outside reclaimed streams |
| `SnapshotRecovery.RecoveryTheorem` | internal/cli/snapshot_recovery.go:17-30 | after every run of the hub whose publishes were sighted, a device that may import does so and pulls, step by step, and then holds every pushed event outside reclaimed streams, so every one of a device nobody held revoked |
| `SweepLock.StepStaysExclusiveIffNotUsurping` | internal/cli/hub_sweeplock.go:66-120 | exclusion is lost exactly when a stale break lands under a sweeper in the lock; a release deletes only its own body |
| `SweepLock.MutualExclusion` | internal/cli/hub_sweeplock.go:66-120 | at most one sweeper in every run without such a break |
| `SweepLock.NoBreakNoUsurping` | internal/cli/hub_sweeplock.go:85-120 | runs in which nobody takes the stale branch are such runs |
| `SweepLock.BreaksIffOverdue` | internal/cli/hub_sweeplock.go:85-106 | a sweeper breaks the lock it read exactly when by its own clock it is past its reference time and TTL |
| `SweepLock.DoubtGivesUp` | internal/cli/hub_sweeplock.go:60-84 | even after a break, a release deletes only what it read back as its own, and a write not acknowledged is never taken for granted |
| `SweepLock.TimelyRunsDoNotUsurp` | internal/cli/hub_sweeplock.go:85-149 | with stale breaks too: if no clock puts a sweeper at work past its TTL and one sweeper breaks at a time, every break removes an abandoned lock |
| `SweepLock.TimelyExclusion` | internal/cli/hub_sweeplock.go:66-149 | so at most one sweeper holds the lock in such runs |
| `SweepLock.Reclaimable` | internal/cli/hub_sweeplock.go:85-149 | an abandoned lock with an age signal is reclaimed after enough time, and a free one taken at once |
| `SweepLock.ReleaseFrees` | internal/cli/hub_sweeplock.go:60-84 | a sweeper that still has its lock gives it back |
| `SweepLock.TwoBreakersBothSweep` | internal/cli/hub_sweeplock.go:108-119 | a run with two breakers of one stale lock and two holders |
| `SweepLock.OverrunIsBroken` | internal/cli/hub_sweeplock.go:108-149 | a run with a single breaker and two holders, the first past its TTL |
| `SweepLock.EventuallyStaleIffAged` | internal/cli/hub_sweeplock.go:133-149 | a lock becomes stale at some time exactly when it has an age signal, and then just after its TTL |
| `SweepLock.PackedTimeReadsBack` | internal/sync/sweeplock.go:61-69 | a packed hybrid clock reads back as its time, whatever its logical part |
| `SweepLock.ClaimedTTL` | internal/cli/hub_sweeplock.go:137-141 | a positive claim of at most 292 years stands; none, or one that wraps below zero, means an hour |
| `SweepLock.VerdictDependsOnClaimedTTL` | internal/sync/sweeplock.go:57-59 | with a backend time two bodies are judged alike at all times exactly when they claim the same TTL |
| `SweepLock.ClaimExtendsTheLock` | internal/cli/hub_sweeplock.go:137-149 | so a claim in the body does extend a lock, by up to 292 years, although the comment at lines 28-31 says a writer cannot |
| `SweepLock.FailSafeNeedsANegativeClock` | internal/cli/hub_sweeplock.go:133-149 | the branch that never breaks a lock is out of reach for non-negative clocks |
| `BlobRewrap.PointerAfterPush` | internal/cli/blob_gc.go:345-369 | after any push a pointer is what it was or the newest event for it |
| `BlobRewrap.DeleteSafeIffSuperseded` | internal/cli/blob_gc.go:336-369 | deleting the old blob keeps every pointer live exactly when each active slot naming it was superseded |
| `BlobRewrap.UnpushedReplacementDangles` | internal/cli/blob_gc.go:93-146 | a run of the store: two projects share a blob, one is captured again but not pushed, and rewrapping the blob dangles its pointer |
| `BlobRewrap.Workspace.RewrapHubCleanup` | internal/cli/blob_gc.go:336-369 | put, push, delete: live pointers after every prefix, any step failing |
| `BlobRewrap.Workspace.SupersedeAndRepoint` | internal/cli/blob_gc.go:116-131 | every row to be superseded gets its event, and only such rows, before all rows are repointed |
| `BlobRewrap.Workspace.ReadBlob` | internal/cli/blob_gc.go:98-110 | the old ciphertext is had exactly when cached or still on a hub that answers |
| `BlobRewrap.Workspace.RewrapBlob` | internal/cli/blob_gc.go:93-202 | pointers stay live at every exit when the store has seen every claim on the blob; a skipped blob changes nothing; an env rewrap announces only profiles of active projects; undisturbed, the old blob is gone or queued, and every pointer stays live exactly when the rows before the call backed each active pointer naming the blob |
| `BlobRewrap.Workspace.PushPending` | internal/cli/sync.go:740-777 | blobs before events before watermark keeps pointers live when cut |
| `BlobRewrap.Workspace.DrainPendingHubDeletes` | internal/cli/blob_gc.go:273-297 | after a full push, deletes only queued blobs no row names, and no live pointer dangles |
| `BlobRewrap.Workspace.Sync` | internal/cli/sync.go:740-792 | push then drain, safe at every exit; undisturbed the queue is emptied |
| `BlobRewrap.LastRewrappedBecomesCurrent` | internal/cli/blob_gc.go:150-202 | after the pass a project's current draft is its blob that came last |
| `BlobRewrap.RewrapKeepsCurrentDraftIff` | internal/cli/blob_gc.go:67-84 | so the current draft keeps its content exactly when that blob holds it |
| `BlobRewrap.OlderDraftComesBack` | internal/state/store.go:2504-2524 | two drafts, the newer rewrapped first: the older becomes current |
| `EncryptedPull.Candidates` | internal/workspacekeys/keyring.go:157-173 | the keys held at an epoch, or the hinted one of them |
| `EncryptedPull.JudgeSealed` | internal/sync/encryptedhub.go:397-513 | a sealed event is opened exactly when its key is held at its epoch, whatever its key-id hint says; the hint and the grace only choose between waiting and quarantine |
| `EncryptedPull.ExpiryOnlyQuarantines` | internal/sync/encryptedhub.go:545-609 | as graces run out an event only moves from waiting to quarantine |
| `EncryptedPull.OpenGraceWaits` | internal/sync/encryptedhub.go:322-495 | while every grace is open an event waits exactly when an upgrade or a grant may still open it |
| `EncryptedPull.ClosedGraceNeverWaits` | internal/sync/encryptedhub.go:545-609 | once all have run out nothing holds a stream back |
| `EncryptedPull.Pull` | internal/sync/encryptedhub.go:250-531 | every grant in the batch counts wherever it stands; the counters are clear exactly when every event can be read, and then the whole batch is handed on in order and in plain |
| `EncryptedPull.NothingIsLost` | internal/sync/encryptedhub.go:114-139 | every event served is handed on, skipped or held back, and counted once |
| `EncryptedPull.OnlyAuthenticIsOpened` | internal/sync/encryptedhub.go:515-528 | nothing is opened but a grant or an untampered event whose key is held; quarantined carriers stay sealed |
| `EncryptedPull.StreamsAreIndependent` | internal/sync/encryptedhub.go:223-236 | each device's share of a pull is what pulling its stream alone gives: one stuck stream holds back no other |
| `EncryptedPull.TailIsHeldBack` | internal/sync/encryptedhub.go:289-304 | behind a deferred event nothing of its device is handed on, and all of it is counted |
| `EncryptedPull.ResumedIsWhole` | internal/sync/encryptedhub.go:223-236 | once the keys are there, resuming at the deferred event completes the stream, nothing lost or twice |
| `HubGC.RefuseIfIncompleteView` | internal/cli/hub.go:964-1055 | passes exactly when every completeness signal is clear |
| `HubGC.EverySignalRefuses` | internal/cli/hub.go:964-1055 | each signal alone refuses, for the sweep and for compaction |
| `HubGC.PassingGateSawTheBatch` | internal/cli/hub.go:994-1003 | past the gate the last pull handed on everything the hub served, in order and in plain |
| `HubGC.OmissionBlocksOnlyTheSweep` | internal/cli/hub.go:956-963 | an open omission alarm blocks the sweep, and compaction exactly as if it were absent |
| `HubGC.PruningKeepsRetained` | internal/state/store.go:2656-2664 | pruning keeps every retained reference, so preview and real run mark alike; a project's newest draft is always retained |
| `HubGC.RetainedIffNewest` | internal/state/store.go:2656-2664 | what is retained is what env bindings name and each project's newest drafts, as many as asked for but at least one |
| `HubGC.Hub.SweepOne` | internal/cli/hub.go:1115-1160 | a blob is asked for only if unreferenced and aged at listing and again at the second look |
| `HubGC.Hub.SweepAll` | internal/cli/hub.go:1113-1163 | with peers re-putting blobs: the counts account for the whole listing, and whatever is asked for or counted was unreferenced and known to be old enough at both looks; with none about, nothing else is gone |
| `HubGC.SweepableIffOld` | internal/cli/hub.go:1122-1148 | a blob may go exactly when unreferenced and, with a grace, of a known age of at least that |
| `HubGC.UnknownAgeIsKept` | internal/cli/hub.go:1125-1128 | no clock makes a blob of unknown age sweepable |
| `HubGC.SweepableUntilTouched` | internal/cli/hub.go:1122-1148 | what may go stays so while untouched, and a re-put brings it back |
| `HubGC.Store.Sweep` | internal/cli/hub.go:1072-1163 | nothing touched on an incomplete view, no retained reference loses its blob, and undisturbed a dry run names exactly what a real run deletes |
| `OwedRotation.PendingIffStillMarked` | internal/cli/revoke_containment.go:28-97 | over any history of the record a device is pending exactly when marked and not since cleared by name, dropped or garbled, with the time of the first such mark |
| `OwedRotation.GarbledIffNotRestarted` | internal/cli/revoke_containment.go:28-97 | a garbled record stays so, whatever is cleared by name, exactly until a mark or a whole clear; otherwise a record present names somebody |
| `OwedRotation.DeviceStore.Rotate` | internal/workspacekeys/keyring.go:358-411 | a completed rotation grants exactly the approved devices, so excludes every revoked one; a failed one excludes nobody |
| `OwedRotation.DeviceStore.RotateOnRevoke` | internal/cli/devices.go:906-943 | reports the rotation accounted for only when done, durably owed, or moot for lack of a key |
| `OwedRotation.DeviceStore.RevokeDevice` | internal/cli/devices.go:347-459 | the first write alone decides the trust, whatever the markers hold, and makes the device pending until its rotation is accounted for; no other entry changes, and nothing owed is forgotten at any cut |
| `OwedRotation.DeviceStore.ApplyRemote` | internal/state/wck_rotation.go:61-75 | takes effect whole or not at all: a peer's revoke moves the device out of the approved ones and, if new, arms the marker unless there is no key; a marker already there is left alone; a grant raises the epoch |
| `OwedRotation.DeviceStore.MaybeRotate` | internal/cli/sync.go:603-671 | either marker forces a rotation, and only an own completed one clears; the cycle goes on without one only with a marker left to retry or nothing owed |
| `OwedRotation.DeviceStore.ResumeContainment` | internal/cli/revoke_containment.go:111-158 | clears the row only once the rotation is accounted for, an unreadable one whole |
| `OwedRotation.DeviceStore.SyncCycle` | internal/cli/sync.go:180-217 | undisturbed, everything pulled takes effect, and either marker or a first revoke that was pulled leads to one own rotation that excludes every revoked device; with none of them and a young key nothing rotates |
| `OwedRotation.DeviceStore.KeysRotate` | internal/cli/keys.go:49-78 | a manual rotation settles every revoke so far; undisturbed and with a key it succeeds and clears the marker |
| `OwedRotation.DeviceStore.Run` | internal/cli/wck_rotation.go:22-60 | over every command sequence with crashes and garbled rows, each revoked device is settled or a marker is present |
| `RepoLock.IdentityIsExact` | internal/cli/repo_lock.go:219-231 | with a recorded start time and a working lookup the identity check is exact, otherwise it errs towards keeping the lock |
| `RepoLock.UnparsableIsJudgedByAge` | internal/cli/repo_lock.go:149-179 | a lock whose body does not parse is stale exactly when its file is more than half an hour old |
| `RepoLock.StepStaysExclusive` | internal/cli/repo_lock.go:121-213 | every step but two kinds keeps the lock exclusive, and a removal only ever takes a dead holder's file |
| `RepoLock.MutualExclusion` | internal/cli/repo_lock.go:74-213 | at most one live process in the lock, its own file in place at any age, in every run where no removal starts on a live process's half-written body or beside another removal |
| `RepoLock.LivePartialReadLosesExclusion` | internal/cli/repo_lock.go:181-213 | from any such read two live holders can follow, with no time passing and no other contender |
| `RepoLock.ExclusionCanBeLost` | internal/cli/repo_lock.go:149-213 | a run from an empty directory that ends with two live holders |
| `RepoLock.CrowdLosesExclusion` | internal/cli/repo_lock.go:181-213 | from any two contenders entering the removal of a dead holder's lock, two live holders can follow |
| `RepoLock.CrowdCanLoseExclusion` | internal/cli/repo_lock.go:121-213 | and such a run exists from an empty directory |
| `RepoLock.DeadHoldersLockIsAcquired` | internal/cli/repo_lock.go:74-105 | a dead or pid-reused holder's lock, or a half-written one past the window, is acquired |
| `BackupArchive.SanitizedIsInLayout` | internal/cli/db_backup.go:603-626 | an accepted entry lands in the layout, at most two deep, whatever it is called |
| `BackupArchive.LayoutIsSanitized` | internal/cli/db_backup.go:603-626 | the names of the layout are accepted unchanged |
| `BackupArchive.LayoutIsShallow` | internal/cli/db_backup.go:603-626 | a name in the layout is one or two plain components, so leads nowhere else |
| `BackupArchive.ExtractBackupTar` | internal/cli/db_backup.go:565-601 | succeeds exactly for intact archives of regular, acceptable, pairwise distinct entries, and stages exactly those |
| `BackupArchive.VerifyBackupManifest` | internal/cli/db_backup.go:628-682 | succeeds exactly when listed files, sizes, digests, required and unlisted files all check out |
| `BackupArchive.ExtractedIsInLayout` | internal/cli/db_backup.go:561-601 | nothing extracted lies outside the layout |
| `BackupArchive.AcceptedStage` | internal/cli/db_backup.go:628-682 | an accepted stage holds exactly the listed files and the manifest, each with its recorded size and digest |
| `BackupArchive.Writer.AddBlobs` | internal/cli/db_backup.go:350-375 | succeeds exactly when every reference is well formed, present and matches its content address |
| `BackupArchive.WriteBackupTar` | internal/cli/db_backup.go:305-405 | an archive is produced exactly when every source is readable, and lists exactly those |
| `BackupArchive.WrittenRestoresIff` | internal/cli/db_backup.go:305-405 | a written archive restores exactly when its names are acceptable and distinct and the required files are listed |
| `BackupArchive.RoundTrip` | internal/cli/db_backup.go:305-405 | with distinct references, distinct single-component key names and the device's key files it extracts, verifies and returns every content |
| `BackupArchive.LawfulCodecExists` | internal/cli/db_backup.go:377-405 | a manifest form that reads back as written exists, for any digest |
| `BackupArchive.MissingBlobRefs` | internal/cli/db_backup.go:249-266 | collects exactly the absent references, and reports any other failure as such |
| `BackupArchive.SnapshotAndEnumerate` | internal/cli/db_backup.go:195-242 | the archived references are those of one snapshot whose every blob was there; a reference is missing only after every attempt |
| `Dotenv.RenderDotenv` | internal/cli/env.go:596-605 | prints the specified text |
| `Dotenv.QuoteDotenv` | internal/cli/env.go:614-649 | prints the specified quoting |
| `Dotenv.SingleQuotedIsShellWord` | internal/cli/env.go:621-623 | the single-quoted form is a shell word for its value, by sections 2.2.1 and 2.2.2 of the POSIX.1-2017 Shell Command Language |
| `Dotenv.EscapesDecode` | internal/cli/env.go:624-648 | the double-quoted form decodes to its value, without shell escapes exactly when it has no dollar or backtick |
| `Dotenv.RenderedLines` | internal/cli/env.go:596-605 | exactly one physical line per binding |
| `Dotenv.RenderedDecodes` | internal/cli/env.go:596-649 | the printed file decodes to the list of bindings |
| `Dotenv.ParserTakesBackIff` | internal/envfile/parse.go:103-159 | the repository's parser returns a printed value exactly for the stated values and refuses all others |
| `Dotenv.ParserTakesBackLineIff` | internal/envfile/parse.go:74-101 | the same for a whole line; the name must also not be dangerous |
| `ChildEnv.Build` | internal/childenv/childenv.go:23-77 | succeeds exactly when every set name is valid and not dangerous, and then returns one list whatever order the maps are walked in |
| `ChildEnv.ReadEnvironment` | internal/childenv/childenv.go:23-77 | read last-wins: the caller's value, else for a safe allowed name what the parent would read, else nothing |
| `ChildEnv.EnvironmentIsSafe` | internal/childenv/childenv.go:23-77 | no dangerous or malformed name appears and no inherited name is repeated |
| `ChildEnv.InheritedIsAllowed` | internal/childenv/childenv.go:35-60 | exactly the usable base names that match an allow entry or prefix are inherited |
| `ChildEnv.BaseMapReads` | internal/childenv/childenv.go:24-31 | the base map is what a process would read, restricted to safe names |
| `ChildEnv.DangerousIgnoresCase` | internal/childenv/childenv.go:94-126 | case does not disguise a dangerous name |
| `Names.AscendingUnique` | internal/childenv/childenv.go:46-72 | an ascending listing is determined by its names, so sorting removes map order |

## Left out

- SweepLock.MutualExclusion: for runs in which stale breaks land only when nobody is in the lock, because the read-then-delete window of a stale break can lose it; TimelyExclusion gives the runs with stale breaks that qualify, and those without any are a special case.
- RepoLock.MutualExclusion: for same-host processes that record a start time, because locks of other hosts and locks without a start time are judged by age alone, and for runs without the two steps shown to lose the lock.
- RecoveryTheorem: needs sighted publishes and covers devices whose stream was not reclaimed, because a blind publish and the reclaiming of a revoked device's stream do lose events.
- SnapshotRecovery.Store.ImportSnapshot: the row-by-row merge of the snapshot is one transaction that adds the events it covers; per-row last-writer-wins is not modelled.
- PublishCoveredIffCaughtUp: the converse is for stores that never imported a snapshot, because an import can leave a store holding more than its cursors say.
- RewrapBlob: liveness at every exit needs a store that has seen every claim on the blob; reading a blob's bytes, decrypting and re-encrypting are outcomes given to the call.
- EncryptedPull.Pull: ciphers, grant verification and the stores behind the grace clocks are values; the events' own hash chain and the cursor kept by applying them are not part of this model.
- HubGC.RefuseIfIncompleteView: the durable skip, wait and conflict tables are read as they stand; only the pull's own counters are tied to the log.
- HubGC.Hub.SweepOne: a blob re-put between the second look and the delete is still deleted, as in the code.
- BackupArchive.RoundTrip: sanitising enters the file operations as a function value and is tied to the modelled sanitiser by `Codec.Lawful`; digests are compared as recorded, so it says nothing about collisions.
- ChildEnv.Build: trims and upper-cases ASCII only (plus the two Latin-1 spaces); which bad name is reported depends on map order.
- Dotenv.RenderedDecodes: values are code points; bytes that are not UTF-8 are replaced by the printer and are not part of this model.
- ParserTakesBackLineIff: one line in literal mode; the size limit, duplicate names and the interpolation check are not modelled.
- Mirror: the export schedule is left out.
- The order of a cut's effects below one rename, removal, journal write or transaction.
- Ack deletion, secret flags and blob rewraps inside the revoke and sync commands are steps that succeed, fail or crash, without their own effects.
- Event application, last-writer-wins merging of namespace rows and event hash chains: a store is the set of events it consumed.
- Applying a peer's env or draft event to the local rows between rewraps; only its effect on the hub is modelled.
- The local blob cache sweep, lock clearing by force, the age fallback of foreign-host locks, restore completeness against the archived database, and the manifest-less legacy restore: easy, or resting on code that is not part of this model.
- Command-line wiring, rendering, configuration parsing, doctor checks, and hub backends.
- Hostile hubs: the hub keeps its contract of create-only puts, compare-and-swap and deletion below floors.
- Saturation of time differences, except in the sweep lock's staleness.
