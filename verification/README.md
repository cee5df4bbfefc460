# Maki, modelled and proved

Maki is a crash-consistent encrypted block store. This project models the parts its
promises rest on and proves those promises for every run, every failing I/O step and
every crash point. Ciphertext is opaque bytes throughout.

How disks are modelled. For every record cell, file length, header, directory entry,
slot, discard bit, register, manifest slot, arena slot and catalog the model keeps the
set of values a power loss may reveal. A write adds to the set; a successful sync
settles what is dirty; a failed file sync settles nothing and yet leaves everything
clean, so a later sync no longer covers it. A directory sync that fails settles nothing
and is covered by the next one. Every I/O step may fail; writes, truncations, registers
and most unlinks may fail with or without effect (the exception is under "Left out").
Stateful classes record what a crash would find after each step in a ghost trace, and
their `Valid` says all of it is safe; since every method keeps `Valid`, this is a
statement about whole runs.

| module | what it models |
|---|---|
| `Records` | records, the history of a volume, and what a unit reads |
| `SegmentFile`, `JournalDisk`, `JournalSteps` | segment files and the journal directory under crashes; the crash-safety invariant and the steps that keep it |
| `JournalScan` | the journal scan of recovery at record level |
| `Framing`, `ByteScan`, `Bodies` | the record format and the streaming segment scan at byte level, and its agreement with the record-level scan |
| `Journal` | the journal writer |
| `Overlay`, `Slots`, `Volume` | overlay, slots with discard bits, and the volume with its three-phase checkpoint |
| `JournalRecovery`, `Replay`, `Recovery` | recovery, replay in batches |
| `System` | whole runs: operations, crashes, recoveries |
| `Cache`, `Engine` | the versioned plaintext cache, admission and the cached read path |
| `ShardFiles`, `Catalog` | shard files, their creation and adoption, and the shard catalog |
| `Pages`, `Arena`, `Rollback`, `Sessions` | the copy-on-write rollback backing and its local witness; whole runs of it |
| `Namespaces`, `Authority` | the remote freshness authority |
| `Latency` | the latency histogram of the benchmark |
| `Sums` | totals over maps |

The main results:

- `System.Run`: over any run of operations, crashes and recoveries, each unit reads as
  the fold of a contiguous history that starts with everything acknowledged and holds
  only what was asked for; recovery never refuses what a crash can leave, and refuses
  every journal that lost an acknowledged record above the checkpoint but not its proof.
- `Journal`: durability under a lying `fdatasync`, and the writer's own audit after
  every operation, failed ones included.
- `Volume`: checkpoints are invisible to readers, and promote-before-publish is exactly
  what keeps the only durable copy; the reverse order is refuted by a concrete run.
- `Recovery`: batched replay refines record-by-record replay and may be interrupted
  anywhere.
- `Engine`: the overlay and unsynced-tail limits hold in every state; cached reads equal uncached reads.
- `Sessions.Run`: over any run of operations, failed commits, crashes and reopenings,
  what is reopened is the last manifest committed before the last operation or the one
  that operation had in flight; once it has returned, exactly what it committed, synced
  names and all. `Rollback`: paged files refine flat byte files, the slot
  allocator cannot fail.
- `Authority`: no record value recurs, stale comparisons never succeed, old sessions are
  fenced, and the certified generation and epoch never fall.
- `Catalog`: the durable catalog names only shards with durable names and maps. That it
  names only shards whose data file has its full size for certain is false of the code:
  `persist_allocations` marks maps stored before it proves sizes, and
  `commit_adopted_maps` later proves only shards whose maps are not stored.
  `Catalog.UnprovenShardIsNamed` is the failing run, `Catalog.SlotStore.EnsureShard` says
  at which crash points the promise holds, and `ShardFiles.GuardIsExact` that the
  caller-side guard, no shard waiting with stored maps, is the exact one.
- `Latency`: the 33/32 quantile bound.

The comment on `check_invariants` of the volume (crates/maki-core/src/volume.rs:608-612)
says the overlay holds nothing at or below the checkpoint; the code tolerates such
versions after an interrupted checkpoint, and the model follows the code with its own
`retired` boundary.

Conventions. `Option`/`bool` results stand for the source's error returns; which of the
possible errors it was is not kept. A nondeterministic `bool` stands for an I/O result
or a freshness refusal; free-space and journal-size tests are parameters. CRC-32 at record level,
SHA-256 digests, the journal fingerprint and hashed tokens are taken as injective.
Preconditions named `Valid`, `Safe`, `Up` or `Down` are object invariants that
constructors establish and every method keeps; ghost parameters only serve proofs.

## Model

| member | source | states |
|---|---|---|
| `System.Run.constructor` | crates/maki-core/src/volume.rs:88-140 | A freshly formatted volume: empty history, every unit reads zero, nothing acknowledged, nothing asked for. |
| `System.Run.Promise` | crates/maki-core/src/volume.rs:279-606 | The client contract, in every reachable state of every run: each unit reads as the fold of one contiguous history, that history starts with all that was ever acknowledged, and every record in it carries a unit and content that some request named. |
| `System.Run.Do` | crates/maki-core/src/volume.rs:279-606 | Any write, discard, flush or checkpoint step, in any order, failing at any I/O step: the run invariant holds, the history only grows, an answered write is its last record, an answered FUA write or FLUSH leaves the whole history durable, an answered discard leaves the unit reading zero, durably so with FUA. |
| `System.Run.Return` | crates/maki-core/src/volume.rs:394-400 | Once an operation has returned, all that is durable counts as acknowledged, and acknowledged records are never given up. |
| `System.Run.Crash` | crates/maki-core/src/volume.rs:279-606 | The machine may stop between any two I/O steps of the last operation: what is left is a safe crash point that still holds everything acknowledged and nothing nobody asked for, and every durable proof it may show demands all acknowledged records above the checkpoint. |
| `System.Run.Attach` | crates/maki-core/src/recovery.rs:176-328 | Recovery from any disk such a crash can leave: it ends up running or down at another safe point, possibly interrupted itself, and the acknowledged history is a prefix of what follows; at no point of it does the proof stop demanding the acknowledged records. |
| `System.LossNeverPasses` | crates/maki-core/src/recovery.rs:592-880 | In every down state of every run: an image of the journal, damaged in any way, that lacks one acknowledged record above the checkpoint but still has its proof register is not acceptable, so recovery refuses it instead of starting from an older state. |
| `System.Format` | crates/maki-core/src/volume.rs:88-140 | The formatted state satisfies the volume invariant with an empty history. |
| `Volume.Volume.constructor` | crates/maki-core/src/volume.rs:88-140 | The volume recovery returns: checkpoint, durable boundary and history end coincide, and the invariant holds. |
| `Volume.Volume.WriteCt` | crates/maki-core/src/volume.rs:279-321 | `write_ct`: the history stays or gains exactly this record as its last; success returns its sequence; success with FUA means it is durable; the durable boundary never moves back; the overlay takes in at most the payload and one unit; every crash point on the way is safe; an answered write had its shard reserved and synced first. |
| `Volume.Volume.DiscardCt` | crates/maki-core/src/volume.rs:325-375 | `discard_ct`: success only on a discard-capable volume, and then the unit reads zero, durably so with FUA; at most one tombstone is appended. |
| `Volume.Volume.DiscardRecord` | crates/maki-core/src/volume.rs:355-374 | The tombstone path of a discard: one empty record, after which the unit reads zero; with FUA the newest record of the unit is durable. |
| `Volume.Volume.ReclaimUnwritten` | crates/maki-core/src/volume.rs:381-391 | `reclaim_unwritten` skips the journal exactly for the units that read zero (on a volume with discards), never for one that holds data, and an unjournaled skip is already durable. |
| `Volume.Volume.Flush` | crates/maki-core/src/volume.rs:394-400 | `flush`: success means every record of the history is durable; failure never moves the durable boundary back. |
| `Volume.Volume.Barrier` | crates/maki-core/src/volume.rs:309-318 | The FUA barrier: success means the named sequence is durable, and the overlay has seen it. |
| `Volume.Volume.JournalAndPublish` | crates/maki-core/src/volume.rs:296-308 | Append, promote, publish: the overlay stays the exact image of the history even when the append rolled and made older records durable. |
| `Volume.Volume.ReserveSlot` | crates/maki-core/src/store.rs:666-699 | `reserve_slot`: on success exactly the unit's shard is synced; a failed sync is counted; neither harms a crash point or a checkpoint under way. |
| `Volume.Volume.ReadCt` | crates/maki-core/src/volume.rs:420-435 | `read_ct` never reports damage and returns exactly the newest record of the unit in the whole history, whatever phase a checkpoint is in and however half-written its slots are. |
| `Volume.Volume.CurrentSequence` | crates/maki-core/src/volume.rs:407-416 | `current_sequence` is exactly the sequence `read_ct` returns. |
| `Volume.Volume.ReadsAsFold` | crates/maki-core/src/volume.rs:420-435 | What a unit reads equals the record-by-record fold of the history, tombstones included. |
| `Volume.Volume.CheckInvariants` | crates/maki-core/src/volume.rs:613-636 | Every valid state passes the volume audit: checkpoint at or below the durable boundary, the journal audit, the overlay audit, and no overlay version beyond the appended sequence. |
| `Volume.OverlayAudit` | crates/maki-core/src/overlay.rs:241-310 | The overlay audit (durable never leads latest nor the boundary, everything below the boundary is promoted, pending entries name live units above it) follows from the overlay tracking the history. |
| `Volume.Volume.OverlayIsExact` | crates/maki-core/src/overlay.rs:94-213 | A unit is in the overlay if and only if its newest record is above the retired checkpoint; its durable version is exactly its newest record at or below the durable boundary, if that is above it too. |
| `Volume.Volume.PrepareCheckpoint` | crates/maki-core/src/volume.rs:448-473 | `prepare_checkpoint`: the horizon is the durable boundary, and the plan holds exactly the newest durable version of every unit above the retired checkpoint. |
| `Volume.Volume.WriteHeader` | crates/maki-core/src/volume.rs:69-83 | A slot whose header is written and whose payload is not yet: no reader and no crash can tell. |
| `Volume.Volume.WritePayload` | crates/maki-core/src/volume.rs:69-83 | The payload of the slot: the item counts as copied and waits for its shard sync. |
| `Volume.Volume.SyncPlanShard` | crates/maki-core/src/volume.rs:69-83 | The shard sync of a plan: success settles that shard, failure abandons the plan; both are safe. |
| `Volume.Volume.FinishCheckpoint` | crates/maki-core/src/volume.rs:478-606 | `finish_checkpoint`: history and durable boundary are unchanged, the checkpoint becomes the old value or the horizon and never moves back, success retires up to exactly the horizon and leaves no sealed segment that the checkpoint covers, and no slot of a unit with a record above the horizon is touched. |
| `Volume.Volume.PersistPlan` | crates/maki-core/src/volume.rs:532-545 | Discard bits of a plan are marked and both map copies stored before the checkpoint may advance. |
| `Volume.Volume.StoreCheckpoint` | crates/maki-core/src/volume.rs:566-573 | The checkpoint register moves to the horizon or stays; at every point in between, the old and the new value both lead a crash to the same history. |
| `Volume.PublishSafe` | crates/maki-core/src/volume.rs:566-573 | With every item copied, synced and marked, and no reservation sync failed meanwhile, both checkpoint values are safe: advancing drops no only durable copy. |
| `Volume.Volume.PublishPlan` | crates/maki-core/src/volume.rs:546-606 | The whole publication, in the order of the code (register, punching, journal reclaim, retirement): wherever it stops, history, durable boundary and live slots are as before and the checkpoint is the old one or the horizon; success leaves no covered segment. |
| `Volume.Volume.FinishIdle` | crates/maki-core/src/volume.rs:499-530 | A checkpoint with nothing new only cleans up: the checkpoint value is unchanged, the overlay is retired to it and, on success, no covered segment is left and every crash shows the discard bits memory holds. |
| `Volume.Volume.RetireOverlay` | crates/maki-core/src/overlay.rs:184-213 | Retirement drops only what slots serve: reads are unchanged. |
| `Volume.Volume.MarkDiscards` | crates/maki-core/src/volume.rs:537-541 | After marking, exactly the tombstones among the items carry the discard bit, slots untouched. |
| `Volume.Volume.PersistDiscards` | crates/maki-core/src/store.rs:1056-1083 | Success means every crash reads the same discard bits memory holds. |
| `Volume.Volume.PunchSlots` | crates/maki-core/src/store.rs:1137-1177 | Hole punching touches only units whose certain discard bit already makes them read zero, and none with a record above the horizon; on success every crash shows all the named slots empty. |
| `Volume.Volume.PunchShard` | crates/maki-core/src/store.rs:1137-1177 | One shard of a punch and its sync, failing or not, keep the volume safe, the remaining punches allowed and the slots already freed empty; success frees exactly this group for certain. |
| `Volume.Volume.RetryReclamation` | crates/maki-core/src/store.rs:1090-1135 | Retried reclamation punches only stable discards and changes no live slot. |
| `Volume.PunchableOk` | crates/maki-core/src/volume.rs:546-564 | Every unit the checkpoint chooses to punch may be punched: its newest record is a persisted tombstone at or below the horizon. |
| `Volume.Volume.ReclaimJournal` | crates/maki-core/src/volume.rs:586-590 | Deleting covered segments: on success no sealed segment at or below the checkpoint is left, in memory or on disk; a failure in the middle of it leaves every crash point safe. |
| `Volume.Volume.Maintain` | crates/maki-core/src/volume.rs:439-606 | Flushes and all checkpoint phases, interleaved with anything: the history is unchanged, hence what every unit reads; checkpoint and durable boundary never move back; the overlay takes in nothing. |
| `Overlay.Overlay.Publish` | crates/maki-core/src/overlay.rs:94-112 | `publish`: the unit serves the new version, keeps its durable one, waits for promotion, and the byte counters stay exact sums. |
| `Overlay.Overlay.Promote` | crates/maki-core/src/overlay.rs:121-150 | `promote`: exactly the units whose latest version became durable move it to the durable side; pending entries up to the boundary are gone; the loop in sequence order equals that one-step description. |
| `Overlay.Overlay.Retire` | crates/maki-core/src/overlay.rs:184-213 | `retire`: versions at or below the checkpoint disappear, newer ones stay, counters stay exact. |
| `Overlay.PromoteExactly` | crates/maki-core/src/overlay.rs:121-150 | Promotion keeps the overlay exact if and only if every unit whose durable record changes was not overwritten above the new boundary: the precise condition under which nothing durable is dropped. |
| `Overlay.PublishFirstLoses` | crates/maki-core/src/volume.rs:296-308 | Publishing before promoting: a concrete run in which the only durable copy vanishes from the checkpoint. |
| `Overlay.PublishTracks` | crates/maki-core/src/overlay.rs:94-112 | Publishing the record just appended keeps the overlay exact. |
| `Overlay.PromoteTracks` | crates/maki-core/src/volume.rs:296-308 | As the volume uses it, promoting to the old or the newest boundary before publishing always meets the condition. |
| `Overlay.RetireTracks` | crates/maki-core/src/overlay.rs:184-213 | Retiring to a checkpoint at or below the durable boundary keeps the overlay exact above it. |
| `Overlay.PromoteTakesIn` | crates/maki-core/src/overlay.rs:121-150 | Promotion never raises the larger of held bytes and twice the latest bytes, nor the unit count. |
| `Overlay.PublishTakesIn` | crates/maki-core/src/overlay.rs:94-112 | Publishing raises that peak by at most twice the payload and the count by at most one. |
| `Overlay.RetireTakesIn` | crates/maki-core/src/overlay.rs:184-213 | Retirement raises neither. |
| `Journal.JournalWriter.Resume` | crates/maki-core/src/journal.rs:138-163 | A resumed writer: everything sealed, nothing active, and the invariant holds. |
| `Journal.JournalWriter.Append` | crates/maki-core/src/journal.rs:481-527 | `append`: success adds exactly one record with the next sequence, failure consumes none; the durable boundary is where it was or at the old end (a roll sealed the segment); only this record may have reached the disk; a segment exceeds the segment size only when it holds a single record. |
| `Journal.JournalWriter.Sync` | crates/maki-core/src/journal.rs:530-539 | `sync`: success makes every accepted record durable, failure none, and before the boundary moves, every proof a crash may show demands all of them (the invariant says so of every crash point recorded); a failed `fdatasync` that silently dropped pages is followed by a rewrite before the next one may succeed; remains of a failed segment creation are durably gone; the unsynced tail is then empty. |
| `Journal.JournalWriter.SyncActive` | crates/maki-core/src/journal.rs:268-336 | `sync_active`: cut the tail, rewrite what a failed sync may have dropped, sync, advance the proof, in that order; success leaves nothing unsynced. |
| `Journal.JournalWriter.RewriteVerifiedRange` | crates/maki-core/src/journal.rs:721-743 | `rewrite_verified_range`: on success every unsynced record is dirty again with its accepted content, so the following sync covers it; wherever it stops, no certain record is lost. |
| `Journal.JournalWriter.SyncData` | crates/maki-core/src/journal.rs:296-302 | A failed sync settles nothing and leaves the segment marked for rewrite; a successful one settles exactly the accepted records. |
| `Journal.JournalWriter.AdvanceProof` | crates/maki-core/src/journal.rs:307-322 | The durable proof moves only to a boundary whose records are settled, and on success every proof a crash may show demands all accepted records above the checkpoint; a new proof is on disk, alone, and names the last of them. |
| `Journal.JournalWriter.WriteMark` | crates/maki-core/src/journal.rs:340-355 | The advisory mark is added to what a crash may show and only ever vouches for a prefix that is certain. |
| `Journal.JournalWriter.SealActive` | crates/maki-core/src/journal.rs:360-367 | `seal_active`: success closes a fully durable segment and appends exactly it to the sealed list; failure leaves the list alone. |
| `Journal.JournalWriter.CleanupFailedCreation` | crates/maki-core/src/journal.rs:372-384 | `cleanup_failed_creation`: a half-created successor is removed before its index is used again. |
| `Journal.JournalWriter.Roll` | crates/maki-core/src/journal.rs:386-456 | `roll`: the predecessor is durable in full, named and sealed before its successor exists; the successor is empty, has the next index and starts at the next sequence; a failure leaves a writer that can retry. |
| `Journal.JournalWriter.CreateSegment` | crates/maki-core/src/journal.rs:398-414 | Creation of the successor: header and name are durable before the segment may be used. |
| `Journal.JournalWriter.CheckAppend` | crates/maki-core/src/journal.rs:460-475 | `check_append`: it admits whenever both counters have room, and a record that does not roll fits the segment or is its first. |
| `Journal.JournalWriter.WriteRecord` | crates/maki-core/src/journal.rs:493-527 | A record is accepted only after its bytes are in place, and the active segment then counts one record and its framed length more; until then its tail is marked for cleanup. |
| `Journal.JournalWriter.DeleteCovered` | crates/maki-core/src/journal.rs:684-714 | `delete_covered`: removes a prefix of the sealed list, only segments at or below the checkpoint, and on success all of them; what it removed from the list has lost its name; every stop in between is safe. |
| `Journal.CheckInvariants` | crates/maki-core/src/journal.rs:557-671 | The journal audit holds in every valid state: counters agree with the segment list, segments chain, sealed ones are durable, offsets and pending records agree. |
| `Journal.SealedDurable` | crates/maki-core/src/journal.rs:609-619 | A sealed segment lies wholly at or below the durable sequence. |
| `JournalDisk.CrashAccepted` | crates/maki-core/src/recovery.rs:592-880 | Whatever subset of volatile effects a power loss keeps of a crash-safe directory, the scan accepts it. |
| `JournalDisk.CrashRecord` | crates/maki-core/src/recovery.rs:592-880 | A record found after a crash was issued by some append, and at or below the durable boundary it is the accepted one. |
| `JournalDisk.CrashReaches` | crates/maki-core/src/recovery.rs:592-880 | The scan of a crash image reaches at least the durable boundary. |
| `JournalDisk.LinkSurvives` | crates/maki-core/src/recovery.rs:705-819 | After any crash each surviving segment still bridges from the checkpoint or continues its predecessor. |
| `SegmentFile.SyncOkKeeps` | crates/maki-core/src/journal.rs:268-336 | A successful sync keeps every record that was certain. |
| `SegmentFile.SyncFailedKeeps` | crates/maki-core/src/journal.rs:268-336 | A failed sync, dropping any dirty page, keeps every record that was certain. |
| `JournalSteps.ReplaceOpen` | crates/maki-core/src/journal.rs:268-336 | Any change of the open segment that keeps its certain records keeps the directory crash-safe. |
| `JournalSteps.RemoveCovered` | crates/maki-core/src/journal.rs:684-714 | Removing a segment the checkpoint covers keeps the directory crash-safe while the removal is volatile. |
| `JournalSteps.Acknowledge` | crates/maki-core/src/journal.rs:323-328 | The durable boundary may move to what the open segment holds for certain. |
| `JournalScan.ScanJournal` | crates/maki-core/src/recovery.rs:592-880 | `scan_journal_with_proof`: accepts if and only if the journal is acceptable; then the replay is exactly the sequences checkpoint+1 up to durable, once each and in order, each read from the image; the uncovered-record count is their number; the next index exceeds every index in use; repairs are only at the end. |
| `JournalScan.LossIsRefused` | crates/maki-core/src/recovery.rs:839-842 | A journal that lacks any record above the checkpoint that its proof demands is refused, whatever else became of it. |
| `JournalScan.AcceptedMeans` | crates/maki-core/src/recovery.rs:592-880 | Acceptance, cell by cell: every segment but the last is complete and holds nothing but its numbered records, the last one at least as many as mark and proof vouch for; the first segment starts at or below checkpoint+1 and segments join without a gap unless both ends lie under the checkpoint. |
| `JournalScan.AcceptedRecord` | crates/maki-core/src/recovery.rs:592-880 | In an accepted journal a record that follows only records in sequence is in sequence itself, names a unit of the volume and has an admissible payload size: a misnumbered or foreign record is never taken for a torn tail. |
| `JournalScan.ScanSegments` | crates/maki-core/src/recovery.rs:623-837 | The segment loop: it accepts if and only if every segment is allowed where it stands, and then reports every kept segment, the replay so far and whether the required boundary was met. |
| `JournalScan.ScanSegment` | crates/maki-core/src/recovery.rs:645-819 | One segment: accepted exactly when its header, body, marks and bridge allow it, with the repair a torn tail needs. |
| `JournalScan.RepairsAtEnd` | crates/maki-core/src/recovery.rs:750-785 | Only the last segment of an accepted journal is ever repaired. |
| `JournalScan.ReplayGrows` | crates/maki-core/src/recovery.rs:800-821 | Replay stays gapless across a segment boundary despite holes or overlaps below the checkpoint. |
| `JournalScan.HighestIndex` | crates/maki-core/src/recovery.rs:852-861 | The highest index is a bound of all segments, the mark and the proof, and is one of them. |
| `Recovery.Recovery.Recover` | crates/maki-core/src/recovery.rs:176-328 | `recover`: from any crash image and any surviving volatile disk it never refuses; on success the volume holds the acknowledged history followed only by issued records, everything durable and checkpointed; wherever it stops, another attempt can start; a recovery interrupted after it settled the history ends with the same history; no crash shows a discard bit other than the one in memory, and nothing is unsynced. |
| `Recovery.Recovery.RestoreCheckpoint` | crates/maki-core/src/recovery.rs:227-232 | The selected checkpoint is made durable before anything relies on it; failing leaves the choice open. |
| `Recovery.Recovery.Repair` | crates/maki-core/src/recovery.rs:234-246 | The one repair of an accepted scan, applied: a torn tail is cut or an unfinished segment removed, and nothing certain is lost. |
| `Recovery.Recovery.RewriteSegment` | crates/maki-core/src/recovery.rs:261-266 | Rewriting an accepted prefix and syncing makes it exact and certain, even when the page cache was never synced. |
| `Recovery.Recovery.RewriteAll` | crates/maki-core/src/recovery.rs:261-266 | After the loop every accepted segment holds exactly its accepted records for certain. |
| `Recovery.Recovery.AcceptJournal` | crates/maki-core/src/recovery.rs:234-266 | The accepted records become the history: durable in full, agreeing with the acknowledged one. |
| `Recovery.Recovery.PublishMark` | crates/maki-core/src/recovery.rs:267-276 | The mark names the last accepted segment and vouches only for certain records. |
| `Recovery.Recovery.AdvanceProof` | crates/maki-core/src/recovery.rs:282-295 | The proof advances to the accepted end: afterwards it is the only one on disk and demands every accepted record above the checkpoint; the missing-boundary refusal cannot happen. |
| `Recovery.BoundaryExists` | crates/maki-core/src/recovery.rs:282-294 | A scan that reaches past the checkpoint always has a segment ending exactly there. |
| `Recovery.FindBoundary` | crates/maki-core/src/recovery.rs:283-285 | The reverse search finds a segment with that last sequence, or there is none. |
| `Recovery.Recovery.ApplyBatch` | crates/maki-core/src/recovery.rs:421-466 | `apply_replay_batch`: writing only each unit's last version of a batch, then its discard bits, makes every replayed unit read as record-by-record replay would, for certain; a batch of more than one record never exceeds the byte target. |
| `Recovery.Recovery.ReplayAll` | crates/maki-core/src/recovery.rs:333-419 | The byte-bounded batches together apply all accepted records; a crash inside keeps the old checkpoint usable. |
| `Recovery.Recovery.StoreCheckpoint` | crates/maki-core/src/recovery.rs:409-412 | Only after all batches does the checkpoint move to the accepted end. |
| `Recovery.Recovery.RemoveSegments` | crates/maki-core/src/recovery.rs:414-417 | Segments are removed once the stored checkpoint covers them; success leaves none. |
| `Recovery.Recovery.PersistDiscards` | crates/maki-core/src/recovery.rs:311-315 | Discard bits are stored on both sides before the volume is exposed. |
| `Recovery.SurvivorPoint` | crates/maki-core/src/recovery.rs:176-328 | What survives a crash, still volatile or not, is itself a safe crash point showing the same image. |
| `Replay.LatestIsNewest` | crates/maki-core/src/recovery.rs:433-442 | The last version of a unit in a batch is its newest record in the history up to the end of the batch. |
| `Replay.BatchApplied` | crates/maki-core/src/recovery.rs:421-466 | A staged, synced and marked batch extends what is applied by the whole batch. |
| `JournalRecovery.RecoveredIsHistory` | crates/maki-core/src/recovery.rs:592-880 | Checkpoint prefix plus replay is a numbered history that agrees with the acknowledged one and holds only issued records. |
| `JournalRecovery.RecoveredTail` | crates/maki-core/src/recovery.rs:261-295 | The accepted records beyond the durable boundary all lie in the one open segment, which ends exactly there. |
| `JournalRecovery.SurvivorSafe` | crates/maki-core/src/recovery.rs:176-328 | The directory a crash leaves is crash-safe for the same history. |
| `JournalRecovery.Adopt` | crates/maki-core/src/recovery.rs:247-295 | Once rewritten and synced, the accepted log may be declared durable. |
| `Records.ReadingIsFold` | crates/maki-core/src/volume.rs:420-435 | Reading the newest record of a unit equals folding all records one by one. |
| `Slots.CheckpointSafe` | crates/maki-core/src/volume.rs:566-573 | Slots hold every item for certain: the horizon is then as good a checkpoint as the old one. |
| `Slots.WriteSlotSafe` | crates/maki-core/src/store.rs:136-164 | Copying a durable item over a slot leaves every possible crash readable, torn header and payload included. |
| `Slots.PunchSafe` | crates/maki-core/src/store.rs:1137-1177 | Punching a slot behind a certain discard bit changes no reading after any crash. |
| `Slots.SetBitSafe` | crates/maki-core/src/store.rs:1036-1054 | Changing a discard bit is safe when every checkpoint a crash could find reads the unit accordingly. |
| `Engine.AdmitsExactly` | crates/maki-core/src/engine.rs:1477-1500 | The saturating test admits if and only if max(bytes, 2*latest) + 2*payload and entries + records are within the limits in force; a limit of 0 or of 2^64-1 is none. |
| `Engine.Engine.AdmitJournal` | crates/maki-core/src/engine.rs:1409-1519 | `admit_journal` admits if and only if neither free space nor the journal limit refuses and the overlay has room for the whole payload and count; a request put off leaves everything appended durable, one that cannot be helped by reclaiming is an error, and nothing is appended either way. |
| `Engine.Engine.JournalRequest` | crates/maki-core/src/engine.rs:1329-1387 | `journal_request`: overlay bytes and units stay within the configured limits in every state, whatever fails, and the unsynced journal tail exceeds its limit only when a single record does; a request answered as not written appended nothing, and a write request is answered as written if and only if exactly its records were appended in order, which is so if and only if it was admitted; with FUA they are durable; an answered trim leaves every unit reading zero. |
| `Engine.Engine.FilterTrims` | crates/maki-core/src/engine.rs:1342-1355 | The trim filter keeps only tombstones of named units that hold data and drops only units that read zero. |
| `Engine.Engine.AppendAll` | crates/maki-core/src/engine.rs:1359-1378 | The record loop: admitted room covers every append, mid-request syncs and roll-induced promotions included. |
| `Engine.Engine.Maintain` | crates/maki-core/src/engine.rs:1477-1500 | Flushes and checkpoint phases keep the overlay limits and the truth of every cache entry. |
| `Engine.Engine.ReadSecret` | crates/maki-core/src/engine.rs:936-1030 | The cached read path: every byte returned is the byte an uncached read of the history would decrypt to, zero where unwritten. |
| `Engine.Engine.Snapshot` | crates/maki-core/src/engine.rs:962-1006 | Under the lock each unit is a hit at its current sequence, a ciphertext to decrypt, or unwritten. |
| `Engine.Engine.SnapshotUnit` | crates/maki-core/src/engine.rs:962-1006 | One unit of a read: it comes from the cache if and only if caching is on and an entry of exactly the current sequence is still within its time to live; a hit decrypts to what the volume holds. |
| `Engine.Engine.CompleteRead` | crates/maki-core/src/engine.rs:1007-1030 | The second half may run after any later writes: its puts stay true entries and its bytes are those of the snapshot. |
| `Engine.Engine.ConfigureCache` | crates/maki-core/src/engine.rs:1554-1562 | `configure_cache`: applied exactly when there is a cache; it evicts oldest first and leaves every remaining entry true. |
| `Engine.CacheGrows` | crates/maki-core/src/engine.rs:936-1030 | An entry keyed by a sequence stays true however the history grows: a late put never serves a stale read. |
| `Cache.VersionedCache.Put` | crates/maki-cache/src/lib.rs:133-161 | `put`: an older version never replaces a newer one; an entry that fits is stored after evicting least recently used entries only, and no more than needed. |
| `Cache.VersionedCache.Lookup` | crates/maki-cache/src/lib.rs:167-201 | `get`: a hit if and only if the sequence matches and less than the time to live has passed since the entry came in; stale and expired entries leave, newer ones stay; hits and misses are counted. |
| `Cache.VersionedCache.MakeRoom` | crates/maki-cache/src/lib.rs:87-94 | `make_room`: evicts oldest first, stops as soon as the need fits. |
| `Cache.VersionedCache.Touch` | crates/maki-cache/src/lib.rs:77-84 | `touch` moves one entry to the newest tick; map and recency index stay inverse. |
| `Cache.VersionedCache.Remove` | crates/maki-cache/src/lib.rs:64-69 | `remove` takes the entry out of map, index and byte count together. |
| `Cache.VersionedCache.Reconfigure` | crates/maki-cache/src/lib.rs:221-233 | `reconfigure`: the new limit holds at once, by evicting oldest first and no more than needed. |
| `Cache.VersionedCache.Invalidate` | crates/maki-cache/src/lib.rs:204-206 | `invalidate` removes exactly that unit. |
| `Namespaces.NamespaceRoundTrip` | crates/maki-backing/src/remote_witness.rs:58-76 | Parsing the name of a fence and session gives the fence back, and refuses exactly fence zero and the nil session. |
| `Namespaces.NamespaceInjective` | crates/maki-backing/src/remote_witness.rs:282-285 | Two names are equal only for the same fence and session. |
| `Authority.TransitionValidates` | crates/maki-backing/src/remote_witness.rs:584-716 | Every successful transition of a valid record passes `validate`, name and fence round trip included. |
| `Authority.ApplyKeepsState` | crates/maki-backing/src/remote_witness.rs:365-471 | `apply` keeps the stored state valid and the identity fixed. |
| `Authority.TransitionPrecedes` | crates/maki-backing/src/remote_witness.rs:584-716 | Every accepted mutation strictly increases (fence, phase rank, generation); only claims raise the fence, by one, and nothing else changes the session; no mutation goes back to an older generation or epoch, or to another anchor of the same generation. |
| `Authority.StepFacts` | crates/maki-backing/src/remote_witness.rs:365-471 | An accepted step expected exactly the stored record; claims install the request's token, other steps need the installed one. |
| `Authority.AcceptedExactly` | crates/maki-backing/src/remote_witness.rs:365-471 | `apply` accepts if and only if the request is a matching inspection, the exact repetition of the last one, or a first delivery with the right record and token that the record, phase and role permit; the action table is stated on its own. |
| `Authority.StepExactly` | crates/maki-backing/src/remote_witness.rs:584-716 | A mutation happens if and only if it is delivered and permitted, and then fence, session, phase, restore source and descriptor change exactly as listed for that action: claims and releases keep the descriptor, an ordinary activation keeps anchor and epoch, the first one starts at generation and epoch zero. |
| `Authority.StepIsFresh` | crates/maki-backing/src/remote_witness.rs:627-716 | No mutation takes the descriptor away or lowers its generation or epoch: an advance adds one generation, an administrator's restore one generation and one epoch, everything else nothing; a change of anchor always raises the generation. |
| `Authority.RunIsFresh` | crates/maki-backing/src/remote_witness.rs:584-716 | Over whole runs the certified state never goes back: an enrolled volume stays enrolled, generation and epoch never fall, and one generation never has two anchors or two epochs. |
| `Authority.RetryConverges` | crates/maki-backing/src/remote_witness.rs:365-471 | Repeating the last exact request returns the state unchanged. |
| `Authority.RunPrecedes` | crates/maki-backing/src/remote_witness.rs:365-471 | Over whole runs the measure strictly increases, so no record value recurs. |
| `Authority.StaleNeverMatches` | crates/maki-backing/src/remote_witness.rs:365-471 | A comparison against any earlier record of the run never changes the state; unless it is the exact retry it is a conflict. |
| `Authority.SessionsApart` | crates/maki-backing/src/remote_witness.rs:282-285 | Two sessions of a run never share a namespace. |
| `Authority.SessionStays` | crates/maki-backing/src/remote_witness.rs:430-470 | While the fence stands, session and token stand. |
| `Authority.OldTokenFenced` | crates/maki-backing/src/remote_witness.rs:430-470 | While a session is installed, a different token can never activate, advance or release. |
| `Authority.StateStore.Handle` | crates/maki-backing/src/remote_witness.rs:549-581 | `handle`: an answer means exactly the applied state is stored; an error leaves the served state alone and, unless the store is poisoned, is the one `apply` gives; a publication of unknown outcome poisons the store; the served record is not older than any earlier one of the run. |
| `Authority.StateStore.Reopen` | crates/maki-backing/src/remote_witness.rs:532-542 | Reopening finds the served state or the one in flight, serves only what it published again, and the run of states goes on without ever going back. |
| `Rollback.Backing.constructor` | crates/maki-backing/src/rollback.rs:433-460 | A backing on a validated manifest starts with equal views and the invariant. |
| `Rollback.Backing.Commit` | crates/maki-backing/src/rollback.rs:550-592 | `commit`: success installs exactly the candidate and trims both views to what is reachable, failure leaves both views as they were; at every crash point of the call the committed manifest is the old one, with nothing or the candidate in flight, or it is the candidate; a session stopped by it has no anchor but these two. |
| `Rollback.CommitViews` | crates/maki-backing/src/rollback.rs:550-592 | A committable candidate within the entry limits passes `validate`, and both views keep all slot invariants. |
| `Rollback.Backing.PublishManifest` | crates/maki-backing/src/rollback.rs:572-585 | Arena sync, inactive manifest slot, witness, in that order: success leaves the new manifest selected and durable, failure an anchor that names the old or the new one, and no point in between shows any other. |
| `Rollback.Backing.WitnessStep` | crates/maki-backing/src/witness.rs:137-163 | `advance`: failure leaves the anchor naming the old or the new manifest, success exactly the new one; every point of the step shows one of the two. |
| `Rollback.Open` | crates/maki-backing/src/rollback.rs:314-413 | `open_backing`: against any surviving disk it never refuses and yields exactly the last committed manifest or the one in flight, with both views equal to it; every state it leaves on the way can be opened again and shows no other manifest. |
| `Rollback.SelectManifest` | crates/maki-backing/src/rollback.rs:327-361 | The selected slot holds exactly the anchored manifest; none is selected only if neither certainly does. |
| `Rollback.Authenticate` | crates/maki-backing/src/rollback.rs:362-375 | Every committed page is read and compared: the answer is yes if and only if each one is what its reference says. |
| `Rollback.Examine` | crates/maki-backing/src/rollback.rs:327-375 | The decision to open, on any disk at all: only a manifest exactly as the witness names it, with every page intact, is opened, so a backing rolled back to an older manifest or with one page changed is refused; one that certainly holds both is never refused. |
| `Rollback.Rewrite` | crates/maki-backing/src/rollback.rs:362-404 | Republishing the selected pages and manifest before use: at every point exactly that manifest is committed and nothing is in flight. |
| `Rollback.Narrowed` | crates/maki-backing/src/witness.rs:100-113 | Republishing the anchor found settles the choice between the last and the in-flight manifest. |
| `Rollback.Backing.AllocateSlot` | crates/maki-backing/src/rollback.rs:668-685 | `allocate_slot` always finds a slot, below twice the capacity, that neither view uses: the invariant-violated error is unreachable. |
| `Rollback.RoomLeft` | crates/maki-backing/src/rollback.rs:668-685 | Pigeonhole: reserved coordinates fit the capacity and each needs at most two slots, so one is free. |
| `Rollback.Backing.WritePage` | crates/maki-backing/src/rollback.rs:687-706 | `write_page`: the working page changes, and the slot written is never one the committed manifest uses. |
| `Arena.UsedSlots` | crates/maki-backing/src/rollback.rs:512-519 | Slots used by both views together number at most twice the coordinates less one while a page awaits its own slot. |
| `Arena.FreeSlot` | crates/maki-backing/src/rollback.rs:668-685 | Fewer used slots than the arena has means a free one exists. |
| `Arena.WriteElsewhere` | crates/maki-backing/src/rollback.rs:687-706 | Writing a slot a view does not use leaves the view held and durable. |
| `Rollback.Backing.ReadAt` | crates/maki-backing/src/rollback.rs:727-751 | `read_at` returns the slice of the flat byte array the paged file stands for. |
| `Rollback.Backing.WriteAt` | crates/maki-backing/src/rollback.rs:752-771 | `write_at`: success splices the data into the flat array, zero-filled up to it; other files are unchanged; the committed view, at every crash point too, is the old one but for zeros and unreachable files. |
| `Rollback.Backing.SetLen` | crates/maki-backing/src/rollback.rs:772-789 | `set_len`: success truncates or zero-extends the flat array, gives back exactly the room of the pages behind the new end, and changes nothing else. |
| `Rollback.Backing.PunchHole` | crates/maki-backing/src/rollback.rs:795-820 | `punch_hole`: success zeroes exactly the range within the file and gives back exactly the room of the pages that lie wholly inside it. |
| `Rollback.Backing.AllocateRange` | crates/maki-backing/src/rollback.rs:790-794 | `allocate_range`: success extends with zeros to the range end; exactly the pages the range touches are added to the file's room, and all of them are reserved in the committed view as well. |
| `Rollback.Backing.SyncData` | crates/maki-backing/src/rollback.rs:829-838 | `sync_data`: success copies exactly that file into the committed view; all other committed files and names are unchanged; every crash point shows the old manifest or exactly this new one. |
| `Rollback.Backing.Reserve` | crates/maki-backing/src/rollback.rs:594-639 | `reserve`: a reservation commit changes committed content only by extending it with zeros, at every crash point as well, and grows the working file on success. |
| `Rollback.Backing.ReclaimClosedFiles` | crates/maki-backing/src/rollback.rs:521-548 | Reclaiming drops only unreachable files, and on success all of them: every file left in either view has a name in one of them or is open. |
| `Rollback.Backing.FreeBytes` | crates/maki-backing/src/rollback.rs:1004-1011 | `free_bytes` plus the reserved pages is exactly the capacity, counted when no unreachable file is left: it never underflows. |
| `Rollback.Backing.OpenFile` | crates/maki-backing/src/rollback.rs:856-889 | `open`: an existing file as it is, or a new empty one under a fresh identity, no other file or name changing; the handle count rises by one exactly on success. |
| `Rollback.Backing.Close` | crates/maki-backing/src/rollback.rs:847-849 | A dropped handle lowers the count of that file only. |
| `Rollback.Backing.Remove` | crates/maki-backing/src/rollback.rs:896-905 | `remove` takes out one working name and no committed one. |
| `Rollback.Backing.Rename` | crates/maki-backing/src/rollback.rs:906-925 | `rename` moves one working name within its directory. |
| `Rollback.Backing.CreateDirAll` | crates/maki-backing/src/rollback.rs:926-948 | `create_dir_all`: every prefix becomes a directory, no existing name changes, and nothing but prefixes is added. |
| `Rollback.Backing.SyncDir` | crates/maki-backing/src/rollback.rs:961-988 | `sync_dir`: after success a name in that directory is committed if and only if it is there in the working view, with the same entry; every ancestor is a committed directory; every other name is exactly as committed before; committed contents are unchanged, new files commit empty; every crash point shows the old manifest or exactly this new one. |
| `Rollback.SyncedExactly` | crates/maki-backing/src/rollback.rs:961-988 | The candidate `sync_dir` builds is, name by name, the directory from the working view, the way to it, and everything else from the committed one. |
| `Pages.PatchNode` | crates/maki-backing/src/rollback.rs:752-771 | Patching one page splices the flat array there. |
| `Pages.ResizeNode` | crates/maki-backing/src/rollback.rs:772-789 | Cutting or extending a node with a zero tail is cutting or zero-extending the flat array. |
| `Pages.DropNode` | crates/maki-backing/src/rollback.rs:795-820 | Dropping a whole page zeroes exactly its range. |
| `Pages.GrowNode` | crates/maki-backing/src/rollback.rs:594-639 | Growing a node extends the flat array with zeros. |
| `Pages.ReadPage` | crates/maki-backing/src/rollback.rs:727-751 | A page slice is the flat slice. |
| `Latency.UpperBounds` | bins/maki-benchmark/src/latency.rs:39-72 | A bucket's upper edge is at least every value in it and at most 33/32 of it. |
| `Latency.BucketMonotone` | bins/maki-benchmark/src/latency.rs:39-52 | Larger samples never fall into lower buckets. |
| `Latency.BucketInRange` | bins/maki-benchmark/src/latency.rs:39-52 | Every 64-bit sample has one of the 2048 buckets. |
| `Latency.StopsAtRank` | bins/maki-benchmark/src/latency.rs:54-72 | The cumulative count first reaches the rank in the bucket of the exact rank statistic. |
| `Latency.RankIsPercentile` | bins/maki-benchmark/src/latency.rs:55-55 | The rank rounded up picks out exactly the percentile: the smallest value with at least percent/100 of the samples at or below it. |
| `Latency.Latencies.Record` | bins/maki-benchmark/src/latency.rs:39-52 | `record`: the histogram, counters and maximum are those of the samples with this one added, saturated at 2^64-1. |
| `Latency.Latencies.Percentile` | bins/maki-benchmark/src/latency.rs:54-72 | `percentile`, stated by counting: for every sample multiset and percent, some sample is the smallest value that percent in a hundred samples do not exceed, and the result is at least it and at most 33/32 of it. |
| `Framing.HeaderRoundTrip` | crates/maki-format/src/journal.rs:166-178 | Decoding an encoded record header gives it back, for any 32-bit checksum. |
| `Framing.FrameRoundTrip` | crates/maki-format/src/journal.rs:166-178 | An encoded record is found as itself wherever it starts. |
| `Framing.ScanRoundTrip` | crates/maki-format/src/journal.rs:166-178 | A body of encoded records is scanned back whole, and as a prefix whatever follows it. |
| `Framing.OnlyHeadersDecode` | crates/maki-format/src/journal.rs:198-216 | Nothing but an encoded header decodes: magic, every field and the header checksum are determined by the result. |
| `Framing.OnlyRecordsScan` | crates/maki-format/src/journal.rs:220-330 | Whatever the bytes, the records the scan accepts encode to exactly the bytes it accepted them from. |
| `ByteScan.Scan` | crates/maki-core/src/recovery_scan.rs:84-275 | `scan`: terminates on every body; the accepted records are the longest valid contiguous run; it refuses exactly runs that do not fit the volume, overflow the counter, or miss the required boundary at its exact byte; any outcome but damage keeps at least the proven length. |
| `ByteScan.Examine` | crates/maki-core/src/recovery_scan.rs:96-224 | One step of the scan: the valid record at the position, or the classification of the rest. |
| `ByteScan.RangeIsZero` | crates/maki-core/src/recovery_scan.rs:21-34 | `range_is_zero`: true if and only if every byte of the range is zero, chunk by chunk. |
| `Sessions.Run.constructor` | crates/maki-backing/src/rollback.rs:259-304 | An empty backing as `create` leaves it: generation 0, no names, no files, and the run invariant. |
| `Sessions.Run.Do` | crates/maki-backing/src/rollback.rs:727-1011 | Any file or directory operation, in any order, failing at any I/O step: every crash point of it shows the manifest committed before it or one that this very operation may commit (the synced file, the synced directory, zero padding, or the same without unreachable files); answered `sync_data` and `sync_dir` have committed exactly theirs, the latter name by name; a stopped session changes nothing any more; committed generations never go back. |
| `Sessions.Run.Return` | crates/maki-backing/src/rollback.rs:550-592 | Once an operation has returned, nothing of it is in flight and what it committed is what any later crash finds. |
| `Sessions.Run.Crash` | crates/maki-backing/src/rollback.rs:550-592 | The machine may stop inside the last operation or after it: what is left is such a crash point. |
| `Sessions.Run.Attach` | crates/maki-backing/src/rollback.rs:314-413 | Reopening what any crash left, again and again if interrupted: it opens the manifest committed before the last operation or the one this operation had in flight, never an older one, and both views equal it; if the last operation had returned, it opens exactly what that committed, the synced names included. |
| `Sessions.NeverOlder` | crates/maki-backing/src/rollback.rs:550-592 | Whatever an operation commits is a later generation than what it found committed. |
| `Catalog.Open` | crates/maki-core/src/store.rs:355-568 | `open`: after any crash every cataloged shard has its name, a loadable allocation map and its discard maps, so it never refuses for a missing one; orphans are adopted; a cataloged or used shard found short is loaded as truncated with its damage marks; every shard that was complete before the crash is there; on a disk that kept the promise about sizes, what counts as proven is durable. |
| `ShardFiles.LoadedMeans` | crates/maki-core/src/store.rs:355-568 | How a shard is loaded: its size is in doubt exactly when neither the catalog nor a listed slot vouches for it; otherwise a short file is a truncated one; its map is to be stored again exactly when it was missing or got damage marks. |
| `Catalog.SlotStore.EnsureShard` | crates/maki-core/src/store.rs:771-856 | `ensure_shard`: success leaves the shard complete on disk for good and not unproven. In a session that began on a good disk, at every crash point of every call, failed ones included, all cataloged data files have their full size for certain if and only if the shard was already there, or no new catalog can be found, or the shards that wait with stored maps happen to have their full size. |
| `Catalog.SlotStore.CreateShard` | crates/maki-core/src/store.rs:781-856 | Discard maps, data file, both allocation maps, what was adopted, names, catalog, in that order: every crash point finds the old catalogs, or the new one naming full-size files except those that waited. |
| `Catalog.SlotStore.CreateDiscards` | crates/maki-core/src/store.rs:781-800 | Both discard maps are durable before the data file can be found. |
| `Catalog.SlotStore.CommitAdoptedMaps` | crates/maki-core/src/store.rs:890-920 | `commit_adopted_maps`: the size and both map copies of every shard whose maps are not stored, and of no other; shards whose maps count as stored keep their size as it was. |
| `Catalog.SlotStore.PersistAllocations` | crates/maki-core/src/store.rs:978-1034 | `persist_allocations`: success leaves no dirty map, and a dirty catalog is stored only with every map durable and every size proven, so it never breaks the promise about sizes; if the first size proof fails, all maps already count as stored while no size is proven. |
| `Catalog.SlotStore.PersistMaps` | crates/maki-core/src/store.rs:978-1007 | Storing the dirty maps succeeds exactly when each of its I/O steps does; then what every crash loads of them is what memory holds, and sizes are untouched. |
| `Catalog.SlotStore.ProveDataFile` | crates/maki-core/src/store.rs:867-884 | `prove_data_file`: success makes the full size certain; the damage marks of a truncated file are certain at every crash point that may show it at full size; failure forgets no possible size. |
| `Catalog.SlotStore.StoreCatalog` | crates/maki-core/src/store.rs:834-839 | While a catalog is stored a crash may find an old one or the new; all name only complete shards. |
| `Catalog.SlotStore.PrepareShard` | crates/maki-core/src/store.rs:666-672 | What a slot reservation asks for first: the shard complete, its data file at full size. |
| `Catalog.SlotStore.MarkAllocated` | crates/maki-core/src/store.rs:955-965 | `mark_allocated`: a map that lists a slot always belongs to a shard of proven size and durable name. |
| `ShardFiles.SurvivorSafe` | crates/maki-core/src/store.rs:355-417 | Whatever subset of volatile effects survives, the catalogs found name only complete shards, and a disk that kept the promise about sizes keeps it. |
| `ShardFiles.NamedSized` | crates/maki-core/src/store.rs:820-839 | A crash point of a catalog publication keeps the promise about sizes if and only if it shows no new catalog or every waiting shard has its full size. |
| `ShardFiles.GuardIsExact` | crates/maki-core/src/store.rs:890-903 | The guard a caller can test: no shard waits with stored maps if and only if, on every disk that agrees with memory, the waiting shards have their full size. |
| `Catalog.StopAtProof` | crates/maki-core/src/store.rs:1002-1026 | The first half of the failing run, through the I/O results that produce it: after `open` and a `persist_allocations` whose size proof fails, shard 0 has stored maps and an unproven size. |
| `Catalog.UnprovenShardIsNamed` | crates/maki-core/src/store.rs:890-903 | The failing run completed: `ensure_shard` of shard 1 stores a catalog naming both, a crash leaves shard 0 cataloged and short, and the next `open` loads it as truncated and damaged. |
| `ByteScan.BoundaryHolds` | crates/maki-core/src/recovery_scan.rs:225-269 | An accepted boundary: cut at exactly that byte, the body scans cleanly and its last record is the required one. |
| `ByteScan.CutScan` | crates/maki-core/src/recovery_scan.rs:84-275 | Cut at the end of any of its records, a body scans to exactly the records up to there. |
| `Bodies.ScanAgrees` | crates/maki-core/src/recovery.rs:721-819 | The streaming scan of a body of bytes accepts exactly the bodies whose cells the record-level scan accepts, counts the same records and hands on the same ones for replay. |

## Left out

- Crypto providers, key handling, gRPC, control socket, command-line tools, daemons and packaging: encryption is an abstract function of unit and bytes.
- Tokio tasks, semaphores, timing and counters of the engine: concurrency is modelled as interleaved checkpoint phases, writes and late reads.
- Superblock, geometry and A/B record encodings: the checkpoint register and the durable proof are registers that hold the old or the new value while in flight.
- The fingerprint and CRC are ideal in the crash model, so a torn or foreign record never decodes; at byte level (`Framing`, `ByteScan`) any 32-bit checksum is allowed.
- The 48-byte segment header is written atomically, and its volume id, format version and stored index are taken to match the file.
- At a crash the journal directory and the advisory mark settle to one of their possible values; file contents, lengths, slots, bits, proof and checkpoint may stay volatile across a restart.
- The maximum segment file size and the hard journal-byte limit: `append_footprint` would only add arithmetic.
- Shard data files damaged by something other than a crash, and repair of allocation maps from slot headers.
- Shards inside `Volume` and `Recovery`: slots and discard bits there are one per unit, and whether their shard exists is `Catalog`'s subject, whose shards hold no slot data.
- Volume.Volume.ReserveSlot: does not create shards or prove sizes; `Catalog.SlotStore.PrepareShard` does.
- Journal.JournalWriter.DeleteCovered: does not model an unlink that reports failure after taking effect, because the list of sealed segments would then name a file that is gone.
- Public full-replay recovery (`recovery::recover` without batching) and read-only journal inspection.
- Engine.Engine.AdmitJournal: does not model the free-space and journal-size tests beyond their answer, because both rest on physical space.
- Engine.Engine.ReadSecret: does not bound the read by the device size, because the range check comes before the modelled part.
- ByteScan.Scan: does not model read errors; the proven length is at most the body length, which the caller has checked before.
- Recovery.Recovery.Recover: does not model locking, legacy formats, a missing proof, or missing shards and discard maps; that shards once ensured and their maps are found again is stated of `Catalog.Open`.
- Rollback.Backing.Commit: does not compute the encoded manifest size; its limit, like the entry limits, may refuse a commit.
- Rollback.Open: does not model locks, capacity growth or physical reservation of the arena.
- Listing, existence tests, advisory locks and remote-witness use of the rollback backing.
- Authority.StateStore.Handle: does not model the request-size limit or the state encoding; root hashes are numbers.
- Creation and enrollment of witnesses and authorities, garbage collection of namespaces.
- Catalog.SlotStore.PersistAllocations: does not keep the allocation bits themselves, only whether a map lists any slot.
- Catalog.SlotStore.CreateShard: takes the stores of already existing discard maps as one I/O step that leaves them loadable.
- Latency.Latencies.Record: does not saturate the sample count, and the floating-point mean of the report is not modelled.
- Volume.Volume.PublishPlan: does not state which discarded slots are empty in the end, because punching is a space hint that may fail or be retried; `Volume.Volume.PunchSlots` says what a successful punch leaves.
- Physical effects of hole punching and preallocation, except that punching never touches a unit with a live version.
