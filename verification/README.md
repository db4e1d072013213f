# wg-guard: a verified model of its protocols and stores

This project models the parts of wg-guard whose correctness depends on state that
survives crashes, on several processes, or on long histories of operations, and proves
what the code and its documentation promise about them. `dafny verify dfyconfig.toml`
checks everything.

The files, by component:

* **Restore** (`RestoreProtocol`, `RestoreSafety`, `RestoreTheorems`, `RestoreEngine`) —
  the five-file image (database, WAL, SHM, master key, previous key), staged archives, the
  undo transaction `restore.transaction`, and every file operation of `apply`,
  `recoverPair`, `approve` and boot-time consumption as one step, with a crash possible
  between any two. The engine is the code itself, imperative; each of its file operations
  is shown to be a protocol step. `faults` bounds how many more system calls fail, the syncs
  of directories included: the contracts say what an operation answers when none fails, and
  what it leaves when some do. In every operation a rename or removal decides; when only the
  sync after it fails, the caller gets an error with the change made.
* **Data lease** (`LeaseProtocol`, `LeaseSafety`, `LeaseTheorems`, `LeaseEngine`) — the
  byte locks of `.wg-guard-data.lock` with the rule that a handle never conflicts with
  itself, shared and exclusive leases, promotion and downgrade, the purge tombstone, and
  the archive, schedule and review claims, over any number of handles. A refusal names a
  moment of the call at which another handle was in the way.
* **Accounting** (`Int64`, `Sums`, `Quota`, `Metering`, `Cycle`, `CounterRuns`, `Rollups`,
  `Sampler`) — int64 and uint64 arithmetic with its wrap-around and saturation, the
  six-status quota lifecycle, one metering cycle over many devices and users, counters over
  resets, and the sample buffer with its hourly and daily rollups.
* **Archive listing** (`Archives`, `ArchiveHeap`, `ArchiveListing`) — the order of archives,
  the bounded heap in place, and the paged scan.
* **Egress routing** (`Egress`, `EgressOrder`, `EgressSafety`, `EgressStore`, `EgressRows`) — outbounds,
  chains, balancers, ordered rules and the default route, with every service call.
* **Devices** (`Addresses`, `Allocation`, `Pools`, `Devices`, `DeviceStore`, `DeviceRows`) — the
  broadcast address in 32-bit arithmetic, first-free allocation, the pool contract, and the
  device tables.
* **Domain mailbox** (`MailboxProtocol`, `MailboxTheorems`, `MailboxEdges`, `MailboxQueue`) — request,
  running and status files between senders, one host runner, and crashes.
* **Idempotency keys** (`IdempotencyProtocol`, `IdempotencyTheorems`, `IdempotencyStore`).
* **Backup schedules** (`Schedule`, `Scheduler`) and **AmneziaWG ranges** (`AwgRange`).
* `Wrappers` and `Text` are shared helpers.

The protocols follow one pattern: a datatype for the state, `Enabled` and `Do` for the
steps, an invariant kept by every step, theorems over all runs, and a class whose methods
are the code, with a ghost run that each mutation extends by a step. The method named
`Others`, `Senders` or `Meanwhile` in such a class stands for whatever other processes do
between two operations; its callers know only its contract. The stores follow a second
pattern: a function says what a call makes of the tables or which error it gives (checks in
the order of the code), the class methods with their loops are proved equal to it, and a
lemma shows that every call keeps the invariant, so that every reachable state has it. What
such a function says is pinned down apart from its text, in `EgressRows`, `DeviceRows` and the
lemmas named `...Exactly` or `...Stores`: when a call goes through, what it stores field by
field, that nothing else changes, and that a refusal names a fault the input has. The calls
without a loop or a search are one `Commit` of the function; their rows below are those lemmas.

## Where the code and its promises differ

Each case is a run from the initial state, or a concrete account or request, next to the
exact condition under which the promise holds.

* The accounting package promises no usage loss over counter resets
  (`internal/accounting/accounting.go:7-11`). Never overcharging holds
  (`CounterRuns.NeverOvercharges`), but bytes are lost in three ways: the counter comes back
  to its old value before the dump after a reset
  (`CounterRuns.ReachingBaselineLosesBytes`); a dump of 0 after a reset leaves the old
  baseline in place, for as long as the device is idle (`CounterRuns.IdleResetLosesBytes`);
  and what is carried between a dump and a reset is never seen
  (`CounterRuns.ResetLosesUnseenBytes`). For every interval between two dumps, with or
  without resets, `CounterRuns.IntervalChargedExactly` says when all of its bytes are
  charged, and `CounterRuns.IntervalCharge` what is charged otherwise.
* A saturated counter pair wraps in the level check, so adding traffic can unblock an
  account (`Quota.SaturationUnblocks`), and a reset revives an account whose limit is 0
  (`Quota.ResetRevivesZeroLimit`). The conditions are in `Quota.AddTrafficExact`,
  `Quota.SetTrafficExact`, `Quota.RemoveTrafficExact` and `Quota.ResetExact`.
* A request that the mailbox reported as interrupted can still run afterwards
  (`MailboxEdges.ReportedInterruptedYetRun`): exactly while `request.json` holds it and it is
  fresh (`MailboxEdges.InterruptedRunsExactly`). A request that succeeded can be reported as
  interrupted (`MailboxEdges.SuccessReportedInterrupted`): exactly while `running.json` holds
  it, that is when its runner stopped before removing the file
  (`MailboxEdges.OutcomeChangesExactly`); once settled it stays so
  (`MailboxEdges.SettledStays`). A request older than an hour blocks the mailbox
  (`MailboxEdges.ReachBlocked`, `MailboxEdges.StaleRequestBlocks`); a pending request can run
  exactly while it is fresh or being claimed (`MailboxEdges.ClaimableExactly`).
* Two handlers of one idempotency key overlap once the first outlives its row
  (`IdempotencyTheorems.TwoHandlersAtOnce`), exactly then
  (`IdempotencyTheorems.RetryOverlapsExactly`, `IdempotencyTheorems.OverlapNeedsALateHandler`).
  A path with a NUL byte makes the request hash ambiguous
  (`IdempotencyTheorems.NulInPathIsAmbiguous`), in exactly one way
  (`IdempotencyTheorems.SameFrameExactly`).
* The schedule service promises exactly one run per schedule for a backlog
  (`internal/backup/schedule.go:299-300`) and names the exception at
  `internal/backup/schedule.go:236-239`. Two attempts at one slot happen
  (`Scheduler.TwoAttemptsAtOneSlot`), exactly when the update after the first was not stored,
  because it failed or the process died (`Scheduler.OneRunPerBacklog`). Without that, attempts
  never outnumber the slots (`Scheduler.AttemptsNeverOutnumberSlots`).

## Model

| member | source | states |
|---|---|---|
| RestoreTheorems.AllOrNothing | internal/backup/apply.go:240-433 | After any run of restore steps, failures, crashes and re-crashed recoveries, whenever no transaction directory exists the five files are exactly the image before the restore or, once committed, exactly the requested image |
| RestoreTheorems.NeverAMixedPair | internal/backup/apply.go:292-315 | A permitted opening sees all five old files, or the new database without WAL and SHM together with the new key and no previous key; only an archive without a key keeps the key files |
| RestoreTheorems.BegunStageIsConsumed | internal/backup/apply.go:286-345 | Once the transaction of an approved pending stage is published, no state without a transaction still holds that stage |
| RestoreTheorems.CommitsAtMostOnce | internal/backup/apply.go:327-345 | A staged archive takes effect at most once over any number of crashes and boots |
| RestoreTheorems.RefusalLeavesWholeImage | internal/backup/apply.go:378-433 | Recovery refuses a transaction of a begun restore only when the image is already whole again (an interrupted final clean-up) |
| RestoreTheorems.CommitKeepsOriginals | internal/backup/apply.go:327-346 | The kept `restore.previous` is the complete replaced image |
| RestoreSafety.RunKeeps | internal/backup/apply.go:224-433 | Every step of restore, recovery, crash and everybody else keeps the protocol invariant |
| RestoreProtocol.Restored | internal/backup/apply.go:293-315 | The image a restore asks for: member by member the staged file, removed, or untouched |
| RestoreEngine.Engine.ProtectOriginals | internal/backup/apply.go:253-291 | The published transaction holds a verified copy of every original, even when only the sync after its publication fails; before publication nothing else changes |
| RestoreEngine.Engine.ReplaceMembers | internal/backup/apply.go:292-315 | The replacement loops leave exactly the requested image, step by step under the transaction |
| RestoreEngine.Engine.Transact | internal/backup/apply.go:286-349 | A published restore ends committed when no call fails; otherwise undone to the old image, or closed with its transaction in place after at least two failed calls, or committed with an error when only the last sync failed |
| RestoreEngine.Engine.Apply | internal/backup/apply.go:240-350 | Succeeds when no call fails, and then restores exactly the requested image, consumes the stage and keeps the originals; without a transaction every failure leaves the old image or that complete result; one failed call closes the node only between publication and first replacement |
| RestoreEngine.Engine.RecoverPair | internal/backup/apply.go:378-433 | All originals are verified before the first write; a verified transaction is rolled back completely unless a call fails; once the transaction is gone the whole old image is back and a consumed approval dropped, whatever the last sync answers |
| RestoreEngine.Engine.RecoverInterrupted | internal/backup/apply.go:362-377 | An unverifiable transaction is refused with nothing changed; a verified one is rolled back, completely unless a call fails or once it is gone |
| RestoreEngine.Engine.ApplyStaged | internal/backup/apply.go:205-222 | When no call fails, the pending stage is applied exactly when it is loadable and of the current schema, and otherwise nothing changes; in every case it is applied completely or not at all |
| RestoreEngine.Engine.ApplyOriginal | internal/backup/apply.go:171-194 | When no call fails, a preview is applied exactly when it is loadable, of the original schema and carries its key; in every case completely or not at all |
| RestoreEngine.Engine.Approve | internal/backup/apply.go:124-145 | A preview becomes the pending restore exactly when it is loadable, of the current schema and none is pending, unless a call fails; the rename decides, not the sync |
| RestoreEngine.Engine.ConsumePending | internal/backup/apply.go:444-459 | Boot, when no call fails: a verified interrupted restore is rolled back, an untouched node starts, and a pending restore is applied exactly when loadable and of the current schema; after any failure the node has the old image, the complete new one, or stays closed |
| RestoreEngine.Engine.CancelPending | internal/backup/review.go:140-157 | The pending restore whose metadata was shown is removed unless a call fails; any other is left alone |
| LeaseTheorems.PairWriterHoldsAdmission | internal/backup/data_lease.go:36-68 | In every interleaving a write hold on the pair byte comes with a write hold on admission by the same handle |
| LeaseTheorems.ExclusiveLeaseIsAlone | internal/backup/data_lease.go:36-68 | An exclusive (or downgrading) lease never coexists with another lease |
| LeaseTheorems.ConversionNeverStrands | internal/backup/data_lease.go:277-321 | Taking the shared pair lock back inside RequireExclusive and Share is always granted |
| LeaseTheorems.NoLeaseDuringConversion | internal/backup/data_lease.go:274-321 | No admission gap: while one lease converts, no step creates another lease |
| LeaseTheorems.NoUserWhilePurging | internal/backup/data_lease.go:98-167 | No lease, inspection or review claim is live while members are removed or the tombstone is cleared |
| LeaseTheorems.TombstoneExcludes | internal/backup/data_lease.go:143-167 | After the tombstone nothing is granted and no member appears until a reset, even if the purge dies |
| LeaseTheorems.ResetSeesEmptyDirectory | internal/backup/data_lease.go:182-200 | A reset clears the tombstone only of a directory that holds nothing but the lock file |
| LeaseTheorems.WorkIsExclusive | internal/backup/work.go:24-76 | A work byte has at most one live claim, and none beside a complete purge guard |
| LeaseSafety.RelockGranted | internal/backup/data_lease.go:291-314 | Under admission nobody else holds the pair, so the shared re-lock cannot conflict |
| LeaseEngine.RefusedExactly | internal/backup/data_lease_linux.go:17-23 | A lock call is refused exactly when another handle holds the byte in a conflicting way |
| LeaseSafety.RunKeeps | internal/backup/data_lease.go:13-321 | Every lock call of every handle keeps the lock invariant |
| LeaseEngine.DataDir.LockPair | internal/backup/data_lease.go:52-66 | Admission, then the pair, on a new handle; a refusal met another handle's lock, closes the handle, and leaves the kernel no lock for it |
| LeaseEngine.DataDir.LockData | internal/backup/data_lease.go:36-68 | A granted lease has its byte holds, in a directory that is not purged; otherwise the handle is closed, and some world since the call had another handle's lock in the way, or the tombstone |
| LeaseEngine.DataDir.RequireExclusive | internal/backup/data_lease.go:277-301 | Success leaves no other lease live; failure leaves the shared lease as it was, and met another handle's lock on admission or pair |
| LeaseEngine.DataDir.Share | internal/backup/data_lease.go:305-321 | The downgrade never fails |
| LeaseEngine.DataDir.AcquirePurgeGuard | internal/backup/data_lease.go:88-120 | All four bytes and no user, or the handle is closed and another one held one of the four bytes |
| LeaseEngine.DataDir.Purge | internal/backup/data_lease.go:143-167 | Nothing is removed before the tombstone is written, members only shrink, and success leaves none |
| LeaseEngine.DataDir.ResetPurged | internal/backup/data_lease.go:182-200 | Removes no member, and clears the tombstone exactly of a directory it found empty and that still is; it answers busy only when another handle was in the way |
| LeaseEngine.DataDir.ClaimOwn | internal/backup/review.go:159-179 | A claim on its own handle rechecks the tombstone after locking the byte; it is refused only for a tombstone or another handle's claim |
| LeaseEngine.DataDir.ClaimArchiveWork | internal/backup/work.go:24-76 | A claim on a held lease is granted exactly when the byte is free, and is then the only one |
| Quota.LevelExact | internal/accounting/accounting.go:917-937 | The level check of a changed counter gives the right status, with the exact no-overflow condition |
| Quota.AddTrafficExact | internal/accounting/accounting.go:881-958 | Adding traffic keeps the two-sided invariant exactly when the stored counters add up within int64, or the account is neither live nor exceeded |
| Quota.SetTrafficExact | internal/accounting/accounting.go:802-879 | Setting counters re-establishes the level exactly when they add up within int64 |
| Quota.RemoveTrafficExact | internal/accounting/accounting.go:964-1045 | Removal takes exactly the bytes, floored at zero, received bytes first, and re-establishes the level under the exact overflow condition |
| Quota.ResetExact | internal/accounting/accounting.go:616-671 | A reset re-establishes the invariant exactly for a positive limit, or an account that is neither live nor exceeded |
| Quota.ResetRevivesZeroLimit | internal/accounting/accounting.go:634-645 | A new account with limit 0 is cut off by its first cycle, and a reset revives it |
| Quota.SaturationUnblocks | internal/accounting/accounting.go:917-937 | Two adds to a new account: the first exceeds its limit, the second saturates and unblocks it |
| Quota.CycleEnforces | internal/accounting/accounting.go:363-427 | A cycle adds exactly its charge; a live account is below its limit afterwards, and a newly tripped one has reached it |
| Quota.CycleStores | internal/accounting/accounting.go:363-427 | Within int64 a cycle adds each direction to its own counter, keeps limit, policy, duration and deletion, sets activation time and expiry exactly on a first connection, and leaves the status that follows |
| Quota.StepStores | internal/accounting/accounting.go:526-1045 | What each of the seven operations stores: its counters by direction, the limit plus the added quota, and every other term as it was |
| Quota.StepStatus | internal/accounting/accounting.go:634-645 | How the status may move: only live accounts are cut off or expire, only a cycle activates, and an account cut off before its first connection returns to waiting |
| Quota.AddStores | internal/accounting/accounting.go:881-958 | An add charges each direction to its own counter, saturating at the largest int64 |
| Quota.SetStores | internal/accounting/accounting.go:802-879 | A set stores the given counters and keeps the other |
| Quota.QuotaAlwaysHolds | internal/accounting/accounting.go:526-1045 | Over every run of the seven operations: active or waiting means used < limit, exceeded means used >= limit, waiting means never activated |
| Quota.Accounts.AddTraffic | internal/accounting/accounting.go:881-958 | The stored row after an add, including saturation, or the error with nothing changed |
| Quota.Accounts.SetTraffic | internal/accounting/accounting.go:802-879 | The stored row after a set |
| Quota.Accounts.RemoveTraffic | internal/accounting/accounting.go:964-1045 | The stored row after a removal |
| Quota.Accounts.AddQuota | internal/accounting/accounting.go:697-757 | The new limit and status, or the overflow error |
| Quota.Accounts.EnforceExpiry | internal/accounting/accounting.go:526-583 | Exactly the due live accounts expire, and are counted |
| Metering.CycleConserves | internal/accounting/accounting.go:304-353 | The user charges of a cycle add up to all device deltas, in both directions |
| Metering.CycleIsDeterministic | internal/accounting/accounting.go:304-427 | Rows and report do not depend on the iteration order over peers or users |
| Metering.CycleEnforcesLimits | internal/accounting/accounting.go:363-411 | A cycle charges a user the sum of its device deltas and leaves no live account with a device at its limit |
| Metering.CycleCharges | internal/accounting/accounting.go:326-427 | A cycle adds to each counter of a user the device deltas of that direction, and touches no user without devices |
| Metering.MeteredOn | internal/accounting/accounting.go:311-335 | The device row after a peer that went on counting, column by column and direction by direction |
| Metering.OneDevice | internal/accounting/accounting.go:285-433 | A node with one device: row, user counters and report grow by what the peer reports beyond the last reading |
| Cycle.Meter.MeterPeers | internal/accounting/accounting.go:304-353 | The fold over peers, in any order, leaves the specified device rows, tallies and totals |
| Cycle.Meter.ChargeUsers | internal/accounting/accounting.go:363-427 | The loop over users, in any order, leaves the rows `Quota.CycleStores` describes and counts who was activated and who was cut off |
| Cycle.Meter.CycleTx | internal/accounting/accounting.go:285-433 | A committed cycle is the specified one; an unreadable row changes nothing |
| Cycle.Meter.ResetTraffic | internal/accounting/accounting.go:616-671 | The user row after a reset, with the totals of its devices at zero and their baselines kept |
| Metering.ResetContinuesCleanly | internal/accounting/accounting.go:612-615 | The cycle after a reset charges every user what it would have charged without it, and the devices then have exactly the bytes of that cycle |
| CounterRuns.NeverOvercharges | internal/accounting/accounting.go:304-335 | Over every run of traffic, resets, dumps, committed and failed cycles, from a new device on, at most the carried bytes are charged |
| CounterRuns.IntervalChargedExactly | internal/accounting/accounting.go:505-512 | For every interval between the dumps of two committed cycles and either direction, with or without resets and failed cycles: when all of its bytes are charged, and only then |
| CounterRuns.IntervalCharge | internal/accounting/accounting.go:304-335 | What a cycle charges for the interval since the dump of the previous committed one |
| CounterRuns.ResetChargedExactly | internal/accounting/accounting.go:505-512 | Around the last reset of an interval: nothing before it is charged, and the bytes after it exactly when they stay below the baseline |
| CounterRuns.ResetIntervalCharged | internal/accounting/accounting.go:505-512 | Every interval with a reset splits at its last one, and is charged so |
| CounterRuns.ReachingBaselineLosesBytes | internal/accounting/accounting.go:505-512 | A run from a new device: a counter that comes back to its old value before the dump after a reset loses that many bytes |
| CounterRuns.ResetLosesUnseenBytes | internal/accounting/accounting.go:505-512 | A run from a new device: what was carried between a dump and a reset is never charged |
| CounterRuns.IdleResetLosesBytes | internal/accounting/accounting.go:326-335 | A run from a new device: an idle dump after a reset keeps the old baseline, and the bytes up to it are lost |
| Rollups.RunKeeps | internal/accounting/samples.go:37-145 | Over every run of pushes, clears, flushes and deletions each hourly rollup is the sum of its samples, each daily one of its hours, and every pushed byte is buffered, sampled or accounted as dropped |
| Rollups.FlushAddsOnce | internal/accounting/samples.go:113-138 | A flush adds every live entry exactly once to sample, hour and day, in any iteration order |
| Rollups.FlushIsDeterministic | internal/accounting/samples.go:113-138 | The rows after a flush do not depend on that order |
| Rollups.HourInDay | internal/accounting/samples.go:130-134 | The day of an hour bucket is the day of the sample |
| Rollups.TruncateExactly | internal/accounting/samples.go:130-134 | A time is truncated to the start of the one bucket that holds it |
| Rollups.PushedExactly | internal/accounting/samples.go:37-55 | A push adds its bytes, by direction, to the one slot of its device that holds the time |
| Sampler.Accounting.Push | internal/accounting/samples.go:37-55 | One delta into its truncated bucket |
| Sampler.Accounting.ClearDevices | internal/accounting/samples.go:59-74 | Exactly the entries of the devices go |
| Sampler.Accounting.WriteBatch | internal/accounting/samples.go:95-140 | The transaction writes the whole batch in some order and counts the live entries |
| Sampler.Accounting.FlushSamples | internal/accounting/samples.go:89-145 | A flush commits the batch or loses it, never half of it |
| Archives.RankedIsTheOne | internal/backup/list.go:90-95 | Newest-first order of a directory is unique |
| Archives.NewerExactly | internal/backup/list.go:90-95 | Later modification first, then the lexicographically greater name |
| Archives.PageTimes | internal/backup/list.go:76-87 | Times on a page never increase, the next cursor is its last archive, and nothing left over is younger |
| Archives.TopIsPrefix | internal/backup/list.go:64-83 | The newest n kept while scanning are the first n of everything sorted |
| Archives.WalkVisitsAll | internal/backup/list.go:24-88 | Following cursors to the end visits every archive that stays present exactly once, whatever appears or goes meanwhile |
| Archives.WalkDescends | internal/backup/list.go:24-88 | A walk never repeats an archive nor steps back |
| ArchiveHeap.Candidates.Push | internal/backup/list.go:64-64 | Keeps heap order and adds exactly the archive |
| ArchiveHeap.Candidates.Pop | internal/backup/list.go:65-67 | Removes an oldest archive and keeps heap order |
| ArchiveHeap.RootIsOldest | internal/backup/list.go:97-104 | Heap order puts an oldest archive at the root |
| ArchiveHeap.SortNewestFirst | internal/backup/list.go:76-76 | The survivors sorted are the unique newest-first order |
| ArchiveListing.ListPage | internal/backup/list.go:27-88 | Exactly the page that sorting the whole directory would give, with a next cursor exactly when more remain; a bad cursor, a missing and an unreadable directory as the code answers them |
| ArchiveListing.Scan | internal/backup/list.go:49-75 | The batch loop keeps the newest limit+1 eligible archives |
| ArchiveListing.FilesExactly | internal/backup/list.go:52-63 | Listed are exactly the regular files with an archive name that could be read, with their own time and size |
| ArchiveListing.KnownNames | internal/backup/backup.go:630-640 | A name the service gives is valid; another prefix or suffix, a separator or two dots are not |
| ArchiveListing.NextCursorAccepted | internal/backup/list.go:32-40 | A cursor handed out is accepted again unless its text is too long or its time is zero |
| EgressSafety.Reached | internal/egress/store.go:439-1212 | Every state reached by any run of service calls has whole references, chains of length at most one without self-loops, and distinct slots in 1..63 |
| EgressSafety.StepKeeps | internal/egress/store.go:439-1212 | Each of the fifteen calls keeps graph integrity |
| EgressSafety.FreeSlotIsLeast | internal/egress/store.go:468-477 | The slot search finds the least free slot, or none when all are taken |
| EgressSafety.FullExactlyAtTheLimit | internal/egress/store.go:468-477 | The node is full exactly at 63 outbounds |
| EgressSafety.ViaAcceptedExactly | internal/egress/store.go:656-691 | A chain is accepted exactly when it leaves all chains one level deep and loop-free |
| EgressSafety.DeletableExactly | internal/egress/store.go:636-737 | An outbound can be deleted exactly when that breaks no reference |
| EgressSafety.CheckMembersExact | internal/egress/store.go:820-839 | Members pass exactly when distinct, existing and weighted 1..10 |
| EgressOrder.MoveIsOneTransposition | internal/egress/store.go:1107-1151 | MoveRule exchanges two neighbours of the evaluation order |
| EgressOrder.MoveChangesPositionsOnly | internal/egress/store.go:1144-1148 | The same rules remain, with distinct positions |
| EgressOrder.MoveAtEndIsNothing | internal/egress/store.go:1139-1142 | A move has no effect exactly at an end |
| EgressOrder.MoveBackRestores | internal/egress/store.go:1107-1151 | An effective move and its opposite restore the order |
| EgressOrder.CreateAppends | internal/egress/store.go:1056-1067 | A new rule is evaluated last |
| EgressOrder.DeleteKeepsOrder | internal/egress/store.go:1154-1163 | Deleting a rule keeps the order of the others |
| EgressOrder.EditKeepsOrder | internal/egress/store.go:1078-1105 | Editing or toggling a rule keeps the order |
| EgressOrder.OrderUnique | internal/egress/store.go:946-947 | Distinct positions give one evaluation order |
| EgressStore.Store.FindSlot | internal/egress/store.go:451-477 | The row scan and counting loop compute the least free slot |
| EgressStore.Store.Create | internal/egress/store.go:439-494 | Creation stores the row or reports the first failing check |
| EgressStore.Store.ValidateVia | internal/egress/store.go:661-691 | The chain check with its scan of all outbounds |
| EgressStore.Store.Edit | internal/egress/store.go:497-551 | An edit stores the checked row or reports the first failing check |
| EgressStore.Store.References | internal/egress/store.go:693-737 | The scans find a reference exactly when there is one |
| EgressStore.Store.RemoveOutbound | internal/egress/store.go:638-654 | Deletion of an unreferenced outbound only |
| EgressStore.Store.ValidateMembers | internal/egress/store.go:820-839 | The member loop reports the first fault or the weighted members |
| EgressStore.Store.AddBalancer | internal/egress/store.go:844-869 | A new balancer within the limit and with a free name |
| EgressStore.Store.ReplaceBalancer | internal/egress/store.go:872-890 | A replaced balancer definition |
| EgressStore.Store.RemoveBalancer | internal/egress/store.go:905-921 | Deletion of an unreferenced balancer only |
| EgressStore.Store.AddRule | internal/egress/store.go:1048-1076 | A new rule after the last position |
| EgressStore.Store.Move | internal/egress/store.go:1108-1151 | Search, exchange and renumbering loop give the specified order |
| EgressRows.CreateRuleExactly | internal/egress/store.go:984-1076 | A rule is created exactly when its name, target, presets and matchers are good, there is room and the ID is new; the row holds target, presets, matchers, flag and trimmed name as asked for, last in order, and nothing else changes |
| EgressRows.UpdateRuleExactly | internal/egress/store.go:1079-1093 | A rule is replaced exactly when it exists and the new one is good; the row holds what was asked for at its old position, and nothing else changes |
| EgressRows.RuleEditsExactly | internal/egress/store.go:1096-1163 | A toggle changes one flag, a deletion removes one rule, a move changes positions only |
| EgressRows.RuleRefusals | internal/egress/store.go:984-1093 | A refused rule has the fault that is named |
| EgressRows.SettingsExactly | internal/egress/store.go:1191-1234 | The default route becomes any existing target but blocking, and nothing else changes |
| EgressRows.CreateBalancerExactly | internal/egress/store.go:800-869 | A balancer is created exactly when its name, strategy, fallback and members are good and there is room; the row holds them as asked for, weight 0 as 1 and no fallback as direct |
| EgressRows.UpdateBalancerExactly | internal/egress/store.go:872-890 | The same for a replacement, of an existing balancer only |
| EgressRows.BalancerEditsExactly | internal/egress/store.go:893-921 | A toggle changes one flag, a deletion removes one balancer |
| EgressRows.BalancerDeletableExactly | internal/egress/store.go:905-921 | A balancer can be deleted exactly when that breaks no reference |
| EgressRows.BalancerRefusals | internal/egress/store.go:800-890 | A refused balancer has the fault that is named |
| EgressRows.CreateOutboundExactly | internal/egress/store.go:218-494 | An outbound is created exactly when name and address are good, fewer than 63 exist and the name is free; the row holds what was asked for, enabled, in the least free slot |
| EgressRows.CreateOutboundRefusals | internal/egress/store.go:218-494 | A refused creation has the fault that is named |
| EgressRows.DeleteOutboundExactly | internal/egress/store.go:638-654 | A deletion removes that outbound and nothing else |
| EgressRows.UpdateOutboundExactly | internal/egress/store.go:497-573 | An edit goes through exactly when every given part is good; what was given is stored, what was not stays, and no other row changes |
| EgressRows.UpdateOutboundRefusals | internal/egress/store.go:497-691 | A refused edit has the fault that is named |
| EgressRows.ReplaceConfigExactly | internal/egress/store.go:576-598 | A re-import of a WireGuard outbound takes over the parsed tunnel, but for the chain and a bridge without an address |
| EgressRows.RenewWarpExactly | internal/egress/store.go:306-356 | A renewed WARP device has the new registration and keeps name, slot, MTU, chain and an endpoint the operator chose |
| Addresses.BroadcastOf | internal/device/device.go:276-284 | The mask arithmetic through four bytes gives base + 2^hostBits - 1 |
| Addresses.BroadcastIsLast | internal/device/device.go:276-284 | It is the greatest address of the prefix |
| Addresses.ContainsExactly | internal/device/device.go:264-264 | Equal network bits mean exactly the block from the base on |
| Allocation.FirstFreeExact | internal/device/device.go:255-274 | Allocation is the lowest unused host of the first pool that has one, and fails exactly when every assignable host is used |
| Allocation.FirstFreeHoused | internal/device/device.go:255-274 | What is allocated is an unused device address of a pool; nothing is allocated only when every one is used |
| Allocation.AssignableIsHost | internal/ipam/pools.go:34-38 | The shared policy admits exactly the addresses strictly between gateway and broadcast |
| Allocation.HousedStrictlyInside | internal/ipam/pools.go:34-38 | No device address is a network, gateway or broadcast address |
| Allocation.CapacityExact | internal/ipam/pools.go:32-38 | A pool serves all but three of its addresses |
| Allocation.AllocateIP | internal/device/device.go:234-274 | The probing loops compute that address |
| Pools.FaultExact | internal/ipam/pools.go:62-80 | Validation passes exactly for 1..16 canonical private pools of /29 or larger of which no two overlap |
| Pools.OverlapsExactly | internal/ipam/pools.go:72-76 | Two prefixes overlap exactly when they share an address |
| Pools.PoolsDisjoint | internal/ipam/pools.go:62-80 | The pools of an interface share no address |
| Pools.Validate | internal/ipam/pools.go:62-80 | The nested loops report the first fault in order |
| Pools.TenSlash24 | internal/device/device.go:255-272 | A concrete pool: 10.0.0.0/24 is valid and its first device address is 10.0.0.2 |
| Pools.PoolOkExactly | internal/ipam/pools.go:62-80 | A pool is a canonical network of at least eight addresses, every one of them private |
| Devices.Reached | internal/device/device.go:97-232 | Over every run of calls the addresses of an interface stay distinct and assignable, and keys and names unique |
| Devices.ReachedAddresses | internal/device/device.go:255-272 | No reachable device has a network, gateway or broadcast address |
| Devices.EveryRunAddresses | internal/device/device.go:97-274 | From a node without devices, after any run of calls: addresses distinct per interface, and strictly between gateway and broadcast of a pool of it |
| Devices.ExhaustedExactly | internal/device/device.go:273-273 | A create answers that the pool is exhausted exactly when it passed the checks before and every device address of the interface is taken |
| Devices.LimitHolds | internal/device/device.go:170-187 | A create never takes a user past the device limit |
| Devices.DeleteUndoesCreate | internal/device/device.go:610-640 | Deleting a device frees address, key and name |
| DeviceStore.Store.Add | internal/device/device.go:97-232 | One transaction with the checks in order: the specified row or the first error |
| DeviceStore.Store.UpdatePools | internal/iface/pools.go:96-167 | The primary pool stays and no occupied pool goes, so no device loses its pool |
| DeviceRows.CreateExactly | internal/device/device.go:97-232 | A device is created exactly for a live, enabled user below the limit, with a fresh key and a free name, on an enabled interface with a free address |
| DeviceRows.CreateStores | internal/device/device.go:111-230 | The row holds user, trimmed name, key and interface as asked for, enabled, at a device address nobody on the interface has; nothing else changes |
| DeviceRows.ChosenOrder | internal/device/device.go:143-168 | The interface asked for comes first, then the user's own, then the first enabled one |
| DeviceRows.CreateRefusals | internal/device/device.go:97-232 | A refused create has the fault that is named |
| DeviceRows.RenameExactly | internal/device/device.go:456-481 | A rename goes through exactly for a good name no other device of the user has |
| DeviceRows.SetEnabledExactly | internal/device/device.go:443-454 | A toggle changes one flag |
| DeviceRows.RegenerateExactly | internal/device/device.go:484-528 | A fresh key pair replaces the old one, whose peer is noted for removal |
| DeviceRows.DeleteExactly | internal/device/device.go:610-640 | A deletion removes one row and notes its peer for removal |
| DeviceRows.EditPoolsExactly | internal/iface/pools.go:96-167 | Pools are replaced exactly when valid, with the same primary one and without dropping one in use |
| DeviceRows.EditPoolsRefusals | internal/iface/pools.go:96-167 | A refused edit of the pools has the fault that is named |
| MailboxTheorems.ClaimedAtMostOnce | internal/domainqueue/queue.go:182-204 | Over every interleaving and crash, Claim returns each request at most once |
| MailboxTheorems.OneRunsAtATime | internal/domainqueue/queue.go:186-203 | While a request executes, running.json holds exactly it |
| MailboxTheorems.InterruptedIsNotRetried | internal/domainqueue/queue.go:363-375 | A request found interrupted after its pending file was removed is never claimed again |
| MailboxTheorems.EndedBeforeRemoved | internal/domainqueue/queue.go:230-246 | running.json goes only after a terminal status of its request was recorded |
| MailboxTheorems.NothingRunsUnreported | internal/domainqueue/queue.go:230-375 | Whatever reached running.json is still there or was reported ended |
| MailboxEdges.ReportedInterruptedYetRun | internal/domainqueue/queue.go:195-202 | A run from the empty mailbox in which a request is reported as interrupted and then executed |
| MailboxEdges.InterruptedRunsExactly | internal/domainqueue/queue.go:363-375 | An interrupted request has a continuation that runs it exactly when request.json still holds it and it is fresh |
| MailboxEdges.SuccessReportedInterrupted | internal/domainqueue/queue.go:242-245 | A run from the empty mailbox in which a request succeeds and is then reported as interrupted |
| MailboxEdges.OutcomeChangesExactly | internal/domainqueue/queue.go:230-246 | An ended request that is not pending can be reported as interrupted exactly while running.json holds it |
| MailboxEdges.SettledStays | internal/domainqueue/queue.go:230-246 | An ended request that neither file holds stays so in every continuation, and its status is never rewritten |
| MailboxEdges.StaleRequestBlocks | internal/domainqueue/queue.go:192-194 | An unclaimed request older than an hour stays and stops every later claim |
| MailboxEdges.ReachBlocked | internal/domainqueue/queue.go:182-204 | A run from the empty mailbox to a request that blocks it |
| MailboxEdges.ClaimableExactly | internal/domainqueue/queue.go:182-204 | A pending request has a continuation that claims it exactly when it is fresh or being claimed already |
| MailboxQueue.Mailbox.Enqueue | internal/domainqueue/queue.go:155-180 | Refuses while a request runs; otherwise the link decides: it stores the new request, or meets a pending one and keeps it |
| MailboxQueue.Mailbox.Claim | internal/domainqueue/queue.go:182-204 | Without a failed file operation a fresh pending request is returned, running and recorded, never one returned before; without one or with a stale one the input is invalid, while one runs the queue is busy; an error claims nothing |
| MailboxQueue.Mailbox.Finish | internal/domainqueue/queue.go:230-246 | The final status, keeping what a failed operation noted, and then no running.json; an error is a failed file operation |
| MailboxQueue.Mailbox.RecoverInterrupted | internal/domainqueue/queue.go:363-375 | What an earlier runner left is reported interrupted and forgotten; an error is a failed file operation |
| MailboxQueue.Mailbox.RunRequest | cmd/wg-guard/domains.go:114-151 | A runner that finds no request claims nothing and answers no error; one that finds a request claims exactly that one when it is fresh and no file operation fails, and answers no error exactly when it succeeded; otherwise the error says why |
| IdempotencyTheorems.ExecutionsNeverOverlap | internal/api/idempotency.go:71-115 | Two handlers of one token and key never run at the same time |
| IdempotencyTheorems.OneEffectPerLifetime | internal/api/idempotency.go:36-36 | One key has at most one successful execution per 24 hours |
| IdempotencyTheorems.NoHandlerAfterSuccess | internal/api/idempotency.go:106-114 | After a 2xx outcome no handler starts until the row expires, stored or not |
| IdempotencyTheorems.OtherHashNeverExecutes | internal/api/idempotency.go:85-88 | A request executes only under a row with its own hash |
| IdempotencyTheorems.ReplayIsTheFirstResponse | internal/api/idempotency.go:92-98 | A replay equals the response of the one live success, for the same request |
| IdempotencyTheorems.ReplayHasASuccess | internal/api/idempotency.go:138-165 | Nothing is replayed that did not succeed |
| IdempotencyTheorems.StoredStays | internal/api/idempotency.go:118-193 | A stored response stays until it expires, so retries replay it |
| IdempotencyTheorems.LateHandlerOverlaps | internal/api/idempotency.go:118-136 | Once the row of a running handler has expired or is gone, a retry executes beside it |
| IdempotencyTheorems.TwoHandlersAtOnce | internal/api/idempotency.go:118-136 | A run from the empty table in which two handlers of one key execute at the same time |
| IdempotencyTheorems.RetryOverlapsExactly | internal/api/idempotency.go:118-136 | A retry executes beside a running handler exactly when that one has run for the lifetime of its row |
| IdempotencyTheorems.OverlapNeedsALateHandler | internal/api/idempotency.go:71-115 | Two handlers of one key at the same time mean that some handler was late before |
| IdempotencyTheorems.FrameInjective | internal/api/idempotency.go:193-201 | The hashed bytes tell requests without NUL in method and path apart |
| IdempotencyTheorems.NulInPathIsAmbiguous | internal/api/idempotency.go:193-201 | A NUL in the path makes two requests hash alike |
| IdempotencyTheorems.SameFrameExactly | internal/api/idempotency.go:193-201 | Two requests hash alike exactly when they are equal, or one path continues the other over a NUL and the bodies make up for it |
| IdempotencyProtocol.RunKeeps | internal/api/idempotency.go:45-193 | Every statement, handler end, lost request and prune keeps the table invariant |
| IdempotencyProtocol.SettledOutcome | internal/api/idempotency.go:106-114 | A settlement that goes through stores a 2xx response in the row of the key and removes the row after any other outcome; one that fails changes nothing |
| IdempotencyProtocol.PrunedExactly | internal/api/idempotency.go:182-191 | Pruning removes exactly the rows that expired before now |
| IdempotencyTheorems.RetryAfterOutcome | internal/api/idempotency.go:45-116 | A retry right after a released failure executes, whatever it asks; after a stored success it gets the response or is refused as another request |
| IdempotencyStore.Table.Settlement | internal/api/idempotency.go:106-114 | Unless its statement fails, the row of a success holds its response, and after a failure there is none |
| IdempotencyStore.Table.Claim | internal/api/idempotency.go:118-136 | The claim owns a fresh row, or meets an existing one; an error is a failed statement |
| IdempotencyStore.Table.Find | internal/api/idempotency.go:138-165 | Exactly when it answers replay, reuse or in progress, and the replayed response |
| IdempotencyStore.Table.Wrap | internal/api/idempotency.go:45-116 | One request from arrival to answer; a fresh answer is the handler's, and unless a statement failed its row then holds a 2xx response, and is gone after any other; an error means no handler ran |
| Schedule.NextRunIsLeast | internal/backup/schedule.go:72-97 | A wall-clock schedule next runs at its earliest matching instant strictly later |
| Schedule.FallbackUnreachable | internal/backup/schedule.go:90-96 | The eight-step search always succeeds |
| Schedule.NextRunIsLater | internal/backup/schedule.go:72-83 | Every valid schedule runs strictly later |
| Schedule.AdvancedIsLater | internal/backup/schedule.go:299-304 | The stored next run is after the moment the attempt ended |
| Schedule.BacklogCoalesces | internal/backup/schedule.go:299-304 | Missed wall-clock slots coalesce into the first slot after now |
| Schedule.IntervalAdvance | internal/backup/schedule.go:299-304 | An interval keeps its phase exactly while it keeps up |
| Schedule.ValidExactly | internal/backup/schedule.go:46-70 | What a valid schedule looks like, kind by kind |
| Schedule.KnownClocks | internal/backup/schedule.go:86-89 | Texts of times of day and the seconds after midnight they stand for |
| Schedule.KnownWeekdays | internal/backup/schedule.go:91-91 | Known dates fall on their weekdays |
| Schedule.KnownRun | internal/backup/schedule.go:72-97 | A Sunday backup at 01:02 next runs on 2 January 2000 when it is noon the day before |
| Scheduler.NextWallClock | internal/backup/schedule.go:86-97 | The loop computes the specified search |
| Scheduler.OneRunPerBacklog | internal/backup/schedule.go:299-311 | In the life of an unedited schedule an attempt leaves it due exactly when its update was not stored; otherwise a wall-clock one is left at a firing instant of its own, before the next attempt starts |
| Scheduler.AttemptsNeverOutnumberSlots | internal/backup/schedule.go:236-314 | Over any number of passes an unedited wall-clock schedule is attempted at most as often as it fired since its creation, plus once for each attempt whose update was not stored |
| Scheduler.TwoAttemptsAtOneSlot | internal/backup/schedule.go:236-239 | Every due wall-clock schedule can be attempted twice at its one slot, when the first update is not stored |
| Scheduler.AttemptContinuesLife | internal/backup/schedule.go:296-311 | An attempt of a pass at a row nobody edited continues the life of its schedule: with the stored update, or with the row as it was |
| Scheduler.Schedules.Create | internal/backup/schedule.go:164-185 | A valid schedule is stored as given, never run, with its first run after now; an invalid one is refused |
| Scheduler.Schedules.Update | internal/backup/schedule.go:188-213 | An edit recomputes the next run and keeps the run history |
| Scheduler.Schedules.SelectDue | internal/backup/schedule.go:252-270 | The at most eight soonest due schedules |
| Scheduler.Schedules.Advance | internal/backup/schedule.go:301-311 | Advances unless the row was edited, disabled or advanced meanwhile, or the update fails |
| Scheduler.AdvancedRowsExactly | internal/backup/schedule.go:305-311 | The update of an attempt notes the run in the row it served and nowhere else; a row disabled, edited or advanced meanwhile stays |
| Scheduler.Schedules.RunDue | internal/backup/schedule.go:242-314 | Each due schedule is attempted, with the status of its archive, up to the first archive that was given up or update that failed; its one update stores a next run after the attempt, and the pass writes nothing more |
| AwgRange.ParsePrint | internal/awgparam/range.go:76-134 | parse(String(r)) = r for every range within the bound |
| AwgRange.ParseAcceptsExactly | internal/awgparam/range.go:76-112 | Accepts exactly N or N-M with N <= M within the bound |
| AwgRange.PrintParse | internal/awgparam/range.go:128-134 | String(parse(t)) only drops leading zeros and collapses N-N |
| AwgRange.CanonicalIsFixed | internal/awgparam/range.go:128-134 | Printed text is canonical |
| AwgRange.JSONRoundTrip | internal/awgparam/range.go:158-220 | The JSON encoding round-trips |
| AwgRange.UnmarshalExactly | internal/awgparam/range.go:158-220 | A JSON integer and a quoted text are parsed as what they show, and nothing else is accepted |
| AwgRange.SQLRoundTrip | internal/awgparam/range.go:236-267 | The SQL encoding round-trips, zero and only zero as empty text |
| AwgRange.ScannedIsStable | internal/awgparam/range.go:236-267 | Whatever is scanned is within the bound and stable under storing |
| AwgRange.ScanExactly | internal/awgparam/range.go:236-267 | A number is the range of itself, no value is zero, text is parsed |
| AwgRange.KnownTexts | internal/awgparam/range.go:76-112 | Some texts and the ranges or faults they stand for |
| AwgRange.OverlapsExactly | internal/awgparam/range.go:123-126 | Overlap means a shared value |

## Left out

* fsync and power loss: a write is visible to the next process once made; only process death is modelled, and a sync only as a call that may answer an error.
* The contents of archives: decryption, hashes (taken as injective), the SQL inspection of a staged database, the copy of the configuration file and the warnings of a restore report.
* Progress of recovery after a death inside the last clean-up of the transaction directory: the node stays closed, which the model shows, and an operator has to act.
* Lock calls of other operating systems, errors of a lock call other than a conflict and of reading the marker on the way to a lease or claim, the in-process mutexes beside the work bytes, and the layout checks of the data directory.
* Kernel counters that pass 2^64, the `disable_reason` column, audit entries, webhook events, the shaper, and reconciliation after a cycle.
* The buffer and the sample tables add unbounded numbers: the uint64 wrap of a buffered sum and the int64 limit of a stored one are not modelled, nor is retention pruning.
* Timestamps are integers: the text comparison of stored RFC 3339 instants, which trims trailing zeros, is taken as the comparison of instants.
* Archive names are sequences of characters standing for bytes; a directory names each entry once while it is read; the `Encrypted` flag of a listed archive is left out.
* Egress: secrets, the WARP registration and license calls, and the syntax of endpoints, client configs, matchers and URLs enter as results of those checks; identifiers are numbers with 0 for the empty one; each service call is one atomic step, although some checks run before its transaction.
* Devices: the first enabled interface by name is a parameter of the create call; pools are parsed prefixes, and the tests of a new pool against other interfaces and host routes are left out; `ReplaceUserCredentialsTx` changes keys only.
* Mailbox: the validation of domain inputs, the staging of imported certificates, the renewal of due domains and the inventory; whether the actor is still authorized and whether the operation works are parameters of a run; request IDs never repeat.
* Idempotency: reading the body, the token check, headers, corrupt snapshots; the stored key is taken as injective in token and client key. Statements are atomic, and a failed one has done nothing.
* Schedules: the character classes of a schedule name, the archive work itself (how the archive of each turn ends is a parameter), and a pass that cannot get its claim or read the due rows and then does nothing; deletion is one of the edits that may happen meanwhile, and the clock does not run backwards. Civil dates are days of 24 hours from Monday, 1 January of year 1, in UTC.
* Ranges: JSON strings with escapes, and nil receivers.
* LeaseEngine.DataDir.Others: what other handles do between two calls is only bounded by its contract; the theorems cover all of their steps.
* MailboxQueue.Mailbox.Claim: reads running.json, request.json and the clock as one step before the link; the theorems interleave senders there too.
