# Block pool, garbage collection, flashback, external reads, routing and timeouts of OceanBase

A Dafny model of six pieces of OceanBase's log service and its neighbours, and proofs of what they promise.
`dafny verify dfyconfig.toml` checks all of it.

- **Server log block pool** (`BlockPool*.dfy`, `LogBlockMgr.dfy`, `TenantLedger.dfy`). A state machine with one
  step per system call or critical section: creates and removes of tenants, one resize, crashes at any point, and
  the load after a restart. The class `LogBlockMgr` has the source's methods; each small one is one step of the
  machine and each loop returns the run it went through, so the theorems about runs cover every point inside it.
- **Log-stream garbage collection** (`Gc*.dfy`). Replay of the gc entries and its convergence; the life of a log
  stream over all replicas and its row in the status table; the submit/callback race around `rec_scn_`; the
  two-round membership rule; the handler's and the collector's methods.
- **Flashback** (`Flashback*.dfy`). The operators, the passes and the four stages. What every other server answers
  in every pass, and which replies arrive when, is an input, the network; the stage order and the acknowledgements are
  stated about its answers.
- **Parallel external read** (`ExternalRead.dfy`). The split, the issue loop, the wait, and the buffer.
- **Inner-SQL transaction routing** (`InnerSql.dfy`). The routing state and the connection's methods.
- **Timeout list** (`TimeoutList.dfy`). The circular doubly linked list on the heap and its sweep.

## Assumptions

- In a crash of the process what a completed system call did to a directory stays. In a power failure
  (`BlockPoolPower.dfy`) directory changes are lost from the last ones back, at most to the last sync; the meta file is
  opened for synchronous writes (`src/logservice/ob_server_log_block_mgr.h:48`). Rename, fsync, unlink and the meta
  write succeed in the end; block allocation may fail, with any leftovers in the expanding directory.
- A shrink is safe under the rule the ledger exists for: while it runs, the blocks in use fit the ledger.
  `BlockPoolLoss.dfy` does without that rule. Callers of the ledger pass each tenant's recorded size.
- palf expands at once and shrinks later (`src/logservice/palf/palf_env_impl.cpp:127-175`), refuses a size below what
  its log streams need (`:1419-1430`) and a log stream its limit has no room for (`:1211-1219`).
- A server that can append has replayed the whole committed log, and an appended gc entry commits where its leader
  put it or not at all. The collector is the only one to delete rows of the status table.
- Answers of other servers, the location cache, tenant availability, devices and timeouts are arbitrary.
- Where a lemma asks for set answers (`AnswersAreSet`): the handler of the call for a leader's state first checks the
  role (`src/logservice/logrpc/ob_log_request_handler.cpp:182-212`), which fails on an uninitialised log
  (`src/logservice/palf/palf_handle_impl.cpp:476-484`), and an initialised one fills the answer
  (`src/logservice/palf/palf_handle_impl.cpp:5039-5083`), with a member list that holds at least the leader itself.

## Where the code decides

- `ob_server_log_block_mgr.h` says that `start` initialises the tenants' ledger; the code does not, and the model
  follows the code.
- `ob_log_external_storage_handler.h` says that a concurrency above 128 is rejected; the code clamps it.
- "A load after a crash finishes a shrink" is false if a remove was in flight: `ContinuedShrinkCanRunDry` is the run,
  `ContinuedShrinkDryExactly` and `LoadsExactly` are the exact condition.
- "At rest the accounts agree" is false without the ledger rule: `ShrinkCanLose` is the run, `AccountsAgreeExactly` the
  exact statement, over every run.
- "Tenants are never promised more disk than there is" is false after a size below palf's stable one is given to a
  tenant off the ledger: `HiddenTenantOversells`, with `CarelessExactly` as the exact condition.
- "The offline scn stays fixed" is false after the step to WAIT_GC: `WaitGcForgetsOfflineScn`, with
  `OfflineScnExactly` as the exact statement.
- "Every log stream is flashed back" is false if the list holds an invalid id: `InvalidIdIsDropped`, with
  `CoversAllExactly` as the exact condition.
- "A transaction stays where it began" is false after a failed remote commit or rollback, for a remote start without
  a valid id, and for `execute` in a remote one: `ReuseAfterFailedCommitStrays`, `ExecuteLeavesRemoteTransaction`, with
  `StickyExactly`, `RoutedStickyExactly` and `TidyExactly` as the exact conditions.
- "A log stream that passes the log-sync check has its replicas in sync", and "success of a flashback means
  acknowledgement", are empty for a leader that answers with no member, as an unset answer does: `BlindPassExactly` and
  `SilentSuccessExactly` are the exact conditions.
- "Acknowledgement by everyone means success" is false for a server that is on both lists: its replies count as those
  of a member only. `FullyAcknowledged` says that success needs lists without such a server, `PassSucceeds` that it
  follows for them.

## Model

| member | source | states |
|---|---|---|
| `BlockPool.FirstGap` | src/logservice/ob_server_log_block_mgr.cpp:662-670 | everything before the returned position is one run of consecutive ids and the id there breaks it; 0 means no gap |
| `BlockPoolTrim.ScanTrimOk` | src/logservice/ob_server_log_block_mgr.cpp:690-699 | starting the trim at the first gap leaves [min, max) as the run before it and all later ids above it |
| `BlockPoolTrim.TrimStep` | src/logservice/ob_server_log_block_mgr.cpp:703-721 | one rename of the trim goes to an id not in use, keeps the number of blocks and the trim's invariant |
| `BlockPoolInvariant.TakeMinKeeps` | src/logservice/ob_server_log_block_mgr.cpp:913-933 | taking an id from the low end, for a shrink that finds one or is continued by a load, keeps the pool invariant |
| `BlockPoolInvariant.LowerAlignExactly` | src/logservice/ob_server_log_block_mgr.cpp:1282-1284 | a target is the largest multiple of the block size that is not above what was asked for |
| `BlockPoolInvariant.VerifyKeeps` | src/logservice/ob_server_log_block_mgr.cpp:770-776 | the integrity check that ends loading passes for every state the loading can reach |
| `BlockPoolInvariant.CrashKeeps` | src/logservice/ob_server_log_block_mgr.cpp:589-621 | whatever part of the expanding directory survives, a crash leaves a disk that loading can start from |
| `BlockPoolInvariant.StepKeepsUnlessDry` | src/logservice/ob_server_log_block_mgr.cpp:589-1225 | every step of every thread, crashes included, keeps the pool invariant, except that of a shrink that meets an empty pool while the server is up |
| `BlockPoolInvariant.StepKeepsInv` | src/logservice/ob_server_log_block_mgr.cpp:589-1225 | with tenants within the ledger there is no such step: every step keeps the invariant |
| `BlockPoolTheorems.RunKeepsInv` | src/logservice/ob_server_log_block_mgr.cpp:178-324 | the invariant holds over whole runs with any interleaving and any crashes |
| `BlockPoolTheorems.AtRestAccountsAgree` | src/logservice/ob_server_log_block_mgr.cpp:841-857 | whenever no resize runs, curr_total_size_ is BLOCK_SIZE times free plus in use, and times the blocks on disk; without moves in flight the pool directory is exactly [min, max) |
| `BlockPoolTheorems.ShrinkNeverRunsDry` | src/logservice/ob_server_log_block_mgr.cpp:1157-1174 | no reachable state has a shrink of a running server that met an empty pool |
| `BlockPoolTheorems.ShrinkDryExactly` | src/logservice/ob_server_log_block_mgr.cpp:1157-1174 | without the ledger assumption a shrink step fails exactly when the tenants hold all blocks left, and then they use more than the target |
| `BlockPoolLoss.LossStep` | src/logservice/ob_server_log_block_mgr.cpp:966-1001 | while the server is up every step keeps: with the blocks lost by shrinks that ran dry counted as used, the pool invariant holds |
| `BlockPoolLoss.VerifyExactly` | src/logservice/ob_server_log_block_mgr.cpp:770-776 | for any disk a load can meet, the integrity check passes exactly if the recorded total is the blocks on disk, and then nothing counts as lost |
| `BlockPoolLoss.AccountsAgreeExactly` | src/logservice/ob_server_log_block_mgr.cpp:966-1001 | over every run from a fresh pool, with any crashes and whatever tenants use: at rest the recorded total exceeds the blocks on disk by exactly what shrinks unlinked before they ran dry, since the last load; so the accounts agree, and the next load passes its check, exactly if that is none |
| `BlockPoolLoss.ShrinkCanLose` | src/logservice/ob_server_log_block_mgr.cpp:1157-1174 | a run in which a block is lost: a tenant takes the last block while a shrink has unlinked one |
| `BlockPoolTheorems.RenamesNeverOverwrite` | src/logservice/ob_server_log_block_mgr.cpp:935-949 | no rename into the pool (remove, expand, trim) has an id in use as its target, and only an expansion adds and only a shrink takes a block; the target of a create is not in the pool |
| `BlockPoolTheorems.WaitingIsForAnEnabledRename` | src/logservice/ob_server_log_block_mgr.cpp:1386-1397 | a create or shrink whose block is not in the pool yet waits for the rename of a remove or of an expansion, and that rename is enabled |
| `BlockPoolRecovery.LoadAfterCrash` | src/logservice/ob_server_log_block_mgr.cpp:589-776 | a load that gets through ends NORMAL with the pool exactly [min, max), all tenant blocks, and the settled size |
| `BlockPoolRecovery.CrashRecovery` | src/logservice/ob_server_log_block_mgr.cpp:966-1044 | the same for a crash at any point of any reachable state, and for further crashes while loading: the size is the one before the resize, or its target if one was interrupted, and equals the blocks on disk |
| `BlockPoolRecovery.ContinuedShrinkDryExactly` | src/logservice/ob_server_log_block_mgr.cpp:726-747 | a shrink continued by a load meets an empty pool exactly when the blocks in tenant directories do not fit the target |
| `BlockPoolRecovery.ContinuedShrinkCanRunDry` | src/logservice/ob_server_log_block_mgr.cpp:726-747 | a reachable run in which that happens although the tenants stayed within the ledger: a remove in flight at the crash |
| `BlockPoolRecovery.TrimIsStable` | src/logservice/ob_server_log_block_mgr.cpp:685-724 | for any set of ids, trimming with any crashes and rescans in between ends with [a0, a0 + count), a0 being the least id |
| `BlockPoolPower.PowerStepKeeps` | src/logservice/ob_server_log_block_mgr.cpp:1003-1100 | with directory changes durable in order, at the latest when synced: every step, crash and power failure keeps that the durable blocks fit the meta, behind the real ones only between the first rename or unlink of a resize and its sync |
| `BlockPoolPower.ImageIsRecent` | src/logservice/ob_server_log_block_mgr.cpp:276-317 | after a sync a power failure takes the directories back to no earlier moment: block moves that were synced stay |
| `BlockPoolPower.PowerLossRecovery` | src/logservice/ob_server_log_block_mgr.cpp:589-776 | a power failure at any point of any run, and any more of them while loading: a load that gets through ends with the pool exactly [min, max), the settled size equal to the blocks on disk, and the tenant blocks that were durable |
| `BlockPoolPower.SyncNeededExactly` | src/logservice/ob_server_log_block_mgr.cpp:1029-1057 | once a resize is committed, what is durable loads after a power failure exactly if no rename or unlink of the resize is missing from it |
| `BlockPoolPower.ImageLags` | src/logservice/ob_server_log_block_mgr.cpp:1084-1100 | without a sync one is missing after every rename out of the expanding directory, and one block is over after every unlink |
| `BlockPoolResize.ExpandIsAtomic` | src/logservice/ob_server_log_block_mgr.cpp:1003-1044 | an expansion with any creates and removes beside it either restores ids, counts and meta, if an allocation failed, or appends exactly the missing blocks and records the target |
| `BlockPoolResize.ShrinkIsExact` | src/logservice/ob_server_log_block_mgr.cpp:1084-1100 | a shrink with any creates and removes beside it takes exactly the surplus from the low end and records the target |
| `LogBlockMgrs.LogBlockMgr.TakeMinForCreate` | src/logservice/ob_server_log_block_mgr.cpp:913-933 | one CreateBegin step of the machine, or the error codes for an empty or inverted range with nothing changed |
| `LogBlockMgrs.LogBlockMgr.TakeMaxForRemove` | src/logservice/ob_server_log_block_mgr.cpp:889-911 | one RemoveBegin step of the machine, or the error for an inverted range |
| `LogBlockMgrs.LogBlockMgr.RenameToTenant` | src/logservice/ob_server_log_block_mgr.cpp:272-279 | one CreateMove step |
| `LogBlockMgrs.LogBlockMgr.RenameToPool` | src/logservice/ob_server_log_block_mgr.cpp:310-317 | one RemoveMove step |
| `LogBlockMgrs.LogBlockMgr.CreateBlockAt` | src/logservice/ob_server_log_block_mgr.cpp:252-285 | return codes in order of checking; on success the lowest id leaves the pool, and it is a run of the machine |
| `LogBlockMgrs.LogBlockMgr.RemoveBlockAt` | src/logservice/ob_server_log_block_mgr.cpp:287-324 | on success the block comes back under the next high id, and it is a run of the machine |
| `LogBlockMgrs.LogBlockMgr.AllocateBlocksAtTmpDir` | src/logservice/ob_server_log_block_mgr.cpp:1102-1124 | succeeds exactly when the file system grants all blocks, which then are 0..cnt-1 of the expanding directory; the pool is not touched |
| `LogBlockMgrs.LogBlockMgr.MoveBlocksFromTmpDirToLogPool` | src/logservice/ob_server_log_block_mgr.cpp:1197-1225 | the pool grows by exactly cnt ids at the high end and the expanding directory is empty |
| `LogBlockMgrs.LogBlockMgr.DoExpand` | src/logservice/ob_server_log_block_mgr.cpp:1003-1044 | all or nothing: the pool is extended by cnt ids or is as before, and the expanding directory is gone |
| `LogBlockMgrs.LogBlockMgr.FreeBlocksAtLogPool` | src/logservice/ob_server_log_block_mgr.cpp:1157-1174 | succeeds exactly when the pool has cnt blocks, and then the cnt lowest are gone; else the pool is empty |
| `LogBlockMgrs.LogBlockMgr.DoShrink` | src/logservice/ob_server_log_block_mgr.cpp:1084-1100 | the same with the closing step |
| `LogBlockMgrs.LogBlockMgr.FinishResize` | src/logservice/ob_server_log_block_mgr.cpp:985-999 | writes the target on success and the old meta otherwise |
| `LogBlockMgrs.LogBlockMgr.DoResize` | src/logservice/ob_server_log_block_mgr.cpp:966-1001 | return code, pool and meta at the end for both directions, and the run of the machine from the first meta write to the last |
| `LogBlockMgrs.LogBlockMgr.Resize` | src/logservice/ob_server_log_block_mgr.cpp:178-237 | all return codes in terms of the bytes asked for; unchanged state for the refused ones and for a failed expansion, an empty pool after a failed shrink; on success whole blocks, at most what was asked for and less than one block below, and the free count that goes with it |
| `LogBlockMgrs.LogBlockMgr.CreateTenant` | src/logservice/ob_server_log_block_mgr.cpp:326-345 | adds the size exactly when the sum still fits the pool |
| `LogBlockMgrs.LogBlockMgr.AbortCreateTenant` | src/logservice/ob_server_log_block_mgr.cpp:347-358 | takes the size back |
| `LogBlockMgrs.LogBlockMgr.UpdateTenant` | src/logservice/ob_server_log_block_mgr.cpp:360-472 | all return codes; the allowed size is the wanted one if that is zero or not below palf's stable size, else the old one; the ledger with the old size replaced by it exactly when that fits the pool and palf accepts |
| `LogBlockMgrs.LogBlockMgr.RemoveTenant` | src/logservice/ob_server_log_block_mgr.cpp:474-492 | takes the size away unless that is more than the ledger holds |
| `LogBlockMgrs.LogBlockMgr.TrimLogPoolDir` | src/logservice/ob_server_log_block_mgr.cpp:685-724 | the loop of renames ends with a compact range and is a run of the machine |
| `LogBlockMgrs.LogBlockMgr.ScanLogPoolDir` | src/logservice/ob_server_log_block_mgr.cpp:629-671 | the scanned ids in order, the first gap, and the initial range |
| `LogBlockMgrs.LogBlockMgr.ScanLogPoolDirAndDoTrim` | src/logservice/ob_server_log_block_mgr.cpp:629-683 | ends with exactly [min, min + count), min being the least id found |
| `LogBlockMgrs.LogBlockMgr.TryContinueToResize` | src/logservice/ob_server_log_block_mgr.cpp:726-747 | the outcome of the continued resize for each persisted status |
| `LogBlockMgrs.LogBlockMgr.DoLoad` | src/logservice/ob_server_log_block_mgr.cpp:589-621 | succeeds exactly when the interrupted resize can be finished and the blocks then match the meta; ends at rest with the accounts agreeing |
| `LogBlockMgrs.SortedIds` | src/logservice/ob_server_log_block_mgr.cpp:650-661 | the ids of the directory, each once, in increasing order |
| `LogBlockMgrs.FindFirstGap` | src/logservice/ob_server_log_block_mgr.cpp:662-670 | the loop finds the position FirstGap describes |
| `LoadCondition.LoadsExactly` | src/logservice/ob_server_log_block_mgr.cpp:726-776 | for every disk a crash can leave: a load succeeds always if no resize was interrupted, exactly if the missing blocks can be allocated for an expansion, exactly if the tenants' blocks fit the target for a shrink |
| `TenantLedger.StepKeepsInv` | src/logservice/ob_server_log_block_mgr.cpp:326-492 | every tenant operation, resize and step of palf, opening and closing log streams included, keeps: ledger equal to the sum of recorded sizes, within the pool; recorded size at least palf's stable size, unless it is zero; the log streams fit the limit |
| `TenantLedger.NoOverselling` | src/logservice/ob_server_log_block_mgr.cpp:360-472 | over every run: the ledger is the sum of recorded sizes and fits the pool, and so do palf's stable sizes except of a hidden sys tenant |
| `TenantLedger.CreateExactly` | src/logservice/ob_server_log_block_mgr.cpp:326-345 | a tenant is created exactly if its size and the recorded sizes of all others fit the pool |
| `TenantLedger.UpdateExactly` | src/logservice/ob_server_log_block_mgr.cpp:360-472 | an update goes through exactly if palf takes the size and the size to be recorded fits the pool beside the recorded sizes of the others; what is recorded and what palf gets then; nothing changes otherwise |
| `TenantLedger.RemoveExactly` | src/logservice/ob_server_log_block_mgr.cpp:474-492 | removing a tenant takes exactly its recorded size off and is never refused |
| `TenantLedger.ResizeExactly` | src/logservice/ob_server_log_block_mgr.cpp:196-206 | the pool takes a size exactly if it holds the recorded sizes of all tenants |
| `TenantLedger.OpenExactly` | src/logservice/palf/palf_env_impl.cpp:1211-1219 | a log stream is opened exactly if the limit has 512 MB for each one and the new one |
| `TenantLedger.ZeroSizeExactly` | src/logservice/palf/palf_env_impl.cpp:1419-1430 | palf takes a zero size, which makes a tenant the hidden sys tenant, exactly if it has no log stream |
| `TenantLedger.CarelessExactly` | src/logservice/ob_server_log_block_mgr.cpp:406-414 | a tenant off the ledger is without a limit, and so without log streams, until exactly this step: an update of it to a non-zero size below palf's stable one |
| `TenantLedger.NoOversellingOfUsed` | src/logservice/ob_server_log_block_mgr.cpp:360-472 | over every run without such an update, palf's stable sizes of all tenants with log streams fit the pool, the hidden sys tenant included |
| `TenantLedger.HiddenTenantOversells` | src/logservice/ob_server_log_block_mgr.cpp:406-414 | such an update is real from every ledger: a tenant without log streams is taken off, then given the least size before palf has shrunk; it has a log stream again, and palf may write to more than the pool by just its stable size |
| `GcReplay.FirstOffline` | src/logservice/ob_garbage_collector.cpp:1133-1171 | the scn of an OFFLINE entry of the log, none exactly when the log has no such entry |
| `GcReplay.ReplayMeaning` | src/logservice/ob_garbage_collector.cpp:1072-1171 | replaying any log gives what it means without replaying: offline with the scn of the first OFFLINE entry, else blocked, else normal |
| `GcReplay.EntryExactly` | src/logservice/ob_garbage_collector.cpp:1095-1171 | in each of the states: BLOCK moves only a normal log stream, OFFLINE only one that is not offline yet |
| `GcReplay.NeverGoesBack` | src/logservice/ob_garbage_collector.cpp:1095-1171 | replay never lowers gc_state, and changes nothing once offline or for an invalid state |
| `GcReplay.ReplayAgain` | src/logservice/ob_garbage_collector.cpp:603-668 | replaying again any part of what was replayed changes nothing, from every starting meta |
| `GcReplay.FollowsStep` | src/logservice/ob_garbage_collector.cpp:603-668 | apply, restart at an earlier position and the local WAIT_GC step keep the state at the meaning of the prefix seen |
| `GcReplay.LifeFollowsLog` | src/logservice/ob_garbage_collector.cpp:603-668 | the same over every life with any restarts; the state never goes back |
| `GcReplay.ReplicasAgree` | src/logservice/ob_garbage_collector.cpp:603-668 | replicas that saw the same prefix agree on state and offline scn up to the local WAIT_GC step |
| `GcReplay.OfflineScnExactly` | src/logservice/ob_garbage_collector.cpp:1133-1171 | the offline scn is that of the first OFFLINE entry, and is held exactly while the state is LS_OFFLINE |
| `GcReplay.WaitGcForgetsOfflineScn` | src/storage/ls/ob_ls_meta.cpp:355-379 | after BLOCK and OFFLINE the offline scn is held, and entering WAIT_GC clears it |
| `GcLifecycle.StepKeepsInv` | src/logservice/ob_garbage_collector.cpp:1206-1298 | every step of any server keeps every replica at the meaning of its prefix and the log in its shape |
| `GcLifecycle.FirstRelease` | src/logservice/ob_garbage_collector.cpp:805-928 | the step that first lets a log stream go is a check with BLOCK and OFFLINE committed, the readable scn at the scn of OFFLINE, and archived up to it unless ignored; with archiving off, with the tenant dropped, in restore or clone, or the delay over |
| `GcLifecycle.CheckExactly` | src/logservice/ob_garbage_collector.cpp:805-928 | a check lets the log stream go exactly under those conditions, and otherwise changes nothing |
| `GcLifecycle.RemovalIsSafe` | src/logservice/ob_garbage_collector.cpp:1707-1834 | in every run of all replicas, a replica removed for a missing row was let go by such a check before |
| `GcLifecycle.DeletionIsSafe` | src/logservice/ob_garbage_collector.cpp:1836-1853 | in every run the row is deleted only after such a check |
| `GcLifecycle.ReadExactly` | src/logservice/ob_garbage_collector.cpp:1707-1760 | what a round finds: the status if the row was read, the tenant dropped if not, the row missing if it was looked for, is not there and gc is allowed |
| `GcLifecycle.DeleteExactly` | src/logservice/ob_garbage_collector.cpp:1836-1853 | the row is gone exactly if its deletion succeeds, and it is tried once a round |
| `GcLifecycle.RemovalReasons` | src/logservice/ob_garbage_collector.cpp:1707-1834 | in every run, a replica removed for a missing row was on a server that had looked for it when it was gone and gc was allowed; one removed for a dropped tenant only after the tenant was dropped and the server had seen that |
| `GcLifecycle.LoggedOnce` | src/logservice/ob_garbage_collector.cpp:1206-1298 | in every run the log holds at most one BLOCK and after it at most one OFFLINE entry, whoever leads |
| `GcLifecycle.RemovalHappens` | src/logservice/ob_garbage_collector.cpp:1761-1834 | a complete run that ends with a removal |
| `GcCheckpoint.StepKeepsInv` | src/logservice/ob_garbage_collector.cpp:985-1093 | every step of submitter, callback and replay keeps the relation between locks, scn and states |
| `GcCheckpoint.CheckpointGuard` | src/logservice/ob_garbage_collector.cpp:408-420 | in every interleaving on_success never works with an unset scn, and from its report until the state is updated rec_scn_ is the entry's scn; it is released only when the entry is applied, and nothing is held back outside of a submission |
| `GcCheckpoint.LockIsNeeded` | src/logservice/ob_garbage_collector.cpp:1011-1020 | without rec_scn_lock_ there is an interleaving in which the callback reads an unset scn |
| `GcCheckpoint.EntryGoesThrough` | src/logservice/ob_garbage_collector.cpp:985-1093 | for every entry a run in which it is held back when it has committed, and in the end is applied with nothing held back |
| `GcHandlers.GcHandler.SetGcState` | src/storage/ls/ob_ls_meta.cpp:355-379 | accepts a scn exactly with the offline state; nothing changes unless persisted |
| `GcHandlers.GcHandler.BlockLsTransferIn` | src/logservice/ob_garbage_collector.cpp:1095-1130 | the state after a BLOCK entry, or the error of the state, of blocking or of persisting, and no change |
| `GcHandlers.GcHandler.OfflineLs` | src/logservice/ob_garbage_collector.cpp:1133-1171 | the state after an OFFLINE entry, or an error and no change |
| `GcHandlers.GcHandler.UpdateLsGcStateAfterSubmitLog` | src/logservice/ob_garbage_collector.cpp:1072-1093 | exactly when it succeeds; then the entry is applied and rec_scn_ released, else nothing changes |
| `GcHandlers.GcHandler.Replay` | src/logservice/ob_garbage_collector.cpp:603-668 | errors for uninitialised and invalid calls, the wait of a standby tenant, and else the entry applied or nothing; for the next entry of the log it is a replay step of the lifecycle |
| `GcHandlers.GcHandler.SubmitLog` | src/logservice/ob_garbage_collector.cpp:985-1070 | the loop retries until the committed entry is applied, with rec_scn_ at the entry until then; a commit and a replay step of the lifecycle |
| `GcHandlers.GcHandler.TryCheckAndSetWaitGc` | src/logservice/ob_garbage_collector.cpp:805-928 | asks for deletion of the row exactly when the readable scn has reached the offline scn, nothing delays, and it is archived or ignored, or with archiving off dropped, in restore or clone, or the delay is over; also when the new state cannot be persisted; a check step of the lifecycle |
| `GcHandlers.GcHandler.HandleGcLsDropping` | src/logservice/ob_garbage_collector.cpp:1206-1249 | when a BLOCK entry is submitted, the state after it, and the run of the lifecycle it is |
| `GcHandlers.GcHandler.HandleGcLsOffline` | src/logservice/ob_garbage_collector.cpp:1251-1298 | when deletion of the row is asked for and the state after; a follower does nothing; the state never goes back; the run of the lifecycle it is, which ends with the deletion asked for or not |
| `GcHandlers.GcHandler.GcCheckInvalidMemberSeq` | src/logservice/ob_garbage_collector.cpp:582-601 | for the answers so far: candidate exactly when denied in the round before and not yet in this one; the new answer is remembered |
| `GcMembership.TwoRounds` | src/logservice/ob_garbage_collector.cpp:582-601 | a not-a-member answer in round k makes a candidate if and only if there was one in round k-1 and none before in round k, for all histories |
| `GcTwoRounds.GarbageCollector.HandleItem` | src/logservice/ob_garbage_collector.cpp:214-283 | one item of a response through its handler, against the answers that handler got so far |
| `GcTwoRounds.ItemExactly` | src/logservice/ob_garbage_collector.cpp:214-283 | what one item changes: which denial is remembered, when it makes a candidate, when this server is to leave a learner list |
| `GcTwoRounds.ItemAtExactly` | src/logservice/ob_garbage_collector.cpp:198-213 | what an item is made of, with and without the array of stats |
| `GcTwoRounds.ItemsInOrder` | src/logservice/ob_garbage_collector.cpp:198-286 | a response is handled item by item, up to and with the first second denial whose migration check fails, or to the end |
| `GcTwoRounds.GarbageCollector.HandleRpcResponse` | src/logservice/ob_garbage_collector.cpp:198-286 | a response with arrays of different length is refused; else the items in order; every candidate was denied in this round and in the round before |
| `GcTwoRounds.GarbageCollector.EndRound` | src/logservice/ob_garbage_collector.cpp:1457-1475 | the next round starts without candidates |
| `FlashbackOperators.ModeExactly` | src/logservice/ob_log_flashback_service.cpp:460-501 | success exactly when the leader can be asked and answers in this pass in the wanted mode or in FLASHBACK; the version it answers with is recorded in any case, and a leader that does not answer is forgotten |
| `FlashbackOperators.SwitchMode` | src/logservice/ob_log_flashback_service.cpp:460-501 | the operator after a pass, for every answer of the leader; a mode change is sent, with the version answered, exactly when the leader answers in another mode |
| `FlashbackOperators.CheckListLogSync` | src/logservice/ob_log_flashback_service.h:170-207 | exactly the servers that report having reached the flashback scn are added; success exactly when all listed are synced; the count equals the list exactly when all report themselves fully committed below; a failed call exactly when one not synced gives no answer |
| `FlashbackOperators.SwitchSync` | src/logservice/ob_log_flashback_service.cpp:416-458 | the operator after a pass, for every answer: when the lists are taken, asked, fetched again, and when it succeeds |
| `FlashbackOperators.SyncOkStep` | src/logservice/ob_log_flashback_service.cpp:416-458 | the operator's lists are those of a set answer of the leader in this stage, also after being fetched again, or were never set; every synced server reported so in this stage; success means that the leader is in FLASHBACK, or everyone on those lists reported the scn, or all members on them are fully below it now, or the lists were never set because of an unset answer |
| `FlashbackOperators.SyncExactly` | src/logservice/ob_log_flashback_service.cpp:416-458 | when an operator passes, in terms of the answers alone, both ways: its leader in FLASHBACK, or everyone on the lists it asks known to have reached the scn or at it now, or no member known to have and all fully below it now |
| `FlashbackOperators.SyncRecords` | src/logservice/ob_log_flashback_service.h:170-207 | what an operator keeps of a pass: the lists it asked, exactly who on them has reached the scn, and that the lists are to be fetched again exactly if a call failed to someone who had to be asked |
| `FlashbackOperators.SyncRecordsNothing` | src/logservice/ob_log_flashback_service.cpp:416-432 | a pass in which the lists are not asked changes nothing but whether the leader is known |
| `FlashbackOperators.BlindPassExactly` | src/logservice/ob_log_flashback_service.cpp:435-444 | an operator without lists passes whatever the replicas say exactly when its leader answers in FLASHBACK or lists no member, as an unset answer does |
| `FlashbackOperators.LogSyncMeaning` | src/logservice/ob_log_flashback_service.h:170-207 | with set answers that list a member and ends that only grow, a log stream that passes is in FLASHBACK, or for a non-empty member list its leader gave all members and learners are at the flashback scn when the stage ends, or all members are fully committed below it in the last pass |
| `FlashbackOperators.Requests` | src/logservice/ob_log_flashback_service.h:305-330 | a request to exactly the listed servers that have not acknowledged, with the id and version |
| `FlashbackOperators.FlashbackList` | src/logservice/ob_log_flashback_service.h:305-330 | the loop sends those requests; success exactly when all have acknowledged |
| `FlashbackOperators.SwitchExec` | src/logservice/ob_log_flashback_service.cpp:503-528 | the operator after a pass, and requests to exactly the listed servers that have not acknowledged, with its id and mode version |
| `FlashbackOperators.ExecExactly` | src/logservice/ob_log_flashback_service.cpp:503-528 | for every answer of the leader: which lists it has after a pass, whether it knows its leader, and success exactly if everyone on the lists has acknowledged |
| `FlashbackOperators.HandleResp` | src/logservice/ob_log_flashback_service.cpp:530-547 | a valid reply of a listed server is recorded once the lists are known; nothing else is |
| `FlashbackOperators.AcknowledgeExactly` | src/logservice/ob_log_flashback_service.cpp:530-547 | exactly a valid reply of a listed server counts once the lists are known, as that of a member, or of a learner that is no member; no other server is added |
| `FlashbackOperators.ExecOkStep` | src/logservice/ob_log_flashback_service.cpp:503-528 | the recorded lists are the leader's of this stage and stay; success means that all on them acknowledged in this stage with this id and mode version, and that no server is on both lists |
| `FlashbackOperators.SilentSuccessExactly` | src/logservice/ob_log_flashback_service.cpp:503-528 | without any acknowledgement an operator succeeds exactly when its leader answers with empty lists, as an unset answer does |
| `FlashbackServices.ConstructLsOperatorList` | src/logservice/ob_log_flashback_service.cpp:287-310 | operators for the valid ids only; the return code depends on the last id only |
| `FlashbackServices.CoversAllExactly` | src/logservice/ob_log_flashback_service.cpp:287-310 | every log stream gets an operator exactly when all ids are valid |
| `FlashbackServices.InvalidIdIsDropped` | src/logservice/ob_log_flashback_service.cpp:287-310 | an invalid id before a valid one is dropped without an error |
| `FlashbackServices.MotivateOnce` | src/logservice/ob_log_flashback_service.cpp:331-365 | every operator, of either kind, is switched, and the pass succeeds exactly when every one succeeded in it; an invalid operator ends it, and which code that gives |
| `FlashbackServices.RunStage` | src/logservice/ob_log_flashback_service.cpp:201-228 | the first pass in which every operator succeeds, or the time is up without one |
| `FlashbackServices.GetAndChangeAccessMode` | src/logservice/ob_log_flashback_service.cpp:194-235 | stages 1 and 3 are such a stage; the operators handed on are those of its last pass |
| `FlashbackServices.ModesMeaning` | src/logservice/ob_log_flashback_service.cpp:194-235 | in a successful pass every leader answered in the mode or in FLASHBACK, and its version is recorded |
| `FlashbackCompleteness.ModeStageSucceeds` | src/logservice/ob_log_flashback_service.cpp:194-235 | if in some pass in time every leader is located and answers in the mode or in FLASHBACK, stages 1 and 3 do not end with a timeout |
| `FlashbackServices.WaitAllLsReplicasLogSync` | src/logservice/ob_log_flashback_service.cpp:145-192 | stage 2 is such a stage, with its own code when the time is up |
| `FlashbackServices.SyncsMeaning` | src/logservice/ob_log_flashback_service.cpp:145-192 | in a successful pass every log stream passes, for the lists its operator has since the stage began |
| `FlashbackCompleteness.SyncStageSucceeds` | src/logservice/ob_log_flashback_service.cpp:145-192 | if the lists do not change during the stage and in some pass in time everyone on them has reached the scn, being exactly at it included, stage 2 does not end with a timeout |
| `FlashbackCompleteness.NothingBeforeLocated` | src/logservice/ob_log_flashback_service.cpp:367-376 | operators begin a stage without a leader and get nowhere before the location cache names one |
| `FlashbackExecution.FlashbackService.HandleFlashbackResp` | src/logservice/ob_log_flashback_service.cpp:549-567 | a reply counts for the first operator with its id and mode version and for no other; the return code |
| `FlashbackExecution.PassOk` | src/logservice/ob_log_flashback_service.cpp:331-365 | for any replies between the operators of a pass: acknowledged sets only grow, stay inside the recorded lists, and an operator that succeeds has all acknowledgements |
| `FlashbackExecution.FlashbackService.MotivateExecs` | src/logservice/ob_log_flashback_service.cpp:331-365 | a pass of stage 4 with replies arriving before any operator; it succeeds exactly when every operator did; everyone listed who has not acknowledged is sent a request and nobody else; how an invalid operator ends it |
| `FlashbackExecution.StageOk` | src/logservice/ob_log_flashback_service.cpp:237-285 | the same over all passes of the stage, for any order, loss or repetition of replies |
| `FlashbackExecution.FlashbackService.DoFlashback` | src/logservice/ob_log_flashback_service.cpp:237-285 | the first successful pass, or the time is up; success means that every member and learner of the lists the leaders gave in this stage acknowledged in this stage with that id and mode version; in every pass everyone listed who has not acknowledged is sent a request, and nobody else ever |
| `FlashbackCompleteness.ReplyIsRecorded` | src/logservice/ob_log_flashback_service.cpp:549-567 | among any replies, a valid one with an operator's id and version is on record for the first operator that has them |
| `FlashbackCompleteness.OperatorSucceeds` | src/logservice/ob_log_flashback_service.cpp:503-528 | once an operator has its lists, no server being on both, and every server on them answered it before it is switched, it succeeds in that pass, whatever else arrives |
| `FlashbackCompleteness.PassSucceeds` | src/logservice/ob_log_flashback_service.cpp:237-285 | if that holds for every operator the pass succeeds, and a stage with time for it does not end with a timeout |
| `FlashbackCompleteness.ListsAreRecorded` | src/logservice/ob_log_flashback_service.cpp:503-528 | an operator has its lists after a pass in which its leader is located and answers |
| `FlashbackExecution.ReachFlashbackMode` | src/logservice/ob_log_flashback_service.cpp:97-113 | stages 1 to 3 in order, each starting after the one before; on failure the stage that had no successful pass |
| `FlashbackExecution.BarrierMeaning` | src/logservice/ob_log_flashback_service.cpp:97-113 | what the log-sync part of the order means for every log stream |
| `FlashbackExecution.FlashbackService.Flashback` | src/logservice/ob_log_flashback_service.cpp:70-124 | no request before every leader answered in PREPARE_FLASHBACK or FLASHBACK, then every log stream passed the log-sync check in one pass, then every leader answered in FLASHBACK; requests go to those log streams only, with the version their leader answered with there; success means full acknowledgement after that, with that version; all return codes |
| `ReadSplit.LastTaskNotEmpty` | src/logservice/ob_log_external_storage_handler.cpp:340-342 | the nonlinear bound: (n-1)^2 < total implies (n-1) ceil(total/n) < total |
| `ReadSplit.SplitLeavesNoEmptyTask` | src/logservice/ob_log_external_storage_handler.cpp:319-328 | the split of every positive read leaves no empty task when the concurrency is at most the minimum size plus one, which 128 and 2 MiB satisfy |
| `ReadSplit.TaskCountExactly` | src/logservice/ob_log_external_storage_handler.cpp:319-328 | the number of tasks, both ways: at least one, at most the concurrency, and no more than it takes for all but the last to have the minimum size |
| `ReadSplit.SmallMinimumLeavesEmptyTask` | src/logservice/ob_log_external_storage_handler.cpp:319-328 | with a minimum of one byte it does not hold |
| `ReadSplit.SizeOfTask` | src/logservice/ob_log_external_storage_handler.cpp:352-354 | the size of each task |
| `ReadSplit.TasksTile` | src/logservice/ob_log_external_storage_handler.cpp:345-371 | tasks tile what they cover, and all of the read in the end |
| `ReadSplit.EachByteOnce` | src/logservice/ob_log_external_storage_handler.cpp:350-371 | contiguous tasks read every byte exactly once |
| `ExternalReads.FirstErrorIsFirst` | src/logservice/ob_log_external_storage_utils.cpp:211-229 | the error that is kept is the one of the first failed item, and there is one exactly if an item failed |
| `ExternalReads.TotalGotAdds` | src/logservice/ob_log_external_storage_utils.cpp:211-229 | the size reported is the sum of what the reads that succeeded brought |
| `ExternalReads.SliceArrived` | src/logservice/ob_log_external_storage_handler.cpp:160-217 | tasks that all delivered put together the slice of the file |
| `ExternalReads.Outcomes` | src/logservice/ob_log_external_storage_handler.cpp:160-217 | all delivered exactly when no error and the full size are reported |
| `ExternalReads.ReadCtx.Init` | src/logservice/ob_log_external_storage_utils.cpp:151-201 | return codes and the empty items |
| `ExternalReads.ReadCtx.AsyncPread` | src/logservice/ob_log_external_storage_utils.cpp:361-381 | rejected for its size exactly if that is zero, else as the device says |
| `ExternalReads.ReadCtx.IncCount` | src/logservice/ob_log_external_storage_utils.cpp:292-305 | counts up to the capacity |
| `ExternalReads.ReadCtx.Wait` | src/logservice/ob_log_external_storage_utils.cpp:203-233 | waits for every issued read, failed or not, so that none is in flight; first error, total size, and the bytes in the buffer |
| `ExternalReads.ExternalStorageHandler.Start` | src/logservice/ob_log_external_storage_handler.cpp:80-98 | clamps the concurrency to 128 |
| `ExternalReads.ExternalStorageHandler.Resize` | src/logservice/ob_log_external_storage_handler.cpp:124-158 | return codes in order; clamps the concurrency to 128 |
| `ExternalReads.IssueRetExactly` | src/logservice/ob_log_external_storage_handler.cpp:344-371 | issuing succeeds exactly if the device opens and refuses no read; else the error of opening or of the first refusal |
| `ExternalReads.ExternalStorageHandler.IssueTasks` | src/logservice/ob_log_external_storage_handler.cpp:345-371 | the loop issues one read per task of the split in order up to the first the device refuses |
| `ExternalReads.ExternalStorageHandler.ConstructAsyncPreadTasks` | src/logservice/ob_log_external_storage_handler.cpp:330-377 | no task is rejected for its size; the error is that of opening or of the first refusal, and then nothing is in flight |
| `ExternalReads.ExternalStorageHandler.Pread` | src/logservice/ob_log_external_storage_handler.cpp:160-217 | for every behaviour of the device: all error codes, the first error and the bytes brought; if it refuses none and every task brings its bytes, the plain read clipped at the end of the file, and the full size is reported exactly then; nothing is in flight afterwards; the rest of the buffer untouched |
| `InnerSqlRouting.OnSticks` | src/observer/ob_inner_sql_connection.cpp:1638-1656 | in a transaction every routed statement, commit and rollback, and in a local one execute too, runs on its side and connection id, for all availabilities |
| `InnerSqlRouting.OutsideExactly` | src/observer/ob_inner_sql_connection.cpp:1638-1656 | a statement outside a transaction runs here exactly if it is for this cluster, the tenant is available here and remote execution is not forced; else at the given address, else at the leader, never with a connection id; refused exactly if there is neither |
| `InnerSqlRouting.InsideExactly` | src/observer/ob_inner_sql_connection.cpp:1638-1656 | in a transaction it goes to the connection held, or runs here if none is; when it is refused |
| `InnerSqlRouting.StatementLeaves` | src/observer/ob_inner_sql_connection.cpp:1448-1782 | what a statement leaves of server and connection id, for each outcome |
| `InnerSqlRouting.StartExactly` | src/observer/ob_inner_sql_connection.cpp:989-1092 | when a start is refused, where it runs, and the state after it |
| `InnerSqlRouting.EndExactly` | src/observer/ob_inner_sql_connection.cpp:1279-1420 | where commit and rollback run, and when the connection is given up |
| `InnerSqlRouting.StickyExactly` | src/observer/ob_inner_sql_connection.cpp:989-1092 | a started transaction sticks for all calls if and only if it starts here and finds no left-over connection id |
| `InnerSqlRouting.RoutedStickyExactly` | src/observer/ob_inner_sql_connection.cpp:1638-1656 | for all calls but execute: if and only if a local start finds no left-over connection id and a remote start returns a valid one |
| `InnerSqlRouting.ExecuteLeavesRemoteTransaction` | src/observer/ob_inner_sql_connection.cpp:1837-1873 | in a running transaction a call of execute sticks exactly if the transaction is local |
| `InnerSqlRouting.TidyExactly` | src/observer/ob_inner_sql_connection.cpp:1279-1420 | the only call that leaves a connection id behind is a remote commit or rollback that failed |
| `InnerSqlRouting.TransactionsStick` | src/observer/ob_inner_sql_connection.cpp:1448-1782 | over the whole life of a connection without such a failure, with valid ids and without execute in remote transactions, every transaction sticks |
| `InnerSqlRouting.ReuseAfterFailedCommitStrays` | src/observer/ob_inner_sql_connection.cpp:1351-1420 | after a failed remote commit the next local transaction's statements go to the old remote connection |
| `InnerSqlConnections.InnerSqlConnection.ResetResourceConnInfo` | src/observer/ob_inner_sql_connection.h:244-245 | both values invalid |
| `InnerSqlConnections.InnerSqlConnection.StartTransactionInner` | src/observer/ob_inner_sql_connection.cpp:989-1092 | where it runs, whether it succeeds, and the state after, as in the routing model |
| `InnerSqlConnections.InnerSqlConnection.ExecuteWriteInner` | src/observer/ob_inner_sql_connection.cpp:1448-1592 | the same for a write; a failed one outside a transaction keeps its server |
| `InnerSqlConnections.InnerSqlConnection.ExecuteReadInner` | src/observer/ob_inner_sql_connection.cpp:1658-1782 | the same for a read; outside a transaction nothing is kept |
| `InnerSqlConnections.InnerSqlConnection.Execute` | src/observer/ob_inner_sql_connection.cpp:1837-1873 | runs here and changes nothing, whatever transaction the connection is in |
| `InnerSqlConnections.InnerSqlConnection.EndTransaction` | src/observer/ob_inner_sql_connection.cpp:1279-1420 | the same for commit and rollback; never in a transaction afterwards |
| `TimeoutLists.Link.constructor` | deps/ussl-hook/ussl-deps.h:114-118 | a ring of one |
| `TimeoutLists.Insert` | deps/ussl-hook/ussl-deps.h:120-134 | the ring with the new link right behind the head |
| `TimeoutLists.Delete` | deps/ussl-hook/ussl-deps.h:128-142 | the ring without the link, which is marked unlinked; a second delete modifies nothing |
| `TimeoutLists.KeptExactly` | deps/ussl-hook/ussl-loop.c:179-208 | what stays are exactly the links at most three seconds old, in their order |
| `TimeoutLists.HandleLink` | deps/ussl-hook/ussl-loop.c:184-206 | one expired link is unlinked, any other left alone |
| `TimeoutLists.CheckAndHandleTimeoutEvent` | deps/ussl-hook/ussl-loop.c:179-208 | one sweep over any ring: every link visited once in order, unlinked exactly if it is more than three seconds old, the rest a ring in the same order |

## Left out

- LogBlockMgrs.LogBlockMgr.CreateBlockAt: stated for a call with no other move in flight; all interleavings are the subject of the state machine and its theorems.
- LogBlockMgrs.LogBlockMgr.RemoveBlockAt: stated for a call with no other move in flight, and for palf blocks; the unlinking of other blocks leaves the accounting.
- LogBlockMgrs.LogBlockMgr.Resize: stated for a call with no move in flight; the machine covers creates and removes beside it.
- LogBlockMgrs.LogBlockMgr.DoResize: the same.
- LogBlockMgrs.LogBlockMgr.DoExpand: the same.
- LogBlockMgrs.LogBlockMgr.DoShrink: the same.
- LogBlockMgrs.LogBlockMgr.MoveBlocksFromTmpDirToLogPool: the same.
- LogBlockMgrs.LogBlockMgr.FreeBlocksAtLogPool: the same.
- BlockPoolTheorems.RenamesNeverOverwrite: says nothing about the target of a create, which is a path the tenant chooses in its own directory; tenant directories are only counted.
- BlockPoolTheorems.WaitingIsForAnEnabledRename: says that the rename is enabled, not that the retry loop ends; that the operating system lets it succeed in the end is assumed.
- LogBlockMgrs.LogBlockMgr.UpdateTenant: stated for callers that pass the recorded size, which the ledger then holds.
- LogBlockMgrs.SortedIds: stands for the library sort; its algorithm is not modelled.
- GcHandlers.GcHandler.HandleGcLsOffline: its run has no step of other servers in between; all interleavings are the subject of the lifecycle machine.
- FlashbackExecution.FlashbackService.Flashback: replies that arrive during the first three stages are left out; they reach only the operators of an earlier call, which stage 4 replaces.
- FlashbackOperators.SwitchSync: the unset answer of a replica whose log is not initialised, for which no role is checked, is left out; the answers of replicas are ends of logs or failures.
- ExternalReads.ReadCtx.Wait: the device writes the bytes of a read when it is waited for; a failed read leaves its part of the buffer as it was.
- Power failures that lose a directory change but keep a later one.
- Serialization and checksums of the pool meta, the log base header and the gc log entry: fixed-width encoding.
- Directory scanning, file names, retry loops around system calls, `remove_tmp_file_or_directory_for_tenant_`, `force_update_tenant_log_disk`.
- `handle_ls_array_` batching, the calls that remove a learner, `execute_pre_remove` and the wait for read-only transactions.
- The return codes of device and RPC errors beyond the cases named, and statistics, time guards and log printing.
- Resource and external-session connections of the routing, and the retry wrapper around its calls.
- Socket, epoll and `ready_link` handling around the timeout sweep.
- 64-bit overflow of sizes, ids and scns.
