# SmartDrop contracts: registry and vesting, verified

Two Soroban contracts are modelled here, each as a state machine over its storage.

**The pool factory.** A growing table of farming pools with three secondary indexes (by staking
asset with a cached count, by creating admin, by WASM hash), an incrementally kept TVL total with
one snapshot per pool, atomic batch creation and upgrade, and cursor-based paging queries. The
central results: in every state a run can reach, each index equals what an observer of the
published events would compute; a client that follows the paging cursors by asset receives every
stored record of the asset exactly once even while the registry changes between its pages; the
indexed path of that query returns the same records as the plain scan; over every run the TVL total
stays the sum of the snapshots if and only if no saturating operation clips.

**The vesting wallet.** Cliff-plus-linear vesting with release, revoke, emergency withdrawal and
hand-over of both roles. The central results: every token is accounted for over every
interleaving; the wallet can always pay what it owes; the total ever paid after a release depends
only on the schedule and the settlement ledger, not on how or when earlier claims were made.

## How it is built

- `Host.dfy` holds what the Soroban host provides: u32/u64/u128/i128 with their saturating and
  checked operations, addresses, and transaction outcomes (`Ok`, a typed `Err`, or a host `Trap`).
- `VestingModel.dfy` and `FactoryModel.dfy` give each entry point as a function from the storage
  before to a reply and the storage after, or a failure. A run is a sequence of calls from an empty
  contract; the factory's runs also let the host archive any pool record, and the wallet's let the
  ledger advance and other holders move tokens.
- `VestingContract.dfy` and `FactoryContract.dfy` are the contracts as classes: the instance entry
  and every keyed entry is a field, writes happen one after the other in the order of the source,
  and a failed call is undone by `Restore`, as the host does. Every method is proved equal to its
  transition, so every theorem about runs is about these classes.
- The other modules hold the theorems: `VestingFormula`, `VestingRuns`, `VestingTheorems`,
  `FactoryRates`, `FactorySalt`, `FactoryIndex`, `FactoryRuns`, `FactoryTheorems`, `FactoryBatches`,
  `FactoryGovernance`, `FactoryTvl`, `FactoryPaging`, `FactoryWalks`, `FactoryListWalks`,
  `FactorySort`, and `FactoryExamples` with the concrete runs in which a documented property fails.

Other contracts are oracles. Each pool to create comes with the answers of the asset probe and of
the deployment, each pool to upgrade with the answers of its `admin` and `upgrade` entry points,
each TVL sync with what every pool reports. A token transfer moves exactly the amount, traps when
uncovered, and may also be refused by the token (`accepts`). Authorisation is the set of signers a
call carries; a contract never signs a call to itself. Only the wallet debits its own balance.

## Where the code and its documentation differ

The model follows the code.

- `docs/staking_systems.md:83` gives a scan cap of 200; `MAX_POOL_SCAN_PER_CALL` is 50.
- `soroban/contracts/factory/src/lib.rs:1605` opens a block for the empty batch that is never
  closed. The intent, fixed by the tests at `soroban/contracts/factory/src/test.rs:896` and `:1543`, is
  modelled: empty gives `EmptyBatch`, more than 10 gives `BatchTooLarge`, otherwise all are created.
  The two errors share discriminant 20 in `types.rs:194-196`; here they are distinct.
- `soroban/contracts/factory/src/types.rs:37` says the hash index lists the pools running a hash.
  Creation does not write it: it lists exactly the pools upgraded at least once
  (`FactoryTheorems.ListedIffUpgraded`), and `FactoryExamples.UnlistedPool` is a pool it misses.
- `soroban/contracts/factory/src/types.rs:150-153` describes a truncating rate conversion; the code
  rounds up.
- `soroban/contracts/vesting-wallet/src/lib.rs:464-467` says that after revocation the frozen amount
  can be below what was released. After `revoke` it cannot (`VestingTheorems.Solvency`); only
  `emergency_withdraw` brings that about.
- `docs/vesting-api.md:30` calls `releasable()` what a release would transfer. That fails exactly
  after an emergency withdrawal that follows a paying release, which the stored entries show
  (`VestingTheorems.ViewsAgree`); `VestingTheorems.ViewsDisagree` is such a run.
- The accumulator documented as the aggregate of all pools is not it once an operation saturates:
  `FactoryExamples.TotalDrifts` is a run that shows it, `FactoryTvl.ExactIffNeverClips` the exact
  condition over runs.

## Model

| member | source | states |
|---|---|---|
| VestingFormula.ComputeVestedIsLinear | soroban/contracts/vesting-wallet/src/lib.rs:116-143 | on every accepted, unrevoked schedule and every ledger the checked i128 computation equals the exact formula and never reports `ArithmeticOverflow` |
| VestingFormula.LinearIsFloor | soroban/contracts/vesting-wallet/src/lib.rs:138-142 | between cliff and end the vested amount is the floor of the exact proportion |
| VestingFormula.LinearBounded | soroban/contracts/vesting-wallet/src/lib.rs:131-142 | the vested amount stays in 0..total, is 0 up to the start and total from the end |
| VestingFormula.LinearMonotone | soroban/contracts/vesting-wallet/src/lib.rs:131-142 | vesting never goes backwards, across the cliff jump and the end included |
| VestingFormula.CeilingCoversEveryDuration | soroban/contracts/vesting-wallet/src/lib.rs:195-198 | the `checked_mul` check of `initialize` is implied by the amount ceiling, for every duration |
| VestingFormula.CeilingIsTight | soroban/contracts/vesting-wallet/src/lib.rs:15-19 | one unit above the ceiling overflows on the longest schedule |
| VestingFormula.InitializeAcceptsIff | soroban/contracts/vesting-wallet/src/lib.rs:180-232 | `initialize` succeeds exactly on a fresh wallet, a usable beneficiary, an amount in 1..ceiling, ordered future ledgers, a signed and funded admin and a willing token; `AlreadyInitialized`, `InvalidInput` and `TotalAmountTooLarge` each answer exactly their own obstacle |
| VestingFormula.InitializeFixesSchedule | soroban/contracts/vesting-wallet/src/lib.rs:202-225 | after an accepted `initialize` the vested amount at every ledger is the documented one, read off the call's arguments, the funder is the paying admin, and nothing is released or revoked |
| VestingRuns.PayKeepsBook | soroban/contracts/vesting-wallet/src/lib.rs:280 | a covered transfer in the right direction keeps inflow equal to holdings plus outflow and grows only the total of its own purpose |
| VestingRuns.VestedInActive | soroban/contracts/vesting-wallet/src/lib.rs:116-123 | in every reachable initialised wallet the vested amount is the formula at the ledger vesting has reached, 0 after an emergency withdrawal, and never below what was paid before that |
| VestingRuns.PaidReleaseAdvances | soroban/contracts/vesting-wallet/src/lib.rs:262-278 | a release that pays happens at a strictly later vesting ledger than the last one that paid |
| VestingRuns.PayingRelease | soroban/contracts/vesting-wallet/src/lib.rs:256-280 | a paying release brings the released amount to the formula at the vesting ledger |
| VestingRuns.RevokeSettles | soroban/contracts/vesting-wallet/src/lib.rs:312-329 | a revocation freezes the formula's value at that ledger and refunds exactly the rest |
| VestingRuns.StepPreserves | soroban/contracts/vesting-wallet/src/lib.rs:169-566 | every call, ledger advance and outside transfer keeps conservation, the accounting of releases and the accounting of revocations |
| VestingRuns.ExecutionsKeepInv | soroban/contracts/vesting-wallet/src/lib.rs:169-566 | the same after every run from deployment |
| VestingTheorems.Conservation | soroban/contracts/vesting-wallet/src/lib.rs:227-232 | after every run: opening balance + funding + donations = balance + released + refunded + drained; `ReleasedAmount` is the sum and `ReleaseCount` the number of all payouts; the stored funder is the address that paid the schedule, across admin transfers, and every refund went back to it |
| VestingTheorems.Solvency | soroban/contracts/vesting-wallet/src/lib.rs:268-280 | until an emergency withdrawal the wallet holds exactly the frozen-or-full entitlement minus released, plus every unsolicited token |
| VestingTheorems.ReleaseSucceedsIff | soroban/contracts/vesting-wallet/src/lib.rs:249-289 | in every reachable state `release` succeeds exactly when the beneficiary signed and the token agrees (or nothing is due), pays exactly what is due, to the beneficiary, counts it, changes nothing else, and never reports `InsufficientBalance` or an overflow |
| VestingTheorems.HandoverMovesClaim | soroban/contracts/vesting-wallet/src/lib.rs:520-534 | in every reachable state `transfer_beneficiary` succeeds if and only if the wallet is initialised, the address is usable and the admin signed; then exactly the new beneficiary can release and receives the whole outstanding claim, every other entry, the token book and the ledger are as before, and revoke, withdrawal and both hand-overs still answer to the same admin |
| VestingTheorems.HandoverMovesControl | soroban/contracts/vesting-wallet/src/lib.rs:551-566 | in every reachable state `transfer_admin` succeeds if and only if the wallet is initialised and the admin signed; then exactly the new admin's signature revokes, withdraws or hands over; a withdrawal goes to the new admin, the refund of a revocation still to the original funder, and the claim and everything else is untouched |
| VestingTheorems.RevokeSucceedsIff | soroban/contracts/vesting-wallet/src/lib.rs:299-338 | `revoke` of a revocable, unrevoked wallet is always covered; it freezes the formula's value and delivers exactly the rest to the funder; `NotInitialized`, `NotRevocable` and `AlreadyRevoked` each answer exactly their own obstacle |
| VestingTheorems.EmergencyWithdrawSucceedsIff | soroban/contracts/vesting-wallet/src/lib.rs:492-513 | in every reachable state `emergency_withdraw` succeeds exactly when the admin signed and the token agrees (or nothing is held), and moves the whole balance to the admin; the first one takes exactly the unpaid entitlement plus every unsolicited token |
| VestingTheorems.ReleaseCountBound | soroban/contracts/vesting-wallet/src/lib.rs:101-106 | `ReleaseCount` is at most min(`ReleasedAmount`, duration), and the unchecked increment never overflows |
| VestingTheorems.ClaimTotal | soroban/contracts/vesting-wallet/src/lib.rs:249-289 | without an emergency withdrawal, a successful release brings the total ever paid to the formula at that ledger, or at the revocation ledger if earlier |
| VestingTheorems.ClaimScheduleIndependence | soroban/contracts/vesting-wallet/src/lib.rs:116-143 | two runs of one schedule that settle at the same ledger have paid the same total, whatever claims came before |
| VestingTheorems.ViewsExact | soroban/contracts/vesting-wallet/src/lib.rs:446-470 | after every run the overview's vested amount is the formula at the ledger vesting has reached (0 once drained), its released amount is the payout total of the token log, `revoked` holds exactly when a revocation or an emergency withdrawal has succeeded, and `releasable()` is their difference |
| VestingTheorems.ScheduleIsFixed | soroban/contracts/vesting-wallet/src/lib.rs:446-470 | from an accepted `initialize` to the end of every run, across hand-overs, revocation and withdrawal, the overview shows exactly the agreed amount, ledgers and revocability, and the funder is the admin who paid |
| VestingTheorems.OverdrawnIffDrained | soroban/contracts/vesting-wallet/src/lib.rs:496-503 | the stored entries alone (revoked, frozen at 0, something released) tell that an emergency withdrawal followed a paying release |
| VestingTheorems.ViewsAgree | soroban/contracts/vesting-wallet/src/lib.rs:446-470 | the overview's releasable amount is what an authorised release transfers; `releasable()` agrees if and only if the wallet is not (revoked, frozen at 0, something released), and is then minus the released amount |
| VestingTheorems.ViewsDisagree | soroban/contracts/vesting-wallet/src/lib.rs:381-385 | a run of `initialize`, `release` and `emergency_withdraw` after which `releasable()` answers -50 while a release transfers nothing |
| VestingTheorems.EmergencyIsFinal | soroban/contracts/vesting-wallet/src/lib.rs:485-491 | after an emergency withdrawal no release and no revoke changes anything |
| VestingContract.VestingWallet.Initialize | soroban/contracts/vesting-wallet/src/lib.rs:169-242 | the in-place contract does the model's transition, a failed call leaving no trace |
| VestingContract.VestingWallet.IncrementReleaseCount | soroban/contracts/vesting-wallet/src/lib.rs:101-106 | adds one to the counter, panicking only at u32::MAX |
| VestingContract.VestingWallet.Release | soroban/contracts/vesting-wallet/src/lib.rs:249-289 | the in-place contract does the model's transition, a failed call leaving no trace |
| VestingContract.VestingWallet.Revoke | soroban/contracts/vesting-wallet/src/lib.rs:299-338 | the in-place contract does the model's transition, a failed call leaving no trace |
| VestingContract.VestingWallet.EmergencyWithdraw | soroban/contracts/vesting-wallet/src/lib.rs:492-513 | the in-place contract does the model's transition, a failed call leaving no trace |
| VestingContract.VestingWallet.TransferBeneficiary | soroban/contracts/vesting-wallet/src/lib.rs:520-534 | the in-place contract does the model's transition; what that means is `VestingTheorems.HandoverMovesClaim` |
| VestingContract.VestingWallet.Execute | soroban/contracts/vesting-wallet/src/lib.rs:151-578 | any event of a run, performed on the contract, is the model's step |
| FactoryRates.ConversionIsLeastCover | soroban/contracts/factory/src/lib.rs:74-84 | conversion succeeds exactly on 1..MAX_DAILY_RATE and yields the least per-ledger rate whose daily total reaches the request, overshooting by less than 17,280 |
| FactoryRates.CastNeverFails | soroban/contracts/factory/src/lib.rs:78-79 | the i128 cast never decides |
| FactoryRates.ConversionIsMonotone | soroban/contracts/factory/src/lib.rs:74-84 | a larger daily rate never converts to a smaller per-ledger rate |
| FactoryRates.SurroundingChecksAreImplied | soroban/contracts/factory/src/lib.rs:383-396 | the bound checks before and after the conversion reject nothing more |
| FactorySalt.SaltRoundTrip | soroban/contracts/factory/src/lib.rs:234-238 | the id can be read back from the last four bytes of its 32-byte salt, and the others are zero |
| FactorySalt.SaltInjective | soroban/contracts/factory/src/lib.rs:234-238 | distinct ids give distinct salts and distinct deployed addresses |
| FactorySalt.PoolSalt | soroban/contracts/factory/src/lib.rs:234-238 | the filled buffer is that salt |
| FactoryIndex.PositionsExact | soroban/contracts/factory/src/lib.rs:492-499 | the list an index should hold for a key is strictly ascending and holds exactly the ids created with it |
| FactoryIndex.HoldersExact | soroban/contracts/factory/src/lib.rs:1189-1211 | the list a hash should hold has no duplicate and holds exactly the pools whose latest upgrade installed it |
| FactoryIndex.ReindexedFollowsLog | soroban/contracts/factory/src/lib.rs:1189-1212 | touching only the lists of the old and the new hash keeps every list right, because the id is in no other |
| FactoryRuns.StepKeepsInv | soroban/contracts/factory/src/lib.rs:560-1628 | every call, and a record being archived, keeps table, indexes, counters and events in agreement |
| FactoryRuns.ExecutionsKeepInv | soroban/contracts/factory/src/lib.rs:560-1628 | the same after every run |
| FactoryTheorems.CreationIndexesExact | soroban/contracts/factory/src/lib.rs:492-525 | in every reachable state each asset list and each admin list is the strictly ascending list of ids created for it, and a stored asset count is the list's length |
| FactoryTheorems.CreationIndexesPartition | soroban/contracts/factory/src/lib.rs:492-525 | asset lists and admin lists each partition 0..`PoolCount`, across admin transfers |
| FactoryTheorems.AssetCountExact | soroban/contracts/factory/src/lib.rs:933-953 | `pool_count_by_asset` is the length of the asset's list, in every state that satisfies the registry invariant: a stored count is right, an absent one is seeded from the list, nothing else changes, and the next call reads the same from storage |
| FactoryTheorems.AddressesDistinct | soroban/contracts/factory/src/lib.rs:444-451 | no two stored pools share an address |
| FactoryTheorems.HashIndexExact | soroban/contracts/factory/src/lib.rs:1185-1217 | an id is listed under a hash, once, exactly when its latest upgrade installed it; a stored record then carries that hash; `UpgradeCount` is the saturated number of upgrades |
| FactoryTheorems.ListedIffUpgraded | soroban/contracts/factory/src/lib.rs:1189-1212 | a pool is listed somewhere if and only if it was upgraded at least once |
| FactoryExamples.UnlistedPool | soroban/contracts/factory/src/lib.rs:436-525 | a reachable factory with a stored pool that the hash index does not list under the hash it runs |
| FactoryGovernance.InitializeSucceedsIff | soroban/contracts/factory/src/lib.rs:560-598 | in every reachable state `initialize` succeeds exactly while there is no admin, with a usable admin and hash; each error answers its own obstacle; it stores those two in an otherwise empty contract, whose admin creates pool 0 right away |
| FactoryGovernance.InitializedForGood | soroban/contracts/factory/src/lib.rs:148-159 | once initialised, a factory stays so for the rest of every run, under a usable admin, and refuses a second `initialize` |
| FactoryGovernance.TransferAdminSucceedsIff | soroban/contracts/factory/src/lib.rs:1083-1106 | in every reachable state `transfer_admin` succeeds if and only if the admin signed, the address is usable and the counter is not full; it replaces the admin, counts, and changes nothing else; then only the new admin creates pools, listed under the new admin |
| FactoryGovernance.SetPoolWasmHashSucceedsIff | soroban/contracts/factory/src/lib.rs:1456-1488 | in every reachable state `set_pool_wasm_hash` succeeds if and only if the admin signed and the hash is nonzero and new; it replaces the hash, from which later pools are deployed, and changes nothing else |
| FactoryGovernance.SetPausedSucceedsIff | soroban/contracts/factory/src/lib.rs:1494-1525 | pausing and resuming succeed if and only if the admin signed, and set the flag and nothing else |
| FactoryGovernance.OnlyAdminChanges | soroban/contracts/factory/src/lib.rs:1569-1628 | without the admin's signature none of the seven administrative, creating and upgrading calls changes anything, and before `initialize` no other event does |
| FactoryGovernance.GovernanceFollowsDecrees | soroban/contracts/factory/src/lib.rs:553-1628 | over every run admin, deployed hash, pause flag and transfer count are what the `initialize`, `transfer_admin`, `set_pool_wasm_hash` and pause calls decreed, each judged by those before it alone; no creation, upgrade, sync, count or expiry has a say |
| FactoryTheorems.RejectionsJustified | soroban/contracts/factory/src/lib.rs:339-434 | the validations reject a request exactly when it is outside the accepted ranges, and the error is the first, in the order the validations are made, of the faults the request has |
| FactoryTheorems.CreatePoolSucceedsIff | soroban/contracts/factory/src/lib.rs:328-525 | in every reachable state `create_pool` succeeds exactly with the admin's signature on the stated parameter ranges while ids last; each refusal answers its own obstacle; the per-asset overflow and the missing-hash error are dead code |
| FactoryTheorems.NewPoolMirrorsRequest | soroban/contracts/factory/src/lib.rs:470-545 | the new record and event mirror the request, with the requested or default minimum stake, at the address of the id's salt, with a zero snapshot, and no other record changes |
| FactoryTheorems.PauseStopsCreation | soroban/contracts/factory/src/lib.rs:1494-1525 | while paused no create call succeeds, single or batch, whoever signs; lifting the pause restores the storage |
| FactoryBatches.BatchCreateIsSequential | soroban/contracts/factory/src/lib.rs:1596-1628 | a batch succeeds if and only if the admin signed, it has 1 to 10 items and `create_pool` accepts them one after the other; it returns consecutive ids from the old count and leaves the storage of those calls; a failing one reports the first failing item's outcome; unsigned, empty and oversized batches are refused |
| FactoryBatches.UpgradePoolSucceedsIff | soroban/contracts/factory/src/lib.rs:1140-1256 | in every reachable state `upgrade_pool` succeeds if and only if the admin signed, the id is stored, its hash differs from the new, nonzero one, the pool answers the same admin and upgrades; each error answers exactly its own obstacle; exactly that record's hash changes, and the pool is then listed under the new hash alone |
| FactoryBatches.BatchUpgradeIsSequential | soroban/contracts/factory/src/lib.rs:1262-1277 | a batch upgrade succeeds if and only if the admin signed, its ids are pairwise distinct and every pool is upgradable beforehand; exactly those records change, only in their hash, the count grows by the batch length (saturating) and the storage is that of one-by-one upgrades; a failing one reports the first failing item's outcome |
| FactoryTvl.SyncExactIff | soroban/contracts/factory/src/lib.rs:212-232 | a sync keeps the total equal to the sum of the snapshots if and only if neither saturating operation clips, judged before the call |
| FactoryTvl.RangeExactIff | soroban/contracts/factory/src/lib.rs:1384-1394 | within a batch sync the total stays the sum after every single sync if and only if none of them clips |
| FactoryTvl.ExactIffNeverClips | soroban/contracts/factory/src/lib.rs:208-232 | over every run: the total stays the sum of the snapshots throughout the first n calls if and only if no sync among them clips |
| FactoryExamples.TotalDrifts | soroban/contracts/factory/src/lib.rs:216-218 | a run of `initialize`, two `create_pool` and four `sync_pool_tvl` after which every snapshot is 0 and the total is -i128::MAX |
| FactoryTvl.SyncNeverClips | soroban/contracts/factory/src/lib.rs:212-232 | with reports of magnitude at most 2^95 - 1 no saturating operation clips |
| FactoryTvl.ExecutionsKeepSnapshots | soroban/contracts/factory/src/lib.rs:1353-1396 | after every run exactly the created pools have snapshots, and these and their sum are what the published events say |
| FactoryTvl.EventsReplaySnapshots | soroban/contracts/factory/src/lib.rs:225-229 | after every run each snapshot is the value of the pool's latest `tvl_sync` event, and the events' changes add up to the sum of the snapshots |
| FactoryTvl.BoundedRunNeverClips | soroban/contracts/factory/src/lib.rs:212-232 | if every pool always reports at most 2^95 - 1 in magnitude, no sync of any run clips |
| FactoryTvl.AccumulatorIsSum | soroban/contracts/factory/src/lib.rs:208-232 | if every pool always reports at most 2^95 - 1 in magnitude, `TotalTvl` is the sum of the snapshots after every run of creations, upgrades and syncs |
| FactoryTvl.SweepConverges | soroban/contracts/factory/src/lib.rs:1374-1396 | a full sweep with any limits of at least 1 terminates, brings every stored, answering pool to its live value, leaves every other snapshot and the registry alone, and a second sweep changes nothing |
| FactoryTvl.SweepTotals | soroban/contracts/factory/src/lib.rs:1374-1396 | from an exact total the sweep leaves the sum of the fresh snapshots unless one of its syncs clips, and under bounded snapshots and reports none does |
| FactoryTvl.SyncPoolTvlSucceedsIff | soroban/contracts/factory/src/lib.rs:1353-1363 | `sync_pool_tvl` succeeds if and only if the pool is stored and answers, each error answering its own obstacle; it replies with the answer, which becomes the snapshot, publishes the change, moves the total by exactly as much unless the sync clips, and changes nothing else |
| FactoryTvl.SingleSyncIsOnePage | soroban/contracts/factory/src/lib.rs:1353-1396 | a single sync is a sweep page of that one pool |
| FactoryTvl.SweepPageExact | soroban/contracts/factory/src/lib.rs:1374-1396 | a sweep page ends exactly at the lesser of start + min(limit, 50) and the count, brings the stored, answering pools of its window to their live values and changes no other snapshot |
| FactoryPaging.ListedExact | soroban/contracts/factory/src/lib.rs:720-728 | a range's listing is ascending, holds all and only the selected stored records, each as stored |
| FactoryPaging.IndexPathIsListed | soroban/contracts/factory/src/lib.rs:857-877 | with a sound index the indexed path returns exactly the asset's records before its cursor, without comparing assets |
| FactoryPaging.ScanPathIsListed | soroban/contracts/factory/src/lib.rs:887-902 | the scan path returns exactly the asset's records before its cursor |
| FactoryPaging.IndexedRefinesScan | soroban/contracts/factory/src/lib.rs:851-910 | both paths return the same records and the indexed cursor is never behind |
| FactoryPaging.IndexLoop | soroban/contracts/factory/src/lib.rs:857-877 | the loop computes the indexed path |
| FactoryPaging.ScanLoop | soroban/contracts/factory/src/lib.rs:887-902 | the loop computes the scan path |
| FactoryPaging.ListLoop | soroban/contracts/factory/src/lib.rs:718-728 | the loop collects the stored records of the window and publishes each missing id |
| FactoryPaging.RefreshLoop | soroban/contracts/factory/src/lib.rs:1052-1061 | the loop refreshes the stored ids of the range and counts the missing ones |
| FactoryWalks.AssetPageAdvances | soroban/contracts/factory/src/lib.rs:818-911 | each page returns exactly the asset's stored records between its start and its cursor, at most `limit` (20 when 0 or more), within a window of `scan_limit` ids (50 when 0 or more); it stops before the end of the window only when it is full, and then at a pool of the asset; below the total the cursor strictly advances |
| FactoryWalks.IndexedPageRefinesScannedPage | soroban/contracts/factory/src/lib.rs:851-910 | in every reachable state, for every start, window and limit, the two paths' pages have the same records and the indexed cursor is not behind |
| FactoryWalks.AssetWalkComplete | soroban/contracts/factory/src/lib.rs:851-910 | in every reachable state a full walk of the entry point, paged in any way, terminates and returns exactly the asset's stored records, and walks of its indexed path and of its scan path return the same |
| FactoryWalks.InterleavedWalkExact | soroban/contracts/factory/src/lib.rs:818-911 | with creations, upgrades, syncs and any other call between the pages, the ids received so far are always exactly the asset's stored ids below the cursor, ascending |
| FactoryWalks.InterleavedWalkSound | soroban/contracts/factory/src/lib.rs:818-911 | even when records are archived between the pages, no id is received twice, none of another asset is received, and no id still stored below the cursor was skipped |
| FactoryListWalks.ListPageAccountsForWindow | soroban/contracts/factory/src/lib.rs:696-737 | a `list_pools` page covers exactly `limit` ids (20 when 0 or more) or up to the end; its records are exactly the stored ids of the window, as stored, and its gaps exactly the others |
| FactoryListWalks.ListWalkPartitions | soroban/contracts/factory/src/lib.rs:716-736 | a full `list_pools` walk with any limits, 0 included, terminates and puts each id exactly once in the records or in the `pool_gap` events |
| FactoryListWalks.InterleavedListExact | soroban/contracts/factory/src/lib.rs:716-736 | with creations, upgrades and any other call between the pages, the records and gaps received so far are exactly those below the cursor |
| FactoryListWalks.InterleavedListPartitions | soroban/contracts/factory/src/lib.rs:716-736 | even when records are archived between the pages, each id below the cursor was received exactly once, as a record or as a gap, and none still stored was reported as a gap |
| FactoryListWalks.RefreshAccountsForRange | soroban/contracts/factory/src/lib.rs:1038-1072 | a refresh ends exactly at the lesser of start + min(limit, 20) and the count, refreshes exactly the stored ids of its range, in order, and counts the others |
| FactoryListWalks.RefreshWalkComplete | soroban/contracts/factory/src/lib.rs:1050-1071 | a full refresh walk with limits of at least 1 refreshes each stored record exactly once and counts every gap |
| FactoryListWalks.InterleavedRefreshExact | soroban/contracts/factory/src/lib.rs:1050-1071 | with any limits and any calls between the pages but archivals, exactly the stored ids below the cursor were refreshed, in order, and every gap was counted |
| FactorySort.PrecedesIsStrictTotalOrder | soroban/contracts/factory/src/lib.rs:268-276 | `sort_precedes` is a strict total order on records with distinct ids, for every sort key |
| FactorySort.InsertSorted | soroban/contracts/factory/src/lib.rs:278-287 | the loop inserts before the first record the new one precedes |
| FactorySort.InsertedKeepsSorted | soroban/contracts/factory/src/lib.rs:278-287 | inserting a record with a new id keeps the vector sorted |
| FactorySort.InsertedMultiset | soroban/contracts/factory/src/lib.rs:278-287 | inserting adds exactly that record |
| FactorySort.SortedPermutationUnique | soroban/contracts/factory/src/lib.rs:268-287 | only one sequence is sorted and has given records |
| FactorySort.SortedLoop | soroban/contracts/factory/src/lib.rs:770-780 | the loop builds the sorted page and publishes each missing id |
| FactorySort.SortedPageCorrect | soroban/contracts/factory/src/lib.rs:739-789 | `list_pools_sorted` has the cursor fields and gaps of `list_pools` on the same window, and the one permutation of its records that ascends in the requested stored field (`creditRate`, `globalMultiplier`, `minLockPeriod` or the id), equal values in ascending id; it is the same page when sorting by pool id |
| FactoryContract.RemoveId | soroban/contracts/factory/src/lib.rs:1195-1200 | the loop keeps every id but one, in order |
| FactoryContract.Factory.TransferAdmin | soroban/contracts/factory/src/lib.rs:1083-1106 | the in-place contract does the model's transition; what that means is `FactoryGovernance.TransferAdminSucceedsIff` |
| FactoryContract.Factory.SetPoolWasmHash | soroban/contracts/factory/src/lib.rs:1456-1488 | the in-place contract does the model's transition; what that means is `FactoryGovernance.SetPoolWasmHashSucceedsIff` |
| FactoryContract.Factory.SetPaused | soroban/contracts/factory/src/lib.rs:1494-1525 | the in-place contract does the model's transition; what that means is `FactoryGovernance.SetPausedSucceedsIff` |
| FactoryContract.Factory.CreatePoolInner | soroban/contracts/factory/src/lib.rs:328-548 | writing entry by entry in the source's order yields the model's creation, and the same error when it fails |
| FactoryContract.Factory.IndexByAsset | soroban/contracts/factory/src/lib.rs:492-515 | appends to the asset's list and counts it, seeding an absent counter from the list |
| FactoryContract.Factory.CreatePool | soroban/contracts/factory/src/lib.rs:1569-1591 | the in-place contract does the model's transition, a failed call leaving no trace |
| FactoryContract.Factory.CreatePoolsBatch | soroban/contracts/factory/src/lib.rs:1596-1628 | the loop over items is the model's batch, and a failing item undoes the earlier ones |
| FactoryContract.Factory.UpgradePoolInner | soroban/contracts/factory/src/lib.rs:1140-1226 | writing entry by entry yields the model's upgrade, and the same error when it fails |
| FactoryContract.Factory.UpgradePool | soroban/contracts/factory/src/lib.rs:1244-1256 | the in-place contract does the model's transition, a failed call leaving no trace |
| FactoryContract.Factory.UpgradePoolsBatch | soroban/contracts/factory/src/lib.rs:1262-1277 | the loop over ids is the model's batch, and a failing id undoes the earlier ones |
| FactoryContract.Factory.ApplyTvlSync | soroban/contracts/factory/src/lib.rs:212-232 | an unanswered query changes nothing; otherwise the model's sync |
| FactoryContract.Factory.SyncPoolTvl | soroban/contracts/factory/src/lib.rs:1353-1363 | syncs one stored, answering pool; an unknown or silent pool is refused and changes nothing |
| FactoryContract.Factory.SyncAllPoolTvls | soroban/contracts/factory/src/lib.rs:1374-1396 | the loop syncs the window in order, skipping gaps and silent pools |
| FactoryContract.Factory.PoolCountByAsset | soroban/contracts/factory/src/lib.rs:933-953 | the in-place contract does the model's transition, seeding an absent counter |
| FactoryContract.Factory.ListPools | soroban/contracts/factory/src/lib.rs:696-737 | the method returns the model's page and gaps |
| FactoryContract.Factory.ListPoolsSorted | soroban/contracts/factory/src/lib.rs:747-789 | the method returns the model's sorted page and gaps |
| FactoryContract.Factory.GetPoolsByAssetRange | soroban/contracts/factory/src/lib.rs:818-911 | the method takes the indexed path when the asset has a list and the scan path otherwise, and returns that path's page |
| FactoryContract.Factory.RefreshPoolTtls | soroban/contracts/factory/src/lib.rs:1038-1072 | the method returns the model's refreshed ids, end and missing count |
| FactoryContract.Factory.Execute | soroban/contracts/factory/src/lib.rs:553-1629 | any event of a run, performed on the contract, is the model's step and keeps the registry invariant |

## Left out

- The farming pool's own logic: its implementation is not part of this model; its `total_staked`, `admin` and `upgrade` are oracles.
- TTL arithmetic and the `bump_*` calls: storage rent has no effect on stored values; only which ids a refresh touches is kept.
- Restoring an archived record: records may go missing at any point of a run, and are not brought back.
- Index, count and snapshot entries do not expire; no run removes an asset count, but `FactoryTheorems.AssetCountExact` also covers a list without one, as an older deployment leaves it.
- Signature checking, address parsing and WASM deployment: host calls; authorisation is a set of signers, deployment an injective function of the salt that may trap.
- The SEP-41 probes of `validate_asset`: one answer per request.
- `ApprovedWasmHash`: written and never read.
- Events other than `pool_crtd`, `pool_upg`, `tvl_sync` and `pool_gap`, and their encoding.
- Plain getters (`admin`, `pool_count`, `get_pool`, `pool_status`, `vesting_dates`, `token` and the like), `get_pools_by_asset`, `get_pools_by_admin` and `release_all`: one branch or one delegation each.
- Token balances are unbounded naturals: a recipient balance overflowing i128 is one of the reasons a token may refuse a transfer.
- The vested token's address: the wallet uses one token, whose book is part of the state.
