/**
 The factory as a transition system: what every entry point that can write storage does.
 Each is a function from the storage before to `Ok((reply, storage after))` or a failure.
 */
module FactoryModel {
  import opened Host
  import opened FactoryTypes
  import opened FactoryRates
  import opened FactorySalt

  const MIN_STAKE_AMOUNT: int := 1_000_000
  const MAX_STAKE_AMOUNT: int := 1_000_000_000_000_000_000
  const MIN_LOCK_PERIOD: int := 1
  const MAX_MIN_LOCK_PERIOD: int := 63_072_000
  const MAX_GLOBAL_MULTIPLIER: int := 1_000
  const MAX_BATCH_SIZE: int := 10
  const MAX_POOL_SCAN_PER_CALL: int := 50

  // ---------------------------------------------------------------- administration

  function Initialize(s: Storage, admin: Address, hash: Hash): Outcome<((), Storage), Error> {
    if s.instance.admin.Some? then Err(AlreadyInitialized)
    else if admin == Zero then Err(InvalidAdmin)
    else if hash == ZERO_HASH then Err(InvalidWasmHash)
    else Ok(((), s.(instance := s.instance.(admin := Some(admin), wasmHash := Some(hash), poolCount := 0))))
  }

  function TransferAdmin(s: Storage, signers: Signers, newAdmin: Address): Outcome<((), Storage), Error> {
    if s.instance.admin.None? then Err(NotInitialized)
    else if s.instance.admin.value !in signers then Trap
    else if newAdmin == Zero then Err(InvalidAdmin)
    else if s.instance.adminTransferCount == U32_MAX then Trap
    else Ok(((), s.(instance := s.instance.(admin := Some(newAdmin),
                                            adminTransferCount := s.instance.adminTransferCount + 1))))
  }

  function SetPoolWasmHash(s: Storage, signers: Signers, hash: Hash): Outcome<((), Storage), Error> {
    if s.instance.admin.None? then Err(NotInitialized)
    else if s.instance.admin.value !in signers then Trap
    else if hash == ZERO_HASH then Err(InvalidWasmHash)
    else if s.instance.wasmHash.None? then Trap
    else if hash == s.instance.wasmHash.value then Err(SameWasmHash)
    else Ok(((), s.(instance := s.instance.(wasmHash := Some(hash)))))
  }

  /** `pause_pool_creation` and `unpause_pool_creation`. */
  function SetPaused(s: Storage, signers: Signers, paused: bool): Outcome<((), Storage), Error> {
    if s.instance.admin.None? then Err(NotInitialized)
    else if s.instance.admin.value !in signers then Trap
    else Ok(((), s.(instance := s.instance.(paused := paused))))
  }

  /** The admin on whose behalf a pool is created or upgraded. */
  function RequireFactoryAdmin(s: Storage, signers: Signers): Outcome<Address, Error> {
    if s.instance.admin.None? then Err(NotInitialized)
    else if s.instance.admin.value == Zero then Err(InvalidAdmin)
    else if s.instance.admin.value !in signers then Trap
    else Ok(s.instance.admin.value)
  }

  // ---------------------------------------------------------------- creation

  function EffectiveMinStake(requested: int): int {
    if requested <= 0 then MIN_STAKE_AMOUNT else requested
  }

  /** The error of the first validation that fails, in the order they are made. */
  function FirstInvalid(paused: bool, admin: Address, item: CreateItem): Option<Error> {
    var p := item.params;
    if paused then Some(PoolCreationPaused)
    else if !item.isToken || p.asset == Zero || p.asset == Self || p.asset == admin then Some(InvalidAsset)
    else if p.globalMultiplier < 1 || p.globalMultiplier > MAX_GLOBAL_MULTIPLIER then Some(InvalidGlobalMultiplier)
    else if p.dailyRate > MAX_DAILY_RATE then Some(InvalidCreditRate)
    else
      var rate := DailyRateToCreditRate(p.dailyRate);
      if !rate.Ok? || rate.value <= 0 || rate.value > MAX_CREDIT_RATE then Some(InvalidCreditRate)
      else if p.minLockPeriod == 0 then Some(MinLockPeriodTooShort)
      else if p.minLockPeriod > U32_MAX then Some(MinLockPeriodOutOfRange)
      else if p.minLockPeriod < MIN_LOCK_PERIOD then Some(MinLockPeriodTooShort)
      else if p.minLockPeriod > MAX_MIN_LOCK_PERIOD then Some(MinLockPeriodAboveCeiling)
      else if p.minStakeAmount > MAX_STAKE_AMOUNT || p.minStakeAmount < -MAX_STAKE_AMOUNT then
        Some(InvalidMinStakeAmount)
      else if !(MIN_STAKE_AMOUNT <= EffectiveMinStake(p.minStakeAmount) <= MAX_STAKE_AMOUNT) then
        Some(InvalidMinStakeAmount)
      else None
  }

  function NewRecord(id: u32, p: PoolParams, hash: Hash): PoolRecord
    requires DailyRateToCreditRate(p.dailyRate).Ok?
  {
    PoolRecord(Deployed(Salt(id)), p.asset, DailyRateToCreditRate(p.dailyRate).value,
               p.globalMultiplier, p.minLockPeriod, p.dailyRate, hash)
  }

  /** The per-asset counter before a creation: seeded from the index when absent. */
  function AssetCount(s: Storage, asset: Address): nat {
    if asset in s.assetPoolCount then s.assetPoolCount[asset] else |Lookup(s.assetPools, asset)|
  }

  /** Enters the next pool in the table, in both creation indexes, in the TVL snapshots and in the event log. */
  function Registered(s: Storage, admin: Address, record: PoolRecord, minStake: int): Storage
    requires s.instance.poolCount < U32_MAX
  {
    var id := s.instance.poolCount;
    s.(instance := s.instance.(poolCount := id + 1),
       pools := s.pools[id := record],
       poolTvl := s.poolTvl[id := 0],
       assetPools := s.assetPools[record.asset := Lookup(s.assetPools, record.asset) + [id]],
       assetPoolCount := s.assetPoolCount[record.asset := AssetCount(s, record.asset) + 1],
       poolsByAdmin := s.poolsByAdmin[admin := Lookup(s.poolsByAdmin, admin) + [id]],
       events := s.events.(created := s.events.created + [PoolCreated(id, admin, record, minStake)]))
  }

  /** `create_pool_inner`. */
  function CreateInner(s: Storage, admin: Address, item: CreateItem): Outcome<(nat, Storage), Error> {
    var invalid := FirstInvalid(s.instance.paused, admin, item);
    if invalid.Some? then Err(invalid.value)
    else if s.instance.poolCount == U32_MAX then Err(PoolCountOverflow)
    else if s.instance.wasmHash.None? then Err(NotInitialized)
    else if !item.deploys then Trap
    else if AssetCount(s, item.params.asset) >= U32_MAX then Err(PoolCountOverflow)
    else
      var id := s.instance.poolCount;
      Ok((id, Registered(s, admin, NewRecord(id, item.params, s.instance.wasmHash.value),
                         EffectiveMinStake(item.params.minStakeAmount))))
  }

  function CreatePool(s: Storage, signers: Signers, item: CreateItem): Outcome<(nat, Storage), Error> {
    var admin :- RequireFactoryAdmin(s, signers);
    CreateInner(s, admin, item)
  }

  /** The items in order; the first failure is the failure of the batch. */
  function CreateAll(s: Storage, admin: Address, items: seq<CreateItem>): Outcome<(seq<nat>, Storage), Error>
    decreases |items|
  {
    if items == [] then Ok(([], s))
    else
      var earlier :- CreateAll(s, admin, items[..|items| - 1]);
      var last :- CreateInner(earlier.1, admin, items[|items| - 1]);
      Ok((earlier.0 + [last.0], last.1))
  }

  function CreatePoolsBatch(s: Storage, signers: Signers, items: seq<CreateItem>): Outcome<(seq<nat>, Storage), Error> {
    var admin :- RequireFactoryAdmin(s, signers);
    if items == [] then Err(EmptyBatch)
    else if |items| > MAX_BATCH_SIZE then Err(BatchTooLarge)
    else CreateAll(s, admin, items)
  }

  // ---------------------------------------------------------------- upgrade

  function Without(ids: seq<nat>, id: nat): seq<nat> {
    if ids == [] then []
    else Without(ids[..|ids| - 1], id) + (if ids[|ids| - 1] == id then [] else [ids[|ids| - 1]])
  }

  /** The hash index after pool `id` moves from `oldHash` to `newHash`: only those two lists are touched. */
  function Reindexed(index: map<Hash, seq<nat>>, id: nat, oldHash: Hash, newHash: Hash): map<Hash, seq<nat>> {
    var trimmed := if oldHash in index then index[oldHash := Without(index[oldHash], id)] else index;
    trimmed[newHash := Lookup(trimmed, newHash) + [id]]
  }

  function Upgraded(s: Storage, id: nat, newHash: Hash): Storage
    requires id in s.pools
  {
    var record := s.pools[id];
    s.(instance := s.instance.(upgradeCount := SaturatingAddU32(s.instance.upgradeCount, 1)),
       pools := s.pools[id := record.(wasmHash := newHash)],
       poolsByWasmHash := Reindexed(s.poolsByWasmHash, id, record.wasmHash, newHash),
       events := s.events.(upgraded := s.events.upgraded + [PoolUpgraded(id, record.wasmHash, newHash)]))
  }

  /** `upgrade_pool_inner`. */
  function UpgradeInner(s: Storage, admin: Address, item: UpgradeItem, newHash: Hash): Outcome<((), Storage), Error> {
    if item.id !in s.pools then Err(PoolNotFound)
    else if item.poolAdmin.None? then Err(PoolUpgradeFailed)
    else if item.poolAdmin.value != admin then Err(PoolAdminMismatch)
    else if newHash == s.pools[item.id].wasmHash then Err(PoolUpgradeFailed)
    else if newHash == ZERO_HASH then Err(InvalidWasmHash)
    else if !item.upgrades then Err(PoolUpgradeFailed)
    else Ok(((), Upgraded(s, item.id, newHash)))
  }

  function UpgradePool(s: Storage, signers: Signers, item: UpgradeItem, newHash: Hash): Outcome<((), Storage), Error> {
    var admin :- RequireFactoryAdmin(s, signers);
    UpgradeInner(s, admin, item, newHash)
  }

  function UpgradeAll(s: Storage, admin: Address, items: seq<UpgradeItem>, newHash: Hash): Outcome<((), Storage), Error>
    decreases |items|
  {
    if items == [] then Ok(((), s))
    else
      var earlier :- UpgradeAll(s, admin, items[..|items| - 1], newHash);
      UpgradeInner(earlier.1, admin, items[|items| - 1], newHash)
  }

  function UpgradePoolsBatch(s: Storage, signers: Signers, items: seq<UpgradeItem>, newHash: Hash)
    : Outcome<((), Storage), Error>
  {
    var admin :- RequireFactoryAdmin(s, signers);
    UpgradeAll(s, admin, items, newHash)
  }

  // ---------------------------------------------------------------- TVL

  function PoolTvl(s: Storage, id: nat): i128 {
    if id in s.poolTvl then s.poolTvl[id] else 0
  }

  /** `apply_tvl_sync` on a pool that answers `live`. */
  function Synced(s: Storage, id: nat, live: i128): Storage {
    var previous := PoolTvl(s, id);
    if live == previous then s
    else
      s.(instance := s.instance.(totalTvl := SaturatingSub(SaturatingAdd(s.instance.totalTvl, live), previous)),
         poolTvl := s.poolTvl[id := live],
         events := s.events.(synced := s.events.synced + [TvlSynced(id, previous, live)]))
  }

  function SyncPoolTvl(s: Storage, id: u32, stakes: Stakes): Outcome<(i128, Storage), Error> {
    if s.instance.admin.None? then Err(NotInitialized)
    else if id !in s.pools then Err(PoolNotFound)
    else if s.pools[id].address !in stakes then Err(PoolQueryFailed)
    else Ok((stakes[s.pools[id].address], Synced(s, id, stakes[s.pools[id].address])))
  }

  /** One id of a batch: a missing record or a silent pool is skipped. */
  function SyncOne(s: Storage, id: nat, stakes: Stakes): Storage {
    if id in s.pools && s.pools[id].address in stakes then Synced(s, id, stakes[s.pools[id].address]) else s
  }

  function SyncRange(s: Storage, lo: nat, hi: nat, stakes: Stakes): Storage
    decreases hi - lo
  {
    if lo >= hi then s else SyncOne(SyncRange(s, lo, hi - 1, stakes), hi - 1, stakes)
  }

  /** The exclusive end of a page of at most `window` ids from `start`. */
  function PageEnd(start: u32, window: u32, count: u32): u32 {
    Min(SaturatingAddU32(start, window), count)
  }

  function SyncAllPoolTvls(s: Storage, start: u32, limit: u32, stakes: Stakes): Outcome<(u32, Storage), Error> {
    if s.instance.admin.None? then Err(NotInitialized)
    else
      var end := PageEnd(start, Min(limit, MAX_POOL_SCAN_PER_CALL), s.instance.poolCount);
      Ok((end, SyncRange(s, start, end, stakes)))
  }

  // ---------------------------------------------------------------- the asset counter

  function PoolCountByAsset(s: Storage, asset: Address): Outcome<(nat, Storage), Error> {
    if s.instance.admin.None? then Err(NotInitialized)
    else if asset in s.assetPoolCount then Ok((s.assetPoolCount[asset], s))
    else
      var count := |Lookup(s.assetPools, asset)|;
      Ok((count, if count > 0 then s.(assetPoolCount := s.assetPoolCount[asset := count]) else s))
  }

  // ---------------------------------------------------------------- runs

  /** Every call that can write storage, and a pool record being archived by the host. */
  datatype Call =
    | CallInitialize(admin: Address, hash: Hash)
    | CallTransferAdmin(signers: Signers, newAdmin: Address)
    | CallSetPoolWasmHash(signers: Signers, hash: Hash)
    | CallSetPaused(signers: Signers, paused: bool)
    | CallCreatePool(signers: Signers, item: CreateItem)
    | CallCreatePoolsBatch(signers: Signers, items: seq<CreateItem>)
    | CallUpgradePool(signers: Signers, upgrade: UpgradeItem, hash: Hash)
    | CallUpgradePoolsBatch(signers: Signers, upgrades: seq<UpgradeItem>, hash: Hash)
    | CallSyncPoolTvl(id: u32, stakes: Stakes)
    | CallSyncAllPoolTvls(start: u32, limit: u32, stakes: Stakes)
    | CallPoolCountByAsset(asset: Address)
    | RecordExpires(id: u32)

  function Step(s: Storage, c: Call): Storage {
    match c
    case CallInitialize(admin, hash) => After(Initialize(s, admin, hash), s)
    case CallTransferAdmin(sg, newAdmin) => After(TransferAdmin(s, sg, newAdmin), s)
    case CallSetPoolWasmHash(sg, hash) => After(SetPoolWasmHash(s, sg, hash), s)
    case CallSetPaused(sg, paused) => After(SetPaused(s, sg, paused), s)
    case CallCreatePool(sg, item) => After(CreatePool(s, sg, item), s)
    case CallCreatePoolsBatch(sg, items) => After(CreatePoolsBatch(s, sg, items), s)
    case CallUpgradePool(sg, item, hash) => After(UpgradePool(s, sg, item, hash), s)
    case CallUpgradePoolsBatch(sg, items, hash) => After(UpgradePoolsBatch(s, sg, items, hash), s)
    case CallSyncPoolTvl(id, stakes) => After(SyncPoolTvl(s, id, stakes), s)
    case CallSyncAllPoolTvls(start, limit, stakes) => After(SyncAllPoolTvls(s, start, limit, stakes), s)
    case CallPoolCountByAsset(asset) => After(PoolCountByAsset(s, asset), s)
    case RecordExpires(id) => s.(pools := s.pools - {id})
  }

  /** Storages `states[0]`, `states[1]`, ... of a run: from an empty contract, one call at a time. */
  predicate Execution(states: seq<Storage>, calls: seq<Call>) {
    && |states| == |calls| + 1
    && states[0] == EMPTY_STORAGE
    && forall i :: 0 <= i < |calls| ==> states[i + 1] == Step(states[i], calls[i])
  }
}
