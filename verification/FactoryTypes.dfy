/** The factory's stored entities, its errors, and the answers it gets from other contracts. */
module FactoryTypes {
  import opened Host

  datatype Error =
    | AlreadyInitialized | PoolNotFound | NotInitialized | InvalidCreditRate | MinLockPeriodOutOfRange
    | InvalidGlobalMultiplier | PoolCountOverflow | PoolAdminMismatch | PoolUpgradeFailed | InvalidAsset
    | InvalidMinStakeAmount | PoolCreationPaused | InvalidWasmHash | MinLockPeriodTooShort | InvalidAdmin
    | PoolQueryFailed | SameWasmHash | MinLockPeriodAboveCeiling | EmptyBatch | BatchTooLarge

  /** A WASM hash, as the number its 32 bytes spell. */
  type Hash = nat
  const ZERO_HASH: Hash := 0

  datatype PoolRecord = PoolRecord(
    address: Address,
    asset: Address,
    creditRate: int,
    globalMultiplier: nat,
    minLockPeriod: nat,
    dailyRate: nat,
    wasmHash: Hash
  )

  datatype PoolParams = PoolParams(
    asset: Address,
    dailyRate: u128,
    globalMultiplier: u32,
    minLockPeriod: u64,
    minStakeAmount: i128
  )

  /** A pool to create, with the answers of the asset probe and of the deployment. */
  datatype CreateItem = CreateItem(params: PoolParams, isToken: bool, deploys: bool)

  /** A pool to upgrade, with the answers of its `admin` and `upgrade` entry points. */
  datatype UpgradeItem = UpgradeItem(id: u32, poolAdmin: Option<Address>, upgrades: bool)

  /** What every deployed pool answers to `total_staked`; a pool outside the map does not answer. */
  type Stakes = map<Address, i128>

  // The events the factory publishes about its registry.
  datatype PoolCreated = PoolCreated(id: nat, admin: Address, record: PoolRecord, minStake: int)
  datatype PoolUpgraded = PoolUpgraded(id: nat, oldHash: Hash, newHash: Hash)
  datatype TvlSynced = TvlSynced(id: nat, previous: i128, live: i128)
  datatype Events = Events(created: seq<PoolCreated>, upgraded: seq<PoolUpgraded>, synced: seq<TvlSynced>)

  /** The instance entry: the keys stored together with the contract. */
  datatype Instance = Instance(
    admin: Option<Address>,
    wasmHash: Option<Hash>,
    poolCount: u32,
    paused: bool,
    adminTransferCount: u32,
    upgradeCount: u32,
    totalTvl: i128
  )

  /** The instance entry, the keyed persistent entries, and the events published so far. */
  datatype Storage = Storage(
    instance: Instance,
    pools: map<nat, PoolRecord>,
    poolTvl: map<nat, i128>,
    assetPools: map<Address, seq<nat>>,
    assetPoolCount: map<Address, nat>,
    poolsByAdmin: map<Address, seq<nat>>,
    poolsByWasmHash: map<Hash, seq<nat>>,
    events: Events
  )

  const EMPTY_STORAGE := Storage(Instance(None, None, 0, false, 0, 0, 0), map[], map[], map[], map[], map[], map[],
                                 Events([], [], []))

  /** Reading an index entry that may be absent. */
  function Lookup<K>(index: map<K, seq<nat>>, key: K): seq<nat> {
    if key in index then index[key] else []
  }
}
