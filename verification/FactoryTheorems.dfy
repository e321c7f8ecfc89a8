/** The promises of the registry: its indexes over every run, and what a creation accepts and enters. */
module FactoryTheorems {
  import opened Host
  import opened FactoryTypes
  import opened FactoryRates
  import opened FactorySalt
  import opened FactoryModel
  import opened FactoryIndex
  import opened FactoryRuns

  // ---------------------------------------------------------------- indexes

  lemma IndexListExact(index: map<Address, seq<nat>>, keys: seq<Address>, key: Address)
    requires Indexes(index, keys)
    ensures Ascending(Lookup(index, key))
    ensures forall id :: id in Lookup(index, key) <==> 0 <= id < |keys| && keys[id] == key
  {
    assert Lookup(index, key) == Positions(keys, key);
    PositionsExact(keys, key);
  }

  /** In every reachable state the asset lists and the admin lists are the ids created for each, ascending. */
  lemma CreationIndexesExact(s: Storage, key: Address)
    requires Reachable(s)
    ensures |s.events.created| == s.instance.poolCount
    ensures Ascending(Lookup(s.assetPools, key)) && Ascending(Lookup(s.poolsByAdmin, key))
    ensures forall id :: id in Lookup(s.assetPools, key)
                    <==> 0 <= id < s.instance.poolCount && s.events.created[id].record.asset == key
    ensures forall id :: id in Lookup(s.poolsByAdmin, key)
                    <==> 0 <= id < s.instance.poolCount && s.events.created[id].admin == key
    ensures key in s.assetPoolCount ==> s.assetPoolCount[key] == |Lookup(s.assetPools, key)|
  {
    ReachableInv(s);
    IndexListExact(s.assetPools, Assets(s.events.created), key);
    IndexListExact(s.poolsByAdmin, Admins(s.events.created), key);
    assert Lookup(s.assetPools, key) == Positions(Assets(s.events.created), key);
  }

  /** Each created pool is in exactly one asset list and exactly one admin list, and keeps its record's asset list. */
  lemma CreationIndexesPartition(s: Storage, id: nat)
    requires Reachable(s)
    ensures id < s.instance.poolCount <==> exists a :: id in Lookup(s.assetPools, a)
    ensures id < s.instance.poolCount <==> exists a :: id in Lookup(s.poolsByAdmin, a)
    ensures forall a, b :: id in Lookup(s.assetPools, a) && id in Lookup(s.assetPools, b) ==> a == b
    ensures forall a, b :: id in Lookup(s.poolsByAdmin, a) && id in Lookup(s.poolsByAdmin, b) ==> a == b
    ensures id in s.pools ==> id in Lookup(s.assetPools, s.pools[id].asset)
  {
    ReachableInv(s);
    forall key {
      CreationIndexesExact(s, key);
    }
    if id < s.instance.poolCount {
      assert id in Lookup(s.assetPools, s.events.created[id].record.asset);
      assert id in Lookup(s.poolsByAdmin, s.events.created[id].admin);
    }
  }

  lemma StoredCountRight(s: Storage, asset: Address)
    requires Inv(s)
    ensures asset in s.assetPoolCount ==> s.assetPoolCount[asset] == |Lookup(s.assetPools, asset)|
    ensures |Lookup(s.assetPools, asset)| <= s.instance.poolCount
  {
    PositionsFit(Assets(s.events.created), asset);
    assert Lookup(s.assetPools, asset) == Positions(Assets(s.events.created), asset);
  }

  /** A right count is read, or seeded, and reads the same again. */
  lemma CountIsLength(s: Storage, asset: Address)
    requires s.instance.admin.Some?
    requires asset in s.assetPoolCount ==> s.assetPoolCount[asset] == |Lookup(s.assetPools, asset)|
    ensures
      var o := PoolCountByAsset(s, asset);
      && o.Ok? && o.value.0 == |Lookup(s.assetPools, asset)| && PoolCountByAsset(o.value.1, asset) == o
      && (o.value.0 > 0 ==> asset in o.value.1.assetPoolCount)
      && o.value.1 == s.(assetPoolCount := o.value.1.assetPoolCount)
      && s.assetPoolCount.Keys <= o.value.1.assetPoolCount.Keys <= s.assetPoolCount.Keys + {asset}
  {
  }

  lemma CountKeepsInv(s: Storage, asset: Address)
    requires Inv(s)
    ensures Inv(After(PoolCountByAsset(s, asset), s))
  {
    if s.instance.admin.Some? {
      SeedKeepsInv(s, asset);
    }
  }

  /**
   `pool_count_by_asset` is the length of the asset's list, read from the stored count or, when
   that is absent, seeded from the list; a second call then reads the same from storage.
   */
  lemma AssetCountExact(s: Storage, asset: Address)
    requires Inv(s)
    ensures s.instance.admin.None? ==> PoolCountByAsset(s, asset) == Err(NotInitialized)
    ensures s.instance.admin.Some? ==>
      var o := PoolCountByAsset(s, asset);
      && o.Ok? && o.value.0 == |Lookup(s.assetPools, asset)| <= s.instance.poolCount
      && Inv(o.value.1) && PoolCountByAsset(o.value.1, asset) == o
      && (o.value.0 > 0 ==> asset in o.value.1.assetPoolCount)
      && o.value.1 == s.(assetPoolCount := o.value.1.assetPoolCount)
      && s.assetPoolCount.Keys <= o.value.1.assetPoolCount.Keys <= s.assetPoolCount.Keys + {asset}
  {
    if s.instance.admin.Some? {
      StoredCountRight(s, asset);
      CountIsLength(s, asset);
      CountKeepsInv(s, asset);
    }
  }

  /** No two pool records ever share a contract address. */
  lemma AddressesDistinct(s: Storage, i: nat, j: nat)
    requires Reachable(s) && i in s.pools && j in s.pools && i != j
    ensures s.pools[i].address != s.pools[j].address
  {
    ReachableInv(s);
    SaltInjective(i, j);
  }

  /**
   The hash index: a pool is listed under `hash` exactly when its latest upgrade installed
   `hash`, once, and then its record (if still stored) carries `hash`. A pool that was never
   upgraded is listed nowhere, since creation does not write this index.
   */
  lemma HashIndexExact(s: Storage, hash: Hash)
    requires Reachable(s)
    ensures Distinct(Lookup(s.poolsByWasmHash, hash))
    ensures forall id :: id in Lookup(s.poolsByWasmHash, hash) <==> LastUpgrade(s.events.upgraded, id) == Some(hash)
    ensures forall id :: id in Lookup(s.poolsByWasmHash, hash) && id in s.pools ==> s.pools[id].wasmHash == hash
    ensures s.instance.upgradeCount == Min(|s.events.upgraded|, U32_MAX)
  {
    ReachableInv(s);
    HoldersExact(s.events.upgraded, hash);
  }

  /** Listed somewhere if and only if upgraded at least once. */
  lemma ListedIffUpgraded(s: Storage, id: nat)
    requires Reachable(s)
    ensures (exists hash :: id in Lookup(s.poolsByWasmHash, hash)) <==> exists u :: u in s.events.upgraded && u.id == id
  {
    UpgradedIffLast(s.events.upgraded, id);
    forall hash {
      HashIndexExact(s, hash);
    }
    if LastUpgrade(s.events.upgraded, id).Some? {
      assert id in Lookup(s.poolsByWasmHash, LastUpgrade(s.events.upgraded, id).value);
    }
  }

  lemma {:induction false} UpgradedIffLast(upgraded: seq<PoolUpgraded>, id: nat)
    ensures LastUpgrade(upgraded, id).Some? <==> exists u :: u in upgraded && u.id == id
  {
    if upgraded != [] {
      var n := |upgraded| - 1;
      UpgradedIffLast(upgraded[..n], id);
      assert upgraded == upgraded[..n] + [upgraded[n]];
      if upgraded[n].id == id {
        assert upgraded[n] in upgraded;
      }
    }
  }

  // ---------------------------------------------------------------- creation

  /** The parameters the factory accepts, as ranges. */
  predicate Acceptable(admin: Address, p: PoolParams) {
    && p.asset != Zero && p.asset != Self && p.asset != admin
    && 1 <= p.globalMultiplier <= 1_000
    && 1 <= p.dailyRate <= 1_728_000_000_000
    && 1 <= p.minLockPeriod <= 63_072_000
    && -1_000_000_000_000_000_000 <= p.minStakeAmount <= 1_000_000_000_000_000_000
    && !(0 < p.minStakeAmount < 1_000_000)
  }

  /** What each rejection of a request says about it. */
  predicate Justified(e: Error, paused: bool, admin: Address, item: CreateItem) {
    var p := item.params;
    match e
    case PoolCreationPaused => paused
    case InvalidAsset => !item.isToken || p.asset in {Zero, Self, admin}
    case InvalidGlobalMultiplier => !(1 <= p.globalMultiplier <= 1_000)
    case InvalidCreditRate => !(1 <= p.dailyRate <= 1_728_000_000_000)
    case MinLockPeriodTooShort => p.minLockPeriod == 0
    case MinLockPeriodOutOfRange => p.minLockPeriod > U32_MAX
    case MinLockPeriodAboveCeiling => 63_072_000 < p.minLockPeriod <= U32_MAX
    case InvalidMinStakeAmount =>
      || 0 < p.minStakeAmount < 1_000_000
      || !(-1_000_000_000_000_000_000 <= p.minStakeAmount <= 1_000_000_000_000_000_000)
    case _ => false
  }

  /** The order in which the faults are looked for. */
  function Place(e: Error): nat {
    match e
    case PoolCreationPaused => 1
    case InvalidAsset => 2
    case InvalidGlobalMultiplier => 3
    case InvalidCreditRate => 4
    case MinLockPeriodTooShort => 5
    case MinLockPeriodOutOfRange => 6
    case MinLockPeriodAboveCeiling => 7
    case InvalidMinStakeAmount => 8
    case _ => 9
  }

  /** A request is rejected exactly when it is not acceptable, for the first fault in that order that it has. */
  lemma RejectionsJustified(paused: bool, admin: Address, item: CreateItem)
    ensures
      var rejected := FirstInvalid(paused, admin, item);
      && (rejected.None? <==> !paused && item.isToken && Acceptable(admin, item.params))
      && (rejected.Some? ==>
            && Justified(rejected.value, paused, admin, item)
            && forall e :: Justified(e, paused, admin, item) ==> Place(rejected.value) <= Place(e))
  {
    ConversionIsLeastCover(item.params.dailyRate);
  }

  /**
   In every reachable state `create_pool` succeeds exactly on acceptable parameters with the admin's
   signature while the id space lasts; an id overflow means the registry itself is full, never a
   single asset's counter, and only a missing signature or a failed deployment traps.
   */
  lemma CreatePoolSucceedsIff(s: Storage, signers: Signers, item: CreateItem)
    requires Reachable(s)
    ensures
      var o := CreatePool(s, signers, item);
      var signed := s.instance.admin.Some? && s.instance.admin.value in signers;
      var accepted := signed && !s.instance.paused && item.isToken && Acceptable(s.instance.admin.value, item.params);
      && (o.Ok? <==> accepted && s.instance.poolCount < U32_MAX && item.deploys)
      && (o == Err(NotInitialized) <==> s.instance.admin.None?)
      && (o == Err(PoolCountOverflow) <==> accepted && s.instance.poolCount == U32_MAX)
      && (o.Trap? <==> || (s.instance.admin.Some? && !signed)
                       || (accepted && s.instance.poolCount < U32_MAX && !item.deploys))
      && (signed && !accepted ==>
            o.Err? && Some(o.error) == FirstInvalid(s.instance.paused, s.instance.admin.value, item))
      && (o.Ok? ==> o.value.0 == s.instance.poolCount)
  {
    ReachableInv(s);
    if s.instance.admin.Some? {
      RejectionsJustified(s.instance.paused, s.instance.admin.value, item);
    }
    PositionsFit(Assets(s.events.created), item.params.asset);
  }

  /**
   What a successful `create_pool` enters: a record that mirrors the request, at the address of
   its own salt, with the least covering rate and a zero snapshot; no other record changes.
   */
  lemma NewPoolMirrorsRequest(s: Storage, signers: Signers, item: CreateItem)
    requires CreatePool(s, signers, item).Ok?
    ensures
      var (id, t) := CreatePool(s, signers, item).value;
      var p := item.params;
      && id == s.instance.poolCount && t.instance.poolCount == id + 1
      && t.instance == s.instance.(poolCount := t.instance.poolCount) && t.poolsByWasmHash == s.poolsByWasmHash
      && id in t.pools && t.pools == s.pools[id := t.pools[id]]
      && t.poolTvl == s.poolTvl[id := 0]
      && var r := t.pools[id];
         && r.address == Deployed(Salt(id)) && r.asset == p.asset && Some(r.wasmHash) == s.instance.wasmHash
         && r.globalMultiplier == p.globalMultiplier && r.minLockPeriod == p.minLockPeriod && r.dailyRate == p.dailyRate
         && p.dailyRate <= r.creditRate * 17_280 < p.dailyRate + 17_280
         && var minStake := if p.minStakeAmount <= 0 then 1_000_000 else p.minStakeAmount;
            && 1_000_000 <= minStake <= 1_000_000_000_000_000_000
            && t.events.created == s.events.created + [PoolCreated(id, s.instance.admin.value, r, minStake)]
  {
    ConversionIsLeastCover(item.params.dailyRate);
  }

  /** A pause stops every creation, whoever signs, until it is lifted; lifting it restores what was there. */
  lemma PauseStopsCreation(s: Storage, adminSigners: Signers, signers: Signers, items: seq<CreateItem>)
    requires SetPaused(s, adminSigners, true).Ok?
    ensures
      var t := SetPaused(s, adminSigners, true).value.1;
      && CreatePoolsBatch(t, signers, items).IsFailure()
      && (forall item :: item in items ==> CreatePool(t, signers, item).IsFailure())
      && (!s.instance.paused ==> SetPaused(t, adminSigners, false) == Ok(((), s)))
  {
    var t := SetPaused(s, adminSigners, true).value.1;
    var admin := t.instance.admin.value;
    if items != [] {
      PausedBatchFails(t, admin, items);
    }
  }

  lemma {:induction false} PausedBatchFails(s: Storage, admin: Address, items: seq<CreateItem>)
    requires s.instance.paused && items != []
    ensures CreateAll(s, admin, items).IsFailure()
    decreases |items|
  {
    if |items| > 1 {
      PausedBatchFails(s, admin, items[..|items| - 1]);
    }
  }
}
