/**
 The factory contract: storage entries updated in place, step by step, with the host undoing
 every write of a call that fails. Each entry point is proved to do exactly what its
 transition in `FactoryModel`, or its query in `FactoryPaging`, says.
 */
module FactoryContract {
  import opened Host
  import opened FactoryTypes
  import opened FactorySalt
  import M = FactoryModel
  import P = FactoryPaging
  import S = FactorySort
  import FactoryIndex
  import FactoryRuns

  /** A batch that has failed stays failed with the same outcome, whatever items follow. */
  lemma {:induction false} CreateAllStaysFailed(s: Storage, admin: Address, items: seq<CreateItem>, k: nat)
    requires k <= |items| && M.CreateAll(s, admin, items[..k]).IsFailure()
    ensures Reply(M.CreateAll(s, admin, items)) == Reply(M.CreateAll(s, admin, items[..k]))
    decreases |items|
  {
    if k < |items| {
      assert items[..|items| - 1][..k] == items[..k];
      CreateAllStaysFailed(s, admin, items[..|items| - 1], k);
    } else {
      assert items[..k] == items;
    }
  }

  lemma {:induction false} UpgradeAllStaysFailed(s: Storage, admin: Address, items: seq<UpgradeItem>,
                                                 hash: Hash, k: nat)
    requires k <= |items| && M.UpgradeAll(s, admin, items[..k], hash).IsFailure()
    ensures Reply(M.UpgradeAll(s, admin, items, hash)) == Reply(M.UpgradeAll(s, admin, items[..k], hash))
    decreases |items|
  {
    if k < |items| {
      assert items[..|items| - 1][..k] == items[..k];
      UpgradeAllStaysFailed(s, admin, items[..|items| - 1], hash, k);
    } else {
      assert items[..k] == items;
    }
  }

  /** One more iteration of a batch loop. */
  lemma UpgradeAllNext(s: Storage, t: Storage, admin: Address, items: seq<UpgradeItem>, hash: Hash, i: nat)
    requires i < |items| && M.UpgradeAll(s, admin, items[..i], hash) == Ok(((), t))
    ensures M.UpgradeAll(s, admin, items[..i + 1], hash) == M.UpgradeInner(t, admin, items[i], hash)
  {
    assert items[..i + 1][..i] == items[..i];
  }

  lemma CreateAllNext(s: Storage, t: Storage, admin: Address, items: seq<CreateItem>, ids: seq<nat>, i: nat)
    requires i < |items| && M.CreateAll(s, admin, items[..i]) == Ok((ids, t))
    ensures M.CreateAll(s, admin, items[..i + 1]) ==
      match M.CreateInner(t, admin, items[i])
      case Ok(v) => Ok((ids + [v.0], v.1))
      case Err(e) => Err(e)
      case Trap => Trap
  {
    assert items[..i + 1][..i] == items[..i];
  }

  /** Rebuilds an id list without one id. */
  method RemoveId(ids: seq<nat>, id: nat) returns (kept: seq<nat>)
    ensures kept == M.Without(ids, id)
  {
    kept := [];
    for i := 0 to |ids|
      invariant kept == M.Without(ids[..i], id)
    {
      assert ids[..i + 1][..i] == ids[..i];
      if ids[i] != id {
        kept := kept + [ids[i]];
      }
    }
    assert ids[..|ids|] == ids;
  }

  class Factory {
    /** The instance entry. */
    var instance: Instance

    // The keyed persistent entries.
    var pools: map<nat, PoolRecord>
    var poolTvl: map<nat, i128>
    var assetPools: map<Address, seq<nat>>
    var assetPoolCount: map<Address, nat>
    var poolsByAdmin: map<Address, seq<nat>>
    var poolsByWasmHash: map<Hash, seq<nat>>

    /** What has been published. */
    var events: Events

    constructor ()
      ensures Snapshot() == EMPTY_STORAGE && Valid()
    {
      instance := EMPTY_STORAGE.instance;
      pools, poolTvl, assetPools, assetPoolCount := map[], map[], map[], map[];
      poolsByAdmin, poolsByWasmHash, events := map[], map[], Events([], [], []);
      new;
      FactoryRuns.ExecutionsKeepInv([EMPTY_STORAGE], [], 0);
    }

    function Snapshot(): Storage
      reads this
    {
      Storage(instance, pools, poolTvl, assetPools, assetPoolCount, poolsByAdmin, poolsByWasmHash, events)
    }

    /** The registry invariant, which every call keeps. */
    ghost predicate Valid()
      reads this
    {
      FactoryIndex.Inv(Snapshot())
    }

    /** What the host does to a failed call: every write is undone. */
    method Restore(s: Storage)
      modifies this
      ensures Snapshot() == s
    {
      instance, pools, poolTvl := s.instance, s.pools, s.poolTvl;
      assetPools, assetPoolCount := s.assetPools, s.assetPoolCount;
      poolsByAdmin, poolsByWasmHash, events := s.poolsByAdmin, s.poolsByWasmHash, s.events;
    }

    // -------------------------------------------------------------- administration

    method Initialize(admin: Address, hash: Hash) returns (r: Outcome<(), Error>)
      modifies this`instance
      ensures var o := M.Initialize(old(Snapshot()), admin, hash);
              r == Reply(o) && Snapshot() == After(o, old(Snapshot()))
    {
      if instance.admin.Some? {
        return Err(AlreadyInitialized);
      }
      if admin == Zero {
        return Err(InvalidAdmin);
      }
      if hash == ZERO_HASH {
        return Err(InvalidWasmHash);
      }
      instance := instance.(admin := Some(admin));
      instance := instance.(wasmHash := Some(hash));
      instance := instance.(poolCount := 0);
      return Ok(());
    }

    method TransferAdmin(signers: Signers, newAdmin: Address) returns (r: Outcome<(), Error>)
      modifies this`instance
      ensures var o := M.TransferAdmin(old(Snapshot()), signers, newAdmin);
              r == Reply(o) && Snapshot() == After(o, old(Snapshot()))
    {
      if instance.admin.None? {
        return Err(NotInitialized);
      }
      if instance.admin.value !in signers {
        return Trap;
      }
      if newAdmin == Zero {
        return Err(InvalidAdmin);
      }
      if instance.adminTransferCount == U32_MAX {
        return Trap;
      }
      instance := instance.(admin := Some(newAdmin));
      instance := instance.(adminTransferCount := instance.adminTransferCount + 1);
      return Ok(());
    }

    method SetPoolWasmHash(signers: Signers, hash: Hash) returns (r: Outcome<(), Error>)
      modifies this`instance
      ensures var o := M.SetPoolWasmHash(old(Snapshot()), signers, hash);
              r == Reply(o) && Snapshot() == After(o, old(Snapshot()))
    {
      if instance.admin.None? {
        return Err(NotInitialized);
      }
      if instance.admin.value !in signers {
        return Trap;
      }
      if hash == ZERO_HASH {
        return Err(InvalidWasmHash);
      }
      if instance.wasmHash.None? {
        return Trap;
      }
      if hash == instance.wasmHash.value {
        return Err(SameWasmHash);
      }
      instance := instance.(wasmHash := Some(hash));
      return Ok(());
    }

    method SetPaused(signers: Signers, paused: bool) returns (r: Outcome<(), Error>)
      modifies this`instance
      ensures var o := M.SetPaused(old(Snapshot()), signers, paused);
              r == Reply(o) && Snapshot() == After(o, old(Snapshot()))
    {
      if instance.admin.None? {
        return Err(NotInitialized);
      }
      if instance.admin.value !in signers {
        return Trap;
      }
      instance := instance.(paused := paused);
      return Ok(());
    }

    // -------------------------------------------------------------- creation

    /** Appends `id` to the asset's list and bumps the asset's counter, seeding it when absent; false on overflow. */
    method IndexByAsset(asset: Address, id: nat) returns (done: bool)
      modifies this`assetPools, this`assetPoolCount
      ensures done == (M.AssetCount(old(Snapshot()), asset) < U32_MAX)
      ensures assetPools == old(assetPools)[asset := Lookup(old(assetPools), asset) + [id]]
      ensures done ==> assetPoolCount == old(assetPoolCount)[asset := M.AssetCount(old(Snapshot()), asset) + 1]
    {
      var ids := Lookup(assetPools, asset);
      ids := ids + [id];
      assetPools := assetPools[asset := ids];
      var count := if asset in assetPoolCount then assetPoolCount[asset] else |ids| - 1;
      if count >= U32_MAX {
        return false;
      }
      assetPoolCount := assetPoolCount[asset := count + 1];
      return true;
    }

    /** Writes a new pool's record, snapshot, index entries and event; false when the asset's counter overflows. */
    method Register(id: nat, admin: Address, record: PoolRecord, minStake: int) returns (done: bool)
      modifies this
      ensures done == (M.AssetCount(old(Snapshot()), record.asset) < U32_MAX)
      ensures done ==> Snapshot() == old(Snapshot()).(
        pools := old(pools)[id := record],
        poolTvl := old(poolTvl)[id := 0],
        assetPools := old(assetPools)[record.asset := Lookup(old(assetPools), record.asset) + [id]],
        assetPoolCount := old(assetPoolCount)[record.asset := M.AssetCount(old(Snapshot()), record.asset) + 1],
        poolsByAdmin := old(poolsByAdmin)[admin := Lookup(old(poolsByAdmin), admin) + [id]],
        events := old(events).(created := old(events).created + [PoolCreated(id, admin, record, minStake)]))
    {
      pools := pools[id := record];
      poolTvl := poolTvl[id := 0];
      done := IndexByAsset(record.asset, id);
      if done {
        poolsByAdmin := poolsByAdmin[admin := Lookup(poolsByAdmin, admin) + [id]];
        events := events.(created := events.created + [PoolCreated(id, admin, record, minStake)]);
      }
    }

    /** `create_pool_inner`: may leave writes behind when it fails. */
    method CreatePoolInner(admin: Address, item: CreateItem) returns (r: Outcome<nat, Error>)
      modifies this
      ensures r == Reply(M.CreateInner(old(Snapshot()), admin, item))
      ensures r.Ok? ==> Snapshot() == M.CreateInner(old(Snapshot()), admin, item).value.1
    {
      var p := item.params;
      var invalid := M.FirstInvalid(instance.paused, admin, item);
      if invalid.Some? {
        return Err(invalid.value);
      }
      var id := instance.poolCount;
      if id == U32_MAX {
        return Err(PoolCountOverflow);
      }
      instance := instance.(poolCount := id + 1);
      if instance.wasmHash.None? {
        return Err(NotInitialized);
      }
      var salt := PoolSalt(id);
      if !item.deploys {
        return Trap;
      }
      var record := M.NewRecord(id, p, instance.wasmHash.value).(address := Deployed(salt));
      var counted := Register(id, admin, record, M.EffectiveMinStake(p.minStakeAmount));
      return if counted then Ok(id) else Err(PoolCountOverflow);
    }

    method CreatePool(signers: Signers, item: CreateItem) returns (r: Outcome<nat, Error>)
      modifies this
      ensures var o := M.CreatePool(old(Snapshot()), signers, item);
              r == Reply(o) && Snapshot() == After(o, old(Snapshot()))
    {
      var before := Snapshot();
      var admin :- M.RequireFactoryAdmin(before, signers);
      r := CreatePoolInner(admin, item);
      if r.IsFailure() {
        Restore(before);
      }
    }

    method CreateEach(admin: Address, items: seq<CreateItem>) returns (r: Outcome<seq<nat>, Error>)
      modifies this
      ensures r == Reply(M.CreateAll(old(Snapshot()), admin, items))
      ensures r.Ok? ==> Snapshot() == M.CreateAll(old(Snapshot()), admin, items).value.1
    {
      ghost var before := Snapshot();
      var ids: seq<nat> := [];
      for i := 0 to |items|
        invariant M.CreateAll(before, admin, items[..i]) == Ok((ids, Snapshot()))
      {
        CreateAllNext(before, Snapshot(), admin, items, ids, i);
        var made := CreatePoolInner(admin, items[i]);
        if made.IsFailure() {
          CreateAllStaysFailed(before, admin, items, i + 1);
          return made.PropagateFailure();
        }
        ids := ids + [made.value];
      }
      assert items[..|items|] == items;
      return Ok(ids);
    }

    method CreatePoolsBatch(signers: Signers, items: seq<CreateItem>) returns (r: Outcome<seq<nat>, Error>)
      modifies this
      ensures var o := M.CreatePoolsBatch(old(Snapshot()), signers, items);
              r == Reply(o) && Snapshot() == After(o, old(Snapshot()))
    {
      var before := Snapshot();
      var admin :- M.RequireFactoryAdmin(before, signers);
      if items == [] {
        return Err(EmptyBatch);
      }
      if |items| > M.MAX_BATCH_SIZE {
        return Err(BatchTooLarge);
      }
      r := CreateEach(admin, items);
      if r.IsFailure() {
        Restore(before);
      }
    }

    // -------------------------------------------------------------- upgrade

    method UpgradePoolInner(admin: Address, item: UpgradeItem, hash: Hash) returns (r: Outcome<(), Error>)
      modifies this
      ensures r == Reply(M.UpgradeInner(old(Snapshot()), admin, item, hash))
      ensures r.Ok? ==> Snapshot() == M.UpgradeInner(old(Snapshot()), admin, item, hash).value.1
    {
      if item.id !in pools {
        return Err(PoolNotFound);
      }
      var record := pools[item.id];
      if item.poolAdmin.None? {
        return Err(PoolUpgradeFailed);
      }
      if item.poolAdmin.value != admin {
        return Err(PoolAdminMismatch);
      }
      if hash == record.wasmHash {
        return Err(PoolUpgradeFailed);
      }
      if hash == ZERO_HASH {
        return Err(InvalidWasmHash);
      }
      if !item.upgrades {
        return Err(PoolUpgradeFailed);
      }
      var oldHash := record.wasmHash;
      record := record.(wasmHash := hash);
      pools := pools[item.id := record];
      if oldHash in poolsByWasmHash {
        var kept := RemoveId(poolsByWasmHash[oldHash], item.id);
        poolsByWasmHash := poolsByWasmHash[oldHash := kept];
      }
      poolsByWasmHash := poolsByWasmHash[hash := Lookup(poolsByWasmHash, hash) + [item.id]];
      instance := instance.(upgradeCount := SaturatingAddU32(instance.upgradeCount, 1));
      events := events.(upgraded := events.upgraded + [PoolUpgraded(item.id, oldHash, hash)]);
      return Ok(());
    }

    method UpgradePool(signers: Signers, item: UpgradeItem, hash: Hash) returns (r: Outcome<(), Error>)
      modifies this
      ensures var o := M.UpgradePool(old(Snapshot()), signers, item, hash);
              r == Reply(o) && Snapshot() == After(o, old(Snapshot()))
    {
      var before := Snapshot();
      var admin :- M.RequireFactoryAdmin(before, signers);
      r := UpgradePoolInner(admin, item, hash);
      if r.IsFailure() {
        Restore(before);
      }
    }

    method UpgradeEach(admin: Address, items: seq<UpgradeItem>, hash: Hash) returns (r: Outcome<(), Error>)
      modifies this
      ensures r == Reply(M.UpgradeAll(old(Snapshot()), admin, items, hash))
      ensures r.Ok? ==> Snapshot() == M.UpgradeAll(old(Snapshot()), admin, items, hash).value.1
    {
      ghost var before := Snapshot();
      for i := 0 to |items|
        invariant M.UpgradeAll(before, admin, items[..i], hash) == Ok(((), Snapshot()))
      {
        UpgradeAllNext(before, Snapshot(), admin, items, hash, i);
        var done := UpgradePoolInner(admin, items[i], hash);
        if done.IsFailure() {
          UpgradeAllStaysFailed(before, admin, items, hash, i + 1);
          return done;
        }
      }
      assert items[..|items|] == items;
      return Ok(());
    }

    method UpgradePoolsBatch(signers: Signers, items: seq<UpgradeItem>, hash: Hash) returns (r: Outcome<(), Error>)
      modifies this
      ensures var o := M.UpgradePoolsBatch(old(Snapshot()), signers, items, hash);
              r == Reply(o) && Snapshot() == After(o, old(Snapshot()))
    {
      var before := Snapshot();
      var admin :- M.RequireFactoryAdmin(before, signers);
      r := UpgradeEach(admin, items, hash);
      if r.IsFailure() {
        Restore(before);
      }
    }

    // -------------------------------------------------------------- TVL

    /** `apply_tvl_sync` on a pool at `pool`. */
    method ApplyTvlSync(id: nat, pool: Address, stakes: Stakes) returns (r: Outcome<i128, Error>)
      modifies this`instance, this`poolTvl, this`events
      ensures pool !in stakes ==> r == Err(PoolQueryFailed) && Snapshot() == old(Snapshot())
      ensures pool in stakes ==> r == Ok(stakes[pool]) && Snapshot() == M.Synced(old(Snapshot()), id, stakes[pool])
    {
      if pool !in stakes {
        return Err(PoolQueryFailed);
      }
      var live := stakes[pool];
      var previous := if id in poolTvl then poolTvl[id] else 0;
      if live != previous {
        var aggregate := SaturatingSub(SaturatingAdd(instance.totalTvl, live), previous);
        instance := instance.(totalTvl := aggregate);
        poolTvl := poolTvl[id := live];
        events := events.(synced := events.synced + [TvlSynced(id, previous, live)]);
      }
      return Ok(live);
    }

    method SyncPoolTvl(id: u32, stakes: Stakes) returns (r: Outcome<i128, Error>)
      modifies this`instance, this`poolTvl, this`events
      ensures var o := M.SyncPoolTvl(old(Snapshot()), id, stakes);
              r == Reply(o) && Snapshot() == After(o, old(Snapshot()))
    {
      if instance.admin.None? {
        return Err(NotInitialized);
      }
      if id !in pools {
        return Err(PoolNotFound);
      }
      r := ApplyTvlSync(id, pools[id].address, stakes);
    }

    method SyncAllPoolTvls(start: u32, limit: u32, stakes: Stakes) returns (r: Outcome<u32, Error>)
      modifies this`instance, this`poolTvl, this`events
      ensures var o := M.SyncAllPoolTvls(old(Snapshot()), start, limit, stakes);
              r == Reply(o) && Snapshot() == After(o, old(Snapshot()))
    {
      if instance.admin.None? {
        return Err(NotInitialized);
      }
      ghost var before := Snapshot();
      var window := Min(limit, M.MAX_POOL_SCAN_PER_CALL);
      var end := M.PageEnd(start, window, instance.poolCount);
      var id: nat := start;
      while id < end
        invariant start <= id && (id <= end || id == start)
        invariant Snapshot() == M.SyncRange(before, start, id, stakes)
      {
        if id in pools {
          var _ := ApplyTvlSync(id, pools[id].address, stakes);
        }
        id := id + 1;
      }
      return Ok(end);
    }

    // -------------------------------------------------------------- queries

    method PoolCountByAsset(asset: Address) returns (r: Outcome<nat, Error>)
      modifies this`assetPoolCount
      ensures var o := M.PoolCountByAsset(old(Snapshot()), asset);
              r == Reply(o) && Snapshot() == After(o, old(Snapshot()))
    {
      if instance.admin.None? {
        return Err(NotInitialized);
      }
      if asset in assetPoolCount {
        return Ok(assetPoolCount[asset]);
      }
      var count := |Lookup(assetPools, asset)|;
      if count > 0 {
        assetPoolCount := assetPoolCount[asset := count];
      }
      return Ok(count);
    }

    method ListPools(start: u32, limit: u32) returns (r: Outcome<(P.Page, seq<nat>), Error>)
      ensures r == P.ListPools(Snapshot(), start, limit)
    {
      if instance.admin.None? {
        return Err(NotInitialized);
      }
      var count := instance.poolCount;
      if start >= count {
        return Ok((P.Page([], count, count, false), []));
      }
      var end := M.PageEnd(start, P.CappedLimit(limit), count);
      var records, gaps := P.ListLoop(pools, start, end);
      return Ok((P.Page(records, if end < count then end else count, count, end < count), gaps));
    }

    method ListPoolsSorted(start: u32, limit: u32, sort: S.PoolSort) returns (r: Outcome<(P.Page, seq<nat>), Error>)
      ensures r == S.ListPoolsSorted(Snapshot(), start, limit, sort)
    {
      if instance.admin.None? {
        return Err(NotInitialized);
      }
      var count := instance.poolCount;
      if start >= count {
        return Ok((P.Page([], count, count, false), []));
      }
      var end := M.PageEnd(start, P.CappedLimit(limit), count);
      var records, gaps := S.SortedLoop(pools, start, end, sort);
      return Ok((P.Page(records, if end < count then end else count, count, end < count), gaps));
    }

    method GetPoolsByAssetRange(asset: Address, start: u32, scanLimit: u32, limit: u32)
      returns (r: Outcome<P.Page, Error>)
      ensures r == P.GetPoolsByAssetRange(Snapshot(), asset, start, scanLimit, limit)
    {
      if instance.admin.None? {
        return Err(NotInitialized);
      }
      var count := instance.poolCount;
      if start >= count {
        return Ok(P.Page([], count, count, false));
      }
      var scanEnd := M.PageEnd(start, P.ScanWindow(scanLimit), count);
      var records, next;
      if asset in assetPools {
        records, next := P.IndexLoop(pools, assetPools[asset], start, scanEnd, P.CappedLimit(limit));
      } else {
        records, next := P.ScanLoop(pools, asset, start, scanEnd, P.CappedLimit(limit));
      }
      return Ok(P.Page(records, next, count, next < count));
    }

    method RefreshPoolTtls(start: u32, limit: u32) returns (r: Outcome<P.Refresh, Error>)
      ensures r == P.RefreshPoolTtls(Snapshot(), start, limit)
    {
      if instance.admin.None? {
        return Err(NotInitialized);
      }
      var end := M.PageEnd(start, Min(limit, 20), instance.poolCount);
      var refreshed, missing := P.RefreshLoop(pools, start, end);
      return Ok(P.Refresh(refreshed, end, missing));
    }

    // -------------------------------------------------------------- runs

    /** Any single event of a run, performed on the contract, is the model's step and keeps the registry invariant. */
    method Execute(c: M.Call)
      requires Valid()
      modifies this
      ensures Snapshot() == M.Step(old(Snapshot()), c) && Valid()
    {
      FactoryRuns.StepKeepsInv(Snapshot(), c);
      match c {
        case CallInitialize(admin, hash) =>
          var _ := Initialize(admin, hash);
        case CallTransferAdmin(sg, newAdmin) =>
          var _ := TransferAdmin(sg, newAdmin);
        case CallSetPoolWasmHash(sg, hash) =>
          var _ := SetPoolWasmHash(sg, hash);
        case CallSetPaused(sg, paused) =>
          var _ := SetPaused(sg, paused);
        case CallCreatePool(sg, item) =>
          var _ := CreatePool(sg, item);
        case CallCreatePoolsBatch(sg, items) =>
          var _ := CreatePoolsBatch(sg, items);
        case CallUpgradePool(sg, item, hash) =>
          var _ := UpgradePool(sg, item, hash);
        case CallUpgradePoolsBatch(sg, items, hash) =>
          var _ := UpgradePoolsBatch(sg, items, hash);
        case CallSyncPoolTvl(id, stakes) =>
          var _ := SyncPoolTvl(id, stakes);
        case CallSyncAllPoolTvls(start, limit, stakes) =>
          var _ := SyncAllPoolTvls(start, limit, stakes);
        case CallPoolCountByAsset(asset) =>
          var _ := PoolCountByAsset(asset);
        case RecordExpires(id) =>
          pools := pools - {id};
      }
    }
  }
}
