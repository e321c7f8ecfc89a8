/** Every run of the factory keeps its indexes in step with its event log. */
module FactoryRuns {
  import opened Host
  import opened FactoryTypes
  import opened FactorySalt
  import opened FactoryModel
  import opened FactoryIndex

  // ---------------------------------------------------------------- creation

  lemma {:induction false} NeverUpgraded(upgraded: seq<PoolUpgraded>, id: nat)
    requires forall u :: u in upgraded ==> u.id != id
    ensures LastUpgrade(upgraded, id) == None
  {
    if upgraded != [] {
      assert upgraded[|upgraded| - 1] in upgraded;
      NeverUpgraded(upgraded[..|upgraded| - 1], id);
    }
  }

  lemma RegisteredKeepsTable(s: Storage, admin: Address, record: PoolRecord, minStake: int)
    requires TableInv(s) && s.instance.poolCount < U32_MAX
    requires record.address == Deployed(Salt(s.instance.poolCount)) && record.wasmHash != ZERO_HASH
    ensures TableInv(Registered(s, admin, record, minStake))
  {
  }

  lemma RegisteredKeepsIndexes(s: Storage, admin: Address, record: PoolRecord, minStake: int)
    requires TableInv(s) && CreationIndexInv(s) && s.instance.poolCount < U32_MAX
    ensures CreationIndexInv(Registered(s, admin, record, minStake))
  {
    var created := s.events.created;
    var created' := created + [PoolCreated(s.instance.poolCount, admin, record, minStake)];
    assert Assets(created') == Assets(created) + [record.asset];
    assert Admins(created') == Admins(created) + [admin];
    IndexesAppend(s.assetPools, Assets(created), record.asset);
    IndexesAppend(s.poolsByAdmin, Admins(created), admin);
    CountsAppend(s.assetPoolCount, s.assetPools, Assets(created), record.asset);
  }

  lemma RegisteredKeepsHashIndex(s: Storage, admin: Address, record: PoolRecord, minStake: int)
    requires TableInv(s) && HashIndexInv(s) && s.instance.poolCount < U32_MAX
    ensures HashIndexInv(Registered(s, admin, record, minStake))
  {
    NeverUpgraded(s.events.upgraded, s.instance.poolCount);
    var t := Registered(s, admin, record, minStake);
    forall id | id in t.pools && id != s.instance.poolCount
      ensures id in s.pools && t.events.created[id] == s.events.created[id]
    {
    }
  }

  lemma CreateKeepsInv(s: Storage, admin: Address, item: CreateItem)
    requires Inv(s) && s.instance.admin.Some?
    ensures var o := CreateInner(s, admin, item);
            o.Ok? ==> Inv(o.value.1) && o.value.1.instance.admin == s.instance.admin
  {
    var o := CreateInner(s, admin, item);
    if o.Ok? {
      var record := NewRecord(s.instance.poolCount, item.params, s.instance.wasmHash.value);
      var minStake := EffectiveMinStake(item.params.minStakeAmount);
      RegisteredKeepsTable(s, admin, record, minStake);
      RegisteredKeepsIndexes(s, admin, record, minStake);
      RegisteredKeepsHashIndex(s, admin, record, minStake);
    }
  }

  lemma {:induction false} CreateAllKeepsInv(s: Storage, admin: Address, items: seq<CreateItem>)
    requires Inv(s) && s.instance.admin.Some?
    ensures var o := CreateAll(s, admin, items);
            o.Ok? ==> Inv(o.value.1) && o.value.1.instance.admin == s.instance.admin
    decreases |items|
  {
    if items != [] {
      var earlier := CreateAll(s, admin, items[..|items| - 1]);
      CreateAllKeepsInv(s, admin, items[..|items| - 1]);
      if earlier.Ok? {
        CreateKeepsInv(earlier.value.1, admin, items[|items| - 1]);
      }
    }
  }

  // ---------------------------------------------------------------- upgrade

  lemma UpgradedKeepsHashIndex(s: Storage, id: nat, newHash: Hash)
    requires TableInv(s) && HashIndexInv(s) && id in s.pools && newHash != s.pools[id].wasmHash
    ensures HashIndexInv(Upgraded(s, id, newHash))
  {
    var u := PoolUpgraded(id, s.pools[id].wasmHash, newHash);
    ReindexedFollowsLog(s.poolsByWasmHash, s.events.upgraded, u);
    LogAppend(s.events.upgraded, u);
  }

  lemma UpgradeKeepsInv(s: Storage, admin: Address, item: UpgradeItem, newHash: Hash)
    requires Inv(s) && s.instance.admin.Some?
    ensures var o := UpgradeInner(s, admin, item, newHash);
            o.Ok? ==> Inv(o.value.1) && o.value.1.instance.admin == s.instance.admin
  {
    var o := UpgradeInner(s, admin, item, newHash);
    if o.Ok? {
      UpgradedKeepsHashIndex(s, item.id, newHash);
      assert TableInv(o.value.1);
    }
  }

  lemma {:induction false} UpgradeAllKeepsInv(s: Storage, admin: Address, items: seq<UpgradeItem>, newHash: Hash)
    requires Inv(s) && s.instance.admin.Some?
    ensures var o := UpgradeAll(s, admin, items, newHash);
            o.Ok? ==> Inv(o.value.1) && o.value.1.instance.admin == s.instance.admin
    decreases |items|
  {
    if items != [] {
      var earlier := UpgradeAll(s, admin, items[..|items| - 1], newHash);
      UpgradeAllKeepsInv(s, admin, items[..|items| - 1], newHash);
      if earlier.Ok? {
        UpgradeKeepsInv(earlier.value.1, admin, items[|items| - 1], newHash);
      }
    }
  }

  // ---------------------------------------------------------------- everything else

  /** A sync changes only the TVL entries and the sync log. */
  predicate SameRegistry(s: Storage, t: Storage) {
    t == s.(instance := s.instance.(totalTvl := t.instance.totalTvl), poolTvl := t.poolTvl,
            events := s.events.(synced := t.events.synced))
  }

  lemma {:induction false} SyncRangeKeepsRegistry(s: Storage, lo: nat, hi: nat, stakes: Stakes)
    ensures SameRegistry(s, SyncRange(s, lo, hi, stakes))
    decreases hi - lo
  {
    if lo < hi {
      SyncRangeKeepsRegistry(s, lo, hi - 1, stakes);
    }
  }

  lemma SameRegistryKeepsInv(s: Storage, t: Storage)
    requires Inv(s) && s.instance.admin.Some? && SameRegistry(s, t)
    ensures Inv(t)
  {
  }

  lemma ExpiryKeepsInv(s: Storage, id: u32)
    requires Inv(s)
    ensures Inv(s.(pools := s.pools - {id}))
  {
  }

  /** The other instance keys may change freely, as long as admin and hash stay usable. */
  lemma InstanceChangeKeepsInv(s: Storage, instance: Instance)
    requires Inv(s) && InstanceInv(s.(instance := instance)) && instance.admin.Some?
    requires instance.poolCount == s.instance.poolCount && instance.upgradeCount == s.instance.upgradeCount
    ensures Inv(s.(instance := instance))
  {
  }

  lemma SeedKeepsInv(s: Storage, asset: Address)
    requires Inv(s) && s.instance.admin.Some?
    ensures Inv(s.(assetPoolCount := s.assetPoolCount[asset := |Lookup(s.assetPools, asset)|]))
  {
    assert Lookup(s.assetPools, asset) == Positions(Assets(s.events.created), asset);
  }

  lemma AdministrationKeepsInv(s: Storage, c: Call)
    requires Inv(s)
    requires c.CallInitialize? || c.CallTransferAdmin? || c.CallSetPoolWasmHash? || c.CallSetPaused?
             || c.CallPoolCountByAsset?
    ensures Inv(Step(s, c))
  {
    var t := Step(s, c);
    if c.CallPoolCountByAsset? {
      if t != s {
        SeedKeepsInv(s, c.asset);
      }
    } else {
      assert t == s.(instance := t.instance);
      if t != s {
        InstanceChangeKeepsInv(s, t.instance);
      }
    }
  }

  lemma AdminCallKeepsInv(s: Storage, c: Call)
    requires Inv(s)
    requires c.CallCreatePool? || c.CallCreatePoolsBatch? || c.CallUpgradePool? || c.CallUpgradePoolsBatch?
    ensures Inv(Step(s, c))
  {
    if RequireFactoryAdmin(s, c.signers).Ok? {
      var admin := s.instance.admin.value;
      match c
      case CallCreatePool(_, item) => CreateKeepsInv(s, admin, item);
      case CallCreatePoolsBatch(_, items) => CreateAllKeepsInv(s, admin, items);
      case CallUpgradePool(_, item, hash) => UpgradeKeepsInv(s, admin, item, hash);
      case CallUpgradePoolsBatch(_, items, hash) => UpgradeAllKeepsInv(s, admin, items, hash);
    }
  }

  lemma SyncCallKeepsInv(s: Storage, c: Call)
    requires Inv(s) && (c.CallSyncPoolTvl? || c.CallSyncAllPoolTvls?)
    ensures Inv(Step(s, c))
  {
    if s.instance.admin.Some? {
      if c.CallSyncAllPoolTvls? {
        SyncRangeKeepsRegistry(s, c.start, SyncAllPoolTvls(s, c.start, c.limit, c.stakes).value.0, c.stakes);
      }
      SameRegistryKeepsInv(s, Step(s, c));
    }
  }

  lemma StepKeepsInv(s: Storage, c: Call)
    requires Inv(s)
    ensures Inv(Step(s, c))
  {
    match c
    case CallCreatePool(_, _) => AdminCallKeepsInv(s, c);
    case CallCreatePoolsBatch(_, _) => AdminCallKeepsInv(s, c);
    case CallUpgradePool(_, _, _) => AdminCallKeepsInv(s, c);
    case CallUpgradePoolsBatch(_, _, _) => AdminCallKeepsInv(s, c);
    case CallSyncPoolTvl(_, _) => SyncCallKeepsInv(s, c);
    case CallSyncAllPoolTvls(_, _, _) => SyncCallKeepsInv(s, c);
    case RecordExpires(id) => ExpiryKeepsInv(s, id);
    case _ => AdministrationKeepsInv(s, c);
  }

  lemma {:induction false} ExecutionsKeepInv(states: seq<Storage>, calls: seq<Call>, i: nat)
    requires Execution(states, calls) && i < |states|
    ensures Inv(states[i])
  {
    if i > 0 {
      ExecutionsKeepInv(states, calls, i - 1);
      StepKeepsInv(states[i - 1], calls[i - 1]);
    } else {
      assert Assets([]) == [] && Admins([]) == [];
    }
  }

  /** `s` is reached by some run of the contract. */
  ghost predicate Reachable(s: Storage) {
    exists states: seq<Storage>, calls: seq<Call> :: Execution(states, calls) && states[|calls|] == s
  }

  lemma ReachableStart()
    ensures Reachable(EMPTY_STORAGE)
  {
    var states, calls: seq<Call> := [EMPTY_STORAGE], [];
    assert Execution(states, calls) && states[|calls|] == EMPTY_STORAGE;
  }

  lemma ReachableStep(s: Storage, c: Call)
    requires Reachable(s)
    ensures Reachable(Step(s, c))
  {
    var states: seq<Storage>, calls: seq<Call> :| Execution(states, calls) && states[|calls|] == s;
    var states', calls' := states + [Step(s, c)], calls + [c];
    assert Execution(states', calls') && states'[|calls'|] == Step(s, c);
  }

  lemma ReachableInv(s: Storage)
    requires Reachable(s)
    ensures Inv(s)
  {
    var states: seq<Storage>, calls: seq<Call> :| Execution(states, calls) && states[|calls|] == s;
    ExecutionsKeepInv(states, calls, |calls|);
  }
}
