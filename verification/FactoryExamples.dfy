/** Concrete runs of the factory in which what its documentation says of it fails. */
module FactoryExamples {
  import opened Host
  import opened FactoryTypes
  import opened FactoryModel
  import opened FactoryRuns
  import opened FactoryTheorems
  import opened FactoryTvl

  const ADMIN := External(1)
  const HASH: Hash := 7
  const ITEM := CreateItem(PoolParams(External(2), 17_280, 1, 1, 0), true, true)

  /** A factory that has just been initialised. */
  lemma JustInitialized() returns (s: Storage)
    ensures Reachable(s)
    ensures s == EMPTY_STORAGE.(instance := EMPTY_STORAGE.instance.(admin := Some(ADMIN), wasmHash := Some(HASH)))
  {
    ReachableStart();
    ReachableStep(EMPTY_STORAGE, CallInitialize(ADMIN, HASH));
    s := Step(EMPTY_STORAGE, CallInitialize(ADMIN, HASH));
  }

  /** One more pool in a factory that may still create pools. */
  lemma WithOnePoolMore(s: Storage) returns (t: Storage)
    requires Reachable(s) && s.instance.admin == Some(ADMIN) && !s.instance.paused && s.instance.poolCount < U32_MAX
    ensures Reachable(t) && t.instance == s.instance.(poolCount := s.instance.poolCount + 1)
    ensures s.instance.poolCount in t.pools && t.pools == s.pools[s.instance.poolCount := t.pools[s.instance.poolCount]]
    ensures Some(t.pools[s.instance.poolCount].wasmHash) == s.instance.wasmHash
    ensures t.poolTvl == s.poolTvl[s.instance.poolCount := 0] && t.poolsByWasmHash == s.poolsByWasmHash
  {
    var c := CallCreatePool({ADMIN}, ITEM);
    CreatePoolSucceedsIff(s, c.signers, ITEM);
    NewPoolMirrorsRequest(s, c.signers, ITEM);
    ReachableStep(s, c);
    t := Step(s, c);
  }

  /** A stored pool that the hash index does not list under the hash it runs, since it was never upgraded. */
  lemma UnlistedPool() returns (s: Storage)
    ensures Reachable(s) && 0 in s.pools && s.pools[0].wasmHash == HASH && 0 !in Lookup(s.poolsByWasmHash, HASH)
  {
    var start := JustInitialized();
    s := WithOnePoolMore(start);
  }

  /** Two pools, both empty. */
  lemma TwoEmptyPools() returns (s: Storage)
    ensures Reachable(s) && TwoPools(s, 0, 0, 0) && s.instance.admin.Some? && s.pools.Keys == {0, 1}
  {
    var start := JustInitialized();
    var one := WithOnePoolMore(start);
    s := WithOnePoolMore(one);
    assert s.poolTvl == map[0 := 0, 1 := 0];
  }

  /** `sync_pool_tvl` on a stored pool that reports `live`. */
  lemma SyncStep(s: Storage, id: u32, live: i128) returns (t: Storage)
    requires Reachable(s) && s.instance.admin.Some? && id in s.pools
    ensures Reachable(t) && t == Synced(s, id, live) && t.pools == s.pools && t.instance.admin == s.instance.admin
  {
    var c := CallSyncPoolTvl(id, map[s.pools[id].address := live]);
    ReachableStep(s, c);
    t := Step(s, c);
  }

  /**
   The documented aggregate drifts: two pools report i128::MAX and then 0 to `sync_pool_tvl`. Every
   snapshot is 0 again, and the total is -i128::MAX.
   */
  lemma TotalDrifts() returns (s: Storage)
    ensures Reachable(s) && !AccumulatorExact(s)
    ensures SumTvl(s.poolTvl, s.instance.poolCount) == 0 && s.instance.totalTvl == I128_MIN + 1
  {
    var empty := TwoEmptyPools();
    SaturationDrifts(empty);
    s := SyncStep(empty, 0, I128_MAX);
    s := SyncStep(s, 1, I128_MAX);
    s := SyncStep(s, 0, 0);
    s := SyncStep(s, 1, 0);
    TwoPoolsSum(s, 0, 0, I128_MIN + 1);
  }
}
