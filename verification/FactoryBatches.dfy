/** Upgrades, and the two batch entry points: each is the single calls in turn, or nothing at all. */
module FactoryBatches {
  import opened Host
  import opened FactoryTypes
  import opened FactoryModel
  import opened FactoryIndex
  import opened FactoryRuns
  import opened FactoryTheorems

  // ---------------------------------------------------------------- authorisation

  /** The call carries the signature of a usable admin. */
  predicate Signed(s: Storage, signers: Signers) {
    s.instance.admin.Some? && s.instance.admin.value != Zero && s.instance.admin.value in signers
  }

  /** What any call gets that lacks it. */
  function Unsigned<T>(s: Storage): Outcome<T, Error> {
    match s.instance.admin
    case None => Err(NotInitialized)
    case Some(Zero) => Err(InvalidAdmin)
    case Some(_) => Trap
  }

  // ---------------------------------------------------------------- batch creation

  /** One `create_pool` transaction per item, in order. */
  function CreatesInTurn(s: Storage, signers: Signers, items: seq<CreateItem>): Storage
    decreases |items|
  {
    if items == [] then s
    else
      var t := CreatesInTurn(s, signers, items[..|items| - 1]);
      After(CreatePool(t, signers, items[|items| - 1]), t)
  }

  /** Called one after the other, `create_pool` accepts every item. */
  predicate AllCreate(s: Storage, signers: Signers, items: seq<CreateItem>)
    decreases |items|
  {
    items == [] ||
    (var before, last := items[..|items| - 1], items[|items| - 1];
     AllCreate(s, signers, before) && CreatePool(CreatesInTurn(s, signers, before), signers, last).Ok?)
  }

  predicate Consecutive(ids: seq<nat>, first: nat) {
    forall i :: 0 <= i < |ids| ==> ids[i] == first + i
  }

  /** Called one after the other, `create_pool` first fails on item `k`, and does so as `o` does. */
  predicate FailsFirstAt(s: Storage, signers: Signers, items: seq<CreateItem>, k: nat,
                         o: Outcome<(seq<nat>, Storage), Error>)
    requires k < |items|
  {
    && AllCreate(s, signers, items[..k])
    && match CreatePool(CreatesInTurn(s, signers, items[..k]), signers, items[k])
       case Ok(_) => false
       case Err(e) => o == Err(e)
       case Trap => o == Trap
  }

  /** A creation touches no instance key but the count, so the same admin and flags govern the next one. */
  lemma CreateCountsOne(s: Storage, signers: Signers, item: CreateItem)
    requires RequireFactoryAdmin(s, signers).Ok?
    ensures CreatePool(s, signers, item) == CreateInner(s, s.instance.admin.value, item)
    ensures
      var o := CreatePool(s, signers, item);
      o.Ok? ==> && o.value.0 == s.instance.poolCount
                && o.value.1.instance.poolCount == s.instance.poolCount + 1
                && o.value.1.instance == s.instance.(poolCount := o.value.1.instance.poolCount)
  {
  }

  /** The loop of `create_pools_batch` is that many `create_pool` transactions, when none fails. */
  lemma {:induction false} CreateAllState(s: Storage, signers: Signers, items: seq<CreateItem>)
    requires RequireFactoryAdmin(s, signers).Ok?
    requires CreateAll(s, s.instance.admin.value, items).Ok?
    ensures
      var t := CreateAll(s, s.instance.admin.value, items).value.1;
      && t == CreatesInTurn(s, signers, items)
      && t.instance.poolCount == s.instance.poolCount + |items|
      && t.instance == s.instance.(poolCount := t.instance.poolCount)
    decreases |items|
  {
    if items != [] {
      var before, last := items[..|items| - 1], items[|items| - 1];
      CreateAllState(s, signers, before);
      CreateCountsOne(CreatesInTurn(s, signers, before), signers, last);
    }
  }

  lemma {:induction false} CreateAllIds(s: Storage, signers: Signers, items: seq<CreateItem>)
    requires RequireFactoryAdmin(s, signers).Ok?
    requires CreateAll(s, s.instance.admin.value, items).Ok?
    ensures
      var ids := CreateAll(s, s.instance.admin.value, items).value.0;
      |ids| == |items| && Consecutive(ids, s.instance.poolCount)
    decreases |items|
  {
    if items != [] {
      var before, last := items[..|items| - 1], items[|items| - 1];
      CreateAllIds(s, signers, before);
      CreateAllState(s, signers, before);
      CreateCountsOne(CreatesInTurn(s, signers, before), signers, last);
    }
  }

  lemma {:induction false} CreateAllSucceedsIff(s: Storage, signers: Signers, items: seq<CreateItem>)
    requires RequireFactoryAdmin(s, signers).Ok?
    ensures CreateAll(s, s.instance.admin.value, items).Ok? <==> AllCreate(s, signers, items)
    decreases |items|
  {
    if items != [] {
      var before, last := items[..|items| - 1], items[|items| - 1];
      CreateAllSucceedsIff(s, signers, before);
      if AllCreate(s, signers, before) {
        CreateAllState(s, signers, before);
        CreateCountsOne(CreatesInTurn(s, signers, before), signers, last);
      }
    }
  }

  /** Otherwise it stops at the first `create_pool` that would fail, with that failure. */
  lemma {:induction false} CreateAllFails(s: Storage, signers: Signers, items: seq<CreateItem>) returns (k: nat)
    requires RequireFactoryAdmin(s, signers).Ok?
    requires CreateAll(s, s.instance.admin.value, items).IsFailure()
    ensures k < |items| && FailsFirstAt(s, signers, items, k, CreateAll(s, s.instance.admin.value, items))
    decreases |items|
  {
    k := |items| - 1;
    var before, last := items[..k], items[k];
    if CreateAll(s, s.instance.admin.value, before).Ok? {
      CreateAllSucceedsIff(s, signers, before);
      CreateAllState(s, signers, before);
      CreateCountsOne(CreatesInTurn(s, signers, before), signers, last);
    } else {
      k := CreateAllFails(s, signers, before);
      assert before[..k] == items[..k] && before[k] == items[k];
    }
  }

  /**
   A batch of 1 to 10 items succeeds exactly when the admin signed and `create_pool` accepts the items
   one after the other. It returns consecutive ids from the old count and leaves the storage of
   those calls; a failing one reports the first failing item's own outcome.
   */
  lemma BatchCreateIsSequential(s: Storage, signers: Signers, items: seq<CreateItem>)
    ensures
      var o := CreatePoolsBatch(s, signers, items);
      && (o.Ok? <==> Signed(s, signers) && 1 <= |items| <= 10 && AllCreate(s, signers, items))
      && (!Signed(s, signers) ==> o == Unsigned(s))
      && (Signed(s, signers) && items == [] ==> o == Err(EmptyBatch))
      && (Signed(s, signers) && |items| > 10 ==> o == Err(BatchTooLarge))
      && (o.Ok? ==> && |o.value.0| == |items| && Consecutive(o.value.0, s.instance.poolCount)
                    && o.value.1 == CreatesInTurn(s, signers, items))
      && (o.IsFailure() && Signed(s, signers) && 1 <= |items| <= 10 ==>
            exists k :: 0 <= k < |items| && FailsFirstAt(s, signers, items, k, o))
  {
    if Signed(s, signers) {
      CreateAllSucceedsIff(s, signers, items);
      if CreateAll(s, s.instance.admin.value, items).Ok? {
        CreateAllState(s, signers, items);
        CreateAllIds(s, signers, items);
      } else {
        var k := CreateAllFails(s, signers, items);
      }
    }
  }

  // ---------------------------------------------------------------- upgrade

  /** Exactly pool `id` moved to `newHash`, in the table, the hash index, the count and the events. */
  ghost predicate UpgradedOne(s: Storage, t: Storage, id: nat, newHash: Hash) {
    && id in s.pools && t.pools == s.pools[id := s.pools[id].(wasmHash := newHash)]
    && t.events == s.events.(upgraded := s.events.upgraded + [PoolUpgraded(id, s.pools[id].wasmHash, newHash)])
    && t.instance.upgradeCount == Min(s.instance.upgradeCount + 1, U32_MAX)
    && (forall hash :: id in Lookup(t.poolsByWasmHash, hash) <==> hash == newHash)
    && t == s.(pools := t.pools, poolsByWasmHash := t.poolsByWasmHash, events := t.events,
               instance := s.instance.(upgradeCount := t.instance.upgradeCount))
  }

  lemma UpgradeRelists(s: Storage, signers: Signers, item: UpgradeItem, newHash: Hash)
    requires Reachable(s) && UpgradePool(s, signers, item, newHash).Ok?
    ensures UpgradedOne(s, UpgradePool(s, signers, item, newHash).value.1, item.id, newHash)
  {
    var t := UpgradePool(s, signers, item, newHash).value.1;
    ReachableStep(s, CallUpgradePool(signers, item, newHash));
    forall hash
      ensures item.id in Lookup(t.poolsByWasmHash, hash) <==> hash == newHash
    {
      HashIndexExact(t, hash);
    }
  }

  lemma UsableAdmin(s: Storage)
    requires Reachable(s) && s.instance.admin.Some?
    ensures s.instance.admin.value != Zero
  {
    ReachableInv(s);
  }

  lemma StoredHashUsable(s: Storage, id: nat)
    requires Reachable(s) && id in s.pools
    ensures s.pools[id].wasmHash != ZERO_HASH
  {
    ReachableInv(s);
  }

  /**
   In every reachable state `upgrade_pool` succeeds exactly with the admin's signature, on a stored
   pool under the same admin that accepts a new, nonzero hash; each refusal names its obstacle. A
   success moves that record to the new hash, counts and publishes it, relists the pool under the
   new hash alone, and changes nothing else.
   */
  lemma UpgradePoolSucceedsIff(s: Storage, signers: Signers, item: UpgradeItem, newHash: Hash)
    requires Reachable(s)
    ensures
      var o := UpgradePool(s, signers, item, newHash);
      var signed := s.instance.admin.Some? && s.instance.admin.value in signers;
      var found := signed && item.id in s.pools;
      var own := found && item.poolAdmin == s.instance.admin;
      && (o.Ok? <==> own && newHash != s.pools[item.id].wasmHash && newHash != ZERO_HASH && item.upgrades)
      && (o.Trap? <==> s.instance.admin.Some? && !signed)
      && (o == Err(NotInitialized) <==> s.instance.admin.None?)
      && (o == Err(PoolNotFound) <==> signed && !found)
      && (o == Err(PoolAdminMismatch) <==> found && item.poolAdmin.Some? && !own)
      && (o == Err(InvalidWasmHash) <==> own && newHash == ZERO_HASH)
      && (o == Err(PoolUpgradeFailed) <==>
            || (found && item.poolAdmin.None?)
            || (own && (newHash == s.pools[item.id].wasmHash || (newHash != ZERO_HASH && !item.upgrades))))
      && (o.Ok? ==> UpgradedOne(s, o.value.1, item.id, newHash))
  {
    if s.instance.admin.Some? {
      UsableAdmin(s);
    }
    if item.id in s.pools {
      StoredHashUsable(s, item.id);
    }
    if UpgradePool(s, signers, item, newHash).Ok? {
      UpgradeRelists(s, signers, item, newHash);
    }
  }

  // ---------------------------------------------------------------- batch upgrade

  /** What an upgrade asks of the pool, judged before the batch starts. */
  predicate Upgradable(s: Storage, admin: Address, item: UpgradeItem, newHash: Hash) {
    && item.id in s.pools && s.pools[item.id].wasmHash != newHash && newHash != ZERO_HASH
    && item.poolAdmin == Some(admin) && item.upgrades
  }

  function Ids(items: seq<UpgradeItem>): seq<nat> {
    seq(|items|, i requires 0 <= i < |items| => items[i].id)
  }

  /** One `upgrade_pool` transaction per item, in order. */
  function UpgradesInTurn(s: Storage, signers: Signers, items: seq<UpgradeItem>, newHash: Hash): Storage
    decreases |items|
  {
    if items == [] then s
    else
      var t := UpgradesInTurn(s, signers, items[..|items| - 1], newHash);
      After(UpgradePool(t, signers, items[|items| - 1], newHash), t)
  }

  /** The table after the pools in `ids` move to `newHash`. */
  ghost predicate OnlyHashesMoved(before: Storage, after: Storage, ids: seq<nat>, newHash: Hash) {
    && after.pools.Keys == before.pools.Keys
    && (forall id :: id in before.pools ==>
          after.pools[id] == if id in ids then before.pools[id].(wasmHash := newHash) else before.pools[id])
    && after == before.(pools := after.pools, poolsByWasmHash := after.poolsByWasmHash,
                        instance := before.instance.(upgradeCount := after.instance.upgradeCount),
                        events := before.events.(upgraded := after.events.upgraded))
    && after.instance.upgradeCount == Min(before.instance.upgradeCount + |ids|, U32_MAX)
  }

  predicate AllUpgradable(s: Storage, admin: Address, items: seq<UpgradeItem>, newHash: Hash) {
    forall i :: 0 <= i < |items| ==> Upgradable(s, admin, items[i], newHash)
  }

  lemma IdsAppend(items: seq<UpgradeItem>)
    requires items != []
    ensures
      var before, last := items[..|items| - 1], items[|items| - 1];
      && Ids(items) == Ids(before) + [last.id]
      && (Distinct(Ids(items)) <==> Distinct(Ids(before)) && last.id !in Ids(before))
  {
    var before, last := items[..|items| - 1], items[|items| - 1];
    assert Ids(items) == Ids(before) + [last.id];
    if Distinct(Ids(items)) {
      assert forall i, j :: 0 <= i < j < |before| ==>
        Ids(before)[i] == Ids(items)[i] && Ids(before)[j] == Ids(items)[j];
      assert forall i :: 0 <= i < |before| ==> Ids(before)[i] == Ids(items)[i] && Ids(items)[i] != Ids(items)[|before|];
    }
  }

  lemma AllUpgradableAppend(s: Storage, admin: Address, items: seq<UpgradeItem>, newHash: Hash)
    requires items != []
    ensures AllUpgradable(s, admin, items, newHash)
       <==> && AllUpgradable(s, admin, items[..|items| - 1], newHash)
            && Upgradable(s, admin, items[|items| - 1], newHash)
  {
    assert items == items[..|items| - 1] + [items[|items| - 1]];
  }

  lemma {:induction false} UpgradeAllEffect(s: Storage, admin: Address, items: seq<UpgradeItem>, newHash: Hash)
    ensures
      var o := UpgradeAll(s, admin, items, newHash);
      && (o.Ok? <==> Distinct(Ids(items)) && AllUpgradable(s, admin, items, newHash))
      && (o.Ok? ==> OnlyHashesMoved(s, o.value.1, Ids(items), newHash))
    decreases |items|
  {
    if items != [] {
      var before, last := items[..|items| - 1], items[|items| - 1];
      UpgradeAllEffect(s, admin, before, newHash);
      IdsAppend(items);
      AllUpgradableAppend(s, admin, items, newHash);
      var earlier := UpgradeAll(s, admin, before, newHash);
      if earlier.Ok? {
        UpgradeAfterEarlier(s, earlier.value.1, admin, Ids(before), last, newHash);
      }
    }
  }

  lemma {:induction false} UpgradeAllInTurn(s: Storage, signers: Signers, items: seq<UpgradeItem>, newHash: Hash)
    requires RequireFactoryAdmin(s, signers).Ok?
    requires UpgradeAll(s, s.instance.admin.value, items, newHash).Ok?
    ensures UpgradeAll(s, s.instance.admin.value, items, newHash).value.1 == UpgradesInTurn(s, signers, items, newHash)
    decreases |items|
  {
    if items != [] {
      var before := items[..|items| - 1];
      UpgradeAllInTurn(s, signers, before, newHash);
      UpgradeAllEffect(s, s.instance.admin.value, before, newHash);
    }
  }

  /** The last upgrade of a batch succeeds exactly when its pool is upgradable and was not in the batch before. */
  lemma UpgradeAfterEarlier(s: Storage, t: Storage, admin: Address, ids: seq<nat>, item: UpgradeItem, newHash: Hash)
    requires OnlyHashesMoved(s, t, ids, newHash)
    ensures
      var o := UpgradeInner(t, admin, item, newHash);
      && (o.Ok? <==> item.id !in ids && Upgradable(s, admin, item, newHash))
      && (o.Ok? ==> OnlyHashesMoved(s, o.value.1, ids + [item.id], newHash))
  {
  }

  /** Called one after the other, `upgrade_pool` first fails on item `k`, and does so as `o` does. */
  predicate UpgradeFailsFirstAt(s: Storage, signers: Signers, items: seq<UpgradeItem>, newHash: Hash, k: nat,
                                o: Outcome<((), Storage), Error>)
    requires k < |items| && s.instance.admin.Some?
  {
    && Distinct(Ids(items[..k])) && AllUpgradable(s, s.instance.admin.value, items[..k], newHash)
    && o.IsFailure() && o == UpgradePool(UpgradesInTurn(s, signers, items[..k], newHash), signers, items[k], newHash)
  }

  lemma {:induction false} UpgradeAllFails(s: Storage, signers: Signers, items: seq<UpgradeItem>, newHash: Hash)
    returns (k: nat)
    requires Signed(s, signers)
    requires UpgradeAll(s, s.instance.admin.value, items, newHash).IsFailure()
    ensures k < |items|
    ensures UpgradeFailsFirstAt(s, signers, items, newHash, k, UpgradeAll(s, s.instance.admin.value, items, newHash))
    decreases |items|
  {
    k := |items| - 1;
    var before := items[..k];
    if UpgradeAll(s, s.instance.admin.value, before, newHash).Ok? {
      UpgradeAllEffect(s, s.instance.admin.value, before, newHash);
      UpgradeAllInTurn(s, signers, before, newHash);
    } else {
      k := UpgradeAllFails(s, signers, before, newHash);
      assert before[..k] == items[..k] && before[k] == items[k];
    }
  }

  /**
   A batch upgrade succeeds exactly when the admin signed, its ids are pairwise distinct and every
   pool is upgradable at the start. It then changes those records, and only in their hash, counts
   the batch length, and leaves the storage of one-by-one upgrades; a failing one reports the first
   failing item's own outcome.
   */
  lemma BatchUpgradeIsSequential(s: Storage, signers: Signers, items: seq<UpgradeItem>, newHash: Hash)
    ensures
      var o := UpgradePoolsBatch(s, signers, items, newHash);
      && (o.Ok? <==> && Signed(s, signers) && Distinct(Ids(items))
                     && AllUpgradable(s, s.instance.admin.value, items, newHash))
      && (!Signed(s, signers) ==> o == Unsigned(s))
      && (o.Ok? ==> && OnlyHashesMoved(s, o.value.1, Ids(items), newHash)
                    && o.value.1 == UpgradesInTurn(s, signers, items, newHash))
      && (o.IsFailure() && Signed(s, signers) ==>
            exists k :: 0 <= k < |items| && UpgradeFailsFirstAt(s, signers, items, newHash, k, o))
  {
    if Signed(s, signers) {
      UpgradeAllEffect(s, s.instance.admin.value, items, newHash);
      if UpgradePoolsBatch(s, signers, items, newHash).Ok? {
        UpgradeAllInTurn(s, signers, items, newHash);
      } else {
        var k := UpgradeAllFails(s, signers, items, newHash);
      }
    }
  }
}
