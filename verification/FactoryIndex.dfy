/**
 The registry's indexes against its event log. Every run keeps each index equal to what an
 indexer following the published events would compute.
 */
module FactoryIndex {
  import opened Host
  import opened FactoryTypes
  import opened FactorySalt
  import opened FactoryModel

  // ---------------------------------------------------------------- positions of a key

  /** The positions at which `key` occurs, in ascending order. */
  function Positions(keys: seq<Address>, key: Address): seq<nat> {
    if keys == [] then []
    else
      var n := |keys| - 1;
      Positions(keys[..n], key) + (if keys[n] == key then [n] else [])
  }

  predicate Ascending(ids: seq<nat>) {
    forall i, j :: 0 <= i < j < |ids| ==> ids[i] < ids[j]
  }

  lemma {:induction false} PositionsExact(keys: seq<Address>, key: Address)
    ensures Ascending(Positions(keys, key))
    ensures forall id :: id in Positions(keys, key) <==> 0 <= id < |keys| && keys[id] == key
  {
    if keys != [] {
      var n := |keys| - 1;
      var earlier := Positions(keys[..n], key);
      PositionsExact(keys[..n], key);
      assert forall i :: 0 <= i < |earlier| ==> earlier[i] in earlier;
    }
  }

  lemma PositionsAppend(keys: seq<Address>, last: Address, key: Address)
    ensures Positions(keys + [last], key) == Positions(keys, key) + (if last == key then [|keys|] else [])
  {
    assert (keys + [last])[..|keys|] == keys;
  }

  lemma {:induction false} PositionsFit(keys: seq<Address>, key: Address)
    ensures |Positions(keys, key)| <= |keys|
  {
    if keys != [] {
      PositionsFit(keys[..|keys| - 1], key);
    }
  }

  /** `index` lists, under every key, exactly the positions of that key, and has no empty entry. */
  ghost predicate Indexes(index: map<Address, seq<nat>>, keys: seq<Address>) {
    && (forall key :: Lookup(index, key) == Positions(keys, key))
    && (forall key :: key in index ==> index[key] != [])
  }

  lemma IndexesAppend(index: map<Address, seq<nat>>, keys: seq<Address>, key: Address)
    requires Indexes(index, keys)
    ensures Indexes(index[key := Lookup(index, key) + [|keys|]], keys + [key])
  {
    forall k {
      PositionsAppend(keys, key, k);
    }
  }

  /** Every cached count is the number of positions of its key. */
  predicate Counts(counts: map<Address, nat>, keys: seq<Address>) {
    forall key :: key in counts ==> counts[key] == |Positions(keys, key)|
  }

  /** Counting one more, from the cached count or else from the list, keeps the counts right. */
  lemma CountsAppend(counts: map<Address, nat>, index: map<Address, seq<nat>>, keys: seq<Address>, key: Address)
    requires Indexes(index, keys) && Counts(counts, keys)
    ensures
      var seed := if key in counts then counts[key] else |Lookup(index, key)|;
      Counts(counts[key := seed + 1], keys + [key])
  {
    assert Lookup(index, key) == Positions(keys, key);
    forall k {
      PositionsAppend(keys, key, k);
    }
  }

  // ---------------------------------------------------------------- creations

  function Assets(created: seq<PoolCreated>): seq<Address> {
    seq(|created|, i requires 0 <= i < |created| => created[i].record.asset)
  }

  function Admins(created: seq<PoolCreated>): seq<Address> {
    seq(|created|, i requires 0 <= i < |created| => created[i].admin)
  }

  /** The record a pool was created with, up to later upgrades. */
  predicate SameButHash(r: PoolRecord, original: PoolRecord) {
    r == original.(wasmHash := r.wasmHash)
  }

  predicate TableInv(s: Storage) {
    var created := s.events.created;
    && |created| == s.instance.poolCount
    && (forall i :: 0 <= i < |created| ==> created[i].id == i && created[i].record.address == Deployed(Salt(i)))
    && (forall id :: id in s.pools ==> id < |created| && SameButHash(s.pools[id], created[id].record))
    && (forall id :: id in s.pools ==> s.pools[id].wasmHash != ZERO_HASH)
  }

  ghost predicate CreationIndexInv(s: Storage) {
    var assets := Assets(s.events.created);
    && Indexes(s.assetPools, assets)
    && Counts(s.assetPoolCount, assets)
    && Indexes(s.poolsByAdmin, Admins(s.events.created))
  }

  /** Before `initialize` the contract holds nothing; afterwards its admin and hash are usable. */
  predicate InstanceInv(s: Storage) {
    if s.instance.admin.None? then s == EMPTY_STORAGE
    else s.instance.admin.value != Zero && s.instance.wasmHash.Some? && s.instance.wasmHash.value != ZERO_HASH
  }

  // ---------------------------------------------------------------- upgrades

  /** The hash installed by the latest upgrade of a pool, if it was ever upgraded. */
  function LastUpgrade(upgraded: seq<PoolUpgraded>, id: nat): Option<Hash> {
    if upgraded == [] then None
    else
      var u := upgraded[|upgraded| - 1];
      if u.id == id then Some(u.newHash) else LastUpgrade(upgraded[..|upgraded| - 1], id)
  }

  /** The pools whose latest upgrade installed `hash`, in the order of those upgrades. */
  function Holders(upgraded: seq<PoolUpgraded>, hash: Hash): seq<nat> {
    if upgraded == [] then []
    else
      var u := upgraded[|upgraded| - 1];
      var others := Without(Holders(upgraded[..|upgraded| - 1], hash), u.id);
      if u.newHash == hash then others + [u.id] else others
  }

  ghost predicate HashIndexInv(s: Storage) {
    var upgraded := s.events.upgraded;
    && (forall hash :: Lookup(s.poolsByWasmHash, hash) == Holders(upgraded, hash))
    && (forall u :: u in upgraded ==> u.id < |s.events.created|)
    && (forall id :: id in s.pools ==> id < |s.events.created|)
    && (forall id :: id in s.pools ==>
          s.pools[id].wasmHash ==
            match LastUpgrade(upgraded, id)
            case Some(hash) => hash
            case None => s.events.created[id].record.wasmHash)
    && s.instance.upgradeCount == Min(|upgraded|, U32_MAX)
  }

  ghost predicate Inv(s: Storage) {
    InstanceInv(s) && TableInv(s) && CreationIndexInv(s) && HashIndexInv(s)
  }

  predicate Distinct(ids: seq<nat>) {
    forall i, j :: 0 <= i < j < |ids| ==> ids[i] != ids[j]
  }

  lemma {:induction false} WithoutMembers(ids: seq<nat>, id: nat)
    ensures forall x :: x in Without(ids, id) <==> x in ids && x != id
  {
    if ids != [] {
      var n := |ids| - 1;
      WithoutMembers(ids[..n], id);
      assert ids == ids[..n] + [ids[n]];
    }
  }

  lemma {:induction false} WithoutDistinct(ids: seq<nat>, id: nat)
    requires Distinct(ids)
    ensures Distinct(Without(ids, id))
  {
    if ids != [] {
      var n := |ids| - 1;
      var earlier := Without(ids[..n], id);
      WithoutDistinct(ids[..n], id);
      WithoutMembers(ids[..n], id);
      assert forall i :: 0 <= i < |earlier| ==> earlier[i] in earlier;
    }
  }

  lemma {:induction false} WithoutAbsent(ids: seq<nat>, id: nat)
    requires id !in ids
    ensures Without(ids, id) == ids
  {
    if ids != [] {
      var n := |ids| - 1;
      WithoutAbsent(ids[..n], id);
      assert ids == ids[..n] + [ids[n]];
    }
  }

  lemma {:induction false} HoldersExact(upgraded: seq<PoolUpgraded>, hash: Hash)
    ensures Distinct(Holders(upgraded, hash))
    ensures forall id :: id in Holders(upgraded, hash) <==> LastUpgrade(upgraded, id) == Some(hash)
  {
    if upgraded != [] {
      var n := |upgraded| - 1;
      HoldersExact(upgraded[..n], hash);
      var earlier := Holders(upgraded[..n], hash);
      WithoutMembers(earlier, upgraded[n].id);
      WithoutDistinct(earlier, upgraded[n].id);
      var others := Without(earlier, upgraded[n].id);
      assert forall i :: 0 <= i < |others| ==> others[i] in others;
    }
  }

  lemma LogAppend(upgraded: seq<PoolUpgraded>, u: PoolUpgraded)
    ensures forall hash :: Holders(upgraded + [u], hash) ==
              var others := Without(Holders(upgraded, hash), u.id);
              if u.newHash == hash then others + [u.id] else others
    ensures forall id :: LastUpgrade(upgraded + [u], id)
                      == if u.id == id then Some(u.newHash) else LastUpgrade(upgraded, id)
  {
    assert (upgraded + [u])[..|upgraded|] == upgraded;
  }

  /** Touching only the lists of the old and the new hash is enough, because the id is in no other list. */
  lemma ReindexedFollowsLog(index: map<Hash, seq<nat>>, upgraded: seq<PoolUpgraded>, u: PoolUpgraded)
    requires forall hash :: Lookup(index, hash) == Holders(upgraded, hash)
    requires u.oldHash != u.newHash
    requires LastUpgrade(upgraded, u.id) == None || LastUpgrade(upgraded, u.id) == Some(u.oldHash)
    ensures forall hash :: Lookup(Reindexed(index, u.id, u.oldHash, u.newHash), hash) == Holders(upgraded + [u], hash)
  {
    LogAppend(upgraded, u);
    forall hash
      ensures Lookup(Reindexed(index, u.id, u.oldHash, u.newHash), hash) == Holders(upgraded + [u], hash)
    {
      HoldersExact(upgraded, hash);
      if u.id !in Holders(upgraded, hash) {
        WithoutAbsent(Holders(upgraded, hash), u.id);
      }
    }
  }
}
