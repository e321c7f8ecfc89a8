/** Who governs the factory: initialisation, hand-over, the deployed hash and the pause, over every run. */
module FactoryGovernance {
  import opened Host
  import opened FactoryTypes
  import opened FactoryModel
  import opened FactoryIndex
  import opened FactoryRuns
  import opened FactoryTheorems
  import opened FactoryBatches

  // ---------------------------------------------------------------- single calls

  /**
   In every reachable state `initialize` succeeds exactly once the factory has no admin yet, with a
   usable admin and hash; it stores these two in an otherwise empty contract, and that admin
   creates pool 0 right away.
   */
  lemma InitializeSucceedsIff(s: Storage, admin: Address, hash: Hash, signers: Signers, item: CreateItem)
    requires Reachable(s)
    ensures
      var o := Initialize(s, admin, hash);
      && (o.Ok? <==> s.instance.admin.None? && admin != Zero && hash != ZERO_HASH)
      && (o == Err(AlreadyInitialized) <==> s.instance.admin.Some?)
      && (o == Err(InvalidAdmin) <==> s.instance.admin.None? && admin == Zero)
      && (o == Err(InvalidWasmHash) <==> s.instance.admin.None? && admin != Zero && hash == ZERO_HASH)
      && (o.Ok? ==>
            && o.value.1 == EMPTY_STORAGE.(instance := Instance(Some(admin), Some(hash), 0, false, 0, 0, 0))
            && (CreatePool(o.value.1, signers, item).Ok? <==>
                  admin in signers && item.isToken && item.deploys && Acceptable(admin, item.params))
            && (CreatePool(o.value.1, signers, item).Ok? ==> CreatePool(o.value.1, signers, item).value.0 == 0))
  {
    ReachableInv(s);
    if Initialize(s, admin, hash).Ok? {
      RejectionsJustified(false, admin, item);
    }
  }

  /**
   `transfer_admin` succeeds exactly with the admin's signature, to a usable address, while the counter
   lasts. It replaces the admin and counts, and nothing else; from then on exactly the new admin's
   signature creates pools, and they are listed under the new admin.
   */
  lemma TransferAdminSucceedsIff(s: Storage, signers: Signers, newAdmin: Address, next: Signers, item: CreateItem)
    requires Reachable(s)
    ensures
      var o := TransferAdmin(s, signers, newAdmin);
      var signed := s.instance.admin.Some? && s.instance.admin.value in signers;
      && (o.Ok? <==> signed && newAdmin != Zero && s.instance.adminTransferCount < U32_MAX)
      && (o == Err(NotInitialized) <==> s.instance.admin.None?)
      && (o == Err(InvalidAdmin) <==> signed && newAdmin == Zero)
      && (o.Ok? ==>
            var t := o.value.1;
            && t == s.(instance := s.instance.(admin := Some(newAdmin),
                                               adminTransferCount := t.instance.adminTransferCount))
            && t.instance.adminTransferCount == s.instance.adminTransferCount + 1
            && (newAdmin !in next ==> CreatePool(t, next, item).Trap?)
            && (CreatePool(t, next, item).Ok? ==>
                  CreatePool(t, next, item).value.1.poolsByAdmin
                  == s.poolsByAdmin[newAdmin := Lookup(s.poolsByAdmin, newAdmin) + [s.instance.poolCount]]))
  {
  }

  /**
   `set_pool_wasm_hash` succeeds exactly with the admin's signature, on a nonzero hash other than the
   present one. It replaces that hash and nothing else; later pools are deployed from it.
   */
  lemma SetPoolWasmHashSucceedsIff(s: Storage, signers: Signers, hash: Hash, next: Signers, item: CreateItem)
    requires Reachable(s)
    ensures
      var o := SetPoolWasmHash(s, signers, hash);
      var signed := s.instance.admin.Some? && s.instance.admin.value in signers;
      && (o.Ok? <==> signed && hash != ZERO_HASH && s.instance.wasmHash != Some(hash))
      && (o == Err(NotInitialized) <==> s.instance.admin.None?)
      && (o == Err(InvalidWasmHash) <==> signed && hash == ZERO_HASH)
      && (o == Err(SameWasmHash) <==> signed && hash != ZERO_HASH && s.instance.wasmHash == Some(hash))
      && (o.Ok? ==>
            && o.value.1 == s.(instance := s.instance.(wasmHash := Some(hash)))
            && (CreatePool(o.value.1, next, item).Ok? ==>
                  var (id, t) := CreatePool(o.value.1, next, item).value;
                  id in t.pools && t.pools[id].wasmHash == hash))
  {
    ReachableInv(s);
  }

  /** Pausing and resuming succeed exactly with the admin's signature, and set the flag and nothing else. */
  lemma SetPausedSucceedsIff(s: Storage, signers: Signers, paused: bool)
    ensures
      var o := SetPaused(s, signers, paused);
      && (o.Ok? <==> s.instance.admin.Some? && s.instance.admin.value in signers)
      && (o.Err? <==> s.instance.admin.None?) && (o.Err? ==> o.error == NotInitialized)
      && (o.Ok? ==> o.value.1 == s.(instance := s.instance.(paused := paused)))
  {
  }

  // ---------------------------------------------------------------- over every run

  predicate AdminOnly(c: Call) {
    || c.CallTransferAdmin? || c.CallSetPoolWasmHash? || c.CallSetPaused? || c.CallCreatePool?
    || c.CallCreatePoolsBatch? || c.CallUpgradePool? || c.CallUpgradePoolsBatch?
  }

  /**
   Without the admin's signature no administrative, creating or upgrading call changes anything at
   all, and before `initialize` no other event of a run does.
   */
  lemma OnlyAdminChanges(s: Storage, c: Call)
    requires Inv(s)
    requires || (AdminOnly(c) && !(s.instance.admin.Some? && s.instance.admin.value in c.signers))
             || (s.instance.admin.None? && !c.CallInitialize?)
    ensures Step(s, c) == s
  {
  }

  /** What governs the factory. */
  datatype Governance = Governance(admin: Option<Address>, wasmHash: Option<Hash>, paused: bool, transfers: nat)

  function Governing(s: Storage): Governance {
    Governance(s.instance.admin, s.instance.wasmHash, s.instance.paused, s.instance.adminTransferCount)
  }

  predicate Obeys(g: Governance, signers: Signers) {
    g.admin.Some? && g.admin.value in signers
  }

  /** What a call decrees, knowing only what governed before it. */
  function Decree(g: Governance, c: Call): Governance {
    match c
    case CallInitialize(admin, hash) =>
      if g.admin.None? && admin != Zero && hash != ZERO_HASH
      then g.(admin := Some(admin), wasmHash := Some(hash)) else g
    case CallTransferAdmin(sg, newAdmin) =>
      if Obeys(g, sg) && newAdmin != Zero && g.transfers < U32_MAX
      then g.(admin := Some(newAdmin), transfers := g.transfers + 1) else g
    case CallSetPoolWasmHash(sg, hash) =>
      if Obeys(g, sg) && hash != ZERO_HASH then g.(wasmHash := Some(hash)) else g
    case CallSetPaused(sg, paused) => if Obeys(g, sg) then g.(paused := paused) else g
    case _ => g
  }

  function Decreed(calls: seq<Call>): Governance {
    if calls == [] then Governance(None, None, false, 0)
    else Decree(Decreed(calls[..|calls| - 1]), calls[|calls| - 1])
  }

  lemma AdminCallKeepsGovernance(s: Storage, c: Call)
    requires c.CallCreatePool? || c.CallCreatePoolsBatch? || c.CallUpgradePool? || c.CallUpgradePoolsBatch?
    ensures Governing(Step(s, c)) == Governing(s)
  {
    if Signed(s, c.signers) {
      match c
      case CallCreatePool(_, item) => CreateCountsOne(s, c.signers, item);
      case CallCreatePoolsBatch(_, items) =>
        if CreateAll(s, s.instance.admin.value, items).Ok? {
          CreateAllState(s, c.signers, items);
        }
      case CallUpgradePool(_, _, _) =>
      case CallUpgradePoolsBatch(_, items, hash) => UpgradeAllEffect(s, s.instance.admin.value, items, hash);
    }
  }

  lemma SyncKeepsGovernance(s: Storage, c: Call)
    requires c.CallSyncPoolTvl? || c.CallSyncAllPoolTvls?
    ensures Governing(Step(s, c)) == Governing(s)
  {
    if c.CallSyncAllPoolTvls? && s.instance.admin.Some? {
      SyncRangeKeepsRegistry(s, c.start, SyncAllPoolTvls(s, c.start, c.limit, c.stakes).value.0, c.stakes);
    }
  }

  lemma GoverningCallFollowsDecree(s: Storage, c: Call)
    requires s.instance.admin.Some? ==> s.instance.wasmHash.Some?
    requires c.CallInitialize? || c.CallTransferAdmin? || c.CallSetPoolWasmHash? || c.CallSetPaused?
    ensures Governing(Step(s, c)) == Decree(Governing(s), c)
  {
    match c
    case CallInitialize(_, _) =>
    case CallTransferAdmin(_, _) =>
    case CallSetPoolWasmHash(_, _) =>
    case CallSetPaused(_, _) =>
  }

  lemma StepFollowsDecree(s: Storage, c: Call)
    requires InstanceInv(s)
    ensures Governing(Step(s, c)) == Decree(Governing(s), c)
  {
    match c
    case CallCreatePool(_, _) => AdminCallKeepsGovernance(s, c);
    case CallCreatePoolsBatch(_, _) => AdminCallKeepsGovernance(s, c);
    case CallUpgradePool(_, _, _) => AdminCallKeepsGovernance(s, c);
    case CallUpgradePoolsBatch(_, _, _) => AdminCallKeepsGovernance(s, c);
    case CallSyncPoolTvl(_, _) => SyncKeepsGovernance(s, c);
    case CallSyncAllPoolTvls(_, _, _) => SyncKeepsGovernance(s, c);
    case CallPoolCountByAsset(_) =>
    case RecordExpires(_) =>
    case _ => GoverningCallFollowsDecree(s, c);
  }

  /**
   Over every run admin, deployed hash, pause flag and transfer count are what the governing calls
   decreed, each judged only by those before it: no creation, upgrade, sync or expiry has a say.
   */
  lemma {:induction false} GovernanceFollowsDecrees(states: seq<Storage>, calls: seq<Call>, n: nat)
    requires Execution(states, calls) && n < |states|
    ensures Governing(states[n]) == Decreed(calls[..n])
  {
    if n > 0 {
      GovernanceFollowsDecrees(states, calls, n - 1);
      ExecutionsKeepInv(states, calls, n - 1);
      StepFollowsDecree(states[n - 1], calls[n - 1]);
      assert calls[..n][..n - 1] == calls[..n - 1];
    }
  }

  /** Once initialised, a factory stays so for the rest of every run and refuses a second `initialize`. */
  lemma {:induction false} InitializedForGood(states: seq<Storage>, calls: seq<Call>, i: nat, j: nat)
    requires Execution(states, calls) && i <= j < |states| && states[i].instance.admin.Some?
    ensures states[j].instance.admin.Some? && states[j].instance.admin.value != Zero
    ensures forall admin, hash :: Initialize(states[j], admin, hash) == Err(AlreadyInitialized)
    decreases j
  {
    ExecutionsKeepInv(states, calls, j);
    if i < j {
      InitializedForGood(states, calls, i, j - 1);
      ExecutionsKeepInv(states, calls, j - 1);
      StepFollowsDecree(states[j - 1], calls[j - 1]);
    }
  }
}
