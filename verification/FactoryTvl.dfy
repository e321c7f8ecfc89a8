/**
 The TVL accumulator: when it is the sum of the snapshots, over every run, and what a full
 sweep leaves behind.
 */
module FactoryTvl {
  import opened Host
  import opened FactoryTypes
  import opened FactoryModel
  import opened FactoryIndex
  import opened FactoryRuns

  /** With 2^32 - 1 pools of at most this magnitude, one more term still fits in i128. */
  const MAX_POOL_TVL: int := 0x7FFF_FFFF_FFFF_FFFF_FFFF_FFFF

  function SumTvl(tvl: map<nat, i128>, count: nat): int {
    if count == 0 then 0 else SumTvl(tvl, count - 1) + (if count - 1 in tvl then tvl[count - 1] else 0)
  }

  lemma {:induction false} SumUpdate(tvl: map<nat, i128>, id: nat, live: i128, count: nat)
    ensures SumTvl(tvl[id := live], count)
         == SumTvl(tvl, count) + (if id < count then live - (if id in tvl then tvl[id] else 0) else 0)
  {
    if count > 0 {
      SumUpdate(tvl, id, live, count - 1);
    }
  }

  predicate BoundedTvl(tvl: map<nat, i128>) {
    forall id :: id in tvl ==> -MAX_POOL_TVL <= tvl[id] <= MAX_POOL_TVL
  }

  lemma {:induction false} SumBounded(tvl: map<nat, i128>, count: nat)
    requires BoundedTvl(tvl)
    ensures -MAX_POOL_TVL * count <= SumTvl(tvl, count) <= MAX_POOL_TVL * count
  {
    if count > 0 {
      SumBounded(tvl, count - 1);
    }
  }

  predicate AccumulatorExact(s: Storage) {
    s.instance.totalTvl == SumTvl(s.poolTvl, s.instance.poolCount)
  }

  /** A sync of `id` to `live` clips: one of its two saturating operations leaves the range of i128. */
  predicate Clips(s: Storage, id: nat, live: i128) {
    && live != PoolTvl(s, id)
    && !(FitsI128(s.instance.totalTvl + live) && FitsI128(s.instance.totalTvl + live - PoolTvl(s, id)))
  }

  /** A sync keeps the accumulator exact precisely when it does not clip, which can be told before the call. */
  lemma SyncExactIff(s: Storage, id: nat, live: i128)
    requires AccumulatorExact(s) && id < s.instance.poolCount
    ensures AccumulatorExact(Synced(s, id, live)) <==> !Clips(s, id, live)
  {
    SumUpdate(s.poolTvl, id, live, s.instance.poolCount);
  }

  /** A registry of two pools with the given snapshots and accumulator. */
  predicate TwoPools(s: Storage, first: i128, second: i128, total: i128) {
    && s.instance.poolCount == 2 && s.instance.totalTvl == total
    && s.poolTvl == map[0 := first, 1 := second]
  }

  lemma SyncFirstOfTwo(s: Storage, first: i128, second: i128, total: i128, live: i128)
    requires TwoPools(s, first, second, total) && live != first
    ensures TwoPools(Synced(s, 0, live), live, second, SaturatingSub(SaturatingAdd(total, live), first))
  {
  }

  lemma SyncSecondOfTwo(s: Storage, first: i128, second: i128, total: i128, live: i128)
    requires TwoPools(s, first, second, total) && live != second
    ensures TwoPools(Synced(s, 1, live), first, live, SaturatingSub(SaturatingAdd(total, live), second))
  {
  }

  lemma TwoPoolsSum(s: Storage, first: i128, second: i128, total: i128)
    requires TwoPools(s, first, second, total)
    ensures SumTvl(s.poolTvl, 2) == (first as int) + (second as int)
  {
    assert SumTvl(s.poolTvl, 1) == first;
  }

  /**
   Saturation does lose value: two pools that rise to the top of i128 clip the accumulator, and
   once both are empty again it stays in deficit although the snapshots sum to 0.
   */
  lemma SaturationDrifts(s: Storage)
    requires TwoPools(s, 0, 0, 0)
    ensures
      var full := Synced(Synced(s, 0, I128_MAX), 1, I128_MAX);
      var drained := Synced(Synced(full, 0, 0), 1, 0);
      && AccumulatorExact(s) && TwoPools(full, I128_MAX, I128_MAX, I128_MAX)
      && TwoPools(drained, 0, 0, I128_MIN + 1) && !AccumulatorExact(drained)
  {
    TwoPoolsSum(s, 0, 0, 0);
    SyncFirstOfTwo(s, 0, 0, 0, I128_MAX);
    var s1 := Synced(s, 0, I128_MAX);
    SyncSecondOfTwo(s1, I128_MAX, 0, I128_MAX, I128_MAX);
    var full := Synced(s1, 1, I128_MAX);
    SyncFirstOfTwo(full, I128_MAX, I128_MAX, I128_MAX, 0);
    var s3 := Synced(full, 0, 0);
    SyncSecondOfTwo(s3, 0, I128_MAX, 0, 0);
    TwoPoolsSum(Synced(s3, 1, 0), 0, 0, I128_MIN + 1);
  }

  // ---------------------------------------------------------------- snapshots over every run

  /** The value the latest `tvl_sync` event carries for a pool, 0 before the first. */
  function LastLive(synced: seq<TvlSynced>, id: nat): i128 {
    if synced == [] then 0
    else
      var e := synced[|synced| - 1];
      if e.id == id then e.live else LastLive(synced[..|synced| - 1], id)
  }

  /** What an observer of the `tvl_sync` events adds up. */
  function SumDeltas(synced: seq<TvlSynced>): int {
    if synced == [] then 0
    else
      var e := synced[|synced| - 1];
      SumDeltas(synced[..|synced| - 1]) + (e.live as int) - (e.previous as int)
  }

  lemma {:induction false} NeverSynced(synced: seq<TvlSynced>, id: nat)
    requires forall e :: e in synced ==> e.id != id
    ensures LastLive(synced, id) == 0
  {
    if synced != [] {
      assert synced[|synced| - 1] in synced;
      NeverSynced(synced[..|synced| - 1], id);
    }
  }

  /** Exactly the created pools have a snapshot, and the snapshots are what the published events say. */
  ghost predicate SnapshotInv(s: Storage) {
    && (forall id :: id in s.poolTvl <==> 0 <= id < s.instance.poolCount)
    && (forall e :: e in s.events.synced ==> e.id < s.instance.poolCount)
    && (forall id: nat :: PoolTvl(s, id) == LastLive(s.events.synced, id))
    && SumDeltas(s.events.synced) == SumTvl(s.poolTvl, s.instance.poolCount)
  }

  /** Only created pools have records. */
  predicate PoolsCounted(s: Storage) {
    forall id :: id in s.pools ==> id < s.instance.poolCount
  }

  lemma SyncKeepsSnapshots(s: Storage, id: nat, live: i128)
    requires SnapshotInv(s) && id < s.instance.poolCount
    ensures SnapshotInv(Synced(s, id, live))
  {
    if live != PoolTvl(s, id) {
      var synced, t := s.events.synced, Synced(s, id, live);
      assert t.events.synced[..|synced|] == synced;
      SumUpdate(s.poolTvl, id, live, s.instance.poolCount);
    }
  }

  lemma SyncOneKeepsSnapshots(s: Storage, id: nat, stakes: Stakes)
    requires SnapshotInv(s) && PoolsCounted(s)
    ensures SnapshotInv(SyncOne(s, id, stakes)) && PoolsCounted(SyncOne(s, id, stakes))
  {
    if id in s.pools && s.pools[id].address in stakes {
      SyncKeepsSnapshots(s, id, stakes[s.pools[id].address]);
    }
  }

  /** What each sync of one id keeps, a sync of a range keeps. */
  lemma {:induction false} SyncRangeInduction(s: Storage, lo: nat, hi: nat, stakes: Stakes, p: Storage -> bool)
    requires p(s) && forall t: Storage, id: nat :: p(t) ==> p(SyncOne(t, id, stakes))
    ensures p(SyncRange(s, lo, hi, stakes))
    decreases hi - lo
  {
    if lo < hi {
      SyncRangeInduction(s, lo, hi - 1, stakes, p);
    }
  }

  lemma SyncRangeKeepsSnapshots(s: Storage, lo: nat, hi: nat, stakes: Stakes)
    requires SnapshotInv(s) && PoolsCounted(s)
    ensures SnapshotInv(SyncRange(s, lo, hi, stakes))
  {
    var p := (t: Storage) => SnapshotInv(t) && PoolsCounted(t);
    forall t: Storage, id: nat | p(t)
      ensures p(SyncOne(t, id, stakes))
    {
      SyncOneKeepsSnapshots(t, id, stakes);
    }
    SyncRangeInduction(s, lo, hi, stakes, p);
    assert p(SyncRange(s, lo, hi, stakes));
  }

  lemma CreateKeepsSnapshots(s: Storage, admin: Address, item: CreateItem)
    requires SnapshotInv(s)
    ensures var o := CreateInner(s, admin, item); o.Ok? ==> SnapshotInv(o.value.1)
  {
    var o := CreateInner(s, admin, item);
    if o.Ok? {
      SumUpdate(s.poolTvl, s.instance.poolCount, 0, s.instance.poolCount);
      NeverSynced(s.events.synced, s.instance.poolCount);
      assert o.value.1.poolTvl == s.poolTvl[s.instance.poolCount := 0] && o.value.1.events.synced == s.events.synced;
    }
  }

  lemma {:induction false} CreateAllKeepsSnapshots(s: Storage, admin: Address, items: seq<CreateItem>)
    requires SnapshotInv(s)
    ensures var o := CreateAll(s, admin, items); o.Ok? ==> SnapshotInv(o.value.1)
    decreases |items|
  {
    if items != [] {
      var earlier := CreateAll(s, admin, items[..|items| - 1]);
      CreateAllKeepsSnapshots(s, admin, items[..|items| - 1]);
      if earlier.Ok? {
        CreateKeepsSnapshots(earlier.value.1, admin, items[|items| - 1]);
      }
    }
  }

  /** The TVL entries and events are untouched, and so is everything that is said of them. */
  predicate SameTvl(s: Storage, t: Storage) {
    && t.instance.poolCount == s.instance.poolCount && t.instance.totalTvl == s.instance.totalTvl
    && t.poolTvl == s.poolTvl && t.events.synced == s.events.synced
  }

  lemma {:induction false} UpgradeAllKeepsTvl(s: Storage, admin: Address, items: seq<UpgradeItem>, newHash: Hash)
    ensures var o := UpgradeAll(s, admin, items, newHash); o.Ok? ==> SameTvl(s, o.value.1)
    decreases |items|
  {
    if items != [] {
      UpgradeAllKeepsTvl(s, admin, items[..|items| - 1], newHash);
    }
  }

  /** The calls that neither create nor sync leave the TVL alone. */
  lemma OtherCallKeepsTvl(s: Storage, c: Call)
    requires InstanceInv(s)
    requires !c.CallCreatePool? && !c.CallCreatePoolsBatch? && !c.CallSyncPoolTvl? && !c.CallSyncAllPoolTvls?
    ensures SameTvl(s, Step(s, c))
  {
    if c.CallUpgradePoolsBatch? && RequireFactoryAdmin(s, c.signers).Ok? {
      UpgradeAllKeepsTvl(s, s.instance.admin.value, c.upgrades, c.hash);
    }
  }

  lemma CreateCallKeepsSnapshots(s: Storage, c: Call)
    requires SnapshotInv(s) && (c.CallCreatePool? || c.CallCreatePoolsBatch?)
    ensures SnapshotInv(Step(s, c))
  {
    if RequireFactoryAdmin(s, c.signers).Ok? {
      match c
      case CallCreatePool(_, item) => CreateKeepsSnapshots(s, s.instance.admin.value, item);
      case CallCreatePoolsBatch(_, items) => CreateAllKeepsSnapshots(s, s.instance.admin.value, items);
    }
  }

  lemma SyncCallKeepsSnapshots(s: Storage, c: Call)
    requires SnapshotInv(s) && PoolsCounted(s) && (c.CallSyncPoolTvl? || c.CallSyncAllPoolTvls?)
    ensures SnapshotInv(Step(s, c))
  {
    match c
    case CallSyncPoolTvl(id, stakes) => SyncOneKeepsSnapshots(s, id, stakes);
    case CallSyncAllPoolTvls(start, limit, stakes) =>
      if s.instance.admin.Some? {
        SyncRangeKeepsSnapshots(s, start, SyncAllPoolTvls(s, start, limit, stakes).value.0, stakes);
      }
  }

  lemma StepKeepsSnapshots(s: Storage, c: Call)
    requires InstanceInv(s) && PoolsCounted(s) && SnapshotInv(s)
    ensures SnapshotInv(Step(s, c))
  {
    match c
    case CallCreatePool(_, _) => CreateCallKeepsSnapshots(s, c);
    case CallCreatePoolsBatch(_, _) => CreateCallKeepsSnapshots(s, c);
    case CallSyncPoolTvl(_, _) => SyncCallKeepsSnapshots(s, c);
    case CallSyncAllPoolTvls(_, _, _) => SyncCallKeepsSnapshots(s, c);
    case _ => OtherCallKeepsTvl(s, c);
  }

  lemma {:induction false} ExecutionsKeepSnapshots(states: seq<Storage>, calls: seq<Call>, i: nat)
    requires Execution(states, calls) && i < |states|
    ensures SnapshotInv(states[i])
  {
    if i > 0 {
      ExecutionsKeepSnapshots(states, calls, i - 1);
      ExecutionsKeepInv(states, calls, i - 1);
      StepKeepsSnapshots(states[i - 1], calls[i - 1]);
    }
  }

  /** After every run, whatever the pools report, the snapshots and their sum can be read off the published events. */
  lemma EventsReplaySnapshots(s: Storage)
    requires Reachable(s)
    ensures forall id :: id in s.poolTvl <==> 0 <= id < s.instance.poolCount
    ensures forall id: nat :: PoolTvl(s, id) == LastLive(s.events.synced, id)
    ensures SumDeltas(s.events.synced) == SumTvl(s.poolTvl, s.instance.poolCount)
  {
    var states: seq<Storage>, calls: seq<Call> :| Execution(states, calls) && states[|calls|] == s;
    ExecutionsKeepSnapshots(states, calls, |calls|);
  }

  // ---------------------------------------------------------------- the accumulator over every run

  predicate SyncClips(s: Storage, id: nat, stakes: Stakes) {
    id in s.pools && s.pools[id].address in stakes && Clips(s, id, stakes[s.pools[id].address])
  }

  /** Some sync of a range clips, each judged in the storage it finds. */
  predicate RangeClips(s: Storage, lo: nat, hi: nat, stakes: Stakes)
    decreases hi - lo
  {
    && lo < hi
    && (RangeClips(s, lo, hi - 1, stakes) || SyncClips(SyncRange(s, lo, hi - 1, stakes), hi - 1, stakes))
  }

  /** Some sync of a call clips. */
  predicate CallClips(s: Storage, c: Call) {
    && s.instance.admin.Some?
    && match c
       case CallSyncPoolTvl(id, stakes) => SyncClips(s, id, stakes)
       case CallSyncAllPoolTvls(start, limit, stakes) =>
         RangeClips(s, start, SyncAllPoolTvls(s, start, limit, stakes).value.0, stakes)
       case _ => false
  }

  /** The accumulator is exact after every single sync of a range. */
  predicate RangeExact(s: Storage, lo: nat, hi: nat, stakes: Stakes)
    decreases hi - lo
  {
    if lo >= hi then AccumulatorExact(s)
    else RangeExact(s, lo, hi - 1, stakes) && AccumulatorExact(SyncRange(s, lo, hi, stakes))
  }

  /** The accumulator is exact after a call and, within a batch sync, after every single sync. */
  predicate ExactThrough(s: Storage, c: Call) {
    if c.CallSyncAllPoolTvls? && s.instance.admin.Some?
    then RangeExact(s, c.start, SyncAllPoolTvls(s, c.start, c.limit, c.stakes).value.0, c.stakes)
    else AccumulatorExact(Step(s, c))
  }

  lemma SyncOneExactIff(s: Storage, id: nat, stakes: Stakes)
    requires AccumulatorExact(s) && PoolsCounted(s)
    ensures AccumulatorExact(SyncOne(s, id, stakes)) <==> !SyncClips(s, id, stakes)
  {
    if id in s.pools && s.pools[id].address in stakes {
      SyncExactIff(s, id, stakes[s.pools[id].address]);
    }
  }

  lemma {:induction false} RangeExactIff(s: Storage, lo: nat, hi: nat, stakes: Stakes)
    requires AccumulatorExact(s) && PoolsCounted(s)
    ensures RangeExact(s, lo, hi, stakes) <==> !RangeClips(s, lo, hi, stakes)
    ensures RangeExact(s, lo, hi, stakes) ==> AccumulatorExact(SyncRange(s, lo, hi, stakes))
    decreases hi - lo
  {
    if lo < hi {
      RangeExactIff(s, lo, hi - 1, stakes);
      if RangeExact(s, lo, hi - 1, stakes) {
        SyncRangeKeepsRegistry(s, lo, hi - 1, stakes);
        SyncOneExactIff(SyncRange(s, lo, hi - 1, stakes), hi - 1, stakes);
      }
    }
  }

  lemma CreateKeepsExact(s: Storage, admin: Address, item: CreateItem)
    requires AccumulatorExact(s)
    ensures var o := CreateInner(s, admin, item); o.Ok? ==> AccumulatorExact(o.value.1)
  {
    SumUpdate(s.poolTvl, s.instance.poolCount, 0, s.instance.poolCount);
  }

  lemma {:induction false} CreateAllKeepsExact(s: Storage, admin: Address, items: seq<CreateItem>)
    requires AccumulatorExact(s)
    ensures var o := CreateAll(s, admin, items); o.Ok? ==> AccumulatorExact(o.value.1)
    decreases |items|
  {
    if items != [] {
      var earlier := CreateAll(s, admin, items[..|items| - 1]);
      CreateAllKeepsExact(s, admin, items[..|items| - 1]);
      if earlier.Ok? {
        CreateKeepsExact(earlier.value.1, admin, items[|items| - 1]);
      }
    }
  }

  lemma CreateCallKeepsExact(s: Storage, c: Call)
    requires AccumulatorExact(s) && (c.CallCreatePool? || c.CallCreatePoolsBatch?)
    ensures AccumulatorExact(Step(s, c))
  {
    if RequireFactoryAdmin(s, c.signers).Ok? {
      match c
      case CallCreatePool(_, item) => CreateKeepsExact(s, s.instance.admin.value, item);
      case CallCreatePoolsBatch(_, items) => CreateAllKeepsExact(s, s.instance.admin.value, items);
    }
  }

  lemma StepExactIff(s: Storage, c: Call)
    requires AccumulatorExact(s) && PoolsCounted(s) && InstanceInv(s)
    ensures ExactThrough(s, c) <==> !CallClips(s, c)
    ensures ExactThrough(s, c) ==> AccumulatorExact(Step(s, c))
  {
    match c
    case CallCreatePool(_, _) => CreateCallKeepsExact(s, c);
    case CallCreatePoolsBatch(_, _) => CreateCallKeepsExact(s, c);
    case CallSyncPoolTvl(id, stakes) => SyncOneExactIff(s, id, stakes);
    case CallSyncAllPoolTvls(start, limit, stakes) =>
      if s.instance.admin.Some? {
        RangeExactIff(s, start, SyncAllPoolTvls(s, start, limit, stakes).value.0, stakes);
      }
    case _ => OtherCallKeepsTvl(s, c);
  }

  /** No sync of the first `n` calls of a run clips. */
  predicate NeverClips(states: seq<Storage>, calls: seq<Call>, n: nat)
    requires n <= |calls| && n <= |states|
  {
    n > 0 ==> NeverClips(states, calls, n - 1) && !CallClips(states[n - 1], calls[n - 1])
  }

  /** The accumulator is exact throughout the first `n` calls of a run. */
  predicate ExactThroughout(states: seq<Storage>, calls: seq<Call>, n: nat)
    requires n <= |calls| && n <= |states|
  {
    n > 0 ==> ExactThroughout(states, calls, n - 1) && ExactThrough(states[n - 1], calls[n - 1])
  }

  lemma RunStepExactIff(states: seq<Storage>, calls: seq<Call>, i: nat)
    requires Execution(states, calls) && i < |calls| && AccumulatorExact(states[i])
    ensures ExactThrough(states[i], calls[i]) <==> !CallClips(states[i], calls[i])
    ensures ExactThrough(states[i], calls[i]) ==> AccumulatorExact(states[i + 1])
  {
    ExecutionsKeepInv(states, calls, i);
    StepExactIff(states[i], calls[i]);
  }

  /**
   Over every run: the accumulator stays equal to the sum of the snapshots throughout the first
   `n` calls if and only if no sync among them clips; in particular it equals the sum then.
   */
  lemma {:induction false} ExactIffNeverClips(states: seq<Storage>, calls: seq<Call>, n: nat)
    requires Execution(states, calls) && n <= |calls|
    ensures ExactThroughout(states, calls, n) <==> NeverClips(states, calls, n)
    ensures NeverClips(states, calls, n) ==> AccumulatorExact(states[n])
  {
    if n > 0 {
      ExactIffNeverClips(states, calls, n - 1);
      if NeverClips(states, calls, n - 1) {
        RunStepExactIff(states, calls, n - 1);
      }
    }
  }

  // ---------------------------------------------------------------- bounded reports

  predicate WithinBound(stakes: Stakes) {
    forall pool :: pool in stakes ==> -MAX_POOL_TVL <= stakes[pool] <= MAX_POOL_TVL
  }

  /** Every pool this call asks reports a TVL within the bound. */
  predicate BoundedReports(c: Call) {
    c.CallSyncPoolTvl? || c.CallSyncAllPoolTvls? ==> WithinBound(c.stakes)
  }

  /** Within the bound no saturating operation clips: the accumulator moves by exactly the change of the snapshot. */
  lemma SyncNeverClips(s: Storage, id: nat, live: i128)
    requires BoundedTvl(s.poolTvl) && AccumulatorExact(s)
    requires id < s.instance.poolCount && -MAX_POOL_TVL <= live <= MAX_POOL_TVL
    ensures !Clips(s, id, live)
  {
    SumUpdate(s.poolTvl, id, live, s.instance.poolCount);
    SumWithinI128(s.poolTvl, s.instance.poolCount, live);
    SumWithinI128(s.poolTvl[id := live], s.instance.poolCount, 0);
  }

  lemma SumWithinI128(tvl: map<nat, i128>, count: u32, live: int)
    requires BoundedTvl(tvl) && -MAX_POOL_TVL <= live <= MAX_POOL_TVL
    ensures FitsI128(SumTvl(tvl, count) + live)
  {
    SumBounded(tvl, count);
    assert MAX_POOL_TVL * count <= MAX_POOL_TVL * U32_MAX;
    assert -MAX_POOL_TVL * count >= -MAX_POOL_TVL * U32_MAX;
  }

  lemma SyncRangeKeepsBounded(s: Storage, lo: nat, hi: nat, stakes: Stakes)
    requires BoundedTvl(s.poolTvl) && WithinBound(stakes)
    ensures BoundedTvl(SyncRange(s, lo, hi, stakes).poolTvl)
  {
    var p := (t: Storage) => BoundedTvl(t.poolTvl);
    SyncRangeInduction(s, lo, hi, stakes, p);
    assert p(SyncRange(s, lo, hi, stakes));
  }

  lemma {:induction false} BoundedRangeNeverClips(s: Storage, lo: nat, hi: nat, stakes: Stakes)
    requires BoundedTvl(s.poolTvl) && AccumulatorExact(s) && PoolsCounted(s) && WithinBound(stakes)
    ensures !RangeClips(s, lo, hi, stakes)
    decreases hi - lo
  {
    if lo < hi {
      var t := SyncRange(s, lo, hi - 1, stakes);
      BoundedRangeNeverClips(s, lo, hi - 1, stakes);
      RangeExactIff(s, lo, hi - 1, stakes);
      SyncRangeKeepsBounded(s, lo, hi - 1, stakes);
      SyncRangeKeepsRegistry(s, lo, hi - 1, stakes);
      if hi - 1 in t.pools && t.pools[hi - 1].address in stakes {
        SyncNeverClips(t, hi - 1, stakes[t.pools[hi - 1].address]);
      }
    }
  }

  lemma BoundedCallNeverClips(s: Storage, c: Call)
    requires BoundedTvl(s.poolTvl) && AccumulatorExact(s) && PoolsCounted(s) && BoundedReports(c)
    ensures !CallClips(s, c)
  {
    match c
    case CallSyncPoolTvl(id, stakes) =>
      if id in s.pools && s.pools[id].address in stakes {
        SyncNeverClips(s, id, stakes[s.pools[id].address]);
      }
    case CallSyncAllPoolTvls(start, limit, stakes) =>
      if s.instance.admin.Some? {
        BoundedRangeNeverClips(s, start, SyncAllPoolTvls(s, start, limit, stakes).value.0, stakes);
      }
    case _ =>
  }

  lemma {:induction false} CreateAllKeepsBounded(s: Storage, admin: Address, items: seq<CreateItem>)
    requires BoundedTvl(s.poolTvl)
    ensures var o := CreateAll(s, admin, items); o.Ok? ==> BoundedTvl(o.value.1.poolTvl)
    decreases |items|
  {
    if items != [] {
      CreateAllKeepsBounded(s, admin, items[..|items| - 1]);
    }
  }

  lemma StepKeepsBounded(s: Storage, c: Call)
    requires BoundedTvl(s.poolTvl) && InstanceInv(s) && BoundedReports(c)
    ensures BoundedTvl(Step(s, c).poolTvl)
  {
    match c
    case CallCreatePool(_, _) =>
    case CallCreatePoolsBatch(_, items) =>
      if s.instance.admin.Some? {
        CreateAllKeepsBounded(s, s.instance.admin.value, items);
      }
    case CallSyncPoolTvl(_, _) =>
    case CallSyncAllPoolTvls(start, limit, stakes) =>
      if s.instance.admin.Some? {
        SyncRangeKeepsBounded(s, start, SyncAllPoolTvls(s, start, limit, stakes).value.0, stakes);
      }
    case _ => OtherCallKeepsTvl(s, c);
  }

  lemma {:induction false} ExecutionsKeepBounded(states: seq<Storage>, calls: seq<Call>, i: nat)
    requires Execution(states, calls) && i < |states|
    requires forall k :: 0 <= k < |calls| ==> BoundedReports(calls[k])
    ensures BoundedTvl(states[i].poolTvl)
  {
    if i > 0 {
      ExecutionsKeepBounded(states, calls, i - 1);
      ExecutionsKeepInv(states, calls, i - 1);
      StepKeepsBounded(states[i - 1], calls[i - 1]);
    }
  }

  /** If every pool always reports within the bound, no sync of a run clips, */
  lemma {:induction false} BoundedRunNeverClips(states: seq<Storage>, calls: seq<Call>, n: nat)
    requires Execution(states, calls) && n <= |calls|
    requires forall k :: 0 <= k < |calls| ==> BoundedReports(calls[k])
    ensures NeverClips(states, calls, n)
  {
    if n > 0 {
      BoundedRunNeverClips(states, calls, n - 1);
      ExactIffNeverClips(states, calls, n - 1);
      ExecutionsKeepBounded(states, calls, n - 1);
      ExecutionsKeepInv(states, calls, n - 1);
      BoundedCallNeverClips(states[n - 1], calls[n - 1]);
    }
  }

  /** so the accumulator is the sum of the snapshots after every run. */
  lemma AccumulatorIsSum(states: seq<Storage>, calls: seq<Call>, i: nat)
    requires Execution(states, calls) && i < |states|
    requires forall k :: 0 <= k < |calls| ==> BoundedReports(calls[k])
    ensures states[i].instance.totalTvl == SumTvl(states[i].poolTvl, states[i].instance.poolCount)
  {
    BoundedRunNeverClips(states, calls, i);
    ExactIffNeverClips(states, calls, i);
  }

  // ---------------------------------------------------------------- sweeps

  /** What a sweep over `ids` below `hi` from `lo` should leave in a snapshot. */
  function Target(s: Storage, lo: nat, hi: nat, stakes: Stakes, id: nat): i128 {
    if lo <= id < hi && id in s.pools && s.pools[id].address in stakes
    then stakes[s.pools[id].address]
    else PoolTvl(s, id)
  }

  lemma {:induction false} SyncRangeHitsTarget(s: Storage, lo: nat, hi: nat, stakes: Stakes, id: nat)
    ensures PoolTvl(SyncRange(s, lo, hi, stakes), id) == Target(s, lo, hi, stakes, id)
    decreases hi - lo
  {
    if lo < hi {
      SyncRangeHitsTarget(s, lo, hi - 1, stakes, id);
      SyncRangeKeepsRegistry(s, lo, hi - 1, stakes);
    }
  }

  /** Sweeping up to `mid` and on to `hi` is sweeping to `hi`. */
  lemma {:induction false} SyncRangeSplits(s: Storage, lo: nat, mid: nat, hi: nat, stakes: Stakes)
    requires lo <= mid <= hi
    ensures SyncRange(SyncRange(s, lo, mid, stakes), mid, hi, stakes) == SyncRange(s, lo, hi, stakes)
    decreases hi - mid
  {
    if mid < hi {
      SyncRangeSplits(s, lo, mid, hi - 1, stakes);
    }
  }

  /** A range whose answering pools are already at their live value is left alone, events included. */
  lemma {:induction false} SettledRangeUntouched(s: Storage, lo: nat, hi: nat, stakes: Stakes)
    requires forall id :: id in s.pools && s.pools[id].address in stakes ==>
               PoolTvl(s, id) == stakes[s.pools[id].address]
    ensures SyncRange(s, lo, hi, stakes) == s
    decreases hi - lo
  {
    if lo < hi {
      SettledRangeUntouched(s, lo, hi - 1, stakes);
    }
  }

  /** Pages of a sweep from `start`, each at the cursor the one before returned, the k-th with limit `limits(k)`. */
  function Sweep(s: Storage, start: u32, limits: nat -> u32, k: nat, stakes: Stakes): Storage
    requires s.instance.admin.Some?
    requires forall j: nat :: limits(j) >= 1
    decreases s.instance.poolCount - start
  {
    if start >= s.instance.poolCount then s
    else
      SyncRangeKeepsRegistry(s, start, SyncAllPoolTvls(s, start, limits(k), stakes).value.0, stakes);
      var page := SyncAllPoolTvls(s, start, limits(k), stakes).value;
      Sweep(page.1, page.0, limits, k + 1, stakes)
  }

  lemma {:induction false} SweepIsRange(s: Storage, start: u32, limits: nat -> u32, k: nat, stakes: Stakes)
    requires s.instance.admin.Some?
    requires forall j: nat :: limits(j) >= 1
    ensures Sweep(s, start, limits, k, stakes) == SyncRange(s, start, s.instance.poolCount, stakes)
    decreases s.instance.poolCount - start
  {
    if start < s.instance.poolCount {
      var page := SyncAllPoolTvls(s, start, limits(k), stakes).value;
      SyncRangeKeepsRegistry(s, start, page.0, stakes);
      SweepIsRange(page.1, page.0, limits, k + 1, stakes);
      SyncRangeSplits(s, start, page.0, s.instance.poolCount, stakes);
    }
  }

  /**
   A full sweep with any page limits of at least 1 terminates, leaves every stored and
   answering pool at its live value and every other snapshot as it was, and a second sweep,
   with any other limits, changes nothing at all.
   */
  lemma SweepConverges(s: Storage, limits: nat -> u32, limits': nat -> u32, stakes: Stakes)
    requires Reachable(s) && s.instance.admin.Some?
    requires forall j: nat :: limits(j) >= 1 && limits'(j) >= 1
    ensures
      var t := Sweep(s, 0, limits, 0, stakes);
      && (forall id :: id in s.pools && s.pools[id].address in stakes ==> PoolTvl(t, id) == stakes[s.pools[id].address])
      && (forall id: nat :: !(id in s.pools && s.pools[id].address in stakes) ==> PoolTvl(t, id) == PoolTvl(s, id))
      && SameRegistry(s, t)
      && t.instance.admin.Some?
      && Sweep(t, 0, limits', 0, stakes) == t
  {
    var count := s.instance.poolCount;
    var t := SyncRange(s, 0, count, stakes);
    ReachableInv(s);
    SweepIsRange(s, 0, limits, 0, stakes);
    forall id: nat {
      SyncRangeHitsTarget(s, 0, count, stakes, id);
    }
    SyncRangeKeepsRegistry(s, 0, count, stakes);
    SweepIsRange(t, 0, limits', 0, stakes);
    SettledRangeUntouched(t, 0, count, stakes);
  }

  /**
   From an exact accumulator the sweep leaves it equal to the sum of the fresh snapshots unless
   one of its syncs clips; under bounded snapshots and reports none does.
   */
  lemma SweepTotals(s: Storage, limits: nat -> u32, stakes: Stakes)
    requires Reachable(s) && AccumulatorExact(s) && s.instance.admin.Some?
    requires forall j: nat :: limits(j) >= 1
    ensures !RangeClips(s, 0, s.instance.poolCount, stakes) ==> AccumulatorExact(Sweep(s, 0, limits, 0, stakes))
    ensures BoundedTvl(s.poolTvl) && WithinBound(stakes) ==> !RangeClips(s, 0, s.instance.poolCount, stakes)
  {
    ReachableInv(s);
    SweepIsRange(s, 0, limits, 0, stakes);
    RangeExactIff(s, 0, s.instance.poolCount, stakes);
    if BoundedTvl(s.poolTvl) && WithinBound(stakes) {
      BoundedRangeNeverClips(s, 0, s.instance.poolCount, stakes);
    }
  }

  /** A single sync is a sweep page of that one pool. */
  lemma SingleSyncIsOnePage(s: Storage, id: u32, stakes: Stakes)
    requires SyncPoolTvl(s, id, stakes).Ok? && id < s.instance.poolCount
    ensures SyncAllPoolTvls(s, id, 1, stakes) == Ok((id + 1, SyncPoolTvl(s, id, stakes).value.1))
  {
    assert SyncRange(s, id, id, stakes) == s;
  }

  /**
   `sync_pool_tvl` succeeds exactly on a stored pool that answers. It replies with the answer, which
   becomes the pool's snapshot; nothing else of the registry moves, the change is published, and
   the total moves by exactly as much unless the sync clips.
   */
  lemma SyncPoolTvlSucceedsIff(s: Storage, id: u32, stakes: Stakes)
    ensures
      var o := SyncPoolTvl(s, id, stakes);
      && (o.Ok? <==> s.instance.admin.Some? && id in s.pools && s.pools[id].address in stakes)
      && (o == Err(NotInitialized) <==> s.instance.admin.None?)
      && (o == Err(PoolNotFound) <==> s.instance.admin.Some? && id !in s.pools)
      && (o == Err(PoolQueryFailed) <==> s.instance.admin.Some? && id in s.pools && s.pools[id].address !in stakes)
      && (o.Ok? ==>
            var (live, t), previous := o.value, PoolTvl(s, id);
            && live == stakes[s.pools[id].address] == PoolTvl(t, id)
            && (forall other: nat :: other != id ==> PoolTvl(t, other) == PoolTvl(s, other))
            && SameRegistry(s, t)
            && t.events.synced == s.events.synced + (if live == previous then [] else [TvlSynced(id, previous, live)])
            && (!Clips(s, id, live) ==> t.instance.totalTvl - s.instance.totalTvl == live - previous))
  {
  }

  /**
   A sweep page covers the lesser of `limit` and 50 ids, cut off at the end, so only a limit of 0 makes
   no progress. It brings the stored, answering pools among them to their live values, and no other.
   */
  lemma SweepPageExact(s: Storage, start: u32, limit: u32, stakes: Stakes)
    ensures s.instance.admin.None? ==> SyncAllPoolTvls(s, start, limit, stakes) == Err(NotInitialized)
    ensures s.instance.admin.Some? <==> SyncAllPoolTvls(s, start, limit, stakes).Ok?
    ensures s.instance.admin.Some? ==>
      var (end, t) := SyncAllPoolTvls(s, start, limit, stakes).value;
      var window := if limit <= 50 then limit else 50;
      && end <= s.instance.poolCount && end <= start + window
      && (end == s.instance.poolCount || end == start + window)
      && SameRegistry(s, t)
      && (forall id: nat :: PoolTvl(t, id) == Target(s, start, end, stakes, id))
  {
    if s.instance.admin.Some? {
      var end := SyncAllPoolTvls(s, start, limit, stakes).value.0;
      SyncRangeKeepsRegistry(s, start, end, stakes);
      forall id: nat {
        SyncRangeHitsTarget(s, start, end, stakes, id);
      }
    }
  }
}
