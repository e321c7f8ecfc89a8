/** Walks by asset: following the cursors from page to page is complete, also while the registry changes. */
module FactoryWalks {
  import opened Host
  import opened FactoryTypes
  import opened FactoryModel
  import opened FactoryIndex
  import opened FactoryRuns
  import opened FactoryPaging

  // ---------------------------------------------------------------- one page by asset

  lemma IndexIsSound(s: Storage, asset: Address)
    requires Inv(s)
    ensures IndexSound(s.pools, asset, Lookup(s.assetPools, asset))
  {
    PositionsExact(Assets(s.events.created), asset);
  }

  /** Below the end of the window, the scan stops past its start, with at most `cap` records, early only with `cap`. */
  lemma ScanCursorBounds(pools: Table, asset: Address, lo: nat, hi: nat, cap: nat)
    requires lo < hi && cap >= 1
    ensures
      var c := ScanCursor(pools, asset, lo, lo, hi, cap);
      && lo < c <= hi && |Listed(pools, Some(asset), lo, c)| <= cap
      && (c < hi ==> |Listed(pools, Some(asset), lo, c)| == cap)
  {
    var c := ScanCursor(pools, asset, lo, lo, hi, cap);
    ScanCursorLeast(pools, asset, lo, lo, hi, cap);
    assert Listed(pools, Some(asset), lo, lo) == [];
    assert !Full(pools, asset, lo, c - 1, cap);
  }

  /** So does the indexed path, and it stops early only at a listed id. */
  lemma IndexedStops(pools: Table, asset: Address, ids: seq<nat>, lo: nat, hi: nat, cap: nat)
    requires IndexSound(pools, asset, ids) && lo < hi && cap >= 1
    ensures
      var (found, c) := IndexPath(pools, ids, lo, hi, cap, 0, []);
      && lo < c <= hi && found == Listed(pools, Some(asset), lo, c) && |found| <= cap
      && (c < hi ==> |found| == cap && c in ids)
  {
    IndexedRefinesScan(pools, asset, ids, lo, hi, cap);
    PathsAreListed(pools, asset, ids, lo, hi, cap);
    ScanCursorBounds(pools, asset, lo, hi, cap);
    IndexCursorLeast(pools, asset, ids, lo, hi, cap, 0);
  }

  function PathPage(s: Storage, asset: Address, start: u32, scanLimit: u32, limit: u32, indexed: bool): Page {
    if indexed then IndexedPage(s, asset, start, scanLimit, limit) else ScannedPage(s, asset, start, scanLimit, limit)
  }

  /** On either path, a page starting below the end moves the cursor forward, and stops early only when full. */
  lemma PathAdvances(s: Storage, asset: Address, start: u32, scanLimit: u32, limit: u32, indexed: bool)
    requires IndexSound(s.pools, asset, Lookup(s.assetPools, asset)) && start < s.instance.poolCount
    ensures
      var page := PathPage(s, asset, start, scanLimit, limit, indexed);
      var hi := PageEnd(start, ScanWindow(scanLimit), s.instance.poolCount);
      && start < page.nextStartId <= hi
      && page.records == Listed(s.pools, Some(asset), start, page.nextStartId)
      && |page.records| <= CappedLimit(limit)
      && (page.nextStartId < hi ==> |page.records| == CappedLimit(limit))
      && (page.nextStartId < hi && indexed ==> page.nextStartId in Lookup(s.assetPools, asset))
  {
    var hi, cap := PageEnd(start, ScanWindow(scanLimit), s.instance.poolCount), CappedLimit(limit);
    if indexed {
      IndexedStops(s.pools, asset, Lookup(s.assetPools, asset), start, hi, cap);
    } else {
      ScanPathIsListed(s.pools, asset, start, start, hi, cap);
      ScanCursorBounds(s.pools, asset, start, hi, cap);
    }
  }

  /**
   A page from below the end, as the path that the query takes for the asset returns it: it stops
   early only with `cap` records, and then at a pool of the asset.
   */
  lemma PageBelowEnd(s: Storage, asset: Address, start: u32, scanLimit: u32, limit: u32)
    requires IndexSound(s.pools, asset, Lookup(s.assetPools, asset)) && start < s.instance.poolCount
    ensures
      var page := PathPage(s, asset, start, scanLimit, limit, asset in s.assetPools);
      var window, cap := if 1 <= scanLimit <= 50 then scanLimit else 50, if 1 <= limit <= 20 then limit else 20;
      && start < page.nextStartId <= s.instance.poolCount && page.nextStartId <= start + window
      && page.records == Listed(s.pools, Some(asset), start, page.nextStartId) && |page.records| <= cap
      && (page.nextStartId < s.instance.poolCount && page.nextStartId < start + window ==>
            |page.records| == cap && page.nextStartId in Lookup(s.assetPools, asset))
  {
    var page := PathPage(s, asset, start, scanLimit, limit, asset in s.assetPools);
    PathAdvances(s, asset, start, scanLimit, limit, asset in s.assetPools);
    if asset !in s.assetPools {
      ListedUnselected(s.pools, Some(asset), start, start, page.nextStartId);
      assert page.records == [];
    }
  }

  /**
   A page of the query: exactly the asset's records before the new cursor, at most `cap` of them,
   the cursor within the window. It stops before the end of the window only when it holds `cap`
   records, and then at a pool of the asset, so that the next page starts with work to do.
   */
  lemma AssetPageAdvances(s: Storage, asset: Address, start: u32, scanLimit: u32, limit: u32)
    requires Inv(s)
    ensures s.instance.admin.None? ==> GetPoolsByAssetRange(s, asset, start, scanLimit, limit) == Err(NotInitialized)
    ensures s.instance.admin.Some? <==> GetPoolsByAssetRange(s, asset, start, scanLimit, limit).Ok?
    ensures s.instance.admin.Some? ==>
      var page := GetPoolsByAssetRange(s, asset, start, scanLimit, limit).value;
      var window := if 1 <= scanLimit <= 50 then scanLimit else 50;
      var cap := if 1 <= limit <= 20 then limit else 20;
      && page.total == s.instance.poolCount
      && (page.hasMore <==> page.nextStartId < page.total)
      && (start >= page.total ==> page.records == [] && page.nextStartId == page.total)
      && (start < page.total ==>
            && start < page.nextStartId <= page.total && page.nextStartId <= start + window
            && page.records == Listed(s.pools, Some(asset), start, page.nextStartId)
            && |page.records| <= cap
            && (page.nextStartId < page.total && page.nextStartId < start + window ==>
                  |page.records| == cap && page.nextStartId in Lookup(s.assetPools, asset)))
  {
    if s.instance.admin.Some? && start < s.instance.poolCount {
      IndexIsSound(s, asset);
      PageBelowEnd(s, asset, start, scanLimit, limit);
    }
  }

  /**
   The indexed path refines the scan path in every reachable state: for every start, window and
   limit the records agree, and the indexed cursor is never behind.
   */
  lemma IndexedPageRefinesScannedPage(s: Storage, asset: Address, start: u32, scanLimit: u32, limit: u32)
    requires Reachable(s) && start <= s.instance.poolCount
    ensures
      var indexed := IndexedPage(s, asset, start, scanLimit, limit);
      var scanned := ScannedPage(s, asset, start, scanLimit, limit);
      && indexed.records == scanned.records
      && scanned.nextStartId <= indexed.nextStartId <= indexed.total == scanned.total
  {
    ReachableInv(s);
    IndexIsSound(s, asset);
    var hi := PageEnd(start, ScanWindow(scanLimit), s.instance.poolCount);
    IndexedRefinesScan(s.pools, asset, Lookup(s.assetPools, asset), start, hi, CappedLimit(limit));
  }

  // ---------------------------------------------------------------- a full walk by asset

  /** How a walk gets its pages: from the entry point, or from one of its two paths throughout. */
  datatype Way = EntryPoint | IndexedPath | ScannedPath

  function PageBy(way: Way, s: Storage, asset: Address, start: u32, scanLimit: u32, limit: u32): Page {
    match way
    case EntryPoint =>
      var o := GetPoolsByAssetRange(s, asset, start, scanLimit, limit);
      if o.Ok? then o.value else EndPage(s)
    case IndexedPath => IndexedPage(s, asset, start, scanLimit, limit)
    case ScannedPath => ScannedPage(s, asset, start, scanLimit, limit)
  }

  /**
   Everything a walk over a fixed registry returns; `scans(k)` and `limits(k)` set its k-th page.
   It ends at the registry's end, or with a page that does not move the cursor forward.
   */
  function AssetWalk(way: Way, s: Storage, asset: Address, start: u32, scans: nat -> u32, limits: nat -> u32, k: nat)
    : seq<Entry>
    decreases s.instance.poolCount - start
  {
    if start >= s.instance.poolCount then []
    else
      var page := PageBy(way, s, asset, start, scans(k), limits(k));
      if start < page.nextStartId <= s.instance.poolCount
      then page.records + AssetWalk(way, s, asset, page.nextStartId, scans, limits, k + 1)
      else page.records
  }

  lemma {:induction false} AssetWalkIsRange(way: Way, s: Storage, asset: Address, start: u32,
                                            scans: nat -> u32, limits: nat -> u32, k: nat)
    requires Inv(s) && s.instance.admin.Some? && start <= s.instance.poolCount
    ensures AssetWalk(way, s, asset, start, scans, limits, k)
         == Listed(s.pools, Some(asset), start, s.instance.poolCount)
    decreases s.instance.poolCount - start
  {
    if start < s.instance.poolCount {
      var page := PageBy(way, s, asset, start, scans(k), limits(k));
      IndexIsSound(s, asset);
      PathAdvances(s, asset, start, scans(k), limits(k), true);
      PathAdvances(s, asset, start, scans(k), limits(k), false);
      AssetWalkIsRange(way, s, asset, page.nextStartId, scans, limits, k + 1);
      ListedSplits(s.pools, Some(asset), start, page.nextStartId, s.instance.poolCount);
    }
  }

  /**
   In every reachable state a full walk of the entry point, paged in any way, returns exactly the
   asset's stored records, and so do walks of its indexed path and of its scan path, paged in any
   other way: the three coincide.
   */
  lemma AssetWalkComplete(s: Storage, asset: Address, way: Way, scans: nat -> u32, limits: nat -> u32,
                          scans': nat -> u32, limits': nat -> u32)
    requires Reachable(s) && s.instance.admin.Some?
    ensures AssetWalk(EntryPoint, s, asset, 0, scans, limits, 0)
         == Listed(s.pools, Some(asset), 0, s.instance.poolCount)
    ensures AssetWalk(way, s, asset, 0, scans', limits', 0) == AssetWalk(EntryPoint, s, asset, 0, scans, limits, 0)
  {
    ReachableInv(s);
    AssetWalkIsRange(EntryPoint, s, asset, 0, scans, limits, 0);
    AssetWalkIsRange(way, s, asset, 0, scans', limits', 0);
  }

  // ---------------------------------------------------------------- a walk while the registry changes

  /** A client's walk: the storage it runs against, its cursor, and the ids it has been given so far. */
  datatype Client = Client(s: Storage, cursor: u32, emitted: seq<nat>)

  /** The client fetches its next page, or anything else happens to the factory. */
  datatype Event = Fetch(scanLimit: u32, limit: u32) | Other(call: Call)

  function ClientStep(c: Client, asset: Address, e: Event): Client {
    match e
    case Fetch(scanLimit, limit) =>
      var o := GetPoolsByAssetRange(c.s, asset, c.cursor, scanLimit, limit);
      if o.Ok? && o.value.nextStartId <= U32_MAX
      then Client(c.s, o.value.nextStartId, c.emitted + EntryIds(o.value.records))
      else c
    case Other(call) => c.(s := Step(c.s, call))
  }

  /**
   Clients `cs[0]`, `cs[1]`, ... of a walk from cursor 0, starting in any state that satisfies
   the registry invariant, so in every reachable one.
   */
  ghost predicate WalkExecution(cs: seq<Client>, asset: Address, events: seq<Event>) {
    && |cs| == |events| + 1
    && Inv(cs[0].s) && cs[0].cursor == 0 && cs[0].emitted == []
    && forall i :: 0 <= i < |events| ==> cs[i + 1] == ClientStep(cs[i], asset, events[i])
  }

  /** Published creations stay; ids below the count keep their asset and, unless archived, their presence. */
  ghost predicate Extends(s: Storage, t: Storage, expires: bool) {
    && s.instance.poolCount <= t.instance.poolCount
    && s.events.created <= t.events.created
    && (forall id :: 0 <= id < s.instance.poolCount ==>
          && (id in t.pools ==> id in s.pools && t.pools[id].asset == s.pools[id].asset)
          && (id in s.pools && !expires ==> id in t.pools))
  }

  lemma CreateExtends(s: Storage, admin: Address, item: CreateItem)
    ensures var o := CreateInner(s, admin, item); o.Ok? ==> Extends(s, o.value.1, false)
  {
  }

  lemma UpgradeExtends(s: Storage, admin: Address, item: UpgradeItem, newHash: Hash)
    ensures var o := UpgradeInner(s, admin, item, newHash); o.Ok? ==> Extends(s, o.value.1, false)
  {
  }

  lemma {:induction false} CreateAllExtends(s: Storage, admin: Address, items: seq<CreateItem>)
    ensures var o := CreateAll(s, admin, items); o.Ok? ==> Extends(s, o.value.1, false)
    decreases |items|
  {
    if items != [] {
      var earlier := CreateAll(s, admin, items[..|items| - 1]);
      CreateAllExtends(s, admin, items[..|items| - 1]);
      if earlier.Ok? {
        CreateExtends(earlier.value.1, admin, items[|items| - 1]);
      }
    }
  }

  lemma {:induction false} UpgradeAllExtends(s: Storage, admin: Address, items: seq<UpgradeItem>, newHash: Hash)
    ensures var o := UpgradeAll(s, admin, items, newHash); o.Ok? ==> Extends(s, o.value.1, false)
    decreases |items|
  {
    if items != [] {
      var earlier := UpgradeAll(s, admin, items[..|items| - 1], newHash);
      UpgradeAllExtends(s, admin, items[..|items| - 1], newHash);
      if earlier.Ok? {
        UpgradeExtends(earlier.value.1, admin, items[|items| - 1], newHash);
      }
    }
  }

  lemma AdminCallExtends(s: Storage, c: Call)
    requires c.CallCreatePool? || c.CallCreatePoolsBatch? || c.CallUpgradePool? || c.CallUpgradePoolsBatch?
    ensures Extends(s, Step(s, c), false)
  {
    if RequireFactoryAdmin(s, c.signers).Ok? {
      var admin := s.instance.admin.value;
      match c
      case CallCreatePool(_, item) => CreateExtends(s, admin, item);
      case CallCreatePoolsBatch(_, items) => CreateAllExtends(s, admin, items);
      case CallUpgradePool(_, item, hash) => UpgradeExtends(s, admin, item, hash);
      case CallUpgradePoolsBatch(_, items, hash) => UpgradeAllExtends(s, admin, items, hash);
    }
  }

  lemma SyncCallExtends(s: Storage, c: Call)
    requires c.CallSyncPoolTvl? || c.CallSyncAllPoolTvls?
    ensures Extends(s, Step(s, c), false)
  {
    if c.CallSyncAllPoolTvls? && s.instance.admin.Some? {
      SyncRangeKeepsRegistry(s, c.start, SyncAllPoolTvls(s, c.start, c.limit, c.stakes).value.0, c.stakes);
    }
  }

  lemma AdministrationExtends(s: Storage, c: Call)
    requires InstanceInv(s)
    requires c.CallInitialize? || c.CallTransferAdmin? || c.CallSetPoolWasmHash? || c.CallSetPaused?
             || c.CallPoolCountByAsset?
    ensures Extends(s, Step(s, c), false)
  {
    assert Step(s, c).pools == s.pools && Step(s, c).events == s.events;
  }

  lemma StepExtends(s: Storage, c: Call)
    requires InstanceInv(s)
    ensures Extends(s, Step(s, c), c.RecordExpires?)
  {
    match c
    case CallCreatePool(_, _) => AdminCallExtends(s, c);
    case CallCreatePoolsBatch(_, _) => AdminCallExtends(s, c);
    case CallUpgradePool(_, _, _) => AdminCallExtends(s, c);
    case CallUpgradePoolsBatch(_, _, _) => AdminCallExtends(s, c);
    case CallSyncPoolTvl(_, _) => SyncCallExtends(s, c);
    case CallSyncAllPoolTvls(_, _, _) => SyncCallExtends(s, c);
    case RecordExpires(_) =>
    case _ => AdministrationExtends(s, c);
  }

  /** The selected stored ids below a cursor. */
  function Below(s: Storage, filter: Option<Address>, cursor: nat): seq<nat> {
    EntryIds(Listed(s.pools, filter, 0, cursor))
  }

  lemma {:induction false} BelowUnchanged(s: Storage, t: Storage, filter: Option<Address>, cursor: nat)
    requires Extends(s, t, false) && cursor <= s.instance.poolCount
    ensures Below(t, filter, cursor) == Below(s, filter, cursor)
  {
    if cursor > 0 {
      BelowUnchanged(s, t, filter, cursor - 1);
      ListedIdsStep(s.pools, filter, cursor);
      ListedIdsStep(t.pools, filter, cursor);
    }
  }

  lemma ListedIdsStep(pools: Table, filter: Option<Address>, cursor: nat)
    requires cursor > 0
    ensures EntryIds(Listed(pools, filter, 0, cursor))
         == EntryIds(Listed(pools, filter, 0, cursor - 1))
            + (if Selected(pools, filter, cursor - 1) then [cursor - 1] else [])
  {
  }

  lemma BelowSplits(s: Storage, filter: Option<Address>, mid: nat, hi: nat)
    requires mid <= hi
    ensures Below(s, filter, hi) == Below(s, filter, mid) + EntryIds(Listed(s.pools, filter, mid, hi))
  {
    ListedSplits(s.pools, filter, 0, mid, hi);
    EntryIdsConcat(Listed(s.pools, filter, 0, mid), Listed(s.pools, filter, mid, hi));
  }

  /** A fetched page appends exactly the asset's stored ids between the old cursor and the new one. */
  lemma FetchAppends(c: Client, asset: Address, scanLimit: u32, limit: u32)
    requires Inv(c.s) && c.s.instance.admin.Some? && c.cursor <= c.s.instance.poolCount
    ensures
      var d := ClientStep(c, asset, Fetch(scanLimit, limit));
      && d.s == c.s && c.cursor <= d.cursor <= c.s.instance.poolCount
      && (c.cursor < c.s.instance.poolCount ==> c.cursor < d.cursor)
      && d.emitted == c.emitted + EntryIds(Listed(c.s.pools, Some(asset), c.cursor, d.cursor))
  {
    AssetPageAdvances(c.s, asset, c.cursor, scanLimit, limit);
  }

  /**
   While pools are created, upgraded and synced between the pages, the ids received so far are
   always exactly the asset's stored ids below the cursor, in ascending order.
   */
  lemma {:induction false} InterleavedWalkExact(cs: seq<Client>, asset: Address, events: seq<Event>, i: nat)
    requires WalkExecution(cs, asset, events) && i < |cs|
    requires forall k :: 0 <= k < |events| ==> !(events[k].Other? && events[k].call.RecordExpires?)
    ensures Inv(cs[i].s) && cs[i].cursor <= cs[i].s.instance.poolCount
    ensures cs[i].emitted == Below(cs[i].s, Some(asset), cs[i].cursor)
  {
    if i > 0 {
      var c, e := cs[i - 1], events[i - 1];
      InterleavedWalkExact(cs, asset, events, i - 1);
      match e
      case Fetch(scanLimit, limit) =>
        if c.s.instance.admin.Some? {
          FetchAppends(c, asset, scanLimit, limit);
          BelowSplits(c.s, Some(asset), c.cursor, cs[i].cursor);
        }
      case Other(call) =>
        StepKeepsInv(c.s, call);
        StepExtends(c.s, call);
        BelowUnchanged(c.s, cs[i].s, Some(asset), c.cursor);
    }
  }

  /**
   Even when records expire between the pages: no id is received twice, every id received was
   created for the asset, and none whose record is still stored below the cursor was skipped.
   */
  ghost predicate Sandwiched(c: Client, asset: Address) {
    && Inv(c.s) && c.cursor <= c.s.instance.poolCount
    && Ascending(c.emitted)
    && (forall id :: id in c.emitted ==> 0 <= id < c.cursor && c.s.events.created[id].record.asset == asset)
    && (forall id :: 0 <= id < c.cursor && Selected(c.s.pools, Some(asset), id) ==> id in c.emitted)
  }

  lemma AscendingConcat(xs: seq<nat>, ys: seq<nat>, mid: nat)
    requires Ascending(xs) && Ascending(ys)
    requires (forall x :: x in xs ==> x < mid) && (forall y :: y in ys ==> mid <= y)
    ensures Ascending(xs + ys)
  {
    assert forall i :: 0 <= i < |xs| ==> xs[i] in xs;
    assert forall i :: 0 <= i < |ys| ==> ys[i] in ys;
  }

  lemma FetchKeepsSandwich(c: Client, asset: Address, scanLimit: u32, limit: u32)
    requires Sandwiched(c, asset) && c.s.instance.admin.Some?
    ensures Sandwiched(ClientStep(c, asset, Fetch(scanLimit, limit)), asset)
  {
    var d := ClientStep(c, asset, Fetch(scanLimit, limit));
    var fresh' := EntryIds(Listed(c.s.pools, Some(asset), c.cursor, d.cursor));
    FetchAppends(c, asset, scanLimit, limit);
    ListedExact(c.s.pools, Some(asset), c.cursor, d.cursor);
    AscendingConcat(c.emitted, fresh', c.cursor);
  }

  lemma ExtensionKeepsSandwich(c: Client, t: Storage, asset: Address, expires: bool)
    requires Sandwiched(c, asset) && Inv(t) && Extends(c.s, t, expires)
    ensures Sandwiched(c.(s := t), asset)
  {
    assert |c.s.events.created| == c.s.instance.poolCount;
  }

  lemma OtherKeepsSandwich(c: Client, asset: Address, call: Call)
    requires Sandwiched(c, asset)
    ensures Sandwiched(c.(s := Step(c.s, call)), asset)
  {
    StepKeepsInv(c.s, call);
    StepExtends(c.s, call);
    ExtensionKeepsSandwich(c, Step(c.s, call), asset, call.RecordExpires?);
  }

  lemma {:induction false} InterleavedWalkSound(cs: seq<Client>, asset: Address, events: seq<Event>, i: nat)
    requires WalkExecution(cs, asset, events) && i < |cs|
    ensures Sandwiched(cs[i], asset)
  {
    if i > 0 {
      var c := cs[i - 1];
      InterleavedWalkSound(cs, asset, events, i - 1);
      match events[i - 1]
      case Fetch(scanLimit, limit) =>
        if c.s.instance.admin.Some? {
          FetchKeepsSandwich(c, asset, scanLimit, limit);
        }
      case Other(call) => OtherKeepsSandwich(c, asset, call);
    }
  }
}
