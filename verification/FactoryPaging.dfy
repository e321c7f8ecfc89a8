/**
 The paging queries: `list_pools`, `refresh_pool_ttls` and `get_pools_by_asset_range` with
 its indexed path and its scan path.
 */
module FactoryPaging {
  import opened Host
  import opened FactoryTypes
  import opened FactoryModel
  import opened FactoryIndex

  type Entry = (nat, PoolRecord)
  type Table = map<nat, PoolRecord>

  /** A page; `total` is the registry count and `nextStartId` the cursor to continue from. */
  datatype Page = Page(records: seq<Entry>, nextStartId: nat, total: nat, hasMore: bool)

  // ---------------------------------------------------------------- what a range holds

  predicate Selected(pools: Table, filter: Option<Address>, id: nat) {
    id in pools && (filter.None? || pools[id].asset == filter.value)
  }

  /** The stored records with ids in [lo, hi) that the filter selects, ascending. */
  function Listed(pools: Table, filter: Option<Address>, lo: nat, hi: nat): seq<Entry>
    decreases hi - lo
  {
    if lo >= hi then []
    else Listed(pools, filter, lo, hi - 1) + (if Selected(pools, filter, hi - 1) then [(hi - 1, pools[hi - 1])] else [])
  }

  /** The ids in [lo, hi) with no stored record, ascending. */
  function Missing(pools: Table, lo: nat, hi: nat): seq<nat>
    decreases hi - lo
  {
    if lo >= hi then [] else Missing(pools, lo, hi - 1) + (if hi - 1 in pools then [] else [hi - 1])
  }

  function EntryIds(entries: seq<Entry>): seq<nat> {
    seq(|entries|, i requires 0 <= i < |entries| => entries[i].0)
  }

  lemma EntryIdsConcat(xs: seq<Entry>, ys: seq<Entry>)
    ensures EntryIds(xs + ys) == EntryIds(xs) + EntryIds(ys)
  {
  }

  lemma {:induction false} ListedSplits(pools: Table, filter: Option<Address>, lo: nat, mid: nat, hi: nat)
    requires lo <= mid <= hi
    ensures Listed(pools, filter, lo, hi) == Listed(pools, filter, lo, mid) + Listed(pools, filter, mid, hi)
    decreases hi - mid
  {
    if mid < hi {
      ListedSplits(pools, filter, lo, mid, hi - 1);
    }
  }

  lemma {:induction false} MissingSplits(pools: Table, lo: nat, mid: nat, hi: nat)
    requires lo <= mid <= hi
    ensures Missing(pools, lo, hi) == Missing(pools, lo, mid) + Missing(pools, mid, hi)
    decreases hi - mid
  {
    if mid < hi {
      MissingSplits(pools, lo, mid, hi - 1);
    }
  }

  /** `Listed` is exact: ascending ids, all and only the selected ones, each with its stored record. */
  lemma {:induction false} ListedExact(pools: Table, filter: Option<Address>, lo: nat, hi: nat)
    ensures
      var ids := EntryIds(Listed(pools, filter, lo, hi));
      && Ascending(ids)
      && (forall id :: id in ids <==> lo <= id < hi && Selected(pools, filter, id))
    ensures forall e :: e in Listed(pools, filter, lo, hi) ==> e.0 in pools && e.1 == pools[e.0]
    decreases hi - lo
  {
    if lo < hi {
      ListedExact(pools, filter, lo, hi - 1);
      var earlier, all := Listed(pools, filter, lo, hi - 1), Listed(pools, filter, lo, hi);
      assert forall i :: 0 <= i < |earlier| ==> EntryIds(earlier)[i] in EntryIds(earlier);
      assert EntryIds(all) == EntryIds(earlier) + (if Selected(pools, filter, hi - 1) then [hi - 1] else []);
    }
  }

  lemma {:induction false} MissingExact(pools: Table, lo: nat, hi: nat)
    ensures Ascending(Missing(pools, lo, hi))
    ensures forall id :: id in Missing(pools, lo, hi) <==> lo <= id < hi && id !in pools
    decreases hi - lo
  {
    if lo < hi {
      MissingExact(pools, lo, hi - 1);
      var earlier := Missing(pools, lo, hi - 1);
      assert forall i :: 0 <= i < |earlier| ==> earlier[i] in earlier;
    }
  }

  lemma {:induction false} ListedAndMissingFill(pools: Table, lo: nat, hi: nat)
    requires lo <= hi
    ensures |Listed(pools, None, lo, hi)| + |Missing(pools, lo, hi)| == hi - lo
    decreases hi - lo
  {
    if lo < hi {
      ListedAndMissingFill(pools, lo, hi - 1);
    }
  }

  lemma {:induction false} ListedUnselected(pools: Table, filter: Option<Address>, lo: nat, mid: nat, hi: nat)
    requires lo <= mid <= hi
    requires forall id :: mid <= id < hi ==> !Selected(pools, filter, id)
    ensures Listed(pools, filter, lo, hi) == Listed(pools, filter, lo, mid)
    decreases hi - mid
  {
    if mid < hi {
      ListedUnselected(pools, filter, lo, mid, hi - 1);
    }
  }

  // ---------------------------------------------------------------- the two paths

  function CappedLimit(limit: u32): u32 {
    if limit == 0 then 20 else Min(limit, 20)
  }

  function ScanWindow(scanLimit: u32): u32 {
    if scanLimit == 0 then MAX_POOL_SCAN_PER_CALL else Min(scanLimit, MAX_POOL_SCAN_PER_CALL)
  }

  /** The scan path from id `at`: looks at every record and compares its asset. Yields the records and the cursor. */
  function ScanPath(pools: Table, asset: Address, at: nat, hi: nat, cap: nat, taken: seq<Entry>): (seq<Entry>, nat)
    decreases hi - at
  {
    if at >= hi then (taken, hi)
    else if |taken| >= cap then (taken, at)
    else ScanPath(pools, asset, at + 1, hi, cap,
                  if at in pools && pools[at].asset == asset then taken + [(at, pools[at])] else taken)
  }

  /** The indexed path from list position `k`: follows the asset's id list and never looks at a record's asset. */
  function IndexPath(pools: Table, ids: seq<nat>, lo: nat, hi: nat, cap: nat, k: nat, taken: seq<Entry>)
    : (seq<Entry>, nat)
    decreases |ids| - k
  {
    if k >= |ids| then (taken, hi)
    else if ids[k] < lo then IndexPath(pools, ids, lo, hi, cap, k + 1, taken)
    else if ids[k] >= hi then (taken, hi)
    else if |taken| >= cap then (taken, ids[k])
    else IndexPath(pools, ids, lo, hi, cap, k + 1, if ids[k] in pools then taken + [(ids[k], pools[ids[k]])] else taken)
  }

  // ---------------------------------------------------------------- the two cursors

  predicate Full(pools: Table, asset: Address, lo: nat, at: nat, cap: nat) {
    |Listed(pools, Some(asset), lo, at)| >= cap
  }

  /** Where the scan path stops: at the first id, from `at` on, by which the page is full. */
  function ScanCursor(pools: Table, asset: Address, lo: nat, at: nat, hi: nat, cap: nat): nat
    decreases hi - at
  {
    if at >= hi then hi
    else if Full(pools, asset, lo, at, cap) then at
    else ScanCursor(pools, asset, lo, at + 1, hi, cap)
  }

  /** Where the indexed path stops: at the first indexed id, from position `k` on, by which the page is full. */
  function IndexCursor(pools: Table, asset: Address, ids: seq<nat>, lo: nat, hi: nat, cap: nat, k: nat): nat
    decreases |ids| - k
  {
    if k >= |ids| then hi
    else if ids[k] < lo then IndexCursor(pools, asset, ids, lo, hi, cap, k + 1)
    else if ids[k] >= hi then hi
    else if Full(pools, asset, lo, ids[k], cap) then ids[k]
    else IndexCursor(pools, asset, ids, lo, hi, cap, k + 1)
  }

  /** What the indexed path relies on instead of comparing `record.asset`. */
  predicate IndexSound(pools: Table, asset: Address, ids: seq<nat>) {
    && Ascending(ids)
    && forall id :: id in pools ==> (pools[id].asset == asset <==> id in ids)
  }

  lemma {:induction false} ScanCursorLeast(pools: Table, asset: Address, lo: nat, at: nat, hi: nat, cap: nat)
    requires lo <= at <= hi
    ensures
      var c := ScanCursor(pools, asset, lo, at, hi, cap);
      && at <= c <= hi
      && (c < hi ==> Full(pools, asset, lo, c, cap))
      && forall d :: at <= d < c ==> !Full(pools, asset, lo, d, cap)
    decreases hi - at
  {
    if at < hi && !Full(pools, asset, lo, at, cap) {
      ScanCursorLeast(pools, asset, lo, at + 1, hi, cap);
    }
  }

  lemma {:induction false} IndexCursorLeast(pools: Table, asset: Address, ids: seq<nat>, lo: nat, hi: nat,
                                            cap: nat, k: nat)
    requires Ascending(ids) && lo <= hi && k <= |ids|
    ensures
      var c := IndexCursor(pools, asset, ids, lo, hi, cap, k);
      && lo <= c <= hi
      && (c < hi ==> c in ids[k..] && Full(pools, asset, lo, c, cap))
      && forall j :: k <= j < |ids| && lo <= ids[j] < c ==> !Full(pools, asset, lo, ids[j], cap)
    decreases |ids| - k
  {
    if k < |ids| && (ids[k] < lo || (ids[k] < hi && !Full(pools, asset, lo, ids[k], cap))) {
      IndexCursorLeast(pools, asset, ids, lo, hi, cap, k + 1);
    }
  }

  /** The scan path returns what lies before its cursor. */
  lemma {:induction false} ScanPathIsListed(pools: Table, asset: Address, lo: nat, at: nat, hi: nat, cap: nat)
    requires lo <= at <= hi
    ensures
      var c := ScanCursor(pools, asset, lo, at, hi, cap);
      ScanPath(pools, asset, at, hi, cap, Listed(pools, Some(asset), lo, at)) == (Listed(pools, Some(asset), lo, c), c)
    decreases hi - at
  {
    if at < hi && !Full(pools, asset, lo, at, cap) {
      var taken := Listed(pools, Some(asset), lo, at);
      assert Listed(pools, Some(asset), lo, at + 1)
          == if at in pools && pools[at].asset == asset then taken + [(at, pools[at])] else taken;
      ScanPathIsListed(pools, asset, lo, at + 1, hi, cap);
    }
  }

  /** With a sound index so does the indexed path, although it skips every id that is not listed. */
  lemma {:induction false} IndexPathIsListed(pools: Table, asset: Address, ids: seq<nat>, lo: nat, done: nat, hi: nat,
                                             cap: nat, k: nat)
    requires IndexSound(pools, asset, ids) && k <= |ids| && lo <= done <= hi
    requires forall j :: 0 <= j < |ids| && lo <= ids[j] ==> (j < k <==> ids[j] < done)
    ensures
      var c := IndexCursor(pools, asset, ids, lo, hi, cap, k);
      IndexPath(pools, ids, lo, hi, cap, k, Listed(pools, Some(asset), lo, done))
      == (Listed(pools, Some(asset), lo, c), c)
    decreases |ids| - k
  {
    if k == |ids| || ids[k] >= hi {
      ListedUnselected(pools, Some(asset), lo, done, hi);
    } else if ids[k] < lo {
      IndexPathIsListed(pools, asset, ids, lo, done, hi, cap, k + 1);
    } else {
      ListedUnselected(pools, Some(asset), lo, done, ids[k]);
      if !Full(pools, asset, lo, ids[k], cap) {
        var id, taken := ids[k], Listed(pools, Some(asset), lo, ids[k]);
        assert id in ids;
        assert Listed(pools, Some(asset), lo, id + 1) == if id in pools then taken + [(id, pools[id])] else taken;
        IndexPathIsListed(pools, asset, ids, lo, ids[k] + 1, hi, cap, k + 1);
      }
    }
  }

  lemma PathsAreListed(pools: Table, asset: Address, ids: seq<nat>, lo: nat, hi: nat, cap: nat)
    requires IndexSound(pools, asset, ids) && lo <= hi
    ensures
      var scan := ScanCursor(pools, asset, lo, lo, hi, cap);
      var indexed := IndexCursor(pools, asset, ids, lo, hi, cap, 0);
      && ScanPath(pools, asset, lo, hi, cap, []) == (Listed(pools, Some(asset), lo, scan), scan)
      && IndexPath(pools, ids, lo, hi, cap, 0, []) == (Listed(pools, Some(asset), lo, indexed), indexed)
  {
    ScanPathIsListed(pools, asset, lo, lo, hi, cap);
    IndexPathIsListed(pools, asset, ids, lo, lo, hi, cap, 0);
  }

  /** The two paths return the same records, and the indexed cursor is never behind the scan cursor. */
  lemma IndexedRefinesScan(pools: Table, asset: Address, ids: seq<nat>, lo: nat, hi: nat, cap: nat)
    requires IndexSound(pools, asset, ids) && lo <= hi
    ensures
      var (scanned, scan) := ScanPath(pools, asset, lo, hi, cap, []);
      var (found, indexed) := IndexPath(pools, ids, lo, hi, cap, 0, []);
      && lo <= scan <= indexed <= hi
      && scanned == found == Listed(pools, Some(asset), lo, scan) == Listed(pools, Some(asset), lo, indexed)
  {
    PathsAreListed(pools, asset, ids, lo, hi, cap);
    var scan := ScanCursor(pools, asset, lo, lo, hi, cap);
    var indexed := IndexCursor(pools, asset, ids, lo, hi, cap, 0);
    ScanCursorLeast(pools, asset, lo, lo, hi, cap);
    IndexCursorLeast(pools, asset, ids, lo, hi, cap, 0);
    assert scan <= indexed;
    forall id | scan <= id < indexed
      ensures !Selected(pools, Some(asset), id)
    {
      if id in ids {
        ListedSplits(pools, Some(asset), lo, scan, id);
      }
    }
    ListedUnselected(pools, Some(asset), lo, scan, indexed);
  }

  // ---------------------------------------------------------------- the queries

  function PageTo(s: Storage, start: nat, next: nat): Page {
    Page(Listed(s.pools, None, start, next), next, s.instance.poolCount, next < s.instance.poolCount)
  }

  /** The page of every query that starts at or beyond the registry's end. */
  function EndPage(s: Storage): Page {
    Page([], s.instance.poolCount, s.instance.poolCount, false)
  }

  function AssetPage(s: Storage, found: (seq<Entry>, nat)): Page {
    Page(found.0, found.1, s.instance.poolCount, found.1 < s.instance.poolCount)
  }

  function ScannedPage(s: Storage, asset: Address, start: u32, scanLimit: u32, limit: u32): Page {
    var hi := PageEnd(start, ScanWindow(scanLimit), s.instance.poolCount);
    AssetPage(s, ScanPath(s.pools, asset, start, hi, CappedLimit(limit), []))
  }

  function IndexedPage(s: Storage, asset: Address, start: u32, scanLimit: u32, limit: u32): Page {
    var hi := PageEnd(start, ScanWindow(scanLimit), s.instance.poolCount);
    AssetPage(s, IndexPath(s.pools, Lookup(s.assetPools, asset), start, hi, CappedLimit(limit), 0, []))
  }

  function GetPoolsByAssetRange(s: Storage, asset: Address, start: u32, scanLimit: u32, limit: u32)
    : Outcome<Page, Error>
  {
    if s.instance.admin.None? then Err(NotInitialized)
    else if start >= s.instance.poolCount then Ok(EndPage(s))
    else if asset in s.assetPools then Ok(IndexedPage(s, asset, start, scanLimit, limit))
    else Ok(ScannedPage(s, asset, start, scanLimit, limit))
  }

  /** A page, and the ids for which `pool_gap` was published. */
  function ListPools(s: Storage, start: u32, limit: u32): Outcome<(Page, seq<nat>), Error> {
    if s.instance.admin.None? then Err(NotInitialized)
    else if start >= s.instance.poolCount then Ok((EndPage(s), []))
    else
      var end := PageEnd(start, CappedLimit(limit), s.instance.poolCount);
      Ok((PageTo(s, start, end), Missing(s.pools, start, end)))
  }

  datatype Refresh = Refresh(refreshed: seq<nat>, endId: nat, missing: nat)

  function RefreshPoolTtls(s: Storage, start: u32, limit: u32): Outcome<Refresh, Error> {
    if s.instance.admin.None? then Err(NotInitialized)
    else
      var end := PageEnd(start, Min(limit, 20), s.instance.poolCount);
      Ok(Refresh(EntryIds(Listed(s.pools, None, start, end)), end, |Missing(s.pools, start, end)|))
  }

  // ---------------------------------------------------------------- the loops

  /** The scan loop of `get_pools_by_asset_range`. */
  method ScanLoop(pools: Table, asset: Address, start: nat, scanEnd: nat, cap: nat)
    returns (records: seq<Entry>, next: nat)
    requires start <= scanEnd
    ensures (records, next) == ScanPath(pools, asset, start, scanEnd, cap, [])
  {
    records, next := [], scanEnd;
    for id := start to scanEnd
      invariant next == scanEnd
      invariant ScanPath(pools, asset, id, scanEnd, cap, records) == ScanPath(pools, asset, start, scanEnd, cap, [])
    {
      if |records| >= cap {
        next := id;
        break;
      }
      if id in pools {
        if pools[id].asset == asset {
          records := records + [(id, pools[id])];
        }
      }
    }
  }

  /** The indexed loop of `get_pools_by_asset_range`. */
  method IndexLoop(pools: Table, ids: seq<nat>, start: nat, scanEnd: nat, cap: nat)
    returns (records: seq<Entry>, next: nat)
    ensures (records, next) == IndexPath(pools, ids, start, scanEnd, cap, 0, [])
  {
    records, next := [], scanEnd;
    for k := 0 to |ids|
      invariant next == scanEnd
      invariant IndexPath(pools, ids, start, scanEnd, cap, k, records)
             == IndexPath(pools, ids, start, scanEnd, cap, 0, [])
    {
      var id := ids[k];
      if id < start {
        continue;
      }
      if id >= scanEnd {
        next := scanEnd;
        break;
      }
      if |records| >= cap {
        next := id;
        break;
      }
      if id in pools {
        records := records + [(id, pools[id])];
      }
    }
  }

  /** The loop of `list_pools`: records found, and the gaps published. */
  method ListLoop(pools: Table, start: nat, end: nat) returns (records: seq<Entry>, gaps: seq<nat>)
    requires start <= end
    ensures records == Listed(pools, None, start, end)
    ensures gaps == Missing(pools, start, end)
  {
    records, gaps := [], [];
    for id := start to end
      invariant records == Listed(pools, None, start, id)
      invariant gaps == Missing(pools, start, id)
    {
      if id in pools {
        records := records + [(id, pools[id])];
      } else {
        gaps := gaps + [id];
      }
    }
  }

  /** The loop of `refresh_pool_ttls`; its range may be empty or inverted. */
  method RefreshLoop(pools: Table, start: nat, end: nat) returns (refreshed: seq<nat>, missing: nat)
    ensures refreshed == EntryIds(Listed(pools, None, start, end))
    ensures missing == |Missing(pools, start, end)|
  {
    refreshed, missing := [], 0;
    var id := start;
    while id < end
      invariant start <= id && (id <= end || id == start)
      invariant refreshed == EntryIds(Listed(pools, None, start, id))
      invariant missing == |Missing(pools, start, id)|
    {
      if id in pools {
        refreshed := refreshed + [id];
      } else {
        missing := missing + 1;
      }
      id := id + 1;
    }
  }
}
