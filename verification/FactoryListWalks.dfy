/** Walks of `list_pools` and `refresh_pool_ttls`: every id is accounted for, also while the registry changes. */
module FactoryListWalks {
  import opened Host
  import opened FactoryTypes
  import opened FactoryModel
  import opened FactoryIndex
  import opened FactoryRuns
  import opened FactoryPaging
  import opened FactoryWalks

  /** `end` is the exclusive end of a window of at most `window` ids from `start` in a registry of `count`. */
  predicate EndsWindow(start: nat, window: nat, count: nat, end: nat) {
    && end <= count && end <= start + window
    && (end == count || end == start + window)
  }

  /**
   One `list_pools` page covers a window of `limit` ids, 20 when that is 0 or more, cut off at the
   end. Exactly its stored ids are records, as stored, and exactly the others are published as gaps.
   */
  lemma ListPageAccountsForWindow(s: Storage, start: u32, limit: u32)
    ensures s.instance.admin.None? ==> ListPools(s, start, limit) == Err(NotInitialized)
    ensures s.instance.admin.Some? <==> ListPools(s, start, limit).Ok?
    ensures s.instance.admin.Some? ==>
      var (page, gaps) := ListPools(s, start, limit).value;
      && page.total == s.instance.poolCount && (page.hasMore <==> page.nextStartId < page.total)
      && (start >= page.total ==> page.records == [] && gaps == [] && page.nextStartId == page.total)
      && (start < page.total ==>
            EndsWindow(start, if 1 <= limit <= 20 then limit else 20, page.total, page.nextStartId))
      && Ascending(EntryIds(page.records)) && Ascending(gaps)
      && (forall e :: e in page.records ==> e.0 in s.pools && e.1 == s.pools[e.0])
      && (forall id :: id in EntryIds(page.records) <==> start <= id < page.nextStartId && id in s.pools)
      && (forall id :: id in gaps <==> start <= id < page.nextStartId && id !in s.pools)
      && (start < page.total ==> |page.records| + |gaps| == page.nextStartId - start)
  {
    if s.instance.admin.Some? && start < s.instance.poolCount {
      var next := ListPools(s, start, limit).value.0.nextStartId;
      ListedExact(s.pools, None, start, next);
      MissingExact(s.pools, start, next);
      ListedAndMissingFill(s.pools, start, next);
    }
  }

  /** All records and all published gaps of a `list_pools` walk; `limits(k)` is the k-th page's limit, 0 included. */
  function ListWalk(s: Storage, start: u32, limits: nat -> u32, k: nat): (seq<Entry>, seq<nat>)
    decreases s.instance.poolCount - start
  {
    if start >= s.instance.poolCount || s.instance.admin.None? then ([], [])
    else
      var page := ListPools(s, start, limits(k)).value;
      var rest := ListWalk(s, page.0.nextStartId, limits, k + 1);
      (page.0.records + rest.0, page.1 + rest.1)
  }

  lemma {:induction false} ListWalkIsRange(s: Storage, start: u32, limits: nat -> u32, k: nat)
    requires s.instance.admin.Some? && start <= s.instance.poolCount
    ensures ListWalk(s, start, limits, k)
         == (Listed(s.pools, None, start, s.instance.poolCount), Missing(s.pools, start, s.instance.poolCount))
    decreases s.instance.poolCount - start
  {
    if start < s.instance.poolCount {
      var next := ListPools(s, start, limits(k)).value.0.nextStartId;
      ListWalkIsRange(s, next, limits, k + 1);
      ListedSplits(s.pools, None, start, next, s.instance.poolCount);
      MissingSplits(s.pools, start, next, s.instance.poolCount);
    }
  }

  /** A full walk, with any limits, puts each id exactly once in the records or in the gap events. */
  lemma ListWalkPartitions(s: Storage, limits: nat -> u32)
    requires s.instance.admin.Some?
    ensures
      var (records, gaps) := ListWalk(s, 0, limits, 0);
      && Ascending(EntryIds(records)) && Ascending(gaps)
      && (forall e :: e in records ==> e.0 in s.pools && e.1 == s.pools[e.0])
      && (forall id: nat :: id < s.instance.poolCount <==> (id in EntryIds(records) || id in gaps))
      && (forall id :: !(id in EntryIds(records) && id in gaps))
      && |records| + |gaps| == s.instance.poolCount
  {
    var count := s.instance.poolCount;
    ListWalkIsRange(s, 0, limits, 0);
    ListedExact(s.pools, None, 0, count);
    MissingExact(s.pools, 0, count);
    ListedAndMissingFill(s.pools, 0, count);
  }

  /** All ids refreshed, and the number found missing, by a `refresh_pool_ttls` walk. */
  function RefreshWalk(s: Storage, start: u32, limits: nat -> u32, k: nat): (seq<nat>, nat)
    requires forall j: nat :: limits(j) >= 1
    decreases s.instance.poolCount - start
  {
    if start >= s.instance.poolCount || s.instance.admin.None? then ([], 0)
    else
      var page := RefreshPoolTtls(s, start, limits(k)).value;
      var rest := RefreshWalk(s, page.endId, limits, k + 1);
      (page.refreshed + rest.0, page.missing + rest.1)
  }

  lemma {:induction false} RefreshWalkIsRange(s: Storage, start: u32, limits: nat -> u32, k: nat)
    requires forall j: nat :: limits(j) >= 1
    requires s.instance.admin.Some? && start <= s.instance.poolCount
    ensures RefreshWalk(s, start, limits, k)
         == (EntryIds(Listed(s.pools, None, start, s.instance.poolCount)),
             |Missing(s.pools, start, s.instance.poolCount)|)
    decreases s.instance.poolCount - start
  {
    assert EntryIds([]) == [];
    if start < s.instance.poolCount {
      var end := RefreshPoolTtls(s, start, limits(k)).value.endId;
      RefreshWalkIsRange(s, end, limits, k + 1);
      ListedSplits(s.pools, None, start, end, s.instance.poolCount);
      MissingSplits(s.pools, start, end, s.instance.poolCount);
      EntryIdsConcat(Listed(s.pools, None, start, end), Listed(s.pools, None, end, s.instance.poolCount));
    }
  }

  /** A full sweep with limits of at least 1 refreshes every stored record exactly once and counts every gap. */
  lemma RefreshWalkComplete(s: Storage, limits: nat -> u32)
    requires s.instance.admin.Some?
    requires forall j: nat :: limits(j) >= 1
    ensures
      var (refreshed, missing) := RefreshWalk(s, 0, limits, 0);
      && Ascending(refreshed)
      && (forall id: nat :: id in refreshed <==> id < s.instance.poolCount && id in s.pools)
      && |refreshed| + missing == s.instance.poolCount
  {
    var count := s.instance.poolCount;
    RefreshWalkIsRange(s, 0, limits, 0);
    ListedExact(s.pools, None, 0, count);
    ListedAndMissingFill(s.pools, 0, count);
  }

  /**
   One refresh covers a window of the lesser of `limit` and 20 ids, cut off at the end, so a limit of
   0 covers none. Exactly its stored ids are refreshed, in order, and the others are counted.
   */
  lemma RefreshAccountsForRange(s: Storage, start: u32, limit: u32)
    ensures s.instance.admin.None? ==> RefreshPoolTtls(s, start, limit) == Err(NotInitialized)
    ensures s.instance.admin.Some? <==> RefreshPoolTtls(s, start, limit).Ok?
    ensures s.instance.admin.Some? ==>
      var r := RefreshPoolTtls(s, start, limit).value;
      && EndsWindow(start, if limit <= 20 then limit else 20, s.instance.poolCount, r.endId)
      && Ascending(r.refreshed)
      && (forall id :: id in r.refreshed <==> start <= id < r.endId && id in s.pools)
      && |r.refreshed| + r.missing == (if start < r.endId then r.endId - start else 0)
  {
    if s.instance.admin.Some? {
      var end := RefreshPoolTtls(s, start, limit).value.endId;
      ListedExact(s.pools, None, start, end);
      if start <= end {
        ListedAndMissingFill(s.pools, start, end);
      }
    }
  }

  // ---------------------------------------------------------------- walks while the registry changes

  /** A `list_pools` walk under way: the ids of the records and the gaps received so far. */
  datatype Lister = Lister(s: Storage, cursor: u32, found: seq<nat>, gaps: seq<nat>)

  /** The next page is fetched, or anything else happens to the factory. */
  datatype ListEvent = NextPage(limit: u32) | Meanwhile(call: Call)

  function ListerStep(l: Lister, e: ListEvent): Lister {
    match e
    case NextPage(limit) =>
      var o := ListPools(l.s, l.cursor, limit);
      if o.Ok? && o.value.0.nextStartId <= U32_MAX
      then Lister(l.s, o.value.0.nextStartId, l.found + EntryIds(o.value.0.records), l.gaps + o.value.1)
      else l
    case Meanwhile(call) => l.(s := Step(l.s, call))
  }

  /** A `list_pools` walk from cursor 0, starting in any state that satisfies the registry invariant. */
  ghost predicate ListerExecution(ls: seq<Lister>, events: seq<ListEvent>) {
    && |ls| == |events| + 1
    && Inv(ls[0].s) && ls[0] == Lister(ls[0].s, 0, [], [])
    && forall i :: 0 <= i < |events| ==> ls[i + 1] == ListerStep(ls[i], events[i])
  }

  predicate Archives(e: ListEvent) {
    e.Meanwhile? && e.call.RecordExpires?
  }

  /** A page appends exactly the stored and the missing ids between the old cursor and the new one. */
  lemma NextPageAppends(l: Lister, limit: u32)
    requires l.s.instance.admin.Some? && l.cursor <= l.s.instance.poolCount
    ensures
      var m := ListerStep(l, NextPage(limit));
      && m.s == l.s && l.cursor <= m.cursor <= l.s.instance.poolCount
      && (l.cursor < l.s.instance.poolCount ==> l.cursor < m.cursor)
      && m.found == l.found + EntryIds(Listed(l.s.pools, None, l.cursor, m.cursor))
      && m.gaps == l.gaps + Missing(l.s.pools, l.cursor, m.cursor)
  {
  }

  lemma {:induction false} MissingUnchanged(s: Storage, t: Storage, cursor: nat)
    requires Extends(s, t, false) && cursor <= s.instance.poolCount
    ensures Missing(t.pools, 0, cursor) == Missing(s.pools, 0, cursor)
  {
    if cursor > 0 {
      MissingUnchanged(s, t, cursor - 1);
    }
  }

  /** While no record is archived: what was received so far is exactly what lies below the cursor. */
  lemma {:induction false} InterleavedListExact(ls: seq<Lister>, events: seq<ListEvent>, i: nat)
    requires ListerExecution(ls, events) && i < |ls|
    requires forall k :: 0 <= k < |events| ==> !Archives(events[k])
    ensures Inv(ls[i].s) && ls[i].cursor <= ls[i].s.instance.poolCount
    ensures ls[i].found == Below(ls[i].s, None, ls[i].cursor) && ls[i].gaps == Missing(ls[i].s.pools, 0, ls[i].cursor)
  {
    if i > 0 {
      var l := ls[i - 1];
      InterleavedListExact(ls, events, i - 1);
      match events[i - 1]
      case NextPage(limit) =>
        if l.s.instance.admin.Some? {
          NextPageAppends(l, limit);
          BelowSplits(l.s, None, l.cursor, ls[i].cursor);
          MissingSplits(l.s.pools, 0, l.cursor, ls[i].cursor);
        }
      case Meanwhile(call) =>
        StepKeepsInv(l.s, call);
        StepExtends(l.s, call);
        BelowUnchanged(l.s, ls[i].s, None, l.cursor);
        MissingUnchanged(l.s, ls[i].s, l.cursor);
    }
  }

  /**
   Even when records are archived between the pages: every id below the cursor was received exactly
   once, as a record or as a gap; what was a gap still is, and what is stored was received.
   */
  ghost predicate Accounted(l: Lister) {
    && Inv(l.s) && l.cursor <= l.s.instance.poolCount
    && Ascending(l.found) && Ascending(l.gaps)
    && (forall id: nat :: id < l.cursor <==> id in l.found || id in l.gaps)
    && (forall id :: id in l.found ==> id !in l.gaps)
    && (forall id :: id in l.gaps ==> id !in l.s.pools)
  }

  lemma NextPageKeepsAccounts(l: Lister, limit: u32)
    requires Accounted(l) && l.s.instance.admin.Some?
    ensures Accounted(ListerStep(l, NextPage(limit)))
  {
    var m := ListerStep(l, NextPage(limit));
    NextPageAppends(l, limit);
    ListedExact(l.s.pools, None, l.cursor, m.cursor);
    MissingExact(l.s.pools, l.cursor, m.cursor);
    AscendingConcat(l.found, EntryIds(Listed(l.s.pools, None, l.cursor, m.cursor)), l.cursor);
    AscendingConcat(l.gaps, Missing(l.s.pools, l.cursor, m.cursor), l.cursor);
  }

  lemma {:induction false} InterleavedListPartitions(ls: seq<Lister>, events: seq<ListEvent>, i: nat)
    requires ListerExecution(ls, events) && i < |ls|
    ensures Accounted(ls[i])
  {
    if i > 0 {
      var l := ls[i - 1];
      InterleavedListPartitions(ls, events, i - 1);
      match events[i - 1]
      case NextPage(limit) =>
        if l.s.instance.admin.Some? {
          NextPageKeepsAccounts(l, limit);
        }
      case Meanwhile(call) =>
        StepKeepsInv(l.s, call);
        StepExtends(l.s, call);
    }
  }

  /** A `refresh_pool_ttls` walk under way: the ids refreshed and the number of gaps counted so far. */
  datatype Keeper = Keeper(s: Storage, cursor: u32, refreshed: seq<nat>, missing: nat)

  function KeeperStep(p: Keeper, e: ListEvent): Keeper {
    match e
    case NextPage(limit) =>
      var o := RefreshPoolTtls(p.s, p.cursor, limit);
      if o.Ok? && o.value.endId <= U32_MAX
      then Keeper(p.s, o.value.endId, p.refreshed + o.value.refreshed, p.missing + o.value.missing)
      else p
    case Meanwhile(call) => p.(s := Step(p.s, call))
  }

  ghost predicate KeeperExecution(ps: seq<Keeper>, events: seq<ListEvent>) {
    && |ps| == |events| + 1
    && Inv(ps[0].s) && ps[0] == Keeper(ps[0].s, 0, [], 0)
    && forall i :: 0 <= i < |events| ==> ps[i + 1] == KeeperStep(ps[i], events[i])
  }

  /** What was refreshed and counted so far is exactly what lies below the cursor. */
  ghost predicate KeptBelow(p: Keeper) {
    && p.cursor <= p.s.instance.poolCount
    && p.refreshed == Below(p.s, None, p.cursor) && p.missing == |Missing(p.s.pools, 0, p.cursor)|
  }

  lemma NextPageKeepsBelow(p: Keeper, limit: u32)
    requires KeptBelow(p)
    ensures KeptBelow(KeeperStep(p, NextPage(limit)))
  {
    if p.s.instance.admin.Some? {
      var end := RefreshPoolTtls(p.s, p.cursor, limit).value.endId;
      BelowSplits(p.s, None, p.cursor, end);
      MissingSplits(p.s.pools, 0, p.cursor, end);
    }
  }

  lemma CallKeepsBelow(p: Keeper, call: Call)
    requires KeptBelow(p) && InstanceInv(p.s) && !call.RecordExpires?
    ensures KeptBelow(KeeperStep(p, Meanwhile(call)))
  {
    StepExtends(p.s, call);
    BelowUnchanged(p.s, Step(p.s, call), None, p.cursor);
    MissingUnchanged(p.s, Step(p.s, call), p.cursor);
  }

  /** With any limits, while no record is archived: exactly the stored ids below the cursor were refreshed, in order. */
  lemma {:induction false} InterleavedRefreshExact(ps: seq<Keeper>, events: seq<ListEvent>, i: nat)
    requires KeeperExecution(ps, events) && i < |ps|
    requires forall k :: 0 <= k < |events| ==> !Archives(events[k])
    ensures Inv(ps[i].s) && KeptBelow(ps[i])
  {
    if i > 0 {
      InterleavedRefreshExact(ps, events, i - 1);
      match events[i - 1]
      case NextPage(limit) => NextPageKeepsBelow(ps[i - 1], limit);
      case Meanwhile(call) =>
        StepKeepsInv(ps[i - 1].s, call);
        CallKeepsBelow(ps[i - 1], call);
    }
  }
}
