/** `list_pools_sorted`: an insertion-sorted page over the same window as `list_pools`. */
module FactorySort {
  import opened Host
  import opened FactoryTypes
  import opened FactoryModel
  import opened FactoryPaging

  datatype PoolSort = PoolId | CreditRate | GlobalMultiplier | MinLockPeriod

  function SortKey(sort: PoolSort, e: Entry): int {
    match sort
    case PoolId => e.0
    case CreditRate => e.1.creditRate
    case GlobalMultiplier => e.1.globalMultiplier
    case MinLockPeriod => e.1.minLockPeriod
  }

  /** `sort_precedes`: by key, ties by id. */
  predicate SortPrecedes(sort: PoolSort, left: Entry, right: Entry) {
    SortKey(sort, left) < SortKey(sort, right) || (SortKey(sort, left) == SortKey(sort, right) && left.0 < right.0)
  }

  /** For every sort key it is a strict total order on records with distinct ids. */
  lemma PrecedesIsStrictTotalOrder(sort: PoolSort, x: Entry, y: Entry, z: Entry)
    ensures !SortPrecedes(sort, x, x)
    ensures SortPrecedes(sort, x, y) ==> !SortPrecedes(sort, y, x)
    ensures SortPrecedes(sort, x, y) && SortPrecedes(sort, y, z) ==> SortPrecedes(sort, x, z)
    ensures x.0 != y.0 ==> SortPrecedes(sort, x, y) || SortPrecedes(sort, y, x)
  {
  }

  predicate Sorted(sort: PoolSort, entries: seq<Entry>) {
    forall i, j :: 0 <= i < j < |entries| ==> SortPrecedes(sort, entries[i], entries[j])
  }

  /** Where `insert_sorted` puts a record: before the first one it precedes. */
  function InsertAt(sort: PoolSort, entries: seq<Entry>, e: Entry, from: nat): nat
    requires from <= |entries|
    decreases |entries| - from
  {
    if from == |entries| || SortPrecedes(sort, e, entries[from]) then from else InsertAt(sort, entries, e, from + 1)
  }

  lemma {:induction false} InsertAtFirst(sort: PoolSort, entries: seq<Entry>, e: Entry, from: nat)
    requires from <= |entries|
    ensures
      var at := InsertAt(sort, entries, e, from);
      && from <= at <= |entries|
      && (at < |entries| ==> SortPrecedes(sort, e, entries[at]))
      && forall i :: from <= i < at ==> !SortPrecedes(sort, e, entries[i])
    decreases |entries| - from
  {
    if from < |entries| && !SortPrecedes(sort, e, entries[from]) {
      InsertAtFirst(sort, entries, e, from + 1);
    }
  }

  function Inserted(sort: PoolSort, entries: seq<Entry>, e: Entry): seq<Entry> {
    InsertAtFirst(sort, entries, e, 0);
    var at := InsertAt(sort, entries, e, 0);
    entries[..at] + [e] + entries[at..]
  }

  /** `insert_sorted`: the vector with one record more. */
  method InsertSorted(records: seq<Entry>, e: Entry, sort: PoolSort) returns (r: seq<Entry>)
    ensures r == Inserted(sort, records, e)
  {
    InsertAtFirst(sort, records, e, 0);
    var insertAt := |records|;
    for index := 0 to |records|
      invariant insertAt == |records|
      invariant InsertAt(sort, records, e, index) == InsertAt(sort, records, e, 0)
    {
      if SortPrecedes(sort, e, records[index]) {
        insertAt := index;
        break;
      }
    }
    r := records[..insertAt] + [e] + records[insertAt..];
  }

  lemma SortedConcat(sort: PoolSort, xs: seq<Entry>, ys: seq<Entry>)
    requires Sorted(sort, xs) && Sorted(sort, ys)
    requires forall i, j :: 0 <= i < |xs| && 0 <= j < |ys| ==> SortPrecedes(sort, xs[i], ys[j])
    ensures Sorted(sort, xs + ys)
  {
    var zs := xs + ys;
    forall i, j | 0 <= i < j < |zs|
      ensures SortPrecedes(sort, zs[i], zs[j])
    {
      if j < |xs| {
        assert zs[i] == xs[i] && zs[j] == xs[j];
      } else if i >= |xs| {
        assert zs[i] == ys[i - |xs|] && zs[j] == ys[j - |xs|];
      } else {
        assert zs[i] == xs[i] && zs[j] == ys[j - |xs|];
      }
    }
  }

  /** A record with a new id fits where `insert_sorted` puts it. */
  lemma FitsAtInsertion(sort: PoolSort, entries: seq<Entry>, e: Entry)
    requires Sorted(sort, entries) && e.0 !in EntryIds(entries)
    ensures
      var at := InsertAt(sort, entries, e, 0);
      && 0 <= at <= |entries|
      && (forall i :: 0 <= i < at ==> SortPrecedes(sort, entries[i], e))
      && (forall i :: at <= i < |entries| ==> SortPrecedes(sort, e, entries[i]))
  {
    var at := InsertAt(sort, entries, e, 0);
    InsertAtFirst(sort, entries, e, 0);
    forall i | 0 <= i < at
      ensures SortPrecedes(sort, entries[i], e)
    {
      assert EntryIds(entries)[i] == entries[i].0;
      PrecedesIsStrictTotalOrder(sort, entries[i], e, e);
    }
    forall i | at <= i < |entries|
      ensures SortPrecedes(sort, e, entries[i])
    {
      PrecedesIsStrictTotalOrder(sort, e, entries[at], entries[i]);
    }
  }

  /** Inserting a record with a new id keeps the vector sorted. */
  lemma InsertedKeepsSorted(sort: PoolSort, entries: seq<Entry>, e: Entry)
    requires Sorted(sort, entries) && e.0 !in EntryIds(entries)
    ensures Sorted(sort, Inserted(sort, entries, e))
  {
    var at := InsertAt(sort, entries, e, 0);
    FitsAtInsertion(sort, entries, e);
    SortedConcat(sort, entries[..at], [e]);
    SortedConcat(sort, entries[..at] + [e], entries[at..]);
  }

  lemma InsertedMultiset(sort: PoolSort, entries: seq<Entry>, e: Entry)
    ensures multiset(Inserted(sort, entries, e)) == multiset(entries) + multiset{e}
  {
    var at := InsertAt(sort, entries, e, 0);
    InsertAtFirst(sort, entries, e, 0);
    assert entries == entries[..at] + entries[at..];
  }

  /** The page under construction: the ids of [lo, hi) inserted in order. */
  function SortedListed(sort: PoolSort, pools: Table, lo: nat, hi: nat): seq<Entry>
    decreases hi - lo
  {
    if lo >= hi then []
    else
      var earlier := SortedListed(sort, pools, lo, hi - 1);
      if hi - 1 in pools then Inserted(sort, earlier, (hi - 1, pools[hi - 1])) else earlier
  }

  lemma MembersOfPermutation(xs: seq<Entry>, ys: seq<Entry>)
    requires multiset(xs) == multiset(ys)
    ensures forall e :: e in xs <==> e in ys
  {
    forall e
      ensures e in xs <==> e in ys
    {
      assert e in xs <==> e in multiset(xs);
      assert e in ys <==> e in multiset(ys);
    }
  }

  lemma NewIdNotListed(entries: seq<Entry>, id: nat)
    requires forall e :: e in entries ==> e.0 < id
    ensures id !in EntryIds(entries)
  {
    forall i | 0 <= i < |entries|
      ensures EntryIds(entries)[i] != id
    {
      assert entries[i] in entries;
    }
  }

  lemma {:induction false} ListedBelow(pools: Table, lo: nat, hi: nat)
    ensures forall e :: e in Listed(pools, None, lo, hi) ==> e.0 < hi
    decreases hi - lo
  {
    if lo < hi {
      ListedBelow(pools, lo, hi - 1);
    }
  }

  /** The sorted page is a permutation of the `list_pools` page, */
  lemma {:induction false} SortedListedIsPermutation(sort: PoolSort, pools: Table, lo: nat, hi: nat)
    ensures multiset(SortedListed(sort, pools, lo, hi)) == multiset(Listed(pools, None, lo, hi))
    decreases hi - lo
  {
    if lo < hi {
      SortedListedIsPermutation(sort, pools, lo, hi - 1);
      if hi - 1 in pools {
        InsertedMultiset(sort, SortedListed(sort, pools, lo, hi - 1), (hi - 1, pools[hi - 1]));
      }
    }
  }

  /** The next id of the window is not in the page yet, */
  lemma NextIdIsNew(sort: PoolSort, pools: Table, lo: nat, hi: nat)
    ensures hi !in EntryIds(SortedListed(sort, pools, lo, hi))
  {
    SortedListedIsPermutation(sort, pools, lo, hi);
    MembersOfPermutation(SortedListed(sort, pools, lo, hi), Listed(pools, None, lo, hi));
    ListedBelow(pools, lo, hi);
    NewIdNotListed(SortedListed(sort, pools, lo, hi), hi);
  }

  /** and the page is in the requested order. */
  lemma {:induction false} SortedListedIsSorted(sort: PoolSort, pools: Table, lo: nat, hi: nat)
    ensures Sorted(sort, SortedListed(sort, pools, lo, hi))
    decreases hi - lo
  {
    if lo < hi {
      SortedListedIsSorted(sort, pools, lo, hi - 1);
      if hi - 1 in pools {
        NextIdIsNew(sort, pools, lo, hi - 1);
        InsertedKeepsSorted(sort, SortedListed(sort, pools, lo, hi - 1), (hi - 1, pools[hi - 1]));
      }
    }
  }

  lemma FirstIsLeast(sort: PoolSort, xs: seq<Entry>, e: Entry)
    requires Sorted(sort, xs) && e in xs
    ensures xs[0] == e || SortPrecedes(sort, xs[0], e)
  {
  }

  lemma SameFirst(sort: PoolSort, xs: seq<Entry>, ys: seq<Entry>)
    requires xs != [] && ys != [] && Sorted(sort, xs) && Sorted(sort, ys)
    requires xs[0] in ys && ys[0] in xs
    ensures xs[0] == ys[0]
  {
    FirstIsLeast(sort, xs, ys[0]);
    FirstIsLeast(sort, ys, xs[0]);
    PrecedesIsStrictTotalOrder(sort, xs[0], ys[0], xs[0]);
  }

  lemma TailOf(sort: PoolSort, xs: seq<Entry>)
    requires xs != [] && Sorted(sort, xs)
    ensures multiset(xs[1..]) == multiset(xs) - multiset{xs[0]}
    ensures Sorted(sort, xs[1..])
  {
    assert xs == [xs[0]] + xs[1..];
  }

  /** Only one sequence is sorted and has these records. */
  lemma {:induction false} SortedPermutationUnique(sort: PoolSort, xs: seq<Entry>, ys: seq<Entry>)
    requires Sorted(sort, xs) && Sorted(sort, ys) && multiset(xs) == multiset(ys)
    ensures xs == ys
    decreases |xs|
  {
    assert |xs| == |multiset(xs)| == |multiset(ys)| == |ys|;
    if xs != [] {
      MembersOfPermutation(xs, ys);
      SameFirst(sort, xs, ys);
      TailOf(sort, xs);
      TailOf(sort, ys);
      SortedPermutationUnique(sort, xs[1..], ys[1..]);
      assert xs == [xs[0]] + xs[1..] && ys == [ys[0]] + ys[1..];
    }
  }

  /** `x` before `y`, or equal with the smaller pool id first. */
  predicate InOrder(x: int, xId: nat, y: int, yId: nat) {
    x < y || (x == y && xId < yId)
  }

  /** Ascending in the stored field that the sort names, equal values in ascending pool id. */
  predicate AscendingByField(sort: PoolSort, r: seq<Entry>) {
    && (sort == PoolId ==> forall i, j :: 0 <= i < j < |r| ==> r[i].0 < r[j].0)
    && (sort == CreditRate ==>
          forall i, j :: 0 <= i < j < |r| ==> InOrder(r[i].1.creditRate, r[i].0, r[j].1.creditRate, r[j].0))
    && (sort == GlobalMultiplier ==>
          forall i, j :: 0 <= i < j < |r| ==> InOrder(r[i].1.globalMultiplier, r[i].0, r[j].1.globalMultiplier, r[j].0))
    && (sort == MinLockPeriod ==>
          forall i, j :: 0 <= i < j < |r| ==> InOrder(r[i].1.minLockPeriod, r[i].0, r[j].1.minLockPeriod, r[j].0))
  }

  /** Sorted as the documentation puts it, on the records' own fields. */
  lemma SortedMeansAscendingByField(sort: PoolSort, entries: seq<Entry>)
    ensures Sorted(sort, entries) <==> AscendingByField(sort, entries)
  {
  }

  lemma ListedSortedById(pools: Table, lo: nat, hi: nat)
    ensures Sorted(PoolId, Listed(pools, None, lo, hi))
  {
    ListedExact(pools, None, lo, hi);
    var entries := Listed(pools, None, lo, hi);
    forall i, j | 0 <= i < j < |entries|
      ensures SortPrecedes(PoolId, entries[i], entries[j])
    {
      assert EntryIds(entries)[i] < EntryIds(entries)[j];
    }
  }

  /** The sorted window is the one permutation of the window that ascends in the named field. */
  lemma SortedWindow(sort: PoolSort, pools: Table, lo: nat, hi: nat)
    ensures
      var sorted, plain := SortedListed(sort, pools, lo, hi), Listed(pools, None, lo, hi);
      && AscendingByField(sort, sorted) && multiset(sorted) == multiset(plain)
      && (forall other :: AscendingByField(sort, other) && multiset(other) == multiset(plain) ==> other == sorted)
      && (sort == PoolId ==> sorted == plain)
  {
    var sorted, plain := SortedListed(sort, pools, lo, hi), Listed(pools, None, lo, hi);
    SortedListedIsPermutation(sort, pools, lo, hi);
    SortedListedIsSorted(sort, pools, lo, hi);
    SortedMeansAscendingByField(sort, sorted);
    forall other | AscendingByField(sort, other) && multiset(other) == multiset(plain)
      ensures other == sorted
    {
      SortedMeansAscendingByField(sort, other);
      SortedPermutationUnique(sort, other, sorted);
    }
    if sort == PoolId {
      ListedSortedById(pools, lo, hi);
      SortedPermutationUnique(PoolId, plain, sorted);
    }
  }

  function ListPoolsSorted(s: Storage, start: u32, limit: u32, sort: PoolSort): Outcome<(Page, seq<nat>), Error> {
    if s.instance.admin.None? then Err(NotInitialized)
    else if start >= s.instance.poolCount then Ok((EndPage(s), []))
    else
      var end := PageEnd(start, CappedLimit(limit), s.instance.poolCount);
      Ok((PageTo(s, start, end).(records := SortedListed(sort, s.pools, start, end)), Missing(s.pools, start, end)))
  }

  /**
   Against `list_pools` on the same window: same outcome, same cursor fields, same gaps, and the one
   permutation of its records that ascends in the named field; the same page when sorting by id.
   */
  lemma SortedPageCorrect(s: Storage, start: u32, limit: u32, sort: PoolSort)
    ensures s.instance.admin.None? ==> ListPoolsSorted(s, start, limit, sort) == Err(NotInitialized)
    ensures s.instance.admin.Some? <==> ListPoolsSorted(s, start, limit, sort).Ok?
    ensures s.instance.admin.Some? ==>
      var (sorted, gaps) := ListPoolsSorted(s, start, limit, sort).value;
      var (plain, plainGaps) := ListPools(s, start, limit).value;
      && sorted == plain.(records := sorted.records) && gaps == plainGaps
      && AscendingByField(sort, sorted.records) && multiset(sorted.records) == multiset(plain.records)
      && (forall other :: AscendingByField(sort, other) && multiset(other) == multiset(plain.records) ==>
            other == sorted.records)
      && (sort == PoolId ==> sorted == plain)
  {
    if s.instance.admin.Some? && start < s.instance.poolCount {
      SortedWindow(sort, s.pools, start, PageEnd(start, CappedLimit(limit), s.instance.poolCount));
    }
  }

  /** The loop of `list_pools_sorted`. */
  method SortedLoop(pools: Table, start: nat, end: nat, sort: PoolSort) returns (records: seq<Entry>, gaps: seq<nat>)
    requires start <= end
    ensures records == SortedListed(sort, pools, start, end)
    ensures gaps == Missing(pools, start, end)
  {
    records, gaps := [], [];
    for id := start to end
      invariant records == SortedListed(sort, pools, start, id)
      invariant gaps == Missing(pools, start, id)
    {
      if id in pools {
        records := InsertSorted(records, (id, pools[id]), sort);
      } else {
        gaps := gaps + [id];
      }
    }
  }
}
