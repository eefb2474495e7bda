/** The sync-done hook: after a cycle the server forgets the failures of items that left the store, and no others. */
module SyncDone {
  import opened Int64
  import opened CacheKeys
  import opened FileTable
  import opened RemoteItems
  import opened ChangeHooks
  import opened SyncOutcomes
  import opened CircuitBreaker
  import NegativeCache

  function ItemIds(live: seq<ItemDir>): set<int> {
    set d | d in live :: d.itemId
  }

  function StoredIds(rows: Rows): set<int> {
    set id | id in rows :: rows[id].rec.key.itemId
  }

  lemma {:induction false} ListingIds(live: seq<ItemDir>, rows: Rows)
    requires IsListing(live, rows)
    ensures ItemIds(live) == StoredIds(rows)
  {
    forall item ensures item in ItemIds(live) <==> item in StoredIds(rows) {
      if item in ItemIds(live) {
        var d :| d in live && d.itemId == item;
        var id :| id in rows && DirOfRow(rows[id]) == d;
        assert rows[id].rec.key.itemId == item;
      }
      if item in StoredIds(rows) {
        var id :| id in rows && rows[id].rec.key.itemId == item;
        assert DirOfRow(rows[id]) in live && DirOfRow(rows[id]).itemId == item;
      }
    }
  }

  /** The hook that the main program installs. */
  method OnSyncDone(live: seq<ItemDir>, breaker: TrackerTable, cache: NegativeCache.Cache)
    requires breaker.Valid()
    modifies breaker, cache
    ensures breaker.Valid()
    ensures breaker.View() == Restricted(old(breaker.View()), ItemIds(live))
    ensures cache.entries == NegativeCache.Pruned(old(cache.entries), ItemIds(live))
  {
    var liveIds: set<int> := {};
    for i := 0 to |live|
      invariant liveIds == ItemIds(live[..i])
    {
      assert live[..i + 1] == live[..i] + [live[i]];
      liveIds := liveIds + {live[i].itemId};
    }
    assert live[..|live|] == live;
    breaker.PruneMissing(liveIds);
    cache.PruneMissing(liveIds);
  }

  /** What the hook leaves: exactly the trackers and the negative entries of items that have a row. */
  lemma {:induction false} HookKeepsStoredItems(
      live: seq<ItemDir>, rows: Rows, trackers: Trackers, entries: NegativeCache.Entries,
      item: int, source: Source, file: int)
    requires IsListing(live, rows) && IsInt64(item)
    ensures var left, kept := Restricted(trackers, ItemIds(live)), NegativeCache.Pruned(entries, ItemIds(live));
      var key := CdnCacheKey(source, item, file);
      && (item in left <==> item in trackers && item in StoredIds(rows))
      && (item in left ==> left[item] == trackers[item])
      && (key in kept <==> key in entries && item in StoredIds(rows))
      && (key in kept ==> kept[key] == entries[key])
  {
    ListingIds(live, rows);
    NegativeCache.PruneByItem(entries, ItemIds(live), source, item, file);
    hide NegativeCache.Pruned, CdnCacheKey, ItemIds, StoredIds;
  }

  /** However a cycle went, it costs no item of a source whose fetch failed its quarantine or its cached failures. */
  lemma {:induction false} FailedFetchForgetsNothing(
      before: Table, torrents: Fetch, usenet: Fetch, answers: Answers, gone: set<int>, after: Table,
      live: seq<ItemDir>, trackers: Trackers, entries: NegativeCache.Entries, id: int)
    requires Inv(before) && CycleEnds(before, torrents, usenet, answers, gone, after) && IsListing(live, after.rows)
    requires id in before.rows && before.rows[id].rec.key.source !in FetchedSources(torrents, usenet)
    requires IsInt64(before.rows[id].rec.key.itemId)
    ensures var k := before.rows[id].rec.key; var key := CdnCacheKey(k.source, k.itemId, k.fileId);
      var left, kept := Restricted(trackers, ItemIds(live)), NegativeCache.Pruned(entries, ItemIds(live));
      && (k.itemId in trackers ==> k.itemId in left && left[k.itemId] == trackers[k.itemId])
      && (key in entries ==> key in kept && kept[key] == entries[key])
  {
    var k := before.rows[id].rec.key;
    RemovedItemsWereFetched(before, torrents, usenet, answers, gone, after);
    hide CycleEnds, Inv, NegativeCache.Pruned, CdnCacheKey, ItemIds, FetchedSources;
    var item := ItemKey(k.itemId, k.source);
    assert item in Items(before.rows);
    assert item in Items(after.rows) by {
      assert item !in Items(before.rows) - Items(after.rows);
    }
    assert k.itemId in StoredIds(after.rows);
    HookKeepsStoredItems(live, after.rows, trackers, entries, k.itemId, k.source, k.fileId);
  }
}
