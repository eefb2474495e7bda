/** The sync worker: one cycle, from the snapshot for the change hooks to the sync-done hook. */
module SyncWorker {
  import opened Wrappers
  import opened CacheKeys
  import opened Records
  import opened FileTable
  import opened RemoteItems
  import opened SyncCycles
  import opened ChangeHooks
  import opened SyncOutcomes

  datatype Outcome =
    | Skipped
    | NoTag
    | Finished(count: nat, added: seq<string>, removed: seq<string>, live: Option<seq<ItemDir>>)

  ghost predicate HasDir(rows: Rows, item: ItemKey, dir: string) {
    exists id | id in rows :: DirOfRow(rows[id]) == ItemDir(item.itemId, item.source, dir)
  }

  /** What a change hook was told about `items`: a directory that each has in `rows`. */
  ghost predicate Tells(report: seq<string>, items: seq<ItemKey>, called: bool, rows: Rows) {
    && (!called ==> report == [])
    && (called ==>
          |report| == |items| && forall i | 0 <= i < |items| :: HasDir(rows, items[i], report[i]))
  }

  lemma {:induction false} ReportsTell(
      report: seq<string>, items: seq<ItemKey>, listing: seq<ItemDir>, all: seq<ItemDir>, rows: Rows,
      missing: set<ItemKey>)
    requires listing <= all && IsListing(all, rows) && Reports(report, items, DirsByItem(listing), missing)
    ensures Tells(report, items, true, rows) && Elements(items) == missing
  {
    DirsByItemKeys(listing);
    hide DirsByItem;
    forall i | 0 <= i < |items| ensures HasDir(rows, items[i], report[i]) {
      var d := ItemDir(items[i].itemId, items[i].source, DirsByItem(listing)[items[i]]);
      assert d in listing && d in all;
    }
  }

  /** A prune of one source leaves the other's stale rows. */
  lemma {:induction false} OtherStaysStale(t: Table, gone: set<int>, tag: int)
    requires gone <= Stale(t.rows, Torrent, tag)
    ensures Stale(WithoutRows(t, gone).rows, Usenet, tag) == Stale(t.rows, Usenet, tag)
  {
    forall id ensures id in Stale(t.rows - gone, Usenet, tag) <==> id in Stale(t.rows, Usenet, tag) {
      assert id in gone ==> IsStale(t.rows[id], Torrent, tag);
    }
  }

  lemma {:induction false} DisjointPrunes(t: Table, torrentsGone: set<int>, usenetGone: set<int>, tag: int)
    requires torrentsGone <= Stale(t.rows, Torrent, tag) && usenetGone <= Stale(t.rows, Usenet, tag)
    ensures WithoutRows(WithoutRows(t, torrentsGone), usenetGone) == WithoutRows(t, torrentsGone + usenetGone)
    ensures |torrentsGone + usenetGone| == |torrentsGone| + |usenetGone|
  {
    assert t.rows - torrentsGone - usenetGone == t.rows - (torrentsGone + usenetGone);
    assert forall id | id in torrentsGone :: id in t.rows && t.rows[id].rec.key.source == Torrent;
    assert forall id | id in usenetGone :: id in t.rows && t.rows[id].rec.key.source == Usenet;
    assert torrentsGone !! usenetGone;
  }

  lemma {:induction false} FetchedStale(rows: Rows, torrents: Fetch, usenet: Fetch, tag: int)
    ensures StaleIn(rows, FetchedSources(torrents, usenet), tag)
         == (if torrents.Fetched? then Stale(rows, Torrent, tag) else {})
          + (if usenet.Fetched? then Stale(rows, Usenet, tag) else {})
  {
    hide Stale;
  }

  lemma {:induction false} ListRecordsNext(source: Source, items: seq<RemoteItem>, i: nat)
    requires i < |items|
    ensures ListRecords(source, items[..i + 1]) == ListRecords(source, items[..i]) + ItemRecords(source, items[i])
  {
    assert items[..i + 1][..i] == items[..i];
    hide ItemRecords;
  }

  lemma {:induction false} DeleteNothing(t: Table)
    ensures WithoutRows(t, {}) == t
  {
    assert t.rows - {} == t.rows;
  }

  /** Whatever the first listing named, or if there was none, was in the table. */
  lemma {:induction false} NamedWereThere(
      oldItems: seq<ItemDir>, known: set<ItemKey>, hooked: bool, answer: ListAnswer, rows: Rows)
    requires known == KeysOf(oldItems) && if hooked then Snapshot(answer, Items(rows), known) else oldItems == []
    ensures known <= Items(rows)
  {
  }

  class Worker {
    const store: Store
    const onItemsAdded: bool
    const onItemsRemoved: bool
    const onSyncDone: bool
    var syncing: bool
    var lastError: Option<string>
    var lastSuccess: int

    constructor (store: Store, onItemsAdded: bool, onItemsRemoved: bool, onSyncDone: bool)
      ensures this.store == store && !syncing && lastError == None && lastSuccess == 0
      ensures this.onItemsAdded == onItemsAdded && this.onItemsRemoved == onItemsRemoved
      ensures this.onSyncDone == onSyncDone
    {
      this.store := store;
      this.onItemsAdded, this.onItemsRemoved, this.onSyncDone := onItemsAdded, onItemsRemoved, onSyncDone;
      syncing, lastError, lastSuccess := false, None, 0;
    }

    /** The upsert of one file; `n` upserts of the cycle came before the first of `recs` or are of `recs`. */
    method UpsertOne(source: Source, item: RemoteItem, f: RemoteFile, tag: int, upsert: nat -> bool, n: nat,
                     ghost start: Table, ghost recs: seq<FileRecord>, ghost first: nat)
      returns (ok: bool)
      requires Inv(store.View()) && 0 <= tag <= store.counter && n == first + |recs|
      requires store.View() == WrittenTo(start, recs, upsert, first, tag)
      modifies store
      ensures Inv(store.View()) && store.counter == old(store.counter) && ok == upsert(n)
      ensures var longer := recs + [RecordOf(source, item.id, item.createdAt, f)];
        && store.View() == WrittenTo(start, longer, upsert, first, tag)
        && |Kept(longer, upsert, first)| == |Kept(recs, upsert, first)| + if ok then 1 else 0
    {
      hide Inv, Kept, WrittenTo, RecordOf;
      var rec := BuildFileRecord(item.id, f, source, item.createdAt);
      ok := store.UpsertFile(rec, tag, upsert(n));
      WriteNext(start, recs, rec, upsert, first, tag);
    }

    method UpsertFiles(source: Source, item: RemoteItem, tag: int, upsert: nat -> bool, first: nat) returns (count: nat)
      requires Inv(store.View()) && 0 <= tag <= store.counter
      modifies store
      ensures Inv(store.View()) && store.counter == old(store.counter)
      ensures store.View() == WrittenTo(old(store.View()), FileRecords(source, item), upsert, first, tag)
      ensures count == |Kept(FileRecords(source, item), upsert, first)|
    {
      ghost var start, all := store.View(), FileRecords(source, item);
      ghost var recs := all[..0];
      count := 0;
      WriteNothing(start, upsert, first, tag);
      hide Inv, WrittenTo, RecordOf, Kept, FileRecords;
      for j := 0 to |item.files|
        invariant recs == all[..j] && count == |Kept(recs, upsert, first)|
        invariant Inv(store.View()) && store.counter == old(store.counter)
        invariant store.View() == WrittenTo(start, recs, upsert, first, tag)
      {
        var ok := UpsertOne(source, item, item.files[j], tag, upsert, first + j, start, recs, first);
        assert all[..j + 1] == recs + [RecordOf(source, item.id, item.createdAt, item.files[j])];
        recs := all[..j + 1];
        if ok {
          count := count + 1;
        }
      }
      assert recs == all;
    }

    /** The upserts of one item, none if it is not eligible or has no files; `recs` were tried before it. */
    method UpsertItem(source: Source, item: RemoteItem, tag: int, upsert: nat -> bool, n: nat,
                      ghost start: Table, ghost recs: seq<FileRecord>, ghost first: nat)
      returns (count: nat, tried: nat)
      requires Inv(store.View()) && 0 <= tag <= store.counter && n == first + |recs|
      requires store.View() == WrittenTo(start, recs, upsert, first, tag)
      modifies store
      ensures Inv(store.View()) && store.counter == old(store.counter) && tried == |ItemRecords(source, item)|
      ensures var longer := recs + ItemRecords(source, item);
        && store.View() == WrittenTo(start, longer, upsert, first, tag)
        && |Kept(longer, upsert, first)| == |Kept(recs, upsert, first)| + count
    {
      count, tried := 0, 0;
      hide Inv, RecordOf, Kept, WrittenTo;
      if !Eligible(item) || item.files == [] {
        assert recs + ItemRecords(source, item) == recs;
        return;
      }
      count := UpsertFiles(source, item, tag, upsert, n);
      tried := |item.files|;
      WriteMore(start, recs, FileRecords(source, item), upsert, first, tag);
    }

    /** The upserts of a list; `tried` of them are executed, the first of them the `first`-th of the cycle. */
    method UpsertItems(source: Source, items: seq<RemoteItem>, tag: int, upsert: nat -> bool, first: nat)
      returns (count: nat, tried: nat)
      requires Inv(store.View()) && 0 <= tag <= store.counter
      modifies store
      ensures Inv(store.View()) && store.counter == old(store.counter)
      ensures store.View() == WrittenTo(old(store.View()), ListRecords(source, items), upsert, first, tag)
      ensures count == |Kept(ListRecords(source, items), upsert, first)| && tried == |ListRecords(source, items)|
    {
      count, tried := 0, 0;
      ghost var start, recs := store.View(), ListRecords(source, items[..0]);
      WriteNothing(start, upsert, first, tag);
      assert recs == [];
      hide Inv, ItemRecords, ListRecords, Kept, WrittenTo;
      for i := 0 to |items|
        invariant recs == ListRecords(source, items[..i])
        invariant tried == |recs| && count == |Kept(recs, upsert, first)|
        invariant Inv(store.View()) && store.counter == old(store.counter)
        invariant store.View() == WrittenTo(start, recs, upsert, first, tag)
      {
        var n, m := UpsertItem(source, items[i], tag, upsert, first + tried, start, recs, first);
        ListRecordsNext(source, items, i);
        recs := ListRecords(source, items[..i + 1]);
        count, tried := count + n, tried + m;
      }
      assert items[..|items|] == items;
    }

    /** Torrents first, then usenet; a source whose fetch failed is left alone. */
    method PruneFetched(torrents: Fetch, usenet: Fetch, tag: int, answers: Answers)
      returns (ok: bool, ghost gone: set<int>)
      requires Inv(store.View()) && tag > 0
      modifies store
      ensures Inv(store.View())
      ensures store.View() == WithoutRows(old(store.View()), gone)
      ensures var stale := StaleIn(old(store.rows), FetchedSources(torrents, usenet), tag);
        gone <= stale && (ok ==> gone == stale)
      ensures ok == PrunesSucceed(old(store.rows), torrents, usenet, tag, answers)
      ensures |gone| == DeletedIn(old(store.rows), torrents, usenet, tag, answers)
    {
      ok, gone := true, {};
      ghost var before := store.View();
      ghost var torrentsGone, usenetGone := {}, {};
      DeleteNothing(before);
      hide Inv, IsStale, Stale, StaleIn, FetchedSources, WithoutRows, PruneSucceeds, Deleted, Reported;
      if torrents.Fetched? {
        var done, total;
        done, total, torrentsGone := store.PruneBySyncTag(tag, Torrent, answers.pruneTorrents);
        ok := done;
        OtherStaysStale(before, torrentsGone, tag);
      }
      DeleteNothing(store.View());
      if usenet.Fetched? {
        var done, total;
        done, total, usenetGone := store.PruneBySyncTag(tag, Usenet, answers.pruneUsenet);
        ok := ok && done;
      }
      DisjointPrunes(before, torrentsGone, usenetGone, tag);
      FetchedStale(before.rows, torrents, usenet, tag);
      gone := torrentsGone + usenetGone;
    }

    /** The first listing, if a change hook is set. An error is only logged: what was listed before it counts as all. */
    method TakeSnapshot(answer: ListAnswer)
      returns (oldItems: seq<ItemDir>, ghost all: seq<ItemDir>, ghost known: set<ItemKey>)
      ensures known == KeysOf(oldItems)
      ensures if onItemsAdded || onItemsRemoved
              then
                && IsListing(all, store.rows) && (forall i, j | 0 <= i < j < |all| :: all[i] != all[j])
                && oldItems == all[..Listed(|all|, answer)] && Snapshot(answer, Items(store.rows), known)
              else oldItems == []
    {
      hide IsListing, Items, KeysOf;
      oldItems, all := [], [];
      if onItemsAdded || onItemsRemoved {
        var complete;
        complete, oldItems, all := store.ListItemDirs(answer);
        ListingItems(all, store.rows, |oldItems|);
        assert oldItems == all[..|oldItems|] && all[..|all|] == all;
      }
      known := KeysOf(oldItems);
    }

    /** The listing for the sync-done hook, if it is set; an incomplete one is not passed on. */
    method ListLive(answer: ListAnswer) returns (live: Option<seq<ItemDir>>)
      ensures live.Some? <==> onSyncDone && answer.Complete?
      ensures live.Some? ==> IsListing(live.value, store.rows)
    {
      live := None;
      if onSyncDone {
        hide IsListing;
        var listed, dirs;
        ghost var all;
        listed, dirs, all := store.ListItemDirs(answer);
        if listed {
          assert dirs == all;
          live := Some(dirs);
        }
      }
    }

    /**
     * The second listing and the hooks. `oldItems` is what the first listing yielded, part of the listing `all` of the
     * table `before`.
     */
    method ReportChanges(oldItems: seq<ItemDir>, answer: ListAnswer, ghost all: seq<ItemDir>, ghost before: Rows)
      returns (added: seq<string>, removed: seq<string>, ghost came: seq<ItemKey>, ghost went: seq<ItemKey>)
      requires if onItemsAdded || onItemsRemoved then IsListing(all, before) && oldItems <= all else oldItems == []
      ensures var known, now := KeysOf(oldItems), Items(store.rows);
        var relisted := answer.Complete? && (onItemsAdded || onItemsRemoved);
        && Elements(came) == ReportedAdded(known, now, relisted)
        && Elements(went) == ReportedRemoved(known, now, relisted)
      ensures Tells(added, came, onItemsAdded, store.rows) && Tells(removed, went, onItemsRemoved, before)
    {
      added, removed, came, went := [], [], [], [];
      hide DirsByItem, IsListing;
      if |oldItems| == 0 || (!onItemsAdded && !onItemsRemoved) {
        assert oldItems == [] ==> KeysOf(oldItems) == {};
        return;
      }
      assert oldItems == all[..|oldItems|];
      ListingItems(all, before, |oldItems|);
      var relisted, newItems;
      ghost var allNow;
      relisted, newItems, allNow := store.ListItemDirs(answer);
      ListingItems(allNow, store.rows, |allNow|);
      if !relisted || |newItems| == 0 {
        return;
      }
      assert newItems == allNow;
      added, removed, came, went := FireChangeHooks(oldItems, newItems);
      DirsByItemDomain(oldItems);
      DirsByItemDomain(newItems);
      ReportsTell(added, came, newItems, allNow, store.rows, KeysOf(newItems) - KeysOf(oldItems));
      ReportsTell(removed, went, oldItems, all, before, KeysOf(oldItems) - KeysOf(newItems));
      if !onItemsAdded {
        added := [];
      }
      if !onItemsRemoved {
        removed := [];
      }
    }

    /** All upserts of a cycle. */
    method Mark(torrents: Fetch, usenet: Fetch, tag: int, answers: Answers, ghost before: Table) returns (count: nat)
      requires Inv(before) && store.View() == Reserved(before) && tag == before.counter + 1
      modifies store
      ensures Inv(store.View())
      ensures store.View() == MarkedBy(before, torrents, usenet, answers)
      ensures count == |WrittenRecords(torrents, usenet, answers)|
    {
      assert Inv(store.View()) && 0 <= tag <= store.counter;
      assert ListRecords(Torrent, []) == [] == ListRecords(Usenet, []);
      hide Inv, ListRecords, Kept, WrittenTo, WrittenRecords, MarkedBy, Reserved;
      var items := if torrents.Fetched? then torrents.items else [];
      var tried, n, more;
      count, tried := UpsertItems(Torrent, items, tag, answers.upsert, 0);
      items := if usenet.Fetched? then usenet.items else [];
      n, more := UpsertItems(Usenet, items, tag, answers.upsert, tried);
      WritesAssembled(before, torrents, usenet, answers);
      count := count + n;
    }

    /** Everything between reserving the tag and the hooks. */
    method MarkAndSweep(torrents: Fetch, usenet: Fetch, tag: int, answers: Answers, now: int, ghost before: Table)
      returns (count: nat, ghost gone: set<int>)
      requires Inv(before) && store.View() == Reserved(before) && tag == before.counter + 1
      modifies store, this`lastError, this`lastSuccess
      ensures Inv(store.View())
      ensures CycleEnds(before, torrents, usenet, answers, gone, store.View())
      ensures count == |WrittenRecords(torrents, usenet, answers)|
      ensures lastError == (if torrents.FetchFailed? then Some(torrents.error)
                            else if usenet.FetchFailed? then Some(usenet.error) else None)
      ensures lastSuccess == if lastError == None then now else old(lastSuccess)
    {
      assert tag > 0;
      hide Inv, Reserved, MarkedBy, WrittenRecords, FetchedSources, StaleIn, CycleEnds, WithoutRows, PrunesSucceed,
           DeletedIn;
      count := Mark(torrents, usenet, tag, answers, before);
      var error := if torrents.FetchFailed? then Some(torrents.error)
                   else if usenet.FetchFailed? then Some(usenet.error) else None;
      lastError := error;
      if error == None {
        lastSuccess := now;
      }
      var pruned;
      pruned, gone := PruneFetched(torrents, usenet, tag, answers);
      CycleAssembled(before, torrents, usenet, answers, gone, pruned);
    }

    /**
     * `syncOnce`. A cycle already in progress makes this a no-op, and without a tag nothing is written. Otherwise the
     * table ends as `CycleEnds` says, the change hooks hear of the differences between what the first listing named
     * (`known`) and the items there are now, and the sync-done hook gets a complete listing of the table.
     */
    method SyncOnce(torrents: Fetch, usenet: Fetch, answers: Answers, now: int)
      returns (outcome: Outcome, ghost gone: set<int>,
               ghost known: set<ItemKey>, ghost came: seq<ItemKey>, ghost went: seq<ItemKey>)
      requires Inv(store.View())
      modifies this, store
      ensures Inv(store.View()) && syncing == old(syncing)
      ensures outcome.Skipped? <==> old(syncing)
      ensures outcome.Skipped? ==> store.View() == old(store.View())
      ensures outcome.NoTag? <==> !old(syncing) && !answers.tag.Issued?
      ensures outcome.NoTag? ==> store.rows == old(store.rows)
      ensures !outcome.Finished? ==> lastError == old(lastError) && lastSuccess == old(lastSuccess)
      ensures outcome.Finished? ==>
        && CycleEnds(old(store.View()), torrents, usenet, answers, gone, store.View())
        && outcome.count == |WrittenRecords(torrents, usenet, answers)|
        && lastError == (if torrents.FetchFailed? then Some(torrents.error)
                         else if usenet.FetchFailed? then Some(usenet.error) else None)
        && lastSuccess == (if lastError == None then now else old(lastSuccess))
      ensures outcome.Finished? && (onItemsAdded || onItemsRemoved) ==>
        Snapshot(answers.snapshot, Items(old(store.rows)), known)
      ensures outcome.Finished? ==>
        var present := Items(store.rows);
        var relisted := answers.relisting.Complete? && (onItemsAdded || onItemsRemoved);
        && Elements(came) == ReportedAdded(known, present, relisted)
        && Elements(went) == ReportedRemoved(known, present, relisted)
        && Tells(outcome.added, came, onItemsAdded, store.rows)
        && Tells(outcome.removed, went, onItemsRemoved, old(store.rows))
        && (forall item | item in went :: item.source in FetchedSources(torrents, usenet))
        && (outcome.live.Some? <==> onSyncDone && answers.live.Complete?)
        && (outcome.live.Some? ==> IsListing(outcome.live.value, store.rows))
    {
      gone, known, came, went := {}, {}, [], [];
      if syncing {
        return Skipped, gone, known, came, went;
      }
      syncing := true;
      hide Inv, CycleEnds, Tells, ReportedAdded, ReportedRemoved, Items, WrittenRecords, Elements, IsListing, KeysOf,
           FetchedSources;

      var oldItems;
      ghost var all;
      oldItems, all, known := TakeSnapshot(answers.snapshot);
      NamedWereThere(oldItems, known, onItemsAdded || onItemsRemoved, answers.snapshot, store.rows);

      var tag := store.GetNextSyncTag(answers.tag);
      if tag.None? {
        syncing := false;
        return NoTag, gone, known, came, went;
      }
      assert store.View() == Reserved(old(store.View()));
      hide Reserved;
      var count;
      count, gone := MarkAndSweep(torrents, usenet, tag.value, answers, now, old(store.View()));

      var added, removed;
      added, removed, came, went := ReportChanges(oldItems, answers.relisting, all, old(store.rows));
      ReportedGoneWereFetched(old(store.View()), torrents, usenet, answers, gone, store.View(), known,
                              answers.relisting.Complete? && (onItemsAdded || onItemsRemoved), went);
      var live := ListLive(answers.live);
      syncing := false;
      outcome := Finished(count, added, removed, live);
    }
  }
}
