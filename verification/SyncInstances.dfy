/** Cycles that fall short of what one might expect of them, each at a concrete table. */
module SyncInstances {
  import opened Wrappers
  import opened CacheKeys
  import opened Records
  import opened FileTable
  import opened RemoteItems
  import opened SyncCycles
  import opened ChangeHooks
  import opened SyncOutcomes

  /** A table whose only row, under tag 1, is row 1. */
  function OneRow(rec: FileRecord): Table {
    Table(map[1 := Row(rec, "", None, 1)], 1, 2)
  }

  /** The table after a cycle that deletes it. */
  const EMPTIED := Table(map[], 2, 2)

  ghost predicate PrunesDone(answers: Answers) {
    forall k: nat :: answers.pruneTorrents(k).Done? && answers.pruneUsenet(k).Done?
  }

  lemma {:induction false} OneRowGoes(rec: FileRecord, torrents: Fetch, usenet: Fetch, answers: Answers)
    requires rec.key.source == Torrent && torrents.Fetched? && PrunesDone(answers)
    requires WrittenRecords(torrents, usenet, answers) == []
    ensures Inv(OneRow(rec)) && CycleEnds(OneRow(rec), torrents, usenet, answers, {1}, EMPTIED)
  {
    var before := OneRow(rec);
    var marked := MarkedBy(before, torrents, usenet, answers);
    assert marked == Reserved(before);
    hide WrittenRecords, MarkedBy;
    assert Stale(marked.rows, Torrent, 2) == {1} && Stale(marked.rows, Usenet, 2) == {};
    assert Sweepable(before, [], FetchedSources(torrents, usenet)) == {1};
    assert Deleted(1, answers.pruneTorrents, 0) == 1 && Deleted(0, answers.pruneUsenet, 0) == 0;
    assert marked.rows - {1} == map[];
    hide PruneSucceeds, Deleted, Stale;
  }

  /** A file that the API still lists loses its row when its upsert fails. */
  lemma {:induction false} ListedFileLosesRow(item: RemoteItem, f: RemoteFile, usenet: Fetch, answers: Answers)
    requires Eligible(item) && item.files == [f] && usenet.FetchFailed? && PrunesDone(answers) && !answers.upsert(0)
    ensures var rec, torrents := RecordOf(Torrent, item.id, item.createdAt, f), Fetched([item]);
      && rec in CycleRecords(torrents, usenet)
      && 1 in OneRow(rec).rows && Inv(OneRow(rec))
      && CycleEnds(OneRow(rec), torrents, usenet, answers, {1}, EMPTIED)
  {
    var rec, torrents := RecordOf(Torrent, item.id, item.createdAt, f), Fetched([item]);
    assert [item][..0] == [] && ListRecords(Torrent, [item]) == [] + FileRecords(Torrent, item);
    assert FileRecords(Torrent, item) == [rec];
    assert CycleRecords(torrents, usenet) == [rec];
    assert Kept([rec], answers.upsert, 0) == Kept([], answers.upsert, 0) + [];
    hide RecordOf;
    OneRowGoes(rec, torrents, usenet, answers);
  }

  /** The last item leaves the store, both listings are complete, and no hook hears of it. */
  lemma {:induction false} LastItemUnreported(rec: FileRecord, answers: Answers)
    requires rec.key.source == Torrent && PrunesDone(answers)
    ensures var before, item := OneRow(rec), ItemKey(rec.key.itemId, Torrent);
      && Inv(before) && CycleEnds(before, Fetched([]), Fetched([]), answers, {1}, EMPTIED)
      && item in Items(before.rows) - Items(EMPTIED.rows)
      && ReportedRemoved(Items(before.rows), Items(EMPTIED.rows), true) == {}
  {
    assert CycleRecords(Fetched([]), Fetched([])) == [];
    OneRowGoes(rec, Fetched([]), Fetched([]), answers);
    assert 1 in OneRow(rec).rows && OneRow(rec).rows[1].rec == rec;
    hide CycleEnds;
  }

  /**
   * Two items, and a cycle in which nothing can be fetched and nothing changes. The first listing breaks off after one
   * row, and the hook is told that the other item was added.
   */
  lemma {:induction false} CutShortListingMisreports(first: FileRecord, second: FileRecord, answers: Answers)
    requires first.key.source == second.key.source == Torrent && first.key.itemId != second.key.itemId
    ensures var row1, row2 := Row(first, "", None, 1), Row(second, "", None, 1);
      var before, after := Table(map[1 := row1, 2 := row2], 1, 3), Table(map[1 := row1, 2 := row2], 2, 3);
      var one, other := ItemKey(first.key.itemId, Torrent), ItemKey(second.key.itemId, Torrent);
      && Inv(before) && CycleEnds(before, FetchFailed(""), FetchFailed(""), answers, {}, after)
      && Items(before.rows) == Items(after.rows) == {one, other}
      && IsListing([DirOfRow(row1), DirOfRow(row2)], before.rows) && KeysOf([DirOfRow(row1)]) == {one}
      && Snapshot(CutShort(1), Items(before.rows), {one})
      && ReportedAdded({one}, Items(after.rows), true) == {other}
  {
    var row1, row2 := Row(first, "", None, 1), Row(second, "", None, 1);
    var before := Table(map[1 := row1, 2 := row2], 1, 3);
    var fetch := FetchFailed("");
    assert CycleRecords(fetch, fetch) == [];
    assert MarkedBy(before, fetch, fetch, answers) == Reserved(before);
    assert before.rows - {} == before.rows;
    TwoRows(row1, row2);
    hide DirOfRow, IsListing, Stale, PruneSucceeds, Deleted;
  }

  lemma {:induction false} TwoRows(row1: Row, row2: Row)
    ensures var rows := map[1 := row1, 2 := row2];
      && Items(rows) == {ItemKey(row1.rec.key.itemId, row1.rec.key.source),
                         ItemKey(row2.rec.key.itemId, row2.rec.key.source)}
      && IsListing([DirOfRow(row1), DirOfRow(row2)], rows)
      && KeysOf([DirOfRow(row1)]) == {ItemKey(row1.rec.key.itemId, row1.rec.key.source)}
  {
    var rows := map[1 := row1, 2 := row2];
    assert rows[1] == row1 && rows[2] == row2;
    assert 1 in rows && 2 in rows;
    var d := DirOfRow(row1);
    assert d in [d] && KeysOf([d]) == {KeyOf(d)};
    hide ExtractDirectory;
  }
}
