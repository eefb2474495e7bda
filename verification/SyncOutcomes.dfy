/** What one sync cycle makes of the table, given what was fetched and what its statements met. */
module SyncOutcomes {
  import opened CacheKeys
  import opened Records
  import opened FileTable
  import opened RemoteItems
  import opened SyncCycles
  import opened ChangeHooks

  /** The records whose upsert succeeds, in order, when `upsert` says of each whether it does, counting from `first`. */
  function Kept(recs: seq<FileRecord>, upsert: nat -> bool, first: nat): seq<FileRecord> {
    if recs == [] then []
    else
      var n := |recs| - 1;
      Kept(recs[..n], upsert, first) + if upsert(first + n) then [recs[n]] else []
  }

  lemma {:induction false} KeptMembers(recs: seq<FileRecord>, upsert: nat -> bool, first: nat)
    ensures forall rec | rec in Kept(recs, upsert, first) :: rec in recs
    ensures (forall i: nat | first <= i < first + |recs| :: upsert(i)) ==> Kept(recs, upsert, first) == recs
  {
    if recs != [] {
      var n := |recs| - 1;
      KeptMembers(recs[..n], upsert, first);
      assert recs == recs[..n] + [recs[n]];
    }
  }

  lemma {:induction false} KeptSnoc(recs: seq<FileRecord>, rec: FileRecord, upsert: nat -> bool, first: nat)
    ensures Kept(recs + [rec], upsert, first)
         == Kept(recs, upsert, first) + if upsert(first + |recs|) then [rec] else []
  {
    assert (recs + [rec])[..|recs|] == recs;
  }

  lemma {:induction false} KeptNone(upsert: nat -> bool, first: nat)
    ensures Kept([], upsert, first) == []
  {
  }

  lemma {:induction false} KeptAppend(recs: seq<FileRecord>, more: seq<FileRecord>, upsert: nat -> bool, first: nat)
    ensures Kept(recs + more, upsert, first) == Kept(recs, upsert, first) + Kept(more, upsert, first + |recs|)
  {
    hide Kept;
    if more == [] {
      assert recs + more == recs;
      KeptNone(upsert, first + |recs|);
    } else {
      var n := |more| - 1;
      var init, last := more[..n], if upsert(first + |recs| + n) then [more[n]] else [];
      KeptAppend(recs, init, upsert, first);
      KeptSnoc(recs + init, more[n], upsert, first);
      KeptSnoc(init, more[n], upsert, first + |recs|);
      assert recs + more == recs + init + [more[n]] && more == init + [more[n]];
      calc {
        Kept(recs + more, upsert, first);
        Kept(recs, upsert, first) + Kept(init, upsert, first + |recs|) + last;
        Kept(recs, upsert, first) + (Kept(init, upsert, first + |recs|) + last);
        Kept(recs, upsert, first) + Kept(more, upsert, first + |recs|);
      }
    }
  }

  lemma {:induction false} UpsertAllAppend(t: Table, recs: seq<FileRecord>, more: seq<FileRecord>, tag: int)
    ensures UpsertAll(t, recs + more, tag) == UpsertAll(UpsertAll(t, recs, tag), more, tag)
  {
    if more == [] {
      assert recs + more == recs;
    } else {
      var n := |more| - 1;
      UpsertAllAppend(t, recs, more[..n], tag);
      UpsertAllSnoc(t, recs + more[..n], more[n], tag);
      assert recs + more == recs + more[..n] + [more[n]];
    }
  }

  /** The table after the upserts of `recs` that succeed. */
  ghost function WrittenTo(t: Table, recs: seq<FileRecord>, upsert: nat -> bool, first: nat, tag: int): Table {
    UpsertAll(t, Kept(recs, upsert, first), tag)
  }

  lemma {:induction false} WriteNext(
      t: Table, recs: seq<FileRecord>, rec: FileRecord, upsert: nat -> bool, first: nat, tag: int)
    ensures var ok, before := upsert(first + |recs|), WrittenTo(t, recs, upsert, first, tag);
      && |Kept(recs + [rec], upsert, first)| == |Kept(recs, upsert, first)| + (if ok then 1 else 0)
      && WrittenTo(t, recs + [rec], upsert, first, tag) == if ok then Upserted(before, rec, tag) else before
  {
    KeptSnoc(recs, rec, upsert, first);
    UpsertAllSnoc(t, Kept(recs, upsert, first), rec, tag);
    assert Kept(recs, upsert, first) + [] == Kept(recs, upsert, first);
    hide Kept, UpsertAll, Upserted;
  }

  lemma {:induction false} WriteMore(
      t: Table, recs: seq<FileRecord>, more: seq<FileRecord>, upsert: nat -> bool, first: nat, tag: int)
    ensures WrittenTo(t, recs + more, upsert, first, tag)
         == WrittenTo(WrittenTo(t, recs, upsert, first, tag), more, upsert, first + |recs|, tag)
    ensures |Kept(recs + more, upsert, first)| == |Kept(recs, upsert, first)| + |Kept(more, upsert, first + |recs|)|
  {
    KeptAppend(recs, more, upsert, first);
    UpsertAllAppend(t, Kept(recs, upsert, first), Kept(more, upsert, first + |recs|), tag);
    hide Kept, UpsertAll;
  }

  lemma {:induction false} WriteNothing(t: Table, upsert: nat -> bool, first: nat, tag: int)
    ensures WrittenTo(t, [], upsert, first, tag) == t && Kept([], upsert, first) == []
  {
  }

  // ---------------------------------------------------------------- a cycle's input and outcome

  /** What the statements of one cycle meet, in the order in which it executes them. */
  datatype Answers = Answers(snapshot: ListAnswer, tag: TagAnswer, upsert: nat -> bool,
                             pruneTorrents: nat -> BatchAnswer, pruneUsenet: nat -> BatchAnswer,
                             relisting: ListAnswer, live: ListAnswer)

  /** Whether all prunes of the fetched sources succeed on `rows`. */
  predicate PrunesSucceed(rows: Rows, torrents: Fetch, usenet: Fetch, tag: int, answers: Answers) {
    && (torrents.Fetched? ==> PruneSucceeds(|Stale(rows, Torrent, tag)|, answers.pruneTorrents, 0))
    && (usenet.Fetched? ==> PruneSucceeds(|Stale(rows, Usenet, tag)|, answers.pruneUsenet, 0))
  }

  /** How many rows they delete. */
  function DeletedIn(rows: Rows, torrents: Fetch, usenet: Fetch, tag: int, answers: Answers): nat {
    (if torrents.Fetched? then Deleted(|Stale(rows, Torrent, tag)|, answers.pruneTorrents, 0) else 0) +
    (if usenet.Fetched? then Deleted(|Stale(rows, Usenet, tag)|, answers.pruneUsenet, 0) else 0)
  }

  function FetchedSources(torrents: Fetch, usenet: Fetch): set<Source> {
    (if torrents.Fetched? then {Torrent} else {}) + (if usenet.Fetched? then {Usenet} else {})
  }

  function CycleRecords(torrents: Fetch, usenet: Fetch): seq<FileRecord> {
    FetchRecords(Torrent, torrents) + FetchRecords(Usenet, usenet)
  }

  lemma {:induction false} ListRecordsSource(source: Source, items: seq<RemoteItem>)
    ensures forall rec | rec in ListRecords(source, items) :: rec.key.source == source
  {
    if items != [] {
      ListRecordsSource(source, items[..|items| - 1]);
    }
  }

  /** No record of a source whose fetch failed is written. */
  lemma {:induction false} CycleRecordsAreFetched(torrents: Fetch, usenet: Fetch)
    ensures forall rec | rec in CycleRecords(torrents, usenet) :: rec.key.source in FetchedSources(torrents, usenet)
  {
    if torrents.Fetched? {
      ListRecordsSource(Torrent, torrents.items);
    }
    if usenet.Fetched? {
      ListRecordsSource(Usenet, usenet.items);
    }
  }

  /** The records that a cycle gets written. */
  function WrittenRecords(torrents: Fetch, usenet: Fetch, answers: Answers): seq<FileRecord> {
    Kept(CycleRecords(torrents, usenet), answers.upsert, 0)
  }

  /** The table between writing and pruning. */
  ghost function MarkedBy(before: Table, torrents: Fetch, usenet: Fetch, answers: Answers): Table {
    Marked(before, WrittenRecords(torrents, usenet, answers))
  }

  /**
   * `gone` are the rows that the prunes delete: as many as the database's answers say, of those that may go, and all of
   * them if every batch is done. With them the answers determine the table after the cycle.
   */
  ghost predicate CycleEnds(
      before: Table, torrents: Fetch, usenet: Fetch, answers: Answers, gone: set<int>, after: Table) {
    var written, fetched := WrittenRecords(torrents, usenet, answers), FetchedSources(torrents, usenet);
    var marked, tag := MarkedBy(before, torrents, usenet, answers), before.counter + 1;
    && gone <= Sweepable(before, written, fetched)
    && |gone| == DeletedIn(marked.rows, torrents, usenet, tag, answers)
    && (PrunesSucceed(marked.rows, torrents, usenet, tag, answers) ==> gone == Sweepable(before, written, fetched))
    && after == Cycled(before, written, gone)
  }

  /** No statement of the cycle fails: not an upsert, and not a batch of a prune. */
  ghost predicate AllSucceed(before: Table, torrents: Fetch, usenet: Fetch, answers: Answers) {
    && (forall i: nat | i < |CycleRecords(torrents, usenet)| :: answers.upsert(i))
    && PrunesSucceed(MarkedBy(before, torrents, usenet, answers).rows, torrents, usenet, before.counter + 1, answers)
  }

  /** With no failure at all, each source either holds exactly its fetched list or, unfetched, is as it was. */
  lemma {:induction false} SyncExact(before: Table, torrents: Fetch, usenet: Fetch, answers: Answers, gone: set<int>,
                                     after: Table, source: Source)
    requires Inv(before) && CycleEnds(before, torrents, usenet, answers, gone, after)
    requires AllSucceed(before, torrents, usenet, answers)
    ensures Inv(after)
    ensures if source in FetchedSources(torrents, usenet)
            then HoldsExactly(after.rows, source, CycleRecords(torrents, usenet))
            else RowsOf(after.rows, source) == RowsOf(before.rows, source)
  {
    CycleRecordsAreFetched(torrents, usenet);
    KeptMembers(CycleRecords(torrents, usenet), answers.upsert, 0);
    hide Kept, CycleRecords, HoldsExactly, RowsOf, Cycled, Sweepable, FetchedSources, Inv, MarkedBy, PrunesSucceed,
         DeletedIn;
    CycleExact(before, CycleRecords(torrents, usenet), FetchedSources(torrents, usenet), source);
    CycleEffect(before, CycleRecords(torrents, usenet), FetchedSources(torrents, usenet), gone);
  }

  /**
   * When the prunes succeed, a row survives the cycle if and only if its key was written. So a listed file
   * whose upsert fails loses the row it had.
   */
  lemma {:induction false} RowSurvivesIffWritten(
      before: Table, torrents: Fetch, usenet: Fetch, answers: Answers, gone: set<int>, after: Table, id: int)
    requires Inv(before) && CycleEnds(before, torrents, usenet, answers, gone, after)
    requires var marked := MarkedBy(before, torrents, usenet, answers).rows;
      PrunesSucceed(marked, torrents, usenet, before.counter + 1, answers)
    requires id in before.rows && before.rows[id].rec.key.source in FetchedSources(torrents, usenet)
    ensures id in after.rows <==> LastRecord(WrittenRecords(torrents, usenet, answers), before.rows[id].rec.key).Some?
  {
    var written, fetched := WrittenRecords(torrents, usenet, answers), FetchedSources(torrents, usenet);
    SweepableExactly(before, written, fetched);
    CycleEffect(before, written, fetched, gone);
    hide LastRecord, WrittenRecords, FetchedSources, Inv, MarkedBy, Marked, Sweepable, OnlyInserted, PrunesSucceed,
         DeletedIn;
  }

  /** Whatever fails, only an item of a source whose fetch succeeded ever leaves the store. */
  lemma {:induction false} RemovedItemsWereFetched(
      before: Table, torrents: Fetch, usenet: Fetch, answers: Answers, gone: set<int>, after: Table)
    requires Inv(before) && CycleEnds(before, torrents, usenet, answers, gone, after)
    ensures forall item | item in Items(before.rows) - Items(after.rows) ::
      item.source in FetchedSources(torrents, usenet)
  {
    CycleEffect(before, WrittenRecords(torrents, usenet, answers), FetchedSources(torrents, usenet), gone);
    hide WrittenRecords, Cycled, Sweepable, FetchedSources, Inv, LastRecord, OnlyInserted, MarkedBy, PrunesSucceed,
         DeletedIn;
    forall item | item in Items(before.rows) && item.source !in FetchedSources(torrents, usenet)
      ensures item in Items(after.rows) {
      var id :| id in before.rows && ItemKey(before.rows[id].rec.key.itemId, before.rows[id].rec.key.source) == item;
      assert id in after.rows && after.rows[id].rec.key == before.rows[id].rec.key;
    }
  }

  /** So, whatever the first listing named, no hook names an item of a source whose fetch failed as removed. */
  lemma {:induction false} ReportedGoneWereFetched(
      before: Table, torrents: Fetch, usenet: Fetch, answers: Answers, gone: set<int>, after: Table,
      known: set<ItemKey>, relisted: bool, went: seq<ItemKey>)
    requires Inv(before) && CycleEnds(before, torrents, usenet, answers, gone, after)
    requires known <= Items(before.rows) && Elements(went) == ReportedRemoved(known, Items(after.rows), relisted)
    ensures forall item | item in went :: item.source in FetchedSources(torrents, usenet)
  {
    hide Inv, CycleEnds, Items, FetchedSources;
    RemovedItemsWereFetched(before, torrents, usenet, answers, gone, after);
    forall item | item in went ensures item.source in FetchedSources(torrents, usenet) {
      assert item in Elements(went);
    }
  }

  // ---------------------------------------------------------------- assembling a cycle

  lemma {:induction false} WritesAssembled(before: Table, torrents: Fetch, usenet: Fetch, answers: Answers)
    ensures var tag := before.counter + 1;
      var recs, more := FetchRecords(Torrent, torrents), FetchRecords(Usenet, usenet);
      var marked := WrittenTo(Reserved(before), recs, answers.upsert, 0, tag);
      && MarkedBy(before, torrents, usenet, answers) == WrittenTo(marked, more, answers.upsert, |recs|, tag)
      && |WrittenRecords(torrents, usenet, answers)|
         == |Kept(recs, answers.upsert, 0)| + |Kept(more, answers.upsert, |recs|)|
  {
    var recs, more := FetchRecords(Torrent, torrents), FetchRecords(Usenet, usenet);
    WriteMore(Reserved(before), recs, more, answers.upsert, 0, before.counter + 1);
    assert MarkedBy(before, torrents, usenet, answers)
        == WrittenTo(Reserved(before), recs + more, answers.upsert, 0, before.counter + 1);
    hide FetchRecords, WrittenTo, Kept, Reserved, Marked;
  }

  lemma {:induction false} CycleAssembled(
      before: Table, torrents: Fetch, usenet: Fetch, answers: Answers, gone: set<int>, pruned: bool)
    requires var marked := MarkedBy(before, torrents, usenet, answers).rows; var tag := before.counter + 1;
      var stale := StaleIn(marked, FetchedSources(torrents, usenet), tag);
      && gone <= stale && (pruned ==> gone == stale)
      && pruned == PrunesSucceed(marked, torrents, usenet, tag, answers)
      && |gone| == DeletedIn(marked, torrents, usenet, tag, answers)
    ensures CycleEnds(before, torrents, usenet, answers, gone,
                      WithoutRows(MarkedBy(before, torrents, usenet, answers), gone))
  {
    hide Marked, StaleIn, WrittenRecords, FetchedSources, WithoutRows, PrunesSucceed, DeletedIn;
  }
}
