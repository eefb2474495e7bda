/** One sync cycle as mark and sweep over the `files` table: what upserts under a fresh tag and pruning amount to. */
module SyncCycles {
  import opened Wrappers
  import opened CacheKeys
  import opened Records
  import opened FileTable

  /** The upserts of a cycle, in order. */
  ghost function UpsertAll(t: Table, recs: seq<FileRecord>, tag: int): Table {
    if recs == [] then t else Upserted(UpsertAll(t, recs[..|recs| - 1], tag), recs[|recs| - 1], tag)
  }

  lemma {:induction false} UpsertAllSnoc(t: Table, recs: seq<FileRecord>, rec: FileRecord, tag: int)
    ensures UpsertAll(t, recs + [rec], tag) == Upserted(UpsertAll(t, recs, tag), rec, tag)
  {
    assert (recs + [rec])[..|recs|] == recs;
  }

  /** The record that wins when a key is written more than once; None when it is not written at all. */
  function LastRecord(recs: seq<FileRecord>, key: Key): (r: Option<FileRecord>)
    ensures r.Some? ==> r.value.key == key && r.value in recs
    ensures r.None? <==> forall i | 0 <= i < |recs| :: recs[i].key != key
  {
    if recs == [] then None
    else if recs[|recs| - 1].key == key then Some(recs[|recs| - 1])
    else LastRecord(recs[..|recs| - 1], key)
  }

  /** The row that a cycle makes of `row`: a written one gets the last record and the tag, and keeps its id and URL. */
  function Refreshed(row: Row, recs: seq<FileRecord>, tag: int): Row {
    match LastRecord(recs, row.rec.key)
    case None => row
    case Some(rec) => row.(rec := rec, tag := tag)
  }

  /** A row that the cycle inserts: never seen before, without a URL, holding the last record of its key. */
  ghost predicate IsInserted(before: Table, id: int, row: Row, recs: seq<FileRecord>, tag: int) {
    && id >= before.nextId
    && LastRecord(recs, row.rec.key) == Some(row.rec)
    && row == Row(row.rec, "", None, tag)
    && !HasKey(before.rows, row.rec.key)
  }

  ghost predicate AllRefreshed(before: Table, after: Table, recs: seq<FileRecord>, tag: int) {
    forall id | id in before.rows :: id in after.rows && after.rows[id] == Refreshed(before.rows[id], recs, tag)
  }

  ghost predicate OnlyInserted(before: Table, after: Table, recs: seq<FileRecord>, tag: int) {
    forall id | id in after.rows && id !in before.rows :: IsInserted(before, id, after.rows[id], recs, tag)
  }

  /** `after` is `before` with `recs` written, row by row. */
  ghost predicate Written(before: Table, after: Table, recs: seq<FileRecord>, tag: int) {
    && AllRefreshed(before, after, recs, tag)
    && OnlyInserted(before, after, recs, tag)
    && (forall key | LastRecord(recs, key).Some? :: HasKey(after.rows, key))
    && after.counter == before.counter && after.nextId >= before.nextId
  }

  lemma {:induction false} LastRecordSnoc(recs: seq<FileRecord>, rec: FileRecord, key: Key)
    ensures LastRecord(recs + [rec], key) == if rec.key == key then Some(rec) else LastRecord(recs, key)
  {
    assert (recs + [rec])[..|recs|] == recs;
  }

  lemma {:induction false} UpsertWrites(t: Table, rec: FileRecord, tag: int)
    requires Inv(t)
    ensures var after := Upserted(t, rec, tag);
      && (forall id | id in t.rows ::
            id in after.rows
            && after.rows[id]
               == if t.rows[id].rec.key == rec.key then t.rows[id].(rec := rec, tag := tag) else t.rows[id])
      && (forall id | id in after.rows && id !in t.rows ::
            id == t.nextId && after.rows[id] == Row(rec, "", None, tag) && !HasKey(t.rows, rec.key))
      && HasKey(after.rows, rec.key)
      && after.counter == t.counter && t.nextId <= after.nextId
  {
    var after := Upserted(t, rec, tag);
    var id := if HasKey(t.rows, rec.key) then IdOf(t.rows, rec.key) else t.nextId;
    assert id in after.rows && after.rows[id].rec.key == rec.key;
  }

  lemma {:induction false} RefreshOneMore(before: Table, mid: Table, recs: seq<FileRecord>, rec: FileRecord, tag: int)
    requires Inv(mid) && AllRefreshed(before, mid, recs, tag)
    ensures AllRefreshed(before, Upserted(mid, rec, tag), recs + [rec], tag)
  {
    var after := Upserted(mid, rec, tag);
    UpsertWrites(mid, rec, tag);
    hide LastRecord, Upserted, Inv, HasKey;
    forall id | id in before.rows
      ensures id in after.rows && after.rows[id] == Refreshed(before.rows[id], recs + [rec], tag) {
      LastRecordSnoc(recs, rec, before.rows[id].rec.key);
    }
  }

  lemma {:induction false} InsertOneMore(before: Table, mid: Table, recs: seq<FileRecord>, rec: FileRecord, tag: int)
    requires Inv(mid) && Written(before, mid, recs, tag)
    ensures OnlyInserted(before, Upserted(mid, rec, tag), recs + [rec], tag)
  {
    var after := Upserted(mid, rec, tag);
    UpsertWrites(mid, rec, tag);
    KeysStay(before, mid);
    hide LastRecord, Upserted, Inv, HasKey;
    forall id | id in after.rows && id !in before.rows
      ensures IsInserted(before, id, after.rows[id], recs + [rec], tag) {
      LastRecordSnoc(recs, rec, after.rows[id].rec.key);
    }
  }

  lemma {:induction false} KeysStay(before: Table, after: Table)
    ensures (forall id | id in before.rows :: id in after.rows && after.rows[id].rec.key == before.rows[id].rec.key)
      ==> forall key | HasKey(before.rows, key) :: HasKey(after.rows, key)
  {
  }

  lemma {:induction false} WriteOneMore(before: Table, mid: Table, recs: seq<FileRecord>, rec: FileRecord, tag: int)
    requires Inv(mid) && Written(before, mid, recs, tag)
    ensures Written(before, Upserted(mid, rec, tag), recs + [rec], tag)
  {
    RefreshOneMore(before, mid, recs, rec, tag);
    InsertOneMore(before, mid, recs, rec, tag);
    UpsertWrites(mid, rec, tag);
    KeysStay(mid, Upserted(mid, rec, tag));
    hide AllRefreshed, OnlyInserted, LastRecord, Upserted, Inv, HasKey;
    forall key | LastRecord(recs + [rec], key).Some? ensures HasKey(Upserted(mid, rec, tag).rows, key) {
      LastRecordSnoc(recs, rec, key);
    }
  }

  lemma {:induction false} UpsertAllWrites(t: Table, recs: seq<FileRecord>, tag: int)
    requires Inv(t) && 0 <= tag <= t.counter
    ensures Inv(UpsertAll(t, recs, tag)) && Written(t, UpsertAll(t, recs, tag), recs, tag)
  {
    if recs != [] {
      var init, rec := recs[..|recs| - 1], recs[|recs| - 1];
      UpsertAllWrites(t, init, tag);
      hide Inv, Written, Upserted, LastRecord;
      UpsertedKeepsInv(UpsertAll(t, init, tag), rec, tag);
      WriteOneMore(t, UpsertAll(t, init, tag), recs[..|recs| - 1], rec, tag);
      assert init + [rec] == recs;
    }
  }

  // ---------------------------------------------------------------- the whole cycle

  function Reserved(t: Table): Table {
    t.(counter := t.counter + 1)
  }

  function StaleIn(rows: Rows, sources: set<Source>, tag: int): set<int> {
    (if Torrent in sources then Stale(rows, Torrent, tag) else {}) +
    (if Usenet in sources then Stale(rows, Usenet, tag) else {})
  }

  /** A cycle that wrote `written` under a fresh tag and deleted the rows `gone`. */
  ghost function Cycled(before: Table, written: seq<FileRecord>, gone: set<int>): Table {
    WithoutRows(Marked(before, written), gone)
  }

  /** What the cycle may delete: stale rows of the sources whose fetch succeeded. */
  ghost function Sweepable(before: Table, written: seq<FileRecord>, fetched: set<Source>): set<int> {
    StaleIn(Marked(before, written).rows, fetched, before.counter + 1)
  }

  /** The table between writing and sweeping. */
  ghost function Marked(before: Table, written: seq<FileRecord>): Table {
    UpsertAll(Reserved(before), written, before.counter + 1)
  }

  lemma {:induction false} MarkedWrites(before: Table, written: seq<FileRecord>)
    requires Inv(before)
    ensures var mid, tag := Marked(before, written), before.counter + 1;
      && Inv(mid) && mid.counter == tag && mid.nextId >= before.nextId
      && AllRefreshed(before, mid, written, tag)
      && OnlyInserted(before, mid, written, tag)
      && forall key | LastRecord(written, key).Some? :: HasKey(mid.rows, key)
  {
    var tag, mid := before.counter + 1, Marked(before, written);
    UpsertAllWrites(Reserved(before), written, tag);
    hide LastRecord, UpsertAll, HasKey, Refreshed, Upserted;
    forall id | id in mid.rows && id !in before.rows ensures IsInserted(before, id, mid.rows[id], written, tag) {
      assert IsInserted(Reserved(before), id, mid.rows[id], written, tag);
    }
  }

  lemma {:induction false} SweepableExactly(before: Table, written: seq<FileRecord>, fetched: set<Source>)
    requires Inv(before)
    ensures forall id :: id in Sweepable(before, written, fetched) <==>
      (id in before.rows && before.rows[id].rec.key.source in fetched
       && LastRecord(written, before.rows[id].rec.key).None?)
  {
    var tag, mid := before.counter + 1, Marked(before, written);
    MarkedWrites(before, written);
    assert Sweepable(before, written, fetched) == StaleIn(mid.rows, fetched, tag);
    hide LastRecord, Marked, Sweepable, HasKey, UpsertAll;
    forall id | id in mid.rows && id !in before.rows ensures mid.rows[id].tag == tag {
      assert IsInserted(before, id, mid.rows[id], written, tag);
    }
    hide IsInserted, OnlyInserted;
    forall id | id in before.rows
      ensures id in mid.rows && mid.rows[id].rec.key == before.rows[id].rec.key
           && (IsStale(mid.rows[id], mid.rows[id].rec.key.source, tag)
               <==> LastRecord(written, before.rows[id].rec.key).None?) {
      assert mid.rows[id] == Refreshed(before.rows[id], written, tag);
      assert before.rows[id].tag < tag;
    }
    hide IsStale, AllRefreshed, Refreshed, Inv;
  }

  /**
   * Whatever fails along the way: a row disappears only if its source's fetch succeeded and its key was not written,
   * every other row keeps its id and its cached URL, and what is new was written and never reuses an id.
   */
  lemma {:induction false} CycleEffect(
      before: Table, written: seq<FileRecord>, fetched: set<Source>, gone: set<int>)
    requires Inv(before) && gone <= Sweepable(before, written, fetched)
    ensures var after, tag := Cycled(before, written, gone), before.counter + 1;
      && Inv(after) && after.counter == tag && after.nextId >= before.nextId
      && gone <= before.rows.Keys
      && (forall id | id in gone ::
            before.rows[id].rec.key.source in fetched && LastRecord(written, before.rows[id].rec.key).None?)
      && (forall id | id in before.rows && id !in gone ::
            id in after.rows && after.rows[id] == Refreshed(before.rows[id], written, tag))
      && OnlyInserted(before, after, written, tag)
  {
    MarkedWrites(before, written);
    SweepableExactly(before, written, fetched);
    assert Cycled(before, written, gone) == WithoutRows(Marked(before, written), gone);
    assert forall id | id in gone :: id in Sweepable(before, written, fetched) && id in before.rows;
    hide LastRecord, Cycled, Marked, Sweepable, HasKey, Refreshed, IsInserted;
  }

  /** The rows of `source` hold exactly the written keys, each with the last record written for it. */
  ghost predicate HoldsExactly(rows: Rows, source: Source, written: seq<FileRecord>) {
    && (forall id | id in rows && rows[id].rec.key.source == source ::
          LastRecord(written, rows[id].rec.key) == Some(rows[id].rec))
    && (forall key: Key | key.source == source && LastRecord(written, key).Some? :: HasKey(rows, key))
  }

  function RowsOf(rows: Rows, source: Source): Rows {
    map id | id in rows && rows[id].rec.key.source == source :: rows[id]
  }

  lemma {:induction false} FetchedExact(before: Table, written: seq<FileRecord>, fetched: set<Source>, source: Source)
    requires Inv(before) && source in fetched
    ensures HoldsExactly(Cycled(before, written, Sweepable(before, written, fetched)).rows, source, written)
  {
    var gone, tag := Sweepable(before, written, fetched), before.counter + 1;
    var mid, after := Marked(before, written), Cycled(before, written, gone);
    MarkedWrites(before, written);
    SweepableExactly(before, written, fetched);
    assert after == WithoutRows(mid, gone);
    hide LastRecord, Cycled, Marked, Sweepable, Inv;
    forall id | id in mid.rows ensures id in gone || LastRecord(written, mid.rows[id].rec.key) == Some(mid.rows[id].rec)
                                    || mid.rows[id].rec.key.source != source {
      if id !in before.rows {
        assert IsInserted(before, id, mid.rows[id], written, tag);
      } else {
        assert mid.rows[id] == Refreshed(before.rows[id], written, tag);
      }
    }
    hide AllRefreshed, OnlyInserted, IsInserted, Refreshed;
    forall key: Key | key.source == source && LastRecord(written, key).Some? ensures HasKey(after.rows, key) {
      var id := IdOf(mid.rows, key);
      assert id !in gone by {
        assert mid.rows[id].rec.key == key;
        KeyUnswept(before, written, id);
      }
      assert after.rows[id].rec.key == key;
    }
  }

  lemma {:induction false} KeyUnswept(before: Table, written: seq<FileRecord>, id: int)
    requires Inv(before) && id in Marked(before, written).rows
    ensures id in before.rows ==> before.rows[id].rec.key == Marked(before, written).rows[id].rec.key
  {
    MarkedWrites(before, written);
  }

  lemma {:induction false} UnfetchedUntouched(
      before: Table, written: seq<FileRecord>, fetched: set<Source>, source: Source)
    requires Inv(before) && source !in fetched
    requires forall rec | rec in written :: rec.key.source in fetched
    ensures RowsOf(Cycled(before, written, Sweepable(before, written, fetched)).rows, source)
         == RowsOf(before.rows, source)
  {
    var gone, tag := Sweepable(before, written, fetched), before.counter + 1;
    var after := Cycled(before, written, gone);
    CycleEffect(before, written, fetched, gone);
    hide LastRecord, Cycled, Sweepable, Inv, HasKey;
    forall id | id in after.rows && id !in before.rows ensures after.rows[id].rec.key.source in fetched {
      assert IsInserted(before, id, after.rows[id], written, tag);
    }
    hide OnlyInserted, IsInserted;
    forall id | id in before.rows && before.rows[id].rec.key.source == source
      ensures id in after.rows && after.rows[id] == before.rows[id] {
    }
    forall id | id in after.rows && after.rows[id].rec.key.source == source
      ensures id in before.rows && before.rows[id].rec.key.source == source {
      assert after.rows[id] == Refreshed(before.rows[id], written, tag);
    }
    hide Refreshed, Inv;
    assert RowsOf(after.rows, source).Keys == RowsOf(before.rows, source).Keys;
  }

  /**
   * When everything succeeds, a fetched source holds exactly what was written, and a source that was not fetched (so
   * nothing of it was written) keeps every row as it was.
   */
  lemma {:induction false} CycleExact(before: Table, written: seq<FileRecord>, fetched: set<Source>, source: Source)
    requires Inv(before)
    requires forall rec | rec in written :: rec.key.source in fetched
    ensures var after := Cycled(before, written, Sweepable(before, written, fetched));
      if source in fetched then HoldsExactly(after.rows, source, written)
      else RowsOf(after.rows, source) == RowsOf(before.rows, source)
  {
    hide HoldsExactly, RowsOf, Cycled, Sweepable;
    if source in fetched {
      FetchedExact(before, written, fetched, source);
    } else {
      UnfetchedUntouched(before, written, fetched, source);
    }
  }
}
