/**
 * Any number of callers of `syncOnce` (the periodic loop, manual resyncs) on one store, interleaved with the streaming
 * side's `SetCDNURL` and `SetFileSize`. Every statement and every access to the in-flight flag is one step.
 */
module SyncRuns {
  import opened Wrappers
  import opened Numbers
  import opened CacheKeys
  import opened Records
  import opened FileTable
  import opened SyncCycles

  // ---------------------------------------------------------------- the volatile columns

  function BareRecord(rec: FileRecord): FileRecord {
    rec.(size := 0)
  }

  function BareAll(recs: seq<FileRecord>): (r: seq<FileRecord>)
    ensures |r| == |recs| && forall i | 0 <= i < |r| :: r[i] == BareRecord(recs[i])
  {
    seq(|recs|, i requires 0 <= i < |recs| => BareRecord(recs[i]))
  }

  /** The row without the columns that the streaming side may write at any time. */
  function BareRow(row: Row): Row {
    Row(BareRecord(row.rec), "", None, row.tag)
  }

  function Bare(t: Table): Table {
    t.(rows := map id | id in t.rows :: BareRow(t.rows[id]))
  }

  lemma {:induction false} BareKeepsInv(t: Table)
    requires Inv(t)
    ensures Inv(Bare(t))
  {
  }

  lemma {:induction false} BareKeys(t: Table, key: Key)
    requires Inv(t)
    ensures HasKey(Bare(t).rows, key) <==> HasKey(t.rows, key)
    ensures HasKey(t.rows, key) ==> IdOf(Bare(t).rows, key) == IdOf(t.rows, key)
  {
    if HasKey(t.rows, key) {
      var id := IdOf(t.rows, key);
      assert id in Bare(t).rows && Bare(t).rows[id].rec.key == key;
    }
    if HasKey(Bare(t).rows, key) {
      var id := IdOf(Bare(t).rows, key);
      assert id in t.rows && t.rows[id].rec.key == key;
    }
  }

  lemma {:induction false} BareUpsert(t: Table, rec: FileRecord, tag: int)
    requires Inv(t)
    ensures Bare(Upserted(t, rec, tag)) == Upserted(Bare(t), BareRecord(rec), tag)
  {
    BareKeys(t, rec.key);
    hide Inv, HasKey, IdOf;
    assert Bare(Upserted(t, rec, tag)).rows == Upserted(Bare(t), BareRecord(rec), tag).rows;
  }

  lemma {:induction false} BareDelete(t: Table, ids: set<int>, source: Source, tag: int)
    ensures Bare(WithoutRows(t, ids)) == WithoutRows(Bare(t), ids)
    ensures Stale(Bare(t).rows, source, tag) == Stale(t.rows, source, tag)
  {
    assert Bare(WithoutRows(t, ids)).rows == WithoutRows(Bare(t), ids).rows;
    assert forall id :: id in Stale(Bare(t).rows, source, tag) <==> id in Stale(t.rows, source, tag);
  }

  lemma {:induction false} BareVolatile(t: Table, id: int, url: string, expires: int, size: int)
    ensures Bare(WithCdn(t, id, url, expires)) == Bare(t) && Bare(WithSize(t, id, size)) == Bare(t)
    ensures Inv(t) ==> Inv(WithCdn(t, id, url, expires)) && Inv(WithSize(t, id, size))
  {
    assert Bare(WithCdn(t, id, url, expires)).rows == Bare(t).rows;
    assert Bare(WithSize(t, id, size)).rows == Bare(t).rows;
  }

  lemma {:induction false} BareAllSnoc(recs: seq<FileRecord>, rec: FileRecord)
    ensures BareAll(recs + [rec]) == BareAll(recs) + [BareRecord(rec)]
  {
  }

  // ---------------------------------------------------------------- callers

  /**
   * A cycle that has its tag: the table it started from, what it is to write and which sources it read; then, as it
   * goes, the records written, the rows deleted, and whether every statement has succeeded so far.
   */
  datatype Cycle = Cycle(start: Table, recs: seq<FileRecord>, fetched: set<Source>,
                         tried: nat, written: seq<FileRecord>, gone: set<int>, complete: bool)

  datatype Caller =
    | Idle
    | Entered
    | Writing(cycle: Cycle)
    | Sweeping(cycle: Cycle, rest: seq<Source>)

  datatype State = State(table: Table, syncing: bool, callers: map<nat, Caller>)

  /** What a caller of `syncOnce` may do next. */
  datatype Action =
    | Enter
    | Reserve(recs: seq<FileRecord>, fetched: set<Source>)
    | ReserveFails(lost: bool)
    | Upsert(ok: bool)
    | WritesDone
    | PruneBatch(victims: set<int>)
    | PruneEnds(failed: bool)
    | Leave

  datatype Step =
    | Sync(c: nat, action: Action)
    | SetCdn(id: int, url: string, expires: int)
    | SetSize(id: int, size: int)

  function Tag(cycle: Cycle): int {
    cycle.start.counter + 1
  }

  /** Sources in the order in which they are pruned. */
  function PruneOrder(fetched: set<Source>): seq<Source> {
    (if Torrent in fetched then [Torrent] else []) + (if Usenet in fetched then [Usenet] else [])
  }

  predicate Can(table: Table, caller: Caller, action: Action) {
    match action
    case Enter => caller.Idle?
    case Reserve(recs, fetched) => caller.Entered? && forall rec | rec in recs :: rec.key.source in fetched
    case ReserveFails(_) => caller.Entered?
    case Upsert(_) => caller.Writing? && caller.cycle.tried < |caller.cycle.recs|
    case WritesDone => caller.Writing? && caller.cycle.tried == |caller.cycle.recs|
    case PruneBatch(victims) =>
      && caller.Sweeping? && caller.rest != []
      && victims <= Stale(table.rows, caller.rest[0], Tag(caller.cycle)) && |victims| <= BATCH_SIZE
    case PruneEnds(failed) =>
      && caller.Sweeping? && caller.rest != []
      && (failed || Stale(table.rows, caller.rest[0], Tag(caller.cycle)) == {})
    case Leave => caller.Sweeping? && caller.rest == []
  }

  predicate Enabled(st: State, s: Step) {
    s.Sync? ==> s.c in st.callers && Can(st.table, st.callers[s.c], s.action)
  }

  ghost function ActTable(table: Table, caller: Caller, action: Action): Table
    requires Can(table, caller, action)
  {
    match action
    case Reserve(_, _) => Reserved(table)
    case ReserveFails(lost) => if lost then Reserved(table) else table
    case Upsert(ok) =>
      var cycle := caller.cycle;
      if ok then Upserted(table, cycle.recs[cycle.tried], Tag(cycle)) else table
    case PruneBatch(victims) => WithoutRows(table, victims)
    case _ => table
  }

  /** A caller that finds the flag set stays idle. */
  function ActCaller(table: Table, syncing: bool, caller: Caller, action: Action): Caller
    requires Can(table, caller, action)
  {
    match action
    case Enter => if syncing then Idle else Entered
    case Reserve(recs, fetched) => Writing(Cycle(table, recs, fetched, 0, [], {}, true))
    case ReserveFails(_) => Idle
    case Upsert(ok) =>
      var cycle := caller.cycle;
      Writing(cycle.(tried := cycle.tried + 1,
                     written := cycle.written + if ok then [cycle.recs[cycle.tried]] else [],
                     complete := cycle.complete && ok))
    case WritesDone => Sweeping(caller.cycle, PruneOrder(caller.cycle.fetched))
    case PruneBatch(victims) => Sweeping(caller.cycle.(gone := caller.cycle.gone + victims), caller.rest)
    case PruneEnds(failed) =>
      Sweeping(caller.cycle.(complete := caller.cycle.complete && !failed), caller.rest[1..])
    case Leave => Idle
  }

  ghost function Apply(st: State, s: Step): State
    requires Enabled(st, s)
  {
    match s
    case Sync(c, action) =>
      State(ActTable(st.table, st.callers[c], action),
            if action.Enter? then true else if action.Leave? || action.ReserveFails? then false else st.syncing,
            st.callers[c := ActCaller(st.table, st.syncing, st.callers[c], action)])
    case SetCdn(id, url, expires) => st.(table := WithCdn(st.table, id, url, expires))
    case SetSize(id, size) => st.(table := WithSize(st.table, id, size))
  }

  /** Where a schedule leads from `st`, if every step of it was possible. */
  ghost function RunFrom(st: State, steps: seq<Step>): Option<State> {
    if steps == [] then Some(st)
    else
      match RunFrom(st, steps[..|steps| - 1])
      case None => None
      case Some(mid) => if Enabled(mid, steps[|steps| - 1]) then Some(Apply(mid, steps[|steps| - 1])) else None
  }

  ghost predicate Initial(st: State) {
    Inv(st.table) && !st.syncing && forall c | c in st.callers :: st.callers[c].Idle?
  }

  // ---------------------------------------------------------------- the invariant

  /** The table a cycle started from and what it has written so far, volatile columns aside. */
  ghost function MarkedSoFar(cycle: Cycle): Table {
    Marked(Bare(cycle.start), BareAll(cycle.written))
  }

  ghost predicate CycleInv(table: Table, cycle: Cycle) {
    && Inv(cycle.start) && table.counter == Tag(cycle)
    && (forall rec | rec in cycle.recs :: rec.key.source in cycle.fetched)
    && cycle.tried <= |cycle.recs|
    && (cycle.complete ==> cycle.written == cycle.recs[..cycle.tried])
    && (forall rec | rec in cycle.written :: rec in cycle.recs)
    && Bare(table) == WithoutRows(MarkedSoFar(cycle), cycle.gone)
  }

  ghost predicate CallerInv(table: Table, caller: Caller) {
    match caller
    case Idle => true
    case Entered => true
    case Writing(cycle) => CycleInv(table, cycle) && cycle.gone == {}
    case Sweeping(cycle, rest) =>
      && CycleInv(table, cycle) && cycle.tried == |cycle.recs|
      && cycle.gone <= StaleIn(MarkedSoFar(cycle).rows, cycle.fetched, Tag(cycle))
      && (forall source | source in rest :: source in cycle.fetched)
      && (cycle.complete ==>
            forall source | source in cycle.fetched && source !in rest ::
              Stale(table.rows, source, Tag(cycle)) == {})
  }

  /** The flag is set exactly when some caller is inside, and then only one is. */
  ghost predicate Exclusive(callers: map<nat, Caller>, syncing: bool) {
    && (forall c, d | c in callers && d in callers && !callers[c].Idle? && !callers[d].Idle? :: c == d)
    && (syncing <==> exists c | c in callers :: !callers[c].Idle?)
  }

  ghost predicate StateInv(st: State) {
    && Inv(st.table)
    && (forall c | c in st.callers :: CallerInv(st.table, st.callers[c]))
    && Exclusive(st.callers, st.syncing)
  }

  // ---------------------------------------------------------------- every action keeps it

  lemma {:induction false} DeleteNone(t: Table)
    ensures WithoutRows(t, {}) == t
  {
    assert t.rows - {} == t.rows;
  }

  lemma {:induction false} ReserveKeeps(table: Table, recs: seq<FileRecord>, fetched: set<Source>)
    requires Inv(table) && forall rec | rec in recs :: rec.key.source in fetched
    ensures Inv(Reserved(table)) && CallerInv(Reserved(table), Writing(Cycle(table, recs, fetched, 0, [], {}, true)))
  {
    var cycle := Cycle(table, recs, fetched, 0, [], {}, true);
    assert BareAll([]) == [];
    assert MarkedSoFar(cycle) == Reserved(Bare(table)) == Bare(Reserved(table));
    DeleteNone(MarkedSoFar(cycle));
  }

  /** The cycle after its next upsert. */
  function Tried(cycle: Cycle, ok: bool): Cycle
    requires cycle.tried < |cycle.recs|
  {
    cycle.(tried := cycle.tried + 1,
           written := cycle.written + if ok then [cycle.recs[cycle.tried]] else [],
           complete := cycle.complete && ok)
  }

  lemma {:induction false} MarkedOneMore(cycle: Cycle)
    requires cycle.tried < |cycle.recs|
    ensures MarkedSoFar(Tried(cycle, true))
         == Upserted(MarkedSoFar(cycle), BareRecord(cycle.recs[cycle.tried]), Tag(cycle))
  {
    assert Bare(cycle.start).counter + 1 == Tag(cycle);
    hide Upserted, UpsertAll, Reserved, Bare, BareRecord, BareAll;
    var rec := cycle.recs[cycle.tried];
    BareAllSnoc(cycle.written, rec);
    UpsertAllSnoc(Reserved(Bare(cycle.start)), BareAll(cycle.written), BareRecord(rec), Tag(cycle));
  }

  lemma {:induction false} TriedRecords(cycle: Cycle, ok: bool)
    requires cycle.tried < |cycle.recs|
    requires cycle.complete ==> cycle.written == cycle.recs[..cycle.tried]
    requires forall rec | rec in cycle.written :: rec in cycle.recs
    ensures var next := Tried(cycle, ok);
      && (next.complete ==> next.written == next.recs[..next.tried])
      && forall rec | rec in next.written :: rec in next.recs
  {
    assert cycle.recs[..cycle.tried + 1] == cycle.recs[..cycle.tried] + [cycle.recs[cycle.tried]];
  }

  lemma {:induction false} UpsertKeeps(table: Table, cycle: Cycle, ok: bool)
    requires Inv(table) && CallerInv(table, Writing(cycle)) && cycle.tried < |cycle.recs|
    ensures Inv(ActTable(table, Writing(cycle), Upsert(ok)))
    ensures CallerInv(ActTable(table, Writing(cycle), Upsert(ok)), ActCaller(table, true, Writing(cycle), Upsert(ok)))
  {
    assert ActCaller(table, true, Writing(cycle), Upsert(ok)) == Writing(Tried(cycle, ok));
    TriedRecords(cycle, ok);
    if ok {
      var rec, next := cycle.recs[cycle.tried], Tried(cycle, true);
      assert Tag(cycle) > 0 && table.counter == Tag(cycle);
      hide Inv, Upserted, MarkedSoFar, Bare, BareRecord, WithoutRows;
      UpsertedKeepsInv(table, rec, Tag(cycle));
      BareUpsert(table, rec, Tag(cycle));
      MarkedOneMore(cycle);
      DeleteNone(MarkedSoFar(cycle));
      DeleteNone(MarkedSoFar(next));
      assert Bare(Upserted(table, rec, Tag(cycle))) == MarkedSoFar(next);
      assert CycleInv(Upserted(table, rec, Tag(cycle)), next);
    } else {
      hide Inv, Bare, WithoutRows;
      assert cycle.written + [] == cycle.written;
    }
  }

  lemma {:induction false} PruneBatchKeeps(table: Table, cycle: Cycle, rest: seq<Source>, victims: set<int>)
    requires Inv(table) && CallerInv(table, Sweeping(cycle, rest)) && rest != []
    requires victims <= Stale(table.rows, rest[0], Tag(cycle))
    ensures Inv(WithoutRows(table, victims))
    ensures CallerInv(WithoutRows(table, victims), Sweeping(cycle.(gone := cycle.gone + victims), rest))
  {
    var m, tag := MarkedSoFar(cycle), Tag(cycle);
    var next := cycle.(gone := cycle.gone + victims);
    BareDelete(table, victims, rest[0], tag);
    StaleSubset(m, cycle.gone, rest[0], tag);
    assert MarkedSoFar(next) == m;
    assert m.rows - cycle.gone - victims == m.rows - next.gone;
    forall source ensures Stale(WithoutRows(table, victims).rows, source, tag) <= Stale(table.rows, source, tag) {
      StaleSubset(table, victims, source, tag);
    }
    assert rest[0] in rest;
    StaleInHas(m.rows, cycle.fetched, rest[0], tag);
    hide MarkedSoFar, Bare, IsStale, Stale, Inv;
    assert next.gone <= StaleIn(m.rows, cycle.fetched, tag);
    assert Bare(WithoutRows(table, victims)) == WithoutRows(m, next.gone);
    assert CycleInv(WithoutRows(table, victims), next);
  }

  lemma {:induction false} StaleInHas(rows: Rows, sources: set<Source>, source: Source, tag: int)
    requires source in sources
    ensures Stale(rows, source, tag) <= StaleIn(rows, sources, tag)
  {
    assert source == Torrent || source == Usenet;
  }

  lemma {:induction false} StaleSubset(t: Table, ids: set<int>, source: Source, tag: int)
    ensures Stale(WithoutRows(t, ids).rows, source, tag) <= Stale(t.rows, source, tag)
    ensures Inv(t) ==> Inv(WithoutRows(t, ids))
  {
  }

  lemma {:induction false} PruneEndsKeeps(table: Table, cycle: Cycle, rest: seq<Source>, failed: bool)
    requires CallerInv(table, Sweeping(cycle, rest)) && rest != []
    requires failed || Stale(table.rows, rest[0], Tag(cycle)) == {}
    ensures CallerInv(table, Sweeping(cycle.(complete := cycle.complete && !failed), rest[1..]))
  {
    var next := cycle.(complete := cycle.complete && !failed);
    assert MarkedSoFar(next) == MarkedSoFar(cycle);
    assert rest == [rest[0]] + rest[1..];
    hide MarkedSoFar, Bare, Stale, Inv;
  }

  lemma {:induction false} WritesDoneKeeps(table: Table, cycle: Cycle)
    requires CallerInv(table, Writing(cycle)) && cycle.tried == |cycle.recs|
    ensures CallerInv(table, Sweeping(cycle, PruneOrder(cycle.fetched)))
  {
    hide MarkedSoFar, Bare, Stale, Inv;
    forall source ensures source in PruneOrder(cycle.fetched) <==> source in cycle.fetched {
      assert source == Torrent || source == Usenet;
    }
  }

  lemma {:induction false} ActionKeeps(table: Table, syncing: bool, caller: Caller, action: Action)
    requires Inv(table) && CallerInv(table, caller) && Can(table, caller, action)
    ensures Inv(ActTable(table, caller, action))
    ensures CallerInv(ActTable(table, caller, action), ActCaller(table, syncing, caller, action))
  {
    hide CycleInv, Inv, Bare, Stale, Upserted;
    match action {
      case Enter =>
      case Reserve(recs, fetched) => ReserveKeeps(table, recs, fetched);
      case ReserveFails(_) => LostTagKeeps(table);
      case Upsert(ok) => UpsertKeeps(table, caller.cycle, ok);
      case WritesDone => WritesDoneKeeps(table, caller.cycle);
      case PruneBatch(victims) => PruneBatchKeeps(table, caller.cycle, caller.rest, victims);
      case PruneEnds(failed) => PruneEndsKeeps(table, caller.cycle, caller.rest, failed);
      case Leave =>
    }
  }

  lemma {:induction false} LostTagKeeps(table: Table)
    requires Inv(table)
    ensures Inv(Reserved(table))
  {
  }

  /** The streaming side's writes are invisible to a cycle. */
  lemma {:induction false} VolatileKeeps(table: Table, next: Table, caller: Caller)
    requires Bare(next) == Bare(table) && CallerInv(table, caller)
    ensures CallerInv(next, caller)
  {
    assert next.counter == Bare(next).counter == table.counter;
    if caller.Sweeping? {
      forall source
        ensures Stale(next.rows, source, Tag(caller.cycle)) == Stale(table.rows, source, Tag(caller.cycle)) {
        BareDelete(table, {}, source, Tag(caller.cycle));
        BareDelete(next, {}, source, Tag(caller.cycle));
      }
    }
    hide Bare, MarkedSoFar, Stale, Inv, WithoutRows;
  }

  lemma {:induction false} ExclusiveStep(st: State, c: nat, action: Action)
    requires Exclusive(st.callers, st.syncing) && Enabled(st, Sync(c, action))
    ensures Exclusive(Apply(st, Sync(c, action)).callers, Apply(st, Sync(c, action)).syncing)
  {
    hide ActTable, Stale;
    var caller, next := st.callers[c], Apply(st, Sync(c, action));
    if action.Enter? && st.syncing {
      var d :| d in st.callers && !st.callers[d].Idle?;
      assert !next.callers[d].Idle?;
    } else if !action.Leave? && !action.ReserveFails? {
      assert !next.callers[c].Idle?;
    }
  }

  lemma {:induction false} StepKeepsInv(st: State, s: Step)
    requires StateInv(st) && Enabled(st, s)
    ensures StateInv(Apply(st, s))
  {
    hide Inv, CallerInv, Stale, Upserted, Bare, ActCaller;
    var next := Apply(st, s);
    match s {
      case Sync(c, action) =>
        ExclusiveStep(st, c, action);
        var caller := st.callers[c];
        ActionKeeps(st.table, st.syncing, caller, action);
        forall d | d in next.callers ensures CallerInv(next.table, next.callers[d]) {
          if d != c && !caller.Idle? {
            IdleInv(next.table, next.callers[d]);
          }
        }
      case SetCdn(id, url, expires) =>
        BareVolatile(st.table, id, url, expires, 0);
        forall d | d in next.callers ensures CallerInv(next.table, next.callers[d]) {
          VolatileKeeps(st.table, next.table, st.callers[d]);
        }
      case SetSize(id, size) =>
        BareVolatile(st.table, id, "", 0, size);
        forall d | d in next.callers ensures CallerInv(next.table, next.callers[d]) {
          VolatileKeeps(st.table, next.table, st.callers[d]);
        }
    }
  }

  lemma {:induction false} IdleInv(table: Table, caller: Caller)
    ensures caller.Idle? ==> CallerInv(table, caller)
  {
  }

  lemma {:induction false} ReachableInv(st: State, steps: seq<Step>)
    requires StateInv(st) && RunFrom(st, steps).Some?
    ensures StateInv(RunFrom(st, steps).value)
  {
    if steps != [] {
      var init := steps[..|steps| - 1];
      ReachableInv(st, init);
      StepKeepsInv(RunFrom(st, init).value, steps[|steps| - 1]);
    }
  }

  lemma {:induction false} InitialInv(st: State)
    requires Initial(st)
    ensures StateInv(st)
  {
    hide Inv;
  }

  // ---------------------------------------------------------------- what follows for every schedule

  /** At most one cycle is in progress, and no tag is issued while one is between its tag and its end. */
  lemma {:induction false} AtMostOneCycle(st: State, steps: seq<Step>, c: nat, d: nat)
    requires Initial(st) && RunFrom(st, steps).Some?
    requires var callers := RunFrom(st, steps).value.callers; c in callers && d in callers && !callers[c].Idle?
    ensures var now := RunFrom(st, steps).value; var caller := now.callers[c];
      && now.syncing
      && (!now.callers[d].Idle? ==> c == d)
      && (caller.Writing? || caller.Sweeping? ==> now.table.counter == Tag(caller.cycle))
  {
    InitialInv(st);
    ReachableInv(st, steps);
    hide Inv, Bare, Stale, RunFrom;
  }

  /**
   * A row disappears only in a prune of its own source, in a cycle that fetched that source and did not write the row's
   * key; and it was there when the cycle got its tag.
   */
  lemma {:induction false} RowsVanishOnlyUnwritten(st: State, steps: seq<Step>, s: Step, id: int)
    requires Initial(st) && RunFrom(st, steps).Some? && Enabled(RunFrom(st, steps).value, s)
    requires var now := RunFrom(st, steps).value; id in now.table.rows && id !in Apply(now, s).table.rows
    ensures var now := RunFrom(st, steps).value; var key := now.table.rows[id].rec.key;
      && s.Sync? && s.action.PruneBatch?
      && var cycle := now.callers[s.c].cycle;
         && key.source in cycle.fetched
         && LastRecord(cycle.written, key).None?
         && id in cycle.start.rows && cycle.start.rows[id].rec.key == key
  {
    InitialInv(st);
    ReachableInv(st, steps);
    var now := RunFrom(st, steps).value;
    hide RunFrom;
    OnlyPruneRemoves(now, s, id);
    var caller := now.callers[s.c];
    assert caller.rest[0] in caller.rest;
    StaleIsUnwritten(now.table, caller.cycle, caller.rest[0], id);
  }

  lemma {:induction false} OnlyPruneRemoves(st: State, s: Step, id: int)
    requires Inv(st.table) && Enabled(st, s)
    requires id in st.table.rows && id !in Apply(st, s).table.rows
    ensures s.Sync? && s.action.PruneBatch? && id in s.action.victims
  {
  }

  lemma {:induction false} LastRecordBare(recs: seq<FileRecord>, key: Key)
    ensures LastRecord(BareAll(recs), key) ==
      match LastRecord(recs, key) case None => None case Some(rec) => Some(BareRecord(rec))
  {
    if recs != [] {
      var n := |recs| - 1;
      assert BareAll(recs)[..n] == BareAll(recs[..n]);
      LastRecordBare(recs[..n], key);
    }
  }

  lemma {:induction false} StaleIsUnwritten(table: Table, cycle: Cycle, source: Source, id: int)
    requires CycleInv(table, cycle) && source in cycle.fetched && id in Stale(table.rows, source, Tag(cycle))
    ensures id in cycle.start.rows && cycle.start.rows[id].rec.key == table.rows[id].rec.key
    ensures table.rows[id].rec.key.source == source && LastRecord(cycle.written, table.rows[id].rec.key).None?
  {
    var b, recs := Bare(cycle.start), BareAll(cycle.written);
    BareDelete(table, {}, source, Tag(cycle));
    StaleSubset(MarkedSoFar(cycle), cycle.gone, source, Tag(cycle));
    StaleInHas(MarkedSoFar(cycle).rows, cycle.fetched, source, Tag(cycle));
    BareKeepsInv(cycle.start);
    assert id in Sweepable(b, recs, cycle.fetched);
    SweepableExactly(b, recs, cycle.fetched);
    MarkedWrites(b, recs);
    LastRecordBare(cycle.written, b.rows[id].rec.key);
    hide LastRecord, Marked, Inv, BareAll;
    assert Bare(table).rows[id].rec.key == b.rows[id].rec.key;
  }

  lemma {:induction false} StaleOutsideGone(m: Table, gone: set<int>, source: Source, tag: int)
    ensures Stale(WithoutRows(m, gone).rows, source, tag) == Stale(m.rows, source, tag) - gone
  {
  }

  lemma {:induction false} NothingLeft(table: Table, cycle: Cycle)
    requires CallerInv(table, Sweeping(cycle, [])) && cycle.complete
    ensures cycle.written == cycle.recs
    ensures cycle.gone == StaleIn(MarkedSoFar(cycle).rows, cycle.fetched, Tag(cycle))
  {
    assert cycle.recs[..|cycle.recs|] == cycle.recs;
    var m, tag := MarkedSoFar(cycle), Tag(cycle);
    forall source | source in cycle.fetched ensures Stale(m.rows, source, tag) <= cycle.gone {
      assert source !in [];
      BareDelete(table, {}, source, tag);
      StaleOutsideGone(m, cycle.gone, source, tag);
      assert Stale(m.rows, source, tag) - cycle.gone == {};
      assert forall id | id in Stale(m.rows, source, tag) ::
        id in cycle.gone || id in Stale(m.rows, source, tag) - cycle.gone;
    }
    hide Stale, MarkedSoFar, Inv;
  }

  /**
   * Serializability: when a cycle is done, however its statements were interleaved with the streaming side's, the table
   * is, volatile columns aside, what the cycle alone would have made of the table at the moment it got its tag.
   */
  lemma {:induction false} CycleIsSerial(st: State, steps: seq<Step>, c: nat)
    requires Initial(st) && RunFrom(st, steps).Some?
    requires var now := RunFrom(st, steps).value;
      c in now.callers && now.callers[c].Sweeping? && now.callers[c].rest == []
    ensures var now := RunFrom(st, steps).value; var cycle := now.callers[c].cycle;
      var before, written := Bare(cycle.start), BareAll(cycle.written);
      && Inv(before) && Bare(now.table) == Cycled(before, written, cycle.gone)
      && cycle.gone <= Sweepable(before, written, cycle.fetched)
      && (forall rec | rec in cycle.written :: rec in cycle.recs)
      && (cycle.complete ==>
            cycle.written == cycle.recs && cycle.gone == Sweepable(before, written, cycle.fetched))
  {
    InitialInv(st);
    ReachableInv(st, steps);
    hide RunFrom;
    var now := RunFrom(st, steps).value;
    var cycle := now.callers[c].cycle;
    BareKeepsInv(cycle.start);
    assert CallerInv(now.table, Sweeping(cycle, []));
    if cycle.complete {
      NothingLeft(now.table, cycle);
    }
    hide Inv, Bare, Marked, StaleIn, Stale, StateInv, BareAll;
  }

  /** Hence a cycle in which every statement succeeded leaves each fetched source with exactly the fetched keys. */
  lemma {:induction false} CompleteCycleExact(st: State, steps: seq<Step>, c: nat, source: Source)
    requires Initial(st) && RunFrom(st, steps).Some?
    requires var now := RunFrom(st, steps).value;
      c in now.callers && now.callers[c].Sweeping? && now.callers[c].rest == [] && now.callers[c].cycle.complete
    ensures var now := RunFrom(st, steps).value; var cycle := now.callers[c].cycle;
      if source in cycle.fetched then HoldsExactly(Bare(now.table).rows, source, BareAll(cycle.recs))
      else RowsOf(Bare(now.table).rows, source) == RowsOf(Bare(cycle.start).rows, source)
  {
    CycleIsSerial(st, steps, c);
    ReachableFetched(st, steps, c);
    hide Inv, Bare, Cycled, Sweepable, HoldsExactly, RowsOf, RunFrom;
    var cycle := RunFrom(st, steps).value.callers[c].cycle;
    CycleExact(Bare(cycle.start), BareAll(cycle.recs), cycle.fetched, source);
  }

  lemma {:induction false} ReachableFetched(st: State, steps: seq<Step>, c: nat)
    requires Initial(st) && RunFrom(st, steps).Some?
    requires var now := RunFrom(st, steps).value; c in now.callers && now.callers[c].Sweeping?
    ensures var cycle := RunFrom(st, steps).value.callers[c].cycle;
      forall rec | rec in cycle.recs :: rec.key.source in cycle.fetched
  {
    InitialInv(st);
    ReachableInv(st, steps);
    hide RunFrom, Inv, Bare;
    assert CallerInv(RunFrom(st, steps).value.table, RunFrom(st, steps).value.callers[c]);
  }

  // ---------------------------------------------------------------- ids and cached URLs

  /** The URL columns of row `id` after `steps`, if they are `url` and `expires` before and the row stays. */
  function LastCdn(steps: seq<Step>, id: int, url: string, expires: Option<int>): (string, Option<int>) {
    if steps == [] then (url, expires)
    else
      var s := steps[|steps| - 1];
      if s.SetCdn? && s.id == id then (s.url, Some(s.expires)) else LastCdn(steps[..|steps| - 1], id, url, expires)
  }

  /** The size that a step writes into row `id` of file `key`, if any: a correction, or an upsert of the file. */
  ghost function SizeWritten(st: State, s: Step, id: int, key: Key): Option<int>
    requires Enabled(st, s)
  {
    match s
    case SetSize(row, size) => if row == id then Some(size) else None
    case Sync(c, Upsert(true)) =>
      var cycle := st.callers[c].cycle;
      if cycle.recs[cycle.tried].key == key then Some(cycle.recs[cycle.tried].size) else None
    case _ => None
  }

  lemma {:induction false} StepRow(st: State, s: Step, id: int)
    requires Inv(st.table) && Enabled(st, s)
    ensures var next := Apply(st, s).table;
      && next.nextId >= st.table.nextId
      && (id in next.rows && id !in st.table.rows ==> id >= st.table.nextId)
      && (id in next.rows && id in st.table.rows ==>
            var row, was := next.rows[id], st.table.rows[id];
            && row.rec.key == was.rec.key
            && (row.cdnUrl, row.cdnExpires) ==
                 if s.SetCdn? && s.id == id then (s.url, Some(s.expires)) else (was.cdnUrl, was.cdnExpires))
  {
    hide Stale;
  }

  lemma {:induction false} StepSize(st: State, s: Step, id: int)
    requires Inv(st.table) && Enabled(st, s)
    requires id in Apply(st, s).table.rows && id in st.table.rows
    ensures var row, was := Apply(st, s).table.rows[id], st.table.rows[id];
      row.rec.size == match SizeWritten(st, s, id, was.rec.key) case Some(size) => size case None => was.rec.size
  {
    hide Stale;
  }

  /** An id is never used again: a row that is gone stays gone. */
  lemma {:induction false} GoneStaysGone(st: State, steps: seq<Step>, id: int)
    requires StateInv(st) && RunFrom(st, steps).Some?
    ensures RunFrom(st, steps).value.table.nextId >= st.table.nextId
    ensures id < st.table.nextId && id !in st.table.rows ==> id !in RunFrom(st, steps).value.table.rows
  {
    if steps != [] {
      var init := steps[..|steps| - 1];
      GoneStaysGone(st, init, id);
      ReachableInv(st, init);
      hide Apply, Enabled, Inv;
      StepRow(RunFrom(st, init).value, steps[|steps| - 1], id);
    }
  }

  /**
   * No sync step, whether it writes, fails or prunes, takes a row's cached URL away or moves it to another file: a row
   * that is there before and after any schedule has its key and the URL that was last set for it.
   */
  lemma {:induction false} UrlsSurviveSyncs(st: State, steps: seq<Step>, id: int)
    requires StateInv(st) && RunFrom(st, steps).Some?
    requires id in st.table.rows && id in RunFrom(st, steps).value.table.rows
    ensures var was, row := st.table.rows[id], RunFrom(st, steps).value.table.rows[id];
      && row.rec.key == was.rec.key
      && (row.cdnUrl, row.cdnExpires) == LastCdn(steps, id, was.cdnUrl, was.cdnExpires)
  {
    if steps != [] {
      var init := steps[..|steps| - 1];
      var mid := RunFrom(st, init).value;
      ReachableInv(st, init);
      hide Apply, Enabled, Inv;
      StepRow(mid, steps[|steps| - 1], id);
      if id !in mid.table.rows {
        KnownId(st, init, id);
      }
      UrlsSurviveSyncs(st, init, id);
    }
  }

  /** Step `k` is the last to set the URL of row `id`. */
  predicate SetsLast(steps: seq<Step>, k: nat, id: int, url: string, expires: int) {
    && k < |steps| && steps[k] == SetCdn(id, url, expires)
    && forall m | k < m < |steps| :: !(steps[m].SetCdn? && steps[m].id == id)
  }

  lemma {:induction false} LastCdnIs(
      steps: seq<Step>, k: nat, id: int, url: string, expires: int, was: string, since: Option<int>)
    requires SetsLast(steps, k, id, url, expires)
    ensures LastCdn(steps, id, was, since) == (url, Some(expires))
  {
    if k < |steps| - 1 {
      LastCdnIs(steps[..|steps| - 1], k, id, url, expires, was, since);
    }
  }

  /**
   * Whatever syncs come in between: the URL that was last stored for a row is handed out up to its expiry in whole
   * seconds and not after, and none is once the row's URL was invalidated.
   */
  lemma {:induction false} UrlServedIff(
      st: State, steps: seq<Step>, k: nat, id: int, url: string, expiresAt: int, now: int)
    requires StateInv(st) && RunFrom(st, steps).Some?
    requires id in st.table.rows && id in RunFrom(st, steps).value.table.rows
    requires SetsLast(steps, k, id, url, ToSeconds(expiresAt))
    ensures var row := RunFrom(st, steps).value.table.rows[id];
      && (CachedUrl(row, now) != "" <==> url != "" && now <= expiresAt - expiresAt % SECOND)
      && (CachedUrl(row, now) != "" ==> CachedUrl(row, now) == url)
  {
    hide RunFrom, StateInv, LastCdn;
    UrlsSurviveSyncs(st, steps, id);
    LastCdnIs(steps, k, id, url, ToSeconds(expiresAt), st.table.rows[id].cdnUrl, st.table.rows[id].cdnExpires);
    SecondsUnique(expiresAt, ToSeconds(expiresAt));
  }

  lemma {:induction false} KnownId(st: State, steps: seq<Step>, id: int)
    requires StateInv(st) && RunFrom(st, steps).Some? && id in st.table.rows
    ensures id < RunFrom(st, steps).value.table.nextId
  {
    GoneStaysGone(st, steps, id);
  }

  // ---------------------------------------------------------------- sizes

  /** The size that the `k`-th step of a schedule writes into row `id` of file `key`, if it writes one. */
  ghost function SizeWrittenAt(st: State, steps: seq<Step>, k: nat, id: int, key: Key): Option<int>
    requires k < |steps|
  {
    var mid := RunFrom(st, steps[..k]);
    if mid.Some? && Enabled(mid.value, steps[k]) then SizeWritten(mid.value, steps[k], id, key) else None
  }

  /** Nothing writes the size from step `k` on. */
  ghost predicate Unwritten(st: State, steps: seq<Step>, k: nat, id: int, key: Key) {
    forall m: nat | k <= m < |steps| :: SizeWrittenAt(st, steps, m, id, key).None?
  }

  /** Step `k` is the last to write the size, and it writes `size`. */
  ghost predicate WritesLast(st: State, steps: seq<Step>, k: nat, id: int, key: Key, size: int) {
    k < |steps| && SizeWrittenAt(st, steps, k, id, key) == Some(size) && Unwritten(st, steps, k + 1, id, key)
  }

  lemma {:induction false} SizeWrittenEarlier(st: State, steps: seq<Step>, k: nat, id: int, key: Key)
    requires k + 1 < |steps|
    ensures SizeWrittenAt(st, steps[..|steps| - 1], k, id, key) == SizeWrittenAt(st, steps, k, id, key)
  {
    assert steps[..|steps| - 1][..k] == steps[..k];
  }

  lemma {:induction false} LastWriteNext(st: State, steps: seq<Step>, id: int, key: Key, size: int)
    requires steps != []
    ensures var n, init := |steps| - 1, steps[..|steps| - 1]; var s := SizeWrittenAt(st, steps, n, id, key);
      && (Unwritten(st, steps, 0, id, key) <==> s.None? && Unwritten(st, init, 0, id, key))
      && ((exists k: nat :: WritesLast(st, steps, k, id, key, size)) <==>
            s == Some(size) || (s.None? && exists k: nat :: WritesLast(st, init, k, id, key, size)))
  {
    var n, init := |steps| - 1, steps[..|steps| - 1];
    forall k: nat | k < n ensures SizeWrittenAt(st, init, k, id, key) == SizeWrittenAt(st, steps, k, id, key) {
      SizeWrittenEarlier(st, steps, k, id, key);
    }
    hide SizeWrittenAt;
    var s := SizeWrittenAt(st, steps, n, id, key);
    if s == Some(size) {
      assert WritesLast(st, steps, n, id, key, size);
    }
    if s.None? {
      if k: nat :| WritesLast(st, init, k, id, key, size) {
        assert WritesLast(st, steps, k, id, key, size);
      }
      if k: nat :| WritesLast(st, steps, k, id, key, size) {
        assert WritesLast(st, init, k, id, key, size);
      }
    } else if k: nat :| WritesLast(st, steps, k, id, key, size) {
      assert k == n;
    }
  }

  /**
   * A row keeps the size that it has, say one corrected after a 416, over a schedule if and only if nothing writes it,
   * or the last step that does writes that same size. An upsert of the file counts, so the next listing of a wrong size
   * undoes the correction.
   */
  lemma {:induction false} SizeSurvivesIff(st: State, steps: seq<Step>, id: int, size: int)
    requires StateInv(st) && RunFrom(st, steps).Some?
    requires id in st.table.rows && id in RunFrom(st, steps).value.table.rows
    ensures var was, row := st.table.rows[id], RunFrom(st, steps).value.table.rows[id];
      row.rec.size == size <==>
        || (was.rec.size == size && Unwritten(st, steps, 0, id, was.rec.key))
        || exists k: nat :: WritesLast(st, steps, k, id, was.rec.key, size)
  {
    var key := st.table.rows[id].rec.key;
    if steps != [] {
      var init, s := steps[..|steps| - 1], steps[|steps| - 1];
      var mid := RunFrom(st, init).value;
      ReachableInv(st, init);
      hide Apply, Enabled, Inv, WritesLast, Unwritten;
      if id !in mid.table.rows {
        StepRow(mid, s, id);
        KnownId(st, init, id);
      }
      StepSize(mid, s, id);
      UrlsSurviveSyncs(st, init, id);
      SizeSurvivesIff(st, init, id, size);
      LastWriteNext(st, steps, id, key, size);
    }
  }

  /** A correction, and then a caller that syncs the file again. */
  function CorrectedThenSynced(c: nat, id: int, size: int, rec: FileRecord): seq<Step> {
    [SetSize(id, size)] + [Sync(c, Enter)] + [Sync(c, Reserve([rec], {rec.key.source}))] + [Sync(c, Upsert(true))]
  }

  lemma {:induction false} RunNext(st: State, steps: seq<Step>, mid: State, s: Step)
    requires RunFrom(st, steps) == Some(mid) && Enabled(mid, s)
    ensures RunFrom(st, steps + [s]) == Some(Apply(mid, s))
  {
    assert (steps + [s])[..|steps|] == steps;
    hide Apply, Enabled;
  }

  lemma {:induction false} UpsertOverwrites(t: Table, rec: FileRecord, tag: int, id: int)
    requires Inv(t) && id in t.rows && t.rows[id].rec.key == rec.key
    ensures id in Upserted(t, rec, tag).rows && Upserted(t, rec, tag).rows[id].rec.size == rec.size
  {
  }

  lemma {:induction false} SyncedStates(st: State, c: nat, id: int, size: int, rec: FileRecord)
    returns (st1: State, st2: State, st3: State, st4: State)
    requires Initial(st) && c in st.callers && id in st.table.rows && st.table.rows[id].rec.key == rec.key
    ensures Enabled(st, SetSize(id, size)) && st1 == Apply(st, SetSize(id, size))
    ensures Enabled(st1, Sync(c, Enter)) && st2 == Apply(st1, Sync(c, Enter))
    ensures var reserve := Sync(c, Reserve([rec], {rec.key.source}));
      Enabled(st2, reserve) && st3 == Apply(st2, reserve)
    ensures Enabled(st3, Sync(c, Upsert(true))) && st4 == Apply(st3, Sync(c, Upsert(true)))
    ensures id in st1.table.rows && st1.table.rows[id].rec.size == size
    ensures id in st4.table.rows && st4.table.rows[id].rec.size == rec.size
  {
    BareVolatile(st.table, id, "", 0, size);
    st1 := Apply(st, SetSize(id, size));
    st2 := Apply(st1, Sync(c, Enter));
    st3 := Apply(st2, Sync(c, Reserve([rec], {rec.key.source})));
    assert st3.table == Reserved(st1.table) && Inv(st3.table);
    UpsertOverwrites(st3.table, rec, st1.table.counter + 1, id);
    hide Inv, Upserted, Bare;
    st4 := Apply(st3, Sync(c, Upsert(true)));
  }

  /** If the listing still has another size for the file, the correction is undone before that cycle is over. */
  lemma {:induction false} NextSyncUndoesCorrection(st: State, c: nat, id: int, size: int, rec: FileRecord)
    requires Initial(st) && c in st.callers && id in st.table.rows && st.table.rows[id].rec.key == rec.key
    ensures var steps := CorrectedThenSynced(c, id, size, rec);
      var corrected, synced := RunFrom(st, steps[..1]), RunFrom(st, steps);
      && corrected.Some? && id in corrected.value.table.rows && corrected.value.table.rows[id].rec.size == size
      && synced.Some? && id in synced.value.table.rows && synced.value.table.rows[id].rec.size == rec.size
  {
    var correct, enter, upsert := SetSize(id, size), Sync(c, Enter), Sync(c, Upsert(true));
    var reserve := Sync(c, Reserve([rec], {rec.key.source}));
    var st1, st2, st3, st4 := SyncedStates(st, c, id, size, rec);
    assert RunFrom(st, []) == Some(st);
    assert [] + [correct] == [correct];
    assert CorrectedThenSynced(c, id, size, rec)[..1] == [correct];
    hide Inv, Upserted, Bare, Apply, RunFrom, Enabled;
    RunNext(st, [], st, correct);
    RunNext(st, [correct], st1, enter);
    RunNext(st, [correct] + [enter], st2, reserve);
    RunNext(st, [correct] + [enter] + [reserve], st3, upsert);
  }
}
