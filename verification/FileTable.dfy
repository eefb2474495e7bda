/** The `files` table and the sync-tag counter, as values and as the store that updates them. */
module FileTable {
  import opened Wrappers
  import opened Numbers
  import opened Text
  import opened CacheKeys
  import opened Records
  import opened Eviction

  const BATCH_SIZE := 250

  /** A row: the synced columns, the cached URL with its expiry (None for the empty column), and the sync tag. */
  datatype Row = Row(rec: FileRecord, cdnUrl: string, cdnExpires: Option<int>, tag: int)

  type Rows = map<int, Row>

  /** `rows` maps row ids to rows; `counter` is the last sync tag issued; ids from `nextId` on were never used. */
  datatype Table = Table(rows: Rows, counter: int, nextId: int)

  /** What the schema and the tag discipline guarantee: unique keys, fresh ids, and no tag from the future. */
  ghost predicate Inv(t: Table) {
    && t.counter >= 0
    && (forall id | id in t.rows :: id < t.nextId && 0 <= t.rows[id].tag <= t.counter)
    && (forall i, j | i in t.rows && j in t.rows && i != j :: t.rows[i].rec.key != t.rows[j].rec.key)
  }

  ghost predicate HasKey(rows: Rows, key: Key) {
    exists id | id in rows :: rows[id].rec.key == key
  }

  /** The row that the unique index finds. */
  ghost function IdOf(rows: Rows, key: Key): (id: int)
    requires HasKey(rows, key)
    ensures id in rows && rows[id].rec.key == key
  {
    var id :| id in rows && rows[id].rec.key == key;
    id
  }

  // ---------------------------------------------------------------- statements

  /** `INSERT ... ON CONFLICT DO UPDATE`: an existing row keeps its id and its cached URL. */
  ghost function Upserted(t: Table, rec: FileRecord, tag: int): Table {
    if HasKey(t.rows, rec.key) then
      var id := IdOf(t.rows, rec.key);
      t.(rows := t.rows[id := t.rows[id].(rec := rec, tag := tag)])
    else
      t.(rows := t.rows[t.nextId := Row(rec, "", None, tag)], nextId := t.nextId + 1)
  }

  predicate IsStale(row: Row, source: Source, tag: int) {
    row.rec.key.source == source && (row.tag != tag || row.tag == 0)
  }

  function Stale(rows: Rows, source: Source, tag: int): set<int> {
    set id | id in rows && IsStale(rows[id], source, tag)
  }

  function WithoutRows(t: Table, ids: set<int>): Table {
    t.(rows := t.rows - ids)
  }

  function WithCdn(t: Table, id: int, url: string, expires: int): Table {
    if id in t.rows then t.(rows := t.rows[id := t.rows[id].(cdnUrl := url, cdnExpires := Some(expires))]) else t
  }

  function WithSize(t: Table, id: int, size: int): Table {
    if id in t.rows then t.(rows := t.rows[id := t.rows[id].(rec := t.rows[id].rec.(size := size))]) else t
  }

  lemma {:induction false} UpsertedKeepsInv(t: Table, rec: FileRecord, tag: int)
    requires Inv(t) && 0 <= tag <= t.counter
    ensures Inv(Upserted(t, rec, tag))
  {
  }

  /** Timestamps are stored as text with whole seconds. */
  function ToSeconds(at: int): (r: int)
    ensures at - SECOND < r <= at && r % SECOND == 0
  {
    at - at % SECOND
  }

  /** The URL that `GetCDNURL` returns at time `now`; "" when there is none to use. */
  function CachedUrl(row: Row, now: int): string {
    if row.cdnUrl == "" then ""
    else if row.cdnExpires.Some? && now > row.cdnExpires.value then ""
    else row.cdnUrl
  }

  /**
   * What was stored is handed out until its expiry, cut to whole seconds, and not after; what was stored with "" is
   * handed out never.
   */
  lemma {:induction false} CdnRoundTrip(t: Table, id: int, url: string, expiresAt: int, now: int)
    requires id in t.rows
    ensures var after := WithCdn(t, id, url, ToSeconds(expiresAt));
      && after.rows.Keys == t.rows.Keys
      && CachedUrl(after.rows[id], now) == (if now <= expiresAt - expiresAt % SECOND then url else "")
      && forall other | other in t.rows && other != id :: after.rows[other] == t.rows[other]
  {
    SecondsUnique(expiresAt, ToSeconds(expiresAt));
  }

  lemma {:induction false} SecondsUnique(at: int, r: int)
    requires at - SECOND < r <= at && r % SECOND == 0
    ensures r == at - at % SECOND
  {
  }

  // ---------------------------------------------------------------- lookups by path

  function OnPath(rows: Rows, path: string): set<int> {
    set id | id in rows && rows[id].rec.path == path
  }

  predicate Descending(ids: seq<int>) {
    forall i, j | 0 <= i < j < |ids| :: ids[i] > ids[j]
  }

  predicate IsPrimary(rows: Rows, path: string, id: int) {
    id in OnPath(rows, path) && forall other | other in OnPath(rows, path) :: other <= id
  }

  /** The row that an upsert of `rec` writes. */
  ghost function UpsertedId(t: Table, key: Key): int {
    if HasKey(t.rows, key) then IdOf(t.rows, key) else t.nextId
  }

  /** An upsert puts its row on the record's path and, if it was elsewhere, takes it off the path it was on. */
  lemma {:induction false} PathsAfterUpsert(t: Table, rec: FileRecord, tag: int, path: string)
    requires Inv(t)
    ensures OnPath(Upserted(t, rec, tag).rows, path)
         == if path == rec.path then OnPath(t.rows, path) + {UpsertedId(t, rec.key)}
            else OnPath(t.rows, path) - {UpsertedId(t, rec.key)}
  {
  }

  /**
   * The upserted row becomes (or stays) its path's primary if and only if it was inserted or no other row on the
   * path has a higher id. So it is the last inserted row that wins, not the last upserted one.
   */
  lemma {:induction false} PrimaryAfterUpsert(t: Table, rec: FileRecord, tag: int)
    requires Inv(t)
    ensures IsPrimary(Upserted(t, rec, tag).rows, rec.path, UpsertedId(t, rec.key))
       <==> || !HasKey(t.rows, rec.key)
            || forall other | other in OnPath(t.rows, rec.path) :: other <= IdOf(t.rows, rec.key)
  {
    PathsAfterUpsert(t, rec, tag, rec.path);
    assert forall id | id in OnPath(t.rows, rec.path) :: id < t.nextId;
    hide Upserted, Inv, HasKey;
  }

  /** Two items with a file on one path: syncing the older one again leaves the newer one primary. */
  lemma {:induction false} OlderRowStaysBehind(older: FileRecord, newer: FileRecord)
    requires older.key != newer.key && older.path == newer.path
    ensures var t := Table(map[1 := Row(older, "", None, 1), 2 := Row(newer, "", None, 1)], 2, 3);
      && Inv(t) && HasKey(t.rows, older.key) && IdOf(t.rows, older.key) == 1
      && !IsPrimary(Upserted(t, older, 2).rows, older.path, 1)
      && IsPrimary(Upserted(t, older, 2).rows, older.path, 2)
  {
    var t := Table(map[1 := Row(older, "", None, 1), 2 := Row(newer, "", None, 1)], 2, 3);
    assert 1 in t.rows && t.rows[1].rec.key == older.key;
    assert HasKey(t.rows, older.key);
    assert OnPath(t.rows, older.path) == {1, 2};
    PathsAfterUpsert(t, older, 2, older.path);
  }

  datatype ItemDir = ItemDir(itemId: int, source: Source, dir: string)

  function DirOfRow(row: Row): ItemDir {
    ItemDir(row.rec.key.itemId, row.rec.key.source, ExtractDirectory(row.rec.path))
  }

  /** A complete listing: the directories of the rows, and nothing else. */
  ghost predicate IsListing(dirs: seq<ItemDir>, rows: Rows) {
    forall d :: d in dirs <==> exists id | id in rows :: DirOfRow(rows[id]) == d
  }

  predicate IsBelow(row: Row, itemId: int, source: Source, dir: string) {
    && row.rec.key.itemId == itemId && row.rec.key.source == source
    && '/' !in dir && (row.rec.path == dir || dir + "/" <= row.rec.path)
  }

  /** A listing names each item with the first segment of each of its paths, or a whole path without a slash. */
  lemma {:induction false} ListedDirs(dirs: seq<ItemDir>, rows: Rows, itemId: int, source: Source, dir: string)
    requires IsListing(dirs, rows)
    ensures ItemDir(itemId, source, dir) in dirs <==>
      exists id | id in rows :: IsBelow(rows[id], itemId, source, dir)
  {
    forall id | id in rows
      ensures DirOfRow(rows[id]) == ItemDir(itemId, source, dir) <==> IsBelow(rows[id], itemId, source, dir)
    {
      FirstSegment(rows[id].rec.path, dir);
    }
  }

  lemma {:induction false} FirstSegment(path: string, dir: string)
    ensures ExtractDirectory(path) == dir <==> '/' !in dir && (path == dir || dir + "/" <= path)
  {
    if '/' !in dir && dir + "/" <= path {
      assert path == dir + "/" + path[|dir| + 1..];
      PathParts(dir, path[|dir| + 1..]);
    }
    if '/' !in dir {
      PathParts(dir, "");
    }
    var slash := IndexOf(path, '/');
    if slash.Some? {
      assert path[..slash.value + 1] == path[..slash.value] + "/";
    }
  }

  /** Every directory of the rows `ids`, once, and no other. */
  ghost predicate ListsOnce(dirs: seq<ItemDir>, rows: Rows, ids: set<int>)
    requires ids <= rows.Keys
  {
    && (forall d :: d in dirs <==> exists id | id in ids :: DirOfRow(rows[id]) == d)
    && forall i, j | 0 <= i < j < |dirs| :: dirs[i] != dirs[j]
  }

  lemma {:induction false} ListNext(dirs: seq<ItemDir>, rows: Rows, ids: set<int>, id: int)
    requires ids <= rows.Keys && id in rows && ListsOnce(dirs, rows, ids)
    ensures var dir := DirOfRow(rows[id]);
      ListsOnce(if dir in dirs then dirs else dirs + [dir], rows, ids + {id})
  {
    hide DirOfRow;
  }

  method Highest(ids: set<int>) returns (top: int)
    requires |ids| > 0
    ensures top in ids && forall id | id in ids :: id <= top
  {
    top := Pick(ids);
    var seen := {top};
    var rest := ids - seen;
    while |rest| > 0
      invariant seen + rest == ids && top in ids
      invariant forall id | id in seen :: id <= top
      decreases |rest|
    {
      var id := Pick(rest);
      if id > top {
        top := id;
      }
      seen, rest := seen + {id}, rest - {id};
    }
    assert seen == ids;
  }

  /** `SELECT ... ORDER BY id DESC`. */
  method OrderByIdDesc(ids: set<int>) returns (order: seq<int>)
    ensures Descending(order) && forall id :: id in order <==> id in ids
  {
    order := [];
    var rest := ids;
    while |rest| > 0
      invariant rest <= ids && Descending(order)
      invariant forall id :: id in order <==> id in ids - rest
      invariant forall i, other | 0 <= i < |order| && other in rest :: order[i] > other
      decreases |rest|
    {
      var top := Highest(rest);
      order, rest := order + [top], rest - {top};
    }
  }

  /** `SELECT ... LIMIT`: which rows come first is up to the database. */
  method SelectSome(ids: set<int>, limit: nat) returns (batch: set<int>)
    ensures batch <= ids && |batch| == (if |ids| < limit then |ids| else limit)
  {
    batch := {};
    var rest := ids;
    while |rest| > 0 && |batch| < limit
      invariant batch !! rest && batch + rest == ids && |batch| <= limit
      invariant |batch| + |rest| == |ids|
      decreases |rest|
    {
      var id := Pick(rest);
      batch, rest := batch + {id}, rest - {id};
    }
  }

  // ---------------------------------------------------------------- the store

  function WithKey(rows: Rows, key: Key): set<int> {
    set id | id in rows && rows[id].rec.key == key
  }

  lemma {:induction false} FindByKey(t: Table, key: Key)
    requires Inv(t)
    ensures HasKey(t.rows, key) <==> |WithKey(t.rows, key)| > 0
    ensures forall id | id in WithKey(t.rows, key) :: HasKey(t.rows, key) && id == IdOf(t.rows, key)
  {
    var ids := WithKey(t.rows, key);
    if HasKey(t.rows, key) {
      assert IdOf(t.rows, key) in ids;
    } else {
      assert forall id :: id !in ids;
      assert ids == {};
    }
  }

  lemma {:induction false} StaleWithout(t: Table, gone: set<int>, source: Source, tag: int)
    requires gone <= Stale(t.rows, source, tag)
    ensures Stale(WithoutRows(t, gone).rows, source, tag) == Stale(t.rows, source, tag) - gone
    ensures Inv(t) ==> Inv(WithoutRows(t, gone))
  {
  }

  lemma {:induction false} BatchShrinksStale(t: Table, gone: set<int>, batch: set<int>, source: Source, tag: int)
    requires batch <= Stale(WithoutRows(t, gone).rows, source, tag) && gone <= Stale(t.rows, source, tag)
    ensures WithoutRows(WithoutRows(t, gone), batch) == WithoutRows(t, gone + batch)
    ensures |gone + batch| == |gone| + |batch|
    ensures gone + batch <= Stale(t.rows, source, tag)
    ensures var left := Stale(WithoutRows(t, gone).rows, source, tag);
      && |Stale(WithoutRows(t, gone + batch).rows, source, tag)| == |left| - |batch|
      && (left == {} ==> gone == Stale(t.rows, source, tag))
    ensures Inv(t) ==> Inv(WithoutRows(t, gone + batch))
  {
    hide Stale, Inv;
    StaleWithout(t, gone, source, tag);
    assert gone !! batch;
    StaleWithout(t, gone + batch, source, tag);
    var stale := Stale(t.rows, source, tag);
    assert stale - (gone + batch) == stale - gone - batch;
    assert t.rows - gone - batch == t.rows - (gone + batch);
  }

  // ---------------------------------------------------------------- what statements meet

  /** Reserving a tag: the counter is not touched, or it is incremented and its value is lost or read. */
  datatype TagAnswer = NotReserved | Lost | Issued

  /** One batch of a prune: refused, done but not counted, or done. */
  datatype BatchAnswer = Refused | Uncounted | Done

  /** A query for several rows: it fails at once, breaks off after some rows, or lists them all. */
  datatype ListAnswer = Failed | CutShort(rows: nat) | Complete

  /** How many of `n` rows a query lists. */
  function Listed(n: nat, answer: ListAnswer): (r: nat)
    ensures r <= n
  {
    match answer
    case Failed => 0
    case CutShort(rows) => if rows < n then rows else n
    case Complete => n
  }

  function BatchSize(left: nat): nat {
    if left < BATCH_SIZE then left else BATCH_SIZE
  }

  /** Whether a prune of `left` rows succeeds when its batches from the k-th on meet `answers`. */
  predicate PruneSucceeds(left: nat, answers: nat -> BatchAnswer, k: nat)
    decreases left
  {
    answers(k).Done? && (left == 0 || PruneSucceeds(left - BatchSize(left), answers, k + 1))
  }

  /** How many rows it deletes. */
  function Deleted(left: nat, answers: nat -> BatchAnswer, k: nat): nat
    decreases left
  {
    match answers(k)
    case Refused => 0
    case Uncounted => BatchSize(left)
    case Done => if left == 0 then 0 else BatchSize(left) + Deleted(left - BatchSize(left), answers, k + 1)
  }

  /** How many rows it reports as deleted. */
  function Reported(left: nat, answers: nat -> BatchAnswer, k: nat): nat
    decreases left
  {
    if !answers(k).Done? || left == 0 then 0
    else BatchSize(left) + Reported(left - BatchSize(left), answers, k + 1)
  }

  /** A prune succeeds exactly when its full batches and the empty one that ends it are all done; then all rows go. */
  lemma {:induction false} PruneOutcome(left: nat, answers: nat -> BatchAnswer, k: nat)
    ensures PruneSucceeds(left, answers, k) <==>
      forall j: nat | k <= j <= k + (left + BATCH_SIZE - 1) / BATCH_SIZE :: answers(j).Done?
    ensures PruneSucceeds(left, answers, k) ==> Deleted(left, answers, k) == Reported(left, answers, k) == left
    ensures Reported(left, answers, k) <= Deleted(left, answers, k) <= left
    ensures Deleted(left, answers, k) <= Reported(left, answers, k) + BATCH_SIZE
    decreases left
  {
    if left > 0 {
      var rest := left - BatchSize(left);
      PruneOutcome(rest, answers, k + 1);
      assert (rest + BATCH_SIZE - 1) / BATCH_SIZE + 1 == (left + BATCH_SIZE - 1) / BATCH_SIZE;
    }
  }

  /**
   * A prune whose f-th batch is the first that is not done deletes the full batches before it, and that one as well if
   * only its count was lost.
   */
  lemma {:induction false} PruneStops(left: nat, answers: nat -> BatchAnswer, k: nat, f: nat)
    requires k <= f <= k + (left + BATCH_SIZE - 1) / BATCH_SIZE
    requires !answers(f).Done? && forall j: nat | k <= j < f :: answers(j).Done?
    ensures Reported(left, answers, k) == Min(left, 250 * (f - k))
    ensures Deleted(left, answers, k)
         == Reported(left, answers, k) + if answers(f).Uncounted? then Min(250, left - Min(left, 250 * (f - k))) else 0
    decreases left
  {
    if k < f {
      PruneStops(left - BatchSize(left), answers, k + 1, f);
    }
  }

  /** `Store`. What the database answers to a statement is a parameter of the method that executes it. */
  class Store {
    var rows: Rows
    var counter: int
    var nextId: int

    ghost function View(): Table
      reads this
    {
      Table(rows, counter, nextId)
    }

    constructor ()
      ensures View() == Table(map[], 0, 1) && Inv(View())
    {
      rows, counter, nextId := map[], 0, 1;
    }

    method UpsertFile(rec: FileRecord, tag: int, executes: bool) returns (ok: bool)
      requires Inv(View()) && 0 <= tag <= counter
      modifies this
      ensures Inv(View()) && ok == executes
      ensures View() == if ok then Upserted(old(View()), rec, tag) else old(View())
    {
      ok := executes;
      if !ok {
        return;
      }
      UpsertedKeepsInv(View(), rec, tag);
      FindByKey(View(), rec.key);
      hide Inv;
      var ids := WithKey(rows, rec.key);
      if |ids| > 0 {
        var id := Pick(ids);
        rows := rows[id := rows[id].(rec := rec, tag := tag)];
      } else {
        rows, nextId := rows[nextId := Row(rec, "", None, tag)], nextId + 1;
      }
    }

    /** A tag that was reserved but not read back is lost. */
    method GetNextSyncTag(answer: TagAnswer) returns (tag: Option<int>)
      requires Inv(View())
      modifies this`counter
      ensures Inv(View())
      ensures counter == old(counter) + if answer.NotReserved? then 0 else 1
      ensures tag == if answer.Issued? then Some(counter) else None
    {
      if answer.NotReserved? {
        return None;
      }
      counter := counter + 1;
      tag := if answer.Issued? then Some(counter) else None;
    }

    /**
     * `PruneBySyncTag`: stale rows go in batches until a batch finds none. It succeeds exactly when every batch
     * does, and then all stale rows are gone and counted; otherwise exactly the batches before the failure are.
     */
    method PruneBySyncTag(tag: int, source: Source, answers: nat -> BatchAnswer)
      returns (ok: bool, total: nat, ghost gone: set<int>)
      requires Inv(View())
      modifies this`rows
      ensures Inv(View())
      ensures View() == WithoutRows(old(View()), gone) && gone <= Stale(old(rows), source, tag)
      ensures var n := |Stale(old(rows), source, tag)|;
        if tag <= 0 then !ok && total == 0 && gone == {}
        else
          && ok == PruneSucceeds(n, answers, 0)
          && total == Reported(n, answers, 0)
          && |gone| == Deleted(n, answers, 0)
          && (ok ==> gone == Stale(old(rows), source, tag))
    {
      hide Inv, IsStale, Stale;
      ok, total, gone := false, 0, {};
      assert rows - {} == rows;
      if tag <= 0 {
        return;
      }
      ghost var n := |Stale(rows, source, tag)|;
      var k := 0;
      while true
        invariant View() == WithoutRows(old(View()), gone) && gone <= Stale(old(rows), source, tag)
        invariant Inv(View())
        invariant PruneSucceeds(n, answers, 0) == PruneSucceeds(|Stale(rows, source, tag)|, answers, k)
        invariant Reported(n, answers, 0) == total + Reported(|Stale(rows, source, tag)|, answers, k)
        invariant Deleted(n, answers, 0) == |gone| + Deleted(|Stale(rows, source, tag)|, answers, k)
        decreases |Stale(rows, source, tag)|
      {
        if answers(k).Refused? {
          return;
        }
        var batch := SelectSome(Stale(rows, source, tag), BATCH_SIZE);
        BatchShrinksStale(old(View()), gone, batch, source, tag);
        rows := rows - batch;
        gone := gone + batch;
        if answers(k).Uncounted? {
          return;
        }
        total := total + |batch|;
        if |batch| == 0 {
          break;
        }
        k := k + 1;
      }
      ok := true;
    }

    /** Up to three attempts; the row may be gone, which is no error. */
    method SetCdnUrl(id: int, url: string, expiresAt: int, executes: nat -> bool) returns (ok: bool)
      requires Inv(View())
      modifies this`rows
      ensures Inv(View())
      ensures ok <==> executes(0) || executes(1) || executes(2)
      ensures View() == if ok then WithCdn(old(View()), id, url, ToSeconds(expiresAt)) else old(View())
    {
      for attempt := 0 to 3
        invariant rows == old(rows)
        invariant forall k | 0 <= k < attempt :: !executes(k)
      {
        if executes(attempt) {
          if id in rows {
            rows := rows[id := rows[id].(cdnUrl := url, cdnExpires := Some(ToSeconds(expiresAt)))];
          }
          return true;
        }
      }
      ok := false;
    }

    method SetFileSize(id: int, size: int, executes: bool) returns (ok: bool)
      requires Inv(View())
      modifies this`rows
      ensures Inv(View()) && ok == executes
      ensures View() == if ok then WithSize(old(View()), id, size) else old(View())
    {
      ok := executes;
      if ok && id in rows {
        rows := rows[id := rows[id].(rec := rows[id].rec.(size := size))];
      }
    }

    /** The URL to use now; "" when there is none, None when the query failed. */
    method GetCdnUrl(id: int, now: int, executes: bool) returns (url: Option<string>)
      ensures url.Some? <==> executes
      ensures url.Some? ==> url.value == if id in rows then CachedUrl(rows[id], now) else ""
      ensures url.Some? && url.value != "" <==>
        && executes && id in rows && rows[id].cdnUrl != ""
        && (rows[id].cdnExpires.Some? ==> now <= rows[id].cdnExpires.value)
      ensures url.Some? && url.value != "" ==> url.value == rows[id].cdnUrl
    {
      if !executes {
        return None;
      }
      if id !in rows || rows[id].cdnUrl == "" {
        return Some("");
      }
      match rows[id].cdnExpires {
        case None => url := Some(rows[id].cdnUrl);
        case Some(expires) => url := Some(if now > expires then "" else rows[id].cdnUrl);
      }
    }

    /** The row with the highest id on a path, if the query succeeds and there is one. */
    method GetFileByPath(path: string, executes: bool) returns (ok: bool, primary: Option<int>)
      ensures ok == executes
      ensures primary.Some? <==> ok && OnPath(rows, path) != {}
      ensures primary.Some? ==> IsPrimary(rows, path, primary.value)
    {
      ok, primary := executes, None;
      if ok {
        var order := OrderByIdDesc(OnPath(rows, path));
        if order != [] {
          primary := Some(order[0]);
          assert order[0] in order;
        } else {
          assert forall id :: id in OnPath(rows, path) ==> id in order;
          assert OnPath(rows, path) == {};
        }
      }
    }

    /** The other rows on a path, newest first; a query that breaks off leaves those it has read, with the error. */
    method GetFileAlternatives(path: string, answer: ListAnswer)
      returns (ok: bool, others: seq<int>, ghost all: seq<int>)
      ensures Descending(all)
      ensures forall id :: id in all <==> id in OnPath(rows, path) && !IsPrimary(rows, path, id)
      ensures ok == answer.Complete? && others == all[..Listed(|all|, answer)]
    {
      var order := OrderByIdDesc(OnPath(rows, path));
      all := order;
      if order != [] {
        all := order[1..];
        assert order == [order[0]] + all;
        assert order[0] in order;
      }
      ok := answer.Complete?;
      others := if order == [] then [] else order[1..];
      others := others[..Listed(|others|, answer)];
    }

    /**
     * The distinct item directories, in no particular order: `all` if the query completes; a query that breaks off
     * leaves the first few, with the error.
     */
    method ListItemDirs(answer: ListAnswer) returns (ok: bool, dirs: seq<ItemDir>, ghost all: seq<ItemDir>)
      ensures IsListing(all, rows) && forall i, j | 0 <= i < j < |all| :: all[i] != all[j]
      ensures ok == answer.Complete? && dirs == all[..Listed(|all|, answer)]
    {
      var listed: seq<ItemDir> := [];
      var rest := rows.Keys;
      while |rest| > 0
        invariant rest <= rows.Keys && ListsOnce(listed, rows, rows.Keys - rest)
        decreases |rest|
      {
        var id := Pick(rest);
        ListNext(listed, rows, rows.Keys - rest, id);
        hide ListsOnce;
        assert rows.Keys - (rest - {id}) == rows.Keys - rest + {id};
        rest := rest - {id};
        if DirOfRow(rows[id]) !in listed {
          listed := listed + [DirOfRow(rows[id])];
        }
      }
      assert rows.Keys - rest == rows.Keys;
      all := listed;
      ok, dirs := answer.Complete?, listed[..Listed(|listed|, answer)];
    }
  }
}
