/** What the sync worker reports to its change hooks: the items that came and went between two listings. */
module ChangeHooks {
  import opened CacheKeys
  import opened FileTable
  import opened Eviction

  datatype ItemKey = ItemKey(itemId: int, source: Source)

  function KeyOf(d: ItemDir): ItemKey {
    ItemKey(d.itemId, d.source)
  }

  /** The directory of each listed item; of an item listed with several, the last one. */
  function DirsByItem(items: seq<ItemDir>): map<ItemKey, string> {
    if items == [] then map[]
    else
      var last := items[|items| - 1];
      DirsByItem(items[..|items| - 1])[KeyOf(last) := last.dir]
  }

  /** The items that have a row. */
  function Items(rows: Rows): set<ItemKey> {
    set id | id in rows :: ItemKey(rows[id].rec.key.itemId, rows[id].rec.key.source)
  }

  /** The items that a listing, complete or not, names. */
  function KeysOf(items: seq<ItemDir>): set<ItemKey> {
    set d | d in items :: KeyOf(d)
  }

  lemma {:induction false} DirsByItemKeys(items: seq<ItemDir>)
    ensures forall k | k in DirsByItem(items) :: ItemDir(k.itemId, k.source, DirsByItem(items)[k]) in items
    ensures forall d | d in items :: KeyOf(d) in DirsByItem(items)
  {
    if items != [] {
      var init, last := items[..|items| - 1], items[|items| - 1];
      DirsByItemKeys(init);
      assert items == init + [last];
    }
  }

  lemma {:induction false} DirsByItemDomain(items: seq<ItemDir>)
    ensures DirsByItem(items).Keys == KeysOf(items)
  {
    DirsByItemKeys(items);
    hide DirsByItem;
    forall k | k in DirsByItem(items) ensures k in KeysOf(items) {
      assert KeyOf(ItemDir(k.itemId, k.source, DirsByItem(items)[k])) == k;
    }
  }

  /** A complete listing names exactly the items that have a row; one that broke off names some of them. */
  lemma {:induction false} ListingItems(all: seq<ItemDir>, rows: Rows, n: nat)
    requires IsListing(all, rows) && n <= |all|
    ensures KeysOf(all) == Items(rows) && KeysOf(all[..n]) <= Items(rows)
    ensures KeysOf(all[..n]) == {} <==> n == 0
    ensures all == [] <==> Items(rows) == {}
  {
    forall k ensures k in KeysOf(all) <==> k in Items(rows) {
      if k in Items(rows) {
        var id :| id in rows && ItemKey(rows[id].rec.key.itemId, rows[id].rec.key.source) == k;
        assert DirOfRow(rows[id]) in all && KeyOf(DirOfRow(rows[id])) == k;
      }
      if k in KeysOf(all) {
        var d :| d in all && KeyOf(d) == k;
        var id :| id in rows && DirOfRow(rows[id]) == d;
        assert k == ItemKey(rows[id].rec.key.itemId, rows[id].rec.key.source);
      }
    }
    if n > 0 {
      assert all[0] in all[..n] && KeyOf(all[0]) in KeysOf(all[..n]);
    }
    if all != [] {
      assert KeyOf(all[0]) in KeysOf(all);
    } else {
      assert forall k :: k !in Items(rows);
    }
    assert forall d | d in all[..n] :: d in all;
  }

  function Elements(order: seq<ItemKey>): set<ItemKey> {
    set item | item in order
  }

  /** `report` lists the directories of the items of `dirs` that `others` lacks, each item once. */
  ghost predicate Reports(report: seq<string>, order: seq<ItemKey>, dirs: map<ItemKey, string>, missing: set<ItemKey>) {
    && |report| == |order|
    && (forall i | 0 <= i < |order| :: order[i] in dirs && report[i] == dirs[order[i]])
    && (forall i, j | 0 <= i < j < |order| :: order[i] != order[j])
    && Elements(order) == missing
  }

  lemma {:induction false} ReportOneMore(
      report: seq<string>, order: seq<ItemKey>, dirs: map<ItemKey, string>, missing: set<ItemKey>, k: ItemKey)
    requires Reports(report, order, dirs, missing) && k in dirs && k !in missing
    ensures Reports(report + [dirs[k]], order + [k], dirs, missing + {k})
  {
    forall i | 0 <= i < |order| ensures order[i] in missing {
      assert order[i] in Elements(order);
    }
    var longer := order + [k];
    forall item ensures item in longer <==> item in missing + {k} {
      assert item in order <==> item in Elements(order);
    }
  }

  method DirsMissingFrom(dirs: map<ItemKey, string>, others: map<ItemKey, string>)
    returns (report: seq<string>, ghost order: seq<ItemKey>)
    ensures Reports(report, order, dirs, dirs.Keys - others.Keys)
  {
    report, order := [], [];
    var rest := dirs.Keys;
    ghost var missing: set<ItemKey> := {};
    assert Reports(report, order, dirs, missing);
    hide Reports;
    while |rest| > 0
      invariant rest <= dirs.Keys && missing !! rest
      invariant forall k :: k in missing <==> k in dirs && k !in rest && k !in others
      invariant Reports(report, order, dirs, missing)
      decreases |rest|
    {
      var k := Pick(rest);
      if k !in others {
        ReportOneMore(report, order, dirs, missing, k);
        report, order, missing := report + [dirs[k]], order + [k], missing + {k};
      }
      rest := rest - {k};
    }
    assert missing == dirs.Keys - others.Keys;
  }

  /** `fireChangeHooks`. A hook is called only when its list is not empty. */
  method FireChangeHooks(oldItems: seq<ItemDir>, newItems: seq<ItemDir>)
    returns (added: seq<string>, removed: seq<string>, ghost came: seq<ItemKey>, ghost went: seq<ItemKey>)
    ensures var before, after := DirsByItem(oldItems), DirsByItem(newItems);
      && Reports(added, came, after, after.Keys - before.Keys)
      && Reports(removed, went, before, before.Keys - after.Keys)
  {
    var oldSet, newSet := map[], map[];
    for i := 0 to |oldItems|
      invariant oldSet == DirsByItem(oldItems[..i])
    {
      assert oldItems[..i + 1][..i] == oldItems[..i];
      oldSet := oldSet[KeyOf(oldItems[i]) := oldItems[i].dir];
    }
    for i := 0 to |newItems|
      invariant newSet == DirsByItem(newItems[..i])
    {
      assert newItems[..i + 1][..i] == newItems[..i];
      newSet := newSet[KeyOf(newItems[i]) := newItems[i].dir];
    }
    assert oldItems[..|oldItems|] == oldItems && newItems[..|newItems|] == newItems;
    added, came := DirsMissingFrom(newSet, oldSet);
    removed, went := DirsMissingFrom(oldSet, newSet);
  }

  // ---------------------------------------------------------------- when the hooks tell the whole change

  /** What the first listing named: nothing, some items, or all of them. */
  ghost predicate Snapshot(answer: ListAnswer, was: set<ItemKey>, known: set<ItemKey>) {
    && known <= was
    && (answer.Failed? ==> known == {})
    && (answer.CutShort? ==> (known == {} <==> answer.rows == 0 || was == {}))
    && (answer.Complete? ==> known == was)
  }

  /**
   * The hooks are skipped when the second listing failed or either is empty. `known` is what the first listing
   * named.
   */
  predicate Fires(known: set<ItemKey>, now: set<ItemKey>, relisted: bool) {
    known != {} && now != {} && relisted
  }

  function ReportedAdded(known: set<ItemKey>, now: set<ItemKey>, relisted: bool): set<ItemKey> {
    if Fires(known, now, relisted) then now - known else {}
  }

  function ReportedRemoved(known: set<ItemKey>, now: set<ItemKey>, relisted: bool): set<ItemKey> {
    if Fires(known, now, relisted) then known - now else {}
  }

  /**
   * The reports are the true differences if and only if the hooks were skipped (because the second listing failed or
   * either was empty) while nothing changed, or they fired on a first listing that named every item.
   */
  lemma {:induction false} ReportsExactIff(was: set<ItemKey>, known: set<ItemKey>, now: set<ItemKey>, relisted: bool)
    requires known <= was
    ensures ReportedAdded(known, now, relisted) == now - was && ReportedRemoved(known, now, relisted) == was - now
       <==> if known != {} && now != {} && relisted then known == was else now == was
  {
    if Fires(known, now, relisted) && now - known == now - was && known - now == was - now {
      forall k | k in was ensures k in known {
        assert k !in now - was && k in now ==> k !in now - known;
        assert k !in now ==> k in was - now;
      }
    }
    if !Fires(known, now, relisted) && now - was == {} && was - now == {} {
      forall k ensures k in now <==> k in was {
        assert k !in now - was && k !in was - now;
      }
    }
  }
}
