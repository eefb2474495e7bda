/** Virtual library folders: which records a filter shows. Regular expressions are arbitrary predicates here. */
module LibraryFilter {
  import opened Wrappers
  import opened CacheKeys
  import opened Records

  datatype Filter = Filter(
    directoryInclude: Option<string -> bool>,
    directoryExclude: Option<string -> bool>,
    fileRegex: Option<string -> bool>,
    largestFileOnly: bool,
    minSize: int,
    maxSize: int)
  {
    predicate MatchDirectory(name: string) {
      && (directoryInclude.Some? ==> directoryInclude.value(name))
      && !(directoryExclude.Some? && directoryExclude.value(name))
    }

    predicate MatchFile(relPath: string) {
      fileRegex.Some? ==> fileRegex.value(relPath)
    }

    predicate MatchSize(size: int) {
      !(minSize > 0 && size < minSize) && !(maxSize > 0 && size > maxSize)
    }

    /** Whether a record on its own passes. */
    predicate Keeps(rec: FileRecord) {
      && MatchDirectory(ExtractDirectory(rec.path))
      && MatchFile(ExtractRelativePath(rec.path))
      && MatchSize(rec.size)
    }
  }

  /** Whether a record passes, with its path's directory and the rest of its path. */
  lemma {:induction false} KeepsExactly(f: Filter, rec: FileRecord, dir: string, rest: string)
    requires '/' !in dir && (rec.path == dir + "/" + rest || rec.path == dir == rest)
    ensures f.Keeps(rec) <==>
      && (f.directoryInclude.Some? ==> f.directoryInclude.value(dir))
      && (f.directoryExclude.Some? ==> !f.directoryExclude.value(dir))
      && (f.fileRegex.Some? ==> f.fileRegex.value(rest))
      && (f.minSize > 0 ==> rec.size >= f.minSize)
      && (f.maxSize > 0 ==> rec.size <= f.maxSize)
  {
    PathParts(dir, rest);
  }

  function Plain(f: Filter, records: seq<FileRecord>): seq<FileRecord> {
    if records == [] then []
    else Plain(f, records[..|records| - 1]) + if f.Keeps(records[|records| - 1]) then [records[|records| - 1]] else []
  }

  /** The item a record belongs to. */
  type Item = (Source, int)

  function ItemOf(rec: FileRecord): Item {
    (rec.key.source, rec.key.itemId)
  }

  /** The items of the records, each at its first occurrence. */
  function Items(records: seq<FileRecord>): seq<Item> {
    if records == [] then []
    else
      var init, item := records[..|records| - 1], ItemOf(records[|records| - 1]);
      if item in Items(init) then Items(init) else Items(init) + [item]
  }

  lemma {:induction false} ItemsAppend(records: seq<FileRecord>, rec: FileRecord)
    ensures Items(records + [rec]) == Items(records) + if ItemOf(rec) in Items(records) then [] else [ItemOf(rec)]
  {
    assert (records + [rec])[..|records|] == records;
  }

  lemma {:induction false} ItemsMembers(records: seq<FileRecord>, item: Item)
    ensures item in Items(records) <==> exists i | 0 <= i < |records| :: ItemOf(records[i]) == item
  {
    if records != [] {
      ItemsMembers(records[..|records| - 1], item);
    }
  }

  lemma {:induction false} ItemsDistinct(records: seq<FileRecord>)
    ensures forall i, j | 0 <= i < j < |Items(records)| :: Items(records)[i] != Items(records)[j]
  {
    if records != [] {
      ItemsDistinct(records[..|records| - 1]);
    }
  }

  /** `i` is the position of an item's largest record, the earliest among equals. */
  predicate IsBest(records: seq<FileRecord>, item: Item, i: nat) {
    && i < |records| && ItemOf(records[i]) == item
    && (forall j | 0 <= j < |records| && ItemOf(records[j]) == item :: records[j].size <= records[i].size)
    && (forall j | 0 <= j < i && ItemOf(records[j]) == item :: records[j].size < records[i].size)
  }

  lemma {:induction false} BestIsUnique(records: seq<FileRecord>, item: Item, i: nat, j: nat)
    requires IsBest(records, item, i) && IsBest(records, item, j)
    ensures i == j
  {
  }

  /** One record per item in order of first occurrence, each the item's best. */
  ghost predicate IsLargestOnly(records: seq<FileRecord>, result: seq<FileRecord>) {
    && |result| == |Items(records)|
    && forall k | 0 <= k < |result| :: HasBest(records, Items(records)[k], result[k])
  }

  lemma {:induction false} LargestOnlyIsUnique(records: seq<FileRecord>, a: seq<FileRecord>, b: seq<FileRecord>)
    requires IsLargestOnly(records, a) && IsLargestOnly(records, b)
    ensures a == b
  {
    forall k | 0 <= k < |a| ensures a[k] == b[k] {
      var item := Items(records)[k];
      assert HasBest(records, item, a[k]) && HasBest(records, item, b[k]);
      var i :| 0 <= i < |records| && IsBest(records, item, i) && records[i] == a[k];
      var j :| 0 <= j < |records| && IsBest(records, item, j) && records[j] == b[k];
      BestIsUnique(records, item, i, j);
    }
  }

  lemma {:induction false} BestAfter(records: seq<FileRecord>, rec: FileRecord, item: Item, i: nat)
    requires IsBest(records, item, i)
    ensures if ItemOf(rec) == item && rec.size > records[i].size then IsBest(records + [rec], item, |records|)
            else IsBest(records + [rec], item, i)
  {
  }

  lemma {:induction false} FirstIsBest(records: seq<FileRecord>, rec: FileRecord)
    requires ItemOf(rec) !in Items(records)
    ensures IsBest(records + [rec], ItemOf(rec), |records|)
  {
    ItemsMembers(records, ItemOf(rec));
  }

  /** `best` holds the best record so far of exactly the items seen so far. */
  ghost predicate BestOf(records: seq<FileRecord>, best: map<Item, FileRecord>) {
    && (forall item :: item in best <==> item in Items(records))
    && forall item | item in best :: HasBest(records, item, best[item])
  }

  ghost predicate HasBest(records: seq<FileRecord>, item: Item, rec: FileRecord) {
    exists i | 0 <= i < |records| :: IsBest(records, item, i) && records[i] == rec
  }

  lemma {:induction false} ItemsInOrder(records: seq<FileRecord>, k: nat, m: nat) returns (i: nat)
    requires k < m < |Items(records)|
    ensures i < |records| && ItemOf(records[i]) == Items(records)[k]
    ensures forall j | 0 <= j <= i :: ItemOf(records[j]) != Items(records)[m]
  {
    var n := |records| - 1;
    var init := records[..n];
    ItemsDistinct(records);
    if m < |Items(init)| {
      i := ItemsInOrder(init, k, m);
    } else {
      ItemsMembers(init, Items(records)[k]);
      ItemsMembers(init, ItemOf(records[n]));
      var at :| 0 <= at < n && ItemOf(init[at]) == Items(records)[k];
      i := at;
    }
  }

  /**
   * In plain words: the result holds records; every item has exactly one among them, which no record of the item
   * exceeds in size and which comes before all others of its size.
   */
  lemma {:induction false} LargestOnlyMeans(records: seq<FileRecord>, result: seq<FileRecord>, i: nat)
    returns (k: nat, b: nat)
    requires IsLargestOnly(records, result) && i < |records|
    ensures k < |result| && b < |records| && result[k] == records[b]
    ensures result[k].key.source == records[i].key.source && result[k].key.itemId == records[i].key.itemId
    ensures records[i].size <= result[k].size && (records[i].size == result[k].size ==> b <= i)
    ensures forall m | 0 <= m < |result| && m != k ::
      result[m].key.source != records[i].key.source || result[m].key.itemId != records[i].key.itemId
  {
    ItemsMembers(records, ItemOf(records[i]));
    ItemsDistinct(records);
    LargestOnlyShape(records, result);
    hide Items;
    var at :| 0 <= at < |Items(records)| && Items(records)[at] == ItemOf(records[i]);
    assert HasBest(records, Items(records)[at], result[at]);
    var best :| 0 <= best < |records| && IsBest(records, Items(records)[at], best) && records[best] == result[at];
    k, b := at, best;
  }

  /** The items come in the order in which the records first name them. */
  lemma {:induction false} LargestOnlyOrder(records: seq<FileRecord>, result: seq<FileRecord>, k: nat, m: nat)
    returns (i: nat)
    requires IsLargestOnly(records, result) && k < m < |result|
    ensures i < |records|
    ensures records[i].key.source == result[k].key.source && records[i].key.itemId == result[k].key.itemId
    ensures forall j | 0 <= j <= i ::
      records[j].key.source != result[m].key.source || records[j].key.itemId != result[m].key.itemId
  {
    LargestOnlyShape(records, result);
    i := ItemsInOrder(records, k, m);
  }

  /** `KeepLargest`. */
  method KeepLargest(records: seq<FileRecord>) returns (result: seq<FileRecord>)
    ensures IsLargestOnly(records, result)
  {
    hide Items, HasBest;
    var best: map<Item, FileRecord> := map[];
    var order: seq<Item> := [];
    EmptyBest();
    for i := 0 to |records|
      invariant order == Items(records[..i]) && BestOf(records[..i], best)
    {
      var rec := records[i];
      assert records[..i + 1] == records[..i] + [rec];
      ItemsAppend(records[..i], rec);
      BestStep(records[..i], rec, best);
      var item := ItemOf(rec);
      if item !in best {
        best := best[item := rec];
        order := order + [item];
      } else if rec.size > best[item].size {
        best := best[item := rec];
      }
    }
    assert records[..|records|] == records;
    result := [];
    for k := 0 to |order|
      invariant |result| == k
      invariant forall m | 0 <= m < k :: HasBest(records, order[m], result[m])
    {
      assert order[k] in order;
      result := result + [best[order[k]]];
    }
  }

  lemma {:induction false} EmptyBest()
    ensures Items([]) == [] && BestOf([], map[])
  {
  }

  function Improved(best: map<Item, FileRecord>, rec: FileRecord): map<Item, FileRecord> {
    var item := ItemOf(rec);
    if item !in best || rec.size > best[item].size then best[item := rec] else best
  }

  lemma {:induction false} BestStep(records: seq<FileRecord>, rec: FileRecord, best: map<Item, FileRecord>)
    requires BestOf(records, best)
    ensures BestOf(records + [rec], Improved(best, rec))
  {
    hide Items;
    var all, next := records + [rec], Improved(best, rec);
    ItemsAppend(records, rec);
    forall item | item in next ensures HasBest(all, item, next[item]) {
      if item in best {
        var b :| 0 <= b < |records| && IsBest(records, item, b) && records[b] == best[item];
        BestAfter(records, rec, item, b);
        assert all[b] == records[b] && all[|records|] == rec;
      } else {
        FirstIsBest(records, rec);
        assert all[|records|] == rec;
      }
    }
  }

  /**
   * What a filter shows: the records that pass on their own, and of those the largest of each item if so configured.
   */
  ghost predicate IsView(f: Filter, records: seq<FileRecord>, result: seq<FileRecord>) {
    if f.largestFileOnly then IsLargestOnly(Plain(f, records), result) else result == Plain(f, records)
  }

  /** `Filter.Apply`: remembering directory verdicts changes nothing. */
  method Apply(f: Filter, records: seq<FileRecord>) returns (result: seq<FileRecord>)
    ensures IsView(f, records, result)
  {
    var verdicts: map<string, bool> := map[];
    result := [];
    for i := 0 to |records|
      invariant forall dir | dir in verdicts :: verdicts[dir] == f.MatchDirectory(dir)
      invariant result == Plain(f, records[..i])
    {
      var rec := records[i];
      assert records[..i + 1][..i] == records[..i];
      var dir := ExtractDirectory(rec.path);
      if dir !in verdicts {
        verdicts := verdicts[dir := f.MatchDirectory(dir)];
      }
      if !verdicts[dir] {
        continue;
      }
      if !f.MatchFile(ExtractRelativePath(rec.path)) {
        continue;
      }
      if !f.MatchSize(rec.size) {
        continue;
      }
      result := result + [rec];
    }
    assert records[..|records|] == records;
    if f.largestFileOnly {
      result := KeepLargest(result);
    }
  }

  // ---------------------------------------------------------------- filtering again changes nothing

  lemma {:induction false} PlainMembers(f: Filter, records: seq<FileRecord>)
    ensures forall r :: r in Plain(f, records) <==> r in records && f.Keeps(r)
  {
    if records != [] {
      PlainMembers(f, records[..|records| - 1]);
      assert records == records[..|records| - 1] + [records[|records| - 1]];
    }
  }

  lemma {:induction false} PlainOfKept(f: Filter, records: seq<FileRecord>)
    requires forall r | r in records :: f.Keeps(r)
    ensures Plain(f, records) == records
  {
    hide Filter.Keeps;
    if records != [] {
      var init, r := records[..|records| - 1], records[|records| - 1];
      assert r in records && forall x | x in init :: x in records;
      assert init + [r] == records;
      PlainOfKept(f, init);
    }
  }

  lemma {:induction false} ItemsOfDistinct(records: seq<FileRecord>)
    requires forall i, j | 0 <= i < j < |records| :: ItemOf(records[i]) != ItemOf(records[j])
    ensures |Items(records)| == |records|
    ensures forall k | 0 <= k < |records| :: Items(records)[k] == ItemOf(records[k])
  {
    if records != [] {
      var n := |records| - 1;
      ItemsOfDistinct(records[..n]);
      forall k | 0 <= k < n ensures Items(records[..n])[k] != ItemOf(records[n]) {
        assert Items(records[..n])[k] == ItemOf(records[..n][k]);
      }
    }
  }

  lemma {:induction false} LargestOnlyShape(records: seq<FileRecord>, result: seq<FileRecord>)
    requires IsLargestOnly(records, result)
    ensures forall k | 0 <= k < |result| :: result[k] in records && ItemOf(result[k]) == Items(records)[k]
  {
    forall k | 0 <= k < |result| ensures result[k] in records && ItemOf(result[k]) == Items(records)[k] {
      assert HasBest(records, Items(records)[k], result[k]);
    }
  }

  lemma {:induction false} LargestOnlyAgain(records: seq<FileRecord>, result: seq<FileRecord>)
    requires IsLargestOnly(records, result)
    ensures IsLargestOnly(result, result)
  {
    LargestOnlyShape(records, result);
    ItemsDistinct(records);
    ItemsOfDistinct(result);
    forall k | 0 <= k < |result| ensures HasBest(result, Items(result)[k], result[k]) {
      assert IsBest(result, Items(result)[k], k);
    }
  }

  /** `Apply` is idempotent: applied to what it shows, a filter shows exactly that. */
  lemma {:induction false} ViewOfView(
      f: Filter, records: seq<FileRecord>, once: seq<FileRecord>, twice: seq<FileRecord>)
    requires IsView(f, records, once) && IsView(f, once, twice)
    ensures twice == once
  {
    PlainMembers(f, records);
    if f.largestFileOnly {
      LargestOnlyShape(Plain(f, records), once);
      PlainOfKept(f, once);
      LargestOnlyAgain(Plain(f, records), once);
      LargestOnlyIsUnique(once, once, twice);
    } else {
      PlainOfKept(f, once);
    }
  }
}
