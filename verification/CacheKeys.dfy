/** The string keys of the negative cache, and how the sync-done hook reads an item id back out of one. */
module CacheKeys {
  import opened Wrappers
  import opened Int64
  import opened Text
  import opened Decimal

  datatype Source = Torrent | Usenet

  function SourceName(source: Source): string {
    if source.Usenet? then "usenet" else "torrent"
  }

  /** `cdnCacheKey`: "src:item:file". */
  function CdnCacheKey(source: Source, itemId: int, fileId: int): string {
    SourceName(source) + ":" + FormatInt(itemId) + ":" + FormatInt(fileId)
  }

  /** The item id that `PruneBreakerForMissingItems` parses out of a key, if the key has three fields. */
  function ItemOfKey(key: string): Option<int> {
    var parts := Split(key, ':');
    if |parts| == 3 then ParseInt(parts[1]) else None
  }

  lemma {:induction false} KeyFields(source: Source, itemId: int, fileId: int)
    ensures Split(CdnCacheKey(source, itemId, fileId), ':')
         == [SourceName(source), FormatInt(itemId), FormatInt(fileId)]
  {
    var parts := [SourceName(source), FormatInt(itemId), FormatInt(fileId)];
    FormatIntAlphabet(itemId);
    FormatIntAlphabet(fileId);
    calc {
      Join(parts, ':');
      parts[0] + [':'] + Join(parts[1..], ':');
      { assert parts[1..][1..] == [parts[2]]; }
      parts[0] + [':'] + (parts[1] + [':'] + parts[2]);
      CdnCacheKey(source, itemId, fileId);
    }
    SplitOfJoin(parts, ':');
  }

  lemma {:induction false} ItemOfCacheKey(source: Source, itemId: int, fileId: int)
    requires IsInt64(itemId)
    ensures ItemOfKey(CdnCacheKey(source, itemId, fileId)) == Some(itemId)
  {
    KeyFields(source, itemId, fileId);
    ParseOfFormat(itemId);
  }

  lemma {:induction false} CdnCacheKeyInjective(s1: Source, i1: int, f1: int, s2: Source, i2: int, f2: int)
    requires IsInt64(i1) && IsInt64(f1) && IsInt64(i2) && IsInt64(f2)
    ensures CdnCacheKey(s1, i1, f1) == CdnCacheKey(s2, i2, f2) <==> s1 == s2 && i1 == i2 && f1 == f2
  {
    if CdnCacheKey(s1, i1, f1) == CdnCacheKey(s2, i2, f2) {
      KeyFields(s1, i1, f1);
      KeyFields(s2, i2, f2);
      assert SourceName(s1) == SourceName(s2) && "usenet" != "torrent";
      FormatIntInjective(i1, i2);
      FormatIntInjective(f1, f2);
    }
  }
}
