/** From the API's item list to file records. */
module RemoteItems {
  import opened Wrappers
  import opened Text
  import opened CacheKeys
  import opened Records

  datatype RemoteFile = RemoteFile(id: int, s3Path: string, shortName: string, size: int, mimeType: string)

  datatype RemoteItem =
    RemoteItem(id: int, downloadState: string, downloadPresent: bool, createdAt: string, files: seq<RemoteFile>)

  /** A list call's result: all pages, or an error and no items. */
  datatype Fetch = Fetched(items: seq<RemoteItem>) | FetchFailed(error: string)

  const FORBIDDEN := "\\/:*?\"<>|&"

  function SanitizedChar(c: char): char {
    if c in FORBIDDEN then '_' else c
  }

  function Sanitized(s: string): (r: string)
    ensures |r| == |s| && forall i | 0 <= i < |r| :: r[i] !in FORBIDDEN
  {
    seq(|s|, i requires 0 <= i < |s| => SanitizedChar(s[i]))
  }

  /** The part of `s3_path` after its leading hash segment, if the path has that form. */
  function AfterHash(s3Path: string): Option<string> {
    match IndexOf(s3Path, '/')
    case Some(i) => if i > 0 && i + 1 < |s3Path| then Some(s3Path[i + 1..]) else None
    case None => None
  }

  function SanitizedAll(segments: seq<string>): (r: seq<string>)
    ensures |r| == |segments| && forall i | 0 <= i < |r| :: r[i] == Sanitized(segments[i])
  {
    seq(|segments|, i requires 0 <= i < |segments| => Sanitized(segments[i]))
  }

  function VirtualPath(f: RemoteFile): string {
    match AfterHash(f.s3Path)
    case Some(rest) => Join(SanitizedAll(Split(rest, '/')), '/')
    case None => Sanitized(f.shortName)
  }

  function RecordOf(source: Source, itemId: int, createdAt: string, f: RemoteFile): FileRecord {
    FileRecord(Key(source, itemId, f.id), Sanitized(f.shortName), VirtualPath(f), f.size, f.mimeType, createdAt)
  }

  lemma {:induction false} ForbiddenChars(c: char)
    ensures SanitizedChar(c) ==
      if || c == '\\' || c == '/' || c == ':' || c == '*' || c == '?' || c == '"' || c == '<' || c == '>' || c == '|'
         || c == '&'
      then '_' else c
  {
    assert FORBIDDEN == ['\\', '/', ':', '*', '?', '"', '<', '>', '|', '&'];
  }

  /** `clean` is `raw` with its forbidden characters replaced; as a path it keeps its slashes. */
  predicate Cleans(clean: string, raw: string, isPath: bool) {
    && |clean| == |raw|
    && forall i | 0 <= i < |raw| ::
         clean[i] == if raw[i] == '/' then (if isPath then '/' else '_')
                     else if raw[i] in ['\\', ':', '*', '?', '"', '<', '>', '|', '&'] then '_' else raw[i]
  }

  lemma {:induction false} SanitizedCleans(s: string)
    ensures Cleans(Sanitized(s), s, false)
    ensures '/' !in s ==> Cleans(Sanitized(s), s, true)
  {
    forall i | 0 <= i < |s| {
      ForbiddenChars(s[i]);
    }
  }

  lemma {:induction false} CleansJoined(a: string, s: string, b: string, t: string)
    requires Cleans(a, s, true) && Cleans(b, t, true)
    ensures Cleans(a + "/" + b, s + "/" + t, true)
  {
  }

  lemma {:induction false} JoinCleans(parts: seq<string>)
    requires forall i | 0 <= i < |parts| :: '/' !in parts[i]
    ensures Cleans(Join(SanitizedAll(parts), '/'), Join(parts, '/'), true)
  {
    assert Cleans("", "", true);
    hide Cleans, Sanitized;
    if parts != [] {
      SanitizedCleans(parts[0]);
      if |parts| > 1 {
        JoinCleans(parts[1..]);
        assert SanitizedAll(parts)[1..] == SanitizedAll(parts[1..]);
        CleansJoined(Sanitized(parts[0]), parts[0], Join(SanitizedAll(parts[1..]), '/'), Join(parts[1..], '/'));
      }
    }
  }

  /** A path that starts with a hash segment loses it, and keeps the rest with its slashes. */
  lemma {:induction false} HashIsStripped(f: RemoteFile, hash: string, rest: string)
    requires f.s3Path == hash + "/" + rest && hash != "" && '/' !in hash && rest != ""
    ensures Cleans(VirtualPath(f), rest, true)
  {
    StrippedRest(f, hash, rest);
    JoinCleans(Split(rest, '/'));
    hide Cleans, Sanitized, Split, Join;
  }

  lemma {:induction false} StrippedRest(f: RemoteFile, hash: string, rest: string)
    requires f.s3Path == hash + "/" + rest && hash != "" && '/' !in hash && rest != ""
    ensures AfterHash(f.s3Path) == Some(rest)
  {
    assert f.s3Path[..|hash|] == hash && f.s3Path[|hash| + 1..] == rest;
    IndexOfFirst(f.s3Path, '/', |hash|);
  }

  /** Sanitizing adds and removes no slash: the path has the segments of the rest, sanitized one by one. */
  lemma {:induction false} VirtualPathSegments(f: RemoteFile, hash: string, rest: string)
    requires f.s3Path == hash + "/" + rest && hash != "" && '/' !in hash && rest != ""
    ensures var raw, segments := Split(rest, '/'), Split(VirtualPath(f), '/');
      |segments| == |raw| && forall i | 0 <= i < |raw| :: Cleans(segments[i], raw[i], false)
  {
    StrippedRest(f, hash, rest);
    var raw := Split(rest, '/');
    var segments := SanitizedAll(raw);
    forall i | 0 <= i < |segments| ensures '/' !in segments[i] && Cleans(segments[i], raw[i], false) {
      SanitizedCleans(raw[i]);
    }
    SplitOfJoin(segments, '/');
  }

  /** Without a slash, with one in front or with nothing after the only one, the short name is the path. */
  lemma {:induction false} ShortNameIsPath(f: RemoteFile)
    requires '/' !in f.s3Path || f.s3Path[0] == '/' || '/' !in f.s3Path[..|f.s3Path| - 1]
    ensures Cleans(VirtualPath(f), f.shortName, false)
  {
    SanitizedCleans(f.shortName);
    hide Cleans, Sanitized;
    var slash := IndexOf(f.s3Path, '/');
    if slash.Some? {
      var i := slash.value;
      assert i < |f.s3Path| - 1 ==> f.s3Path[..|f.s3Path| - 1][i] == '/';
      assert i > 0 ==> f.s3Path[0] in f.s3Path[..i];
    }
  }

  method SanitizePathSegment(s: string) returns (r: string)
    ensures r == Sanitized(s)
  {
    r := "";
    for i := 0 to |s|
      invariant |r| == i && forall j | 0 <= j < i :: r[j] == SanitizedChar(s[j])
    {
      if s[i] in FORBIDDEN {
        r := r + ['_'];
      } else {
        r := r + [s[i]];
      }
    }
  }

  method SanitizeSegments(raw: seq<string>) returns (segments: seq<string>)
    ensures segments == SanitizedAll(raw)
  {
    hide Sanitized;
    segments := raw;
    for i := 0 to |segments|
      invariant |segments| == |raw|
      invariant forall j | 0 <= j < |raw| :: segments[j] == if j < i then Sanitized(raw[j]) else raw[j]
    {
      var segment := SanitizePathSegment(segments[i]);
      segments := segments[i := segment];
    }
  }

  method BuildFileRecord(itemId: int, f: RemoteFile, source: Source, createdAt: string) returns (rec: FileRecord)
    ensures rec == RecordOf(source, itemId, createdAt, f)
    ensures rec.key == Key(source, itemId, f.id) && rec.size == f.size && rec.mimeType == f.mimeType
    ensures rec.createdAt == createdAt && Cleans(rec.name, f.shortName, false)
  {
    hide Sanitized, Split, Join;
    var path;
    var slash := IndexOf(f.s3Path, '/');
    if slash.Some? && slash.value > 0 && slash.value + 1 < |f.s3Path| {
      var rest := f.s3Path[slash.value + 1..];
      if IndexOf(rest, '/').Some? {
        var segments := SanitizeSegments(Split(rest, '/'));
        path := Join(segments, '/');
      } else {
        path := SanitizePathSegment(rest);
        SplitWhole(rest, '/');
        assert SanitizedAll([rest]) == [path];
        JoinOne(path, '/');
      }
    } else {
      path := SanitizePathSegment(f.shortName);
    }
    SanitizedCleans(f.shortName);
    var name := SanitizePathSegment(f.shortName);
    rec := FileRecord(Key(source, itemId, f.id), name, path, f.size, f.mimeType, createdAt);
  }

  // ---------------------------------------------------------------- the records of a list

  predicate Eligible(item: RemoteItem) {
    item.downloadState == "cached" || item.downloadPresent
  }

  function FileRecords(source: Source, item: RemoteItem): (recs: seq<FileRecord>)
    ensures |recs| == |item.files|
    ensures forall i | 0 <= i < |recs| :: recs[i] == RecordOf(source, item.id, item.createdAt, item.files[i])
  {
    seq(|item.files|, i requires 0 <= i < |item.files| => RecordOf(source, item.id, item.createdAt, item.files[i]))
  }

  function ItemRecords(source: Source, item: RemoteItem): seq<FileRecord> {
    if Eligible(item) then FileRecords(source, item) else []
  }

  function ListRecords(source: Source, items: seq<RemoteItem>): seq<FileRecord> {
    if items == [] then []
    else ListRecords(source, items[..|items| - 1]) + ItemRecords(source, items[|items| - 1])
  }

  function FetchRecords(source: Source, fetch: Fetch): seq<FileRecord> {
    if fetch.Fetched? then ListRecords(source, fetch.items) else []
  }

  /** Some file of some item that is cached or present has this record. */
  ghost predicate SomeFileHas(source: Source, items: seq<RemoteItem>, rec: FileRecord) {
    exists i, j | 0 <= i < |items| && 0 <= j < |items[i].files| ::
      && (items[i].downloadState == "cached" || items[i].downloadPresent)
      && rec == RecordOf(source, items[i].id, items[i].createdAt, items[i].files[j])
  }

  lemma {:induction false} SomeFileHasSnoc(source: Source, init: seq<RemoteItem>, item: RemoteItem, rec: FileRecord)
    ensures SomeFileHas(source, init + [item], rec)
       <==> SomeFileHas(source, init, rec) || rec in ItemRecords(source, item)
  {
    hide RecordOf;
    var items := init + [item];
    if SomeFileHas(source, init, rec) {
      var i, j :| 0 <= i < |init| && 0 <= j < |init[i].files|
        && (init[i].downloadState == "cached" || init[i].downloadPresent)
        && rec == RecordOf(source, init[i].id, init[i].createdAt, init[i].files[j]);
      assert items[i] == init[i];
    }
    if rec in ItemRecords(source, item) {
      var j :| 0 <= j < |item.files| && FileRecords(source, item)[j] == rec;
      assert items[|init|] == item && items[|init|].files[j] == item.files[j];
    }
  }

  /** A list's records are those of the files of its cached or present items. */
  lemma {:induction false} ListRecordsMembers(source: Source, items: seq<RemoteItem>, rec: FileRecord)
    ensures rec in ListRecords(source, items) <==> SomeFileHas(source, items, rec)
  {
    hide ItemRecords, RecordOf;
    if items != [] {
      hide SomeFileHas;
      var init, item := items[..|items| - 1], items[|items| - 1];
      ListRecordsMembers(source, init, rec);
      assert init + [item] == items;
      SomeFileHasSnoc(source, init, item, rec);
    }
  }
}
