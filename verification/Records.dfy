/** The records that the sync worker writes and the views read. */
module Records {
  import opened Text
  import opened CacheKeys

  /** How the API identifies a file; the store keeps one row per key. */
  datatype Key = Key(source: Source, itemId: int, fileId: int)

  /** `FileRecord`, without the columns that only the store fills in. */
  datatype FileRecord = FileRecord(key: Key, name: string, path: string, size: int, mimeType: string, createdAt: string)

  /** The directory of a path: its first segment. */
  function ExtractDirectory(path: string): string {
    match IndexOf(path, '/') case None => path case Some(i) => path[..i]
  }

  /** The path below its directory. */
  function ExtractRelativePath(path: string): string {
    match IndexOf(path, '/') case None => path case Some(i) => path[i + 1..]
  }

  lemma {:induction false} PathParts(dir: string, rest: string)
    requires '/' !in dir
    ensures ExtractDirectory(dir + "/" + rest) == dir && ExtractRelativePath(dir + "/" + rest) == rest
    ensures ExtractDirectory(dir) == dir == ExtractRelativePath(dir)
  {
    var path := dir + "/" + rest;
    assert path[..|dir|] == dir && path[|dir| + 1..] == rest;
    IndexOfFirst(path, '/', |dir|);
  }
}
