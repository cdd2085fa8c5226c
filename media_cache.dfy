/**
 * The persisted media cache: a version tag and one record per scanned media
 * directory, each listing the files that were attached when it was scanned.
 */
module MediaCache {
  /** One accepted file of a scanned directory. */
  datatype FileRecord = FileRecord(filePath: string, assetType: string, mtime: int, size: int, gameKey: string)

  /** One scanned media directory. */
  datatype DirRecord = DirRecord(dirPath: string, lastScanTime: string, files: seq<FileRecord>)

  /** The cache document. */
  datatype Cache = Cache(version: string, mediaDirs: seq<DirRecord>)

  /**
   * What reading the cache file gave: it could not be opened, it did not
   * parse as a document, or it parsed to a (decoded) cache document.
   */
  datatype CacheFile = Unopenable | Unparsable | Parsed(doc: Cache)

  /** The only cache version this code accepts. */
  const CacheVersion: string := "1.0"

  /** The cache every failed or rejected load starts from. */
  const EmptyCache: Cache := Cache(CacheVersion, [])

  /**
   * `load_cache`: the stored document when it parsed and carries the
   * accepted version; the empty cache in every other case.
   */
  function LoadedCache(stored: CacheFile): (c: Cache)
    ensures c.version == CacheVersion
    ensures stored.Parsed? && stored.doc.version == CacheVersion ==> c == stored.doc
    ensures !(stored.Parsed? && stored.doc.version == CacheVersion) ==> c.mediaDirs == []
  {
    match stored
    case Parsed(doc) => if doc.version == CacheVersion then doc else EmptyCache
    case _ => EmptyCache
  }

  /** Loading is a normalisation: loading a loaded cache changes nothing. */
  lemma LoadIsIdempotent(stored: CacheFile)
    ensures LoadedCache(Parsed(LoadedCache(stored))) == LoadedCache(stored)
  {
  }

  /** No two directory records of the list share a directory path. */
  predicate UniqueDirPaths(dirs: seq<DirRecord>)
  {
    forall i, j :: 0 <= i < j < |dirs| ==> dirs[i].dirPath != dirs[j].dirPath
  }
}
