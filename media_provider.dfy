/**
 * The media provider as the program runs it: an object holding the cache
 * path and the in-memory cache document, whose `run` loads the cache, builds
 * the lookup map, replays or scans every game directory's media directory,
 * attaching accepted files to the games' asset lists in place, and saves the
 * updated cache.
 */
module PegasusMedia {
  import opened Wrappers
  import opened PegasusAssets
  import opened MediaDetect
  import opened GameLookup
  import opened MediaCache
  import opened MediaReconcile

  /** The name of the cache file inside the writable configuration directory. */
  const CacheFileName: string := "/media_cache.json"

  /** The asset lists of the library's games, which `add_file` extends in place. */
  class AssetLibrary {
    var assets: GameAssets

    /** Sets up the library with the games' current asset lists; it stands for no code of its own. */
    constructor(initial: GameAssets)
      ensures assets == initial
    {
      assets := initial;
    }

    /** `add_file`: append the file to its game's list; nothing else changes. */
    method AddFile(game: GameId, t: AssetType, path: string)
      modifies this
      ensures assets == AddFileTo(old(assets), Attachment(game, t, path))
      ensures FilesOf(assets, game) == FilesOf(old(assets), game) + [(t, path)]
      ensures forall g :: g != game ==> FilesOf(assets, g) == FilesOf(old(assets), g)
    {
      var files := if game in assets then assets[game] else [];
      assets := assets[game := files + [(t, path)]];
    }
  }

  /**
   * The position of the first record of `dirs` for `mediaDir`, found by a
   * linear search that stops at the first match.
   */
  method FindCachedDir(dirs: seq<DirRecord>, mediaDir: string) returns (found: Option<nat>)
    ensures found == FindDir(dirs, mediaDir)
  {
    var i := 0;
    while i < |dirs|
      invariant 0 <= i <= |dirs|
      invariant forall j :: 0 <= j < i ==> dirs[j].dirPath != mediaDir
    {
      if dirs[i].dirPath == mediaDir {
        return Some(i);
      }
      i := i + 1;
    }
    return None;
  }

  /** One cached record of a hit: attach it to its game when its key still resolves. */
  method ReplayRecord(rec: FileRecord, lookup: map<string, GameId>, library: AssetLibrary)
    modifies library
    ensures ReplayOne(rec, lookup).Some? ==> library.assets == AddFileTo(old(library.assets), ReplayOne(rec, lookup).value)
    ensures ReplayOne(rec, lookup).None? ==> library.assets == old(library.assets)
  {
    if rec.gameKey !in lookup {
      return;
    }
    library.AddFile(lookup[rec.gameKey], StrToType(rec.assetType), rec.filePath);
  }

  /**
   * A cache hit: every cached record whose key still resolves is attached to
   * its game under the category its stored token names, in cached order.
   */
  method ReplayCachedDir(records: seq<FileRecord>, lookup: map<string, GameId>, library: AssetLibrary)
    modifies library
    ensures library.assets == AttachAll(old(library.assets), Replay(records, lookup))
  {
    var i := 0;
    while i < |records|
      invariant 0 <= i <= |records|
      invariant library.assets == AttachAll(old(library.assets), Replay(records[..i], lookup))
    {
      ReplayRecord(records[i], lookup, library);
      match ReplayOne(records[i], lookup) {
        case Some(a) =>
          ReplaySnocKept(records, i, lookup, a);
          AttachAllSnoc(old(library.assets), Replay(records[..i], lookup), a);
        case None =>
          ReplaySnocDropped(records, i, lookup);
      }
      i := i + 1;
    }
    assert records[..i] == records;
  }

  /**
   * One enumerated file of a miss: when its key resolves and its type is
   * detected, attach it to its game and return the record to cache.
   */
  method ScanFile(f: MediaFile, dirBase: string, lookup: map<string, GameId>, library: AssetLibrary)
    returns (rec: Option<FileRecord>)
    modifies library
    ensures ScannedType(f, dirBase, lookup).None? ==> rec.None? && library.assets == old(library.assets)
    ensures ScannedType(f, dirBase, lookup).Some? ==>
      var t := ScannedType(f, dirBase, lookup).value;
      rec == Some(RecordOf(f, dirBase, t)) &&
      library.assets == AddFileTo(old(library.assets), Attachment(lookup[LookupKey(f, dirBase)], t, f.filePath))
  {
    var key := LookupKey(f, dirBase);
    if key !in lookup {
      return None;
    }
    var t := DetectAssetType(f.completeBaseName, f.suffix);
    if t == Unknown {
      return None;
    }
    library.AddFile(lookup[key], t, f.filePath);
    rec := Some(FileRecord(f.filePath, TypeToStr(t), f.mtime, f.size, key));
  }

  /**
   * A cache miss: every file of the media directory whose key resolves and
   * whose type is detected is attached to its game and recorded, in
   * enumeration order.
   */
  method ScanMediaDir(entries: seq<MediaFile>, dirBase: string, lookup: map<string, GameId>, library: AssetLibrary)
    returns (records: seq<FileRecord>)
    modifies library
    ensures records == ScanRecords(entries, dirBase, lookup)
    ensures library.assets == AttachAll(old(library.assets), ScanAttachments(entries, dirBase, lookup))
  {
    records := [];
    var i := 0;
    while i < |entries|
      invariant 0 <= i <= |entries|
      invariant records == ScanRecords(entries[..i], dirBase, lookup)
      invariant library.assets == AttachAll(old(library.assets), ScanAttachments(entries[..i], dirBase, lookup))
    {
      ScanSnoc(entries, i, dirBase, lookup);
      AttachAllAppend(old(library.assets), ScanAttachments(entries[..i], dirBase, lookup), AttachmentsFor(entries[i], dirBase, lookup));
      ghost var assets := library.assets;
      var rec := ScanFile(entries[i], dirBase, lookup, library);
      ScanFileGives(entries[i], dirBase, lookup, rec, assets, library.assets);
      if rec.Some? {
        records := records + [rec.value];
      }
      i := i + 1;
    }
    assert entries[..i] == entries;
  }

  /**
   * One game directory of `run`: skip its media directory when it does not
   * exist, replay the cached record when there is one, and otherwise scan
   * it and append its new record.
   */
  method ReconcileGameDir(dirs: seq<DirRecord>, dirBase: string, fs: Filesystem, lookup: map<string, GameId>,
                          now: string, library: AssetLibrary)
    returns (newDirs: seq<DirRecord>)
    modifies library
    ensures newDirs == Step(dirs, dirBase, fs, lookup, now).dirs
    ensures library.assets == AttachAll(old(library.assets), Step(dirs, dirBase, fs, lookup, now).attached)
  {
    var mediaDir := dirBase + MediaSubdir;
    if mediaDir !in fs {
      return dirs;
    }
    var found := FindCachedDir(dirs, mediaDir);
    if found.Some? {
      ReplayCachedDir(dirs[found.value].files, lookup, library);
      return dirs;
    }
    var records := ScanMediaDir(fs[mediaDir], dirBase, lookup, library);
    newDirs := dirs + [DirRecord(mediaDir, now, records)];
  }

  /** The provider object: where its cache lives and the cache it holds. */
  class MediaProvider {
    var cachePath: string
    var cacheData: Cache

    /** The cache file sits in the writable configuration directory; the held document starts empty, without a version. */
    constructor(configDir: string)
      ensures cachePath == configDir + CacheFileName
      ensures cacheData == Cache("", [])
    {
      cachePath := configDir + CacheFileName;
      cacheData := Cache("", []);
    }

    /**
     * `load_cache`: hold the stored document when it opened, parsed and
     * carries version "1.0"; hold the empty "1.0" cache otherwise.
     */
    method LoadCache(stored: CacheFile)
      modifies this
      ensures cacheData == LoadedCache(stored)
      ensures cachePath == old(cachePath)
    {
      match stored {
        case Unopenable =>
          cacheData := EmptyCache;
        case Unparsable =>
          cacheData := EmptyCache;
        case Parsed(doc) =>
          cacheData := doc;
          if cacheData.version != CacheVersion {
            cacheData := EmptyCache;
          }
      }
    }

    /**
     * `save_cache`: the document written to the cache file, which is the
     * held cache when the file opens for writing and nothing otherwise.
     */
    method SaveCache(writable: bool) returns (written: Option<Cache>)
      ensures writable ==> written == Some(cacheData)
      ensures !writable ==> written == None
    {
      if !writable {
        return None;
      }
      written := Some(cacheData);
    }

    /**
     * `run`: load the cache, build the lookup map from the library's game
     * files, then for each game directory with an existing media directory
     * replay its cached record or scan it and append a new record; finally
     * hold and save the updated cache.
     */
    method Run(stored: CacheFile, games: seq<GameFileEntry>, gameDirs: seq<string>, fs: Filesystem,
               now: string, writable: bool, library: AssetLibrary)
      returns (written: Option<Cache>)
      modifies this, library
      ensures cacheData == SavedCache(stored, games, gameDirs, fs, now)
      ensures library.assets == AttachAll(old(library.assets), RunOutcome(stored, games, gameDirs, fs, now).attached)
      ensures written == (if writable then Some(cacheData) else None)
      ensures cachePath == old(cachePath)
    {
      LoadCache(stored);
      var lookup := CreateLookupMap(games);
      var dirs := cacheData.mediaDirs;
      ghost var attached: seq<Attachment> := [];
      var k := 0;
      while k < |gameDirs|
        invariant 0 <= k <= |gameDirs|
        invariant Reconcile(LoadedCache(stored).mediaDirs, gameDirs[..k], fs, lookup, now) == Outcome(dirs, attached)
        invariant library.assets == AttachAll(old(library.assets), attached)
        invariant cacheData == LoadedCache(stored) && cachePath == old(cachePath)
      {
        ReconcileSnoc(LoadedCache(stored).mediaDirs, gameDirs, k, fs, lookup, now);
        ghost var step := Step(dirs, gameDirs[k], fs, lookup, now);
        dirs := ReconcileGameDir(dirs, gameDirs[k], fs, lookup, now, library);
        AttachAllAppend(old(library.assets), attached, step.attached);
        attached := attached + step.attached;
        k := k + 1;
      }
      assert gameDirs[..k] == gameDirs;
      cacheData := cacheData.(mediaDirs := dirs);
      written := SaveCache(writable);
    }
  }

  /** Replaying one more record whose key resolves adds its attachment. */
  lemma ReplaySnocKept(records: seq<FileRecord>, i: nat, lookup: map<string, GameId>, a: Attachment)
    requires i < |records| && ReplayOne(records[i], lookup) == Some(a)
    ensures Replay(records[..i + 1], lookup) == Replay(records[..i], lookup) + [a]
  {
    var longer := records[..i + 1];
    assert longer[..|longer| - 1] == records[..i];
    assert longer[|longer| - 1] == records[i];
  }

  /** Replaying one more record whose key does not resolve adds nothing. */
  lemma ReplaySnocDropped(records: seq<FileRecord>, i: nat, lookup: map<string, GameId>)
    requires i < |records| && ReplayOne(records[i], lookup).None?
    ensures Replay(records[..i + 1], lookup) == Replay(records[..i], lookup)
  {
    assert records[..i + 1][..i] == records[..i];
    assert Replay(records[..i], lookup) + [] == Replay(records[..i], lookup);
  }

  /** What `ScanFile` does, as the records and the attachments one file gives to a scan. */
  lemma ScanFileGives(f: MediaFile, dirBase: string, lookup: map<string, GameId>, rec: Option<FileRecord>, before: GameAssets, after: GameAssets)
    requires ScannedType(f, dirBase, lookup).None? ==> rec.None? && after == before
    requires ScannedType(f, dirBase, lookup).Some? ==>
      var t := ScannedType(f, dirBase, lookup).value;
      rec == Some(RecordOf(f, dirBase, t)) &&
      after == AddFileTo(before, Attachment(lookup[LookupKey(f, dirBase)], t, f.filePath))
    ensures (if rec.Some? then [rec.value] else []) == RecordsFor(f, dirBase, lookup)
    ensures after == AttachAll(before, AttachmentsFor(f, dirBase, lookup))
  {
    var t := ScannedType(f, dirBase, lookup);
    if t.Some? {
      AttachOne(before, Attachment(lookup[LookupKey(f, dirBase)], t.value, f.filePath));
    }
  }

  /** Attaching a single file. */
  lemma AttachOne(assets: GameAssets, a: Attachment)
    ensures AttachAll(assets, [a]) == AddFileTo(assets, a)
  {
    assert [a][..0] == [];
  }

  /** Attaching one more file. */
  lemma AttachAllSnoc(assets: GameAssets, atts: seq<Attachment>, a: Attachment)
    ensures AttachAll(assets, atts + [a]) == AddFileTo(AttachAll(assets, atts), a)
  {
    assert (atts + [a])[..|atts|] == atts;
  }

  /** The pass over one more game directory is one more step. */
  lemma ReconcileSnoc(dirs: seq<DirRecord>, gameDirs: seq<string>, k: nat, fs: Filesystem, lookup: map<string, GameId>, now: string)
    requires k < |gameDirs|
    ensures var o := Reconcile(dirs, gameDirs[..k], fs, lookup, now);
      var s := Step(o.dirs, gameDirs[k], fs, lookup, now);
      Reconcile(dirs, gameDirs[..k + 1], fs, lookup, now) == Outcome(s.dirs, o.attached + s.attached)
  {
    assert gameDirs[..k + 1][..k] == gameDirs[..k];
  }
}
