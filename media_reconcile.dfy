/**
 * The reconcile pass of the media provider, as functions of its inputs: for
 * every game directory, its `/media` subdirectory is skipped when it does not
 * exist, replayed from the cache when the cache has a record for it (a hit),
 * and otherwise scanned, its accepted files attached and a new record
 * appended (a miss).
 */
module MediaReconcile {
  import opened Wrappers
  import opened PegasusAssets
  import opened MediaDetect
  import opened GameLookup
  import opened MediaCache

  /** The media subdirectory looked for under every game directory. */
  const MediaSubdir: string := "/media"

  /**
   * A file found by the recursive enumeration of a media directory: its path,
   * its cleaned absolute directory, its complete base name, its suffix, and
   * its modification time and size.
   */
  datatype MediaFile = MediaFile(
    filePath: string, cleanDir: string, completeBaseName: string, suffix: string, mtime: int, size: int)

  /**
   * The file system as the pass sees it: the media directories that exist,
   * each with its files in enumeration order.
   */
  type Filesystem = map<string, seq<MediaFile>>

  /** One `add_file` call: a path attached to a game under a category. */
  datatype Attachment = Attachment(game: GameId, assetType: AssetType, path: string)

  /** The asset lists of the games: for each game, its files in the order they were added. */
  type GameAssets = map<GameId, seq<(AssetType, string)>>

  /** What a pass produces: the directory records of the cache and the attachments made, in order. */
  datatype Outcome = Outcome(dirs: seq<DirRecord>, attached: seq<Attachment>)

  // ---------------------------------------------------------------------
  // Keys

  /**
   * `QString::remove(pos, n)`: removes `n` characters at `pos`, truncates at
   * `pos` when fewer remain, and does nothing when `pos` is past the end.
   */
  function QRemove(s: string, pos: nat, n: nat): (r: string)
    ensures pos >= |s| ==> r == s
    ensures pos < |s| ==> |r| == |s| - (if pos + n <= |s| then n else |s| - pos)
    ensures pos < |s| ==> r[..pos] == s[..pos]
    ensures forall i :: pos <= i < |r| ==> r[i] == s[i + n]
  {
    if pos >= |s| then s
    else if pos + n >= |s| then s[..pos]
    else s[..pos] + s[pos + n..]
  }

  /** The lookup key of a file found under `dirBase + "/media"`. */
  function LookupKey(f: MediaFile, dirBase: string): string
  {
    QRemove(f.cleanDir, |dirBase|, |MediaSubdir|)
  }

  /**
   * For a file whose cleaned directory lies under `dirBase + "/media"`, the
   * key is the same directory with the `/media` component taken out.
   */
  lemma LookupKeyDropsMediaSubdir(f: MediaFile, dirBase: string, rest: string)
    requires f.cleanDir == dirBase + MediaSubdir + rest
    ensures LookupKey(f, dirBase) == dirBase + rest
  {
    var r := LookupKey(f, dirBase);
    var s := f.cleanDir;
    if rest != [] {
      assert s[..|dirBase|] == dirBase;
      assert |r| == |dirBase| + |rest|;
      forall i | 0 <= i < |r| ensures r[i] == (dirBase + rest)[i] {
        if i < |dirBase| {
          assert r[i] == r[..|dirBase|][i];
        } else {
          assert s[i + |MediaSubdir|] == rest[i - |dirBase|];
        }
      }
    } else {
      assert s[..|dirBase|] == dirBase;
    }
  }

  // ---------------------------------------------------------------------
  // Scanning a directory (a miss)

  /** The category under which a scan accepts `f`, if it does: its key resolves and its type is detected. */
  function ScannedType(f: MediaFile, dirBase: string, lookup: map<string, GameId>): (t: Option<AssetType>)
    ensures t.Some? ==> LookupKey(f, dirBase) in lookup && t.value != Unknown
  {
    if LookupKey(f, dirBase) in lookup && DetectAssetType(f.completeBaseName, f.suffix) != Unknown
    then Some(DetectAssetType(f.completeBaseName, f.suffix))
    else None
  }

  /** The cache record a scan writes for an accepted file. */
  function RecordOf(f: MediaFile, dirBase: string, t: AssetType): FileRecord
  {
    FileRecord(f.filePath, TypeToStr(t), f.mtime, f.size, LookupKey(f, dirBase))
  }

  /** The record a scan writes for `f`: one when it accepts `f`, none otherwise. */
  function RecordsFor(f: MediaFile, dirBase: string, lookup: map<string, GameId>): (recs: seq<FileRecord>)
    ensures recs == [] || (|recs| == 1 && recs[0].gameKey in lookup)
  {
    var t := ScannedType(f, dirBase, lookup);
    if t.Some? then [RecordOf(f, dirBase, t.value)] else []
  }

  /** The attachment a scan makes for `f`: one when it accepts `f`, none otherwise. */
  function AttachmentsFor(f: MediaFile, dirBase: string, lookup: map<string, GameId>): (atts: seq<Attachment>)
    ensures atts == [] || (|atts| == 1 && atts[0].assetType != Unknown)
  {
    var t := ScannedType(f, dirBase, lookup);
    if t.Some? then [Attachment(lookup[LookupKey(f, dirBase)], t.value, f.filePath)] else []
  }

  /** The records a scan writes for `files`, in enumeration order. */
  function ScanRecords(files: seq<MediaFile>, dirBase: string, lookup: map<string, GameId>): (recs: seq<FileRecord>)
    ensures |recs| <= |files|
    ensures forall i :: 0 <= i < |recs| ==> recs[i].gameKey in lookup
  {
    if files == [] then []
    else
      ScanRecords(files[..|files| - 1], dirBase, lookup) + RecordsFor(files[|files| - 1], dirBase, lookup)
  }

  /** The attachments a scan makes for `files`, in enumeration order. */
  function ScanAttachments(files: seq<MediaFile>, dirBase: string, lookup: map<string, GameId>): (atts: seq<Attachment>)
    ensures |atts| <= |files|
    ensures forall i :: 0 <= i < |atts| ==> atts[i].assetType != Unknown
  {
    if files == [] then []
    else
      ScanAttachments(files[..|files| - 1], dirBase, lookup) + AttachmentsFor(files[|files| - 1], dirBase, lookup)
  }

  /** Scanning one more file adds what that file gives. */
  lemma ScanSnoc(files: seq<MediaFile>, i: nat, dirBase: string, lookup: map<string, GameId>)
    requires i < |files|
    ensures ScanRecords(files[..i + 1], dirBase, lookup) == ScanRecords(files[..i], dirBase, lookup) + RecordsFor(files[i], dirBase, lookup)
    ensures ScanAttachments(files[..i + 1], dirBase, lookup) == ScanAttachments(files[..i], dirBase, lookup) + AttachmentsFor(files[i], dirBase, lookup)
  {
    var longer := files[..i + 1];
    assert longer[..|longer| - 1] == files[..i];
    assert longer[|longer| - 1] == files[i];
  }

  /** A scan accepts `f` and writes the record `r` for it. */
  ghost predicate ScanWrites(f: MediaFile, dirBase: string, lookup: map<string, GameId>, r: FileRecord)
  {
    ScannedType(f, dirBase, lookup).Some? && r == RecordOf(f, dirBase, ScannedType(f, dirBase, lookup).value)
  }

  /** The records a scan writes for one file are exactly the ones it writes for it. */
  lemma WrittenRecord(f: MediaFile, dirBase: string, lookup: map<string, GameId>, r: FileRecord)
    ensures ScanWrites(f, dirBase, lookup, r) ==> RecordsFor(f, dirBase, lookup) == [r]
    ensures r in RecordsFor(f, dirBase, lookup) ==> ScanWrites(f, dirBase, lookup, r)
  {
  }

  /** Every record a scan writes is written for one of the files it accepts. */
  lemma {:induction false} ScanRecordsSound(files: seq<MediaFile>, dirBase: string, lookup: map<string, GameId>, r: FileRecord)
    requires r in ScanRecords(files, dirBase, lookup)
    ensures exists i :: 0 <= i < |files| && ScanWrites(files[i], dirBase, lookup, r)
  {
    var n := |files| - 1;
    var prev := files[..n];
    assert files[..n + 1] == files;
    ScanSnoc(files, n, dirBase, lookup);
    if r in ScanRecords(prev, dirBase, lookup) {
      ScanRecordsSound(prev, dirBase, lookup, r);
      var i :| 0 <= i < |prev| && ScanWrites(prev[i], dirBase, lookup, r);
      assert files[i] == prev[i];
    } else {
      assert r in RecordsFor(files[n], dirBase, lookup);
      WrittenRecord(files[n], dirBase, lookup, r);
    }
  }

  /** A record written for one of the files is in the scan's records. */
  lemma {:induction false} ScanRecordsCover(files: seq<MediaFile>, dirBase: string, lookup: map<string, GameId>, i: nat, r: FileRecord)
    requires i < |files| && r in RecordsFor(files[i], dirBase, lookup)
    ensures r in ScanRecords(files, dirBase, lookup)
  {
    var n := |files| - 1;
    assert files[..n + 1] == files;
    ScanSnoc(files, n, dirBase, lookup);
    if i < n {
      var prev := files[..n];
      assert prev[i] == files[i];
      ScanRecordsCover(prev, dirBase, lookup, i, r);
    } else {
      assert i == n;
    }
  }

  /** Every file the scan accepts has its record in the scan's records. */
  lemma ScanRecordsComplete(files: seq<MediaFile>, dirBase: string, lookup: map<string, GameId>, i: nat, r: FileRecord)
    requires i < |files| && ScanWrites(files[i], dirBase, lookup, r)
    ensures r in ScanRecords(files, dirBase, lookup)
  {
    WrittenRecord(files[i], dirBase, lookup, r);
    ScanRecordsCover(files, dirBase, lookup, i, r);
  }

  /**
   * A scan records a file exactly when it accepts it, that is when its key
   * resolves in the lookup map and its type is detected; the record stores
   * the canonical token of that type and the key.
   */
  lemma ScanRecordsExactly(files: seq<MediaFile>, dirBase: string, lookup: map<string, GameId>, r: FileRecord)
    ensures r in ScanRecords(files, dirBase, lookup) <==> exists i :: 0 <= i < |files| && ScanWrites(files[i], dirBase, lookup, r)
  {
    if r in ScanRecords(files, dirBase, lookup) {
      ScanRecordsSound(files, dirBase, lookup, r);
    }
    if exists i :: 0 <= i < |files| && ScanWrites(files[i], dirBase, lookup, r) {
      var i :| 0 <= i < |files| && ScanWrites(files[i], dirBase, lookup, r);
      ScanRecordsComplete(files, dirBase, lookup, i, r);
    }
  }

  /** A scan accepts a file exactly when its key resolves and its detected type is not `Unknown`. */
  lemma ScannedTypeIff(f: MediaFile, dirBase: string, lookup: map<string, GameId>)
    ensures ScannedType(f, dirBase, lookup).Some? <==>
      LookupKey(f, dirBase) in lookup && DetectAssetType(f.completeBaseName, f.suffix) != Unknown
    ensures ScannedType(f, dirBase, lookup).Some? ==>
      ScannedType(f, dirBase, lookup).value == StrToType(f.completeBaseName) &&
      f.suffix in AllowedAssetExts(ScannedType(f, dirBase, lookup).value)
  {
  }

  // ---------------------------------------------------------------------
  // Replaying a cached directory (a hit)

  /** The attachment a cached record gives when replayed, if its key still resolves. */
  function ReplayOne(r: FileRecord, lookup: map<string, GameId>): (a: Option<Attachment>)
    ensures a.Some? <==> r.gameKey in lookup
    ensures a.Some? ==> a.value.game == lookup[r.gameKey] && a.value.path == r.filePath
  {
    if r.gameKey in lookup then Some(Attachment(lookup[r.gameKey], StrToType(r.assetType), r.filePath))
    else None
  }

  /** The attachments replaying `records` makes, in cached order. */
  function Replay(records: seq<FileRecord>, lookup: map<string, GameId>): (atts: seq<Attachment>)
    ensures |atts| <= |records|
    ensures forall i :: 0 <= i < |atts| ==> atts[i].game in lookup.Values
  {
    if records == [] then []
    else
      var a := ReplayOne(records[|records| - 1], lookup);
      Replay(records[..|records| - 1], lookup) + (if a.Some? then [a.value] else [])
  }

  /** Replaying one more record keeps the earlier attachments. */
  lemma ReplayKeepsEarlier(records: seq<FileRecord>, lookup: map<string, GameId>, a: Attachment)
    requires records != [] && a in Replay(records[..|records| - 1], lookup)
    ensures a in Replay(records, lookup)
  {
  }

  /** Replaying one more record adds at most that record's attachment. */
  lemma ReplayAddsLast(records: seq<FileRecord>, lookup: map<string, GameId>, a: Attachment)
    requires records != [] && a in Replay(records, lookup) && a !in Replay(records[..|records| - 1], lookup)
    ensures ReplayOne(records[|records| - 1], lookup) == Some(a)
  {
  }

  /** The last record, when its key resolves, is replayed. */
  lemma ReplaysLast(records: seq<FileRecord>, lookup: map<string, GameId>)
    requires records != [] && records[|records| - 1].gameKey in lookup
    ensures ReplayOne(records[|records| - 1], lookup).value in Replay(records, lookup)
  {
  }

  /**
   * Every attachment of a replay comes from a cached record whose key
   * resolves: that record's path, attached to the key's game under the
   * category its token names.
   */
  lemma {:induction false} ReplayedFromRecord(records: seq<FileRecord>, lookup: map<string, GameId>, a: Attachment)
    requires a in Replay(records, lookup)
    ensures exists i :: 0 <= i < |records| && ReplayOne(records[i], lookup) == Some(a)
  {
    var n := |records| - 1;
    var prev := records[..n];
    if a in Replay(prev, lookup) {
      ReplayedFromRecord(prev, lookup, a);
      var i :| 0 <= i < |prev| && ReplayOne(prev[i], lookup) == Some(a);
      assert records[i] == prev[i];
    } else {
      ReplayAddsLast(records, lookup, a);
    }
  }

  /** Every cached record whose key resolves is replayed. */
  lemma {:induction false} RecordReplayed(records: seq<FileRecord>, lookup: map<string, GameId>, i: nat)
    requires i < |records| && records[i].gameKey in lookup
    ensures ReplayOne(records[i], lookup).value in Replay(records, lookup)
  {
    var n := |records| - 1;
    if i == n {
      ReplaysLast(records, lookup);
    } else {
      var prev := records[..n];
      assert prev[i] == records[i];
      RecordReplayed(prev, lookup, i);
      ReplayKeepsEarlier(records, lookup, ReplayOne(records[i], lookup).value);
    }
  }

  /**
   * Replay agreement: replaying the records a scan wrote attaches exactly what
   * the scan attached, in the same order.
   */
  lemma {:induction false} ReplayOfScan(files: seq<MediaFile>, dirBase: string, lookup: map<string, GameId>)
    ensures Replay(ScanRecords(files, dirBase, lookup), lookup) == ScanAttachments(files, dirBase, lookup)
  {
    if files != [] {
      var prev := files[..|files| - 1];
      var f := files[|files| - 1];
      var recs := ScanRecords(prev, dirBase, lookup);
      ReplayOfScan(prev, dirBase, lookup);
      var t := ScannedType(f, dirBase, lookup);
      if t.Some? {
        var r := RecordOf(f, dirBase, t.value);
        TypeToStrRoundTrip(DeclarationOrder(|AliasTable|), t.value);
        assert StrToType(r.assetType) == t.value;
        assert ScanRecords(files, dirBase, lookup) == recs + [r];
        assert (recs + [r])[..|recs|] == recs;
        assert Replay(recs + [r], lookup) == Replay(recs, lookup) + [ReplayOne(r, lookup).value];
      } else {
        assert ScanRecords(files, dirBase, lookup) == recs;
      }
    }
  }

  // ---------------------------------------------------------------------
  // The pass

  /** The position of the first record of `dirs` for `path`, if there is one. */
  function FindDir(dirs: seq<DirRecord>, path: string): (r: Option<nat>)
    ensures r.None? <==> forall j :: 0 <= j < |dirs| ==> dirs[j].dirPath != path
    ensures r.Some? ==> r.value < |dirs| && dirs[r.value].dirPath == path
    ensures r.Some? ==> forall j :: 0 <= j < r.value ==> dirs[j].dirPath != path
  {
    if dirs == [] then None
    else if dirs[0].dirPath == path then Some(0)
    else
      match FindDir(dirs[1..], path)
      case None => None
      case Some(i) => Some(i + 1)
  }

  /**
   * One game directory: skip a missing media directory, replay a cached one,
   * scan and record a new one.
   */
  function Step(dirs: seq<DirRecord>, dirBase: string, fs: Filesystem, lookup: map<string, GameId>, now: string): (o: Outcome)
    ensures dirBase + MediaSubdir !in fs ==> o == Outcome(dirs, [])
    ensures dirBase + MediaSubdir in fs && FindDir(dirs, dirBase + MediaSubdir).Some? ==>
      o == Outcome(dirs, Replay(dirs[FindDir(dirs, dirBase + MediaSubdir).value].files, lookup))
    ensures dirBase + MediaSubdir in fs && FindDir(dirs, dirBase + MediaSubdir).None? ==>
      o == Outcome(dirs + [DirRecord(dirBase + MediaSubdir, now, ScanRecords(fs[dirBase + MediaSubdir], dirBase, lookup))],
                   ScanAttachments(fs[dirBase + MediaSubdir], dirBase, lookup))
  {
    var mediaDir := dirBase + MediaSubdir;
    if mediaDir !in fs then Outcome(dirs, [])
    else
      match FindDir(dirs, mediaDir)
      case Some(i) => Outcome(dirs, Replay(dirs[i].files, lookup))
      case None =>
        var files := fs[mediaDir];
        Outcome(dirs + [DirRecord(mediaDir, now, ScanRecords(files, dirBase, lookup))], ScanAttachments(files, dirBase, lookup))
  }

  /** The whole pass over `gameDirs`, in order, starting from the cached records `dirs`. */
  function Reconcile(dirs: seq<DirRecord>, gameDirs: seq<string>, fs: Filesystem, lookup: map<string, GameId>, now: string): (o: Outcome)
    ensures dirs <= o.dirs
  {
    if gameDirs == [] then Outcome(dirs, [])
    else
      var o := Reconcile(dirs, gameDirs[..|gameDirs| - 1], fs, lookup, now);
      var s := Step(o.dirs, gameDirs[|gameDirs| - 1], fs, lookup, now);
      Outcome(s.dirs, o.attached + s.attached)
  }

  // ---------------------------------------------------------------------
  // Properties of the pass

  /**
   * The pass only appends: the cached records come first, unchanged, and each
   * new record is for the existing media directory of one of the game
   * directories, at most one per game directory.
   */
  lemma {:induction false} ReconcileAppendOnly(dirs: seq<DirRecord>, gameDirs: seq<string>, fs: Filesystem, lookup: map<string, GameId>, now: string)
    ensures dirs <= Reconcile(dirs, gameDirs, fs, lookup, now).dirs
    ensures |Reconcile(dirs, gameDirs, fs, lookup, now).dirs| <= |dirs| + |gameDirs|
    ensures forall j :: |dirs| <= j < |Reconcile(dirs, gameDirs, fs, lookup, now).dirs| ==>
      Reconcile(dirs, gameDirs, fs, lookup, now).dirs[j].dirPath in fs &&
      exists k :: 0 <= k < |gameDirs| && Reconcile(dirs, gameDirs, fs, lookup, now).dirs[j].dirPath == gameDirs[k] + MediaSubdir
  {
    if gameDirs != [] {
      var n := |gameDirs| - 1;
      var prev := gameDirs[..n];
      ReconcileAppendOnly(dirs, prev, fs, lookup, now);
      var o := Reconcile(dirs, prev, fs, lookup, now);
      var r := Reconcile(dirs, gameDirs, fs, lookup, now);
      assert r.dirs == Step(o.dirs, gameDirs[n], fs, lookup, now).dirs;
      forall j | |dirs| <= j < |r.dirs|
        ensures r.dirs[j].dirPath in fs && exists k :: 0 <= k < |gameDirs| && r.dirs[j].dirPath == gameDirs[k] + MediaSubdir
      {
        if j < |o.dirs| {
          assert r.dirs[j] == o.dirs[j];
          var k :| 0 <= k < |prev| && o.dirs[j].dirPath == prev[k] + MediaSubdir;
          assert gameDirs[k] == prev[k];
        } else {
          assert r.dirs[j].dirPath == gameDirs[n] + MediaSubdir;
        }
      }
    }
  }

  /** Appending a record for a new directory path keeps the paths unique. */
  lemma UniqueAfterAppend(dirs: seq<DirRecord>, d: DirRecord)
    requires UniqueDirPaths(dirs)
    requires forall j :: 0 <= j < |dirs| ==> dirs[j].dirPath != d.dirPath
    ensures UniqueDirPaths(dirs + [d])
  {
    var e := dirs + [d];
    forall i, j | 0 <= i < j < |e| ensures e[i].dirPath != e[j].dirPath {
      assert e[i] == dirs[i];
      if j < |dirs| {
        assert e[j] == dirs[j];
      }
    }
  }

  /**
   * When the cached directory paths are unique they stay unique: a directory
   * is only appended when no record has its path, and once appended it is
   * found as a hit.
   */
  lemma {:induction false} ReconcileKeepsPathsUnique(dirs: seq<DirRecord>, gameDirs: seq<string>, fs: Filesystem, lookup: map<string, GameId>, now: string)
    requires UniqueDirPaths(dirs)
    ensures UniqueDirPaths(Reconcile(dirs, gameDirs, fs, lookup, now).dirs)
  {
    if gameDirs != [] {
      var n := |gameDirs| - 1;
      ReconcileKeepsPathsUnique(dirs, gameDirs[..n], fs, lookup, now);
      var o := Reconcile(dirs, gameDirs[..n], fs, lookup, now);
      var s := Step(o.dirs, gameDirs[n], fs, lookup, now);
      if s.dirs != o.dirs {
        UniqueAfterAppend(o.dirs, s.dirs[|o.dirs|]);
        assert s.dirs == o.dirs + [s.dirs[|o.dirs|]];
      }
    }
  }

  /** Some file record of `dirs` replays as `a`. */
  ghost predicate Recorded(dirs: seq<DirRecord>, lookup: map<string, GameId>, a: Attachment)
  {
    exists j, i :: 0 <= j < |dirs| && 0 <= i < |dirs[j].files| && ReplayOne(dirs[j].files[i], lookup) == Some(a)
  }

  /** A record stays recorded when more directories are appended. */
  lemma RecordedInLonger(dirs: seq<DirRecord>, more: seq<DirRecord>, lookup: map<string, GameId>, a: Attachment)
    requires Recorded(dirs, lookup, a) && dirs <= more
    ensures Recorded(more, lookup, a)
  {
    var j, i :| 0 <= j < |dirs| && 0 <= i < |dirs[j].files| && ReplayOne(dirs[j].files[i], lookup) == Some(a);
    assert more[j] == dirs[j];
  }

  /** Every attachment one step makes is backed by a record of the step's cache. */
  lemma StepAttachmentsRecorded(dirs: seq<DirRecord>, dirBase: string, fs: Filesystem, lookup: map<string, GameId>, now: string, a: Attachment)
    requires a in Step(dirs, dirBase, fs, lookup, now).attached
    ensures Recorded(Step(dirs, dirBase, fs, lookup, now).dirs, lookup, a)
  {
    var mediaDir := dirBase + MediaSubdir;
    var s := Step(dirs, dirBase, fs, lookup, now);
    match FindDir(dirs, mediaDir)
    case Some(j) =>
      ReplayedFromRecord(dirs[j].files, lookup, a);
    case None =>
      var files := fs[mediaDir];
      ReplayOfScan(files, dirBase, lookup);
      var recs := ScanRecords(files, dirBase, lookup);
      ReplayedFromRecord(recs, lookup, a);
      assert s.dirs[|dirs|].files == recs;
  }

  /**
   * Every attachment of the pass is backed by a record of the final cache:
   * replaying that record attaches exactly it.
   */
  lemma {:induction false} AttachmentsAreRecorded(dirs: seq<DirRecord>, gameDirs: seq<string>, fs: Filesystem, lookup: map<string, GameId>, now: string, a: Attachment)
    requires a in Reconcile(dirs, gameDirs, fs, lookup, now).attached
    ensures Recorded(Reconcile(dirs, gameDirs, fs, lookup, now).dirs, lookup, a)
  {
    var n := |gameDirs| - 1;
    var o := Reconcile(dirs, gameDirs[..n], fs, lookup, now);
    var s := Step(o.dirs, gameDirs[n], fs, lookup, now);
    if a in o.attached {
      AttachmentsAreRecorded(dirs, gameDirs[..n], fs, lookup, now, a);
      RecordedInLonger(o.dirs, s.dirs, lookup, a);
    } else {
      StepAttachmentsRecorded(o.dirs, gameDirs[n], fs, lookup, now, a);
    }
  }

  /** The first record for a path is still the first one in any extension of the list. */
  lemma FindDirInLonger(dirs: seq<DirRecord>, more: seq<DirRecord>, path: string)
    requires dirs <= more && FindDir(dirs, path).Some?
    ensures FindDir(more, path) == FindDir(dirs, path)
  {
    var i := FindDir(dirs, path).value;
    assert more[i] == dirs[i];
    assert forall j :: 0 <= j < i ==> more[j] == dirs[j];
  }

  /** When no record of `dirs` has the path and the next one does, the next one is found. */
  lemma FindDirNext(dirs: seq<DirRecord>, more: seq<DirRecord>, path: string)
    requires dirs < more && more[|dirs|].dirPath == path
    requires forall j :: 0 <= j < |dirs| ==> dirs[j].dirPath != path
    ensures FindDir(more, path) == Some(|dirs|)
  {
    assert forall j :: 0 <= j < |dirs| ==> more[j] == dirs[j];
  }

  /** A step keeps the records it is given, and afterwards the game directory's existing media directory has one. */
  lemma StepKeepsAndCaches(dirs: seq<DirRecord>, dirBase: string, fs: Filesystem, lookup: map<string, GameId>, now: string)
    ensures dirs <= Step(dirs, dirBase, fs, lookup, now).dirs
    ensures dirBase + MediaSubdir in fs ==> FindDir(Step(dirs, dirBase, fs, lookup, now).dirs, dirBase + MediaSubdir).Some?
  {
    var path := dirBase + MediaSubdir;
    if path in fs && FindDir(dirs, path).None? {
      FindDirNext(dirs, Step(dirs, dirBase, fs, lookup, now).dirs, path);
    }
  }

  /**
   * After the pass, the existing media directory of every game directory has
   * a record: each directory is scanned at most once, and later passes find it.
   */
  lemma {:induction false} ReconcileCachesEveryExistingDir(dirs: seq<DirRecord>, gameDirs: seq<string>, fs: Filesystem, lookup: map<string, GameId>, now: string, k: nat)
    requires k < |gameDirs| && gameDirs[k] + MediaSubdir in fs
    ensures FindDir(Reconcile(dirs, gameDirs, fs, lookup, now).dirs, gameDirs[k] + MediaSubdir).Some?
  {
    var n := |gameDirs| - 1;
    var prev := gameDirs[..n];
    var o := Reconcile(dirs, prev, fs, lookup, now);
    var s := Step(o.dirs, gameDirs[n], fs, lookup, now);
    assert Reconcile(dirs, gameDirs, fs, lookup, now).dirs == s.dirs;
    StepKeepsAndCaches(o.dirs, gameDirs[n], fs, lookup, now);
    if k < n {
      assert prev[k] == gameDirs[k];
      ReconcileCachesEveryExistingDir(dirs, prev, fs, lookup, now, k);
      FindDirInLonger(o.dirs, s.dirs, gameDirs[k] + MediaSubdir);
    }
  }

  /**
   * One step on a cache that extends the cache the same step produced before
   * attaches the same files and adds nothing.
   */
  lemma StepOnLaterCache(dirs: seq<DirRecord>, later: seq<DirRecord>, dirBase: string, fs: Filesystem, lookup: map<string, GameId>, now: string, now2: string)
    requires Step(dirs, dirBase, fs, lookup, now).dirs <= later
    ensures Step(later, dirBase, fs, lookup, now2) == Outcome(later, Step(dirs, dirBase, fs, lookup, now).attached)
  {
    var mediaDir := dirBase + MediaSubdir;
    var s := Step(dirs, dirBase, fs, lookup, now);
    if mediaDir in fs {
      match FindDir(dirs, mediaDir)
      case Some(i) =>
        FindDirInLonger(dirs, later, mediaDir);
        assert later[i] == dirs[i];
      case None =>
        FindDirNext(dirs, later, mediaDir);
        assert later[|dirs|] == s.dirs[|dirs|];
        ReplayOfScan(fs[mediaDir], dirBase, lookup);
    }
  }

  /**
   * Running the pass again on a cache that extends the cache it produced
   * changes nothing and attaches the same files in the same order: every
   * media directory it finds is now a hit, and each replay attaches what the
   * original scan or replay attached.
   */
  lemma {:induction false} ReconcileOnLaterCache(dirs: seq<DirRecord>, later: seq<DirRecord>, gameDirs: seq<string>, fs: Filesystem, lookup: map<string, GameId>, now: string, now2: string)
    requires Reconcile(dirs, gameDirs, fs, lookup, now).dirs <= later
    ensures Reconcile(later, gameDirs, fs, lookup, now2) == Outcome(later, Reconcile(dirs, gameDirs, fs, lookup, now).attached)
  {
    if gameDirs != [] {
      var n := |gameDirs| - 1;
      var o := Reconcile(dirs, gameDirs[..n], fs, lookup, now);
      var s := Step(o.dirs, gameDirs[n], fs, lookup, now);
      assert o.dirs <= s.dirs;
      ReconcileOnLaterCache(dirs, later, gameDirs[..n], fs, lookup, now, now2);
      StepOnLaterCache(o.dirs, later, gameDirs[n], fs, lookup, now, now2);
    }
  }

  /**
   * A cache hit trusts the cache: once a media directory has a record, what
   * the directory now holds (files added, removed or changed) makes no
   * difference to the step, so long as the directory still exists.
   */
  lemma HitIgnoresDirectoryContents(dirs: seq<DirRecord>, dirBase: string, fs: Filesystem, fs2: Filesystem, lookup: map<string, GameId>, now: string)
    requires FindDir(dirs, dirBase + MediaSubdir).Some?
    requires dirBase + MediaSubdir in fs && dirBase + MediaSubdir in fs2
    ensures Step(dirs, dirBase, fs2, lookup, now) == Step(dirs, dirBase, fs, lookup, now)
    ensures Step(dirs, dirBase, fs, lookup, now).dirs == dirs
  {
  }

  /** The pass is idempotent: a second pass over its own cache reproduces its cache and its attachments. */
  lemma ReconcileIdempotent(dirs: seq<DirRecord>, gameDirs: seq<string>, fs: Filesystem, lookup: map<string, GameId>, now: string, now2: string)
    ensures var r := Reconcile(dirs, gameDirs, fs, lookup, now);
      Reconcile(r.dirs, gameDirs, fs, lookup, now2) == r
  {
    ReconcileOnLaterCache(dirs, Reconcile(dirs, gameDirs, fs, lookup, now).dirs, gameDirs, fs, lookup, now, now2);
  }

  // ---------------------------------------------------------------------
  // The games' asset lists

  /** The files of game `g`, in the order they were added. */
  function FilesOf(assets: GameAssets, g: GameId): seq<(AssetType, string)>
  {
    if g in assets then assets[g] else []
  }

  /** `add_file`: append one file to its game's list. */
  function AddFileTo(assets: GameAssets, a: Attachment): (r: GameAssets)
    ensures FilesOf(r, a.game) == FilesOf(assets, a.game) + [(a.assetType, a.path)]
    ensures forall g :: g != a.game ==> FilesOf(r, g) == FilesOf(assets, g)
  {
    assets[a.game := FilesOf(assets, a.game) + [(a.assetType, a.path)]]
  }

  /** The asset lists after the attachments `atts`, made in order. */
  function AttachAll(assets: GameAssets, atts: seq<Attachment>): GameAssets
  {
    if atts == [] then assets
    else AddFileTo(AttachAll(assets, atts[..|atts| - 1]), atts[|atts| - 1])
  }

  /** The files `atts` attaches to game `g`, in order. */
  function AttachedTo(atts: seq<Attachment>, g: GameId): seq<(AssetType, string)>
  {
    if atts == [] then []
    else
      var a := atts[|atts| - 1];
      AttachedTo(atts[..|atts| - 1], g) + (if a.game == g then [(a.assetType, a.path)] else [])
  }

  /**
   * Each game's list grows by exactly the files attached to that game, in
   * the order they were attached; other games' lists are untouched.
   */
  lemma {:induction false} AttachAllPerGame(assets: GameAssets, atts: seq<Attachment>, g: GameId)
    ensures FilesOf(AttachAll(assets, atts), g) == FilesOf(assets, g) + AttachedTo(atts, g)
  {
    if atts != [] {
      AttachAllPerGame(assets, atts[..|atts| - 1], g);
    }
  }

  /** Attaching `x` and then `y` is attaching `x + y`. */
  lemma {:induction false} AttachAllAppend(assets: GameAssets, x: seq<Attachment>, y: seq<Attachment>)
    ensures AttachAll(assets, x + y) == AttachAll(AttachAll(assets, x), y)
  {
    if y == [] {
      assert x + y == x;
    } else {
      var n := |y| - 1;
      assert (x + y)[..|x + y| - 1] == x + y[..n];
      AttachAllAppend(assets, x, y[..n]);
    }
  }

  // ---------------------------------------------------------------------
  // The provider's run

  /** The outcome of `run`: the pass over the loaded cache with the lookup map of the library's game files. */
  function RunOutcome(stored: CacheFile, games: seq<GameFileEntry>, gameDirs: seq<string>, fs: Filesystem, now: string): (o: Outcome)
    ensures LoadedCache(stored).mediaDirs <= o.dirs
  {
    Reconcile(LoadedCache(stored).mediaDirs, gameDirs, fs, LookupMapOf(games), now)
  }

  /** The cache `run` leaves behind and saves. */
  function SavedCache(stored: CacheFile, games: seq<GameFileEntry>, gameDirs: seq<string>, fs: Filesystem, now: string): (c: Cache)
    ensures c.version == CacheVersion
    ensures LoadedCache(stored).mediaDirs <= c.mediaDirs
  {
    ReconcileAppendOnly(LoadedCache(stored).mediaDirs, gameDirs, fs, LookupMapOf(games), now);
    Cache(CacheVersion, RunOutcome(stored, games, gameDirs, fs, now).dirs)
  }

  /**
   * A later run that loads the saved cache, over the same games and the same
   * file system, keeps the cache as it is and attaches the same files in the
   * same order, without scanning anything.
   */
  lemma RerunOnSavedCache(stored: CacheFile, games: seq<GameFileEntry>, gameDirs: seq<string>, fs: Filesystem, now: string, later: string)
    ensures RunOutcome(Parsed(SavedCache(stored, games, gameDirs, fs, now)), games, gameDirs, fs, later) ==
      RunOutcome(stored, games, gameDirs, fs, now)
  {
    ReconcileIdempotent(LoadedCache(stored).mediaDirs, gameDirs, fs, LookupMapOf(games), now, later);
  }
}
