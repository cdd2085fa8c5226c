# Pegasus media provider — a Dafny model

This project models the media provider of the Pegasus game frontend. The
provider attaches artwork, music and video files to the games of the
library. Under every game directory it looks for a `/media` subdirectory.
A file in it is attached to a game when two things hold:

- its directory, with `/media` taken out, is a key of the game lookup map;
- its base name names an asset category (box front, logo, video, …) through
  the alias table, and its extension is one that category allows.

Every scanned media directory is remembered in a JSON cache
(`media_cache.json` in the writable configuration directory). On a later run
a directory that the cache already knows is not scanned again. Its cached
records are replayed instead.

The model has seven modules:

- `Wrappers` (`wrappers.dfy`): the `Option` type, for lookups that may
  find nothing.
- `PegasusAssets` (`pegasus_assets.dfy`): the asset categories. It holds the
  alias table of `str_to_type` in declaration order, the classifier
  (`StrToTypeIn`: an exact lookup, then the prefix fallback) and the
  canonical tokens of `type_to_str`. The prefix fallback iterates a hash
  map, whose order the code does not fix. The model therefore takes that
  order as a parameter `order`, which may be any permutation of the table's
  positions. Every property of the classifier is proved for every such
  order. `StrToType` is the classifier at declaration order.
- `MediaDetect` (`media_detect.dfy`): `allowed_asset_exts` and
  `detect_asset_type`.
- `GameLookup` (`game_lookup.dfy`): `create_lookup_map`. It is a method with
  a loop, proved equal to `LookupMapOf`, the map built by emplacing, in
  order, each file's base-name key and then its title key.
- `MediaCache` (`media_cache.dfy`): the cache document and `load_cache` as a
  function of what reading the file gave.
- `MediaReconcile` (`media_reconcile.dfy`): the pass of `run`, as functions
  of its inputs. `Step` handles one game directory: it skips a missing
  media directory, replays a cached one (a hit), and scans and records a
  new one (a miss). `Reconcile` is the whole pass, and `AttachAll` gives
  the games' asset lists after the attachments.
- `PegasusMedia` (`media_provider.dfy`): the objects. `MediaProvider` is a
  class holding the cache path and the cache document. Its `Run` loads the
  cache, builds the lookup map, walks the game directories and saves the
  cache. `AssetLibrary` is a class whose `AddFile` extends a game's asset
  list in place. Each method is proved against the functions of
  `MediaReconcile`, `MediaCache` and `GameLookup`.

Where the code behaves in a way a reader might not expect, the model
follows the code:

- `create_lookup_map` inserts with `emplace`, so the first file that
  produces a key keeps it (`FirstProducerWins`). It is not last-writer-wins.
- The prefix fallback of `str_to_type` walks a hash map, so which alias
  wins among several prefixes is not fixed. The model proves what holds
  for every iteration order. `Boxfront2InDeclarationOrder` and
  `Boxfront2WithBoxFirst` show that the winner depends on the order
  (`Boxfront2DependsOnOrder`).
- The hit path does not filter `Unknown`. A cached record whose token names
  no category is still attached, as `Unknown`.
- A media file's key is its directory with `/media` removed
  (`LookupKeyDropsMediaSubdir`). A file lying directly in
  `<dir>/media` therefore has the key `<dir>` itself. The keys of the
  lookup map are `<dir>/<base name>` and `<dir>/<title>`, so the artwork of
  a game `<dir>/foo.rom` belongs in `<dir>/media/foo/`.

## Model

| member | source | states |
|---|---|---|
| PegasusAssets.StartsWith | src/backend/PegasusAssets.cpp:96 | `QString::startsWith`: the alias is a prefix of the token, compared case-sensitively (`CaseSensitive`) |
| PegasusAssets.AliasTable | src/backend/PegasusAssets.cpp:31-89 | the 48 aliases of `str_to_type` with their categories, in declaration order; `AliasTableDistinct` and `AliasesWellFormed` state its shape |
| PegasusAssets.ExactLookup | src/backend/PegasusAssets.cpp:91-93 | finds a category exactly when some alias equals the token, and the category found is paired with that alias |
| PegasusAssets.PrefixSearch | src/backend/PegasusAssets.cpp:95-98 | finds a category exactly when some alias, visited in the given order, is a prefix of the token, and the category comes from such an alias |
| PegasusAssets.PrefixSearchTakesFirst | src/backend/PegasusAssets.cpp:95-98 | the fallback returns the category of the first alias in iteration order that is a prefix of the token |
| PegasusAssets.FallbackTakesFirstVisited | src/backend/PegasusAssets.cpp:91-98 | a token with no exact alias, prefixed by the alias visited first, classifies as that alias's category |
| PegasusAssets.Classify | src/backend/PegasusAssets.cpp:91-100 | a result other than Unknown is the category of some alias that is a prefix of the token |
| PegasusAssets.StrToTypeIn | src/backend/PegasusAssets.cpp:29-101 | `str_to_type` over the alias table: a known result comes from an alias that prefixes the token |
| PegasusAssets.StrToType | src/backend/PegasusAssets.cpp:29-101 | `str_to_type` as the pass uses it: the classifier at declaration order; `UnknownIffNoAliasPrefix`, `AliasMapsToItsCategory` and `TypeToStrRoundTrip` state what it gives |
| PegasusAssets.DeclarationOrder | src/backend/PegasusAssets.cpp:31-89 | the declaration order is an iteration order of the table, visiting position k k-th |
| PegasusAssets.TypeToStr | src/backend/PegasusAssets.cpp:113-142 | every canonical token is nonempty and made of lower-case letters and underscores |
| PegasusAssets.AliasTableDistinct | src/backend/PegasusAssets.cpp:31-89 | no alias is declared twice in the table |
| PegasusAssets.ExactLookupFindsEntry | src/backend/PegasusAssets.cpp:91-93 | in a table with distinct aliases, the exact lookup of an entry's alias gives that entry's category |
| PegasusAssets.AliasMapsToItsCategory | src/backend/PegasusAssets.cpp:31-93 | every alias of the table classifies as its own category, whatever the iteration order |
| PegasusAssets.BoxFrontSpellings | src/backend/PegasusAssets.cpp:32-33 | "boxfront" and "boxFront" classify as BoxFront |
| PegasusAssets.BoxArtSpellings | src/backend/PegasusAssets.cpp:35-36 | "boxart2D" and "boxart2d" classify as BoxFront |
| PegasusAssets.BoxSideSpellings | src/backend/PegasusAssets.cpp:34-46 | "box_front" classifies as BoxFront and "boxside" as BoxSpine |
| PegasusAssets.ArcadeSpellings | src/backend/PegasusAssets.cpp:56-62 | "screenmarquee" classifies as ArcadeBezel, not ArcadeMarquee, and "disc" as Cartridge |
| PegasusAssets.AliasesWellFormed | src/backend/PegasusAssets.cpp:31-89 | every alias is nonempty, starts with a lower-case letter other than 'u', and names a category other than Unknown |
| PegasusAssets.ClassifyUnknownIff | src/backend/PegasusAssets.cpp:91-100 | over a table without Unknown entries, the result is Unknown exactly when no alias is a prefix of the token |
| PegasusAssets.UnknownIffNoAliasPrefix | src/backend/PegasusAssets.cpp:91-100 | `str_to_type` gives Unknown exactly when no alias of the table prefixes the token |
| PegasusAssets.NoAliasFits | src/backend/PegasusAssets.cpp:95-100 | an empty token, or one not starting with a lower-case letter, or one starting with 'u', is Unknown |
| PegasusAssets.EmptyTokenIsUnknown | src/backend/PegasusAssets.cpp:95-100 | the empty token is Unknown |
| PegasusAssets.CaseSensitive | src/backend/PegasusAssets.cpp:91-100 | lookup is case-sensitive: "BoxFront" is Unknown |
| PegasusAssets.ClassifyUnanimous | src/backend/PegasusAssets.cpp:95-98 | when every alias that prefixes the token has the same category, the fallback gives that category in every order |
| PegasusAssets.OnlyLogoStartsWithL | src/backend/PegasusAssets.cpp:31-89 | the only alias starting with 'l' is "logo", of category Logo |
| PegasusAssets.LogoAltIsLogo | src/backend/PegasusAssets.cpp:95-98 | the suffixed token "logo-alt" classifies as Logo in every iteration order |
| PegasusAssets.MoveToFront | src/backend/PegasusAssets.cpp:95 | an iteration order may visit any chosen alias first |
| PegasusAssets.Boxfront2HasNoExactHit | src/backend/PegasusAssets.cpp:91-93 | "boxfront2" is not an alias, so it goes to the prefix fallback |
| PegasusAssets.Boxfront2InDeclarationOrder | src/backend/PegasusAssets.cpp:95-98 | in declaration order "boxfront2" classifies as BoxFront |
| PegasusAssets.Boxfront2WithBoxFirst | src/backend/PegasusAssets.cpp:95-98 | in an order visiting "box" first, "boxfront2" classifies as BoxFull: the fallback depends on iteration order |
| PegasusAssets.Boxfront2DependsOnOrder | src/backend/PegasusAssets.cpp:95-98 | the fallback depends on the iteration order: "boxfront2" is BoxFront in declaration order and BoxFull in an order visiting "box" first |
| PegasusAssets.CanonicalTokenIsAlias | src/backend/PegasusAssets.cpp:116-136 | the canonical token of every category other than Unknown is one of that category's aliases |
| PegasusAssets.TypeToStrRoundTrip | src/backend/PegasusAssets.cpp:113-142 | classifying the canonical token of a category gives that category back, Unknown included, in every order |
| PegasusAssets.TypeToStrInjective | src/backend/PegasusAssets.cpp:116-138 | distinct categories have distinct canonical tokens |
| MediaDetect.AllowedAssetExts | src/backend/providers/pegasus_media/MediaProvider.cpp:38-55 | no extension for Unknown, video extensions for Video, audio extensions for Music, image extensions for the rest |
| MediaDetect.DetectAssetType | src/backend/providers/pegasus_media/MediaProvider.cpp:57-64 | the result is known exactly when the base name's category is known and allows the extension, and it is then that category |
| MediaDetect.ExtensionGroupsDisjoint | src/backend/providers/pegasus_media/MediaProvider.cpp:41-43 | no extension belongs to two of the image, video and audio groups |
| MediaDetect.UpperCaseExtensionRejected | src/backend/providers/pegasus_media/MediaProvider.cpp:60 | extensions compare case-sensitively: "PNG" is never accepted |
| GameLookup.Emplace | src/backend/providers/pegasus_media/MediaProvider.cpp:76 | an existing binding is kept; a new key is bound |
| GameLookup.BaseKey | src/backend/providers/pegasus_media/MediaProvider.cpp:75 | the base-name key: the file's cleaned directory, a slash, and its complete base name |
| GameLookup.TitleKey | src/backend/providers/pegasus_media/MediaProvider.cpp:79 | the title key: the file's cleaned directory, a slash, and its game's title |
| GameLookup.EmplaceAll | src/backend/providers/pegasus_media/MediaProvider.cpp:71-81 | the map has exactly the keys of the bindings emplaced |
| GameLookup.FirstBindingWins | src/backend/providers/pegasus_media/MediaProvider.cpp:76-80 | a key keeps the value of its first binding |
| GameLookup.Emplacements | src/backend/providers/pegasus_media/MediaProvider.cpp:71-81 | two bindings per file, base-name key then title key, both to the file's game |
| GameLookup.LookupMapOf | src/backend/providers/pegasus_media/MediaProvider.cpp:66-84 | the lookup map of the game files visited in order; `LookupMapKeys`, `FirstProducerWins` and `ValuesAreOwners` state its keys and values |
| GameLookup.LookupMapKeys | src/backend/providers/pegasus_media/MediaProvider.cpp:66-84 | a key is in the map exactly when some game file produces it |
| GameLookup.FirstProducerWins | src/backend/providers/pegasus_media/MediaProvider.cpp:71-81 | a key is bound to the game of the first file, in visiting order, that produces it |
| GameLookup.ValuesAreOwners | src/backend/providers/pegasus_media/MediaProvider.cpp:66-84 | every bound game is the game of a file producing the key |
| GameLookup.CreateLookupMap | src/backend/providers/pegasus_media/MediaProvider.cpp:66-84 | the loop builds the emplaced map, and both keys of every file are in it |
| MediaCache.LoadedCache | src/backend/providers/pegasus_media/MediaProvider.cpp:208-231 | version "1.0" always; the stored document when it parsed with version "1.0"; no directories otherwise |
| MediaCache.LoadIsIdempotent | src/backend/providers/pegasus_media/MediaProvider.cpp:224-230 | loading an already loaded cache changes nothing |
| MediaReconcile.QRemove | src/backend/providers/pegasus_media/MediaProvider.cpp:170 | `remove(pos, n)` keeps the part before `pos`, drops n characters, truncates near the end, and leaves a string shorter than `pos` alone |
| MediaReconcile.LookupKey | src/backend/providers/pegasus_media/MediaProvider.cpp:170 | the lookup key of a media file: its cleaned directory with the media subdirectory name removed after the game directory; `LookupKeyDropsMediaSubdir` states the result |
| MediaReconcile.ScannedType | src/backend/providers/pegasus_media/MediaProvider.cpp:169-176 | a file is accepted only when its key resolves and its type is not Unknown; `ScannedTypeIff` gives the converse |
| MediaReconcile.RecordOf | src/backend/providers/pegasus_media/MediaProvider.cpp:180-186 | the record of an accepted file: path, canonical token, time, size and key; `ReplayOfScan` states that replaying it gives the scan's attachment |
| MediaReconcile.RecordsFor | src/backend/providers/pegasus_media/MediaProvider.cpp:170-188 | the miss loop's body for one file writes no record or exactly one, whose key resolves |
| MediaReconcile.AttachmentsFor | src/backend/providers/pegasus_media/MediaProvider.cpp:170-179 | the miss loop's body for one file attaches nothing or exactly one file, never as Unknown |
| MediaReconcile.ScanRecords | src/backend/providers/pegasus_media/MediaProvider.cpp:162-187 | a scan writes at most one record per file, each with a key that resolves |
| MediaReconcile.ScanAttachments | src/backend/providers/pegasus_media/MediaProvider.cpp:162-179 | a scan makes at most one attachment per file and never attaches an Unknown file |
| MediaReconcile.LookupKeyDropsMediaSubdir | src/backend/providers/pegasus_media/MediaProvider.cpp:170 | a file under `<dir>/media<rest>` has the key `<dir><rest>` |
| MediaReconcile.ScanRecordsExactly | src/backend/providers/pegasus_media/MediaProvider.cpp:163-189 | a scan records exactly the accepted files, each with its canonical token and key |
| MediaReconcile.ScanRecordsSound | src/backend/providers/pegasus_media/MediaProvider.cpp:163-187 | every record of a scan was written for a file of the directory that the scan accepted |
| MediaReconcile.ScanRecordsComplete | src/backend/providers/pegasus_media/MediaProvider.cpp:163-187 | every accepted file of the directory has its record among the scan's records |
| MediaReconcile.ScannedTypeIff | src/backend/providers/pegasus_media/MediaProvider.cpp:170-177 | a file is accepted exactly when its key resolves and its type is detected; it is then filed under its base name's category |
| MediaReconcile.ReplayOne | src/backend/providers/pegasus_media/MediaProvider.cpp:148-155 | a cached record is replayed exactly when its key resolves, for the key's game and with the record's path |
| MediaReconcile.Replay | src/backend/providers/pegasus_media/MediaProvider.cpp:137-157 | replaying makes at most one attachment per record, each for a game of the lookup map |
| MediaReconcile.ReplayedFromRecord | src/backend/providers/pegasus_media/MediaProvider.cpp:137-157 | every replayed attachment comes from a cached record whose key resolves |
| MediaReconcile.RecordReplayed | src/backend/providers/pegasus_media/MediaProvider.cpp:137-157 | every cached record whose key resolves is replayed |
| MediaReconcile.ReplayOfScan | src/backend/providers/pegasus_media/MediaProvider.cpp:137-189 | replaying the records of a scan attaches exactly what the scan attached, in the same order |
| MediaReconcile.FindDir | src/backend/providers/pegasus_media/MediaProvider.cpp:125-134 | finds the first record with the path, and nothing exactly when no record has it |
| MediaReconcile.Step | src/backend/providers/pegasus_media/MediaProvider.cpp:119-198 | a missing media directory changes nothing; a cached one keeps the records and attaches the replay of its record's files; an uncached one appends exactly one record at the end, for that directory, holding the scan's records even when there are none, and attaches the scan's attachments |
| MediaReconcile.Reconcile | src/backend/providers/pegasus_media/MediaProvider.cpp:117-199 | the pass over the game directories in order, which never removes or changes a cached record |
| MediaReconcile.ReconcileAppendOnly | src/backend/providers/pegasus_media/MediaProvider.cpp:117-202 | the pass only appends, at most one record per game directory, each for an existing media directory of a game directory |
| MediaReconcile.ReconcileKeepsPathsUnique | src/backend/providers/pegasus_media/MediaProvider.cpp:125-197 | a cache without duplicate directory paths stays without them |
| MediaReconcile.ReconcileCachesEveryExistingDir | src/backend/providers/pegasus_media/MediaProvider.cpp:117-199 | after the pass, the existing media directory of every game directory has a record, so a later pass finds it as cached |
| MediaReconcile.StepAttachmentsRecorded | src/backend/providers/pegasus_media/MediaProvider.cpp:137-197 | every attachment of a step is backed by a record of the step's cache |
| MediaReconcile.AttachmentsAreRecorded | src/backend/providers/pegasus_media/MediaProvider.cpp:117-202 | every attachment of the pass is backed by a record of the final cache that replays as it |
| MediaReconcile.StepOnLaterCache | src/backend/providers/pegasus_media/MediaProvider.cpp:119-198 | on any cache extending a step's result, the step makes the same attachments and appends nothing |
| MediaReconcile.ReconcileOnLaterCache | src/backend/providers/pegasus_media/MediaProvider.cpp:117-202 | on any cache extending the pass's result, the pass appends nothing and makes the same attachments |
| MediaReconcile.HitIgnoresDirectoryContents | src/backend/providers/pegasus_media/MediaProvider.cpp:137-159 | a cached directory is not looked at again: its current contents do not change the step |
| MediaReconcile.ReconcileIdempotent | src/backend/providers/pegasus_media/MediaProvider.cpp:117-202 | a second pass over the first pass's cache reproduces its cache and attachments |
| MediaReconcile.AddFileTo | src/backend/providers/pegasus_media/MediaProvider.cpp:156 | `add_file` appends the file to its game's list and leaves every other game's list unchanged |
| MediaReconcile.AttachAll | src/backend/providers/pegasus_media/MediaProvider.cpp:137-179 | the asset lists after a run of attachments in order; `AttachAllPerGame` and `AttachAllAppend` state its effect |
| MediaReconcile.AttachAllPerGame | src/backend/providers/pegasus_media/MediaProvider.cpp:156-179 | each game's list grows by exactly the files attached to it, in order |
| MediaReconcile.AttachAllAppend | src/backend/providers/pegasus_media/MediaProvider.cpp:156-179 | attaching two runs one after another is attaching their concatenation |
| MediaReconcile.RunOutcome | src/backend/providers/pegasus_media/MediaProvider.cpp:98-203 | the pass `run` makes over the loaded cache with the lookup map of the game files; it keeps every loaded record |
| MediaReconcile.SavedCache | src/backend/providers/pegasus_media/MediaProvider.cpp:202-203 | the saved cache has version "1.0" and extends the loaded directory list |
| MediaReconcile.RerunOnSavedCache | src/backend/providers/pegasus_media/MediaProvider.cpp:98-206 | a later run on the saved cache, with the same games and files, keeps the cache and makes the same attachments |
| PegasusMedia.AssetLibrary.AddFile | src/backend/providers/pegasus_media/MediaProvider.cpp:156 | appends the file to its game's list and leaves every other game's list unchanged |
| PegasusMedia.FindCachedDir | src/backend/providers/pegasus_media/MediaProvider.cpp:124-134 | the linear search finds the first record for the directory, or none |
| PegasusMedia.ReplayCachedDir | src/backend/providers/pegasus_media/MediaProvider.cpp:137-159 | the hit loop attaches exactly the replay of the cached records, in order |
| PegasusMedia.ReplayRecord | src/backend/providers/pegasus_media/MediaProvider.cpp:138-155 | a cached record whose key resolves attaches its file, with the category of its stored token, to the key's game; any other record changes nothing |
| PegasusMedia.ScanMediaDir | src/backend/providers/pegasus_media/MediaProvider.cpp:161-189 | the miss loop returns the scan's records and attaches the scan's attachments, in order |
| PegasusMedia.ScanFile | src/backend/providers/pegasus_media/MediaProvider.cpp:164-187 | a file whose key does not resolve or whose type is Unknown is skipped; otherwise it is attached to the key's game and its record holds the path, canonical token, time, size and key |
| PegasusMedia.ReconcileGameDir | src/backend/providers/pegasus_media/MediaProvider.cpp:119-198 | one game directory: the cache and the library change exactly as the reconciliation step says |
| PegasusMedia.MediaProvider.constructor | src/backend/providers/pegasus_media/MediaProvider.cpp:91-96 | the cache path is the writable configuration directory joined with "/media_cache.json"; the held document is empty |
| PegasusMedia.MediaProvider.LoadCache | src/backend/providers/pegasus_media/MediaProvider.cpp:208-231 | the held cache becomes the loaded cache; the path is unchanged |
| PegasusMedia.MediaProvider.SaveCache | src/backend/providers/pegasus_media/MediaProvider.cpp:233-242 | writes the held cache when the file opens for writing, nothing otherwise |
| PegasusMedia.MediaProvider.Run | src/backend/providers/pegasus_media/MediaProvider.cpp:98-206 | the held and written cache is the saved cache of the pass; the games' lists gain exactly the pass's attachments, in order |

## Left out

- File system access is not modelled. `QDir::exists` and the recursive
  `QDirIterator` (files only, following symbolic links) become the
  `Filesystem` input: a map from each existing media directory to its files
  in enumeration order.
- `clean_abs_dir`, `QFileInfo::completeBaseName`, `suffix`,
  `lastModified` and `size` are carried as fields of the input entries.
  `utils/PathTools` is not part of this model.
- The cache file's JSON is not parsed or serialised. `load_cache` receives
  the outcome of opening and parsing it (`CacheFile`), already decoded into
  records. Missing or mistyped JSON fields, which Qt reads as empty strings
  or zero, are not modelled.
- Opening the cache file for writing becomes the `writable` flag, and the
  write itself becomes the returned document.
- `paths::writableConfigDir` (Paths.cpp) becomes the constructor's
  parameter.
- Logging is left out.
- `QDateTime::currentDateTime` becomes one `now` string per run. The code
  reads the clock once per scanned directory.
- The `Provider` base class, `SearchContext` and the `Game`/`GameFile`/`Assets`
  model classes are reduced to what `run` uses:
  - the path-to-game-file entries (`GameFileEntry`);
  - the list of game directories;
  - the per-game asset lists (`AssetLibrary`).

  Games are identified by `GameId` rather than by pointer. The
  `add_file` internals, such as primary-asset selection, are not modelled.
- `MEDIA_SUBDIRS` has one entry, `/media`, so the loop over it is the single
  constant `MediaSubdir`.
- `AssetTypeHash` is left out. It only serves the hash map of `type_to_str`,
  which becomes a `match`.
- PegasusMedia.MediaProvider.Run: uses `StrToType`, the classifier at declaration order, because the hash map's real iteration order is not known. Every classifier lemma holds for all orders.
- Strings are modelled as sequences of Unicode characters, not of UTF-16
  code units. `LookupKey` agrees with the code whenever the cleaned
  directory starts with `dirBase + "/media"`, the precondition of
  `LookupKeyDropsMediaSubdir`: both then cut at the end of the game
  directory and remove the six code units of `/media`. Otherwise positions
  counted in code units and in characters can differ when the game
  directory or the removed span holds a character outside the Basic
  Multilingual Plane.
- `create_lookup_map` visits the game files in the order of a hash map. The
  model takes that order as the order of the `games` sequence.
