/**
 * The game lookup index: every game file contributes two keys, its cleaned
 * directory joined with its base name and the same directory joined with its
 * game's title, each mapped to the game. Keys are inserted with `emplace`, so
 * the first file to produce a key keeps it.
 */
module GameLookup {
  /** A game of the library, identified by its position in the collection. */
  datatype GameId = GameId(index: nat)

  /**
   * One entry of the path-to-game-file map: the file's path (the map's key,
   * which identifies the entry; the lookup keys are built from the fields
   * derived from it instead), its cleaned absolute directory, its complete
   * base name, and its parent game with that game's title.
   */
  datatype GameFileEntry = GameFileEntry(
    path: string, cleanDir: string, completeBaseName: string, parentGame: GameId, title: string)

  /** The key built from a file's base name. */
  function BaseKey(f: GameFileEntry): string
  {
    f.cleanDir + "/" + f.completeBaseName
  }

  /** The key built from the title of a file's game. */
  function TitleKey(f: GameFileEntry): string
  {
    f.cleanDir + "/" + f.title
  }

  /** `f` produces the key `k`. */
  predicate Produces(f: GameFileEntry, k: string)
  {
    k == BaseKey(f) || k == TitleKey(f)
  }

  /** Some file of `games` produces `k`. */
  predicate Covers(games: seq<GameFileEntry>, k: string)
  {
    exists i :: 0 <= i < |games| && Produces(games[i], k)
  }

  /** `emplace`: bind `k` to `v` unless `k` is already bound. */
  function Emplace(m: map<string, GameId>, k: string, v: GameId): (r: map<string, GameId>)
    ensures k in m ==> r == m
    ensures k !in m ==> r == m[k := v]
  {
    if k in m then m else m[k := v]
  }

  /** Some binding of `kvs` has key `k`. */
  predicate Binds(kvs: seq<(string, GameId)>, k: string)
  {
    exists i :: 0 <= i < |kvs| && kvs[i].0 == k
  }

  /** The result of emplacing the bindings of `kvs` one after another. */
  function EmplaceAll(kvs: seq<(string, GameId)>): (m: map<string, GameId>)
    ensures forall k :: k in m <==> Binds(kvs, k)
  {
    if kvs == [] then map[]
    else
      var prev := kvs[..|kvs| - 1];
      var m := Emplace(EmplaceAll(prev), kvs[|kvs| - 1].0, kvs[|kvs| - 1].1);
      assert forall k :: Binds(prev, k) ==> Binds(kvs, k) by {
        forall k | Binds(prev, k) ensures Binds(kvs, k) {
          var i :| 0 <= i < |prev| && prev[i].0 == k;
          assert kvs[i] == prev[i];
        }
      }
      assert forall k :: Binds(kvs, k) ==> k in m by {
        forall k | Binds(kvs, k) ensures k in m {
          var i :| 0 <= i < |kvs| && kvs[i].0 == k;
          if i < |prev| {
            assert prev[i] == kvs[i];
          }
        }
      }
      m
  }

  /** Emplacing one more binding after `kvs`. */
  lemma EmplaceAllSnoc(kvs: seq<(string, GameId)>, k: string, v: GameId)
    ensures EmplaceAll(kvs + [(k, v)]) == Emplace(EmplaceAll(kvs), k, v)
  {
    assert (kvs + [(k, v)])[..|kvs|] == kvs;
  }

  /** A key keeps the value of its first binding: later bindings never override it. */
  lemma {:induction false} FirstBindingWins(kvs: seq<(string, GameId)>, i: nat)
    requires i < |kvs|
    requires forall j :: 0 <= j < i ==> kvs[j].0 != kvs[i].0
    ensures kvs[i].0 in EmplaceAll(kvs) && EmplaceAll(kvs)[kvs[i].0] == kvs[i].1
  {
    var prev := kvs[..|kvs| - 1];
    if i < |prev| {
      assert forall j :: 0 <= j <= i ==> prev[j] == kvs[j];
      FirstBindingWins(prev, i);
    } else {
      assert kvs[i].0 !in EmplaceAll(prev) by {
        forall j | 0 <= j < |prev| ensures prev[j].0 != kvs[i].0 {
          assert prev[j] == kvs[j];
        }
      }
    }
  }

  /** The bindings `create_lookup_map` emplaces, in order: each file's base-name key, then its title key. */
  function Emplacements(games: seq<GameFileEntry>): (kvs: seq<(string, GameId)>)
    ensures |kvs| == 2 * |games|
    ensures forall i :: 0 <= i < |games| ==> kvs[2 * i] == (BaseKey(games[i]), games[i].parentGame)
    ensures forall i :: 0 <= i < |games| ==> kvs[2 * i + 1] == (TitleKey(games[i]), games[i].parentGame)
  {
    if games == [] then []
    else
      var f := games[|games| - 1];
      var prev := games[..|games| - 1];
      assert forall i :: 0 <= i < |prev| ==> prev[i] == games[i];
      Emplacements(prev) + [(BaseKey(f), f.parentGame), (TitleKey(f), f.parentGame)]
  }

  /** The lookup map built from `games` visited in order. */
  function LookupMapOf(games: seq<GameFileEntry>): map<string, GameId>
  {
    EmplaceAll(Emplacements(games))
  }

  /** The map holds exactly the keys the files produce. */
  lemma LookupMapKeys(games: seq<GameFileEntry>, k: string)
    ensures k in LookupMapOf(games) <==> Covers(games, k)
  {
    var kvs := Emplacements(games);
    if k in LookupMapOf(games) {
      assert Binds(kvs, k);
      var p :| 0 <= p < |kvs| && kvs[p].0 == k;
      var j := p / 2;
      assert p == 2 * j || p == 2 * j + 1;
      assert Produces(games[j], k);
    }
    if Covers(games, k) {
      var i :| 0 <= i < |games| && Produces(games[i], k);
      assert kvs[2 * i].0 == k || kvs[2 * i + 1].0 == k;
      assert Binds(kvs, k);
    }
  }

  /**
   * The first file in visiting order that produces `k` owns it: the map binds
   * `k` to that file's game, and no later file overrides it.
   */
  lemma FirstProducerWins(games: seq<GameFileEntry>, k: string, i: nat)
    requires i < |games| && Produces(games[i], k)
    requires forall j :: 0 <= j < i ==> !Produces(games[j], k)
    ensures k in LookupMapOf(games) && LookupMapOf(games)[k] == games[i].parentGame
  {
    var kvs := Emplacements(games);
    var p := if BaseKey(games[i]) == k then 2 * i else 2 * i + 1;
    forall q | 0 <= q < p ensures kvs[q].0 != k {
      var j := q / 2;
      assert q == 2 * j || q == 2 * j + 1;
      if j < i {
        assert !Produces(games[j], k);
      }
    }
    FirstBindingWins(kvs, p);
  }

  /** Every value of the map is the game of a file that produced its key. */
  lemma ValuesAreOwners(games: seq<GameFileEntry>, k: string)
    requires k in LookupMapOf(games)
    ensures exists i :: 0 <= i < |games| && Produces(games[i], k) && games[i].parentGame == LookupMapOf(games)[k]
  {
    LookupMapKeys(games, k);
    var i :| 0 <= i < |games| && Produces(games[i], k);
    while exists j :: 0 <= j < i && Produces(games[j], k)
      invariant 0 <= i < |games| && Produces(games[i], k)
      decreases i
    {
      var j :| 0 <= j < i && Produces(games[j], k);
      i := j;
    }
    FirstProducerWins(games, k, i);
  }

  /**
   * `create_lookup_map`: the map built by emplacing both keys of every file,
   * in the order the files are visited.
   */
  method CreateLookupMap(games: seq<GameFileEntry>) returns (out: map<string, GameId>)
    ensures out == LookupMapOf(games)
    ensures forall f :: f in games ==> BaseKey(f) in out && TitleKey(f) in out
  {
    out := map[];
    var i := 0;
    while i < |games|
      invariant 0 <= i <= |games|
      invariant out == EmplaceAll(Emplacements(games[..i]))
    {
      var f := games[i];
      var before := Emplacements(games[..i]);
      var base, title := (BaseKey(f), f.parentGame), (TitleKey(f), f.parentGame);
      assert games[..i + 1][..i] == games[..i];
      assert Emplacements(games[..i + 1]) == before + [base] + [title];
      EmplaceAllSnoc(before, base.0, base.1);
      out := Emplace(out, base.0, base.1);
      EmplaceAllSnoc(before + [base], title.0, title.1);
      out := Emplace(out, title.0, title.1);
      i := i + 1;
    }
    assert games[..i] == games;
    forall f | f in games ensures BaseKey(f) in out && TitleKey(f) in out {
      var j :| 0 <= j < |games| && games[j] == f;
      LookupMapKeys(games, BaseKey(f));
      LookupMapKeys(games, TitleKey(f));
    }
  }
}
