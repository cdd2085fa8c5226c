/**
 * The asset-type classifier: a filename token is mapped to an asset category
 * through a static alias table (exact, case-sensitive lookup first, then the
 * category of an alias that is a prefix of the token), and every category has
 * one canonical token, the form written to the media cache.
 */
module PegasusAssets {
  import opened Wrappers

  /** The closed set of asset categories. */
  datatype AssetType =
    | Unknown
    | BoxFront | BoxBack | BoxSpine | BoxFull
    | Cartridge | Logo
    | ArcadeMarquee | ArcadeBezel | ArcadePanel | ArcadeCabinetL | ArcadeCabinetR
    | UiTile | UiBanner | UiSteamgrid
    | Poster | Background | Music | Screenshot | Video | Titlescreen

  type AliasEntry = (string, AssetType)

  // The alias table of `str_to_type`, in declaration order, in three runs.
  const BoxAliases: seq<AliasEntry> := [
    ("boxfront", BoxFront), ("boxFront", BoxFront), ("box_front", BoxFront),
    ("boxart2D", BoxFront), ("boxart2d", BoxFront),
    ("boxback", BoxBack), ("boxBack", BoxBack), ("box_back", BoxBack),
    ("boxspine", BoxSpine), ("boxSpine", BoxSpine), ("box_spine", BoxSpine),
    ("boxside", BoxSpine), ("boxSide", BoxSpine), ("box_side", BoxSpine),
    ("boxfull", BoxFull), ("boxFull", BoxFull), ("box_full", BoxFull), ("box", BoxFull)]
  const ArcadeAliases: seq<AliasEntry> := [
    ("cartridge", Cartridge), ("disc", Cartridge), ("cart", Cartridge),
    ("logo", Logo), ("wheel", Logo),
    ("marquee", ArcadeMarquee),
    ("bezel", ArcadeBezel), ("screenmarquee", ArcadeBezel), ("border", ArcadeBezel),
    ("panel", ArcadePanel),
    ("cabinetleft", ArcadeCabinetL), ("cabinetLeft", ArcadeCabinetL), ("cabinet_left", ArcadeCabinetL),
    ("cabinetright", ArcadeCabinetR), ("cabinetRight", ArcadeCabinetR), ("cabinet_right", ArcadeCabinetR)]
  const UiAliases: seq<AliasEntry> := [
    ("tile", UiTile), ("banner", UiBanner),
    ("steam", UiSteamgrid), ("steamgrid", UiSteamgrid), ("grid", UiSteamgrid),
    ("poster", Poster), ("flyer", Poster),
    ("background", Background), ("music", Music),
    ("screenshot", Screenshot), ("screenshots", Screenshot),
    ("video", Video), ("videos", Video),
    ("titlescreen", Titlescreen)]

  /** The whole alias table of `str_to_type`, in declaration order. */
  const AliasTable: seq<AliasEntry> := BoxAliases + ArcadeAliases + UiAliases

  /**
   * An order in which a hash map of `n` entries may be iterated, given as the
   * positions of the entries in declaration order: every position exactly once
   * (the hash map does not fix one).
   */
  ghost predicate IsIterationOrder(order: seq<nat>, n: nat)
  {
    |order| == n && (forall k :: 0 <= k < n ==> order[k] < n) && (forall i :: 0 <= i < n ==> i in order)
  }

  /** Exact, case-sensitive lookup of `s` among the aliases of `table`. */
  function ExactLookup(table: seq<AliasEntry>, s: string): (r: Option<AssetType>)
    ensures r.Some? <==> exists e :: e in table && e.0 == s
    ensures r.Some? ==> (s, r.value) in table
  {
    if table == [] then None
    else if table[0].0 == s then Some(table[0].1)
    else ExactLookup(table[1..], s)
  }

  /** `QString::startsWith`: `prefix` is a prefix of `s` (case-sensitive). */
  predicate StartsWith(s: string, prefix: string)
  {
    prefix <= s
  }

  /**
   * The prefix fallback: the category of the first entry of `table`, visited
   * in iteration order `order`, whose alias `s` starts with.
   */
  function PrefixSearch(table: seq<AliasEntry>, order: seq<nat>, s: string): (r: Option<AssetType>)
    requires forall k :: 0 <= k < |order| ==> order[k] < |table|
    ensures r.Some? <==> exists k :: 0 <= k < |order| && StartsWith(s, table[order[k]].0)
    ensures r.Some? ==> exists k :: 0 <= k < |order| && StartsWith(s, table[order[k]].0) && table[order[k]].1 == r.value
  {
    if order == [] then None
    else if StartsWith(s, table[order[0]].0) then Some(table[order[0]].1)
    else
      var r := PrefixSearch(table, order[1..], s);
      assert r.Some? <==> exists k :: 0 <= k < |order| && StartsWith(s, table[order[k]].0) by {
        if exists k :: 0 <= k < |order| && StartsWith(s, table[order[k]].0) {
          var k :| 0 <= k < |order| && StartsWith(s, table[order[k]].0);
          assert order[1..][k - 1] == order[k];
        }
      }
      assert r.Some? ==> exists k :: 0 <= k < |order| && StartsWith(s, table[order[k]].0) && table[order[k]].1 == r.value by {
        if r.Some? {
          var k :| 0 <= k < |order| - 1 && StartsWith(s, table[order[1..][k]].0) && table[order[1..][k]].1 == r.value;
          assert order[1..][k] == order[k + 1];
        }
      }
      r
  }

  /** The fallback picks the first entry in iteration order that `s` starts with. */
  lemma {:induction false} PrefixSearchTakesFirst(table: seq<AliasEntry>, order: seq<nat>, s: string, k: nat)
    requires forall k :: 0 <= k < |order| ==> order[k] < |table|
    requires k < |order| && StartsWith(s, table[order[k]].0)
    requires forall j :: 0 <= j < k ==> !StartsWith(s, table[order[j]].0)
    ensures PrefixSearch(table, order, s) == Some(table[order[k]].1)
  {
    if k > 0 {
      assert forall j :: 0 <= j < |order| - 1 ==> order[1..][j] == order[j + 1];
      PrefixSearchTakesFirst(table, order[1..], s, k - 1);
    }
  }

  /**
   * Classification against `table` (exact lookup) when its map is iterated in
   * `order` (prefix fallback); `Unknown` when neither finds an alias.
   */
  function Classify(table: seq<AliasEntry>, order: seq<nat>, s: string): (r: AssetType)
    requires IsIterationOrder(order, |table|)
    ensures r != Unknown ==> exists i :: 0 <= i < |table| && StartsWith(s, table[i].0) && table[i].1 == r
  {
    match ExactLookup(table, s)
    case Some(t) =>
      assert exists i :: 0 <= i < |table| && StartsWith(s, table[i].0) && table[i].1 == t by {
        var i :| 0 <= i < |table| && table[i] == (s, t);
      }
      t
    case None => PrefixSearch(table, order, s).GetOr(Unknown)
  }

  /**
   * `str_to_type` when the alias map is iterated in `order`: an exact alias
   * gives its category; otherwise the first alias in `order` that is a prefix
   * of `s` decides; otherwise `Unknown`.
   */
  function StrToTypeIn(order: seq<nat>, s: string): (r: AssetType)
    requires IsIterationOrder(order, |AliasTable|)
    ensures r != Unknown ==> exists i :: 0 <= i < |AliasTable| && StartsWith(s, AliasTable[i].0) && AliasTable[i].1 == r
  {
    Classify(AliasTable, order, s)
  }

  /** Declaration order: the positions of the table in sequence. */
  function DeclarationOrder(n: nat): (r: seq<nat>)
    ensures IsIterationOrder(r, n)
    ensures forall k :: 0 <= k < n ==> r[k] == k
  {
    var r := seq(n, k => k);
    assert forall i :: 0 <= i < n ==> i in r by {
      forall i | 0 <= i < n ensures i in r { assert r[i] == i; }
    }
    r
  }

  /** `str_to_type` with the alias map iterated in declaration order. */
  function StrToType(s: string): AssetType
  {
    StrToTypeIn(DeclarationOrder(|AliasTable|), s)
  }

  /** `type_to_str`: the canonical token of each category. */
  function TypeToStr(t: AssetType): (r: string)
    ensures r != []
    ensures forall c :: c in r ==> 'a' <= c <= 'z' || c == '_'
  {
    match t
    case BoxFront => "box_front"
    case BoxBack => "box_back"
    case BoxSpine => "box_spine"
    case BoxFull => "box_full"
    case Cartridge => "cartridge"
    case Logo => "logo"
    case ArcadeMarquee => "marquee"
    case ArcadeBezel => "bezel"
    case ArcadePanel => "panel"
    case ArcadeCabinetL => "cabinet_left"
    case ArcadeCabinetR => "cabinet_right"
    case UiTile => "tile"
    case UiBanner => "banner"
    case UiSteamgrid => "steamgrid"
    case Poster => "poster"
    case Background => "background"
    case Music => "music"
    case Screenshot => "screenshot"
    case Video => "video"
    case Titlescreen => "titlescreen"
    case Unknown => "unknown"
  }

  // ---------------------------------------------------------------------
  // Facts about the alias table, checked run by run to keep each proof small.

  /** No two entries of `t` share an alias. */
  ghost predicate DistinctKeys(t: seq<AliasEntry>)
  {
    forall i, j :: 0 <= i < j < |t| ==> t[i].0 != t[j].0
  }

  /** No alias of `x` is an alias of `y`. */
  ghost predicate KeysApart(x: seq<AliasEntry>, y: seq<AliasEntry>)
  {
    forall i, j :: 0 <= i < |x| && 0 <= j < |y| ==> x[i].0 != y[j].0
  }

  lemma BoxAliasesDistinct() ensures forall i, j :: 0 <= i < j < |BoxAliases| ==> BoxAliases[i].0 != BoxAliases[j].0 {}
  lemma ArcadeAliasesDistinct() ensures forall i, j :: 0 <= i < j < |ArcadeAliases| ==> ArcadeAliases[i].0 != ArcadeAliases[j].0 {}
  lemma UiAliasesDistinct() ensures forall i, j :: 0 <= i < j < |UiAliases| ==> UiAliases[i].0 != UiAliases[j].0 {}
  lemma BoxArcadeApart() ensures forall i, j :: 0 <= i < |BoxAliases| && 0 <= j < |ArcadeAliases| ==> BoxAliases[i].0 != ArcadeAliases[j].0 {}
  lemma BoxUiApart() ensures forall i, j :: 0 <= i < |BoxAliases| && 0 <= j < |UiAliases| ==> BoxAliases[i].0 != UiAliases[j].0 {}
  lemma ArcadeUiApart() ensures forall i, j :: 0 <= i < |ArcadeAliases| && 0 <= j < |UiAliases| ==> ArcadeAliases[i].0 != UiAliases[j].0 {}

  lemma {:induction false} DistinctConcat(x: seq<AliasEntry>, y: seq<AliasEntry>)
    requires DistinctKeys(x) && DistinctKeys(y) && KeysApart(x, y)
    ensures DistinctKeys(x + y)
  {
    forall i, j | 0 <= i < j < |x + y| ensures (x + y)[i].0 != (x + y)[j].0 {
      if j < |x| {
      } else if i < |x| {
        assert (x + y)[j] == y[j - |x|];
      } else {
        assert (x + y)[i] == y[i - |x|] && (x + y)[j] == y[j - |x|];
      }
    }
  }

  /** No alias appears twice in the table, so the exact lookup is unambiguous. */
  lemma AliasTableDistinct()
    ensures DistinctKeys(AliasTable)
  {
    BoxAliasesDistinct();
    ArcadeAliasesDistinct();
    UiAliasesDistinct();
    BoxArcadeApart();
    BoxUiApart();
    ArcadeUiApart();
    DistinctConcat(BoxAliases, ArcadeAliases);
    assert KeysApart(BoxAliases + ArcadeAliases, UiAliases) by {
      forall i, j | 0 <= i < |BoxAliases + ArcadeAliases| && 0 <= j < |UiAliases|
        ensures (BoxAliases + ArcadeAliases)[i].0 != UiAliases[j].0
      {
        if i >= |BoxAliases| {
          assert (BoxAliases + ArcadeAliases)[i] == ArcadeAliases[i - |BoxAliases|];
        }
      }
    }
    DistinctConcat(BoxAliases + ArcadeAliases, UiAliases);
  }

  /** In a table without repeated aliases, looking up an alias finds its own entry. */
  lemma {:induction false} ExactLookupFindsEntry(table: seq<AliasEntry>, e: AliasEntry)
    requires DistinctKeys(table) && e in table
    ensures ExactLookup(table, e.0) == Some(e.1)
  {
    if table[0] != e {
      assert e in table[1..];
      var i :| 1 <= i < |table| && table[i] == e;
      assert table[0].0 != e.0;
      assert DistinctKeys(table[1..]) by {
        forall i, j | 0 <= i < j < |table[1..]| ensures table[1..][i].0 != table[1..][j].0 {
          assert table[1..][i] == table[i + 1] && table[1..][j] == table[j + 1];
        }
      }
      ExactLookupFindsEntry(table[1..], e);
    }
  }

  lemma RunsInAliasTable(e: AliasEntry)
    requires e in BoxAliases || e in ArcadeAliases || e in UiAliases
    ensures e in AliasTable
  {
  }

  /** Every alias, spelled exactly, classifies as its own category whatever the iteration order. */
  lemma AliasMapsToItsCategory(order: seq<nat>, e: AliasEntry)
    requires IsIterationOrder(order, |AliasTable|)
    requires e in BoxAliases || e in ArcadeAliases || e in UiAliases
    ensures StrToTypeIn(order, e.0) == e.1
  {
    RunsInAliasTable(e);
    AliasTableDistinct();
    ExactLookupFindsEntry(AliasTable, e);
  }

  /** Box fronts are spelled in lower case, camel case or with an underscore. */
  lemma BoxFrontSpellings(order: seq<nat>)
    requires IsIterationOrder(order, |AliasTable|)
    ensures StrToTypeIn(order, "boxfront") == BoxFront
    ensures StrToTypeIn(order, "boxFront") == BoxFront
  {
    AliasMapsToItsCategory(order, ("boxfront", BoxFront));
    AliasMapsToItsCategory(order, ("boxFront", BoxFront));
  }

  /** Box art, in either case of its final letter, is a box front. */
  lemma BoxArtSpellings(order: seq<nat>)
    requires IsIterationOrder(order, |AliasTable|)
    ensures StrToTypeIn(order, "boxart2D") == BoxFront
    ensures StrToTypeIn(order, "boxart2d") == BoxFront
  {
    AliasMapsToItsCategory(order, ("boxart2D", BoxFront));
    AliasMapsToItsCategory(order, ("boxart2d", BoxFront));
  }

  /** The underscore spelling of a box front, and a box side, which is a spine. */
  lemma BoxSideSpellings(order: seq<nat>)
    requires IsIterationOrder(order, |AliasTable|)
    ensures StrToTypeIn(order, "box_front") == BoxFront
    ensures StrToTypeIn(order, "boxside") == BoxSpine
  {
    AliasMapsToItsCategory(order, ("box_front", BoxFront));
    AliasMapsToItsCategory(order, ("boxside", BoxSpine));
  }

  /** A screen marquee is a bezel and a disc is a cartridge. */
  lemma ArcadeSpellings(order: seq<nat>)
    requires IsIterationOrder(order, |AliasTable|)
    ensures StrToTypeIn(order, "screenmarquee") == ArcadeBezel
    ensures StrToTypeIn(order, "disc") == Cartridge
  {
    AliasMapsToItsCategory(order, ("screenmarquee", ArcadeBezel));
    AliasMapsToItsCategory(order, ("disc", Cartridge));
  }

  // ---------------------------------------------------------------------
  // The shape of the aliases, and what it says about unmatched tokens.

  /**
   * An alias names a real category, is not empty, and starts with a
   * lower-case letter other than `u`.
   */
  ghost predicate WellFormedAlias(e: AliasEntry)
  {
    e.1 != Unknown && e.0 != [] && 'a' <= e.0[0] <= 'z' && e.0[0] != 'u'
  }

  /** A property of entries that holds on each run holds on the whole table. */
  lemma AllEntries(P: AliasEntry -> bool)
    requires forall i :: 0 <= i < |BoxAliases| ==> P(BoxAliases[i])
    requires forall i :: 0 <= i < |ArcadeAliases| ==> P(ArcadeAliases[i])
    requires forall i :: 0 <= i < |UiAliases| ==> P(UiAliases[i])
    ensures forall i :: 0 <= i < |AliasTable| ==> P(AliasTable[i])
  {
    forall i | 0 <= i < |AliasTable| ensures P(AliasTable[i]) {
      if i < |BoxAliases| {
        assert AliasTable[i] == BoxAliases[i];
      } else if i < |BoxAliases| + |ArcadeAliases| {
        assert AliasTable[i] == ArcadeAliases[i - |BoxAliases|];
      } else {
        assert AliasTable[i] == UiAliases[i - |BoxAliases| - |ArcadeAliases|];
      }
    }
  }

  /** Every alias is well formed; in particular none maps to `Unknown`. */
  lemma AliasesWellFormed()
    ensures forall i :: 0 <= i < |AliasTable| ==> WellFormedAlias(AliasTable[i])
  {
    assert forall i :: 0 <= i < |BoxAliases| ==> WellFormedAlias(BoxAliases[i]);
    assert forall i :: 0 <= i < |ArcadeAliases| ==> WellFormedAlias(ArcadeAliases[i]);
    assert forall i :: 0 <= i < |UiAliases| ==> WellFormedAlias(UiAliases[i]);
    AllEntries(WellFormedAlias);
  }

  /**
   * When no entry of `table` has category `Unknown`, classification gives
   * `Unknown` exactly when no alias is a prefix of `s`, whatever the order.
   */
  lemma ClassifyUnknownIff(table: seq<AliasEntry>, order: seq<nat>, s: string)
    requires IsIterationOrder(order, |table|)
    requires forall i :: 0 <= i < |table| ==> table[i].1 != Unknown
    ensures Classify(table, order, s) == Unknown <==> forall i :: 0 <= i < |table| ==> !StartsWith(s, table[i].0)
  {
    if i :| 0 <= i < |table| && StartsWith(s, table[i].0) {
      match ExactLookup(table, s)
      case Some(t) =>
        assert (s, t) in table;
        var j :| 0 <= j < |table| && table[j] == (s, t);
      case None =>
        assert i in order;
        var k :| 0 <= k < |order| && order[k] == i;
        var r := PrefixSearch(table, order, s);
        assert r.Some?;
        var k' :| 0 <= k' < |order| && StartsWith(s, table[order[k']].0) && table[order[k']].1 == r.value;
    }
  }

  /** `str_to_type` is `Unknown` exactly when no alias is a prefix of the token. */
  lemma UnknownIffNoAliasPrefix(order: seq<nat>, s: string)
    requires IsIterationOrder(order, |AliasTable|)
    ensures StrToTypeIn(order, s) == Unknown <==> forall i :: 0 <= i < |AliasTable| ==> !StartsWith(s, AliasTable[i].0)
  {
    AliasesWellFormed();
    ClassifyUnknownIff(AliasTable, order, s);
  }

  /**
   * A token that is empty, or does not start with a lower-case letter, or
   * starts with `u`, has no alias as a prefix and is `Unknown`.
   */
  lemma NoAliasFits(order: seq<nat>, s: string)
    requires IsIterationOrder(order, |AliasTable|)
    requires s == [] || !('a' <= s[0] <= 'z') || s[0] == 'u'
    ensures StrToTypeIn(order, s) == Unknown
  {
    AliasesWellFormed();
    assert forall i :: 0 <= i < |AliasTable| ==> !StartsWith(s, AliasTable[i].0);
    UnknownIffNoAliasPrefix(order, s);
  }

  /** The empty token is `Unknown`. */
  lemma EmptyTokenIsUnknown(order: seq<nat>)
    requires IsIterationOrder(order, |AliasTable|)
    ensures StrToTypeIn(order, "") == Unknown
  {
    NoAliasFits(order, "");
  }

  /** Lookup is case-sensitive: a capitalised spelling of an alias is `Unknown`. */
  lemma CaseSensitive(order: seq<nat>)
    requires IsIterationOrder(order, |AliasTable|)
    ensures StrToTypeIn(order, "BoxFront") == Unknown
  {
    NoAliasFits(order, "BoxFront");
  }

  /**
   * When every alias that is a prefix of `s` has category `t`, and there is
   * one, classification gives `t` whatever the iteration order.
   */
  lemma ClassifyUnanimous(table: seq<AliasEntry>, order: seq<nat>, s: string, t: AssetType)
    requires IsIterationOrder(order, |table|)
    requires exists i :: 0 <= i < |table| && StartsWith(s, table[i].0)
    requires forall i :: 0 <= i < |table| && StartsWith(s, table[i].0) ==> table[i].1 == t
    ensures Classify(table, order, s) == t
  {
    match ExactLookup(table, s)
    case Some(v) =>
      assert (s, v) in table;
      var j :| 0 <= j < |table| && table[j] == (s, v);
    case None =>
      var i :| 0 <= i < |table| && StartsWith(s, table[i].0);
      assert i in order;
      var k :| 0 <= k < |order| && order[k] == i;
      var r := PrefixSearch(table, order, s);
      assert r.Some?;
      var k' :| 0 <= k' < |order| && StartsWith(s, table[order[k']].0) && table[order[k']].1 == r.value;
  }

  /** `e` is a logo alias if it starts with `l`. */
  ghost predicate LogoIfInitialL(e: AliasEntry)
  {
    e.0 != [] && e.0[0] == 'l' ==> e == ("logo", Logo)
  }

  /** The only alias starting with `l` is `logo`, of category Logo. */
  lemma OnlyLogoStartsWithL()
    ensures forall i :: 0 <= i < |AliasTable| ==> LogoIfInitialL(AliasTable[i])
  {
    assert forall i :: 0 <= i < |BoxAliases| ==> LogoIfInitialL(BoxAliases[i]);
    assert forall i :: 0 <= i < |ArcadeAliases| ==> LogoIfInitialL(ArcadeAliases[i]);
    assert forall i :: 0 <= i < |UiAliases| ==> LogoIfInitialL(UiAliases[i]);
    AllEntries(LogoIfInitialL);
  }

  /** A token extending only the `logo` alias is a logo, whatever the iteration order. */
  lemma LogoAltIsLogo(order: seq<nat>)
    requires IsIterationOrder(order, |AliasTable|)
    ensures StrToTypeIn(order, "logo-alt") == Logo
  {
    var s := "logo-alt";
    AliasesWellFormed();
    OnlyLogoStartsWithL();
    forall i | 0 <= i < |AliasTable| && StartsWith(s, AliasTable[i].0) ensures AliasTable[i].1 == Logo {
      assert AliasTable[i].0[0] == s[0];
      assert LogoIfInitialL(AliasTable[i]);
    }
    RunsInAliasTable(("logo", Logo));
    var j :| 0 <= j < |AliasTable| && AliasTable[j] == ("logo", Logo);
    assert StartsWith(s, AliasTable[j].0);
    ClassifyUnanimous(AliasTable, order, s, Logo);
  }

  /** The iteration order that visits position `j` first and the others in declaration order. */
  function MoveToFront(n: nat, j: nat): (r: seq<nat>)
    requires j < n
    ensures IsIterationOrder(r, n) && r[0] == j
  {
    var r := [j] + seq(j, k => k) + seq(n - j - 1, k => k + j + 1);
    assert forall i :: 0 <= i < n ==> i in r by {
      forall i | 0 <= i < n ensures i in r {
        if i < j {
          assert r[i + 1] == i;
        } else if i > j {
          assert r[i] == i;
        }
      }
    }
    r
  }

  /** `e`'s alias is not `s`. */
  ghost predicate AliasIsNot(e: AliasEntry, s: string)
  {
    e.0 != s
  }

  /** `boxfront2` is not itself an alias, so it has no exact hit. */
  lemma Boxfront2HasNoExactHit()
    ensures ExactLookup(AliasTable, "boxfront2") == None
  {
    assert forall i :: 0 <= i < |BoxAliases| ==> AliasIsNot(BoxAliases[i], "boxfront2");
    assert forall i :: 0 <= i < |ArcadeAliases| ==> AliasIsNot(ArcadeAliases[i], "boxfront2");
    assert forall i :: 0 <= i < |UiAliases| ==> AliasIsNot(UiAliases[i], "boxfront2");
    AllEntries(e => AliasIsNot(e, "boxfront2"));
    assert forall e :: e in AliasTable ==> e.0 != "boxfront2" by {
      forall e | e in AliasTable ensures e.0 != "boxfront2" {
        var i :| 0 <= i < |AliasTable| && AliasTable[i] == e;
        assert AliasIsNot(AliasTable[i], "boxfront2");
      }
    }
  }

  /** Without an exact hit, an alias visited first that prefixes `s` decides. */
  lemma FallbackTakesFirstVisited(table: seq<AliasEntry>, order: seq<nat>, s: string)
    requires IsIterationOrder(order, |table|) && |order| > 0
    requires ExactLookup(table, s) == None && StartsWith(s, table[order[0]].0)
    ensures Classify(table, order, s) == table[order[0]].1
  {
    PrefixSearchTakesFirst(table, order, s, 0);
  }

  /**
   * The winner of the prefix fallback depends on the iteration order:
   * `boxfront2` extends both `boxfront` and `box`, and is a box front in
   * declaration order ...
   */
  lemma Boxfront2InDeclarationOrder()
    ensures StrToType("boxfront2") == BoxFront
  {
    Boxfront2HasNoExactHit();
    assert AliasTable[0] == ("boxfront", BoxFront);
    PrefixSearchTakesFirst(AliasTable, DeclarationOrder(|AliasTable|), "boxfront2", 0);
  }

  /**
   * ... but a full box in every order that visits `box` (position 17) first;
   * `MoveToFront` shows there is such an order.
   */
  lemma Boxfront2WithBoxFirst(order: seq<nat>)
    requires IsIterationOrder(order, |AliasTable|) && order[0] == 17
    ensures StrToTypeIn(order, "boxfront2") == BoxFull
  {
    Boxfront2HasNoExactHit();
    BoxIsEntry17();
    FallbackTakesFirstVisited(AliasTable, order, "boxfront2");
  }

  /**
   * The fallback's result depends on the iteration order: declaration order
   * classifies "boxfront2" as BoxFront, and an order visiting `box` first as BoxFull.
   */
  lemma Boxfront2DependsOnOrder()
    ensures StrToTypeIn(DeclarationOrder(|AliasTable|), "boxfront2") == BoxFront
    ensures StrToTypeIn(MoveToFront(|AliasTable|, 17), "boxfront2") == BoxFull
  {
    Boxfront2InDeclarationOrder();
    Boxfront2WithBoxFirst(MoveToFront(|AliasTable|, 17));
  }


  /** `box` is the eighteenth alias of the table. */
  lemma BoxIsEntry17()
    ensures |AliasTable| > 17 && AliasTable[17] == ("box", BoxFull) && StartsWith("boxfront2", AliasTable[17].0)
  {
  }

  // ---------------------------------------------------------------------
  // The canonical tokens and the round trip.

  /** Every canonical token other than `unknown` is itself an alias of its category. */
  lemma CanonicalTokenIsAlias(t: AssetType)
    requires t != Unknown
    ensures (TypeToStr(t), t) in BoxAliases || (TypeToStr(t), t) in ArcadeAliases || (TypeToStr(t), t) in UiAliases
  {
  }

  /**
   * Round trip: classifying the canonical token of any category, `Unknown`
   * included, gives that category back, whatever the iteration order.
   */
  lemma TypeToStrRoundTrip(order: seq<nat>, t: AssetType)
    requires IsIterationOrder(order, |AliasTable|)
    ensures StrToTypeIn(order, TypeToStr(t)) == t
  {
    if t == Unknown {
      NoAliasFits(order, "unknown");
    } else {
      CanonicalTokenIsAlias(t);
      AliasMapsToItsCategory(order, (TypeToStr(t), t));
    }
  }

  /** Distinct categories have distinct canonical tokens. */
  lemma TypeToStrInjective(a: AssetType, b: AssetType)
    ensures TypeToStr(a) == TypeToStr(b) ==> a == b
  {
    var order := DeclarationOrder(|AliasTable|);
    TypeToStrRoundTrip(order, a);
    TypeToStrRoundTrip(order, b);
  }
}
